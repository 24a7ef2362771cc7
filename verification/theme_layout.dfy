// _parse_layout of app/services/theme_pack.py: the home menu layout a pack asks for, cleaned.
module ThemeLayout {
  import opened Common
  import opened PackValues
  import opened ThemeStore

  /** A value, an invalid entry, or the exception an unhashable list element raises. */
  datatype Parsing<T> = Usable(value: T) | Invalid | TypeError

  // ---- what the cleaned layout should be -----------------------------------------------------

  predicate IsAllowed(j: Json, allowed: set<string>) {
    j.JStr? && j.text in allowed
  }

  /** The allowed keys a row, or all rows, mention, in order and with repeats. */
  function RowMentions(row: seq<Json>, allowed: set<string>): seq<string> {
    if row == [] then []
    else
      RowMentions(row[..|row| - 1], allowed)
      + (if IsAllowed(row[|row| - 1], allowed) then [row[|row| - 1].text] else [])
  }

  function Mentions(rows: seq<Json>, allowed: set<string>): seq<string> {
    if rows == [] then []
    else
      Mentions(rows[..|rows| - 1], allowed)
      + (if rows[|rows| - 1].JList? then RowMentions(rows[|rows| - 1].elements, allowed) else [])
  }

  /** First occurrences, in order. */
  function Firsts(s: seq<string>): (r: seq<string>)
    ensures NoRepeat(r)
    ensures forall k :: k in r <==> k in s
  {
    if s == [] then []
    else
      var n := |s| - 1;
      assert s == s[..n] + [s[n]];
      if s[n] in Firsts(s[..n]) then Firsts(s[..n]) else Firsts(s[..n]) + [s[n]]
  }

  predicate NoEmptyRow(rows: seq<seq<string>>) {
    forall i :: 0 <= i < |rows| ==> rows[i] != []
  }

  predicate IsHidden(hidden: seq<Json>, key: string) {
    exists i :: 0 <= i < |hidden| && hidden[i] == JStr(key)
  }

  /** A layout fit for the home menu: only placed keys are hidden, each listed once, in order. */
  ghost predicate CleanLayout(l: Layout, allowed: set<string>) {
    && l.rows != [] && NoEmptyRow(l.rows) && NoRepeat(Flat(l.rows))
    && (forall k :: k in Flat(l.rows) ==> k in allowed)
    && Ascending(l.hidden)
    && (forall k :: k in l.hidden ==> k in Flat(l.rows))
  }

  // ---- the loops, as functions ---------------------------------------------------------------

  datatype Keys = Keys(keys: seq<string>, placed: set<string>)

  function KeepKey(sofar: Keys, j: Json, allowed: set<string>): Keys {
    if IsAllowed(j, allowed) && j.text !in sofar.placed then Keys(sofar.keys + [j.text], sofar.placed + {j.text})
    else sofar
  }

  function KeepRow(row: seq<Json>, allowed: set<string>, placed: set<string>): Keys {
    if row == [] then Keys([], placed)
    else KeepKey(KeepRow(row[..|row| - 1], allowed, placed), row[|row| - 1], allowed)
  }

  datatype Rows = Rows(rows: seq<seq<string>>, placed: set<string>)

  function KeepNext(sofar: Rows, j: Json, allowed: set<string>): Rows {
    if j.JList? then
      var kept := KeepRow(j.elements, allowed, sofar.placed);
      Rows(if kept.keys == [] then sofar.rows else sofar.rows + [kept.keys], kept.placed)
    else sofar
  }

  function KeepRows(rows: seq<Json>, allowed: set<string>): Rows {
    if rows == [] then Rows([], {})
    else KeepNext(KeepRows(rows[..|rows| - 1], allowed), rows[|rows| - 1], allowed)
  }

  /** sorted({key for key in hidden if key in placed}) */
  function SortHidden(hidden: seq<Json>, placed: set<string>): seq<string> {
    if hidden == [] then []
    else
      var rest := SortHidden(hidden[..|hidden| - 1], placed);
      var j := hidden[|hidden| - 1];
      if j.JStr? && j.text in placed then InsertKey(rest, j.text) else rest
  }

  predicate Unhashable(j: Json) {
    j.JList? || j.JDict?
  }

  predicate AnyUnhashable(s: seq<Json>) {
    exists i :: 0 <= i < |s| && Unhashable(s[i])
  }

  /** x.get("hidden") or [] */
  function HiddenOf(layout: Dict<Json>): Json {
    var hidden := Get(layout, "hidden");
    if hidden.Some? && Truthy(hidden.value) then hidden.value else JList([])
  }

  function ParsedLayout(layout: Dict<Json>, allowed: set<string>): Parsing<Layout> {
    var rows, hidden := Get(layout, "rows"), HiddenOf(layout);
    if rows.None? || !rows.value.JList? || !hidden.JList? then Invalid
    else
      var kept := KeepRows(rows.value.elements, allowed);
      if kept.rows == [] then Invalid
      else if AnyUnhashable(hidden.elements) then TypeError
      else Usable(Layout(kept.rows, SortHidden(hidden.elements, kept.placed)))
  }

  // ---- the loops -----------------------------------------------------------------------------

  method ParseLayout(layout: Dict<Json>, allowed: set<string>) returns (r: Parsing<Layout>)
    ensures r == ParsedLayout(layout, allowed)
    ensures r.Usable? ==>
      && CleanLayout(r.value, allowed)
      && Flat(r.value.rows) == Firsts(Mentions(Get(layout, "rows").value.elements, allowed))
      && forall k :: k in r.value.hidden <==>
           k in Flat(r.value.rows) && HiddenOf(layout).JList? && IsHidden(HiddenOf(layout).elements, k)
  {
    var rows, hidden := Get(layout, "rows"), HiddenOf(layout);
    if rows.None? || !rows.value.JList? || !hidden.JList? {
      return Invalid;
    }
    var raw := rows.value.elements;
    var placed: set<string>, cleanRows: seq<seq<string>> := {}, [];
    for n := 0 to |raw|
      invariant Rows(cleanRows, placed) == KeepRows(raw[..n], allowed)
    {
      TakeNext(raw, n);
      if !raw[n].JList? {
        continue;
      }
      var row := raw[n].elements;
      var keys: seq<string>, before := [], placed;
      for m := 0 to |row|
        invariant Keys(keys, placed) == KeepRow(row[..m], allowed, before)
      {
        TakeNext(row, m);
        if row[m].JStr? && row[m].text in allowed && row[m].text !in placed {
          keys, placed := keys + [row[m].text], placed + {row[m].text};
        }
      }
      TakeAll(row);
      if |keys| > 0 {
        cleanRows := cleanRows + [keys];
      }
    }
    TakeAll(raw);
    if |cleanRows| == 0 {
      return Invalid;
    }
    if AnyUnhashable(hidden.elements) {
      return TypeError;
    }
    KeptRowsAreFirsts(raw, allowed);
    MentionsAreAllowed(raw, allowed);
    HiddenIsSorted(hidden.elements, placed);
    return Usable(Layout(cleanRows, SortHidden(hidden.elements, placed)));
  }

  ghost predicate KeptFirsts(kept: Keys, before: seq<string>, mentioned: seq<string>) {
    && Firsts(mentioned) == Firsts(before) + kept.keys
    && forall k :: k in kept.placed <==> k in Firsts(mentioned)
  }

  lemma KeepKeyIsFirst(kept: Keys, before: seq<string>, mentioned: seq<string>, j: Json, allowed: set<string>)
    requires KeptFirsts(kept, before, mentioned) && IsAllowed(j, allowed)
    ensures KeptFirsts(KeepKey(kept, j, allowed), before, mentioned + [j.text])
  {
  }

  lemma {:induction false} KeptRowIsFirsts(row: seq<Json>, allowed: set<string>, before: seq<string>, placed: set<string>)
    requires forall k :: k in placed <==> k in Firsts(before)
    ensures KeptFirsts(KeepRow(row, allowed, placed), before, before + RowMentions(row, allowed))
  {
    if row == [] {
      assert before + [] == before;
      assert Firsts(before) + [] == Firsts(before);
    } else {
      var n := |row| - 1;
      KeptRowIsFirsts(row[..n], allowed, before, placed);
      var some := RowMentions(row[..n], allowed);
      if IsAllowed(row[n], allowed) {
        KeepKeyIsFirst(KeepRow(row[..n], allowed, placed), before, before + some, row[n], allowed);
        assert before + (some + [row[n].text]) == (before + some) + [row[n].text];
      } else {
        assert some + [] == some;
      }
    }
  }

  lemma {:induction false} RowMentionsAreAllowed(row: seq<Json>, allowed: set<string>)
    ensures forall k :: k in RowMentions(row, allowed) ==> k in allowed
  {
    if row != [] {
      RowMentionsAreAllowed(row[..|row| - 1], allowed);
    }
  }

  /** What was kept so far agrees with the keys mentioned so far. */
  ghost predicate Agrees(sofar: Rows, mentioned: seq<string>) {
    && Flat(sofar.rows) == Firsts(mentioned)
    && NoEmptyRow(sofar.rows)
    && forall k :: k in sofar.placed <==> k in Firsts(mentioned)
  }

  lemma NextRowAgrees(sofar: Rows, mentioned: seq<string>, j: Json, allowed: set<string>)
    requires Agrees(sofar, mentioned) && j.JList?
    ensures Agrees(KeepNext(sofar, j, allowed), mentioned + RowMentions(j.elements, allowed))
  {
    var kept := KeepRow(j.elements, allowed, sofar.placed);
    KeptRowIsFirsts(j.elements, allowed, mentioned, sofar.placed);
    if kept.keys == [] {
      assert Firsts(mentioned) + kept.keys == Firsts(mentioned);
    } else {
      FlatAppend(sofar.rows, kept.keys);
    }
  }

  /** The kept rows hold exactly the first occurrences of allowed keys, in their order. */
  lemma {:induction false} KeptRowsAreFirsts(rows: seq<Json>, allowed: set<string>)
    ensures Agrees(KeepRows(rows, allowed), Mentions(rows, allowed))
  {
    if rows != [] {
      var n := |rows| - 1;
      KeptRowsAreFirsts(rows[..n], allowed);
      if rows[n].JList? {
        NextRowAgrees(KeepRows(rows[..n], allowed), Mentions(rows[..n], allowed), rows[n], allowed);
      } else {
        assert Mentions(rows, allowed) == Mentions(rows[..n], allowed);
      }
    }
  }

  lemma {:induction false} MentionsAreAllowed(rows: seq<Json>, allowed: set<string>)
    ensures forall k :: k in Mentions(rows, allowed) ==> k in allowed
  {
    if rows != [] {
      var n := |rows| - 1;
      MentionsAreAllowed(rows[..n], allowed);
      if rows[n].JList? {
        RowMentionsAreAllowed(rows[n].elements, allowed);
      }
    }
  }

  lemma {:induction false} HiddenIsSorted(hidden: seq<Json>, placed: set<string>)
    ensures Ascending(SortHidden(hidden, placed))
    ensures forall k :: k in SortHidden(hidden, placed) <==> k in placed && IsHidden(hidden, k)
  {
    if hidden != [] {
      var n := |hidden| - 1;
      HiddenIsSorted(hidden[..n], placed);
      assert forall k :: IsHidden(hidden, k) <==> IsHidden(hidden[..n], k) || hidden[n] == JStr(k);
      if hidden[n].JStr? {
        InsertKeyKeepsOrder(SortHidden(hidden[..n], placed), hidden[n].text);
      }
    }
  }

  /** Some row mentions an allowed key, and the hidden list holds a list or an object. */
  predicate MeetsUnhashable(layout: Dict<Json>, allowed: set<string>) {
    var rows, hidden := Get(layout, "rows"), HiddenOf(layout);
    && rows.Some? && rows.value.JList? && Mentions(rows.value.elements, allowed) != []
    && hidden.JList? && exists i :: 0 <= i < |hidden.elements| && (hidden.elements[i].JList? || hidden.elements[i].JDict?)
  }

  lemma AnyUnhashableMeans(s: seq<Json>)
    ensures AnyUnhashable(s) <==> exists i :: 0 <= i < |s| && (s[i].JList? || s[i].JDict?)
  {
    if i :| 0 <= i < |s| && (s[i].JList? || s[i].JDict?) {
      assert Unhashable(s[i]);
    }
  }

  /** A missing or empty hidden entry hides nothing; any other one is taken as it is. */
  lemma HiddenMeans(layout: Dict<Json>)
    ensures var hidden := Get(layout, "hidden");
      HiddenOf(layout) ==
        if hidden == None || hidden.value == JNull || hidden.value == JBool(false) || hidden.value == JInt(0)
           || hidden.value == JFloat(0.0) || hidden.value == JStr("") || hidden.value == JList([])
           || hidden.value == JDict([])
        then JList([]) else hidden.value
  {
  }

  /** The exact condition under which cleaning a layout raises TypeError. */
  lemma TypeErrorIffUnhashableHidden(layout: Dict<Json>, allowed: set<string>)
    ensures ParsedLayout(layout, allowed) == TypeError <==> MeetsUnhashable(layout, allowed)
  {
    var rows, hidden := Get(layout, "rows"), HiddenOf(layout);
    if hidden.JList? {
      AnyUnhashableMeans(hidden.elements);
    }
    if rows.Some? && rows.value.JList? {
      SomethingKeptIffMentioned(rows.value.elements, allowed);
    }
  }

  lemma SomethingKeptIffMentioned(rows: seq<Json>, allowed: set<string>)
    ensures KeepRows(rows, allowed).rows != [] <==> Mentions(rows, allowed) != []
  {
    KeptRowsAreFirsts(rows, allowed);
    var kept, m := KeepRows(rows, allowed).rows, Mentions(rows, allowed);
    assert kept != [] ==> Flat(kept) != [];
    if m != [] {
      assert m[0] in m;
      assert m[0] in Firsts(m);
    } else {
      assert Firsts(m) == [];
    }
  }

  // ---- the layout among the entries of a pack ------------------------------------------------

  /** A pack has one layout entry at most; a valid one is clean. */
  ghost predicate OneLayout(items: seq<Item>, home: set<string>) {
    && (forall x :: x in items && x.LayoutItem? ==> x.layout == ChosenLayout(items))
    && (ChosenLayout(items).Some? ==> CleanLayout(ChosenLayout(items).value, home))
  }

  lemma {:induction false} FirstLayoutIsThere(items: seq<Item>)
    ensures (exists x :: x in items && x.LayoutItem?) ==> LayoutItem(ChosenLayout(items)) in items
    ensures (forall x :: x in items ==> !x.LayoutItem?) ==> ChosenLayout(items) == None
  {
    if items != [] {
      FirstLayoutIsThere(items[1..]);
      assert items == [items[0]] + items[1..];
    }
  }

  // ---- a clean layout parses to itself -------------------------------------------------------

  function Strings(s: seq<string>): seq<Json> {
    if s == [] then [] else Strings(s[..|s| - 1]) + [JStr(s[|s| - 1])]
  }

  function RowLists(rows: seq<seq<string>>): seq<Json> {
    if rows == [] then [] else RowLists(rows[..|rows| - 1]) + [JList(Strings(rows[|rows| - 1]))]
  }

  function LayoutJson(l: Layout): Dict<Json> {
    [("rows", JList(RowLists(l.rows))), ("hidden", JList(Strings(l.hidden)))]
  }

  lemma {:induction false} StringsLength(s: seq<string>)
    ensures |Strings(s)| == |s|
    ensures forall i :: 0 <= i < |s| ==> Strings(s)[i] == JStr(s[i])
  {
    if s != [] {
      StringsLength(s[..|s| - 1]);
    }
  }

  lemma FirstOfNoRepeat(s: seq<string>)
    requires NoRepeat(s) && s != []
    ensures NoRepeat(s[..|s| - 1]) && s[|s| - 1] !in s[..|s| - 1] && s[|s| - 1] in s
    ensures forall k :: k in s[..|s| - 1] ==> k in s
  {
  }

  ghost predicate KeptWhole(kept: Keys, row: seq<string>, placed: set<string>) {
    kept.keys == row && forall k :: k in kept.placed <==> k in placed || k in row
  }

  lemma FreshKeyIsKept(kept: Keys, row: seq<string>, key: string, allowed: set<string>, placed: set<string>)
    requires KeptWhole(kept, row, placed)
    requires key in allowed && key !in placed && key !in row
    ensures KeptWhole(KeepKey(kept, JStr(key), allowed), row + [key], placed)
  {
  }

  lemma {:induction false} FreshRowIsKept(row: seq<string>, allowed: set<string>, placed: set<string>)
    requires NoRepeat(row)
    requires forall k :: k in row ==> k in allowed && k !in placed
    ensures KeptWhole(KeepRow(Strings(row), allowed, placed), row, placed)
  {
    if row != [] {
      var init, last := row[..|row| - 1], row[|row| - 1];
      FirstOfNoRepeat(row);
      FreshRowIsKept(init, allowed, placed);
      FreshKeyIsKept(KeepRow(Strings(init), allowed, placed), init, last, allowed, placed);
      KeepRowAppend(Strings(init), JStr(last), allowed, placed);
      assert row == init + [last];
    }
  }

  lemma KeepRowAppend(row: seq<Json>, j: Json, allowed: set<string>, placed: set<string>)
    ensures KeepRow(row + [j], allowed, placed) == KeepKey(KeepRow(row, allowed, placed), j, allowed)
  {
  }

  lemma KeepRowsAppend(rows: seq<Json>, j: Json, allowed: set<string>)
    ensures KeepRows(rows + [j], allowed) == KeepNext(KeepRows(rows, allowed), j, allowed)
  {
  }

  lemma NextCleanRowIsKept(sofar: Rows, row: seq<string>, allowed: set<string>)
    requires row != [] && NoRepeat(Flat(sofar.rows) + row) && PlacedExactly(sofar)
    requires forall k :: k in row ==> k in allowed
    ensures KeepNext(sofar, JList(Strings(row)), allowed).rows == sofar.rows + [row]
    ensures PlacedExactly(KeepNext(sofar, JList(Strings(row)), allowed))
  {
    SplitNoRepeat(Flat(sofar.rows), row);
    FreshRowIsKept(row, allowed, sofar.placed);
    FlatAppend(sofar.rows, row);
  }

  ghost predicate PlacedExactly(kept: Rows) {
    forall k :: k in kept.placed <==> k in Flat(kept.rows)
  }

  lemma {:induction false} CleanRowsAreKept(rows: seq<seq<string>>, allowed: set<string>)
    requires NoEmptyRow(rows) && NoRepeat(Flat(rows))
    requires forall k :: k in Flat(rows) ==> k in allowed
    ensures KeepRows(RowLists(rows), allowed).rows == rows
    ensures PlacedExactly(KeepRows(RowLists(rows), allowed))
  {
    if rows != [] {
      var n := |rows| - 1;
      var init, last := rows[..n], rows[n];
      assert rows == init + [last];
      assert NoRepeat(Flat(init) + last) && NoRepeat(Flat(init)) by {
        SplitNoRepeat(Flat(init), last);
      }
      assert NoEmptyRow(init) && last != [];
      CleanRowsAreKept(init, allowed);
      NextCleanRowIsKept(KeepRows(RowLists(init), allowed), last, allowed);
      KeepRowsAppend(RowLists(init), JList(Strings(last)), allowed);
    }
  }

  lemma SortHiddenAppend(hidden: seq<Json>, key: string, placed: set<string>)
    requires key in placed
    ensures SortHidden(hidden + [JStr(key)], placed) == InsertKey(SortHidden(hidden, placed), key)
  {
  }

  lemma {:induction false} SortedHiddenStays(hidden: seq<string>, placed: set<string>)
    requires Ascending(hidden) && forall k :: k in hidden ==> k in placed
    ensures SortHidden(Strings(hidden), placed) == hidden
  {
    if hidden != [] {
      var n := |hidden| - 1;
      var init, last := hidden[..n], hidden[n];
      assert hidden == init + [last];
      assert last in placed;
      SortedHiddenStays(init, placed);
      SortHiddenAppend(Strings(init), last, placed);
      InsertGreatest(init, last);
    }
  }

  /** Parsing what a clean layout is written as gives the same layout. */
  lemma CleanLayoutParsesToItself(l: Layout, allowed: set<string>)
    requires CleanLayout(l, allowed)
    ensures ParsedLayout(LayoutJson(l), allowed) == Usable(l)
  {
    var d := LayoutJson(l);
    assert "rows" != "hidden" by { assert |"rows"| != |"hidden"|; }
    assert UniqueKeys(d);
    GetAt(d, 0);
    GetAt(d, 1);
    StringsLength(l.hidden);
    assert HiddenOf(d) == JList(Strings(l.hidden));
    CleanRowsAreKept(l.rows, allowed);
    SortedHiddenStays(l.hidden, KeepRows(RowLists(l.rows), allowed).placed);
  }
}

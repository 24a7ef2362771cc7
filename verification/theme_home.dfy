// The home menu as the bot reads it back (current_home_layout, _current_layout), and what a second apply
// of the same pack finds to do.
module ThemeHome {
  import opened Common
  import opened Orders
  import opened PackValues
  import opened ThemeStore
  import opened ThemeLayout
  import opened ThemeEffects
  import opened ThemeDesk

  // ---- reading the menu back -----------------------------------------------------------------

  predicate HasPlace(b: Buttons, key: string) {
    key in b && b[key].spot.sortRow.Some?
  }

  function RowNumber(b: Buttons, key: string): int {
    if HasPlace(b, key) then b[key].spot.sortRow.value else 0
  }

  /** row.sort_order or 0 */
  function OrderNumber(b: Buttons, key: string): int {
    if HasPlace(b, key) && b[key].spot.sortOrder.Some? then b[key].spot.sortOrder.value else 0
  }

  /** By row, inside a row by position, at one position by key. */
  predicate Before(b: Buttons, x: string, y: string) {
    || RowNumber(b, x) < RowNumber(b, y)
    || (RowNumber(b, x) == RowNumber(b, y)
        && (OrderNumber(b, x) < OrderNumber(b, y) || (OrderNumber(b, x) == OrderNumber(b, y) && Below(x, y))))
  }

  function Insert(b: Buttons, s: seq<string>, key: string): seq<string> {
    if s == [] then [key]
    else if Before(b, key, s[0]) then [key] + s
    else [s[0]] + Insert(b, s[1..], key)
  }

  /** The placed keys, sorted; `order` is the order in which the buttons were read. */
  function PlacedKeys(b: Buttons, order: seq<string>): seq<string> {
    if order == [] then []
    else
      var rest, key := PlacedKeys(b, order[..|order| - 1]), order[|order| - 1];
      if HasPlace(b, key) then Insert(b, rest, key) else rest
  }

  /** One row per row number. */
  function Grouped(b: Buttons, keys: seq<string>): seq<seq<string>> {
    if keys == [] then []
    else
      var n := |keys| - 1;
      var rows := Grouped(b, keys[..n]);
      if n > 0 && rows != [] && RowNumber(b, keys[n - 1]) == RowNumber(b, keys[n]) then
        rows[|rows| - 1 := rows[|rows| - 1] + [keys[n]]]
      else rows + [[keys[n]]]
  }

  /** A home key that stands nowhere goes to a trailing row of its own. */
  function Trailing(seen: seq<string>, home: seq<string>): seq<seq<string>> {
    if home == [] then []
    else
      var rest, key := Trailing(seen, home[..|home| - 1]), home[|home| - 1];
      if key in seen then rest else rest + [[key]]
  }

  /** The rows shown; `builtIn` is the layout of a bot whose admin placed nothing. */
  function CurrentRows(b: Buttons, order: seq<string>, builtIn: seq<seq<string>>): seq<seq<string>> {
    var rows := Grouped(b, PlacedKeys(b, order));
    if rows == [] then builtIn else rows + Trailing(Flat(rows), Flat(builtIn))
  }

  /** sorted(key for key in home if it is stored and hidden) */
  function CurrentHidden(b: Buttons, home: seq<string>): seq<string> {
    if home == [] then []
    else
      var rest, key := CurrentHidden(b, home[..|home| - 1]), home[|home| - 1];
      if key in b && b[key].spot.hidden then InsertKey(rest, key) else rest
  }

  predicate IsCurrent(l: Layout, b: Buttons, order: seq<string>, builtIn: seq<seq<string>>) {
    CurrentRows(b, order, builtIn) == l.rows && CurrentHidden(b, Flat(builtIn)) == l.hidden
  }

  // ---- the sorted keys -------------------------------------------------------------------------

  ghost predicate Sorted(b: Buttons, s: seq<string>) {
    forall i, j :: 0 <= i < j < |s| ==> Before(b, s[i], s[j])
  }

  lemma BeforeIsStrictOrder(b: Buttons, x: string, y: string, z: string)
    ensures !Before(b, x, x)
    ensures x != y ==> Before(b, x, y) || Before(b, y, x)
    ensures Before(b, x, y) && Before(b, y, z) ==> Before(b, x, z)
  {
    BelowIsStrictOrder(x, y, z);
  }

  lemma {:induction false} InsertKeepsSorted(b: Buttons, s: seq<string>, key: string)
    requires Sorted(b, s) && key !in s
    ensures Sorted(b, Insert(b, s, key))
    ensures forall k :: k in Insert(b, s, key) <==> k == key || k in s
  {
    if s != [] {
      if Before(b, key, s[0]) {
        forall j | 0 <= j < |s| ensures Before(b, key, s[j]) {
          BeforeIsStrictOrder(b, key, s[0], s[j]);
        }
      } else {
        var rest := Insert(b, s[1..], key);
        InsertKeepsSorted(b, s[1..], key);
        BeforeIsStrictOrder(b, s[0], key, key);
        forall j | 0 <= j < |rest| ensures Before(b, s[0], rest[j]) {
          assert rest[j] in rest;
        }
      }
    }
  }

  lemma {:induction false} PlacedKeysAreSorted(b: Buttons, order: seq<string>)
    requires NoRepeat(order)
    ensures Sorted(b, PlacedKeys(b, order))
    ensures forall k :: k in PlacedKeys(b, order) <==> k in order && HasPlace(b, k)
  {
    if order != [] {
      var n := |order| - 1;
      PlacedKeysAreSorted(b, order[..n]);
      assert order == order[..n] + [order[n]];
      if HasPlace(b, order[n]) {
        InsertKeepsSorted(b, PlacedKeys(b, order[..n]), order[n]);
      }
    }
  }

  /** Two sorted sequences of the same keys are equal. */
  lemma SortedIsUnique(b: Buttons, s: seq<string>, t: seq<string>)
    requires Sorted(b, s) && Sorted(b, t)
    requires forall k :: k in s <==> k in t
    ensures s == t
  {
    var before := (x, y) => Before(b, x, y);
    forall x, y | Before(b, x, y) ensures !Before(b, y, x) {
      BeforeIsStrictOrder(b, x, y, x);
    }
    SortedOnce(s, t, before);
  }

  // ---- what a layout just put in place reads back as ------------------------------------------

  /** Each key of the layout stands where the layout says, and no other button is placed. */
  ghost predicate LaidOut(b: Buttons, rows: seq<seq<string>>) {
    && (forall r: nat, p: nat, k :: StandsAt(rows, r, p, k) ==>
         k in b && b[k].spot.sortRow == Some(r) && b[k].spot.sortOrder == Some(p))
    && (forall k :: HasPlace(b, k) ==> k in Flat(rows))
  }

  ghost predicate InRows(b: Buttons, rows: seq<seq<string>>) {
    forall r: nat, p: nat, k :: StandsAt(rows, r, p, k) ==> RowNumber(b, k) == r && OrderNumber(b, k) == p
  }

  lemma InFewerRows(b: Buttons, rows: seq<seq<string>>, before: seq<seq<string>>, row: seq<string>)
    requires InRows(b, rows) && rows == before + [row]
    ensures InRows(b, before)
    ensures forall k :: k in Flat(before) ==> RowNumber(b, k) < |before|
    ensures forall p :: 0 <= p < |row| ==> RowNumber(b, row[p]) == |before| && OrderNumber(b, row[p]) == p
  {
    forall r: nat, p: nat, k | StandsAt(before, r, p, k) ensures RowNumber(b, k) == r && OrderNumber(b, k) == p {
      assert StandsAt(rows, r, p, k);
    }
    forall k | k in Flat(before) ensures RowNumber(b, k) < |before| {
      FlatStands(before, k);
    }
    forall p | 0 <= p < |row| ensures RowNumber(b, row[p]) == |before| && OrderNumber(b, row[p]) == p {
      assert StandsAt(rows, |before|, p, row[p]);
    }
  }

  lemma {:induction false} FlatStands(rows: seq<seq<string>>, k: string)
    ensures k in Flat(rows) <==> exists r: nat, p: nat :: StandsAt(rows, r, p, k)
  {
    if rows != [] {
      var n := |rows| - 1;
      FlatStands(rows[..n], k);
      if k in Flat(rows[..n]) {
        var r: nat, p: nat :| StandsAt(rows[..n], r, p, k);
        assert StandsAt(rows, r, p, k);
      } else if k in rows[n] {
        var p :| 0 <= p < |rows[n]| && rows[n][p] == k;
        assert StandsAt(rows, n, p, k);
      }
      if r: nat, p: nat :| StandsAt(rows, r, p, k) {
        assert r < n ==> StandsAt(rows[..n], r, p, k);
      }
    }
  }

  lemma {:induction false} FlatIsSorted(b: Buttons, rows: seq<seq<string>>)
    requires InRows(b, rows)
    ensures Sorted(b, Flat(rows))
  {
    if rows != [] {
      var n := |rows| - 1;
      InFewerRows(b, rows, rows[..n], rows[n]);
      FlatIsSorted(b, rows[..n]);
      var before := Flat(rows[..n]);
      forall i, j | 0 <= i < j < |Flat(rows)| ensures Before(b, Flat(rows)[i], Flat(rows)[j]) {
        assert i < |before| ==> Flat(rows)[i] == before[i] && before[i] in before;
      }
    }
  }

  /** One more key: it joins the last row when that has its row number. */
  lemma GroupedNext(b: Buttons, keys: seq<string>, key: string)
    ensures Grouped(b, keys + [key]) ==
      var rows := Grouped(b, keys);
      if keys != [] && rows != [] && RowNumber(b, keys[|keys| - 1]) == RowNumber(b, key) then
        rows[|rows| - 1 := rows[|rows| - 1] + [key]]
      else rows + [[key]]
  {
    assert (keys + [key])[..|keys|] == keys;
  }

  lemma LastRowGrows(rows: seq<seq<string>>, row: seq<string>, key: string)
    ensures (rows + [row])[|rows| := row + [key]] == rows + [row + [key]]
  {
  }

  lemma {:induction false} GroupedRow(b: Buttons, before: seq<string>, row: seq<string>)
    requires row != [] && (forall i :: 0 <= i < |row| ==> RowNumber(b, row[i]) == RowNumber(b, row[0]))
    requires forall k :: k in before ==> RowNumber(b, k) < RowNumber(b, row[0])
    ensures Grouped(b, before + row) == Grouped(b, before) + [row]
  {
    var init, last := row[..|row| - 1], row[|row| - 1];
    assert row == init + [last];
    assert before + row == (before + init) + [last];
    GroupedNext(b, before + init, last);
    if init == [] {
      assert before + init == before;
      assert before != [] ==> before[|before| - 1] in before;
    } else {
      GroupedRow(b, before, init);
      assert (before + init)[|before + init| - 1] == init[|init| - 1];
      LastRowGrows(Grouped(b, before), init, last);
    }
  }

  lemma {:induction false} FlatIsGrouped(b: Buttons, rows: seq<seq<string>>)
    requires InRows(b, rows) && NoEmptyRow(rows)
    ensures Grouped(b, Flat(rows)) == rows
  {
    if rows != [] {
      var n := |rows| - 1;
      InFewerRows(b, rows, rows[..n], rows[n]);
      FlatIsGrouped(b, rows[..n]);
      GroupedRow(b, Flat(rows[..n]), rows[n]);
      assert rows == rows[..n] + [rows[n]];
    }
  }

  lemma {:induction false} TrailingHoldsTheRest(seen: seq<string>, home: seq<string>)
    ensures Trailing(seen, home) == [] <==> forall k :: k in home ==> k in seen
    ensures forall k :: k in Flat(Trailing(seen, home)) <==> k in home && k !in seen
  {
    if home != [] {
      var n := |home| - 1;
      TrailingHoldsTheRest(seen, home[..n]);
      assert home == home[..n] + [home[n]];
      FlatAppend(Trailing(seen, home[..n]), [home[n]]);
    }
  }

  /** The menu shows every home key. */
  lemma CurrentRowsCoverHome(b: Buttons, order: seq<string>, builtIn: seq<seq<string>>, key: string)
    requires key in Flat(builtIn)
    ensures key in Flat(CurrentRows(b, order, builtIn))
  {
    var rows := Grouped(b, PlacedKeys(b, order));
    FlatConcat(rows, Trailing(Flat(rows), Flat(builtIn)));
    TrailingHoldsTheRest(Flat(rows), Flat(builtIn));
  }

  lemma {:induction false} CurrentHiddenIsSorted(b: Buttons, home: seq<string>)
    ensures Ascending(CurrentHidden(b, home))
    ensures forall k :: k in CurrentHidden(b, home) <==> k in home && k in b && b[k].spot.hidden
  {
    if home != [] {
      var n := |home| - 1;
      CurrentHiddenIsSorted(b, home[..n]);
      assert home == home[..n] + [home[n]];
      if home[n] in b && b[home[n]].spot.hidden {
        InsertKeyKeepsOrder(CurrentHidden(b, home[..n]), home[n]);
      }
    }
  }

  /** A layout is the current one when the menu shows its rows and hides exactly its hidden keys. */
  lemma IsCurrentMeans(l: Layout, b: Buttons, order: seq<string>, builtIn: seq<seq<string>>)
    ensures IsCurrent(l, b, order, builtIn) <==>
      && CurrentRows(b, order, builtIn) == l.rows && Ascending(l.hidden)
      && forall k :: k in l.hidden <==> k in Flat(builtIn) && k in b && b[k].spot.hidden
  {
    CurrentHiddenIsSorted(b, Flat(builtIn));
    if Ascending(l.hidden) && forall k :: k in l.hidden <==> k in Flat(builtIn) && k in b && b[k].spot.hidden {
      AscendingIsUnique(CurrentHidden(b, Flat(builtIn)), l.hidden);
    }
  }

  ghost predicate HidesAs(b: Buttons, l: Layout) {
    forall k :: k in Flat(l.rows) ==> k in b && (b[k].spot.hidden <==> k in l.hidden)
  }

  /** A layout just put in place reads back as itself if and only if it places every home key. */
  lemma LaidOutIsCurrentIff(
      l: Layout, b: Buttons, order: seq<string>, builtIn: seq<seq<string>>, home: set<string>)
    requires NoRepeat(order) && forall k :: k in order <==> k in b
    requires CleanLayout(l, home) && forall k :: k in Flat(builtIn) <==> k in home
    requires LaidOut(b, l.rows) && HidesAs(b, l)
    ensures IsCurrent(l, b, order, builtIn) <==> forall k :: k in home ==> k in Flat(l.rows)
  {
    PlacedKeysAreSorted(b, order);
    assert InRows(b, l.rows);
    FlatIsSorted(b, l.rows);
    forall k ensures k in PlacedKeys(b, order) <==> k in Flat(l.rows) {
      FlatStands(l.rows, k);
    }
    SortedIsUnique(b, PlacedKeys(b, order), Flat(l.rows));
    FlatIsGrouped(b, l.rows);
    TrailingHoldsTheRest(Flat(l.rows), Flat(builtIn));
    if Trailing(Flat(l.rows), Flat(builtIn)) == [] {
      CurrentHiddenIsSorted(b, Flat(builtIn));
      AscendingIsUnique(CurrentHidden(b, Flat(builtIn)), l.hidden);
      assert CurrentRows(b, order, builtIn) == l.rows + [] == l.rows;
    } else {
      assert |CurrentRows(b, order, builtIn)| > |l.rows|;
    }
  }

  lemma AscendingIsUnique(s: seq<string>, t: seq<string>)
    requires Ascending(s) && Ascending(t)
    requires forall k :: k in s <==> k in t
    ensures s == t
  {
    assert forall i, j :: 0 <= i < j < |s| ==> Before(map[], s[i], s[j]);
    assert forall i, j :: 0 <= i < j < |t| ==> Before(map[], t[i], t[j]);
    SortedIsUnique(map[], s, t);
  }

  // ---- placing nothing leaves the menu as it was ---------------------------------------------

  ghost predicate SamePlaces(b: Buttons, c: Buttons) {
    forall k ::
      && (HasPlace(b, k) <==> HasPlace(c, k))
      && RowNumber(b, k) == RowNumber(c, k) && OrderNumber(b, k) == OrderNumber(c, k)
      && (k in b && b[k].spot.hidden <==> k in c && c[k].spot.hidden)
  }

  lemma {:induction false} SamePlacesSameRows(b: Buttons, c: Buttons, keys: seq<string>)
    requires SamePlaces(b, c)
    ensures Grouped(b, keys) == Grouped(c, keys)
  {
    if keys != [] {
      SamePlacesSameRows(b, c, keys[..|keys| - 1]);
    }
  }

  lemma {:induction false} SamePlacesSameHidden(b: Buttons, c: Buttons, home: seq<string>)
    requires SamePlaces(b, c)
    ensures CurrentHidden(b, home) == CurrentHidden(c, home)
  {
    if home != [] {
      SamePlacesSameHidden(b, c, home[..|home| - 1]);
    }
  }

  lemma SamePlacesReadTheSame(l: Layout, b: Buttons, bOrder: seq<string>, c: Buttons, cOrder: seq<string>,
                              builtIn: seq<seq<string>>)
    requires NoRepeat(bOrder) && NoRepeat(cOrder) && SamePlaces(b, c)
    requires (forall k :: k in bOrder <==> k in b) && (forall k :: k in cOrder <==> k in c)
    ensures IsCurrent(l, b, bOrder, builtIn) <==> IsCurrent(l, c, cOrder, builtIn)
  {
    PlacedKeysAreSorted(b, bOrder);
    PlacedKeysAreSorted(c, cOrder);
    assert Sorted(b, PlacedKeys(c, cOrder)) by {
      var keys := PlacedKeys(c, cOrder);
      assert forall i, j :: 0 <= i < j < |keys| ==> (Before(b, keys[i], keys[j]) <==> Before(c, keys[i], keys[j]));
    }
    SortedIsUnique(b, PlacedKeys(b, bOrder), PlacedKeys(c, cOrder));
    SamePlacesSameRows(b, c, PlacedKeys(b, bOrder));
    SamePlacesSameHidden(b, c, Flat(builtIn));
  }

  // ---- entries that contradict each other -----------------------------------------------------

  /** Two looks set one field to different values. */
  predicate PaintsClash(p: Paint, q: Paint) {
    || (p.text.Some? && q.text.Some? && p.text != q.text)
    || (p.style.Some? && q.style.Some? && StoredStyle(p.style.value) != StoredStyle(q.style.value))
    || (p.icon.Some? && q.icon.Some? && p.icon != q.icon)
  }

  /** Two valid entries for one text, or one button, that cannot both be in place. */
  predicate Clash(a: Item, b: Item) {
    || (a.TextItem? && b.TextItem? && a.key == b.key && a.lang.Some? && a.lang == b.lang
        && a.value.Some? && b.value.Some? && a.value != b.value)
    || (a.ButtonItem? && b.ButtonItem? && a.key == b.key
        && a.paint.Some? && b.paint.Some? && PaintsClash(a.paint.value, b.paint.value))
  }

  ghost predicate Contradicts(items: seq<Item>, wanted: Option<set<string>>) {
    exists a, b :: a in items && b in items && Ticked(a, wanted) && Ticked(b, wanted) && Clash(a, b)
  }

  lemma {:induction false} InChosen(items: seq<Item>, wanted: Option<set<string>>, seen: Store, sameLayout: bool)
    ensures forall x :: x in Chosen(items, wanted, seen, sameLayout) <==>
      x in items && Applicable(x, seen, sameLayout) && Ticked(x, wanted)
  {
    if items != [] {
      var n := |items| - 1;
      InChosen(items[..n], wanted, seen, sameLayout);
      assert items == items[..n] + [items[n]];
    }
  }

  ghost predicate WritesText(x: Item, slot: Slot, value: string) {
    x == TextItem(slot.key, Some(slot.lang), Some(value))
  }

  lemma LastValueOfOneMore(chosen: seq<Item>, x: Item, slot: Slot)
    ensures var v := LastValue(Writes(chosen + [x]), slot);
      || (v.Some? && WritesText(x, slot, v.value))
      || (v == LastValue(Writes(chosen), slot) && forall w :: !WritesText(x, slot, w))
  {
    assert (chosen + [x])[..|chosen|] == chosen;
    match x
    case TextItem(key, Some(lang), Some(value)) =>
      var edit := Write(Slot(key, lang), value);
      assert Writes(chosen + [x]) == Writes(chosen) + [edit];
      assert (Writes(chosen) + [edit])[..|Writes(chosen)|] == Writes(chosen);
    case _ =>
      assert Writes(chosen + [x]) == Writes(chosen);
  }

  lemma {:induction false} LastValueIsChosen(chosen: seq<Item>, slot: Slot)
    ensures var v := LastValue(Writes(chosen), slot);
      && (v.Some? ==> exists x :: x in chosen && WritesText(x, slot, v.value))
      && (v.None? ==> forall x, w :: WritesText(x, slot, w) ==> x !in chosen)
  {
    if chosen != [] {
      var n := |chosen| - 1;
      LastValueIsChosen(chosen[..n], slot);
      LastValueOfOneMore(chosen[..n], chosen[n], slot);
      assert chosen == chosen[..n] + [chosen[n]];
      var v := LastValue(Writes(chosen), slot);
      if v.Some? {
        var x :| x in chosen[..n] + [chosen[n]] && WritesText(x, slot, v.value);
        assert x in chosen;
      }
    }
  }

  lemma {:induction false} LastSetIsChosen<T>(chosen: seq<Item>, key: string, field: Paint -> Option<T>)
    ensures var v := LastSet(Dresses(chosen), key, field);
      && (v.Some? ==> exists p :: ButtonItem(key, Some(p)) in chosen && field(p) == v)
      && (v.None? ==> forall p :: ButtonItem(key, Some(p)) in chosen ==> field(p) == None)
  {
    if chosen != [] {
      var n := |chosen| - 1;
      LastSetIsChosen(chosen[..n], key, field);
      assert chosen == chosen[..n] + [chosen[n]];
      var v := LastSet(Dresses(chosen), key, field);
      if v.Some? {
        if p :| ButtonItem(key, Some(p)) in chosen[..n] && field(p) == v {
          assert ButtonItem(key, Some(p)) in chosen;
        }
      }
    }
  }

  // ---- whether a request ticks its layout --------------------------------------------------------

  predicate TicksLayout(r: Request) {
    ChosenLayout(r.items).Some? && Ticked(LayoutItem(ChosenLayout(r.items)), r.wanted)
  }

  lemma PickedLayout(r: Request, home: set<string>)
    requires OneLayout(r.items, home)
    ensures ChosenLayout(Picked(r)) == if TicksLayout(r) && !r.sameLayout then ChosenLayout(r.items) else None
  {
    InChosen(r.items, r.wanted, r.seen, r.sameLayout);
    FirstLayoutIsThere(r.items);
    FirstLayoutIsThere(Picked(r));
  }

  // ---- the second apply ------------------------------------------------------------------------

  /** The preview saw the rows the transaction reads, and compared the layout with the menu they give. */
  ghost predicate Previewed(t: Tables, r: Request, builtIn: seq<seq<string>>) {
    && ReadsTables(t, r) && r.seen == t.rows
    && (ChosenLayout(r.items).Some? ==>
         r.sameLayout == IsCurrent(ChosenLayout(r.items).value, t.rows.buttons, r.buttonOrder, builtIn))
  }

  ghost predicate InPlace(x: Item, rows: Store) {
    !Applicable(x, rows, true)
  }

  lemma TextIsInPlace(t: Tables, r: Request, defaults: map<string, string>, x: Item)
    requires ReadsTables(t, r) && r.seen == t.rows
    requires x in r.items && Ticked(x, r.wanted) && x.TextItem? && !Contradicts(r.items, r.wanted)
    ensures InPlace(x, Applied(t.rows, PlanFor(t, r, defaults)))
  {
    if x.lang.Some? && x.value.Some? {
      var slot := Slot(x.key, x.lang.value);
      TextAfterApply(t.rows, r.items, Picked(r), r.replace, defaults, r.textOrder, r.buttonOrder, slot);
      LastValueIsChosen(Picked(r), slot);
      InChosen(r.items, r.wanted, r.seen, r.sameLayout);
      var v := LastValue(Writes(Picked(r)), slot);
      if v.Some? {
        var y :| y in Picked(r) && WritesText(y, slot, v.value);
        assert !Clash(x, y);
      } else {
        assert WritesText(x, slot, x.value.value);
        assert MentionsText(r.items, slot);
      }
    }
  }

  lemma FieldIsInPlace<T>(r: Request, x: Item, field: Paint -> Option<T>, clash: (Paint, Paint) -> bool)
    requires x in r.items && Ticked(x, r.wanted) && x.ButtonItem? && x.paint.Some? && field(x.paint.value).Some?
    requires !Contradicts(r.items, r.wanted)
    requires forall p, q :: clash(p, q) ==> PaintsClash(p, q)
    ensures var v := LastSet(Dresses(Picked(r)), x.key, field);
      && (v.None? ==> x !in Picked(r))
      && (v.Some? ==> exists p :: field(p) == v && !clash(x.paint.value, p))
  {
    LastSetIsChosen(Picked(r), x.key, field);
    InChosen(r.items, r.wanted, r.seen, r.sameLayout);
    var v := LastSet(Dresses(Picked(r)), x.key, field);
    if v.Some? {
      var p :| ButtonItem(x.key, Some(p)) in Picked(r) && field(p) == v;
      assert !Clash(x, ButtonItem(x.key, Some(p)));
    }
  }

  /** What the last chosen entries make of a button agrees with any one of its ticked entries. */
  lemma LookIsInPlace(r: Request, x: Item, was: Look, now: Look)
    requires x in r.items && Ticked(x, r.wanted) && x.ButtonItem? && x.paint.Some? && !Contradicts(r.items, r.wanted)
    requires x !in Picked(r) ==> Painted(was, x.paint.value) == was
    requires Wears(now, was, Dresses(Picked(r)), x.key)
    ensures Painted(now, x.paint.value) == now
  {
    var p := x.paint.value;
    if p.text.Some? {
      FieldIsInPlace(r, x, TextIn, (p: Paint, q: Paint) => p.text.Some? && q.text.Some? && p.text != q.text);
    }
    if p.style.Some? {
      FieldIsInPlace(r, x, StyleIn, (p: Paint, q: Paint) =>
        p.style.Some? && q.style.Some? && StoredStyle(p.style.value) != StoredStyle(q.style.value));
    }
    if p.icon.Some? {
      FieldIsInPlace(r, x, IconIn, (p: Paint, q: Paint) => p.icon.Some? && q.icon.Some? && p.icon != q.icon);
    }
  }

  lemma ButtonIsInPlace(t: Tables, r: Request, defaults: map<string, string>, x: Item, home: set<string>)
    requires ReadsTables(t, r) && r.seen == t.rows && OneLayout(r.items, home)
    requires x in r.items && Ticked(x, r.wanted) && x.ButtonItem? && !Contradicts(r.items, r.wanted)
    ensures InPlace(x, Applied(t.rows, PlanFor(t, r, defaults)))
  {
    if x.paint.Some? {
      var now := Applied(t.rows, PlanFor(t, r, defaults)).buttons;
      PickedLayout(r, home);
      ButtonAfterApply(t.rows, r.items, Picked(r), r.replace, defaults, r.textOrder, r.buttonOrder, x.key);
      var was := Undressed(t.rows.buttons, x.key, r.replace, r.items, defaults).look;
      UnpickedIsPainted(t, r, defaults, x);
      assert x.key in now by {
        ChosenIsDressed(Picked(r), x.key);
      }
      LookIsInPlace(r, x, was, now[x.key].look);
      MatchingMeansNothingToPaint(now, x.key, x.paint.value);
    }
  }

  lemma UnpickedIsPainted(t: Tables, r: Request, defaults: map<string, string>, x: Item)
    requires r.seen == t.rows && x in r.items && Ticked(x, r.wanted) && x.ButtonItem? && x.paint.Some?
    ensures x !in Picked(r) ==>
      && x.key in t.rows.buttons
      && var was := Undressed(t.rows.buttons, x.key, r.replace, r.items, defaults).look;
         Painted(was, x.paint.value) == was
  {
    InChosen(r.items, r.wanted, r.seen, r.sameLayout);
    MatchingMeansNothingToPaint(t.rows.buttons, x.key, x.paint.value);
    assert MentionsButton(r.items, x.key);
  }

  lemma {:induction false} ChosenIsDressed(chosen: seq<Item>, key: string)
    ensures (exists p :: ButtonItem(key, Some(p)) in chosen) ==> LookEdits(Dresses(chosen), key) > 0
  {
    if chosen != [] {
      var n := |chosen| - 1;
      ChosenIsDressed(chosen[..n], key);
      assert chosen == chosen[..n] + [chosen[n]];
    }
  }

  function HomeOf(builtIn: seq<seq<string>>): set<string> {
    set key | key in Flat(builtIn)
  }

  predicate CoversHome(l: Layout, builtIn: seq<seq<string>>) {
    forall key :: key in Flat(builtIn) ==> key in Flat(l.rows)
  }

  lemma AppliedLayoutIsLaidOut(t: Tables, r: Request, defaults: map<string, string>, home: set<string>)
    requires ReadsTables(t, r) && OneLayout(r.items, home) && TicksLayout(r) && !r.sameLayout
    ensures var now, l := Applied(t.rows, PlanFor(t, r, defaults)).buttons, ChosenLayout(r.items).value;
      LaidOut(now, l.rows) && HidesAs(now, l)
  {
    var now, l := Applied(t.rows, PlanFor(t, r, defaults)).buttons, ChosenLayout(r.items).value;
    PickedLayout(r, home);
    InChosen(r.items, r.wanted, r.seen, r.sameLayout);
    forall k ensures
      && (k in Flat(l.rows) ==> k in now && (now[k].spot.hidden <==> k in l.hidden))
      && (HasPlace(now, k) ==> k in Flat(l.rows))
      && forall row: nat, p: nat :: StandsAt(l.rows, row, p, k) ==>
           k in now && now[k].spot.sortRow == Some(row) && now[k].spot.sortOrder == Some(p)
    {
      ButtonAfterApply(t.rows, r.items, Picked(r), r.replace, defaults, r.textOrder, r.buttonOrder, k);
      FlatStands(l.rows, k);
    }
  }

  lemma UnchosenLayoutStays(t: Tables, r: Request, defaults: map<string, string>)
    requires ReadsTables(t, r) && ChosenLayout(Picked(r)) == None
    ensures SamePlaces(t.rows.buttons, Applied(t.rows, PlanFor(t, r, defaults)).buttons)
  {
    InChosen(r.items, r.wanted, r.seen, r.sameLayout);
    forall k ensures
      var was, now := t.rows.buttons, Applied(t.rows, PlanFor(t, r, defaults)).buttons;
      && (k in was ==> k in now && now[k].spot == was[k].spot)
      && (k in now && k !in was ==> now[k].spot == NEW_BUTTON.spot)
    {
      ButtonAfterApply(t.rows, r.items, Picked(r), r.replace, defaults, r.textOrder, r.buttonOrder, k);
    }
  }

  /** After an apply that ticked it, a layout is the menu the bot shows if and only if it places every home key. */
  lemma TickedLayoutIsCurrentIff(t: Tables, r: Request, defaults: map<string, string>, builtIn: seq<seq<string>>,
                                 order: seq<string>)
    requires Previewed(t, r, builtIn) && OneLayout(r.items, HomeOf(builtIn)) && TicksLayout(r)
    requires NoRepeat(order)
    requires forall k :: k in order <==> k in Applied(t.rows, PlanFor(t, r, defaults)).buttons
    ensures IsCurrent(ChosenLayout(r.items).value, Applied(t.rows, PlanFor(t, r, defaults)).buttons, order, builtIn)
      <==> CoversHome(ChosenLayout(r.items).value, builtIn)
  {
    var now, l := Applied(t.rows, PlanFor(t, r, defaults)).buttons, ChosenLayout(r.items).value;
    PickedLayout(r, HomeOf(builtIn));
    if r.sameLayout {
      UnchosenLayoutStays(t, r, defaults);
      SamePlacesReadTheSame(l, t.rows.buttons, r.buttonOrder, now, order, builtIn);
      forall key | key in Flat(builtIn) ensures key in Flat(l.rows) {
        CurrentRowsCoverHome(t.rows.buttons, r.buttonOrder, builtIn, key);
      }
    } else {
      AppliedLayoutIsLaidOut(t, r, defaults, HomeOf(builtIn));
      LaidOutIsCurrentIff(l, now, order, builtIn, HomeOf(builtIn));
    }
  }

  ghost predicate AllInPlace(items: seq<Item>, wanted: Option<set<string>>, rows: Store) {
    forall x :: x in items && Ticked(x, wanted) && !x.LayoutItem? ==> InPlace(x, rows)
  }

  lemma ContradictionStaysOut(items: seq<Item>, wanted: Option<set<string>>, rows: Store)
    requires Contradicts(items, wanted)
    ensures !AllInPlace(items, wanted, rows)
  {
    var a, b :| a in items && b in items && Ticked(a, wanted) && Ticked(b, wanted) && Clash(a, b);
    assert !InPlace(a, rows) || !InPlace(b, rows);
  }

  lemma AllInPlaceIff(t: Tables, r: Request, defaults: map<string, string>, home: set<string>)
    requires ReadsTables(t, r) && r.seen == t.rows && OneLayout(r.items, home)
    ensures AllInPlace(r.items, r.wanted, Applied(t.rows, PlanFor(t, r, defaults))) <==> !Contradicts(r.items, r.wanted)
  {
    var now := Applied(t.rows, PlanFor(t, r, defaults));
    if Contradicts(r.items, r.wanted) {
      ContradictionStaysOut(r.items, r.wanted, now);
    } else {
      forall x | x in r.items && Ticked(x, r.wanted) && !x.LayoutItem? ensures InPlace(x, now) {
        if x.TextItem? {
          TextIsInPlace(t, r, defaults, x);
        } else {
          ButtonIsInPlace(t, r, defaults, x, home);
        }
      }
    }
  }

  lemma NothingPickedIff(r: Request, home: set<string>)
    requires OneLayout(r.items, home)
    ensures Picked(r) == [] <==> AllInPlace(r.items, r.wanted, r.seen) && (TicksLayout(r) ==> r.sameLayout)
  {
    InChosen(r.items, r.wanted, r.seen, r.sameLayout);
    FirstLayoutIsThere(r.items);
    var picked := Picked(r);
    if picked != [] {
      assert picked[0] in picked;
    }
  }

  /** The same pack with the same entries ticked, merged into what the first apply left. */
  ghost predicate Repeats(again: Request, r: Request) {
    again.items == r.items && again.wanted == r.wanted && !again.replace
  }

  lemma NothingToApplyIff(t: Tables, r: Request, defaults: map<string, string>)
    requires !r.replace
    ensures AfterApply(t, r, defaults) == (t, NothingToApply) <==> Picked(r) == []
  {
  }

  /**
   * Applying a pack again, to the rows its first apply left (CommittedMeansPlan), finds nothing to do if and
   * only if no two ticked entries contradict each other and a ticked layout places every home key.
   */
  lemma SecondApplyFindsNothingIff(t: Tables, r: Request, now: Tables, again: Request, defaults: map<string, string>,
                                   builtIn: seq<seq<string>>)
    requires Previewed(t, r, builtIn) && OneLayout(r.items, HomeOf(builtIn))
    requires now.rows == Applied(t.rows, PlanFor(t, r, defaults))
    requires Previewed(now, again, builtIn) && Repeats(again, r)
    ensures AfterApply(now, again, defaults) == (now, NothingToApply) <==>
      !Contradicts(r.items, r.wanted) && (TicksLayout(r) ==> CoversHome(ChosenLayout(r.items).value, builtIn))
  {
    NothingToApplyIff(now, again, defaults);
    NothingPickedIff(again, HomeOf(builtIn));
    AllInPlaceIff(t, r, defaults, HomeOf(builtIn));
    if TicksLayout(r) {
      TickedLayoutIsCurrentIff(t, r, defaults, builtIn, again.buttonOrder);
    }
  }
}

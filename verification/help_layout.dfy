// The help menu's gap-coded layout (app/db/crud/help_buttons.py): consecutive button numbers share a
// row, a gap starts a new one. The table is a map from button id to its unique number.
module HelpLayout {
  import opened Common
  import opened Orders

  type Numbers = map<int, int>

  ghost predicate Unique(n: Numbers) {
    forall a, b :: a in n && b in n && a != b ==> n[a] != n[b]
  }

  ghost predicate Positive(n: Numbers) {
    forall a :: a in n ==> n[a] > 0
  }

  // ---- reading: ORDER BY button_number, then split at gaps -----------------------------------

  /** `order` lists exactly the buttons of `n`, by increasing number. */
  ghost predicate IsListing(n: Numbers, order: seq<int>) {
    && (forall a :: a in order <==> a in n)
    && (forall i, j :: 0 <= i < j < |order| ==> n[order[i]] < n[order[j]])
  }

  function NumberOf(n: Numbers, a: int): int {
    if a in n then n[a] else 0
  }

  function NumberBefore(n: Numbers): (int, int) -> bool {
    (a, b) => NumberOf(n, a) < NumberOf(n, b)
  }

  function ByNumber(n: Numbers): (order: seq<int>)
    requires Unique(n)
    ensures IsListing(n, order)
  {
    Arranged(n.Keys, NumberBefore(n))
  }

  lemma ListingIsUnique(n: Numbers, s: seq<int>, t: seq<int>)
    requires IsListing(n, s) && IsListing(n, t)
    ensures s == t
  {
    assert forall a :: a in s <==> a in t;
    SortedOnce(s, t, NumberBefore(n));
  }

  /** The last row grows by `x`. */
  function Extend(rows: seq<seq<int>>, x: int): seq<seq<int>> {
    if rows == [] then [[x]] else rows[..|rows| - 1] + [rows[|rows| - 1] + [x]]
  }

  lemma ExtendLast(rows: seq<seq<int>>, row: seq<int>, x: int)
    ensures Extend(rows + [row], x) == rows + [row + [x]]
  {
  }

  /** The rows a listing shows: a button joins the last row when its number follows the previous one. */
  function Split(n: Numbers, order: seq<int>): seq<seq<int>> {
    if order == [] then []
    else
      var last := |order| - 1;
      var rows := Split(n, order[..last]);
      if last > 0 && NumberOf(n, order[last]) == NumberOf(n, order[last - 1]) + 1 then Extend(rows, order[last])
      else rows + [[order[last]]]
  }

  lemma SplitSnoc(n: Numbers, f: seq<int>, x: int)
    ensures Split(n, f + [x]) ==
      if f != [] && NumberOf(n, x) == NumberOf(n, f[|f| - 1]) + 1 then Extend(Split(n, f), x)
      else Split(n, f) + [[x]]
  {
    assert (f + [x])[..|f|] == f;
  }

  function Layout(n: Numbers): seq<seq<int>>
    requires Unique(n)
  {
    Split(n, ByNumber(n))
  }

  /** _layout_of: the loop over the sorted buttons. */
  method LayoutOf(n: Numbers) returns (rows: seq<seq<int>>)
    requires Unique(n)
    ensures rows == Layout(n)
  {
    var order := ByNumber(n);
    rows := [];
    var prev := None;
    for i := 0 to |order|
      invariant rows == Split(n, order[..i])
      invariant prev == if i == 0 then None else Some(NumberOf(n, order[i - 1]))
    {
      TakeNext(order, i);
      SplitSnoc(n, order[..i], order[i]);
      var number := NumberOf(n, order[i]);
      if prev.None? || number != prev.value + 1 {
        rows := rows + [[order[i]]];
      } else {
        rows := Extend(rows, order[i]);
      }
      prev := Some(number);
    }
    TakeAll(order);
  }

  // ---- planning: which rows apply_layout will write ------------------------------------------

  function Keep(row: seq<int>, known: set<int>, placed: set<int>): (kept: seq<int>)
    ensures forall i :: i in kept <==> i in row && i in known && i !in placed
  {
    if row == [] then []
    else
      var rest := Keep(row[..|row| - 1], known, placed);
      var last := row[|row| - 1];
      if last in known && last !in placed then rest + [last] else rest
  }

  function Ids(row: seq<int>): set<int> {
    set i | i in row
  }

  /** The requested rows: known buttons no earlier row has taken; rows left empty are dropped. */
  function Requested(rows: seq<seq<int>>, known: set<int>): (plan: seq<seq<int>>)
    ensures forall r :: 0 <= r < |plan| ==> plan[r] != [] && forall i :: i in plan[r] ==> i in known
  {
    if rows == [] then []
    else
      var plan := Requested(rows[..|rows| - 1], known);
      var row := Keep(rows[|rows| - 1], known, Ids(Flat(plan)));
      if row == [] then plan else plan + [row]
  }

  function Singles(order: seq<int>, placed: set<int>): (plan: seq<seq<int>>)
    ensures forall r :: 0 <= r < |plan| ==> |plan[r]| == 1
  {
    if order == [] then []
    else
      var plan := Singles(order[..|order| - 1], placed);
      var last := order[|order| - 1];
      if last in placed then plan else plan + [[last]]
  }

  /** What apply_layout sets out to show: the requested rows, then one row for each button not
      mentioned, in their old order. */
  function Plan(rows: seq<seq<int>>, order: seq<int>): seq<seq<int>> {
    var requested := Requested(rows, Ids(order));
    requested + Singles(order, Ids(Flat(requested)))
  }

  ghost predicate RowsNoRepeat(plan: seq<seq<int>>) {
    forall r :: 0 <= r < |plan| ==> NoRepeat(plan[r])
  }

  ghost predicate RowsDisjoint(plan: seq<seq<int>>) {
    forall r, q, i :: 0 <= r < q < |plan| && i in plan[r] ==> i !in plan[q]
  }

  lemma {:induction false} InFlat(plan: seq<seq<int>>, i: int)
    ensures i in Flat(plan) <==> exists r :: 0 <= r < |plan| && i in plan[r]
  {
    if plan != [] {
      var init, last := plan[..|plan| - 1], plan[|plan| - 1];
      InFlat(init, i);
      assert Flat(plan) == Flat(init) + last;
      if i in Flat(init) {
        var r :| 0 <= r < |init| && i in init[r];
        assert plan[r] == init[r];
      }
      if r :| 0 <= r < |plan| && i in plan[r] {
        assert r == |init| || init[r] == plan[r];
      }
    }
  }

  lemma DisjointAppend(plan: seq<seq<int>>, row: seq<int>)
    requires RowsDisjoint(plan) && forall i :: i in row ==> i !in Flat(plan)
    ensures RowsDisjoint(plan + [row])
  {
    var longer := plan + [row];
    forall r, q, i | 0 <= r < q < |longer| && i in longer[r]
      ensures i !in longer[q]
    {
      if q == |plan| {
        InFlat(plan, i);
        assert i in plan[r];
      }
    }
  }

  lemma {:induction false} RequestedDisjoint(rows: seq<seq<int>>, known: set<int>)
    ensures RowsDisjoint(Requested(rows, known))
  {
    if rows != [] {
      var plan := Requested(rows[..|rows| - 1], known);
      var row := Keep(rows[|rows| - 1], known, Ids(Flat(plan)));
      RequestedDisjoint(rows[..|rows| - 1], known);
      DisjointAppend(plan, row);
    }
  }

  lemma {:induction false} SinglesShow(order: seq<int>, placed: set<int>)
    requires NoRepeat(order)
    ensures forall i :: i in Flat(Singles(order, placed)) <==> i in order && i !in placed
    ensures RowsDisjoint(Singles(order, placed))
  {
    if order != [] {
      var last := |order| - 1;
      SinglesShow(order[..last], placed);
      assert order == order[..last] + [order[last]];
      assert order[last] !in order[..last];
      var plan := Singles(order[..last], placed);
      FlatAppend(plan, [order[last]]);
      DisjointAppend(plan, [order[last]]);
    }
  }

  /** The plan shows every button in exactly one row. */
  lemma PlanCoversOnce(rows: seq<seq<int>>, order: seq<int>)
    requires NoRepeat(order)
    ensures RowsDisjoint(Plan(rows, order))
    ensures forall i :: i in Flat(Plan(rows, order)) <==> i in order
    ensures forall r :: 0 <= r < |Plan(rows, order)| ==> Plan(rows, order)[r] != []
  {
    var known := Ids(order);
    var requested := Requested(rows, known);
    var singles := Singles(order, Ids(Flat(requested)));
    RequestedDisjoint(rows, known);
    SinglesShow(order, Ids(Flat(requested)));
    FlatConcat(requested, singles);
    DisjointConcat(requested, singles);
    forall i | i in Flat(requested) ensures i in order {
      InFlat(requested, i);
    }
  }

  lemma DisjointConcat(a: seq<seq<int>>, b: seq<seq<int>>)
    requires RowsDisjoint(a) && RowsDisjoint(b)
    requires forall i :: i in Flat(b) ==> i !in Flat(a)
    ensures RowsDisjoint(a + b)
  {
    var c := a + b;
    forall r, q, i | 0 <= r < q < |c| && i in c[r]
      ensures i !in c[q]
    {
      if r < |a| <= q {
        assert c[r] == a[r] && c[q] == b[q - |a|];
        InFlat(a, i);
        InFlat(b, i);
      } else if |a| <= r {
        assert c[r] == b[r - |a|] && c[q] == b[q - |a|];
      }
    }
  }

  // ---- when a plan repeats an id ---------------------------------------------------------------

  /** A known id not yet placed stands twice in the row. */
  ghost predicate RepeatsFresh(row: seq<int>, known: set<int>, placed: set<int>) {
    exists i, j :: 0 <= i < j < |row| && row[i] == row[j] && row[i] in known && row[i] !in placed
  }

  /** Some row of the request repeats a known id that no earlier row mentions. */
  ghost predicate RequestRepeats(rows: seq<seq<int>>, known: set<int>) {
    exists r :: 0 <= r < |rows| && RepeatsFresh(rows[r], known, Ids(Flat(rows[..r])))
  }

  lemma {:induction false} KeepRepeatsIff(row: seq<int>, known: set<int>, placed: set<int>)
    ensures NoRepeat(Keep(row, known, placed)) <==> !RepeatsFresh(row, known, placed)
  {
    if row != [] {
      var init, last := row[..|row| - 1], row[|row| - 1];
      KeepRepeatsIff(init, known, placed);
      assert row == init + [last];
      NextRepeats(init, last, known, placed);
      NoRepeatSnoc(Keep(init, known, placed), last);
    }
  }

  lemma NextRepeats(init: seq<int>, last: int, known: set<int>, placed: set<int>)
    ensures RepeatsFresh(init + [last], known, placed)
      <==> RepeatsFresh(init, known, placed) || (last in init && last in known && last !in placed)
  {
    var row := init + [last];
    if RepeatsFresh(init, known, placed) {
      var i, j :| 0 <= i < j < |init| && init[i] == init[j] && init[i] in known && init[i] !in placed;
      assert row[i] == row[j];
    }
    if last in init && last in known && last !in placed {
      var i :| 0 <= i < |init| && init[i] == last;
      assert row[i] == row[|init|];
    }
  }

  lemma NoRepeatSnoc(s: seq<int>, x: int)
    ensures NoRepeat(s + [x]) <==> NoRepeat(s) && x !in s
  {
    var t := s + [x];
    if NoRepeat(t) {
      assert forall i :: 0 <= i < |s| ==> s[i] == t[i] && t[i] != t[|s|];
    }
  }

  /** What the requested rows mention is what the request mentions of the known ids. */
  lemma {:induction false} RequestedIds(rows: seq<seq<int>>, known: set<int>)
    ensures forall i :: i in Flat(Requested(rows, known)) <==> i in known && i in Flat(rows)
  {
    if rows != [] {
      var init, last := rows[..|rows| - 1], rows[|rows| - 1];
      RequestedIds(init, known);
      var plan := Requested(init, known);
      FlatAppend(plan, Keep(last, known, Ids(Flat(plan))));
    }
  }

  lemma RowsNoRepeatSnoc(plan: seq<seq<int>>, row: seq<int>)
    ensures RowsNoRepeat(plan + [row]) <==> RowsNoRepeat(plan) && NoRepeat(row)
  {
    var longer := plan + [row];
    if RowsNoRepeat(longer) {
      assert forall r :: 0 <= r < |plan| ==> plan[r] == longer[r];
      assert longer[|plan|] == row;
    }
  }

  lemma RequestRepeatsSnoc(rows: seq<seq<int>>, row: seq<int>, known: set<int>)
    ensures RequestRepeats(rows + [row], known)
      <==> RequestRepeats(rows, known) || RepeatsFresh(row, known, Ids(Flat(rows)))
  {
    var longer := rows + [row];
    assert forall r :: 0 <= r <= |rows| ==> longer[..r] == rows[..r];
    assert rows[..|rows|] == rows && longer[|rows|] == row;
    if RequestRepeats(rows, known) {
      var r :| 0 <= r < |rows| && RepeatsFresh(rows[r], known, Ids(Flat(rows[..r])));
      assert longer[r] == rows[r];
    }
  }

  lemma SameFreshIds(row: seq<int>, known: set<int>, placed: set<int>, others: set<int>)
    requires forall i :: i in known ==> (i in placed <==> i in others)
    ensures RepeatsFresh(row, known, placed) <==> RepeatsFresh(row, known, others)
  {
  }

  lemma RequestedRowRepeatsIff(rows: seq<seq<int>>, row: seq<int>, known: set<int>)
    ensures NoRepeat(Keep(row, known, Ids(Flat(Requested(rows, known)))))
      <==> !RepeatsFresh(row, known, Ids(Flat(rows)))
  {
    var placed := Ids(Flat(Requested(rows, known)));
    RequestedIds(rows, known);
    SameFreshIds(row, known, placed, Ids(Flat(rows)));
    KeepRepeatsIff(row, known, placed);
  }

  lemma {:induction false} RequestedRepeatsIff(rows: seq<seq<int>>, known: set<int>)
    ensures RowsNoRepeat(Requested(rows, known)) <==> !RequestRepeats(rows, known)
  {
    if rows != [] {
      var init, last := rows[..|rows| - 1], rows[|rows| - 1];
      assert rows == init + [last];
      var plan := Requested(init, known);
      RequestedRepeatsIff(init, known);
      RequestedRowRepeatsIff(init, last, known);
      RequestRepeatsSnoc(init, last, known);
      RowsNoRepeatSnoc(plan, Keep(last, known, Ids(Flat(plan))));
    }
  }

  lemma SinglesAddNoRepeat(plan: seq<seq<int>>, singles: seq<seq<int>>)
    requires forall r :: 0 <= r < |singles| ==> |singles[r]| == 1
    ensures RowsNoRepeat(plan + singles) <==> RowsNoRepeat(plan)
  {
    var all := plan + singles;
    if RowsNoRepeat(all) {
      assert forall r :: 0 <= r < |plan| ==> plan[r] == all[r];
    }
  }

  /** The exact request for which a plan repeats an id. */
  lemma PlanRepeatsIff(rows: seq<seq<int>>, order: seq<int>)
    ensures RowsNoRepeat(Plan(rows, order)) <==> !RequestRepeats(rows, Ids(order))
  {
    var requested := Requested(rows, Ids(order));
    RequestedRepeatsIff(rows, Ids(order));
    SinglesAddNoRepeat(requested, Singles(order, Ids(Flat(requested))));
  }

  /** A request whose rows repeat nothing has a plan whose rows repeat nothing. */
  lemma CleanRequestCleanPlan(rows: seq<seq<int>>, order: seq<int>)
    requires RowsNoRepeat(rows)
    ensures RowsNoRepeat(Plan(rows, order))
  {
    forall r | 0 <= r < |rows| ensures !RepeatsFresh(rows[r], Ids(order), Ids(Flat(rows[..r]))) {
      assert NoRepeat(rows[r]);
    }
    PlanRepeatsIff(rows, order);
  }

  lemma {:induction false} KeepsAll(row: seq<int>, known: set<int>, placed: set<int>)
    requires forall i :: i in row ==> i in known && i !in placed
    ensures Keep(row, known, placed) == row
  {
    if row != [] {
      var init, last := row[..|row| - 1], row[|row| - 1];
      assert row == init + [last];
      assert last in row;
      KeepsAll(init, known, placed);
    }
  }

  ghost predicate KnownRows(rows: seq<seq<int>>, known: set<int>) {
    forall r :: 0 <= r < |rows| ==> rows[r] != [] && forall i :: i in rows[r] ==> i in known
  }

  lemma FreshRowIsKept(rows: seq<seq<int>>, row: seq<int>, known: set<int>)
    requires RowsDisjoint(rows + [row]) && forall i :: i in row ==> i in known
    ensures Keep(row, known, Ids(Flat(rows))) == row
  {
    var all := rows + [row];
    forall i | i in row ensures i in known && i !in Ids(Flat(rows)) {
      InFlat(rows, i);
      assert all[|rows|] == row;
      assert forall r :: 0 <= r < |rows| ==> all[r] == rows[r];
    }
    KeepsAll(row, known, Ids(Flat(rows)));
  }

  lemma DisjointInit(rows: seq<seq<int>>)
    requires RowsDisjoint(rows) && rows != []
    ensures RowsDisjoint(rows[..|rows| - 1])
  {
  }

  /** Rows of known ids that share nothing are requested as they stand. */
  lemma {:induction false} CleanRowsAreRequested(rows: seq<seq<int>>, known: set<int>)
    requires RowsDisjoint(rows) && KnownRows(rows, known)
    ensures Requested(rows, known) == rows
  {
    if rows != [] {
      var init, last := rows[..|rows| - 1], rows[|rows| - 1];
      assert rows == init + [last];
      DisjointInit(rows);
      CleanRowsAreRequested(init, known);
      FreshRowIsKept(init, last, known);
    }
  }

  /** The buttons of `order` that `mentioned` leaves out, in their order. */
  function LeftOut(order: seq<int>, mentioned: seq<int>): seq<int> {
    if order == [] then []
    else
      var rest, last := LeftOut(order[..|order| - 1], mentioned), order[|order| - 1];
      if last in mentioned then rest else rest + [last]
  }

  lemma {:induction false} SinglesAreLeftOut(order: seq<int>, mentioned: seq<int>)
    ensures Flat(Singles(order, Ids(mentioned))) == LeftOut(order, mentioned)
  {
    if order != [] {
      SinglesAreLeftOut(order[..|order| - 1], mentioned);
      FlatAppend(Singles(order[..|order| - 1], Ids(mentioned)), [order[|order| - 1]]);
    }
  }

  /** What a clean request shows: exactly the requested rows, then every other button in a row of its own,
      in the old order. */
  lemma CleanRequestIsShownFirst(rows: seq<seq<int>>, order: seq<int>)
    requires RowsDisjoint(rows) && KnownRows(rows, Ids(order))
    ensures var plan := Plan(rows, order);
      && |plan| >= |rows| && plan[..|rows|] == rows
      && (forall r :: |rows| <= r < |plan| ==> |plan[r]| == 1)
      && Flat(plan[|rows|..]) == LeftOut(order, Flat(rows))
  {
    CleanRowsAreRequested(rows, Ids(order));
    SinglesAreLeftOut(order, Flat(rows));
    var plan, singles := Plan(rows, order), Singles(order, Ids(Flat(rows)));
    assert plan == rows + singles;
    assert plan[|rows|..] == singles;
  }

  // ---- writing: one running counter ----------------------------------------------------------

  /** The number the first button of row `r` gets. */
  function First(plan: seq<seq<int>>, r: nat): int
    requires r <= |plan|
  {
    if r == 0 then 1 else First(plan, r - 1) + |plan[r - 1]| + 1
  }

  /** Nothing before slot `c` writes the button of slot `j` again. */
  ghost predicate LastAt(row: seq<int>, j: int, c: int)
    requires 0 <= j < |row| && c <= |row|
  {
    forall i :: j < i < c ==> row[i] != row[j]
  }

  /** Slots before (r, c) hold their number, unless a later one has written the same button again. */
  ghost predicate NumberedUpTo(n: Numbers, plan: seq<seq<int>>, r: int, c: int) {
    forall q: nat, j: nat :: q < |plan| && j < |plan[q]| && HoldsAt(plan, q, j, r, c) ==>
      plan[q][j] in n && n[plan[q][j]] == First(plan, q) + j
  }

  /** With the slots before (r, c) written, slot (q, j) is the last written one of its button. */
  ghost predicate HoldsAt(plan: seq<seq<int>>, q: nat, j: nat, r: int, c: int)
    requires q < |plan| && j < |plan[q]|
  {
    || (q < r && LastAt(plan[q], j, |plan[q]|))
    || (q == r && j < c <= |plan[q]| && LastAt(plan[q], j, c))
  }

  /** Buttons still hold their parked negative id, or a number below the counter. */
  ghost predicate BelowCounter(n: Numbers, number: int) {
    forall a :: a in n ==> n[a] == -a || 1 <= n[a] < number
  }

  lemma NumberNext(n: Numbers, plan: seq<seq<int>>, r: nat, c: nat)
    requires r < |plan| && c < |plan[r]| && RowsDisjoint(plan)
    requires NumberedUpTo(n, plan, r, c)
    ensures NumberedUpTo(n[plan[r][c] := First(plan, r) + c], plan, r, c + 1)
  {
    var m := n[plan[r][c] := First(plan, r) + c];
    forall q: nat, j: nat | q < |plan| && j < |plan[q]| && HoldsAt(plan, q, j, r, c + 1)
      ensures plan[q][j] in m && m[plan[q][j]] == First(plan, q) + j
    {
      if q < r {
        assert plan[q][j] in plan[q] && plan[r][c] in plan[r];
        assert HoldsAt(plan, q, j, r, c);
      } else if j < c {
        assert HoldsAt(plan, q, j, r, c);
        assert plan[r][c] != plan[r][j];
      }
    }
  }

  lemma ParkedStaysUnique(n: Numbers, number: int, a: int)
    requires Unique(n) && BelowCounter(n, number) && number > 0
    requires a in n && forall b :: b in n ==> b > 0
    ensures Unique(n[a := number]) && BelowCounter(n[a := number], number + 1)
  {
  }

  // ---- what the written numbers show -----------------------------------------------------------

  /** Buttons under consecutive numbers. */
  datatype Block = Block(start: int, ids: seq<int>)

  /** A row numbered from `start`: a button that stands again later gives its number up, which ends a block. */
  function Blocks(row: seq<int>, start: int): (blocks: seq<Block>)
    ensures row != [] && row[0] !in row[1..] ==> blocks != [] && blocks[0].start == start
  {
    if row == [] then []
    else
      var rest := Blocks(row[1..], start + 1);
      if row[0] in row[1..] then rest
      else if |row| > 1 && row[1] !in row[2..] then
        assert row[1..][0] == row[1] && row[1..][1..] == row[2..];
        [Block(start, [row[0]] + rest[0].ids)] + rest[1..]
      else [Block(start, [row[0]])] + rest
  }

  lemma BlocksDrop(a: int, tail: seq<int>, start: int)
    requires a in tail
    ensures Blocks([a] + tail, start) == Blocks(tail, start + 1)
  {
    assert ([a] + tail)[1..] == tail;
  }

  lemma BlocksAlone(a: int, tail: seq<int>, start: int)
    requires a !in tail && (tail == [] || tail[0] in tail[1..])
    ensures Blocks([a] + tail, start) == [Block(start, [a])] + Blocks(tail, start + 1)
  {
    var row := [a] + tail;
    assert row[1..] == tail && (tail != [] ==> row[1] == tail[0] && row[2..] == tail[1..]);
  }

  lemma BlocksJoin(a: int, b: int, tail: seq<int>, start: int)
    requires a !in [b] + tail && b !in tail
    ensures var rest := Blocks([b] + tail, start + 1);
      && rest != [] && rest[0].start == start + 1
      && Blocks([a] + ([b] + tail), start) == [Block(start, [a] + rest[0].ids)] + rest[1..]
  {
    var row := [a] + ([b] + tail);
    assert ([b] + tail)[1..] == tail;
    assert row[1..] == [b] + tail && row[1] == b && row[2..] == tail;
  }

  function IdsOf(blocks: seq<Block>): seq<seq<int>> {
    if blocks == [] then [] else IdsOf(blocks[..|blocks| - 1]) + [blocks[|blocks| - 1].ids]
  }

  /** The blocks of the first `r` rows. */
  function PlanBlocks(plan: seq<seq<int>>, r: nat): seq<Block>
    requires r <= |plan|
  {
    if r == 0 then [] else PlanBlocks(plan, r - 1) + Blocks(plan[r - 1], First(plan, r - 1))
  }

  /** What a plan shows as: each row broken behind every button that stands again later in the row. */
  function Shown(plan: seq<seq<int>>): seq<seq<int>> {
    IdsOf(PlanBlocks(plan, |plan|))
  }

  lemma IdsOfAt(blocks: seq<Block>)
    ensures |IdsOf(blocks)| == |blocks|
    ensures forall i :: 0 <= i < |blocks| ==> IdsOf(blocks)[i] == blocks[i].ids
  {
  }

  /** Blocks one after the other, with a gap behind each, all below `next`. */
  ghost predicate Spaced(blocks: seq<Block>, low: int, next: int) {
    && (forall i :: 0 <= i < |blocks| ==> blocks[i].ids != [] && low <= blocks[i].start && EndOf(blocks[i]) < next)
    && (forall i, j :: 0 <= i < j < |blocks| ==> EndOf(blocks[i]) < blocks[j].start)
  }

  function EndOf(b: Block): int {
    b.start + |b.ids|
  }

  lemma SpacedJoin(rest: seq<Block>, a: int, start: int, next: int)
    requires Spaced(rest, start + 1, next) && rest != [] && rest[0].start == start + 1
    ensures Spaced([Block(start, [a] + rest[0].ids)] + rest[1..], start, next)
  {
    var blocks := [Block(start, [a] + rest[0].ids)] + rest[1..];
    assert EndOf(blocks[0]) == EndOf(rest[0]);
    assert forall i :: 1 <= i < |blocks| ==> blocks[i] == rest[i];
  }

  lemma SpacedAlone(rest: seq<Block>, a: int, start: int, next: int)
    requires Spaced(rest, start + 2, next) && start + 1 < next
    ensures Spaced([Block(start, [a])] + rest, start, next)
  {
    var blocks := [Block(start, [a])] + rest;
    assert EndOf(blocks[0]) == start + 1;
    assert forall i :: 1 <= i < |blocks| ==> blocks[i] == rest[i - 1];
  }

  lemma {:induction false} BlocksAreSpaced(row: seq<int>, start: int)
    ensures Spaced(Blocks(row, start), start, start + |row| + 1)
    decreases |row|, 1
  {
    if row != [] {
      var rest, next := Blocks(row[1..], start + 1), start + |row| + 1;
      BlocksAreSpaced(row[1..], start + 1);
      if row[0] !in row[1..] {
        if |row| > 1 && row[1] !in row[2..] {
          assert row[1..][0] == row[1] && row[1..][1..] == row[2..];
          SpacedJoin(rest, row[0], start, next);
        } else {
          GapBehindAlone(row, start, rest);
          SpacedAlone(rest, row[0], start, next);
        }
      }
    }
  }

  /** When the second slot is given up or missing, the blocks behind it start after a gap. */
  lemma GapBehindAlone(row: seq<int>, start: int, rest: seq<Block>)
    requires row != [] && (|row| == 1 || row[1] in row[2..]) && rest == Blocks(row[1..], start + 1)
    ensures Spaced(rest, start + 2, start + |row| + 1)
    decreases |row|, 0
  {
    if |row| > 1 {
      assert row[1..][0] == row[1] && row[1..][1..] == row[2..];
      BlocksAreSpaced(row[2..], start + 2);
    }
  }

  lemma SpacedConcat(a: seq<Block>, b: seq<Block>, low: int, mid: int, next: int)
    requires Spaced(a, low, mid) && Spaced(b, mid, next) && low <= mid <= next
    ensures Spaced(a + b, low, next)
  {
    var c := a + b;
    forall i, j | 0 <= i < j < |c| ensures EndOf(c[i]) < c[j].start {
      if i < |a| <= j {
        assert c[i] == a[i] && c[j] == b[j - |a|];
      } else if |a| <= i {
        assert c[i] == b[i - |a|] && c[j] == b[j - |a|];
      }
    }
  }

  lemma {:induction false} PlanBlocksAreSpaced(plan: seq<seq<int>>, r: nat)
    requires r <= |plan|
    ensures Spaced(PlanBlocks(plan, r), 1, First(plan, r)) && First(plan, r) >= 1
  {
    if r > 0 {
      var row, mid := plan[r - 1], First(plan, r - 1);
      PlanBlocksAreSpaced(plan, r - 1);
      BlocksAreSpaced(row, mid);
      SpacedConcat(PlanBlocks(plan, r - 1), Blocks(row, mid), 1, mid, First(plan, r));
    }
  }

  ghost predicate BlocksWithin(blocks: seq<Block>, row: seq<int>) {
    forall i :: 0 <= i < |blocks| ==> forall a :: a in blocks[i].ids ==> a in row
  }

  /** The blocks hold the row's buttons. */
  lemma {:induction false} BlocksHoldRow(row: seq<int>, start: int)
    ensures forall a :: a in row ==> a in Flat(IdsOf(Blocks(row, start)))
    ensures BlocksWithin(Blocks(row, start), row)
  {
    if row != [] {
      var rest, blocks := Blocks(row[1..], start + 1), Blocks(row, start);
      BlocksHoldRow(row[1..], start + 1);
      assert row == [row[0]] + row[1..];
      forall a | a in row ensures a in Flat(IdsOf(blocks)) {
        if a in row[1..] {
          InBlocks(rest, a);
          var i :| 0 <= i < |rest| && a in rest[i].ids;
          BlockKept(row, start, i, a);
        }
        InBlocks(blocks, a);
      }
    }
  }

  /** A button of a later block stays in some block. */
  lemma BlockKept(row: seq<int>, start: int, i: nat, a: int)
    requires row != [] && i < |Blocks(row[1..], start + 1)| && a in Blocks(row[1..], start + 1)[i].ids
    ensures exists k :: 0 <= k < |Blocks(row, start)| && a in Blocks(row, start)[k].ids
  {
    var rest, blocks := Blocks(row[1..], start + 1), Blocks(row, start);
    if row[0] in row[1..] {
      assert blocks[i] == rest[i];
    } else if |row| > 1 && row[1] !in row[2..] {
      assert row[1..][0] == row[1] && row[1..][1..] == row[2..];
      assert blocks[i] == if i == 0 then Block(start, [row[0]] + rest[0].ids) else rest[i];
    } else {
      assert blocks[i + 1] == rest[i];
    }
  }

  lemma InBlocks(blocks: seq<Block>, a: int)
    ensures a in Flat(IdsOf(blocks)) <==> exists i :: 0 <= i < |blocks| && a in blocks[i].ids
  {
    IdsOfAt(blocks);
    InFlat(IdsOf(blocks), a);
  }

  /** A row whose buttons are numbered consecutively from `start`. */
  ghost predicate RowAt(n: Numbers, row: seq<int>, start: int) {
    forall j :: 0 <= j < |row| ==> row[j] in n && n[row[j]] == start + j
  }

  ghost predicate BlocksAt(n: Numbers, blocks: seq<Block>) {
    forall i :: 0 <= i < |blocks| ==> RowAt(n, blocks[i].ids, blocks[i].start)
  }

  /** Every last slot of its button holds its number. */
  ghost predicate HeldFrom(n: Numbers, row: seq<int>, start: int) {
    forall j: nat :: j < |row| && LastAt(row, j, |row|) ==> row[j] in n && n[row[j]] == start + j
  }

  lemma LastInTail(a: int, tail: seq<int>, j: nat)
    requires j < |tail| && LastAt(tail, j, |tail|)
    ensures LastAt([a] + tail, j + 1, |tail| + 1)
  {
    var row := [a] + tail;
    forall i | j + 1 < i < |row| ensures row[i] != row[j + 1] {
      assert row[i] == tail[i - 1];
    }
  }

  lemma LastInFront(a: int, tail: seq<int>)
    requires a !in tail
    ensures LastAt([a] + tail, 0, |tail| + 1)
  {
    var row := [a] + tail;
    forall i | 0 < i < |row| ensures row[i] != a {
      assert row[i] == tail[i - 1];
    }
  }

  lemma HeldTail(n: Numbers, a: int, tail: seq<int>, start: int)
    requires HeldFrom(n, [a] + tail, start)
    ensures HeldFrom(n, tail, start + 1)
    ensures a !in tail ==> a in n && n[a] == start
  {
    var row := [a] + tail;
    forall j: nat | j < |tail| && LastAt(tail, j, |tail|) ensures tail[j] in n && n[tail[j]] == start + 1 + j {
      LastInTail(a, tail, j);
      assert row[j + 1] == tail[j];
    }
    if a !in tail {
      LastInFront(a, tail);
      assert row[0] == a;
    }
  }

  lemma NextBlocksAt(n: Numbers, a: int, tail: seq<int>, start: int)
    requires BlocksAt(n, Blocks(tail, start + 1)) && (a !in tail ==> a in n && n[a] == start)
    ensures BlocksAt(n, Blocks([a] + tail, start))
  {
    if a in tail {
      BlocksDrop(a, tail, start);
    } else {
      LongerBlock(n, Blocks(tail, start + 1), a, start);
      if tail == [] || tail[0] in tail[1..] {
        BlocksAlone(a, tail, start);
      } else {
        assert tail == [tail[0]] + tail[1..];
        BlocksJoin(a, tail[0], tail[1..], start);
      }
    }
  }

  lemma {:induction false} BlocksAreNumbered(n: Numbers, row: seq<int>, start: int)
    requires HeldFrom(n, row, start)
    ensures BlocksAt(n, Blocks(row, start))
  {
    if row != [] {
      var a, tail := row[0], row[1..];
      assert row == [a] + tail;
      HeldTail(n, a, tail, start);
      BlocksAreNumbered(n, tail, start + 1);
      NextBlocksAt(n, a, tail, start);
    }
  }

  /** One more button in front of the first block, or in a block of its own. */
  lemma LongerBlock(n: Numbers, rest: seq<Block>, a: int, start: int)
    requires BlocksAt(n, rest) && a in n && n[a] == start
    ensures BlocksAt(n, [Block(start, [a])] + rest)
    ensures rest != [] && rest[0].start == start + 1 ==>
      BlocksAt(n, [Block(start, [a] + rest[0].ids)] + rest[1..])
  {
    if rest != [] && rest[0].start == start + 1 {
      var ids := [a] + rest[0].ids;
      assert RowAt(n, rest[0].ids, start + 1);
      forall j | 0 <= j < |ids| ensures ids[j] in n && n[ids[j]] == start + j {
        assert j > 0 ==> ids[j] == rest[0].ids[j - 1];
      }
      assert RowAt(n, ids, start);
    }
  }

  lemma NumberedRowIsHeld(n: Numbers, plan: seq<seq<int>>, q: nat)
    requires NumberedUpTo(n, plan, |plan|, 0) && q < |plan|
    ensures HeldFrom(n, plan[q], First(plan, q))
  {
    forall j: nat | j < |plan[q]| && LastAt(plan[q], j, |plan[q]|)
      ensures plan[q][j] in n && n[plan[q][j]] == First(plan, q) + j
    {
      assert HoldsAt(plan, q, j, |plan|, 0);
    }
  }

  /** The same for every button of the first `r` rows. */
  ghost predicate RowsHeld(n: Numbers, plan: seq<seq<int>>, r: nat)
    requires r <= |plan|
  {
    r == 0 || (RowsHeld(n, plan, r - 1) && HeldFrom(n, plan[r - 1], First(plan, r - 1)))
  }

  lemma {:induction false} NumberedRowsAreHeld(n: Numbers, plan: seq<seq<int>>, r: nat)
    requires NumberedUpTo(n, plan, |plan|, 0) && r <= |plan|
    ensures RowsHeld(n, plan, r)
  {
    if r > 0 {
      NumberedRowsAreHeld(n, plan, r - 1);
      NumberedRowIsHeld(n, plan, r - 1);
    }
  }

  lemma {:induction false} PlanBlocksAreNumbered(n: Numbers, plan: seq<seq<int>>, r: nat)
    requires r <= |plan| && RowsHeld(n, plan, r)
    ensures BlocksAt(n, PlanBlocks(plan, r))
  {
    if r > 0 {
      PlanBlocksAreNumbered(n, plan, r - 1);
      BlocksAreNumbered(n, plan[r - 1], First(plan, r - 1));
      BlocksAtConcat(n, PlanBlocks(plan, r - 1), Blocks(plan[r - 1], First(plan, r - 1)));
    }
  }

  lemma BlocksAtConcat(n: Numbers, a: seq<Block>, b: seq<Block>)
    requires BlocksAt(n, a) && BlocksAt(n, b)
    ensures BlocksAt(n, a + b)
  {
  }

  /** Ids listed so far: known, below the next row's gap, and in increasing order of number. */
  ghost predicate Ascending(n: Numbers, f: seq<int>, next: int) {
    && (forall i :: 0 <= i < |f| ==> f[i] in n && n[f[i]] < next - 1)
    && (forall i, j :: 0 <= i < j < |f| ==> n[f[i]] < n[f[j]])
  }

  lemma AscendingRow(n: Numbers, f: seq<int>, row: seq<int>, start: int)
    requires Ascending(n, f, start) && RowAt(n, row, start)
    ensures Ascending(n, f + row, start + |row| + 1)
  {
  }

  /** Reading on through a row numbered consecutively, after a gap. */
  lemma {:induction false} SplitRow(n: Numbers, f: seq<int>, row: seq<int>, start: int)
    requires row != [] && RowAt(n, row, start)
    requires f != [] ==> NumberOf(n, f[|f| - 1]) + 1 < start
    ensures Split(n, f + row) == Split(n, f) + [row]
  {
    var init, x := row[..|row| - 1], row[|row| - 1];
    assert row == init + [x];
    assert f + row == (f + init) + [x];
    SplitSnoc(n, f + init, x);
    if init == [] {
      assert f + init == f;
    } else {
      SplitRow(n, f, init, start);
      assert (f + init)[|f + init| - 1] == init[|init| - 1];
      ExtendLast(Split(n, f), init, x);
    }
  }

  /** The rows are numbered upwards, below `next`, and reading their numbers gives them back. */
  ghost predicate Shows(n: Numbers, rows: seq<seq<int>>, next: int) {
    Ascending(n, Flat(rows), next) && Split(n, Flat(rows)) == rows
  }

  /** One more row after a gap is read as one more row. */
  lemma NextRowShows(n: Numbers, rows: seq<seq<int>>, row: seq<int>, start: int, next: int)
    requires Shows(n, rows, start) && row != [] && RowAt(n, row, start) && start + |row| < next
    ensures Shows(n, rows + [row], next)
  {
    AscendingRow(n, Flat(rows), row, start);
    SplitRow(n, Flat(rows), row, start);
    FlatAppend(rows, row);
  }

  lemma {:induction false} BlocksAreShown(n: Numbers, blocks: seq<Block>, low: int, next: int)
    requires BlocksAt(n, blocks) && Spaced(blocks, low, next)
    ensures Shows(n, IdsOf(blocks), next)
  {
    if blocks != [] {
      var init, last := blocks[..|blocks| - 1], blocks[|blocks| - 1];
      BlocksAreShown(n, init, low, last.start);
      NextRowShows(n, IdsOf(init), last.ids, last.start, next);
    }
  }

  lemma {:induction false} IdsOfConcat(a: seq<Block>, b: seq<Block>)
    ensures IdsOf(a + b) == IdsOf(a) + IdsOf(b)
  {
    if b == [] {
      assert a + b == a;
    } else {
      IdsOfConcat(a, b[..|b| - 1]);
      assert (a + b)[..|a + b| - 1] == a + b[..|b| - 1];
    }
  }

  lemma OneMoreRow(plan: seq<seq<int>>, r: nat, a: int)
    requires r < |plan| && (a in plan[r] || a in Flat(IdsOf(PlanBlocks(plan, r))))
    ensures a in Flat(IdsOf(PlanBlocks(plan, r + 1)))
  {
    var before, blocks := PlanBlocks(plan, r), Blocks(plan[r], First(plan, r));
    IdsOfConcat(before, blocks);
    FlatConcat(IdsOf(before), IdsOf(blocks));
    assert a in plan[r] ==> a in Flat(IdsOf(blocks)) by {
      BlocksHoldRow(plan[r], First(plan, r));
    }
  }

  lemma {:induction false} BlocksHoldPlan(plan: seq<seq<int>>, r: nat, q: nat, a: int)
    requires q <= r < |plan| && a in plan[q]
    ensures a in Flat(IdsOf(PlanBlocks(plan, r + 1)))
  {
    if q < r {
      BlocksHoldPlan(plan, r - 1, q, a);
      assert a in Flat(IdsOf(PlanBlocks(plan, r)));
    }
    OneMoreRow(plan, r, a);
  }

  lemma ShownHoldsPlan(plan: seq<seq<int>>, a: int)
    requires a in Flat(plan)
    ensures a in Flat(Shown(plan))
  {
    InFlat(plan, a);
    var q :| 0 <= q < |plan| && a in plan[q];
    BlocksHoldPlan(plan, |plan| - 1, q, a);
  }

  /** Reading the numbers of a written plan back shows each row, broken where a button stood twice. */
  lemma NumberedPlanIsShown(n: Numbers, plan: seq<seq<int>>)
    requires Unique(n) && NumberedUpTo(n, plan, |plan|, 0)
    requires forall i :: i in n ==> i in Flat(plan)
    ensures Layout(n) == Shown(plan)
  {
    var blocks := PlanBlocks(plan, |plan|);
    NumberedRowsAreHeld(n, plan, |plan|);
    PlanBlocksAreNumbered(n, plan, |plan|);
    PlanBlocksAreSpaced(plan, |plan|);
    BlocksAreShown(n, blocks, 1, First(plan, |plan|));
    forall a | a in n ensures a in Flat(Shown(plan)) { ShownHoldsPlan(plan, a); }
    assert IsListing(n, Flat(Shown(plan)));
    ListingIsUnique(n, ByNumber(n), Flat(Shown(plan)));
  }

  // ---- when the plan is shown as it is ----------------------------------------------------------

  ghost predicate NoEmptyRow(plan: seq<seq<int>>) {
    forall r :: 0 <= r < |plan| ==> plan[r] != []
  }

  lemma {:induction false} WholeRow(row: seq<int>, start: int)
    requires row != [] && NoRepeat(row)
    ensures Blocks(row, start) == [Block(start, row)]
  {
    var tail := row[1..];
    assert row == [row[0]] + tail && row[0] !in tail && NoRepeat(tail);
    if tail == [] {
      BlocksAlone(row[0], tail, start);
      assert Blocks(tail, start + 1) == [] && row == [row[0]];
    } else {
      WholeRow(tail, start + 1);
      assert tail == [tail[0]] + tail[1..] && tail[0] !in tail[1..];
      BlocksJoin(row[0], tail[0], tail[1..], start);
    }
  }

  lemma IdsOfSnoc(blocks: seq<Block>, b: Block)
    ensures IdsOf(blocks + [b]) == IdsOf(blocks) + [b.ids]
  {
    assert (blocks + [b])[..|blocks|] == blocks;
  }

  lemma CleanRowIsShown(plan: seq<seq<int>>, r: nat)
    requires r < |plan| && plan[r] != [] && NoRepeat(plan[r])
    ensures IdsOf(PlanBlocks(plan, r + 1)) == IdsOf(PlanBlocks(plan, r)) + [plan[r]]
  {
    WholeRow(plan[r], First(plan, r));
    IdsOfSnoc(PlanBlocks(plan, r), Block(First(plan, r), plan[r]));
  }

  lemma {:induction false} CleanPlanIsShown(plan: seq<seq<int>>, r: nat)
    requires r <= |plan| && NoEmptyRow(plan) && RowsNoRepeat(plan)
    ensures IdsOf(PlanBlocks(plan, r)) == plan[..r]
  {
    if r > 0 {
      var before := r - 1;
      CleanPlanIsShown(plan, before);
      CleanRowIsShown(plan, before);
      TakeNext(plan, before);
    }
  }

  ghost predicate BlocksNoRepeat(blocks: seq<Block>) {
    forall i :: 0 <= i < |blocks| ==> NoRepeat(blocks[i].ids)
  }

  lemma LongerBlockRepeats(rest: seq<Block>, tail: seq<int>, a: int, start: int)
    requires BlocksNoRepeat(rest) && BlocksWithin(rest, tail) && rest != [] && a !in tail
    ensures BlocksNoRepeat([Block(start, [a] + rest[0].ids)] + rest[1..])
  {
    var ids := rest[0].ids;
    assert NoRepeat(ids);
    forall i | 0 <= i < |ids| ensures ids[i] != a {
      assert ids[i] in ids;
    }
    assert NoRepeat([a] + ids);
  }

  lemma {:induction false} NoBlockRepeats(row: seq<int>, start: int)
    ensures BlocksNoRepeat(Blocks(row, start))
  {
    if row != [] {
      NoBlockRepeats(row[1..], start + 1);
      BlocksHoldRow(row[1..], start + 1);
      if row[0] !in row[1..] && |row| > 1 && row[1] !in row[2..] {
        assert row[1..][0] == row[1] && row[1..][1..] == row[2..];
        LongerBlockRepeats(Blocks(row[1..], start + 1), row[1..], row[0], start);
      }
    }
  }

  lemma {:induction false} ShownNeverRepeats(plan: seq<seq<int>>, r: nat)
    requires r <= |plan|
    ensures BlocksNoRepeat(PlanBlocks(plan, r))
  {
    if r > 0 {
      ShownNeverRepeats(plan, r - 1);
      NoBlockRepeats(plan[r - 1], First(plan, r - 1));
    }
  }

  /** A plan is shown as it is if and only if none of its rows repeats a button. */
  lemma ShownIsPlanIff(plan: seq<seq<int>>)
    requires NoEmptyRow(plan)
    ensures Shown(plan) == plan <==> RowsNoRepeat(plan)
  {
    if RowsNoRepeat(plan) {
      CleanPlanIsShown(plan, |plan|);
      TakeAll(plan);
    }
    ShownNeverRepeats(plan, |plan|);
    IdsOfAt(PlanBlocks(plan, |plan|));
  }

  lemma RepeatIsPlanned(x: int, a: int, y: int)
    ensures Plan([[x, a, y, a]], [x, a, y]) == [[x, a, y, a]]
  {
    var row := [x, a, y, a];
    forall b ensures b in row <==> b in [x, a, y] {
      assert row[0] == x && row[1] == a && row[2] == y;
    }
    OneRowPlan(row, [x, a, y]);
  }

  lemma RepeatIsBroken(x: int, a: int, y: int)
    requires x != a && a != y && x != y
    ensures Shown([[x, a, y, a]]) == [[x], [y, a]]
  {
    var blocks := [Block(1, [x]), Block(3, [y, a])];
    BrokenRow(x, a, y, 1);
    ShownRow([x, a, y, a], blocks);
    IdsOfAt(blocks);
  }

  /** A button repeated inside a row keeps its last place and breaks the row at the one it gives up. */
  lemma RepeatInsideARowBreaksIt(x: int, a: int, y: int)
    requires x != a && a != y && x != y
    ensures var plan := Plan([[x, a, y, a]], [x, a, y]);
      plan == [[x, a, y, a]] && Shown(plan) == [[x], [y, a]]
  {
    RepeatIsPlanned(x, a, y);
    RepeatIsBroken(x, a, y);
  }

  lemma ShownRow(row: seq<int>, blocks: seq<Block>)
    requires Blocks(row, 1) == blocks
    ensures Shown([row]) == IdsOf(blocks)
  {
    var plan := [row];
    assert First(plan, 0) == 1 && PlanBlocks(plan, 0) == [];
    assert PlanBlocks(plan, 1) == [] + Blocks(row, 1) == blocks;
  }

  lemma LastTwo(y: int, a: int, start: int)
    requires a != y
    ensures Blocks([y, a], start) == [Block(start, [y, a])]
  {
    assert [y, a] == [y] + ([a] + []);
    BlocksAlone(a, [], start + 1);
    BlocksJoin(y, a, [], start);
    assert [a] + [] == [a];
  }

  lemma BrokenRow(x: int, a: int, y: int, start: int)
    requires x != a && a != y && x != y
    ensures Blocks([x, a, y, a], start) == [Block(start, [x]), Block(start + 2, [y, a])]
  {
    LastTwo(y, a, start + 2);
    BlocksDrop(a, [y, a], start + 1);
    assert [a] + [y, a] == [a, y, a] && [x] + [a, y, a] == [x, a, y, a];
    BlocksAlone(x, [a, y, a], start);
  }

  /** A request of one row that mentions exactly the known buttons is planned as it stands. */
  lemma OneRowPlan(row: seq<int>, order: seq<int>)
    requires row != [] && forall a :: a in row <==> a in order
    ensures Plan([row], order) == [row]
  {
    var known := Ids(order);
    var none: seq<seq<int>> := [];
    KeepsAll(row, known, {});
    assert [row][..0] == none && Ids(Flat(none)) == {};
    assert Requested([row], known) == none + [row];
    FlatAppend(none, row);
    assert none + [row] == [row] && Flat([row]) == row;
    NoneLeftOut(order, row);
  }

  lemma {:induction false} NoneLeftOut(order: seq<int>, row: seq<int>)
    requires forall a :: a in order ==> a in row
    ensures Singles(order, Ids(row)) == []
  {
    if order != [] {
      assert order[|order| - 1] in order;
      NoneLeftOut(order[..|order| - 1], row);
    }
  }

  /** The unit of work sends one UPDATE per row in an order of its own: whichever rows have been
      updated, numbers stay unique, because old and new numbers lie on opposite sides of zero. */
  lemma PartialUpdateStaysUnique(before: Numbers, after: Numbers, updated: set<int>)
    requires Unique(before) && Unique(after) && before.Keys == after.Keys
    requires (Positive(before) && forall a :: a in after ==> after[a] < 0)
          || (Positive(after) && forall a :: a in before ==> before[a] < 0)
    ensures Unique(map a | a in before :: if a in updated then after[a] else before[a])
  {
  }

  lemma RequestedNext(rows: seq<seq<int>>, known: set<int>, k: nat)
    requires k < |rows|
    ensures var plan := Requested(rows[..k], known);
            var row := Keep(rows[k], known, Ids(Flat(plan)));
            Requested(rows[..k + 1], known) == if row == [] then plan else plan + [row]
  {
    assert rows[..k + 1][..k] == rows[..k];
  }

  lemma IdsConcat(a: seq<int>, b: seq<int>)
    ensures Ids(a + b) == Ids(a) + Ids(b)
  {
  }

  lemma SinglesNext(order: seq<int>, placed: set<int>, k: nat)
    requires k < |order|
    ensures var plan := Singles(order[..k], placed);
            Singles(order[..k + 1], placed) == if order[k] in placed then plan else plan + [[order[k]]]
  {
    assert order[..k + 1][..k] == order[..k];
  }

  lemma {:induction false} SplitDependsOnListed(n: Numbers, m: Numbers, order: seq<int>)
    requires forall a :: a in order ==> NumberOf(n, a) == NumberOf(m, a)
    ensures Split(n, order) == Split(m, order)
  {
    if order != [] {
      SplitDependsOnListed(n, m, order[..|order| - 1]);
    }
  }

  /** next_row_number: a gap after the largest number in use. */
  function NextRowNumber(n: Numbers): int
    requires Unique(n)
  {
    var order := ByNumber(n);
    if order == [] || n[order[|order| - 1]] == 0 then 1 else n[order[|order| - 1]] + 2
  }

  /** Two more than the largest number, or 1 when there is no button or the largest number is 0. */
  lemma NextRowNumberMeans(n: Numbers, a: int)
    requires Unique(n)
    ensures n == map[] ==> NextRowNumber(n) == 1
    ensures a in n && (forall b :: b in n ==> n[b] <= n[a]) ==> NextRowNumber(n) == if n[a] == 0 then 1 else n[a] + 2
  {
    var order := ByNumber(n);
    if a in n {
      assert a in order && order[|order| - 1] in order;
      var i :| 0 <= i < |order| && order[i] == a;
    } else if order != [] {
      assert order[0] in n;
    }
  }

  lemma NumbersBelowNext(n: Numbers)
    requires Unique(n) && Positive(n)
    ensures forall a :: a in n ==> n[a] < NextRowNumber(n) - 1
    ensures NextRowNumber(n) > 0
  {
  }

  lemma ListingGrows(n: Numbers, order: seq<int>, id: int, number: int)
    requires IsListing(n, order) && id !in n && forall a :: a in n ==> n[a] < number
    ensures IsListing(n[id := number], order + [id])
  {
    var longer, m := order + [id], n[id := number];
    assert forall a :: a in longer <==> a in m;
    assert forall i :: 0 <= i < |longer| ==> longer[i] in longer;
    forall i, j | 0 <= i < j < |longer| ensures m[longer[i]] < m[longer[j]] {
      assert longer[i] == order[i] && order[i] in n;
      assert j < |order| ==> longer[j] == order[j] && order[j] in n;
    }
  }

  /** A button added there shows as one extra last row, and nothing else moves. */
  lemma NextRowIsLast(n: Numbers, id: int)
    requires Unique(n) && Positive(n) && id !in n
    ensures var m := n[id := NextRowNumber(n)];
            Unique(m) && Positive(m) && Layout(m) == Layout(n) + [[id]]
  {
    var order, m := ByNumber(n), n[id := NextRowNumber(n)];
    NumbersBelowNext(n);
    FreshNumberIsUnique(n, id, NextRowNumber(n));
    assert ByNumber(m) == order + [id] by {
      ListingGrows(n, order, id, NextRowNumber(n));
      ListingIsUnique(m, ByNumber(m), order + [id]);
    }
    SplitDependsOnListed(n, m, order);
    SplitSnoc(m, order, id);
    assert order != [] ==> order[|order| - 1] in n;
  }

  lemma FreshNumberIsUnique(n: Numbers, id: int, number: int)
    requires Unique(n) && Positive(n) && id !in n && number > 0
    requires forall a :: a in n ==> n[a] < number
    ensures Unique(n[id := number]) && Positive(n[id := number])
  {
  }

  /** What the writing loops keep: numbers stay unique, written buttons are positive, and the last written
      slot of each button holds its number. */
  ghost predicate Writing(n: Numbers, ids: set<int>, plan: seq<seq<int>>, r: int, c: int, number: int) {
    && n.Keys == ids && Unique(n) && number > 0 && BelowCounter(n, number)
    && NumberedUpTo(n, plan, r, c) && RaisedUpTo(n, plan, r, c)
  }

  ghost predicate RaisedUpTo(n: Numbers, plan: seq<seq<int>>, r: int, c: int) {
    forall q: nat, j: nat :: q < |plan| && j < |plan[q]| && (q < r || (q == r && j < c)) ==>
      plan[q][j] in n && n[plan[q][j]] > 0
  }

  lemma WriteSlot(n: Numbers, ids: set<int>, plan: seq<seq<int>>, r: nat, c: nat, number: int)
    requires Writing(n, ids, plan, r, c, number) && RowsDisjoint(plan)
    requires r < |plan| && c < |plan[r]| && number == First(plan, r) + c
    requires plan[r][c] in ids && forall a :: a in ids ==> a > 0
    ensures Writing(n[plan[r][c] := number], ids, plan, r, c + 1, number + 1)
  {
    ParkedStaysUnique(n, number, plan[r][c]);
    NumberNext(n, plan, r, c);
  }

  lemma WriteRowEnd(n: Numbers, ids: set<int>, plan: seq<seq<int>>, r: nat, number: int)
    requires r < |plan| && Writing(n, ids, plan, r, |plan[r]|, number)
    ensures Writing(n, ids, plan, r + 1, 0, number + 1)
  {
    forall q: nat, j: nat | q < |plan| && j < |plan[q]| && HoldsAt(plan, q, j, r + 1, 0)
      ensures plan[q][j] in n && n[plan[q][j]] == First(plan, q) + j
    {
      assert HoldsAt(plan, q, j, r, |plan[r]|);
    }
  }

  lemma AllRaised(n: Numbers, ids: set<int>, plan: seq<seq<int>>, number: int)
    requires Writing(n, ids, plan, |plan|, 0, number)
    requires forall a :: a in ids ==> a in Flat(plan)
    ensures Positive(n)
  {
    forall a | a in n ensures n[a] > 0 {
      InFlat(plan, a);
      var r :| 0 <= r < |plan| && a in plan[r];
      var c :| 0 <= c < |plan[r]| && plan[r][c] == a;
    }
  }

  lemma ListingHasNoRepeat(n: Numbers, order: seq<int>)
    requires IsListing(n, order)
    ensures NoRepeat(order)
  {
  }

  lemma ListingIds(n: Numbers, order: seq<int>)
    requires IsListing(n, order)
    ensures Ids(order) == n.Keys
  {
    forall a ensures a in Ids(order) <==> a in n.Keys {
      assert a in Ids(order) <==> a in order;
    }
  }

  lemma PlanOfListing(n: Numbers, rows: seq<seq<int>>, order: seq<int>)
    requires IsListing(n, order)
    ensures var plan := Plan(rows, order);
      && RowsDisjoint(plan) && (forall a :: a in Flat(plan) <==> a in n)
      && (Shown(plan) == plan <==> !RequestRepeats(rows, n.Keys))
  {
    ListingIds(n, order);
    ListingHasNoRepeat(n, order);
    PlanCoversOnce(rows, order);
    PlanRepeatsIff(rows, order);
    ShownIsPlanIff(Plan(rows, order));
  }

  /** The numbers once the buttons `done` have moved out of the way. */
  function ParkedUpTo(n: Numbers, done: seq<int>): Numbers {
    map a | a in n :: if a in done then -a else n[a]
  }

  lemma ParkNext(n: Numbers, done: seq<int>, a: int)
    requires Unique(n) && Positive(n) && (forall b :: b in n ==> b > 0) && a in n
    ensures ParkedUpTo(n, done + [a]) == ParkedUpTo(n, done)[a := -a]
    ensures Unique(ParkedUpTo(n, done + [a]))
  {
  }

  class HelpMenu {
    var numbers: Numbers

    /** Ids are positive keys, numbers positive and unique. */
    ghost predicate Valid()
      reads this
    {
      Unique(numbers) && Positive(numbers) && forall a :: a in numbers ==> a > 0
    }

    constructor (numbers: Numbers)
      requires Unique(numbers) && Positive(numbers) && forall a :: a in numbers ==> a > 0
      ensures Valid() && this.numbers == numbers
    {
      this.numbers := numbers;
    }

    /** apply_layout. Every single update keeps the numbers unique (the loops' invariants). The menu then
        shows the plan, each row broken where a button gave its first place up; that is the plan itself if
        and only if no row of the request repeats a known button that no earlier row has taken. */
    method ApplyLayout(rows: seq<seq<int>>)
      requires Valid()
      modifies this
      ensures Valid() && numbers.Keys == old(numbers).Keys
      ensures Layout(numbers) == Shown(Plan(rows, ByNumber(old(numbers))))
      ensures Layout(numbers) == Plan(rows, ByNumber(old(numbers))) <==> !RequestRepeats(rows, old(numbers).Keys)
    {
      var buttons := ByNumber(numbers);
      PlanOfListing(numbers, rows, buttons);
      var plan := PlanRows(rows, buttons);
      WritePlan(plan, buttons);
    }

    /** Park all numbers, then write the plan's. */
    method WritePlan(plan: seq<seq<int>>, buttons: seq<int>)
      requires Valid() && IsListing(numbers, buttons)
      requires RowsDisjoint(plan) && forall a :: a in Flat(plan) <==> a in numbers
      modifies this
      ensures Valid() && numbers.Keys == old(numbers).Keys
      ensures Layout(numbers) == Shown(plan)
    {
      ghost var ids := numbers.Keys;
      Park(buttons);
      WriteRows(plan, ids);
      NumberedPlanIsShown(numbers, plan);
    }

    /** The second phase: one running counter over the plan, skipping a number after each row. */
    method WriteRows(plan: seq<seq<int>>, ghost ids: set<int>)
      requires numbers.Keys == ids && Unique(numbers)
      requires forall a :: a in ids ==> a > 0 && numbers[a] == -a
      requires RowsDisjoint(plan) && forall a :: a in Flat(plan) <==> a in ids
      modifies this
      ensures numbers.Keys == ids && Unique(numbers) && Positive(numbers)
      ensures NumberedUpTo(numbers, plan, |plan|, 0)
    {
      var number := 1;
      for r := 0 to |plan|
        invariant Writing(numbers, ids, plan, r, 0, number) && number == First(plan, r)
      {
        for c := 0 to |plan[r]|
          invariant Writing(numbers, ids, plan, r, c, number) && number == First(plan, r) + c
        {
          InFlat(plan, plan[r][c]);
          WriteSlot(numbers, ids, plan, r, c, number);
          numbers := numbers[plan[r][c] := number];
          number := number + 1;
        }
        WriteRowEnd(numbers, ids, plan, r, number);
        number := number + 1;
      }
      AllRaised(numbers, ids, plan, number);
    }

    /** The first phase: every number moves out of the way, to minus its id. */
    method Park(buttons: seq<int>)
      requires Valid() && IsListing(numbers, buttons)
      modifies this
      ensures numbers == map a | a in old(numbers) :: -a
      ensures Unique(numbers)
    {
      ghost var start := numbers;
      for k := 0 to |buttons|
        invariant numbers == ParkedUpTo(start, buttons[..k]) && Unique(numbers)
      {
        ParkNext(start, buttons[..k], buttons[k]);
        TakeNext(buttons, k);
        numbers := numbers[buttons[k] := -buttons[k]];
      }
      TakeAll(buttons);
    }

    /** The loops that build the rows to write. */
    method PlanRows(rows: seq<seq<int>>, buttons: seq<int>) returns (plan: seq<seq<int>>)
      ensures plan == Plan(rows, buttons)
    {
      var requested, placed := RequestedRows(rows, Ids(buttons));
      var singles := SingleRows(buttons, placed);
      plan := requested + singles;
    }

    /** The given rows, keeping known buttons no earlier row has placed. */
    method RequestedRows(rows: seq<seq<int>>, known: set<int>) returns (plan: seq<seq<int>>, placed: set<int>)
      ensures plan == Requested(rows, known)
      ensures placed == Ids(Flat(plan))
    {
      placed, plan := {}, [];
      for k := 0 to |rows|
        invariant plan == Requested(rows[..k], known)
        invariant placed == Ids(Flat(plan))
      {
        RequestedNext(rows, known, k);
        var row := Keep(rows[k], known, placed);
        if row != [] {
          FlatAppend(plan, row);
          IdsConcat(Flat(plan), row);
          placed := placed + Ids(row);
          plan := plan + [row];
        }
      }
      TakeAll(rows);
    }

    /** One row for each button no requested row has placed. */
    method SingleRows(buttons: seq<int>, placed: set<int>) returns (plan: seq<seq<int>>)
      ensures plan == Singles(buttons, placed)
    {
      plan := [];
      for k := 0 to |buttons|
        invariant plan == Singles(buttons[..k], placed)
      {
        SinglesNext(buttons, placed, k);
        if buttons[k] !in placed {
          plan := plan + [[buttons[k]]];
        }
      }
      TakeAll(buttons);
    }
  }
}

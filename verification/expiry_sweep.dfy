// The expiry sweep (app/jobs/services/expiration.py, app/db/crud/services.py): a keyset-paged loop over
// the services owed a notice, which sets the very flags its own query filters on as it goes.
module ExpirySweep {
  import opened Common
  import opened Orders

  datatype Service = Service(
    panel: Option<int>, expiration: Option<int>, notified: Option<bool>, warning: Option<int>,
    warningTime: Option<int>, isTest: bool)

  type Table = map<int, Service>

  datatype Kind = Expiry | Grace
  datatype Notice = Notice(code: int, kind: Kind)

  /** Sending one notice: delivered or not, and whether something raised before or after delivery. */
  datatype Outcome = Sent | Unsent | Raised | SentThenRaised

  predicate WasSent(o: Outcome) {
    o.Sent? || o.SentThenRaised?
  }

  /** The window of a run: the panels it covers, its clock, and the clock a day later. */
  datatype Window = Window(panels: set<int>, now: int)
  {
    function Soon(): int {
      now + 24 * 60 * 60
    }
  }

  // ---- the query ----------------------------------------------------------------------------

  predicate Owed(s: Service, w: Window) {
    && s.panel.Some? && s.panel.value in w.panels
    && s.expiration.Some? && s.expiration.value <= w.Soon()
    && ((s.expiration.value > w.now && s.notified != Some(true))
        || (s.expiration.value <= w.now && (s.warning.None? || s.warning.value == 0)))
  }

  datatype Cursor = Start | After(expiration: int, code: int)

  function Expiration(t: Table, code: int): int {
    if code in t && t[code].expiration.Some? then t[code].expiration.value else 0
  }

  /** Row order: by expiration time, then by code. */
  predicate Precedes(t: Table, a: int, b: int) {
    Expiration(t, a) < Expiration(t, b) || (Expiration(t, a) == Expiration(t, b) && a < b)
  }

  predicate Beyond(t: Table, c: Cursor, code: int) {
    c.Start? || Expiration(t, code) > c.expiration || (Expiration(t, code) == c.expiration && code > c.code)
  }

  function OwedCodes(t: Table, w: Window, c: Cursor): set<int> {
    set code | code in t && Owed(t[code], w) && Beyond(t, c, code)
  }

  /** `order` lists exactly `codes`, in row order. */
  ghost predicate IsListing(t: Table, codes: set<int>, order: seq<int>) {
    && (forall i :: 0 <= i < |order| ==> order[i] in codes)
    && (forall code :: code in codes ==> Lists(order, code))
    && (forall i, j :: 0 <= i < j < |order| ==> Precedes(t, order[i], order[j]))
  }

  function RowOrder(t: Table): (int, int) -> bool {
    (a, b) => Precedes(t, a, b)
  }

  lemma ListsMembers(order: seq<int>)
    ensures forall code :: Lists(order, code) <==> code in order
  {
  }

  /** SELECT ... ORDER BY expiration_time, code. */
  function Listing(t: Table, codes: set<int>): (order: seq<int>)
    ensures IsListing(t, codes, order)
  {
    var order := Arranged(codes, RowOrder(t));
    ListsMembers(order);
    order
  }

  lemma ListingIsUnique(t: Table, codes: set<int>, r: seq<int>, s: seq<int>)
    requires IsListing(t, codes, r) && IsListing(t, codes, s)
    ensures r == s
  {
    ListsMembers(r);
    ListsMembers(s);
    SortedOnce(r, s, RowOrder(t));
  }

  /** LIMIT. */
  function Page(order: seq<int>, limit: nat): seq<int> {
    if |order| <= limit then order else order[..limit]
  }

  /** get_services_for_expiration_check_batch. */
  function Batch(t: Table, w: Window, c: Cursor, limit: nat): seq<int> {
    Page(Listing(t, OwedCodes(t, w, c)), limit)
  }

  // ---- flags --------------------------------------------------------------------------------

  function Flag(s: Service, kind: Kind, now: int): Service {
    if kind == Expiry then s.(notified := Some(true)) else s.(warning := Some(1), warningTime := Some(now))
  }

  function FlagAll(t: Table, codes: set<int>, kind: Kind, now: int): Table {
    map c | c in t :: if c in codes then Flag(t[c], kind, now) else t[c]
  }

  predicate Flagged(s: Service, kind: Kind) {
    if kind == Expiry then s.notified == Some(true) else s.warning.Some? && s.warning.value != 0
  }

  /** Which notice a visited service gets, if any. Test services get no grace notice. */
  predicate Wants(s: Service, kind: Kind, w: Window) {
    && s.expiration.Some? && s.expiration.value != 0
    && if kind == Expiry then w.now < s.expiration.value <= w.Soon() && s.notified != Some(true)
       else !s.isTest && s.expiration.value <= w.now && (s.warning.None? || s.warning.value == 0)
  }

  /** Rows of `codes` may have gained flags; nothing else differs. */
  ghost predicate OnlyFlags(t: Table, u: Table, codes: seq<int>) {
    && t.Keys == u.Keys
    && forall c :: c in t ==>
         && u[c].panel == t[c].panel && u[c].expiration == t[c].expiration && u[c].isTest == t[c].isTest
         && (!Lists(codes, c) ==> u[c] == t[c])
  }

  /** The notice a visit delivers, if any. */
  function NoticeOf(s: Service, code: int, w: Window, deliver: (int, Kind) -> Outcome): seq<Notice> {
    if Wants(s, Expiry, w) && WasSent(deliver(code, Expiry)) then [Notice(code, Expiry)]
    else if Wants(s, Grace, w) && WasSent(deliver(code, Grace)) then [Notice(code, Grace)]
    else []
  }

  function NoticesOf(t: Table, codes: seq<int>, w: Window, deliver: (int, Kind) -> Outcome): seq<Notice> {
    if codes == [] then []
    else
      var last := codes[|codes| - 1];
      NoticesOf(t, codes[..|codes| - 1], w, deliver) + if last in t then NoticeOf(t[last], last, w, deliver) else []
  }

  /** A visited row: flagged for the notice delivered, otherwise as it was. */
  function Visited(s: Service, code: int, w: Window, deliver: (int, Kind) -> Outcome): Service {
    var sent := NoticeOf(s, code, w, deliver);
    if sent == [] then s else Flag(s, sent[0].kind, w.now)
  }

  /** The table after visiting `codes`. */
  function Swept(t: Table, codes: seq<int>, w: Window, deliver: (int, Kind) -> Outcome): Table {
    map c | c in t :: if Lists(codes, c) then Visited(t[c], c, w, deliver) else t[c]
  }

  lemma SweptOnlyFlags(t: Table, codes: seq<int>, w: Window, deliver: (int, Kind) -> Outcome)
    ensures OnlyFlags(t, Swept(t, codes, w, deliver), codes)
  {
  }

  /** Sweeping on through codes not visited before. */
  lemma SweptConcat(t: Table, a: seq<int>, b: seq<int>, w: Window, deliver: (int, Kind) -> Outcome)
    requires forall c :: Lists(b, c) ==> !Lists(a, c)
    ensures Swept(Swept(t, a, w, deliver), b, w, deliver) == Swept(t, a + b, w, deliver)
  {
    var l, r := Swept(Swept(t, a, w, deliver), b, w, deliver), Swept(t, a + b, w, deliver);
    assert l.Keys == t.Keys && r.Keys == t.Keys;
    forall c | c in t ensures l[c] == r[c] {
      ListsConcat(a, b, c);
    }
    assert l == r;
  }

  lemma {:induction false} NoticesConcat(t: Table, a: seq<int>, b: seq<int>, w: Window, deliver: (int, Kind) -> Outcome)
    requires forall c :: Lists(b, c) ==> !Lists(a, c)
    ensures NoticesOf(t, a, w, deliver) + NoticesOf(Swept(t, a, w, deliver), b, w, deliver)
         == NoticesOf(t, a + b, w, deliver)
  {
    if b == [] {
      assert a + b == a;
    } else {
      var init, last := b[..|b| - 1], b[|b| - 1];
      assert b == init + [last] && (a + b)[..|a + b| - 1] == a + init;
      assert Lists(b, last);
      forall c | Lists(init, c) ensures !Lists(a, c) {
        ListsConcat(init, [last], c);
      }
      NoticesConcat(t, a, init, w, deliver);
    }
  }

  const BATCH_SIZE := 500
  const FLUSH_EVERY := 25
  const CHUNK := 1000

  function Members(codes: seq<int>): set<int> {
    set c | c in codes
  }

  /** Every delivered notice is remembered by a flag, or still waits in a list to be flushed. */
  ghost predicate Remembered(t: Table, delivered: seq<Notice>, expiring: seq<int>, warned: seq<int>) {
    forall i :: 0 <= i < |delivered| && delivered[i].code in t ==>
      var n := delivered[i];
      Flagged(t[n.code], n.kind) || n.code in (if n.kind == Expiry then expiring else warned)
  }

  ghost predicate DeliveredOnce(delivered: seq<Notice>) {
    forall i, j :: 0 <= i < j < |delivered| ==> delivered[i] != delivered[j]
  }

  /** The keyset step: with everything up to the cursor visited, and only visited rows changed, the
      next query lists exactly the rest of the rows owed at the start. */
  lemma RestOfListing(t: Table, u: Table, w: Window, all: seq<int>, seen: nat, c: Cursor)
    requires IsListing(t, OwedCodes(t, w, Start), all) && seen <= |all|
    requires OnlyFlags(t, u, all[..seen])
    requires if seen == 0 then c == Start else c == After(Expiration(t, all[seen - 1]), all[seen - 1])
    ensures Listing(u, OwedCodes(u, w, c)) == all[seen..]
  {
    var rest, owed := all[seen..], OwedCodes(u, w, c);
    forall i | 0 <= i < |rest| ensures rest[i] in owed {
      StillOwed(t, u, w, all, seen, c, seen + i);
    }
    forall code | code in owed ensures Lists(rest, code) {
      OwedAgain(t, u, w, all, seen, c, code);
    }
    forall i, j | 0 <= i < j < |rest| ensures Precedes(u, rest[i], rest[j]) {
      assert all[seen + i] in OwedCodes(t, w, Start) && all[seen + j] in OwedCodes(t, w, Start);
      assert Precedes(t, all[seen + i], all[seen + j]);
    }
    ListingIsUnique(u, owed, Listing(u, owed), rest);
  }

  /** A row not yet visited is unchanged, still owed, and beyond the cursor. */
  lemma StillOwed(t: Table, u: Table, w: Window, all: seq<int>, seen: nat, c: Cursor, i: nat)
    requires IsListing(t, OwedCodes(t, w, Start), all) && seen <= i < |all|
    requires OnlyFlags(t, u, all[..seen])
    requires if seen == 0 then c == Start else c == After(Expiration(t, all[seen - 1]), all[seen - 1])
    ensures all[i] in OwedCodes(u, w, c)
  {
  }

  lemma NotSeenBefore(t: Table, codes: set<int>, all: seq<int>, seen: nat, i: nat)
    requires IsListing(t, codes, all) && seen <= i < |all|
    ensures !Lists(all[..seen], all[i])
  {
  }

  /** A row the next query returns was owed at the start and lies beyond everything seen. */
  lemma OwedAgain(t: Table, u: Table, w: Window, all: seq<int>, seen: nat, c: Cursor, code: int)
    requires IsListing(t, OwedCodes(t, w, Start), all) && seen <= |all|
    requires OnlyFlags(t, u, all[..seen])
    requires if seen == 0 then c == Start else c == After(Expiration(t, all[seen - 1]), all[seen - 1])
    requires code in OwedCodes(u, w, c)
    ensures Lists(all[seen..], code)
  {
    forall j | 0 <= j < seen ensures all[j] != code && all[..seen][j] != code {
      SeenIsNotBeyond(t, u, w, all, seen, c, j);
    }
    assert u[code] == t[code];
    assert code in OwedCodes(t, w, Start);
    assert Lists(all, code);
    var j :| 0 <= j < |all| && all[j] == code;
    assert all[seen..][j - seen] == code;
  }

  lemma SeenIsNotBeyond(t: Table, u: Table, w: Window, all: seq<int>, seen: nat, c: Cursor, j: nat)
    requires IsListing(t, OwedCodes(t, w, Start), all) && j < seen <= |all|
    requires OnlyFlags(t, u, all[..seen])
    requires c == After(Expiration(t, all[seen - 1]), all[seen - 1])
    ensures !Beyond(u, c, all[j])
  {
  }

  lemma MembersConcat(a: seq<int>, b: seq<int>)
    ensures Members(a + b) == Members(a) + Members(b)
  {
  }

  lemma FlagTwice(t: Table, a: set<int>, b: set<int>, kind: Kind, now: int)
    ensures FlagAll(FlagAll(t, a, kind, now), b, kind, now) == FlagAll(t, a + b, kind, now)
  {
    var l, r := FlagAll(FlagAll(t, a, kind, now), b, kind, now), FlagAll(t, a + b, kind, now);
    assert l.Keys == t.Keys && r.Keys == t.Keys;
    forall c | c in t ensures l[c] == r[c] {
      assert c in a + b <==> c in a || c in b;
    }
    assert l == r;
  }

  lemma FlagNone(t: Table, none: seq<int>, kind: Kind, now: int)
    requires none == []
    ensures FlagAll(t, Members(none), kind, now) == t
  {
  }

  /** Everything done so far is the visits' doing. */
  ghost predicate SweptSoFar(
      t: Table, u: Table, d0: seq<Notice>, d: seq<Notice>, w: Window, deliver: (int, Kind) -> Outcome,
      all: seq<int>, visited: seq<int>)
  {
    && visited <= all && u == Swept(t, visited, w, deliver)
    && d == d0 + NoticesOf(t, visited, w, deliver)
  }

  // ---- lists of flags not yet flushed ---------------------------------------------------------

  /** The table once both pending lists are flushed. */
  function Flushed(t: Table, expiring: seq<int>, warned: seq<int>, now: int): Table {
    FlagAll(FlagAll(t, Members(expiring), Expiry, now), Members(warned), Grace, now)
  }

  lemma FlushedNothing(t: Table, now: int)
    ensures Flushed(t, [], [], now) == t
  {
  }

  lemma NothingPending(t: Table, w: Window, deliver: (int, Kind) -> Outcome)
    ensures Flushed(t, [], [], w.now) == Swept(t, [], w, deliver)
  {
  }

  /** Where a batch stands after visiting `done`: its flags set or pending, its notices delivered. */
  ghost predicate BatchAt(
      snapshot: Table, t: Table, d0: seq<Notice>, d: seq<Notice>, done: seq<int>, expiring: seq<int>, warned: seq<int>,
      w: Window, deliver: (int, Kind) -> Outcome)
  {
    && DeliveredOnce(d) && Remembered(t, d, expiring, warned)
    && d == d0 + NoticesOf(snapshot, done, w, deliver)
    && Flushed(t, expiring, warned, w.now) == Swept(snapshot, done, w, deliver)
    && forall c :: c in expiring || c in warned ==> Lists(done, c)
  }

  lemma BatchFlushed(
      snapshot: Table, t: Table, u: Table, d0: seq<Notice>, d: seq<Notice>, done: seq<int>,
      expiring: seq<int>, warned: seq<int>, w: Window, deliver: (int, Kind) -> Outcome)
    requires BatchAt(snapshot, t, d0, d, done, expiring, warned, w, deliver)
    requires u == Flushed(t, expiring, warned, w.now) && Remembered(u, d, [], [])
    ensures BatchAt(snapshot, u, d0, d, done, [], [], w, deliver)
  {
  }

  lemma CodeIsUntouched(
      snapshot: Table, t: Table, d0: seq<Notice>, d: seq<Notice>, done: seq<int>, expiring: seq<int>, warned: seq<int>,
      w: Window, deliver: (int, Kind) -> Outcome, code: int)
    requires BatchAt(snapshot, t, d0, d, done, expiring, warned, w, deliver)
    requires code in snapshot && !Lists(done, code)
    ensures code !in expiring && code !in warned && code in t && t[code] == snapshot[code]
  {
    assert Flushed(t, expiring, warned, w.now).Keys == t.Keys;
    assert code in Swept(snapshot, done, w, deliver);
    PendingLeavesOthers(t, expiring, warned, w.now, code);
  }

  lemma BatchNext(
      snapshot: Table, t: Table, d0: seq<Notice>, d: seq<Notice>, d': seq<Notice>, done: seq<int>,
      e: seq<int>, g: seq<int>, e': seq<int>, g': seq<int>, w: Window, deliver: (int, Kind) -> Outcome, code: int)
    requires BatchAt(snapshot, t, d0, d, done, e, g, w, deliver)
    requires code in snapshot && !Lists(done, code) && code !in e && code !in g
    requires DeliveredOnce(d') && Remembered(t, d', e', g')
    requires var sent := NoticeOf(snapshot[code], code, w, deliver);
             && d' == d + sent
             && e' == e + (if Notice(code, Expiry) in sent then [code] else [])
             && g' == g + (if Notice(code, Grace) in sent then [code] else [])
    ensures BatchAt(snapshot, t, d0, d', done + [code], e', g', w, deliver)
  {
    VisitExtendsSweep(snapshot, t, done, e, g, code, w, deliver);
    assert (done + [code])[..|done|] == done;
    forall c | c in e' || c in g' ensures Lists(done + [code], c) {
      ListsConcat(done, [code], c);
      assert [code][0] == code;
    }
  }

  lemma PendingLeavesOthers(t: Table, expiring: seq<int>, warned: seq<int>, now: int, code: int)
    requires code in t && code !in expiring && code !in warned
    ensures code in Flushed(t, expiring, warned, now) && Flushed(t, expiring, warned, now)[code] == t[code]
  {
  }

  lemma VisitExtendsSweep(
      snapshot: Table, t: Table, visited: seq<int>, expiring: seq<int>, warned: seq<int>, code: int,
      w: Window, deliver: (int, Kind) -> Outcome)
    requires Flushed(t, expiring, warned, w.now) == Swept(snapshot, visited, w, deliver)
    requires code in snapshot && !Lists(visited, code) && code !in expiring && code !in warned
    ensures var sent := NoticeOf(snapshot[code], code, w, deliver);
            Flushed(t, expiring + (if Notice(code, Expiry) in sent then [code] else []),
                    warned + (if Notice(code, Grace) in sent then [code] else []), w.now)
            == Swept(snapshot, visited + [code], w, deliver)
  {
    var sent := NoticeOf(snapshot[code], code, w, deliver);
    var e, g := expiring + (if Notice(code, Expiry) in sent then [code] else []),
                warned + (if Notice(code, Grace) in sent then [code] else []);
    var before, l, r := Flushed(t, expiring, warned, w.now), Flushed(t, e, g, w.now), Swept(snapshot, visited + [code], w, deliver);
    assert before.Keys == t.Keys && Swept(snapshot, visited, w, deliver).Keys == snapshot.Keys;
    assert l.Keys == t.Keys && r.Keys == snapshot.Keys;
    forall c | c in t ensures l[c] == r[c] {
      ListsConcat(visited, [code], c);
      if c == code {
        assert [code][0] == code;
        assert before[c] == t[c] == snapshot[c];
        FlushedHere(t, expiring, warned, sent, w, deliver, code);
      } else {
        assert before[c] == Swept(snapshot, visited, w, deliver)[c];
        FlushedElsewhere(t, expiring, warned, e, g, w.now, c);
      }
    }
    assert l == r;
  }

  lemma FlushedHere(
      t: Table, e: seq<int>, g: seq<int>, sent: seq<Notice>, w: Window, deliver: (int, Kind) -> Outcome, code: int)
    requires code in t && code !in e && code !in g && sent == NoticeOf(t[code], code, w, deliver)
    ensures var after := Flushed(t, e + (if Notice(code, Expiry) in sent then [code] else []),
                                 g + (if Notice(code, Grace) in sent then [code] else []), w.now);
            code in after && after[code] == Visited(t[code], code, w, deliver)
  {
  }

  lemma FlushedElsewhere(t: Table, e: seq<int>, g: seq<int>, e': seq<int>, g': seq<int>, now: int, c: int)
    requires c in t && (c in e <==> c in e') && (c in g <==> c in g')
    ensures c in Flushed(t, e, g, now) && c in Flushed(t, e', g', now)
    ensures Flushed(t, e, g, now)[c] == Flushed(t, e', g', now)[c]
  {
  }

  /** Where a sweep of the listing `all` of table `t` stands: what it visited, what changed, its cursor. */
  ghost predicate SweepAt(
      t: Table, u: Table, w: Window, deliver: (int, Kind) -> Outcome, all: seq<int>, visited: seq<int>, c: Cursor)
  {
    && IsListing(t, OwedCodes(t, w, Start), all) && visited <= all
    && u == Swept(t, visited, w, deliver)
    && if visited == [] then c == Start
       else c == After(Expiration(t, visited[|visited| - 1]), visited[|visited| - 1])
  }

  lemma StretchIsFresh(t: Table, owed: set<int>, all: seq<int>, visited: seq<int>, batch: seq<int>)
    requires IsListing(t, owed, all) && visited + batch <= all
    ensures forall code :: Lists(batch, code) ==> !Lists(visited, code)
  {
    forall code | Lists(batch, code) ensures !Lists(visited, code) {
      var i :| 0 <= i < |batch| && batch[i] == code;
      assert all[|visited| + i] == code && visited == all[..|visited|];
      NotSeenBefore(t, owed, all, |visited|, |visited| + i);
    }
  }

  lemma SweepNext(
      t: Table, u: Table, v: Table, d0: seq<Notice>, d: seq<Notice>, d': seq<Notice>,
      w: Window, deliver: (int, Kind) -> Outcome, all: seq<int>, visited: seq<int>, batch: seq<int>)
    requires SweptSoFar(t, u, d0, d, w, deliver, all, visited)
    requires v == Swept(u, batch, w, deliver) && d' == d + NoticesOf(u, batch, w, deliver)
    requires visited + batch <= all
    requires forall code :: Lists(batch, code) ==> !Lists(visited, code)
    ensures SweptSoFar(t, v, d0, d', w, deliver, all, visited + batch)
  {
    assert v == Swept(t, visited + batch, w, deliver) by { SweptConcat(t, visited, batch, w, deliver); }
    assert d' == d0 + NoticesOf(t, visited + batch, w, deliver) by {
      NoticesConcat(t, visited, batch, w, deliver);
      ConcatAssociative(d0, NoticesOf(t, visited, w, deliver), NoticesOf(u, batch, w, deliver));
    }
  }

  /** After the first `count` services of a page: their visits and nothing else, and the next cursor. */
  lemma AfterPage(
      t: Table, u: Table, v: Table, d0: seq<Notice>, d: seq<Notice>, d': seq<Notice>,
      w: Window, deliver: (int, Kind) -> Outcome, all: seq<int>, visited: seq<int>, c: Cursor, batch: seq<int>, count: nat)
    requires SweepAt(t, u, w, deliver, all, visited, c) && SweptSoFar(t, u, d0, d, w, deliver, all, visited)
    requires visited + batch <= all && count <= |batch|
    requires v == Swept(u, batch[..count], w, deliver) && d' == d + NoticesOf(u, batch[..count], w, deliver)
    ensures SweptSoFar(t, v, d0, d', w, deliver, all, visited + batch[..count])
    ensures count == |batch| > 0 ==>
              visited + batch[..count] == visited + batch
              && SweepAt(t, v, w, deliver, all, visited + batch, After(Expiration(v, batch[|batch| - 1]), batch[|batch| - 1]))
  {
    var part := batch[..count];
    assert SweptSoFar(t, v, d0, d', w, deliver, all, visited + part) by {
      PartOfPage(all, visited, batch, count);
      StretchIsFresh(t, OwedCodes(t, w, Start), all, visited, part);
      SweepNext(t, u, v, d0, d, d', w, deliver, all, visited, part);
    }
    if count == |batch| > 0 {
      assert part == batch;
      CursorNext(t, v, w, deliver, all, visited + batch, batch[|batch| - 1]);
    }
  }

  lemma CursorNext(
      t: Table, v: Table, w: Window, deliver: (int, Kind) -> Outcome, all: seq<int>, visited: seq<int>, last: int)
    requires IsListing(t, OwedCodes(t, w, Start), all) && visited <= all
    requires v == Swept(t, visited, w, deliver) && visited != [] && last == visited[|visited| - 1]
    ensures SweepAt(t, v, w, deliver, all, visited, After(Expiration(v, last), last))
  {
  }

  /** The page read next continues the original listing where the visits stopped. */
  lemma PageIsNext(
      t: Table, u: Table, w: Window, deliver: (int, Kind) -> Outcome, all: seq<int>, visited: seq<int>, c: Cursor)
    requires SweepAt(t, u, w, deliver, all, visited, c)
    ensures var batch := Batch(u, w, c, BATCH_SIZE);
            && visited + batch <= all
            && (|batch| < BATCH_SIZE ==> visited + batch == all)
            && (forall i, j :: 0 <= i < j < |batch| ==> batch[i] != batch[j])
            && (forall i :: 0 <= i < |batch| ==> batch[i] in u)
  {
    var batch := Batch(u, w, c, BATCH_SIZE);
    assert visited == all[..|visited|];
    SweptOnlyFlags(t, visited, w, deliver);
    assert Listing(u, OwedCodes(u, w, c)) == all[|visited|..] by { RestOfListing(t, u, w, all, |visited|, c); }
    BatchIsSlice(all, |visited|, batch);
    ListingHasNoRepeats(t, OwedCodes(t, w, Start), all);
    forall i | 0 <= i < |batch| ensures batch[i] in u {
      assert all[|visited| + i] in OwedCodes(t, w, Start);
    }
  }

  lemma PartOfPage(all: seq<int>, visited: seq<int>, batch: seq<int>, count: nat)
    requires visited + batch <= all && count <= |batch|
    ensures visited + batch[..count] <= all
  {
  }

  /** The page is a stretch of the original listing. */
  lemma BatchIsSlice(all: seq<int>, seen: nat, batch: seq<int>)
    requires seen <= |all| && batch == Page(all[seen..], BATCH_SIZE)
    ensures all[..seen] + batch <= all
    ensures forall i :: 0 <= i < |batch| ==> batch[i] == all[seen + i]
    ensures |batch| < BATCH_SIZE ==> all[..seen] + batch == all
  {
  }

  lemma ListingHasNoRepeats(t: Table, codes: set<int>, order: seq<int>)
    requires IsListing(t, codes, order)
    ensures forall i, j :: 0 <= i < j < |order| ==> order[i] != order[j]
  {
  }

  lemma NotYetVisited(batch: seq<int>, i: nat)
    requires i < |batch| && forall i, j :: 0 <= i < j < |batch| ==> batch[i] != batch[j]
    ensures !Lists(batch[..i], batch[i])
  {
  }

  // ---- when a run stops early ---------------------------------------------------------------

  predicate Fails(o: Outcome) {
    o.Raised? || o.SentThenRaised?
  }

  /** Visiting this row raises: it wants a notice whose sending raises. */
  predicate Halts(s: Service, code: int, w: Window, deliver: (int, Kind) -> Outcome) {
    || (Wants(s, Expiry, w) && Fails(deliver(code, Expiry)))
    || (Wants(s, Grace, w) && Fails(deliver(code, Grace)))
  }

  predicate HaltsAt(t: Table, code: int, w: Window, deliver: (int, Kind) -> Outcome) {
    code in t && Halts(t[code], code, w, deliver)
  }

  /** The visits stop right after the first row that raises, and only then. */
  ghost predicate StopsWhereItRaises(
      t: Table, visited: seq<int>, raised: bool, w: Window, deliver: (int, Kind) -> Outcome)
  {
    && (raised <==> visited != [] && HaltsAt(t, visited[|visited| - 1], w, deliver))
    && forall i :: 0 <= i < |visited| - 1 ==> !HaltsAt(t, visited[i], w, deliver)
  }

  lemma StopsExtends(
      t: Table, u: Table, visited: seq<int>, part: seq<int>, raised: bool, w: Window, deliver: (int, Kind) -> Outcome)
    requires StopsWhereItRaises(t, visited, false, w, deliver) && StopsWhereItRaises(u, part, raised, w, deliver)
    requires forall i :: 0 <= i < |part| ==> (HaltsAt(u, part[i], w, deliver) <==> HaltsAt(t, part[i], w, deliver))
    ensures StopsWhereItRaises(t, visited + part, raised, w, deliver)
  {
    var all := visited + part;
    forall i | 0 <= i < |all| - 1 ensures !HaltsAt(t, all[i], w, deliver) {
      if i < |visited| {
        assert all[i] == visited[i];
      } else {
        assert all[i] == part[i - |visited|];
      }
    }
    if part == [] {
      assert all == visited;
    } else {
      assert all[|all| - 1] == part[|part| - 1];
    }
  }

  lemma StopsOneMore(
      t: Table, visited: seq<int>, code: int, raised: bool, w: Window, deliver: (int, Kind) -> Outcome)
    requires StopsWhereItRaises(t, visited, false, w, deliver) && (raised <==> HaltsAt(t, code, w, deliver))
    ensures StopsWhereItRaises(t, visited + [code], raised, w, deliver)
  {
  }

  lemma UnvisitedHaltsAlike(
      t: Table, visited: seq<int>, part: seq<int>, w: Window, deliver: (int, Kind) -> Outcome)
    requires forall code :: Lists(part, code) ==> !Lists(visited, code)
    ensures var u := Swept(t, visited, w, deliver);
            forall i :: 0 <= i < |part| ==> (HaltsAt(u, part[i], w, deliver) <==> HaltsAt(t, part[i], w, deliver))
  {
    var u := Swept(t, visited, w, deliver);
    forall i | 0 <= i < |part| ensures HaltsAt(u, part[i], w, deliver) <==> HaltsAt(t, part[i], w, deliver) {
      assert Lists(part, part[i]);
    }
  }

  // ---- the log of deliveries and resets -------------------------------------------------------

  /** A notice delivered, or its flag reset (or its row removed) by someone else. */
  datatype Entry = Delivered(notice: Notice) | Forgotten(notice: Notice)

  function Deliveries(notices: seq<Notice>): seq<Entry> {
    if notices == [] then [] else Deliveries(notices[..|notices| - 1]) + [Delivered(notices[|notices| - 1])]
  }

  predicate IsForgotten(log: seq<Entry>, from: nat, to: nat, n: Notice) {
    exists k :: from < k < to && k < |log| && log[k] == Forgotten(n)
  }

  /** Between two deliveries of one notice its flag was reset. */
  ghost predicate OncePerReset(log: seq<Entry>) {
    forall i: nat, j: nat :: i < j < |log| && log[i].Delivered? && log[i] == log[j] ==>
      IsForgotten(log, i, j, log[i].notice)
  }

  /** `delivered` holds the notices delivered and not reset since. */
  ghost predicate IsRecent(log: seq<Entry>, delivered: seq<Notice>) {
    forall i: nat :: i < |log| && log[i].Delivered? ==>
      log[i].notice in delivered || IsForgotten(log, i, |log|, log[i].notice)
  }

  ghost predicate LogFits(log: seq<Entry>, delivered: seq<Notice>) {
    OncePerReset(log) && IsRecent(log, delivered)
  }

  lemma ForgottenStays(log: seq<Entry>, e: Entry, from: nat, to: nat, n: Notice)
    requires IsForgotten(log, from, to, n)
    ensures IsForgotten(log + [e], from, to, n) && (to == |log| ==> IsForgotten(log + [e], from, to + 1, n))
  {
    var k :| from < k < to && k < |log| && log[k] == Forgotten(n);
    assert (log + [e])[k] == Forgotten(n);
  }

  /** One delivery of a notice that is not live. */
  lemma LogDelivers(log: seq<Entry>, delivered: seq<Notice>, n: Notice)
    requires LogFits(log, delivered) && n !in delivered
    ensures LogFits(log + [Delivered(n)], delivered + [n])
  {
    var longer := log + [Delivered(n)];
    forall i: nat | i < |log| && log[i].Delivered? && IsForgotten(log, i, |log|, log[i].notice)
      ensures IsForgotten(longer, i, |longer|, log[i].notice) && IsForgotten(longer, i, |log|, log[i].notice)
    {
      ForgottenStays(log, Delivered(n), i, |log|, log[i].notice);
    }
    forall i: nat, j: nat | i < j < |longer| && longer[i].Delivered? && longer[i] == longer[j]
      ensures IsForgotten(longer, i, j, longer[i].notice)
    {
      if j < |log| {
        ForgottenStays(log, Delivered(n), i, j, log[i].notice);
      }
    }
  }

  lemma {:induction false} LogDeliversAll(log: seq<Entry>, delivered: seq<Notice>, notices: seq<Notice>)
    requires LogFits(log, delivered) && DeliveredOnce(delivered + notices)
    ensures LogFits(log + Deliveries(notices), delivered + notices)
  {
    if notices == [] {
      assert log + [] == log && delivered + [] == delivered;
    } else {
      var init, last := notices[..|notices| - 1], notices[|notices| - 1];
      var all := delivered + notices;
      assert notices == init + [last];
      ConcatAssociative(delivered, init, [last]);
      ConcatAssociative(log, Deliveries(init), [Delivered(last)]);
      assert forall i :: 0 <= i < |delivered + init| ==> (delivered + init)[i] == all[i];
      assert last !in delivered + init by {
        assert all[|all| - 1] == last;
      }
      LogDeliversAll(log, delivered, init);
      LogDelivers(log + Deliveries(init), delivered + init, last);
    }
  }

  /** The notices whose flag is still set in `t`, and the others. */
  function StillFlagged(t: Table, delivered: seq<Notice>): seq<Notice> {
    if delivered == [] then []
    else
      var rest, n := StillFlagged(t, delivered[..|delivered| - 1]), delivered[|delivered| - 1];
      if n.code in t && Flagged(t[n.code], n.kind) then rest + [n] else rest
  }

  function Resets(t: Table, delivered: seq<Notice>): seq<Entry> {
    if delivered == [] then []
    else
      var rest, n := Resets(t, delivered[..|delivered| - 1]), delivered[|delivered| - 1];
      if n.code in t && Flagged(t[n.code], n.kind) then rest else rest + [Forgotten(n)]
  }

  lemma {:induction false} StillFlaggedIsFlagged(t: Table, delivered: seq<Notice>)
    ensures forall n :: n in StillFlagged(t, delivered) <==> n in delivered && n.code in t && Flagged(t[n.code], n.kind)
    ensures DeliveredOnce(delivered) ==> DeliveredOnce(StillFlagged(t, delivered))
  {
    if delivered != [] {
      var init, last := delivered[..|delivered| - 1], delivered[|delivered| - 1];
      StillFlaggedIsFlagged(t, init);
      assert delivered == init + [last];
    }
  }

  lemma {:induction false} ResetsForgetTheRest(t: Table, delivered: seq<Notice>)
    ensures forall i :: 0 <= i < |Resets(t, delivered)| ==> Resets(t, delivered)[i].Forgotten?
    ensures forall n :: n in delivered && n !in StillFlagged(t, delivered) ==> Forgotten(n) in Resets(t, delivered)
  {
    if delivered != [] {
      var init, last := delivered[..|delivered| - 1], delivered[|delivered| - 1];
      ResetsForgetTheRest(t, init);
      StillFlaggedIsFlagged(t, delivered);
      StillFlaggedIsFlagged(t, init);
      assert delivered == init + [last];
    }
  }

  lemma LogForgets(log: seq<Entry>, delivered: seq<Notice>, kept: seq<Notice>, resets: seq<Entry>)
    requires LogFits(log, delivered)
    requires forall i :: 0 <= i < |resets| ==> resets[i].Forgotten?
    requires forall n :: n in delivered && n !in kept ==> Forgotten(n) in resets
    ensures LogFits(log + resets, kept)
  {
    var longer := log + resets;
    forall i: nat | i < |longer| && longer[i].Delivered?
      ensures longer[i].notice in kept || IsForgotten(longer, i, |longer|, longer[i].notice)
    {
      var n := longer[i].notice;
      if n in delivered && n !in kept {
        var k :| 0 <= k < |resets| && resets[k] == Forgotten(n);
        assert longer[|log| + k] == Forgotten(n);
      } else if n !in delivered {
        var k :| i < k < |log| && log[k] == Forgotten(n);
        assert longer[k] == Forgotten(n);
      }
    }
    forall i: nat, j: nat | i < j < |longer| && longer[i].Delivered? && longer[i] == longer[j]
      ensures IsForgotten(longer, i, j, longer[i].notice)
    {
      assert IsForgotten(log, i, j, log[i].notice);
      var k :| i < k < j && k < |log| && log[k] == Forgotten(log[i].notice);
      assert longer[k] == log[k];
    }
  }

  // ---- a whole run, told from the rows alone --------------------------------------------------

  /** The service expires within the next day and has not been told so. */
  predicate ExpiresSoon(s: Service, w: Window) {
    && s.panel != None && s.panel.value in w.panels && s.expiration != None && s.expiration.value != 0
    && w.now + 1 <= s.expiration.value && s.expiration.value <= w.now + 86400
    && s.notified != Some(true)
  }

  /** The paid service has expired and was not warned. */
  predicate HasExpired(s: Service, w: Window) {
    && s.panel != None && s.panel.value in w.panels && s.expiration != None && s.expiration.value != 0
    && s.expiration.value - w.now <= 0
    && (s.warning == None || s.warning == Some(0)) && !s.isTest
  }

  predicate GetsThrough(o: Outcome) {
    o == Sent || o == SentThenRaised
  }

  /** What a run makes of one row: a flag for the one notice it was owed and got, and nothing else. */
  function RowAfter(s: Service, code: int, w: Window, deliver: (int, Kind) -> Outcome): Service {
    if ExpiresSoon(s, w) && GetsThrough(deliver(code, Expiry)) then s.(notified := Some(true))
    else if HasExpired(s, w) && GetsThrough(deliver(code, Grace)) then s.(warning := Some(1), warningTime := Some(w.now))
    else s
  }

  lemma {:induction false} NoticesMembers(
      t: Table, codes: seq<int>, w: Window, deliver: (int, Kind) -> Outcome, n: Notice)
    ensures n in NoticesOf(t, codes, w, deliver) <==>
      n.code in t && Lists(codes, n.code) && n in NoticeOf(t[n.code], n.code, w, deliver)
  {
    if codes != [] {
      var init, last := codes[..|codes| - 1], codes[|codes| - 1];
      NoticesMembers(t, init, w, deliver, n);
      assert codes == init + [last];
      ListsConcat(init, [last], n.code);
      assert [last][0] == last;
    }
  }

  /** The services of an owed listing, and no others, want something, but for expired test services. */
  lemma OwedMeans(t: Table, w: Window, code: int)
    ensures code in OwedCodes(t, w, Start) <==>
      && code in t
      && var s := t[code];
         && s.panel != None && s.panel.value in w.panels && s.expiration != None
         && ((w.now + 1 <= s.expiration.value && s.expiration.value <= w.now + 86400 && s.notified != Some(true))
             || (s.expiration.value - w.now <= 0 && (s.warning == None || s.warning == Some(0))))
  {
  }

  /** One visit of a row the query returned, and a row it did not return. */
  lemma RowMeans(s: Service, code: int, w: Window, deliver: (int, Kind) -> Outcome)
    ensures Owed(s, w) ==>
      && Visited(s, code, w, deliver) == RowAfter(s, code, w, deliver)
      && (Notice(code, Expiry) in NoticeOf(s, code, w, deliver) <==>
            ExpiresSoon(s, w) && GetsThrough(deliver(code, Expiry)))
      && (Notice(code, Grace) in NoticeOf(s, code, w, deliver) <==>
            HasExpired(s, w) && GetsThrough(deliver(code, Grace)))
    ensures !Owed(s, w) ==> RowAfter(s, code, w, deliver) == s && !ExpiresSoon(s, w) && !HasExpired(s, w)
  {
  }

  lemma CodeMeans(t: Table, w: Window, deliver: (int, Kind) -> Outcome, visited: seq<int>, code: int)
    requires IsListing(t, OwedCodes(t, w, Start), visited)
    ensures code in t ==> Swept(t, visited, w, deliver)[code] == RowAfter(t[code], code, w, deliver)
    ensures Notice(code, Expiry) in NoticesOf(t, visited, w, deliver) <==>
      code in t && ExpiresSoon(t[code], w) && GetsThrough(deliver(code, Expiry))
    ensures Notice(code, Grace) in NoticesOf(t, visited, w, deliver) <==>
      code in t && HasExpired(t[code], w) && GetsThrough(deliver(code, Grace))
  {
    NoticesMembers(t, visited, w, deliver, Notice(code, Expiry));
    NoticesMembers(t, visited, w, deliver, Notice(code, Grace));
    VisitedIffOwed(t, w, visited, code);
    if code in t {
      RowMeans(t[code], code, w, deliver);
    }
  }

  /** A run that nothing stops: every row is as RowAfter says, and the notices delivered are those of the rows. */
  lemma SweepMeans(t: Table, w: Window, deliver: (int, Kind) -> Outcome)
    ensures var visited := Listing(t, OwedCodes(t, w, Start));
      && Swept(t, visited, w, deliver).Keys == t.Keys
      && (forall code :: code in t ==> Swept(t, visited, w, deliver)[code] == RowAfter(t[code], code, w, deliver))
      && (forall code :: Notice(code, Expiry) in NoticesOf(t, visited, w, deliver) <==>
            code in t && ExpiresSoon(t[code], w) && GetsThrough(deliver(code, Expiry)))
      && (forall code :: Notice(code, Grace) in NoticesOf(t, visited, w, deliver) <==>
            code in t && HasExpired(t[code], w) && GetsThrough(deliver(code, Grace)))
  {
    var visited := Listing(t, OwedCodes(t, w, Start));
    forall code {
      CodeMeans(t, w, deliver, visited, code);
    }
  }

  lemma VisitedIffOwed(t: Table, w: Window, visited: seq<int>, code: int)
    requires IsListing(t, OwedCodes(t, w, Start), visited)
    ensures Lists(visited, code) <==> code in OwedCodes(t, w, Start)
  {
  }

  lemma ListingOrder(t: Table, codes: set<int>, i: nat, j: nat)
    requires i < j < |Listing(t, codes)| && codes <= t.Keys
    requires forall code :: code in codes ==> t[code].expiration.Some?
    ensures var a, b := Listing(t, codes)[i], Listing(t, codes)[j];
      && a in t && b in t && a in codes && b in codes
      && (t[a].expiration.value < t[b].expiration.value || (t[a].expiration == t[b].expiration && a < b))
  {
    var order := Listing(t, codes);
    assert order[i] in codes && order[j] in codes;
    assert Precedes(t, order[i], order[j]);
  }

  /** A visit raises when sending the notice its row wants raises, delivered or not. */
  lemma HaltsMeans(s: Service, code: int, w: Window, deliver: (int, Kind) -> Outcome)
    requires s.panel != None && s.panel.value in w.panels
    ensures Halts(s, code, w, deliver) <==>
      || (ExpiresSoon(s, w) && (deliver(code, Expiry) == Raised || deliver(code, Expiry) == SentThenRaised))
      || (HasExpired(s, w) && (deliver(code, Grace) == Raised || deliver(code, Grace) == SentThenRaised))
  {
  }

  // ---- the service table ----------------------------------------------------------------------

  class ServiceTable {
    var services: Table
    /** The notices delivered whose flag was not reset since. */
    var delivered: seq<Notice>
    /** Every delivery and every reset, by anyone, in order. */
    ghost var log: seq<Entry>

    /** No notice was delivered twice without a reset, and each recent one is remembered by its flag. */
    ghost predicate Remembers()
      reads this
    {
      DeliveredOnce(delivered) && Remembered(services, delivered, [], [])
    }

    ghost predicate Valid()
      reads this
    {
      Remembers() && LogFits(log, delivered)
    }

    constructor (services: Table)
      ensures Valid() && this.services == services && delivered == [] && log == []
    {
      this.services, delivered, log := services, [], [];
    }

    /** Anything others may do to the table between runs: renewals and upgrades reset flags, rows come and
        go. Every reset of a delivered notice's flag is logged. */
    method OtherWrites(services: Table)
      requires Valid()
      modifies this
      ensures Valid() && this.services == services
      ensures delivered == StillFlagged(services, old(delivered))
      ensures log == old(log) + Resets(services, old(delivered))
    {
      StillFlaggedIsFlagged(services, delivered);
      ResetsForgetTheRest(services, delivered);
      var kept := StillFlagged(services, delivered);
      LogForgets(log, delivered, kept, Resets(services, delivered));
      log := log + Resets(services, delivered);
      assert forall i :: 0 <= i < |kept| ==> kept[i] in kept;
      this.services, delivered := services, kept;
    }

    /** update_services_bulk with one flag: repeats dropped, one UPDATE per chunk, all in one commit. */
    method UpdateServicesBulk(codes: seq<int>, kind: Kind, now: int)
      modifies this`services
      ensures services == FlagAll(old(services), Members(codes), kind, now)
    {
      ghost var before := services;
      var unique: seq<int> := [];
      for i := 0 to |codes|
        invariant services == before
        invariant Members(unique) == Members(codes[..i])
      {
        TakeNext(codes, i);
        MembersConcat(codes[..i], [codes[i]]);
        MembersConcat(unique, [codes[i]]);
        if codes[i] !in unique {
          unique := unique + [codes[i]];
        }
      }
      TakeAll(codes);
      var start := 0;
      FlagNone(before, unique[..0], kind, now);
      while start < |unique|
        invariant 0 <= start <= |unique|
        invariant services == FlagAll(before, Members(unique[..start]), kind, now)
      {
        var end := if start + CHUNK < |unique| then start + CHUNK else |unique|;
        var chunk := Members(unique[start..end]);
        assert unique[..end] == unique[..start] + unique[start..end];
        MembersConcat(unique[..start], unique[start..end]);
        FlagTwice(before, Members(unique[..start]), chunk, kind, now);
        services := FlagAll(services, chunk, kind, now);
        start := end;
      }
      TakeAll(unique);
    }

    /** _flush_expiration_flags. */
    method Flush(expiring: seq<int>, warned: seq<int>, now: int)
      requires Remembered(services, delivered, expiring, warned)
      modifies this`services
      ensures Remembered(services, delivered, [], [])
      ensures services == Flushed(old(services), expiring, warned, now)
    {
      FlagNone(services, [], Expiry, now);
      if |expiring| > 0 {
        UpdateServicesBulk(expiring, Expiry, now);
      }
      FlagNone(services, [], Grace, now);
      if |warned| > 0 {
        UpdateServicesBulk(warned, Grace, now);
      }
    }

    /** One service of a batch: at most one notice, recorded when it was delivered. */
    method Visit(code: int, s: Service, w: Window, deliver: (int, Kind) -> Outcome, expiringIn: seq<int>, warnedIn: seq<int>)
      returns (expiring: seq<int>, warned: seq<int>, raised: bool)
      requires DeliveredOnce(delivered) && Remembered(services, delivered, expiringIn, warnedIn)
      requires code in services && services[code] == s && code !in expiringIn && code !in warnedIn
      modifies this`delivered
      ensures DeliveredOnce(delivered) && Remembered(services, delivered, expiring, warned)
      ensures delivered == old(delivered) + NoticeOf(s, code, w, deliver)
      ensures expiring == expiringIn + if Notice(code, Expiry) in NoticeOf(s, code, w, deliver) then [code] else []
      ensures warned == warnedIn + if Notice(code, Grace) in NoticeOf(s, code, w, deliver) then [code] else []
      ensures raised <==> Halts(s, code, w, deliver)
    {
      expiring, warned, raised := expiringIn, warnedIn, false;
      if Wants(s, Expiry, w) {
        var o := deliver(code, Expiry);
        if WasSent(o) {
          assert Notice(code, Expiry) !in delivered;
          delivered := delivered + [Notice(code, Expiry)];
          expiring := expiring + [code];
        }
        raised := o.Raised? || o.SentThenRaised?;
      } else if Wants(s, Grace, w) {
        var o := deliver(code, Grace);
        if WasSent(o) {
          assert Notice(code, Grace) !in delivered;
          delivered := delivered + [Notice(code, Grace)];
          warned := warned + [code];
        }
        raised := o.Raised? || o.SentThenRaised?;
      }
    }

    method FlushBatch(
        ghost snapshot: Table, ghost d0: seq<Notice>, ghost done: seq<int>, expiring: seq<int>, warned: seq<int>,
        w: Window, ghost deliver: (int, Kind) -> Outcome)
      requires BatchAt(snapshot, services, d0, delivered, done, expiring, warned, w, deliver)
      modifies this`services
      ensures BatchAt(snapshot, services, d0, delivered, done, [], [], w, deliver)
    {
      ghost var before := services;
      Flush(expiring, warned, w.now);
      BatchFlushed(snapshot, before, services, d0, delivered, done, expiring, warned, w, deliver);
    }

    /** One pass of the batch's loop: flush when the lists are full, then visit the next service. At most 25
        delivered notices ever wait for their flag. */
    method VisitNext(
        ghost snapshot: Table, ghost d0: seq<Notice>, ghost done: seq<int>, code: int, s: Service,
        w: Window, deliver: (int, Kind) -> Outcome, expiringIn: seq<int>, warnedIn: seq<int>)
      returns (expiring: seq<int>, warned: seq<int>, raised: bool)
      requires BatchAt(snapshot, services, d0, delivered, done, expiringIn, warnedIn, w, deliver)
      requires code in snapshot && snapshot[code] == s && !Lists(done, code)
      requires |expiringIn| + |warnedIn| <= 25
      modifies this`services, this`delivered
      ensures |expiring| + |warned| <= 25
      ensures BatchAt(snapshot, services, d0, delivered, done + [code], expiring, warned, w, deliver)
      ensures raised <==> HaltsAt(snapshot, code, w, deliver)
    {
      expiring, warned := expiringIn, warnedIn;
      if |expiring| + |warned| >= FLUSH_EVERY {
        FlushBatch(snapshot, d0, done, expiring, warned, w, deliver);
        expiring, warned := [], [];
      }
      CodeIsUntouched(snapshot, services, d0, delivered, done, expiring, warned, w, deliver, code);
      ghost var e, g, d := expiring, warned, delivered;
      expiring, warned, raised := Visit(code, s, w, deliver, expiring, warned);
      BatchNext(snapshot, services, d0, d, delivered, done, e, g, expiring, warned, w, deliver, code);
    }

    /** _process_expiration_batch, with the flush of its caller's `finally`. It visits the batch in order,
        up to and including the first service whose notice raised. */
    method ProcessBatch(batch: seq<int>, w: Window, deliver: (int, Kind) -> Outcome) returns (count: nat, raised: bool)
      requires Remembers()
      requires forall i, j :: 0 <= i < j < |batch| ==> batch[i] != batch[j]
      requires forall i :: 0 <= i < |batch| ==> batch[i] in services
      modifies this`services, this`delivered
      ensures Remembers()
      ensures count <= |batch| && (!raised ==> count == |batch|)
      ensures StopsWhereItRaises(old(services), batch[..count], raised, w, deliver)
      ensures services == Swept(old(services), batch[..count], w, deliver)
      ensures delivered == old(delivered) + NoticesOf(old(services), batch[..count], w, deliver)
    {
      var snapshot := services;
      var expiring: seq<int>, warned: seq<int> := [], [];
      count, raised := 0, false;
      NothingPending(services, w, deliver);
      while count < |batch| && !raised
        invariant count <= |batch|
        invariant StopsWhereItRaises(snapshot, batch[..count], raised, w, deliver)
        invariant |expiring| + |warned| <= 25
        invariant BatchAt(snapshot, services, old(delivered), delivered, batch[..count], expiring, warned, w, deliver)
      {
        var code := batch[count];
        NotYetVisited(batch, count);
        expiring, warned, raised :=
          VisitNext(snapshot, old(delivered), batch[..count], code, snapshot[code], w, deliver, expiring, warned);
        StopsOneMore(snapshot, batch[..count], code, raised, w, deliver);
        TakeNext(batch, count);
        count := count + 1;
      }
      FlushBatch(snapshot, old(delivered), batch[..count], expiring, warned, w, deliver);
      FlushedNothing(services, w.now);
    }

    /** handle_service_expiration's paging loop. `visited` are the services it visits, in order. A run in
        which nothing raises visits exactly the services owed a notice when it began, each once, in row
        order, although the flags it sets drop visited rows from its own query; a run that raises visits
        them up to the first that raises. The table, the notices and the log are those visits' and nothing
        else's, and over any number of runs, whatever others write between them, a notice is delivered
        again only after its flag was reset. */
    method HandleServiceExpiration(w: Window, deliver: (int, Kind) -> Outcome) returns (visited: seq<int>, raised: bool)
      requires Valid()
      modifies this
      ensures Valid()
      ensures StopsWhereItRaises(old(services), visited, raised, w, deliver)
      ensures visited <= Listing(old(services), OwedCodes(old(services), w, Start))
      ensures !raised ==> visited == Listing(old(services), OwedCodes(old(services), w, Start))
      ensures services == Swept(old(services), visited, w, deliver)
      ensures delivered == old(delivered) + NoticesOf(old(services), visited, w, deliver)
      ensures log == old(log) + Deliveries(NoticesOf(old(services), visited, w, deliver))
    {
      ghost var t := services;
      ghost var all := Listing(t, OwedCodes(t, w, Start));
      var cursor := Start;
      visited, raised := [], false;
      NothingPending(t, w, deliver);
      FlushedNothing(t, w.now);
      var more := true;
      while more
        invariant Remembers() && log == old(log)
        invariant StopsWhereItRaises(t, visited, raised, w, deliver)
        invariant more ==> !raised && SweepAt(t, services, w, deliver, all, visited, cursor)
        invariant SweptSoFar(t, services, old(delivered), delivered, w, deliver, all, visited)
        invariant !more && !raised ==> visited == all
        decreases more, |all| - |visited|
      {
        visited, cursor, more, raised := SweepPage(t, all, old(delivered), w, deliver, visited, cursor);
      }
      LogDeliversAll(log, old(delivered), NoticesOf(t, visited, w, deliver));
      log := log + Deliveries(NoticesOf(t, visited, w, deliver));
    }

    /** One pass of the loop: a page, its visits, and the next cursor. */
    method SweepPage(
        ghost t: Table, ghost all: seq<int>, ghost d0: seq<Notice>, w: Window, deliver: (int, Kind) -> Outcome,
        visitedIn: seq<int>, cursorIn: Cursor)
      returns (visited: seq<int>, cursor: Cursor, more: bool, raised: bool)
      requires Remembers() && StopsWhereItRaises(t, visitedIn, false, w, deliver)
      requires SweepAt(t, services, w, deliver, all, visitedIn, cursorIn)
      requires SweptSoFar(t, services, d0, delivered, w, deliver, all, visitedIn)
      modifies this`services, this`delivered
      ensures Remembers() && StopsWhereItRaises(t, visited, raised, w, deliver)
      ensures SweptSoFar(t, services, d0, delivered, w, deliver, all, visited)
      ensures more ==> !raised && SweepAt(t, services, w, deliver, all, visited, cursor) && |visited| > |visitedIn|
      ensures !more && !raised ==> visited == all
      ensures |visited| >= |visitedIn| && (more ==> |visited| == |visitedIn| + 500)
    {
      visited, cursor, more, raised := visitedIn, cursorIn, false, false;
      var batch := Batch(services, w, cursor, BATCH_SIZE);
      PageIsNext(t, services, w, deliver, all, visited, cursor);
      if batch == [] {
        return;
      }
      ghost var before, d := services, delivered;
      var count;
      count, raised := ProcessBatch(batch, w, deliver);
      PartOfPage(all, visited, batch, count);
      StretchIsFresh(t, OwedCodes(t, w, Start), all, visited, batch[..count]);
      UnvisitedHaltsAlike(t, visited, batch[..count], w, deliver);
      StopsExtends(t, before, visited, batch[..count], raised, w, deliver);
      AfterPage(t, before, services, d0, d, delivered, w, deliver, all, visited, cursor, batch, count);
      visited := visited + batch[..count];
      if !raised {
        var last := batch[|batch| - 1];
        cursor := After(Expiration(services, last), last);
        more := |batch| >= BATCH_SIZE;
      }
    }
  }
}

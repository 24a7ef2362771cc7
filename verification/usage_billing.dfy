// Usage billing (record_usage_charge in app/db/crud/reseller_billing_snapshots.py): one transaction
// that debits the wallet, moves the account's baseline and adds a ledger row, guarded by a
// compare-and-swap on the baseline. Measurements and charges of any number of runs interleave.
module UsageBilling {
  import opened Common
  import opened BillingLedger

  /** usage_delta: a counter below the baseline means the panel reset it, and all of it is new. */
  function UsageDelta(used: int, baseline: Option<int>): (delta: int)
    ensures baseline == None && used >= 0 ==> delta == used
    ensures baseline.Some? && used >= baseline.value ==> baseline.value + delta == used
    ensures baseline.Some? && 0 <= used < baseline.value ==> delta == used
    ensures used < 0 && (baseline == None || used < baseline.value) ==> delta == 0
  {
    var last := if baseline.Some? then baseline.value else 0;
    if used < last then (if used > 0 then used else 0) else used - last
  }

  datatype Status = Charged | Debt | Insufficient | Stale

  /** A reseller account and its owner's wallet (None when the owner's row is gone). */
  datatype Account = Account(billedTraffic: Option<int>, totalBilled: int, usageBilledAt: Option<int>)

  /** A call of record_usage_charge with everything the caller measured beforehand. */
  datatype Call = Call(baseline: Option<int>, used: int, charge: int, at: int, price: Option<real>, allowDebt: bool)

  datatype Books = Books(account: Option<Account>, wallet: Option<int>, rows: seq<Row>)

  function Verdict(b: Books, c: Call): Status {
    if b.account.None? || b.account.value.billedTraffic != c.baseline || b.wallet.None? then Stale
    else if b.wallet.value >= c.charge then Charged
    else if c.allowDebt then Debt
    else Insufficient
  }

  predicate Succeeds(s: Status) {
    s.Charged? || s.Debt?
  }

  function Record(b: Books, code: int, c: Call): Books {
    if !Succeeds(Verdict(b, c)) then b
    else
      var a := b.account.value;
      Books(Some(a.(billedTraffic := Some(c.used), totalBilled := a.totalBilled + c.charge, usageBilledAt := Some(c.at))),
            Some(b.wallet.value - c.charge),
            Add(b.rows, BillingLedger.Usage(code, c.charge, c.at, c.price)))
  }

  class UsageAccount {
    const code: int
    var account: Option<Account>
    var wallet: Option<int>
    var rows: seq<Row>

    function State(): Books
      reads this
    {
      Books(account, wallet, rows)
    }

    constructor (code: int, account: Option<Account>, wallet: Option<int>, rows: seq<Row>)
      ensures this.code == code && State() == Books(account, wallet, rows)
    {
      this.code, this.account, this.wallet, this.rows := code, account, wallet, rows;
    }

    /** record_usage_charge. */
    method RecordUsageCharge(c: Call) returns (status: Status, balance: Option<int>)
      modifies this
      ensures status == Verdict(old(State()), c)
      ensures State() == Record(old(State()), code, c)
      ensures balance == if status.Stale? then None else wallet
    {
      if account.None? || account.value.billedTraffic != c.baseline {
        return Stale, None;
      }
      if wallet.None? {
        return Stale, None;
      }
      var current := wallet.value;
      var isDebt := current < c.charge;
      if isDebt && !c.allowDebt {
        return Insufficient, Some(current);
      }
      wallet := Some(current - c.charge);
      var a := account.value;
      account := Some(a.(totalBilled := a.totalBilled + c.charge, usageBilledAt := Some(c.at), billedTraffic := Some(c.used)));
      rows := rows + [Row(code, c.charge, None, c.at, c.price)];
      status := if isDebt then Debt else Charged;
      balance := wallet;
    }
  }

  // ---- histories ----------------------------------------------------------------------------

  /** What changes the books: a charge by any run, a top-up, or a hand correction of the baseline. */
  datatype Event = Measured(call: Call) | TopUp(amount: int) | MoveBaseline(to: Option<int>)

  /** The history keeps every successful charge, and each time the baseline was moved by hand. */
  datatype Move = ByCharge(call: Call) | ByHand(to: Option<int>)

  datatype History = History(books: Books, moves: seq<Move>, topUps: int)

  function Next(h: History, code: int, e: Event): History {
    match e
    case Measured(c) =>
      History(Record(h.books, code, c),
              if Succeeds(Verdict(h.books, c)) then h.moves + [ByCharge(c)] else h.moves, h.topUps)
    case TopUp(amount) =>
      if h.books.wallet.None? then h
      else h.(books := h.books.(wallet := Some(h.books.wallet.value + amount)), topUps := h.topUps + amount)
    case MoveBaseline(to) =>
      if h.books.account.None? then h
      else h.(books := h.books.(account := Some(h.books.account.value.(billedTraffic := to))),
              moves := h.moves + [ByHand(to)])
  }

  function Run(h: History, code: int, events: seq<Event>): History {
    if events == [] then h else Next(Run(h, code, events[..|events| - 1]), code, events[|events| - 1])
  }

  /** The baseline a move leaves behind. */
  function After(m: Move): Option<int> {
    match m
    case ByCharge(c) => Some(c.used)
    case ByHand(to) => to
  }

  /** The baseline in force before move `i`. */
  function Before(start: Option<int>, moves: seq<Move>, i: nat): Option<int>
    requires i <= |moves|
  {
    if i == 0 then start else After(moves[i - 1])
  }

  predicate LinkedAt(start: Option<int>, moves: seq<Move>, i: nat)
    requires i < |moves|
  {
    moves[i].ByCharge? ==> moves[i].call.baseline == Before(start, moves, i)
  }

  /** Every charge was measured from the baseline the move before it left. */
  ghost predicate IsChain(start: Option<int>, moves: seq<Move>) {
    forall i: nat :: i < |moves| ==> LinkedAt(start, moves, i)
  }

  function ChargeOf(): Move -> int {
    (m: Move) => if m.ByCharge? then m.call.charge else 0
  }

  function AmountOf(): Row -> int {
    (row: Row) => row.amount
  }

  ghost predicate Consistent(b0: Books, code: int, h: History)
    requires b0.account.Some? && b0.wallet.Some?
  {
    && h.books.account.Some? && h.books.wallet.Some?
    && IsChain(b0.account.value.billedTraffic, h.moves)
    && h.books.account.value.billedTraffic == Before(b0.account.value.billedTraffic, h.moves, |h.moves|)
    && h.books.wallet.value == b0.wallet.value + h.topUps - SumBy(h.moves, ChargeOf())
    && h.books.account.value.totalBilled == b0.account.value.totalBilled + SumBy(h.moves, ChargeOf())
    && SumBy(h.books.rows, AmountOf()) == SumBy(b0.rows, AmountOf()) + SumBy(h.moves, ChargeOf())
    && b0.rows <= h.books.rows && NewRowsBelong(b0.rows, h.books.rows, code)
  }

  predicate NewRowsBelong(before: seq<Row>, rows: seq<Row>, code: int) {
    forall i :: |before| <= i < |rows| ==> rows[i].account == code && rows[i].minutes == None
  }

  lemma ChainGrows(start: Option<int>, moves: seq<Move>, m: Move)
    requires IsChain(start, moves)
    requires m.ByCharge? ==> m.call.baseline == Before(start, moves, |moves|)
    ensures IsChain(start, moves + [m])
  {
    forall i: nat | i < |moves| + 1 ensures LinkedAt(start, moves + [m], i) {
      if i < |moves| {
        assert LinkedAt(start, moves, i);
      }
    }
  }

  lemma ChargeIsConsistent(b0: Books, code: int, h: History, c: Call)
    requires b0.account.Some? && b0.wallet.Some? && Consistent(b0, code, h) && Succeeds(Verdict(h.books, c))
    ensures Consistent(b0, code, Next(h, code, Measured(c)))
  {
    var g := Next(h, code, Measured(c));
    var row := Row(code, c.charge, None, c.at, c.price);
    assert g.moves == h.moves + [ByCharge(c)] && g.books.rows == h.books.rows + [row];
    assert IsChain(b0.account.value.billedTraffic, g.moves) by {
      ChainGrows(b0.account.value.billedTraffic, h.moves, ByCharge(c));
    }
    assert SumBy(g.moves, ChargeOf()) == SumBy(h.moves, ChargeOf()) + c.charge by {
      SumAppend(h.moves, ByCharge(c), ChargeOf());
    }
    assert SumBy(g.books.rows, AmountOf()) == SumBy(h.books.rows, AmountOf()) + c.charge by {
      SumAppend(h.books.rows, row, AmountOf());
    }
    assert b0.rows <= g.books.rows && NewRowsBelong(b0.rows, g.books.rows, code);
  }

  lemma CorrectionIsConsistent(b0: Books, code: int, h: History, to: Option<int>)
    requires b0.account.Some? && b0.wallet.Some? && Consistent(b0, code, h)
    ensures Consistent(b0, code, Next(h, code, MoveBaseline(to)))
  {
    ChainGrows(b0.account.value.billedTraffic, h.moves, ByHand(to));
    SumAppend(h.moves, ByHand(to), ChargeOf());
  }

  lemma ConsistentStep(b0: Books, code: int, h: History, e: Event)
    requires b0.account.Some? && b0.wallet.Some? && Consistent(b0, code, h)
    ensures Consistent(b0, code, Next(h, code, e))
  {
    match e
    case Measured(c) =>
      if Succeeds(Verdict(h.books, c)) {
        ChargeIsConsistent(b0, code, h, c);
      } else {
        assert Next(h, code, e) == h;
      }
    case TopUp(_) =>
    case MoveBaseline(to) =>
      CorrectionIsConsistent(b0, code, h, to);
  }

  lemma {:induction false} ConsistentThroughout(b0: Books, code: int, events: seq<Event>)
    requires b0.account.Some? && b0.wallet.Some?
    ensures Consistent(b0, code, Run(History(b0, [], 0), code, events))
  {
    if events != [] {
      ConsistentThroughout(b0, code, events[..|events| - 1]);
      ConsistentStep(b0, code, Run(History(b0, [], 0), code, events[..|events| - 1]), events[|events| - 1]);
    }
  }

  /** Main result: however measurements and charges interleave, the successful charges form a chain,
      each measured from where the previous move left the baseline; what left the wallet, what the
      ledger gained and what total_billed gained are the same sum. */
  lemma ChargesFormAChain(b0: Books, code: int, events: seq<Event>)
    requires b0.account.Some? && b0.wallet.Some?
    ensures var h := Run(History(b0, [], 0), code, events);
            && (forall i :: 0 <= i < |h.moves| && h.moves[i].ByCharge? ==>
                  && (i == 0 ==> h.moves[i].call.baseline == b0.account.value.billedTraffic)
                  && (i > 0 && h.moves[i - 1].ByCharge? ==> h.moves[i].call.baseline == Some(h.moves[i - 1].call.used))
                  && (i > 0 && h.moves[i - 1].ByHand? ==> h.moves[i].call.baseline == h.moves[i - 1].to))
            && b0.rows <= h.books.rows
            && (forall i :: |b0.rows| <= i < |h.books.rows| ==>
                  h.books.rows[i].account == code && h.books.rows[i].minutes == None)
            && h.books.account.Some? && h.books.wallet.Some?
            && h.books.wallet.value + SumBy(h.books.rows, AmountOf())
            == b0.wallet.value + SumBy(b0.rows, AmountOf()) + h.topUps
            && h.books.account.value.totalBilled - b0.account.value.totalBilled
            == SumBy(h.books.rows, AmountOf()) - SumBy(b0.rows, AmountOf())
  {
    ConsistentThroughout(b0, code, events);
    var h := Run(History(b0, [], 0), code, events);
    forall i | 0 <= i < |h.moves| && h.moves[i].ByCharge?
      ensures i == 0 ==> h.moves[i].call.baseline == b0.account.value.billedTraffic
      ensures i > 0 && h.moves[i - 1].ByCharge? ==> h.moves[i].call.baseline == Some(h.moves[i - 1].call.used)
      ensures i > 0 && h.moves[i - 1].ByHand? ==> h.moves[i].call.baseline == h.moves[i - 1].to
    {
      assert LinkedAt(b0.account.value.billedTraffic, h.moves, i);
    }
  }

  /** Two charges from one baseline cannot both succeed unless, in between, something put the counter
      back to it: the last move before the second charge left exactly that baseline. */
  lemma SameBaselineNeedsAReturn(b0: Books, code: int, events: seq<Event>, i: nat, j: nat)
    requires b0.account.Some? && b0.wallet.Some?
    requires var moves := Run(History(b0, [], 0), code, events).moves;
             && i < j < |moves| && moves[i].ByCharge? && moves[j].ByCharge?
             && moves[i].call.baseline == moves[j].call.baseline
    ensures var moves := Run(History(b0, [], 0), code, events).moves;
            exists k :: i <= k < j && After(moves[k]) == moves[i].call.baseline
  {
    ConsistentThroughout(b0, code, events);
    var moves := Run(History(b0, [], 0), code, events).moves;
    assert LinkedAt(b0.account.value.billedTraffic, moves, j);
    assert After(moves[j - 1]) == moves[j].call.baseline;
  }

  /** Charges measured by a counter that has grown since its baseline. */
  ghost predicate AllGrowing(moves: seq<Move>) {
    forall k :: 0 <= k < |moves| ==>
      moves[k].ByCharge? && (moves[k].call.baseline.Some? ==> moves[k].call.used > moves[k].call.baseline.value)
  }

  lemma {:induction false} GrowingCounter(start: Option<int>, moves: seq<Move>, i: nat, j: nat)
    requires IsChain(start, moves) && AllGrowing(moves) && i < j < |moves|
    ensures moves[j].call.baseline.Some? && moves[j].call.baseline.value >= moves[i].call.used
  {
    assert LinkedAt(start, moves, j);
    if i < j - 1 {
      GrowingCounter(start, moves, i, j - 1);
    }
  }

  /** In particular, while the measured counter only grows and nobody moves the baseline by hand, no
      baseline is charged twice: later charges start where or after earlier ones ended. */
  lemma GrowingCounterIsBilledOnce(start: Option<int>, moves: seq<Move>, i: nat, j: nat)
    requires IsChain(start, moves) && AllGrowing(moves) && i < j < |moves|
    ensures moves[j].call.baseline.Some? && moves[j].call.baseline.value >= moves[i].call.used
    ensures moves[i].call.baseline != moves[j].call.baseline
  {
    GrowingCounter(start, moves, i, j);
  }

  function OrZero(baseline: Option<int>): int {
    if baseline.Some? then baseline.value else 0
  }

  /** The bytes a charge bills, as the caller measures them. */
  function BilledBytes(): Move -> int {
    (m: Move) => if m.ByCharge? then UsageDelta(m.call.used, m.call.baseline) else 0
  }

  /** What the counter had reached when the panel reset it: traffic already billed, counted again from 0. */
  function Forgotten(): Move -> int {
    (m: Move) => if m.ByCharge? && m.call.used < OrZero(m.call.baseline) then OrZero(m.call.baseline) else 0
  }

  /** Over any chain of charges the billed bytes are exactly what the counter moved, resets included:
      nothing is billed twice and nothing between two charges is skipped. */
  lemma {:induction false} BilledBytesFollowTheCounter(start: Option<int>, moves: seq<Move>)
    requires IsChain(start, moves)
    requires forall k :: 0 <= k < |moves| ==> moves[k].ByCharge? && moves[k].call.used >= 0
    ensures SumBy(moves, BilledBytes())
         == OrZero(Before(start, moves, |moves|)) - OrZero(start) + SumBy(moves, Forgotten())
  {
    if moves != [] {
      var n := |moves| - 1;
      assert IsChain(start, moves[..n]) by {
        assert forall i: nat :: i < n ==> LinkedAt(start, moves, i) && Before(start, moves, i) == Before(start, moves[..n], i);
      }
      BilledBytesFollowTheCounter(start, moves[..n]);
      assert LinkedAt(start, moves, n);
      assert Before(start, moves, n) == Before(start, moves[..n], n);
    }
  }

  /** With debt disallowed no charge makes the wallet negative. */
  lemma NoDebtNoNegative(b: Books, code: int, c: Call)
    requires !c.allowDebt && b.wallet.Some?
    ensures var w := Record(b, code, c).wallet;
            w.Some? && (w != b.wallet ==> w.value >= 0 && w.value == b.wallet.value - c.charge)
  {
  }

  lemma {:induction false} NoDebtThroughout(b0: Books, code: int, events: seq<Event>)
    requires b0.account.Some? && b0.wallet.Some? && b0.wallet.value >= 0
    requires forall i :: 0 <= i < |events| ==>
      (events[i].Measured? ==> !events[i].call.allowDebt) && (events[i].TopUp? ==> events[i].amount >= 0)
    ensures var w := Run(History(b0, [], 0), code, events).books.wallet; w.Some? && w.value >= 0
  {
    if events != [] {
      var before, e := events[..|events| - 1], events[|events| - 1];
      NoDebtThroughout(b0, code, before);
      if e.Measured? {
        NoDebtNoNegative(Run(History(b0, [], 0), code, before).books, code, e.call);
      }
    }
  }
}

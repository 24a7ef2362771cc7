// The crypto invoice protocol of app/db/crud/cryptopayments.py as a state machine. Every event is
// one database transaction; any number of creators, payment jobs and expiries interleave.
module InvoiceProtocol {
  import opened Common
  import opened Amounts

  datatype Status = Pending | Paid | Expired

  /** A row of the invoice table. `owner` is the creator run that inserted it, None for an old row. */
  datatype Invoice = Invoice(
    status: Status, user: int, network: string, amount: Amount, createtime: int,
    paytime: int, txHash: Option<string>, owner: Option<nat>)

  /** Where a run of add_order_with_unique_amount stands between two of its transactions. */
  datatype Stage = Picking | Negotiating | Repicking | Discarding | Succeeded | Failed

  /** One run: its arguments and local variables. `left` counts the loop iterations still allowed. */
  datatype Creator = Creator(
    order: int, user: int, network: string, createtime: int,
    amount: Amount, stage: Stage, yielded: bool, left: nat)
  {
    predicate Active() {
      stage.Negotiating? || stage.Repicking? || stage.Discarding?
    }
  }

  datatype Credit = Credit(order: int, user: int, total: int, txHash: Option<string>)

  datatype System = System(
    invoices: map<int, Invoice>, wallets: map<int, int>,
    creators: map<nat, Creator>, credits: seq<Credit>)

  datatype Event =
    | Begin(run: nat, order: int, user: int, network: string, createtime: int, attempts: nat)
    | Insert(run: nat, picked: Amount)
    | PickFails(run: nat)
    | Check(run: nat)
    | Repick(run: nat, picked: Amount)
    | Discard(run: nat)
    | Approve(order: int, total: int, paytime: int, txHash: Option<string>)
    | Expire(order: int)

  predicate StageIs(s: System, run: nat, stage: Stage) {
    run in s.creators && s.creators[run].stage == stage
  }

  // ---- the single transactions ------------------------------------------------------------

  predicate Clashes(invoices: map<int, Invoice>, network: string, order: int, amount: Amount, other: int) {
    && other in invoices && other != order
    && invoices[other].status == Pending && invoices[other].network == network
    && Collide(amount, invoices[other].amount)
  }

  predicate ClashBelow(invoices: map<int, Invoice>, network: string, order: int, amount: Amount) {
    exists other | other in invoices :: other < order && Clashes(invoices, network, order, amount, other)
  }

  predicate ClashAbove(invoices: map<int, Invoice>, network: string, order: int, amount: Amount) {
    exists other | other in invoices :: other > order && Clashes(invoices, network, order, amount, other)
  }

  predicate PendingAt(invoices: map<int, Invoice>, order: int) {
    order in invoices && invoices[order].status == Pending
  }

  function SetAmount(invoices: map<int, Invoice>, order: int, amount: Amount): map<int, Invoice> {
    if PendingAt(invoices, order) then invoices[order := invoices[order].(amount := amount)] else invoices
  }

  function DropPending(invoices: map<int, Invoice>, order: int): map<int, Invoice> {
    if PendingAt(invoices, order) then invoices - {order} else invoices
  }

  function ExpirePending(invoices: map<int, Invoice>, order: int): map<int, Invoice> {
    if PendingAt(invoices, order) then invoices[order := invoices[order].(status := Expired)] else invoices
  }

  /** An absent or empty hash is not written. */
  function WrittenHash(txHash: Option<string>): Option<string> {
    if txHash.Some? && txHash.value != "" then txHash else None
  }

  /** The unique index on tx_hash would reject writing `txHash` to `order`. */
  predicate HashTaken(invoices: map<int, Invoice>, order: int, txHash: Option<string>) {
    txHash.Some? && exists other | other in invoices :: other != order && invoices[other].txHash == txHash
  }

  predicate CanApprove(s: System, order: int, txHash: Option<string>) {
    && PendingAt(s.invoices, order) && s.invoices[order].user in s.wallets
    && !HashTaken(s.invoices, order, WrittenHash(txHash))
  }

  function PaidRow(row: Invoice, paytime: int, txHash: Option<string>): Invoice {
    row.(status := Paid,
         paytime := if paytime != 0 then paytime else row.paytime,
         txHash := if txHash.Some? then txHash else row.txHash)
  }

  function ApproveStep(s: System, order: int, total: int, paytime: int, txHash: Option<string>): System {
    if !CanApprove(s, order, txHash) then s
    else
      var row, hash := s.invoices[order], WrittenHash(txHash);
      s.(invoices := s.invoices[order := PaidRow(row, paytime, hash)],
         wallets := s.wallets[row.user := s.wallets[row.user] + total],
         credits := s.credits + [Credit(order, row.user, total, hash)])
  }

  // ---- the creator's loop, one transaction at a time ----------------------------------------

  /** The loop head: another iteration if any is left, else fall through to the discard. */
  function LoopHead(c: Creator): Creator {
    c.(stage := if c.left > 0 then Negotiating else Discarding)
  }

  function InsertStep(s: System, run: nat, picked: Amount): System
    requires run in s.creators
  {
    var c := s.creators[run];
    if c.order in s.invoices then s.(creators := s.creators[run := c.(stage := Failed)])
    else
      s.(invoices := s.invoices[c.order :=
             Invoice(Pending, c.user, c.network, picked, c.createtime, 0, None, Some(run))],
         creators := s.creators[run := LoopHead(c.(amount := picked))])
  }

  /** What one pass through the loop decides from the clashes it reads. */
  function AfterCheck(c: Creator, lower: bool, higher: bool): Creator
    requires c.left > 0
  {
    if !lower && !higher then c.(stage := Succeeded)
    else if !lower && !c.yielded then LoopHead(c.(yielded := true, left := c.left - 1))
    else c.(stage := Repicking, yielded := false, left := c.left - 1)
  }

  function CheckStep(s: System, run: nat): System
    requires run in s.creators
  {
    var c := s.creators[run];
    if c.left == 0 then s
    else
      s.(creators := s.creators[run := AfterCheck(c,
             ClashBelow(s.invoices, c.network, c.order, c.amount),
             ClashAbove(s.invoices, c.network, c.order, c.amount))])
  }

  function RepickStep(s: System, run: nat, picked: Amount): System
    requires run in s.creators
  {
    var c := s.creators[run];
    s.(invoices := SetAmount(s.invoices, c.order, picked),
       creators := s.creators[run := LoopHead(c.(amount := picked))])
  }

  function DiscardStep(s: System, run: nat): System
    requires run in s.creators
  {
    var c := s.creators[run];
    s.(invoices := DropPending(s.invoices, c.order), creators := s.creators[run := c.(stage := Failed)])
  }

  /** One transaction of anyone; an event that is not enabled changes nothing. */
  function Next(s: System, e: Event): System {
    match e
    case Begin(run, order, user, network, createtime, attempts) =>
      if run in s.creators then s
      else
        s.(creators := s.creators[run :=
               Creator(order, user, network, createtime, Unreadable, Picking, false, attempts)])
    case Insert(run, picked) => if StageIs(s, run, Picking) then InsertStep(s, run, picked) else s
    case PickFails(run) =>
      if StageIs(s, run, Picking) then s.(creators := s.creators[run := s.creators[run].(stage := Failed)])
      else if StageIs(s, run, Repicking) then
        s.(creators := s.creators[run := s.creators[run].(stage := Discarding)])
      else s
    case Check(run) => if StageIs(s, run, Negotiating) then CheckStep(s, run) else s
    case Repick(run, picked) => if StageIs(s, run, Repicking) then RepickStep(s, run, picked) else s
    case Discard(run) => if StageIs(s, run, Discarding) then DiscardStep(s, run) else s
    case Approve(order, total, paytime, txHash) => ApproveStep(s, order, total, paytime, txHash)
    case Expire(order) => s.(invoices := ExpirePending(s.invoices, order))
  }

  function Run(s: System, events: seq<Event>): System {
    if events == [] then s else Next(Run(s, events[..|events| - 1]), events[|events| - 1])
  }

  lemma {:induction false} RunConcat(s: System, a: seq<Event>, b: seq<Event>)
    ensures Run(s, a + b) == Run(Run(s, a), b)
  {
    if b == [] {
      assert a + b == a;
    } else {
      RunConcat(s, a, b[..|b| - 1]);
      assert (a + b)[..|a + b| - 1] == a + b[..|b| - 1];
    }
  }

  // ---- amount safety ------------------------------------------------------------------------

  /** A pending invoice nobody is still negotiating: an old row, or one whose creator returned success. */
  predicate Settled(s: System, order: int) {
    && PendingAt(s.invoices, order)
    && var owner := s.invoices[order].owner;
       owner.None? || StageIs(s, owner.value, Succeeded)
  }

  predicate Separable(invoices: map<int, Invoice>, a: int, b: int)
    requires a in invoices && b in invoices
  {
    invoices[a].network == invoices[b].network ==> !Collide(invoices[a].amount, invoices[b].amount)
  }

  /** Both rows were there before any creator. */
  predicate BothOld(invoices: map<int, Invoice>, a: int, b: int)
    requires a in invoices && b in invoices
  {
    invoices[a].owner.None? && invoices[b].owner.None?
  }

  ghost predicate SettledAreSeparable(s: System) {
    forall a, b :: a != b && Settled(s, a) && Settled(s, b) && !BothOld(s.invoices, a, b) ==>
      Separable(s.invoices, a, b)
  }

  /** A pending row and the run that wrote it agree: same order and network, and the amount the run
      holds locally is the stored one, in particular whenever the run looks for clashes. */
  predicate RowFollowsOwner(s: System, order: int) {
    PendingAt(s.invoices, order) && s.invoices[order].owner.Some? ==>
      var row, w := s.invoices[order], s.invoices[order].owner.value;
      && w in s.creators
      && s.creators[w].order == order
      && s.creators[w].user == row.user
      && s.creators[w].network == row.network
      && s.creators[w].amount == row.amount
      && (s.creators[w].Active() || s.creators[w].stage == Succeeded)
  }

  /** A run that has inserted and not returned still owns the row with its order id. */
  predicate OwnsRow(s: System, w: nat) {
    w in s.creators && s.creators[w].Active() ==>
      s.creators[w].order in s.invoices && s.invoices[s.creators[w].order].owner == Some(w)
  }

  ghost predicate RowsFollowOwners(s: System) {
    forall order :: RowFollowsOwner(s, order)
  }

  ghost predicate ActiveOwnTheirRow(s: System) {
    forall w :: OwnsRow(s, w)
  }

  ghost predicate AmountInv(s: System) {
    SettledAreSeparable(s) && RowsFollowOwners(s) && ActiveOwnTheirRow(s)
  }

  /** A system no run has touched yet; its old rows may hold any amounts. */
  ghost predicate Start(s: System) {
    && s.creators == map[] && s.credits == []
    && (forall o :: o in s.invoices ==> s.invoices[o].owner == None)
  }

  lemma SettledShrinks(s: System, s': System)
    requires SettledAreSeparable(s)
    requires forall o :: Settled(s', o) ==>
      && Settled(s, o) && s'.invoices[o].network == s.invoices[o].network
      && s'.invoices[o].amount == s.invoices[o].amount && s'.invoices[o].owner == s.invoices[o].owner
    ensures SettledAreSeparable(s')
  {
  }

  /** Only a successful check makes a row settled, and it has just seen all the others. */
  lemma SettledStep(s: System, e: Event)
    requires AmountInv(s)
    ensures SettledAreSeparable(Next(s, e))
  {
    var s' := Next(s, e);
    if e.Check? && StageIs(s, e.run, Negotiating) {
      var c := s.creators[e.run];
      forall a, b | a != b && Settled(s', a) && Settled(s', b) && !BothOld(s'.invoices, a, b)
        ensures Separable(s'.invoices, a, b)
      {
        if Settled(s, a) && Settled(s, b) {
          assert Separable(s.invoices, a, b);
        } else {
          var mine, other := if Settled(s, a) then b else a, if Settled(s, a) then a else b;
          assert RowFollowsOwner(s, mine);
          assert s.invoices[mine].owner == Some(e.run) && c.order == mine;
          assert !Clashes(s.invoices, c.network, c.order, c.amount, other);
          CollideIsSymmetric(s.invoices[a].amount, s.invoices[b].amount);
        }
      }
    } else {
      forall o | Settled(s', o)
        ensures Settled(s, o)
        ensures s'.invoices[o].network == s.invoices[o].network && s'.invoices[o].amount == s.invoices[o].amount
        ensures s'.invoices[o].owner == s.invoices[o].owner
      {
        SettledComesFromSettled(s, e, o);
      }
      SettledShrinks(s, s');
    }
  }

  lemma SettledComesFromSettled(s: System, e: Event, o: int)
    requires AmountInv(s) && !(e.Check? && StageIs(s, e.run, Negotiating))
    requires Settled(Next(s, e), o)
    ensures Settled(s, o)
    ensures Next(s, e).invoices[o].network == s.invoices[o].network
    ensures Next(s, e).invoices[o].amount == s.invoices[o].amount
    ensures Next(s, e).invoices[o].owner == s.invoices[o].owner
  {
    assert RowFollowsOwner(s, o);
    if e.Repick? {
      assert OwnsRow(s, e.run);
    }
  }

  lemma RowStep(s: System, e: Event, order: int)
    requires AmountInv(s)
    ensures RowFollowsOwner(Next(s, e), order)
  {
    assert RowFollowsOwner(s, order);
    if !e.Approve? && !e.Expire? {
      assert OwnsRow(s, e.run);
    }
  }

  lemma OwnStep(s: System, e: Event, w: nat)
    requires AmountInv(s)
    ensures OwnsRow(Next(s, e), w)
  {
    assert OwnsRow(s, w);
    if !e.Approve? && !e.Expire? {
      assert OwnsRow(s, e.run);
    }
  }

  lemma AmountStep(s: System, e: Event)
    requires AmountInv(s)
    ensures AmountInv(Next(s, e))
  {
    SettledStep(s, e);
    forall order ensures RowFollowsOwner(Next(s, e), order) { RowStep(s, e, order); }
    forall w: nat ensures OwnsRow(Next(s, e), w) { OwnStep(s, e, w); }
  }

  lemma {:induction false} AmountsThroughout(s: System, events: seq<Event>)
    requires AmountInv(s)
    ensures AmountInv(Run(s, events))
  {
    if events != [] {
      AmountsThroughout(s, events[..|events| - 1]);
      AmountStep(Run(s, events[..|events| - 1]), events[|events| - 1]);
    }
  }

  /** Main result: at every point of every interleaving, a pending invoice whose creator returned success
      and any other settled invoice of its network, old or new, cannot be matched by one transfer. */
  lemma SuccessfulInvoicesNeverCollide(s: System, events: seq<Event>, a: int, b: int)
    requires Start(s) && a != b
    requires var t := Run(s, events);
             && a in t.invoices && b in t.invoices
             && t.invoices[a].status == Pending && t.invoices[b].status == Pending
             && t.invoices[a].network == t.invoices[b].network
             && t.invoices[a].owner.Some? && StageIs(t, t.invoices[a].owner.value, Succeeded)
             && (t.invoices[b].owner.Some? ==> StageIs(t, t.invoices[b].owner.value, Succeeded))
    ensures var t := Run(s, events);
            !Collide(t.invoices[a].amount, t.invoices[b].amount)
  {
    AmountsThroughout(s, events);
    var t := Run(s, events);
    assert Settled(t, a) && Settled(t, b) && Separable(t.invoices, a, b);
  }

  /** No creator of the network is inside its loop. */
  ghost predicate Quiet(s: System, network: string) {
    forall w :: w in s.creators && s.creators[w].network == network ==> !s.creators[w].Active()
  }

  /** Whenever a network is quiet, every pending invoice a creator stored is covered: failed creators
      leave no pending row behind. Two old rows are as far apart as they were at the start. */
  lemma QuietSystemIsSeparable(s: System, events: seq<Event>, network: string)
    requires Start(s) && Quiet(Run(s, events), network)
    ensures var t := Run(s, events).invoices;
            forall a, b :: a != b && a in t && t[a].status == Pending && b in t && t[b].status == Pending
              && t[a].network == network && t[b].network == network && Collide(t[a].amount, t[b].amount)
              ==> && t[a].owner == None && a in s.invoices && t[a] == s.invoices[a]
                  && t[b].owner == None && b in s.invoices && t[b] == s.invoices[b]
  {
    AmountsThroughout(s, events);
    OldRowsThroughout(s, events);
    var t := Run(s, events);
    forall a, b | a != b && a in t.invoices && t.invoices[a].status == Pending
      && b in t.invoices && t.invoices[b].status == Pending && t.invoices[a].network == network
      && t.invoices[b].network == network
      ensures Collide(t.invoices[a].amount, t.invoices[b].amount) ==>
        && t.invoices[a].owner == None && a in s.invoices && t.invoices[a] == s.invoices[a]
        && t.invoices[b].owner == None && b in s.invoices && t.invoices[b] == s.invoices[b]
    {
      assert RowFollowsOwner(t, a) && RowFollowsOwner(t, b);
      assert OldRow(s, t.invoices, a) && OldRow(s, t.invoices, b);
      if !BothOld(t.invoices, a, b) {
        assert Settled(t, a) && Settled(t, b);
        assert Separable(t.invoices, a, b);
      }
    }
  }

  /** A pending row without a creator is still as it was at the start. */
  predicate OldRow(s: System, invoices: map<int, Invoice>, order: int) {
    PendingAt(invoices, order) && invoices[order].owner.None? ==>
      order in s.invoices && invoices[order] == s.invoices[order]
  }

  ghost predicate OldRowsKept(s: System, t: System) {
    forall order :: OldRow(s, t.invoices, order)
  }

  lemma OldRowStep(s0: System, s: System, e: Event, order: int)
    requires AmountInv(s) && OldRow(s0, s.invoices, order)
    ensures OldRow(s0, Next(s, e).invoices, order)
  {
    if !e.Approve? && !e.Expire? {
      assert OwnsRow(s, e.run);
    }
  }

  lemma {:induction false} OldRowsThroughout(s: System, events: seq<Event>)
    requires Start(s)
    ensures OldRowsKept(s, Run(s, events))
  {
    if events != [] {
      var before, e := events[..|events| - 1], events[|events| - 1];
      OldRowsThroughout(s, before);
      AmountsThroughout(s, before);
      forall order ensures OldRow(s, Run(s, events).invoices, order) {
        assert OldRow(s, Run(s, before).invoices, order);
        OldRowStep(s, Run(s, before), e, order);
      }
    }
  }

  // ---- credit safety ------------------------------------------------------------------------

  function CreditTo(user: int): Credit -> int {
    (c: Credit) => if c.user == user then c.total else 0
  }

  ghost predicate HashesUnique(invoices: map<int, Invoice>) {
    forall a, b :: a in invoices && b in invoices && a != b && invoices[a].txHash.Some?
      ==> invoices[a].txHash != invoices[b].txHash
  }

  predicate PaidAt(invoices: map<int, Invoice>, order: int) {
    order in invoices && invoices[order].status == Paid
  }

  /** Every logged credit turned a pending invoice of that user, with that hash, into a paid one. */
  ghost predicate LogIsPaid(s0: System, s: System) {
    forall i :: 0 <= i < |s.credits| ==>
      var c := s.credits[i];
      && PaidAt(s.invoices, c.order) && !PaidAt(s0.invoices, c.order)
      && s.invoices[c.order].user == c.user
      && (c.txHash.Some? ==> s.invoices[c.order].txHash == c.txHash)
  }

  ghost predicate OrdersDistinct(credits: seq<Credit>) {
    forall i, j :: 0 <= i < j < |credits| ==> credits[i].order != credits[j].order
  }

  predicate Logged(credits: seq<Credit>, order: int) {
    exists i :: 0 <= i < |credits| && credits[i].order == order
  }

  ghost predicate PaidIsLogged(s0: System, s: System) {
    forall o :: PaidAt(s.invoices, o) && !PaidAt(s0.invoices, o) ==> Logged(s.credits, o)
  }

  ghost predicate WalletsBalance(s0: System, s: System) {
    && s.wallets.Keys == s0.wallets.Keys
    && forall u :: u in s0.wallets ==> s.wallets[u] == s0.wallets[u] + SumBy(s.credits, CreditTo(u))
  }

  /** The log of credits and the tables tell the same story, seen from the start state `s0`. */
  ghost predicate CreditInv(s0: System, s: System) {
    && HashesUnique(s.invoices) && LogIsPaid(s0, s) && OrdersDistinct(s.credits)
    && PaidIsLogged(s0, s) && WalletsBalance(s0, s)
  }

  /** What a transaction may do to a row that is already Paid or Expired: nothing. */
  ghost predicate FinalRowsKept(s: System, t: System) {
    forall o :: o in s.invoices && s.invoices[o].status != Pending ==>
      o in t.invoices && t.invoices[o] == s.invoices[o]
  }

  lemma FinalStep(s: System, e: Event)
    ensures FinalRowsKept(s, Next(s, e))
  {
  }

  lemma {:induction false} FinalThroughout(s: System, events: seq<Event>)
    ensures FinalRowsKept(s, Run(s, events))
  {
    if events != [] {
      FinalThroughout(s, events[..|events| - 1]);
      FinalStep(Run(s, events[..|events| - 1]), events[|events| - 1]);
    }
  }

  lemma OtherEventsPayNothing(s: System, e: Event)
    requires HashesUnique(s.invoices)
    requires !e.Approve? || !CanApprove(s, e.order, e.txHash)
    ensures var t := Next(s, e);
            && t.credits == s.credits && t.wallets == s.wallets && HashesUnique(t.invoices)
            && forall o :: PaidAt(t.invoices, o) <==> PaidAt(s.invoices, o)
  {
  }

  lemma ApproveKeepsLog(s0: System, s: System, e: Event)
    requires e.Approve? && CanApprove(s, e.order, e.txHash) && FinalRowsKept(s0, s)
    requires LogIsPaid(s0, s) && PaidIsLogged(s0, s) && OrdersDistinct(s.credits)
    ensures LogIsPaid(s0, Next(s, e)) && PaidIsLogged(s0, Next(s, e)) && OrdersDistinct(Next(s, e).credits)
  {
    var t := Next(s, e);
    assert t.credits[|s.credits|].order == e.order;
    forall o | PaidAt(t.invoices, o) && !PaidAt(s0.invoices, o)
      ensures Logged(t.credits, o)
    {
      if o != e.order {
        assert Logged(s.credits, o);
        var i :| 0 <= i < |s.credits| && s.credits[i].order == o;
        assert t.credits[i].order == o;
      }
    }
  }

  lemma ApproveKeepsBalance(s0: System, s: System, e: Event)
    requires e.Approve? && CanApprove(s, e.order, e.txHash) && WalletsBalance(s0, s)
    ensures WalletsBalance(s0, Next(s, e))
  {
    var t, row := Next(s, e), s.invoices[e.order];
    var credit := Credit(e.order, row.user, e.total, WrittenHash(e.txHash));
    assert t.credits == s.credits + [credit] && t.wallets == s.wallets[row.user := s.wallets[row.user] + e.total];
    forall u | u in s0.wallets
      ensures u in t.wallets && t.wallets[u] == s0.wallets[u] + SumBy(t.credits, CreditTo(u))
    {
      assert s.wallets[u] == s0.wallets[u] + SumBy(s.credits, CreditTo(u));
      SumAppend(s.credits, credit, CreditTo(u));
    }
  }

  lemma ApproveKeepsHashes(s: System, e: Event)
    requires e.Approve? && CanApprove(s, e.order, e.txHash) && HashesUnique(s.invoices)
    ensures HashesUnique(Next(s, e).invoices)
  {
  }

  lemma CreditStep(s0: System, s: System, e: Event)
    requires CreditInv(s0, s) && FinalRowsKept(s0, s)
    ensures CreditInv(s0, Next(s, e))
  {
    if e.Approve? && CanApprove(s, e.order, e.txHash) {
      ApproveKeepsHashes(s, e);
      ApproveKeepsLog(s0, s, e);
      ApproveKeepsBalance(s0, s, e);
    } else {
      OtherEventsPayNothing(s, e);
      FinalStep(s, e);
    }
  }

  lemma {:induction false} CreditsThroughout(s: System, events: seq<Event>)
    requires Start(s) && HashesUnique(s.invoices)
    ensures CreditInv(s, Run(s, events))
  {
    if events != [] {
      var before := events[..|events| - 1];
      CreditsThroughout(s, before);
      FinalThroughout(s, before);
      CreditStep(s, Run(s, before), events[|events| - 1]);
    }
  }

  /** Main result: whatever the jobs attempt, in any order and with any hashes, each invoice is
      credited at most once, each hash pays at most one invoice, the credited invoices are exactly
      those that became Paid, and every wallet is its start plus the totals credited to its owner. */
  lemma CreditsAreExact(s: System, events: seq<Event>)
    requires Start(s) && HashesUnique(s.invoices)
    ensures var t := Run(s, events);
            && (forall i, j :: 0 <= i < j < |t.credits| ==>
                  && t.credits[i].order != t.credits[j].order
                  && (t.credits[i].txHash.Some? ==> t.credits[i].txHash != t.credits[j].txHash))
            && (forall o :: o in t.invoices && t.invoices[o].status == Paid
                              && !(o in s.invoices && s.invoices[o].status == Paid)
                  <==> exists i :: 0 <= i < |t.credits| && t.credits[i].order == o)
            && (forall i :: 0 <= i < |t.credits| ==>
                  && t.credits[i].order in t.invoices && t.invoices[t.credits[i].order].user == t.credits[i].user
                  && (t.credits[i].txHash.Some? ==> t.invoices[t.credits[i].order].txHash == t.credits[i].txHash))
            && (forall u :: u in s.wallets ==>
                  u in t.wallets
                  && t.wallets[u] == s.wallets[u] + SumBy(t.credits, (c: Credit) => if c.user == u then c.total else 0))
  {
    CreditsThroughout(s, events);
    var t := Run(s, events);
    forall o ensures o in t.invoices && t.invoices[o].status == Paid
                       && !(o in s.invoices && s.invoices[o].status == Paid)
      <==> exists i :: 0 <= i < |t.credits| && t.credits[i].order == o
    {
      assert PaidAt(t.invoices, o) && !PaidAt(s.invoices, o) <==> Logged(t.credits, o);
    }
    forall u | u in s.wallets
      ensures u in t.wallets
      ensures t.wallets[u] == s.wallets[u] + SumBy(t.credits, (c: Credit) => if c.user == u then c.total else 0)
    {
      SumCongruent(t.credits, CreditTo(u), t.credits, (c: Credit) => if c.user == u then c.total else 0);
    }
  }

  /** Paid and Expired are final at every later point of the run, not only against its start. */
  lemma FinalStatusesStay(s: System, events: seq<Event>, later: seq<Event>, order: int)
    requires var t := Run(s, events).invoices; order in t && t[order].status != Pending
    ensures var t, u := Run(s, events).invoices, Run(s, events + later).invoices;
            order in u && u[order] == t[order]
  {
    RunConcat(s, events, later);
    FinalThroughout(Run(s, events), later);
  }
}

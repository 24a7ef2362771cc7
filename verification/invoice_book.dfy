// The invoice table with the methods of app/db/crud/cryptopayments.py, proved to be moves of the
// protocol in invoice_protocol.dfy. Between two transactions a method lets other runs move.
module InvoiceBooks {
  import opened Common
  import opened Amounts
  import opened InvoiceProtocol

  /** Events of the run itself; the others are moves of the rest of the system. */
  predicate Belongs(e: Event, run: nat) {
    !e.Approve? && !e.Expire? && e.run == run
  }

  predicate HashUsed(invoices: map<int, Invoice>, txHash: string) {
    exists o | o in invoices :: invoices[o].txHash == Some(txHash)
  }

  predicate OtherPending(invoices: map<int, Invoice>, network: string, order: int, o: int) {
    PendingAt(invoices, o) && o != order && invoices[o].network == network
  }

  ghost predicate PendingElsewhere(invoices: map<int, Invoice>, network: string, order: int, amount: Amount) {
    exists o :: OtherPending(invoices, network, order, o) && invoices[o].amount == amount
  }

  /** The events of one run: those of creators, but not credits and expiries. */
  lemma BelongsMeans(e: Event, run: nat)
    ensures Belongs(e, run) <==> match e
      case Approve(_, _, _, _) => false
      case Expire(_) => false
      case Begin(r, _, _, _, _, _) => r == run
      case Insert(r, _) => r == run
      case PickFails(r) => r == run
      case Check(r) => r == run
      case Repick(r, _) => r == run
      case Discard(r) => r == run
  {
  }

  lemma OtherKeepsTheRun(s: System, e: Event, run: nat)
    requires run in s.creators && !Belongs(e, run)
    ensures run in Next(s, e).creators && Next(s, e).creators[run] == s.creators[run]
  {
  }

  lemma {:induction false} OthersKeepTheRun(s: System, events: seq<Event>, run: nat)
    requires run in s.creators
    requires forall e :: e in events ==> !Belongs(e, run)
    ensures run in Run(s, events).creators && Run(s, events).creators[run] == s.creators[run]
  {
    if events != [] {
      var before, last := events[..|events| - 1], events[|events| - 1];
      assert last in events && forall e :: e in before ==> e in events;
      OthersKeepTheRun(s, before, run);
      OtherKeepsTheRun(Run(s, before), last, run);
    }
  }

  // ---- what one call does, move by move -------------------------------------------------------

  /** The arguments of one call. `pick(k)` is what the picker returns after k looks for clashes (None when
      it raises) and `others(k)` are the transactions of other runs after the run's own k-th, from 0. */
  datatype Call = Call(
    run: nat, order: int, user: int, network: string, createtime: int, attempts: nat,
    pick: nat -> Option<Amount>, others: nat -> seq<Event>)
  {
    function Opening(): Event {
      Begin(run, order, user, network, createtime, attempts)
    }

    ghost predicate OthersAreOthers() {
      forall k, e :: e in others(k) ==> !Belongs(e, run)
    }
  }

  /** How often the run has looked. */
  function Looks(r: Creator, c: Call): nat {
    if r.left <= c.attempts then c.attempts - r.left else 0
  }

  /** The one transaction a run may make next. */
  function StepOf(r: Creator, c: Call): Option<Event> {
    var picked := c.pick(Looks(r, c));
    match r.stage
    case Picking => Some(if picked.Some? then Insert(c.run, picked.value) else PickFails(c.run))
    case Negotiating => Some(Check(c.run))
    case Repicking => Some(if picked.Some? then Repick(c.run, picked.value) else PickFails(c.run))
    case Discarding => Some(Discard(c.run))
    case Succeeded => None
    case Failed => None
  }

  /** Stage by stage: look `i` of a run, counted from 0, takes the number picked for it. */
  lemma StepMeans(r: Creator, c: Call, e: Event, i: nat)
    requires StepOf(r, c) == Some(e) && r.left + i == c.attempts
    ensures r.stage == Picking ==> e == if c.pick(i).Some? then Insert(c.run, c.pick(i).value) else PickFails(c.run)
    ensures r.stage == Negotiating ==> e == Check(c.run)
    ensures r.stage == Repicking ==> e == if c.pick(i).Some? then Repick(c.run, c.pick(i).value) else PickFails(c.run)
    ensures r.stage == Discarding ==> e == Discard(c.run)
    ensures r.stage != Succeeded && r.stage != Failed
  {
  }

  predicate CalledFor(s: System, c: Call, e: Event) {
    c.run in s.creators && StepOf(s.creators[c.run], c) == Some(e)
  }

  /** The system right after the run's transactions `own`. Before each of them but the first, and nowhere
      else, it lets the others make their next moves. */
  function Reached(s0: System, own: seq<Event>, c: Call): System {
    Run(s0, Woven(own, c.others))
  }

  /** The system once the others have made their moves after `own`. */
  function Awaited(s0: System, own: seq<Event>, c: Call): System
    requires own != []
  {
    Run(s0, Woven(own, c.others) + c.others(|own| - 1))
  }

  /** The first transaction opens the run with the call's arguments, and each later one is what the
      run's stage calls for in the system it finds. */
  predicate Follows(s0: System, own: seq<Event>, c: Call) {
    if |own| <= 1 then own == [c.Opening()]
    else
      var before, last := own[..|own| - 1], own[|own| - 1];
      Follows(s0, before, c) && CalledFor(Awaited(s0, before, c), c, last)
  }

  /** Every transaction of a call, one by one. */
  lemma {:induction false} FollowsAt(s0: System, own: seq<Event>, c: Call, k: nat)
    requires Follows(s0, own, c) && k < |own|
    ensures own[0] == Begin(c.run, c.order, c.user, c.network, c.createtime, c.attempts)
    ensures k > 0 ==>
      var s := Awaited(s0, own[..k], c);
      c.run in s.creators && StepOf(s.creators[c.run], c) == Some(own[k])
  {
    if |own| > 1 {
      var before := own[..|own| - 1];
      if k < |before| {
        FollowsAt(s0, before, c, k);
        assert before[..k] == own[..k];
      } else {
        FollowsAt(s0, before, c, 0);
      }
    }
  }

  lemma FollowsOne(s0: System, c: Call)
    ensures Follows(s0, [c.Opening()], c)
    ensures Reached(s0, [c.Opening()], c) == Next(s0, c.Opening())
  {
    var own := [c.Opening()];
    assert Woven(own, c.others) == own && own[..0] == [];
    assert Run(s0, own) == Next(Run(s0, []), own[0]);
  }

  predicate EndsWith(own: seq<Event>, e: Event) {
    own != [] && own[|own| - 1] == e
  }

  /** One more transaction of the run. */
  lemma FollowsStep(s0: System, own: seq<Event>, c: Call, e: Event)
    requires own != [] && Follows(s0, own, c) && CalledFor(Awaited(s0, own, c), c, e)
    ensures Follows(s0, own + [e], c)
    ensures Reached(s0, own + [e], c) == Next(Awaited(s0, own, c), e)
  {
    WovenNext(own, c.others, e);
    var trace := Woven(own, c.others) + c.others(|own| - 1);
    assert (trace + [e])[..|trace|] == trace;
    assert (own + [e])[..|own|] == own;
  }

  lemma AwaitedFromReached(s0: System, own: seq<Event>, c: Call)
    requires own != []
    ensures Awaited(s0, own, c) == Run(Reached(s0, own, c), c.others(|own| - 1))
  {
    RunConcat(s0, Woven(own, c.others), c.others(|own| - 1));
  }

  function FirstCreator(c: Call): Creator {
    Creator(c.order, c.user, c.network, c.createtime, Unreadable, Picking, false, c.attempts)
  }

  function FirstRow(c: Call, amount: Amount): Invoice {
    Invoice(Pending, c.user, c.network, amount, c.createtime, 0, None, Some(c.run))
  }

  function InLoop(c: Call, amount: Amount, yielded: bool, checked: nat): Creator
    requires checked <= c.attempts
  {
    FirstCreator(c).(amount := amount, yielded := yielded, left := c.attempts - checked)
  }

  /** Where the loop stands after an unsuccessful look. */
  lemma AfterALook(c: Call, amount: Amount, yielded: bool, checked: nat, lower: bool, higher: bool, next: Amount)
    requires checked < c.attempts && (lower || higher)
    ensures var r := AfterCheck(LoopHead(InLoop(c, amount, yielded, checked)), lower, higher);
            if !lower && !yielded then r == LoopHead(InLoop(c, amount, true, checked + 1))
            else r.stage == Repicking && LoopHead(r.(amount := next)) == LoopHead(InLoop(c, next, false, checked + 1))
  {
  }

  /** The insert came last and found the order id taken. */
  ghost predicate OrderWasTaken(s0: System, own: seq<Event>, c: Call) {
    && |own| > 1 && own[|own| - 1].Insert?
    && c.order in Awaited(s0, own[..|own| - 1], c).invoices
  }

  /** Why a call failed: the picker raised, the order id was taken, or all its looks saw a clash. */
  ghost predicate FailedFor(s0: System, own: seq<Event>, c: Call) {
    || PickFails(c.run) in own
    || OrderWasTaken(s0, own, c)
    || (c.run in Reached(s0, own, c).creators && Looks(Reached(s0, own, c).creators[c.run], c) == c.attempts)
  }

  /** The row a success leaves: the caller's own, and holding the returned amount while it is pending. */
  predicate Stored(invoices: map<int, Invoice>, c: Call, amount: Amount) {
    && c.order in invoices && invoices[c.order].owner == Some(c.run)
    && (PendingAt(invoices, c.order) ==>
          && invoices[c.order].user == c.user && invoices[c.order].network == c.network
          && invoices[c.order].amount == amount)
  }

  /** Nobody else moves, and the first pick is free. */
  ghost predicate Undisturbed(s0: System, c: Call) {
    && (forall k :: c.others(k) == [])
    && c.order !in s0.invoices && c.attempts > 0
    && c.pick(0).Some? && Unclashed(s0.invoices, c, c.pick(0).value)
  }

  /** No other pending invoice of the network collides with `amount`. */
  ghost predicate Unclashed(invoices: map<int, Invoice>, c: Call, amount: Amount) {
    forall o :: !Clashes(invoices, c.network, c.order, amount, o)
  }

  lemma ClashesEitherWay(invoices: map<int, Invoice>, c: Call, amount: Amount)
    ensures !ClashBelow(invoices, c.network, c.order, amount) && !ClashAbove(invoices, c.network, c.order, amount)
      <==> Unclashed(invoices, c, amount)
  {
    if !ClashBelow(invoices, c.network, c.order, amount) && !ClashAbove(invoices, c.network, c.order, amount) {
      forall o ensures !Clashes(invoices, c.network, c.order, amount, o) {
        assert !(o < c.order && Clashes(invoices, c.network, c.order, amount, o));
        assert !(o > c.order && Clashes(invoices, c.network, c.order, amount, o));
      }
    }
  }

  lemma UnclashedMeans(invoices: map<int, Invoice>, c: Call, amount: Amount)
    ensures Unclashed(invoices, c, amount) <==>
      forall o :: o in invoices && o != c.order && invoices[o].status == Pending && invoices[o].network == c.network ==>
        !Collide(amount, invoices[o].amount)
  {
    if Unclashed(invoices, c, amount) {
      forall o | o in invoices && o != c.order && invoices[o].status == Pending && invoices[o].network == c.network
        ensures !Collide(amount, invoices[o].amount)
      {
        assert !Clashes(invoices, c.network, c.order, amount, o);
      }
    }
  }

  lemma OwnRowClashesWithNobody(invoices: map<int, Invoice>, c: Call, amount: Amount)
    requires Unclashed(invoices, c, amount)
    ensures Unclashed(invoices[c.order := FirstRow(c, amount)], c, amount)
  {
    var more := invoices[c.order := FirstRow(c, amount)];
    forall o ensures !Clashes(more, c.network, c.order, amount, o) {
      assert !Clashes(invoices, c.network, c.order, amount, o);
    }
  }

  /** A run in its last stage, with its amount, and the call's arguments. */
  function SucceededWith(r: Creator, c: Call, amount: Amount): Creator {
    r.(order := c.order, user := c.user, network := c.network, createtime := c.createtime,
       amount := amount, stage := Succeeded)
  }

  /** The check that succeeds changes no row, and the run owned its row when it looked. */
  lemma StoredOnSuccess(s0: System, own: seq<Event>, c: Call, amount: Amount)
    requires AmountInv(s0) && |own| > 1 && EndsWith(own, Check(c.run)) && Follows(s0, own, c)
    requires c.run in Reached(s0, own, c).creators
    requires var r := Reached(s0, own, c).creators[c.run]; r == SucceededWith(r, c, amount)
    ensures Stored(Reached(s0, own, c).invoices, c, amount)
  {
    var before := own[..|own| - 1];
    var s, t := Awaited(s0, before, c), Reached(s0, own, c);
    assert own == before + [Check(c.run)];
    FollowsStep(s0, before, c, Check(c.run));
    AmountsThroughout(s0, Woven(before, c.others) + c.others(|before| - 1));
    AmountsThroughout(s0, Woven(own, c.others));
    assert OwnsRow(s, c.run);
    assert RowFollowsOwner(t, c.order);
  }

  class InvoiceBook {
    var invoices: map<int, Invoice>
    var wallets: map<int, int>
    /** Control state of every run of AddOrderWithUniqueAmount that has begun. */
    var creators: map<nat, Creator>
    var credits: seq<Credit>

    function State(): System
      reads this
    {
      System(invoices, wallets, creators, credits)
    }

    constructor (invoices: map<int, Invoice>, wallets: map<int, int>)
      ensures State() == System(invoices, wallets, map[], [])
    {
      this.invoices, this.wallets, creators, credits := invoices, wallets, map[], [];
    }

    /** _clashing_order_ids: clashes of `amount` with lower and with higher order ids, and the amounts of
        all other pending invoices of the network. */
    method ClashingOrderIds(network: string, order: int, amount: Amount)
      returns (lower: bool, higher: bool, others: set<Amount>)
      ensures lower <==> ClashBelow(invoices, network, order, amount)
      ensures higher <==> ClashAbove(invoices, network, order, amount)
      ensures lower <==> exists o :: o in invoices && o < order && invoices[o].status == Pending
                                      && invoices[o].network == network && Collide(amount, invoices[o].amount)
      ensures higher <==> exists o :: o in invoices && order < o && invoices[o].status == Pending
                                       && invoices[o].network == network && Collide(amount, invoices[o].amount)
      ensures forall a :: a in others <==> exists o :: o in invoices && o != order && invoices[o].status == Pending
                                             && invoices[o].network == network && invoices[o].amount == a
    {
      var clashing := set o | o in invoices && Clashes(invoices, network, order, amount, o);
      assert forall o :: o in clashing <==> Clashes(invoices, network, order, amount, o);
      lower := exists o | o in clashing :: o < order;
      higher := exists o | o in clashing :: o > order;
      others := set o | o in invoices && OtherPending(invoices, network, order, o) :: invoices[o].amount;
      assert forall a :: a in others <==> PendingElsewhere(invoices, network, order, a);
    }

    method SetPendingAmount(order: int, amount: Amount)
      modifies this`invoices
      ensures invoices == SetAmount(old(invoices), order, amount)
      ensures invoices == if order in old(invoices) && old(invoices)[order].status == Pending then
                            old(invoices)[order := old(invoices)[order].(amount := amount)] else old(invoices)
    {
      if order in invoices && invoices[order].status == Pending {
        invoices := invoices[order := invoices[order].(amount := amount)];
      }
    }

    method DiscardPendingOrder(order: int)
      modifies this`invoices
      ensures invoices == DropPending(old(invoices), order)
      ensures invoices == if order in old(invoices) && old(invoices)[order].status == Pending then
                            old(invoices) - {order} else old(invoices)
    {
      if order in invoices && invoices[order].status == Pending {
        invoices := invoices - {order};
      }
    }

    /** expire_payment: true exactly when this call turned a pending invoice into an expired one. */
    method ExpirePayment(order: int) returns (done: bool)
      modifies this`invoices
      ensures State() == Next(old(State()), Expire(order))
      ensures done <==> order in old(invoices) && old(invoices)[order].status == Pending
      ensures invoices == if done then old(invoices)[order := old(invoices)[order].(status := Expired)] else old(invoices)
    {
      done := order in invoices && invoices[order].status == Pending;
      if done {
        invoices := invoices[order := invoices[order].(status := Expired)];
      }
    }

    /** get_used_tx_hashes: the given ids some invoice already carries, nothing when the lookup fails. */
    method GetUsedTxHashes(candidates: set<string>, lookupFails: bool) returns (used: set<string>)
      ensures lookupFails ==> used == {}
      ensures !lookupFails ==>
                forall h :: h in used <==>
                  h in candidates && h != "" && exists o :: o in invoices && invoices[o].txHash == Some(h)
    {
      if lookupFails {
        return {};
      }
      used := set h | h in candidates && h != "" && HashUsed(invoices, h);
    }

    /** approve_and_credit: the new balance, or None with nothing written. */
    method ApproveAndCredit(order: int, total: int, paytime: int, txHash: Option<string>)
      returns (balance: Option<int>)
      modifies this
      ensures State() == Next(old(State()), Approve(order, total, paytime, txHash))
      ensures balance.Some? <==>
                && order in old(invoices) && old(invoices)[order].status == Pending
                && old(invoices)[order].user in old(wallets)
                && (txHash == None || txHash == Some("")
                    || forall o :: o in old(invoices) && o != order ==> old(invoices)[o].txHash != txHash)
      ensures balance.None? ==> State() == old(State())
      ensures balance.Some? ==>
                var row, hash := old(invoices)[order], if txHash == Some("") then None else txHash;
                && invoices == old(invoices)[order := row.(status := Paid,
                                                           paytime := if paytime == 0 then row.paytime else paytime,
                                                           txHash := if hash == None then row.txHash else hash)]
                && wallets == old(wallets)[row.user := old(wallets)[row.user] + total]
                && balance.value == wallets[row.user]
                && credits == old(credits) + [Credit(order, row.user, total, hash)]
    {
      if order !in invoices || invoices[order].status != Pending {
        return None;
      }
      var row := invoices[order];
      if row.user !in wallets {
        return None;
      }
      var hash := WrittenHash(txHash);
      if hash.Some? && exists other | other in invoices :: other != order && invoices[other].txHash == hash {
        return None; // the unique index rejects the update and the transaction rolls back
      }
      invoices := invoices[order := PaidRow(row, paytime, hash)];
      wallets := wallets[row.user := wallets[row.user] + total];
      credits := credits + [Credit(order, row.user, total, hash)];
      balance := Some(wallets[row.user]);
    }

    /** The call has made the transactions `own`, each after one await. */
    ghost predicate Stands(s0: System, own: seq<Event>, c: Call)
      reads this
    {
      own != [] && Follows(s0, own, c) && State() == Reached(s0, own, c)
    }

    /** And the others have moved since. */
    ghost predicate Wakes(s0: System, own: seq<Event>, c: Call)
      reads this
    {
      own != [] && Follows(s0, own, c) && State() == Awaited(s0, own, c)
    }

    /** The rest of the system moves while the run awaits. */
    method OtherRuns(ghost s0: System, ghost own: seq<Event>, c: Call, k: nat)
      requires Stands(s0, own, c) && k == |own| - 1
      requires c.run in creators && c.OthersAreOthers()
      modifies this
      ensures Wakes(s0, own, c)
      ensures c.run in creators && creators[c.run] == old(creators[c.run])
      ensures c.others(k) == [] ==> State() == old(State())
    {
      OthersKeepTheRun(State(), c.others(k), c.run);
      AwaitedFromReached(s0, own, c);
      var s := Run(State(), c.others(k));
      invoices, wallets, creators, credits := s.invoices, s.wallets, s.creators, s.credits;
    }

    /** The clash check, with the decision the run takes from it. */
    method CheckForClashes(ghost s0: System, ghost own: seq<Event>, c: Call)
      returns (lower: bool, higher: bool, ghost longer: seq<Event>)
      requires Wakes(s0, own, c)
      requires StageIs(State(), c.run, Negotiating) && creators[c.run].left > 0
      modifies this`creators
      ensures longer == own + [Check(c.run)] && Stands(s0, longer, c)
      ensures c.run in creators && creators[c.run] == AfterCheck(old(creators[c.run]), lower, higher)
      ensures var r := creators[c.run];
              && (lower <==> ClashBelow(invoices, r.network, r.order, r.amount))
              && (higher <==> ClashAbove(invoices, r.network, r.order, r.amount))
    {
      var r := creators[c.run];
      var others;
      lower, higher, others := ClashingOrderIds(r.network, r.order, r.amount);
      FollowsStep(s0, own, c, Check(c.run));
      creators := creators[c.run := AfterCheck(r, lower, higher)];
      assert State() == CheckStep(old(State()), c.run);
      longer := own + [Check(c.run)];
    }

    /** Write the newly picked amount, or give up when the picker raised. */
    method TakePick(ghost s0: System, ghost own: seq<Event>, c: Call, next: Option<Amount>)
      returns (ghost longer: seq<Event>)
      requires Wakes(s0, own, c)
      requires StageIs(State(), c.run, Repicking) && next == c.pick(Looks(creators[c.run], c))
      modifies this`creators, this`invoices
      ensures longer == own + [if next.Some? then Repick(c.run, next.value) else PickFails(c.run)]
      ensures Stands(s0, longer, c) && c.run in creators
      ensures creators[c.run] == if next.Some? then LoopHead(old(creators[c.run]).(amount := next.value))
                                 else old(creators[c.run]).(stage := Discarding)
    {
      var r := creators[c.run];
      ghost var e := if next.Some? then Repick(c.run, next.value) else PickFails(c.run);
      FollowsStep(s0, own, c, e);
      longer := own + [e];
      if next.None? {
        creators := creators[c.run := r.(stage := Discarding)];
      } else {
        SetPendingAmount(r.order, next.value);
        creators := creators[c.run := LoopHead(r.(amount := next.value))];
      }
    }

    /** Begin a run. */
    method Open(c: Call) returns (ghost own: seq<Event>)
      modifies this`creators
      requires c.run !in creators
      ensures own == [c.Opening()] && Stands(old(State()), own, c)
      ensures creators == old(creators)[c.run := FirstCreator(c)]
    {
      FollowsOne(State(), c);
      creators := creators[c.run := FirstCreator(c)];
      own := [c.Opening()];
    }

    /** Begin a run, pick the first amount and store the row (add_order_crypto_payment). */
    method StoreFirst(c: Call) returns (ghost own: seq<Event>)
      requires c.run !in creators && c.OthersAreOthers()
      modifies this
      ensures Stands(old(State()), own, c) && |own| == 2
      ensures c.run in creators
      ensures creators[c.run].stage == Failed ==> PickFails(c.run) in own || OrderWasTaken(old(State()), own, c)
      ensures creators[c.run].stage != Failed ==>
                c.pick(0).Some? && creators[c.run] == LoopHead(FirstCreator(c).(amount := c.pick(0).value))
      ensures var first := c.pick(0);
              c.others(0) == [] && first.Some? && c.order !in old(invoices) ==>
                && creators[c.run] == LoopHead(FirstCreator(c).(amount := first.value))
                && invoices == old(invoices)[c.order := FirstRow(c, first.value)]
    {
      ghost var s0 := State();
      own := Open(c);
      OtherRuns(s0, own, c, 0);
      var r, first := creators[c.run], c.pick(0);
      ghost var e := if first.Some? then Insert(c.run, first.value) else PickFails(c.run);
      FollowsStep(s0, own, c, e);
      assert (own + [e])[..1] == own;
      own := own + [e];
      if first.None? || c.order in invoices {
        creators := creators[c.run := r.(stage := Failed)];
      } else {
        invoices := invoices[c.order := FirstRow(c, first.value)];
        creators := creators[c.run := LoopHead(r.(amount := first.value))];
      }
    }

    /** Delete the row if it is still pending, and return failure. */
    method GiveUp(ghost s0: System, ghost own: seq<Event>, c: Call) returns (ghost longer: seq<Event>)
      requires Wakes(s0, own, c)
      requires StageIs(State(), c.run, Discarding)
      modifies this`creators, this`invoices
      ensures longer == own + [Discard(c.run)] && Stands(s0, longer, c)
      ensures StageIs(State(), c.run, Failed) && creators[c.run].left == old(creators[c.run].left)
      ensures !PendingAt(invoices, creators[c.run].order)
    {
      var r := creators[c.run];
      FollowsStep(s0, own, c, Discard(c.run));
      DiscardPendingOrder(r.order);
      creators := creators[c.run := r.(stage := Failed)];
      longer := own + [Discard(c.run)];
    }

    /** Let the others move, then look for clashes. An amount nobody clashes with is kept. */
    method Look(ghost s0: System, ghost own: seq<Event>, c: Call, k: nat, ghost amount: Amount,
                ghost yielded: bool, ghost checked: nat)
      returns (lower: bool, higher: bool, ghost longer: seq<Event>)
      requires c.OthersAreOthers() && checked < c.attempts
      requires Stands(s0, own, c) && k == |own| - 1
      requires c.run in creators && creators[c.run] == LoopHead(InLoop(c, amount, yielded, checked))
      modifies this
      ensures longer == own + [Check(c.run)] && Stands(s0, longer, c)
      ensures c.run in creators
      ensures creators[c.run] == AfterCheck(LoopHead(InLoop(c, amount, yielded, checked)), lower, higher)
      ensures !lower && !higher <==> Unclashed(invoices, c, amount)
      ensures c.others(k) == [] ==> invoices == old(invoices)
    {
      OtherRuns(s0, own, c, k);
      lower, higher, longer := CheckForClashes(s0, own, c);
      ClashesEitherWay(invoices, c, amount);
    }

    /** Let the others move, then pick again and store the new amount. */
    method MoveAway(ghost s0: System, ghost own: seq<Event>, c: Call, k: nat)
      returns (next: Option<Amount>, ghost longer: seq<Event>)
      requires c.OthersAreOthers()
      requires Stands(s0, own, c) && k == |own| - 1
      requires StageIs(State(), c.run, Repicking)
      modifies this
      ensures Stands(s0, longer, c) && |longer| == |own| + 1
      ensures next == c.pick(Looks(old(creators[c.run]), c)) && (next.None? ==> PickFails(c.run) in longer)
      ensures c.run in creators
      ensures creators[c.run] == if next.Some? then LoopHead(old(creators[c.run]).(amount := next.value))
                                 else old(creators[c.run]).(stage := Discarding)
    {
      OtherRuns(s0, own, c, k);
      next := c.pick(Looks(creators[c.run], c));
      longer := TakePick(s0, own, c, next);
    }

    /** After a look that saw a clash: wait once for higher ids to move, else move away. */
    method StepAside(ghost s0: System, ghost own: seq<Event>, c: Call, k: nat,
                     amount: Amount, yielded: bool, checked: nat, lower: bool, higher: bool)
      returns (next: Option<Amount>, waits: bool, kNow: nat, ghost longer: seq<Event>)
      requires c.OthersAreOthers() && checked < c.attempts && (lower || higher)
      requires Stands(s0, own, c) && k == |own| - 1
      requires c.run in creators
      requires creators[c.run] == AfterCheck(LoopHead(InLoop(c, amount, yielded, checked)), lower, higher)
      modifies this
      ensures Stands(s0, longer, c) && kNow == |longer| - 1 >= k
      ensures next.Some? ==>
                c.run in creators && creators[c.run] == LoopHead(InLoop(c, next.value, waits, checked + 1))
      ensures next.None? ==> StageIs(State(), c.run, Discarding) && PickFails(c.run) in longer
    {
      waits := !lower && !yielded;
      if waits {
        AfterALook(c, amount, yielded, checked, lower, higher, amount);
        return Some(amount), true, k, own;
      }
      next, longer := MoveAway(s0, own, c, k);
      kNow := k + 1;
      AfterALook(c, amount, yielded, checked, lower, higher, if next.Some? then next.value else amount);
    }

    /** One pass of the loop: look, and step aside when there is a clash. */
    method Pass(ghost s0: System, ghost own: seq<Event>, c: Call, k: nat, amount: Amount, yielded: bool, checked: nat)
      returns (clear: bool, next: Option<Amount>, waits: bool, kNow: nat, ghost longer: seq<Event>)
      requires c.OthersAreOthers() && checked < c.attempts
      requires Stands(s0, own, c) && k == |own| - 1
      requires c.run in creators && creators[c.run] == LoopHead(InLoop(c, amount, yielded, checked))
      modifies this
      ensures Stands(s0, longer, c) && kNow == |longer| - 1 > k
      ensures clear ==>
                && EndsWith(longer, Check(c.run)) && Unclashed(invoices, c, amount)
                && c.run in creators && creators[c.run] == SucceededWith(creators[c.run], c, amount)
      ensures !clear && next.Some? ==>
                c.run in creators && creators[c.run] == LoopHead(InLoop(c, next.value, waits, checked + 1))
      ensures !clear && next.None? ==> StageIs(State(), c.run, Discarding) && PickFails(c.run) in longer
      ensures c.others(k) == [] && Unclashed(old(invoices), c, amount) ==> clear
    {
      var lower, higher;
      lower, higher, longer := Look(s0, own, c, k, amount, yielded, checked);
      clear, next, waits, kNow := !lower && !higher, None, false, k + 1;
      if !clear {
        next, waits, kNow, longer := StepAside(s0, longer, c, kNow, amount, yielded, checked, lower, higher);
      }
    }

    /** Let the others move once more, then discard. */
    method Abandon(ghost s0: System, ghost own: seq<Event>, c: Call, k: nat) returns (ghost longer: seq<Event>)
      requires c.OthersAreOthers()
      requires Stands(s0, own, c) && k == |own| - 1
      requires StageIs(State(), c.run, Discarding)
      modifies this
      ensures longer == own + [Discard(c.run)] && Stands(s0, longer, c)
      ensures StageIs(State(), c.run, Failed) && creators[c.run].left == old(creators[c.run].left)
    {
      OtherRuns(s0, own, c, k);
      longer := GiveUp(s0, own, c);
    }

    /** The loop: passes until an amount is clear, the picker raises, or the attempts are used up. */
    method Passes(ghost s0: System, ghost own: seq<Event>, c: Call, first: Amount)
      returns (saved: Option<Amount>, k: nat, ghost longer: seq<Event>)
      requires c.OthersAreOthers()
      requires Stands(s0, own, c) && |own| == 2
      requires c.run in creators && creators[c.run] == LoopHead(InLoop(c, first, false, 0))
      modifies this
      ensures Stands(s0, longer, c) && k == |longer| - 1 >= 1
      ensures saved.Some? ==>
                && k > 1 && EndsWith(longer, Check(c.run)) && Unclashed(invoices, c, saved.value)
                && c.run in creators && creators[c.run] == SucceededWith(creators[c.run], c, saved.value)
      ensures saved.None? ==>
                && StageIs(State(), c.run, Discarding) && (PickFails(c.run) in longer || creators[c.run].left == 0)
      ensures c.attempts > 0 && c.others(1) == [] && Unclashed(old(invoices), c, first) ==> saved == Some(first)
    {
      ghost var calm := c.others(1) == [] && Unclashed(invoices, c, first);
      var amount, yielded, n := first, false, 0;
      saved, k, longer := None, 1, own;
      while n < c.attempts
        invariant n <= c.attempts && Stands(s0, longer, c) && k == |longer| - 1 >= 1
        invariant c.run in creators && creators[c.run] == LoopHead(InLoop(c, amount, yielded, n))
        invariant n == 0 ==> k == 1 && amount == first && invoices == old(invoices)
        invariant n > 0 ==> !calm
      {
        var clear, next;
        clear, next, yielded, k, longer := Pass(s0, longer, c, k, amount, yielded, n);
        n := n + 1;
        if clear {
          saved := Some(amount);
          return;
        }
        if next.None? {
          return;
        }
        amount := next.value;
      }
    }

    /** The loop, and the discard when it does not succeed. */
    method Negotiate(ghost s0: System, ghost own: seq<Event>, c: Call, first: Amount)
      returns (saved: Option<Amount>, ghost longer: seq<Event>)
      requires c.OthersAreOthers()
      requires Stands(s0, own, c) && |own| == 2
      requires c.run in creators && creators[c.run] == LoopHead(InLoop(c, first, false, 0))
      modifies this
      ensures Stands(s0, longer, c) && |longer| > 2
      ensures StageIs(State(), c.run, if saved.Some? then Succeeded else Failed)
      ensures EndsWith(longer, if saved.Some? then Check(c.run) else Discard(c.run))
      ensures saved.Some? ==> creators[c.run] == SucceededWith(creators[c.run], c, saved.value)
      ensures saved.Some? ==> Unclashed(invoices, c, saved.value)
      ensures saved.None? ==> PickFails(c.run) in longer || creators[c.run].left == 0
      ensures c.attempts > 0 && c.others(1) == [] && Unclashed(old(invoices), c, first) ==> saved == Some(first)
    {
      var k;
      saved, k, longer := Passes(s0, own, c, first);
      if saved.None? {
        longer := Abandon(s0, longer, c, k);
      }
    }

    /** add_order_with_unique_amount. `own` are the run's transactions: it opens with the call's arguments,
        makes only what its stage calls for, and lets the others move exactly once before each of them.
        A success is stored and leaves no clash behind; a failure has one of three reasons. */
    method AddOrderWithUniqueAmount(c: Call) returns (saved: Option<Amount>, ghost own: seq<Event>)
      requires c.run !in creators && c.OthersAreOthers()
      modifies this
      ensures Follows(old(State()), own, c) && State() == Run(old(State()), Woven(own, c.others))
      ensures StageIs(State(), c.run, if saved.Some? then Succeeded else Failed)
      ensures saved.Some? ==>
                && creators[c.run].amount == saved.value
                && (forall o :: o in invoices && o != c.order && invoices[o].status == Pending &&
                                invoices[o].network == c.network ==>
                      !Collide(saved.value, invoices[o].amount))
      ensures saved.Some? && AmountInv(old(State())) ==>
                && c.order in invoices && invoices[c.order].owner == Some(c.run)
                && (invoices[c.order].status == Pending ==>
                      && invoices[c.order].user == c.user && invoices[c.order].network == c.network
                      && invoices[c.order].amount == saved.value)
      ensures saved.None? ==> FailedFor(old(State()), own, c)
      ensures Undisturbed(old(State()), c) ==> saved == c.pick(0)
    {
      ghost var s0 := State();
      own := StoreFirst(c);
      if creators[c.run].stage == Failed {
        return None, own;
      }
      var first := c.pick(0).value;
      if Undisturbed(s0, c) {
        OwnRowClashesWithNobody(s0.invoices, c, first);
      }
      saved, own := Negotiate(s0, own, c, first);
      if saved.Some? {
        UnclashedMeans(invoices, c, saved.value);
        if AmountInv(s0) {
          StoredOnSuccess(s0, own, c, saved.value);
        }
      }
    }
  }
}

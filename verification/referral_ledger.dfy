// Referral earnings and payouts (app/db/crud/referral.py, referral_payouts.py). The reward rows are
// the ledger: what a user may withdraw is a sum over rows and is never stored.
module ReferralLedger {
  import opened Common

  datatype RewardStatus = Completed | Available | Requested | RewardPaid | Converted
  datatype Method = Card | Wallet
  datatype PayoutStatus = Pending | PayoutPaid | Rejected | PayoutCompleted

  datatype Reward = Reward(
    referrer: int, referred: int, amount: int, bonus: int, status: RewardStatus, payout: Option<nat>)

  datatype Payout = Payout(user: int, amount: int, way: Method, status: PayoutStatus)

  /** Both tables, ids being positions, and the users' wallets. */
  datatype Books = Books(rewards: seq<Reward>, payouts: seq<Payout>, wallets: map<int, int>)

  // ---- the transactions ---------------------------------------------------------------------

  function AtLeastZero(i: int): int {
    if i > 0 then i else 0
  }

  /** UPDATE users SET amount = amount + x WHERE id = user: no effect on a user that is not there. */
  function Deposit(wallets: map<int, int>, user: int, x: int): map<int, int> {
    if user in wallets then wallets[user := wallets[user] + x] else wallets
  }

  predicate Rewarded(rewards: seq<Reward>, referrer: int, referred: int) {
    exists i :: 0 <= i < |rewards| && rewards[i].referrer == referrer && rewards[i].referred == referred
  }

  function Process(b: Books, referrer: int, referred: int, amount: int, bonus: int, toEarnings: bool): Books {
    if Rewarded(b.rewards, referrer, referred) then b
    else
      var a, n := AtLeastZero(amount), AtLeastZero(bonus);
      var row := Reward(referrer, referred, a, n, if toEarnings then Available else Completed, None);
      var paid := if toEarnings then b.wallets else Deposit(b.wallets, referrer, a);
      Books(b.rewards + [row], b.payouts, Deposit(paid, referred, n))
  }

  /** The weight of a row in a user's withdrawable balance. */
  function AvailableTo(user: int): Reward -> int {
    (r: Reward) => if r.referrer == user && r.status == Available then r.amount else 0
  }

  predicate HasPending(payouts: seq<Payout>, user: int) {
    exists p :: 0 <= p < |payouts| && payouts[p].user == user && payouts[p].status == Pending
  }

  predicate CanCashOut(b: Books, user: int, way: Method, minAmount: int) {
    var total := SumBy(b.rewards, AvailableTo(user));
    && (way == Card ==> !HasPending(b.payouts, user))
    && total > 0
    && (way == Card ==> total >= minAmount)
  }

  function Moved(user: int, id: nat, way: Method): Reward -> Reward {
    (r: Reward) =>
      if r.referrer == user && r.status == Available then
        r.(status := if way == Card then Requested else Converted, payout := Some(id))
      else r
  }

  function MapRows(rewards: seq<Reward>, f: Reward -> Reward): (moved: seq<Reward>)
    ensures |moved| == |rewards| && forall i :: 0 <= i < |rewards| ==> moved[i] == f(rewards[i])
  {
    seq(|rewards|, i requires 0 <= i < |rewards| => f(rewards[i]))
  }

  function CashOut(b: Books, user: int, way: Method, minAmount: int): Books {
    if !CanCashOut(b, user, way, minAmount) then b
    else
      var total := SumBy(b.rewards, AvailableTo(user));
      Books(MapRows(b.rewards, Moved(user, |b.payouts|, way)),
            b.payouts + [Payout(user, total, way, if way == Card then Pending else PayoutCompleted)],
            if way == Wallet then Deposit(b.wallets, user, total) else b.wallets)
  }

  function Settled(id: nat, paid: bool): Reward -> Reward {
    (r: Reward) =>
      if r.payout == Some(id) && r.status == Requested then
        (if paid then r.(status := RewardPaid) else r.(status := Available, payout := None))
      else r
  }

  function Settle(b: Books, id: nat, paid: bool): Books {
    if id >= |b.payouts| || b.payouts[id].status != Pending then b
    else
      Books(MapRows(b.rewards, Settled(id, paid)),
            b.payouts[id := b.payouts[id].(status := if paid then PayoutPaid else Rejected)], b.wallets)
  }

  datatype Summary = Summary(available: int, requested: int, paid: int, converted: int)

  /** The weight of a row in one line of a user's summary. */
  function InStatus(user: int, status: RewardStatus): Reward -> int {
    (r: Reward) => if r.referrer == user && r.status == status then r.amount else 0
  }

  // ---- the transactions in full ---------------------------------------------------------------

  /** A cash-out moves exactly the user's available rows onto one new payout of their sum, if that is positive;
      a card payout also needs the minimum and no other pending payout of the user, a wallet payout is
      credited at once. */
  lemma CashOutMeans(b: Books, user: int, way: Method, minAmount: int)
    ensures var total := SumBy(b.rewards, (r: Reward) => if r.referrer == user && r.status == Available then r.amount else 0);
      && (CanCashOut(b, user, way, minAmount) <==>
            && total > 0
            && (way == Card ==>
                  && total >= minAmount
                  && forall p :: 0 <= p < |b.payouts| ==> b.payouts[p].user != user || b.payouts[p].status != Pending))
      && var c := CashOut(b, user, way, minAmount);
         if !CanCashOut(b, user, way, minAmount) then c == b
         else
           && c.payouts == b.payouts + [Payout(user, total, way, if way == Card then Pending else PayoutCompleted)]
           && c.wallets == (if way == Wallet && user in b.wallets then b.wallets[user := b.wallets[user] + total]
                            else b.wallets)
           && |c.rewards| == |b.rewards|
           && forall i :: 0 <= i < |c.rewards| ==> c.rewards[i] == CashedOut(b.rewards[i], user, way, |b.payouts|)
  {
    SumCongruent(b.rewards, AvailableTo(user), b.rewards, (r: Reward) =>
      if r.referrer == user && r.status == Available then r.amount else 0);
  }

  function CashedOut(row: Reward, user: int, way: Method, id: nat): Reward {
    if row.referrer != user || row.status != Available then row
    else
      Reward(row.referrer, row.referred, row.amount, row.bonus, if way == Card then Requested else Converted, Some(id))
  }

  /** Settling a pending payout pays the rows requested on it, or makes them available again. */
  lemma SettleMeans(b: Books, id: nat, paid: bool)
    ensures var c := Settle(b, id, paid);
      if id >= |b.payouts| || b.payouts[id].status != Pending then c == b
      else
        && c.payouts == b.payouts[id := b.payouts[id].(status := if paid then PayoutPaid else Rejected)]
        && c.wallets == b.wallets && |c.rewards| == |b.rewards|
        && forall i :: 0 <= i < |c.rewards| ==>
             var row := b.rewards[i];
             c.rewards[i] ==
               if row.payout == Some(id) && row.status == Requested then
                 Reward(row.referrer, row.referred, row.amount, row.bonus, if paid then RewardPaid else Available,
                        if paid then Some(id) else None)
               else row
  {
  }

  class ReferralBooks {
    var rewards: seq<Reward>
    var payouts: seq<Payout>
    var wallets: map<int, int>

    function State(): Books
      reads this
    {
      Books(rewards, payouts, wallets)
    }

    constructor (wallets: map<int, int>)
      ensures State() == Books([], [], wallets)
    {
      rewards, payouts, this.wallets := [], [], wallets;
    }

    /** process_referral_reward, once the settings are read and enabled. */
    method ProcessReferralReward(referrer: int, referred: int, amount: int, bonus: int, toEarnings: bool)
      returns (done: bool)
      modifies this
      ensures State() == Process(old(State()), referrer, referred, amount, bonus, toEarnings)
      ensures done <==> forall i :: 0 <= i < |old(rewards)| ==>
                old(rewards)[i].referrer != referrer || old(rewards)[i].referred != referred
      ensures !done ==> State() == old(State())
      ensures done ==>
                && payouts == old(payouts) && wallets.Keys == old(wallets).Keys
                && rewards == old(rewards) + [Reward(referrer, referred, if amount > 0 then amount else 0,
                                                    if bonus > 0 then bonus else 0,
                                                    if toEarnings then Available else Completed, None)]
                && forall u :: u in wallets ==>
                     wallets[u] == old(wallets)[u]
                       + (if !toEarnings && u == referrer && amount > 0 then amount else 0)
                       + (if u == referred && bonus > 0 then bonus else 0)
    {
      var reward := if amount > 0 then amount else 0;
      var extra := if bonus > 0 then bonus else 0;
      for i := 0 to |rewards|
        invariant State() == old(State())
        invariant forall j :: 0 <= j < i ==> rewards[j].referrer != referrer || rewards[j].referred != referred
      {
        if rewards[i].referrer == referrer && rewards[i].referred == referred {
          return false;
        }
      }
      rewards := rewards + [Reward(referrer, referred, reward, extra, if toEarnings then Available else Completed, None)];
      if reward != 0 && !toEarnings && referrer in wallets {
        wallets := wallets[referrer := wallets[referrer] + reward];
      }
      if extra != 0 && referred in wallets {
        wallets := wallets[referred := wallets[referred] + extra];
      }
      return true;
    }

    /** cash_out: the new payout's id, or None with the reason a refusal. */
    method CashOutEarnings(user: int, way: Method, minAmount: int) returns (id: Option<nat>)
      modifies this
      ensures State() == CashOut(old(State()), user, way, minAmount)
      ensures id == if CanCashOut(old(State()), user, way, minAmount) then Some(|old(payouts)|) else None
    {
      if way == Card && HasPending(payouts, user) {
        return None;
      }
      var total := 0;
      for i := 0 to |rewards|
        invariant State() == old(State())
        invariant total == SumBy(rewards[..i], AvailableTo(user))
      {
        TakeNext(rewards, i);
        SumAppend(rewards[..i], rewards[i], AvailableTo(user));
        if rewards[i].referrer == user && rewards[i].status == Available {
          total := total + rewards[i].amount;
        }
      }
      TakeAll(rewards);
      if total <= 0 || (way == Card && total < minAmount) {
        return None;
      }
      id := Some(|payouts|);
      payouts := payouts + [Payout(user, total, way, if way == Card then Pending else PayoutCompleted)];
      rewards := MapRows(rewards, Moved(user, id.value, way));
      if way == Wallet && user in wallets {
        wallets := wallets[user := wallets[user] + total];
      }
    }

    /** settle: an admin marks a pending payout paid, or rejects it. */
    method SettlePayout(id: nat, paid: bool) returns (done: bool)
      modifies this
      ensures State() == Settle(old(State()), id, paid)
      ensures done <==> id < |old(payouts)| && old(payouts)[id].status == Pending
    {
      if id >= |payouts| || payouts[id].status != Pending {
        return false;
      }
      rewards := MapRows(rewards, Settled(id, paid));
      payouts := payouts[id := payouts[id].(status := if paid then PayoutPaid else Rejected)];
      return true;
    }

    method EarningsSummary(user: int) returns (s: Summary)
      ensures s == SummaryOf(State(), user)
      ensures s.available == SumBy(rewards, (r: Reward) => if r.referrer == user && r.status == Available then r.amount else 0)
      ensures s.requested == SumBy(rewards, (r: Reward) => if r.referrer == user && r.status == Requested then r.amount else 0)
      ensures s.paid == SumBy(rewards, (r: Reward) => if r.referrer == user && r.status == RewardPaid then r.amount else 0)
      ensures s.converted == SumBy(rewards, (r: Reward) => if r.referrer == user && r.status == Converted then r.amount else 0)
    {
      s := Summary(0, 0, 0, 0);
      for i := 0 to |rewards|
        invariant s == SummaryOf(Books(rewards[..i], payouts, wallets), user)
      {
        TakeNext(rewards, i);
        var r := rewards[i];
        SumAppend(rewards[..i], r, InStatus(user, Available));
        SumAppend(rewards[..i], r, InStatus(user, Requested));
        SumAppend(rewards[..i], r, InStatus(user, RewardPaid));
        SumAppend(rewards[..i], r, InStatus(user, Converted));
        if r.referrer == user {
          match r.status
          case Available => s := s.(available := s.available + r.amount);
          case Requested => s := s.(requested := s.requested + r.amount);
          case RewardPaid => s := s.(paid := s.paid + r.amount);
          case Converted => s := s.(converted := s.converted + r.amount);
          case Completed =>
        }
      }
      TakeAll(rewards);
      SumCongruent(rewards, InStatus(user, Available), rewards, (r: Reward) =>
        if r.referrer == user && r.status == Available then r.amount else 0);
      SumCongruent(rewards, InStatus(user, Requested), rewards, (r: Reward) =>
        if r.referrer == user && r.status == Requested then r.amount else 0);
      SumCongruent(rewards, InStatus(user, RewardPaid), rewards, (r: Reward) =>
        if r.referrer == user && r.status == RewardPaid then r.amount else 0);
      SumCongruent(rewards, InStatus(user, Converted), rewards, (r: Reward) =>
        if r.referrer == user && r.status == Converted then r.amount else 0);
    }
  }

  function SummaryOf(b: Books, user: int): Summary {
    Summary(SumBy(b.rewards, InStatus(user, Available)), SumBy(b.rewards, InStatus(user, Requested)),
            SumBy(b.rewards, InStatus(user, RewardPaid)), SumBy(b.rewards, InStatus(user, Converted)))
  }

  // ---- what every transaction keeps -----------------------------------------------------------

  /** The weight of a row on a payout. */
  function OnPayout(id: nat): Reward -> int {
    (r: Reward) => if r.payout == Some(id) then r.amount else 0
  }

  /** A row's status is that of the payout it is on; rows on no payout are available or were paid
      straight to the wallet. */
  predicate RowFits(r: Reward, payouts: seq<Payout>) {
    && r.amount >= 0
    && match r.status
       case Completed => r.payout.None?
       case Available => r.payout.None?
       case Requested => On(r, payouts, Card, Pending)
       case RewardPaid => On(r, payouts, Card, PayoutPaid)
       case Converted => On(r, payouts, Wallet, PayoutCompleted)
  }

  predicate On(r: Reward, payouts: seq<Payout>, way: Method, status: PayoutStatus) {
    && r.payout.Some? && r.payout.value < |payouts|
    && payouts[r.payout.value].user == r.referrer
    && payouts[r.payout.value].way == way && payouts[r.payout.value].status == status
  }

  ghost predicate RowsFit(b: Books) {
    forall i :: 0 <= i < |b.rewards| ==> RowFits(b.rewards[i], b.payouts)
  }

  predicate PayoutFits(b: Books, p: nat)
    requires p < |b.payouts|
  {
    && (b.payouts[p].way == Wallet <==> b.payouts[p].status == PayoutCompleted)
    && SumBy(b.rewards, OnPayout(p)) == if b.payouts[p].status == Rejected then 0 else b.payouts[p].amount
  }

  ghost predicate PayoutsFit(b: Books) {
    forall p: nat :: p < |b.payouts| ==> PayoutFits(b, p)
  }

  ghost predicate OnePendingPerUser(payouts: seq<Payout>) {
    forall p, q :: 0 <= p < q < |payouts| && payouts[p].status == Pending && payouts[q].status == Pending
      ==> payouts[p].user != payouts[q].user
  }

  ghost predicate PairsUnique(rewards: seq<Reward>) {
    forall i, j :: 0 <= i < j < |rewards| ==>
      rewards[i].referrer != rewards[j].referrer || rewards[i].referred != rewards[j].referred
  }

  ghost predicate Inv(b: Books) {
    RowsFit(b) && PayoutsFit(b) && OnePendingPerUser(b.payouts) && PairsUnique(b.rewards)
  }

  datatype Event =
    | ProcessReward(referrer: int, referred: int, amount: int, bonus: int, toEarnings: bool)
    | CashOutBy(user: int, way: Method, minAmount: int)
    | SettleBy(id: nat, paid: bool)

  function Next(b: Books, e: Event): Books {
    match e
    case ProcessReward(referrer, referred, amount, bonus, toEarnings) =>
      Process(b, referrer, referred, amount, bonus, toEarnings)
    case CashOutBy(user, way, minAmount) => CashOut(b, user, way, minAmount)
    case SettleBy(id, paid) => Settle(b, id, paid)
  }

  function Run(b: Books, events: seq<Event>): Books {
    if events == [] then b else Next(Run(b, events[..|events| - 1]), events[|events| - 1])
  }

  lemma ProcessKeepsInv(b: Books, e: Event)
    requires Inv(b) && e.ProcessReward?
    ensures Inv(Next(b, e))
  {
    var c := Next(b, e);
    if !Rewarded(b.rewards, e.referrer, e.referred) {
      forall p: nat | p < |c.payouts| ensures PayoutFits(c, p) {
        assert PayoutFits(b, p);
        SumAppend(b.rewards, c.rewards[|b.rewards|], OnPayout(p));
      }
    }
  }

  lemma CashOutKeepsRows(b: Books, user: int, way: Method, minAmount: int)
    requires Inv(b) && CanCashOut(b, user, way, minAmount)
    ensures RowsFit(CashOut(b, user, way, minAmount))
  {
  }

  lemma CashOutKeepsPayouts(b: Books, user: int, way: Method, minAmount: int)
    requires Inv(b) && CanCashOut(b, user, way, minAmount)
    ensures PayoutsFit(CashOut(b, user, way, minAmount))
  {
    var c, id := CashOut(b, user, way, minAmount), |b.payouts|;
    forall p: nat | p < |c.payouts| ensures PayoutFits(c, p) {
      forall i | 0 <= i < |b.rewards|
        ensures OnPayout(p)(c.rewards[i]) ==
                if p == id then AvailableTo(user)(b.rewards[i]) else OnPayout(p)(b.rewards[i])
      {
        assert RowFits(b.rewards[i], b.payouts);
      }
      if p == id {
        SumCongruent(c.rewards, OnPayout(p), b.rewards, AvailableTo(user));
      } else {
        assert PayoutFits(b, p);
        SumCongruent(c.rewards, OnPayout(p), b.rewards, OnPayout(p));
      }
    }
  }

  lemma CashOutKeepsInv(b: Books, e: Event)
    requires Inv(b) && e.CashOutBy?
    ensures Inv(Next(b, e))
  {
    if CanCashOut(b, e.user, e.way, e.minAmount) {
      CashOutKeepsRows(b, e.user, e.way, e.minAmount);
      CashOutKeepsPayouts(b, e.user, e.way, e.minAmount);
      var c := Next(b, e);
      assert PairsUnique(c.rewards);
      assert OnePendingPerUser(c.payouts);
    }
  }

  lemma SettleKeepsInv(b: Books, e: Event)
    requires Inv(b) && e.SettleBy?
    ensures Inv(Next(b, e))
  {
    var c := Next(b, e);
    if e.id < |b.payouts| && b.payouts[e.id].status == Pending {
      assert PayoutFits(b, e.id);
      forall i | 0 <= i < |c.rewards| ensures RowFits(c.rewards[i], c.payouts) {
        assert RowFits(b.rewards[i], b.payouts);
      }
      forall p: nat | p < |c.payouts| ensures PayoutFits(c, p) {
        assert PayoutFits(b, p);
        forall i | 0 <= i < |b.rewards|
          ensures OnPayout(p)(c.rewards[i]) == if p == e.id && !e.paid then 0 else OnPayout(p)(b.rewards[i])
        {
          assert RowFits(b.rewards[i], b.payouts);
        }
        if p == e.id && !e.paid {
          ZeroSum(c.rewards, OnPayout(p));
        } else {
          SumCongruent(c.rewards, OnPayout(p), b.rewards, OnPayout(p));
        }
      }
    }
  }

  lemma InvStep(b: Books, e: Event)
    requires Inv(b)
    ensures Inv(Next(b, e))
  {
    match e
    case ProcessReward(_, _, _, _, _) => ProcessKeepsInv(b, e);
    case CashOutBy(_, _, _) => CashOutKeepsInv(b, e);
    case SettleBy(_, _) => SettleKeepsInv(b, e);
  }

  lemma {:induction false} InvThroughout(b: Books, events: seq<Event>)
    requires Inv(b)
    ensures Inv(Run(b, events))
  {
    if events != [] {
      InvThroughout(b, events[..|events| - 1]);
      InvStep(Run(b, events[..|events| - 1]), events[|events| - 1]);
    }
  }

  /** Main result, the tables: after any transactions, a payout that was not rejected is worth exactly
      the rows carrying its id and a rejected one carries none; a row is requested if and only if its
      payout is a pending card payout; and nobody has two pending payouts. */
  lemma PayoutsMatchTheirRows(wallets: map<int, int>, events: seq<Event>)
    ensures var b := Run(Books([], [], wallets), events);
            && (forall p: nat :: p < |b.payouts| ==>
                  SumBy(b.rewards, (r: Reward) => if r.payout == Some(p) then r.amount else 0)
                  == if b.payouts[p].status == Rejected then 0 else b.payouts[p].amount)
            && (forall i :: 0 <= i < |b.rewards| ==>
                  (b.rewards[i].status == Requested <==>
                     && b.rewards[i].payout.Some? && b.rewards[i].payout.value < |b.payouts|
                     && b.payouts[b.rewards[i].payout.value].user == b.rewards[i].referrer
                     && b.payouts[b.rewards[i].payout.value].way == Card
                     && b.payouts[b.rewards[i].payout.value].status == Pending))
            && (forall p, q :: 0 <= p < q < |b.payouts| && b.payouts[p].status == Pending && b.payouts[q].status == Pending
                  ==> b.payouts[p].user != b.payouts[q].user)
  {
    InvThroughout(Books([], [], wallets), events);
    var b := Run(Books([], [], wallets), events);
    forall p: nat | p < |b.payouts|
      ensures SumBy(b.rewards, (r: Reward) => if r.payout == Some(p) then r.amount else 0)
              == if b.payouts[p].status == Rejected then 0 else b.payouts[p].amount
    {
      assert PayoutFits(b, p);
      SumCongruent(b.rewards, OnPayout(p), b.rewards, (r: Reward) => if r.payout == Some(p) then r.amount else 0);
    }
    forall i | 0 <= i < |b.rewards|
      ensures b.rewards[i].status == Requested <==>
                && b.rewards[i].payout.Some? && b.rewards[i].payout.value < |b.payouts|
                && b.payouts[b.rewards[i].payout.value].user == b.rewards[i].referrer
                && b.payouts[b.rewards[i].payout.value].way == Card
                && b.payouts[b.rewards[i].payout.value].status == Pending
    {
      assert RowFits(b.rewards[i], b.payouts);
    }
  }

  // ---- money paid out stays paid out ----------------------------------------------------------

  predicate Final(r: Reward) {
    r.status == RewardPaid || r.status == Converted
  }

  /** Rows are never removed and keep who earned how much; final rows do not change at all. */
  ghost predicate RowsEvolve(b: Books, c: Books) {
    && |b.rewards| <= |c.rewards|
    && forall i :: 0 <= i < |b.rewards| ==>
         && c.rewards[i].referrer == b.rewards[i].referrer && c.rewards[i].referred == b.rewards[i].referred
         && c.rewards[i].amount == b.rewards[i].amount && c.rewards[i].bonus == b.rewards[i].bonus
         && (c.rewards[i].status == Completed <==> b.rewards[i].status == Completed)
         && (Final(b.rewards[i]) ==> c.rewards[i] == b.rewards[i])
  }

  lemma EvolveStep(b: Books, e: Event)
    ensures RowsEvolve(b, Next(b, e))
  {
  }

  lemma {:induction false} RowsEvolveThroughout(b: Books, events: seq<Event>)
    ensures RowsEvolve(b, Run(b, events))
  {
    if events != [] {
      RowsEvolveThroughout(b, events[..|events| - 1]);
      EvolveStep(Run(b, events[..|events| - 1]), events[|events| - 1]);
    }
  }

  /** Main result: whatever happens later, a row stays, keeps who earned how much, and once paid or converted
      does not change at all. */
  lemma FinalRowsNeverChange(b: Books, events: seq<Event>)
    ensures var c := Run(b, events);
      && |b.rewards| <= |c.rewards|
      && forall i :: 0 <= i < |b.rewards| ==>
           var row, now := b.rewards[i], c.rewards[i];
           && now.referrer == row.referrer && now.referred == row.referred
           && now.amount == row.amount && now.bonus == row.bonus
           && (row.status == Completed <==> now.status == Completed)
           && (row.status == RewardPaid || row.status == Converted ==> now == row)
  {
    RowsEvolveThroughout(b, events);
  }

  // ---- conservation ---------------------------------------------------------------------------

  /** What an event books as new earnings of `user`. */
  function Booked(b: Books, e: Event, user: int): int {
    if e.ProcessReward? && e.toEarnings && e.referrer == user && !Rewarded(b.rewards, e.referrer, e.referred)
    then (if e.amount > 0 then e.amount else 0) else 0
  }

  /** What an event adds to `user`'s wallet as new money: rewards paid straight to it and bonuses. */
  function Direct(b: Books, e: Event, user: int): int {
    if e.ProcessReward? && !Rewarded(b.rewards, e.referrer, e.referred) then
      (if !e.toEarnings && e.referrer == user && e.amount > 0 then e.amount else 0)
      + (if e.referred == user && e.bonus > 0 then e.bonus else 0)
    else 0
  }

  function TotalBooked(b: Books, events: seq<Event>, user: int): int {
    if events == [] then 0
    else
      var before := events[..|events| - 1];
      TotalBooked(b, before, user) + Booked(Run(b, before), events[|events| - 1], user)
  }

  function TotalDirect(b: Books, events: seq<Event>, user: int): int {
    if events == [] then 0
    else
      var before := events[..|events| - 1];
      TotalDirect(b, before, user) + Direct(Run(b, before), events[|events| - 1], user)
  }

  /** The weight of a row among the earnings of `user`, whatever became of them. */
  function Earned(user: int): Reward -> int {
    (r: Reward) => if r.referrer == user && r.status != Completed then r.amount else 0
  }

  lemma {:induction false} SummarySumsToEarned(rewards: seq<Reward>, user: int)
    ensures SumBy(rewards, Earned(user)) ==
            SumBy(rewards, InStatus(user, Available)) + SumBy(rewards, InStatus(user, Requested))
            + SumBy(rewards, InStatus(user, RewardPaid)) + SumBy(rewards, InStatus(user, Converted))
  {
    if rewards != [] {
      SummarySumsToEarned(rewards[..|rewards| - 1], user);
    }
  }

  lemma EarnedStep(b: Books, e: Event, user: int)
    ensures SumBy(Next(b, e).rewards, Earned(user)) == SumBy(b.rewards, Earned(user)) + Booked(b, e, user)
  {
    var c := Next(b, e);
    if e.ProcessReward? {
      if !Rewarded(b.rewards, e.referrer, e.referred) {
        SumAppend(b.rewards, c.rewards[|b.rewards|], Earned(user));
      }
    } else {
      EvolveStep(b, e);
      SumCongruent(c.rewards, Earned(user), b.rewards, Earned(user));
    }
  }

  /** Main result, the earnings: available + requested + paid + converted is everything ever booked. */
  lemma {:induction false} EarningsAreConserved(wallets: map<int, int>, events: seq<Event>, user: int)
    ensures var s := SummaryOf(Run(Books([], [], wallets), events), user);
            s.available + s.requested + s.paid + s.converted
            == TotalBooked(Books([], [], wallets), events, user)
  {
    var b := Books([], [], wallets);
    SummarySumsToEarned(Run(b, events).rewards, user);
    if events != [] {
      var before := events[..|events| - 1];
      EarningsAreConserved(wallets, before, user);
      SummarySumsToEarned(Run(b, before).rewards, user);
      EarnedStep(Run(b, before), events[|events| - 1], user);
    }
  }

  lemma ConvertedStep(b: Books, e: Event, user: int)
    ensures var c := Next(b, e);
            SumBy(c.rewards, InStatus(user, Converted)) == SumBy(b.rewards, InStatus(user, Converted))
            + if e.CashOutBy? && e.way == Wallet && e.user == user && CanCashOut(b, e.user, e.way, e.minAmount)
              then SumBy(b.rewards, AvailableTo(user)) else 0
  {
    var c := Next(b, e);
    if e.ProcessReward? {
      if !Rewarded(b.rewards, e.referrer, e.referred) {
        SumAppend(b.rewards, c.rewards[|b.rewards|], InStatus(user, Converted));
      }
    } else if e.CashOutBy? && CanCashOut(b, e.user, e.way, e.minAmount) && e.way == Wallet && e.user == user {
      SumSplitAcross(b.rewards, c.rewards, InStatus(user, Converted), AvailableTo(user));
    } else {
      SumCongruent(c.rewards, InStatus(user, Converted), b.rewards, InStatus(user, Converted));
    }
  }

  lemma {:induction false} SumSplitAcross(b: seq<Reward>, c: seq<Reward>, f: Reward -> int, g: Reward -> int)
    requires |b| == |c| && forall i :: 0 <= i < |b| ==> f(c[i]) == f(b[i]) + g(b[i])
    ensures SumBy(c, f) == SumBy(b, f) + SumBy(b, g)
  {
    if b != [] {
      SumSplitAcross(b[..|b| - 1], c[..|c| - 1], f, g);
    }
  }

  lemma WalletAfter(b: Books, e: Event, user: int)
    requires user in b.wallets
    ensures user in Next(b, e).wallets
    ensures Next(b, e).wallets[user] == b.wallets[user] + Direct(b, e, user)
      + if e.CashOutBy? && e.way == Wallet && e.user == user && CanCashOut(b, e.user, e.way, e.minAmount)
        then SumBy(b.rewards, AvailableTo(user)) else 0
  {
    match e
    case ProcessReward(_, _, _, _, _) =>
    case CashOutBy(_, _, _) =>
    case SettleBy(_, _) =>
  }

  /** What moves a wallet besides new money is a conversion, booked on the rows. */
  lemma WalletStep(b: Books, e: Event, user: int)
    requires user in b.wallets
    ensures user in Next(b, e).wallets
    ensures Next(b, e).wallets[user] - b.wallets[user] - Direct(b, e, user)
      == SumBy(Next(b, e).rewards, InStatus(user, Converted)) - SumBy(b.rewards, InStatus(user, Converted))
  {
    WalletAfter(b, e, user);
    ConvertedStep(b, e, user);
  }

  lemma RunAndDirectNext(b: Books, events: seq<Event>, user: int)
    requires events != []
    ensures var before, e := events[..|events| - 1], events[|events| - 1];
      && Run(b, events) == Next(Run(b, before), e)
      && TotalDirect(b, events, user) == TotalDirect(b, before, user) + Direct(Run(b, before), e, user)
  {
  }

  /** Main result, the wallets: conversions credited to a wallet are exactly its converted rows. */
  lemma {:induction false} WalletsMatchConversions(wallets: map<int, int>, events: seq<Event>, user: int)
    requires user in wallets
    ensures var b := Run(Books([], [], wallets), events);
            && user in b.wallets
            && b.wallets[user] - wallets[user] - TotalDirect(Books([], [], wallets), events, user)
            == SummaryOf(b, user).converted
  {
    if events != [] {
      var b0, before, e := Books([], [], wallets), events[..|events| - 1], events[|events| - 1];
      WalletsMatchConversions(wallets, before, user);
      RunAndDirectNext(b0, events, user);
      WalletStep(Run(b0, before), e, user);
    }
  }
}

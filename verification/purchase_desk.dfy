// confirm_purchase and the transactions it is made of, as methods on the shop's tables. The method is
// proved to be a run of the saga in purchase_saga.dfy, whatever others do at each await.
module PurchaseDesks {
  import opened Common
  import opened PurchaseSaga

  predicate Belongs(e: Event, id: nat) {
    Subject(e) == Some(id)
  }

  /** The events of purchase `id`: all but those that begin one or pay into a wallet. */
  lemma BelongsMeans(e: Event, id: nat)
    ensures Belongs(e, id) <==> !e.Begin? && !e.Receive? && e.id == id
  {
  }

  lemma OtherKeepsPurchase(s: Shop, e: Event, id: nat)
    requires id < |s.purchases| && !Belongs(e, id)
    ensures id < |Next(s, e).purchases| && Next(s, e).purchases[id] == s.purchases[id]
  {
  }

  lemma {:induction false} OthersKeepPurchase(s: Shop, events: seq<Event>, id: nat)
    requires id < |s.purchases| && forall e :: e in events ==> !Belongs(e, id)
    ensures id < |Run(s, events).purchases| && Run(s, events).purchases[id] == s.purchases[id]
  {
    if events != [] {
      var before, last := events[..|events| - 1], events[|events| - 1];
      assert last in events && forall e :: e in before ==> e in events;
      OthersKeepPurchase(s, before, id);
      OtherKeepsPurchase(Run(s, before), last, id);
    }
  }

  // ---- what one call does, move by move -------------------------------------------------------

  /** The arguments of one call. `panelOk` and `storeOk` are the outcomes of the panel call and of storing
      the service, `claimAt` the clock when the code is claimed, `others(k)` what happens after the
      purchase's own k-th transaction, from 0. */
  datatype Request = Request(
    user: int, base: int, code: Option<string>, now: int, claimAt: int, panelOk: bool, storeOk: bool,
    others: nat -> seq<Event>)
  {
    function Opening(): Event {
      Begin(user, base, code, now)
    }

    ghost predicate OthersAreOthers(id: nat) {
      forall k, e :: e in others(k) ==> !Belongs(e, id)
    }
  }

  function Balance(s: Shop, user: int): int {
    if user in s.wallets then s.wallets[user] else 0
  }

  /** The one transaction purchase `id` may make next. */
  function StepOf(s: Shop, id: nat, r: Request): Option<Event>
    requires id < |s.purchases|
  {
    var p := s.purchases[id];
    match p.stage
    case Priced => Some(if Balance(s, p.user) < p.price || !r.panelOk then Abandon(id) else PanelUserAdded(id))
    case Claiming => Some(ClaimUse(id, r.claimAt))
    case Debiting => Some(Debit(id))
    case Storing => Some(Store(id, r.storeOk))
    case Refunding => Some(Refund(id))
    case Releasing => Some(ReleaseUse(id))
    case Done => None
    case Failed => None
  }

  predicate CalledFor(s: Shop, id: nat, r: Request, e: Event) {
    id < |s.purchases| && StepOf(s, id, r) == Some(e)
  }

  /** The shop right after the purchase's transactions `own`. Before each of them but the first, and nowhere
      else, it lets the others make their next moves. */
  function Reached(s0: Shop, own: seq<Event>, r: Request): Shop {
    Run(s0, Woven(own, r.others))
  }

  /** The shop once the others have made their moves after `own`. */
  function Awaited(s0: Shop, own: seq<Event>, r: Request): Shop
    requires own != []
  {
    Run(s0, Woven(own, r.others) + r.others(|own| - 1))
  }

  /** The first transaction opens the purchase with the call's arguments, and each later one is what its
      stage calls for in the shop it finds. */
  predicate Follows(s0: Shop, own: seq<Event>, id: nat, r: Request) {
    if |own| <= 1 then own == [r.Opening()]
    else
      var before, last := own[..|own| - 1], own[|own| - 1];
      Follows(s0, before, id, r) && CalledFor(Awaited(s0, before, r), id, r, last)
  }

  /** Every transaction of a call, one by one. */
  lemma {:induction false} FollowsAt(s0: Shop, own: seq<Event>, id: nat, r: Request, k: nat)
    requires Follows(s0, own, id, r) && k < |own|
    ensures own[0] == Begin(r.user, r.base, r.code, r.now)
    ensures k > 0 ==>
      var s := Awaited(s0, own[..k], r);
      id < |s.purchases| && StepOf(s, id, r) == Some(own[k])
  {
    if |own| > 1 {
      var before := own[..|own| - 1];
      if k < |before| {
        FollowsAt(s0, before, id, r, k);
        assert before[..k] == own[..k];
      } else {
        FollowsAt(s0, before, id, r, 0);
      }
    }
  }

  lemma FollowsOne(s0: Shop, id: nat, r: Request)
    ensures Follows(s0, [r.Opening()], id, r)
    ensures Reached(s0, [r.Opening()], r) == Next(s0, r.Opening())
  {
    var own := [r.Opening()];
    assert Woven(own, r.others) == own && own[..0] == [];
    assert Run(s0, own) == Next(Run(s0, []), own[0]);
  }

  /** One more transaction of the purchase. */
  lemma FollowsStep(s0: Shop, own: seq<Event>, id: nat, r: Request, e: Event)
    requires own != [] && Follows(s0, own, id, r) && CalledFor(Awaited(s0, own, r), id, r, e)
    ensures Follows(s0, own + [e], id, r)
    ensures Reached(s0, own + [e], r) == Next(Awaited(s0, own, r), e)
  {
    WovenNext(own, r.others, e);
    var trace := Woven(own, r.others) + r.others(|own| - 1);
    assert (trace + [e])[..|trace|] == trace;
    assert (own + [e])[..|own|] == own;
  }

  lemma AwaitedFromReached(s0: Shop, own: seq<Event>, r: Request)
    requires own != []
    ensures Awaited(s0, own, r) == Run(Reached(s0, own, r), r.others(|own| - 1))
  {
    RunConcat(s0, Woven(own, r.others), r.others(|own| - 1));
  }

  /** The code can be claimed and the price debited in `s`. */
  predicate Payable(s: Shop, p: Purchase, claimAt: int) {
    && p.user in s.wallets && 0 <= p.price <= s.wallets[p.user]
    && (p.code.Some? ==> Claim(s.codes, p.code.value, p.user, claimAt).Some?)
  }

  /** The price can be taken from the buyer's wallet. */
  predicate Debitable(wallets: map<int, int>, p: Purchase) {
    p.price >= 0 && UpdateMoney(wallets, p.user, -p.price, false).Some?
  }

  /** The purchase a call registers: as priced, or refused at once. */
  function Registered(s: Shop, r: Request): Purchase {
    var p := PricedPurchase(s, r.user, r.base, r.code, r.now);
    if p.Some? then p.value else Purchase(r.user, None, r.base, Failed)
  }

  /** With nobody else moving, the purchase succeeds exactly when its code is accepted and claimable, its
      wallet covers its price, and the panel and the store succeed. */
  predicate WouldSucceed(s: Shop, r: Request) {
    var p := Registered(s, r);
    p.stage == Priced && r.panelOk && r.storeOk && Payable(s, p, r.claimAt)
  }

  ghost predicate Undisturbed(r: Request) {
    forall k :: r.others(k) == []
  }

  /** The code a buyer named may be used: not past a set expiry date, under its limit, and public or his. */
  predicate Accepted(c: Code, user: int, now: int) {
    && (c.expires == None || c.expires == Some(0) || now <= c.expires.value)
    && c.usageLimit != None && c.timesUsed < c.usageLimit.value
    && (c.isPublic || c.owner == Some(user))
  }

  /** What a call registers, from the codes stored: without a code the plan's price, with an accepted one the
      least whole price that covers the code's own percentage off it, with any other a refusal. */
  lemma RegisteredPrice(s: Shop, r: Request)
    ensures r.code == None || r.code == Some("") ==> Registered(s, r) == Purchase(r.user, None, r.base, Priced)
    ensures r.code.Some? && r.code.value != "" ==>
      var p, accepted := Registered(s, r), r.code.value in s.codes && Accepted(s.codes[r.code.value], r.user, r.now);
      && p.user == r.user
      && (p.stage == Priced <==> accepted) && (p.stage == Failed <==> !accepted)
      && (accepted ==>
            var left := 100 - s.codes[r.code.value].percent;
            && p.code == r.code && 0 <= p.price && r.base * left <= 100 * p.price
            && (p.price > 0 ==> 100 * (p.price - 1) < r.base * left))
  {
    if r.code.Some? && r.code.value in s.codes {
      FinalPriceRoundsUp(r.base, s.codes[r.code.value].percent);
    }
  }

  /** What it takes for an undisturbed purchase to succeed, besides the panel and the store: the wallet covers
      the price, and a named code still has a use left and has not run out when it is claimed. */
  lemma PayableMeans(s: Shop, p: Purchase, claimAt: int)
    ensures Payable(s, p, claimAt) <==>
      && p.user in s.wallets && 0 <= p.price && p.price <= s.wallets[p.user]
      && (p.code.Some? ==>
            && p.code.value in s.codes
            && var c := s.codes[p.code.value];
               && (c.usageLimit == None || c.timesUsed < c.usageLimit.value)
               && (c.expires == None || claimAt <= c.expires.value)
               && (c.isPublic || c.owner == Some(p.user)))
  {
  }

  class PurchaseDesk {
    var codes: map<string, Code>
    var wallets: map<int, int>
    var purchases: seq<Purchase>
    var gifts: seq<Gift>

    function State(): Shop
      reads this
    {
      Shop(codes, wallets, purchases, gifts)
    }

    constructor (codes: map<string, Code>, wallets: map<int, int>)
      ensures State() == Shop(codes, wallets, [], [])
    {
      this.codes, this.wallets, purchases, gifts := codes, wallets, [], [];
    }

    /** claim_discount_use: the checks run inside the UPDATE. */
    method ClaimDiscountUse(code: string, user: int, now: int) returns (claimed: bool)
      modifies this`codes
      ensures claimed <==> Claim(old(codes), code, user, now).Some?
      ensures claimed <==>
                && code in old(codes)
                && var c := old(codes)[code];
                   && (c.usageLimit == None || c.timesUsed < c.usageLimit.value)
                   && (c.expires == None || now <= c.expires.value)
                   && (c.isPublic || c.owner == Some(user))
      ensures codes == if claimed then Claim(old(codes), code, user, now).value else old(codes)
      ensures claimed ==> codes == old(codes)[code := old(codes)[code].(timesUsed := old(codes)[code].timesUsed + 1)]
    {
      if code !in codes {
        return false;
      }
      var c := codes[code];
      var underLimit := c.usageLimit.None? || c.timesUsed < c.usageLimit.value;
      var current := c.expires.None? || c.expires.value >= now;
      claimed := underLimit && current && (c.isPublic || c.owner == Some(user));
      if claimed {
        codes := codes[code := c.(timesUsed := c.timesUsed + 1)];
      }
    }

    /** release_discount_use. */
    method ReleaseDiscountUse(code: string)
      modifies this`codes
      ensures codes == Release(old(codes), code)
      ensures codes ==
                if code in old(codes) && old(codes)[code].timesUsed >= 1 then
                  old(codes)[code := old(codes)[code].(timesUsed := old(codes)[code].timesUsed - 1)]
                else old(codes)
    {
      if code in codes && codes[code].timesUsed > 0 {
        codes := codes[code := codes[code].(timesUsed := codes[code].timesUsed - 1)];
      }
    }

    /** update_Money: the new balance, or None with nothing written. */
    method UpdateUserMoney(user: int, money: int, allowNegative: bool) returns (balance: Option<int>)
      modifies this`wallets
      ensures balance.Some? <==> UpdateMoney(old(wallets), user, money, allowNegative).Some?
      ensures balance.Some? <==> user in old(wallets) && (allowNegative || old(wallets)[user] + money >= 0)
      ensures balance.None? ==> wallets == old(wallets)
      ensures balance.Some? ==> wallets == old(wallets)[user := old(wallets)[user] + money]
      ensures balance.Some? ==>
                && wallets == UpdateMoney(old(wallets), user, money, allowNegative).value
                && balance.value == wallets[user] && (!allowNegative ==> balance.value >= 0)
    {
      if user !in wallets {
        return None;
      }
      var newBalance := wallets[user] + money;
      if !allowNegative && newBalance < 0 {
        return None;
      }
      wallets := wallets[user := newBalance];
      balance := Some(newBalance);
    }

    /** Purchase `id` has made the transactions `own`, each after one await. */
    ghost predicate Stands(s0: Shop, own: seq<Event>, id: nat, r: Request)
      reads this
    {
      own != [] && id < |purchases| && Follows(s0, own, id, r) && State() == Reached(s0, own, r)
    }

    /** And the others have moved since. */
    ghost predicate Wakes(s0: Shop, own: seq<Event>, id: nat, r: Request)
      reads this
    {
      own != [] && id < |purchases| && Follows(s0, own, id, r) && State() == Awaited(s0, own, r)
    }

    /** The rest of the shop moves while purchase `id` awaits. */
    method Others(ghost s0: Shop, ghost own: seq<Event>, id: nat, r: Request, k: nat)
      requires Stands(s0, own, id, r) && k == |own| - 1 && r.OthersAreOthers(id)
      modifies this
      ensures Wakes(s0, own, id, r) && purchases[id] == old(purchases[id])
      ensures r.others(k) == [] ==> State() == old(State())
    {
      OthersKeepPurchase(State(), r.others(k), id);
      AwaitedFromReached(s0, own, r);
      var s := Run(State(), r.others(k));
      codes, wallets, purchases, gifts := s.codes, s.wallets, s.purchases, s.gifts;
    }

    method SetStage(id: nat, stage: Stage)
      requires id < |purchases|
      modifies this`purchases
      ensures State() == Enter(old(State()), id, stage)
    {
      purchases := purchases[id := purchases[id].(stage := stage)];
    }

    method ClaimIfCoded(ghost s0: Shop, ghost own: seq<Event>, id: nat, r: Request)
      returns (ok: bool, ghost longer: seq<Event>)
      requires Wakes(s0, own, id, r)
      requires At(State(), id, Claiming) && purchases[id].code.Some?
      modifies this`codes, this`purchases
      ensures longer == own + [ClaimUse(id, r.claimAt)] && Stands(s0, longer, id, r)
      ensures ok <==> Claim(old(codes), old(purchases[id].code.value), old(purchases[id].user), r.claimAt).Some?
      ensures purchases[id] == old(purchases[id]).(stage := if ok then Debiting else Failed)
    {
      ghost var before := State();
      FollowsStep(s0, own, id, r, ClaimUse(id, r.claimAt));
      var p := purchases[id];
      ok := ClaimDiscountUse(p.code.value, p.user, r.claimAt);
      SetStage(id, if ok then Debiting else Failed);
      assert State() == Next(before, ClaimUse(id, r.claimAt));
      longer := own + [ClaimUse(id, r.claimAt)];
    }

    /** The debit and the stage it leads to; `raised` says that a negative price was refused with an exception. */
    method TakePrice(id: nat) returns (ok: bool, raised: bool)
      requires id < |purchases|
      modifies this`wallets, this`purchases
      ensures State() == DebitStep(old(State()), id)
      ensures raised <==> old(purchases[id].price) < 0
      ensures ok <==> Debitable(old(wallets), old(purchases[id]))
      ensures purchases[id] == old(purchases[id]).(stage :=
                if ok then Storing else if raised then Failed else Undo(old(purchases[id])))
    {
      var p := purchases[id];
      ok, raised := false, p.price < 0;
      if raised {
        SetStage(id, Failed);
      } else {
        var balance := UpdateUserMoney(p.user, -p.price, false);
        ok := balance.Some?;
        SetStage(id, if ok then Storing else Undo(p));
      }
    }

    method DebitPrice(ghost s0: Shop, ghost own: seq<Event>, id: nat, ghost r: Request)
      returns (ok: bool, raised: bool, ghost longer: seq<Event>)
      requires Wakes(s0, own, id, r) && At(State(), id, Debiting)
      modifies this`wallets, this`purchases
      ensures longer == own + [Debit(id)] && Stands(s0, longer, id, r)
      ensures raised <==> old(purchases[id].price) < 0
      ensures ok <==> Debitable(old(wallets), old(purchases[id]))
      ensures purchases[id] == old(purchases[id]).(stage :=
                if ok then Storing else if raised then Failed else Undo(old(purchases[id])))
    {
      FollowsStep(s0, own, id, r, Debit(id));
      ok, raised := TakePrice(id);
      longer := own + [Debit(id)];
    }

    method RefundPrice(ghost s0: Shop, ghost own: seq<Event>, id: nat, ghost r: Request)
      returns (ghost longer: seq<Event>)
      requires Wakes(s0, own, id, r) && At(State(), id, Refunding)
      modifies this`wallets, this`purchases
      ensures longer == own + [Refund(id)] && Stands(s0, longer, id, r)
      ensures purchases[id] == old(purchases[id]).(stage := Undo(old(purchases[id])))
    {
      ghost var before := State();
      FollowsStep(s0, own, id, r, Refund(id));
      var p := purchases[id];
      var balance := UpdateUserMoney(p.user, p.price, true);
      SetStage(id, Undo(p));
      assert State() == Next(before, Refund(id));
      longer := own + [Refund(id)];
    }

    method ReleaseUseOf(ghost s0: Shop, ghost own: seq<Event>, id: nat, ghost r: Request)
      returns (ghost longer: seq<Event>)
      requires Wakes(s0, own, id, r) && At(State(), id, Releasing) && purchases[id].code.Some?
      modifies this`codes, this`purchases
      ensures longer == own + [ReleaseUse(id)] && Stands(s0, longer, id, r)
      ensures purchases[id] == old(purchases[id]).(stage := Failed)
    {
      ghost var before := State();
      FollowsStep(s0, own, id, r, ReleaseUse(id));
      ReleaseDiscountUse(purchases[id].code.value);
      SetStage(id, Failed);
      assert State() == Next(before, ReleaseUse(id));
      longer := own + [ReleaseUse(id)];
    }

    /** The last compensation: a claimed use is given back. */
    method ReleaseIfCoded(ghost s0: Shop, ghost own: seq<Event>, id: nat, r: Request, k: nat)
      returns (ghost longer: seq<Event>)
      requires Stands(s0, own, id, r) && k == |own| - 1 && r.OthersAreOthers(id)
      requires purchases[id].stage == Undo(purchases[id])
      modifies this
      ensures Stands(s0, longer, id, r) && purchases[id] == old(purchases[id]).(stage := Failed)
    {
      longer := own;
      if purchases[id].code.Some? {
        Others(s0, own, id, r, k);
        longer := ReleaseUseOf(s0, own, id, r);
      }
    }

    /** Check the balance and have the panel user added; no table changes but the purchase's own stage. */
    method AddPanelUser(ghost s0: Shop, ghost own: seq<Event>, id: nat, r: Request)
      returns (ok: bool, ghost longer: seq<Event>)
      requires Wakes(s0, own, id, r) && At(State(), id, Priced)
      modifies this`purchases
      ensures |longer| == |own| + 1 && Stands(s0, longer, id, r)
      ensures ok <==> r.panelOk && Balance(old(State()), old(purchases[id].user)) >= old(purchases[id].price)
      ensures purchases[id] == old(purchases[id]).(stage :=
                if !ok then Failed else if old(purchases[id]).code.Some? then Claiming else Debiting)
    {
      var p := purchases[id];
      var balance := if p.user in wallets then wallets[p.user] else 0;
      ok := balance >= p.price && r.panelOk;
      ghost var e := if ok then PanelUserAdded(id) else Abandon(id);
      ghost var before := State();
      FollowsStep(s0, own, id, r, e);
      SetStage(id, if !ok then Failed else if p.code.Some? then Claiming else Debiting);
      assert State() == Next(before, e);
      longer := own + [e];
    }

    method StoreService(ghost s0: Shop, ghost own: seq<Event>, id: nat, r: Request)
      returns (ghost longer: seq<Event>)
      requires Wakes(s0, own, id, r) && At(State(), id, Storing)
      modifies this`purchases
      ensures longer == own + [Store(id, r.storeOk)] && Stands(s0, longer, id, r)
      ensures purchases[id] == old(purchases[id]).(stage := if r.storeOk then Done else Refunding)
    {
      ghost var before := State();
      FollowsStep(s0, own, id, r, Store(id, r.storeOk));
      SetStage(id, if r.storeOk then Done else Refunding);
      assert State() == Next(before, Store(id, r.storeOk));
      longer := own + [Store(id, r.storeOk)];
    }

    /** The price, or a refused code, which ends the purchase at once. */
    method PriceAndRegister(r: Request) returns (ghost own: seq<Event>)
      modifies this`purchases
      ensures own == [r.Opening()] && Stands(old(State()), own, |old(purchases)|, r)
      ensures purchases == old(purchases) + [Registered(old(State()), r)]
    {
      FollowsOne(State(), |purchases|, r);
      var priced := PricedPurchase(State(), r.user, r.base, r.code, r.now);
      purchases := purchases + [if priced.Some? then priced.value else Purchase(r.user, None, r.base, Failed)];
      own := [r.Opening()];
    }

    /** confirm_purchase. `own` are the purchase's transactions: it opens with the call's arguments, makes
        only what its stage calls for, and lets the others move exactly once before each of them. It ends
        done, or failed with everything undone. */
    method ConfirmPurchase(r: Request) returns (ok: bool, id: nat, ghost own: seq<Event>)
      requires r.OthersAreOthers(|purchases|)
      modifies this
      ensures id == |old(purchases)| && id < |purchases|
      ensures Follows(old(State()), own, id, r) && State() == Run(old(State()), Woven(own, r.others))
      ensures purchases[id] == Registered(old(State()), r).(stage := if ok then Done else Failed)
      ensures ok ==> r.panelOk && r.storeOk && Registered(old(State()), r).stage == Priced
      ensures Undisturbed(r) ==> (ok <==> WouldSucceed(old(State()), r))
    {
      ghost var s0 := State();
      id, ok := |purchases|, false;
      own := PriceAndRegister(r);
      if purchases[id].stage != Failed {
        ok, own := BuyPriced(s0, own, id, r);
      }
    }

    /** A priced purchase: have the panel user added, then claim, charge and store. */
    method BuyPriced(ghost s0: Shop, ghost own: seq<Event>, id: nat, r: Request)
      returns (ok: bool, ghost longer: seq<Event>)
      requires Stands(s0, own, id, r) && |own| == 1 && r.OthersAreOthers(id)
      requires At(State(), id, Priced)
      modifies this
      ensures Stands(s0, longer, id, r)
      ensures purchases[id] == old(purchases[id]).(stage := if ok then Done else Failed)
      ensures ok ==> r.panelOk && r.storeOk
      ensures Undisturbed(r) ==>
                (ok <==> r.panelOk && r.storeOk && Payable(old(State()), old(purchases[id]), r.claimAt))
    {
      Others(s0, own, id, r, 0);
      ok, longer := AddPanelUser(s0, own, id, r);
      if ok {
        ok, longer := ClaimAndCharge(s0, longer, id, r);
      }
    }

    /** Once the panel user exists: claim the code if there is one, then charge and store. */
    method ClaimAndCharge(ghost s0: Shop, ghost own: seq<Event>, id: nat, r: Request)
      returns (ok: bool, ghost longer: seq<Event>)
      requires Stands(s0, own, id, r) && |own| == 2 && r.OthersAreOthers(id)
      requires purchases[id].stage == if purchases[id].code.Some? then Claiming else Debiting
      modifies this
      ensures Stands(s0, longer, id, r)
      ensures purchases[id] == old(purchases[id]).(stage := if ok then Done else Failed)
      ensures ok ==> r.storeOk
      ensures Undisturbed(r) ==> (ok <==> r.storeOk && Payable(old(State()), old(purchases[id]), r.claimAt))
    {
      if purchases[id].code.None? {
        ok, longer := ChargeAndStore(s0, own, id, r, 1);
        return;
      }
      Others(s0, own, id, r, 1);
      ok, longer := ClaimIfCoded(s0, own, id, r);
      if ok {
        ok, longer := ChargeAndStore(s0, longer, id, r, 2);
      }
    }

    /** Let the others move, then debit. */
    method Charge(ghost s0: Shop, ghost own: seq<Event>, id: nat, r: Request, k: nat)
      returns (ok: bool, raised: bool, ghost longer: seq<Event>)
      requires Stands(s0, own, id, r) && k == |own| - 1
      requires At(State(), id, Debiting) && r.OthersAreOthers(id)
      modifies this
      ensures Stands(s0, longer, id, r) && |longer| == |own| + 1
      ensures purchases[id] == old(purchases[id]).(stage :=
                if ok then Storing else if raised then Failed else Undo(old(purchases[id])))
      ensures r.others(k) == [] ==> (ok <==> Debitable(old(wallets), old(purchases[id])))
    {
      Others(s0, own, id, r, k);
      ok, raised, longer := DebitPrice(s0, own, id, r);
    }

    /** The second half: debit, store the service, and undo in reverse order when it fails. */
    method ChargeAndStore(ghost s0: Shop, ghost own: seq<Event>, id: nat, r: Request, k: nat)
      returns (ok: bool, ghost longer: seq<Event>)
      requires Stands(s0, own, id, r) && k == |own| - 1
      requires At(State(), id, Debiting) && r.OthersAreOthers(id)
      modifies this
      ensures Stands(s0, longer, id, r)
      ensures purchases[id] == old(purchases[id]).(stage := if ok then Done else Failed)
      ensures ok ==> r.storeOk
      ensures r.others(k) == [] ==> (ok <==> r.storeOk && Debitable(old(wallets), old(purchases[id])))
    {
      var raised;
      ok, raised, longer := Charge(s0, own, id, r, k);
      if ok {
        ok, longer := StoreOrUndo(s0, longer, id, r, k + 1);
      } else if !raised {
        longer := ReleaseIfCoded(s0, longer, id, r, k + 1);
      }
    }

    /** A debited purchase: store the service, or refund and give the use back. */
    method StoreOrUndo(ghost s0: Shop, ghost own: seq<Event>, id: nat, r: Request, k: nat)
      returns (ok: bool, ghost longer: seq<Event>)
      requires Stands(s0, own, id, r) && k == |own| - 1
      requires At(State(), id, Storing) && r.OthersAreOthers(id)
      modifies this
      ensures Stands(s0, longer, id, r)
      ensures ok <==> r.storeOk
      ensures purchases[id] == old(purchases[id]).(stage := if ok then Done else Failed)
    {
      Others(s0, own, id, r, k);
      longer := StoreService(s0, own, id, r);
      ok := r.storeOk;
      if !ok {
        longer := Compensate(s0, longer, id, r, k + 1);
      }
    }

    /** Let the others move, then refund. */
    method PayBack(ghost s0: Shop, ghost own: seq<Event>, id: nat, r: Request, k: nat)
      returns (ghost longer: seq<Event>)
      requires Stands(s0, own, id, r) && k == |own| - 1
      requires At(State(), id, Refunding) && r.OthersAreOthers(id)
      modifies this
      ensures Stands(s0, longer, id, r) && |longer| == |own| + 1
      ensures purchases[id] == old(purchases[id]).(stage := Undo(old(purchases[id])))
    {
      Others(s0, own, id, r, k);
      longer := RefundPrice(s0, own, id, r);
    }

    /** The service could not be stored: refund, then give the use back. */
    method Compensate(ghost s0: Shop, ghost own: seq<Event>, id: nat, r: Request, k: nat)
      returns (ghost longer: seq<Event>)
      requires Stands(s0, own, id, r) && k == |own| - 1
      requires At(State(), id, Refunding) && r.OthersAreOthers(id)
      modifies this
      ensures Stands(s0, longer, id, r)
      ensures purchases[id] == old(purchases[id]).(stage := Failed)
    {
      longer := PayBack(s0, own, id, r, k);
      longer := ReleaseIfCoded(s0, longer, id, r, k + 1);
    }
  }
}

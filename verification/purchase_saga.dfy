// The web-app purchase (app/services/webapp_purchase.py): claim a discount use, debit the wallet, store
// the service, and compensate in reverse order on failure. Every event is one transaction, and the
// transactions of any number of purchases interleave.
module PurchaseSaga {
  import opened Common

  /** A discount code; percent is its discount. */
  datatype Code = Code(
    timesUsed: int, usageLimit: Option<int>, expires: Option<int>, isPublic: bool, owner: Option<int>, percent: int)

  /** How far a purchase got. The stages from Debiting on hold a claimed use when there is a code. */
  datatype Stage = Priced | Claiming | Debiting | Storing | Refunding | Releasing | Done | Failed

  datatype Purchase = Purchase(user: int, code: Option<string>, price: int, stage: Stage)

  datatype Gift = Gift(user: int, amount: nat)

  /** Purchases are numbered in the order they began; `gifts` logs what others paid into wallets. */
  datatype Shop = Shop(codes: map<string, Code>, wallets: map<int, int>, purchases: seq<Purchase>, gifts: seq<Gift>)

  // ---- prices -------------------------------------------------------------------------------

  function FinalPrice(base: int, percent: int): int {
    var price := base - base * percent / 100;
    if price > 0 then price else 0
  }

  /** For any base and percentage the price is the least whole amount, and at least 0, that covers the
      exact discounted price; a real discount never raises it. */
  lemma FinalPriceRoundsUp(base: int, percent: int)
    ensures var price := FinalPrice(base, percent);
            && 0 <= price && base * (100 - percent) <= 100 * price
            && (price > 0 ==> 100 * (price - 1) < base * (100 - percent))
            && (base >= 0 && percent >= 0 ==> price <= base)
  {
  }

  /** validate_discount_code: a NULL limit makes the comparison fail, and the code is refused. */
  predicate Usable(c: Code, user: int, now: int) {
    && !(c.expires.Some? && c.expires.value != 0 && c.expires.value < now)
    && c.usageLimit.Some? && c.timesUsed < c.usageLimit.value
    && (c.isPublic || c.owner == Some(user))
  }

  /** The WHERE clause of claim_discount_use. */
  predicate Claimable(c: Code, user: int, now: int) {
    && (c.usageLimit.None? || c.timesUsed < c.usageLimit.value)
    && (c.expires.None? || c.expires.value >= now)
    && (c.isPublic || c.owner == Some(user))
  }

  // ---- the transactions ---------------------------------------------------------------------

  function AddUses(codes: map<string, Code>, code: string, uses: int): map<string, Code>
    requires code in codes
  {
    codes[code := codes[code].(timesUsed := codes[code].timesUsed + uses)]
  }

  function Claim(codes: map<string, Code>, code: string, user: int, now: int): Option<map<string, Code>> {
    if code in codes && Claimable(codes[code], user, now) then Some(AddUses(codes, code, 1)) else None
  }

  function Release(codes: map<string, Code>, code: string): map<string, Code> {
    if code in codes && codes[code].timesUsed > 0 then AddUses(codes, code, -1) else codes
  }

  function UpdateMoney(wallets: map<int, int>, user: int, money: int, allowNegative: bool): Option<map<int, int>> {
    if user in wallets && (allowNegative || wallets[user] + money >= 0)
    then Some(wallets[user := wallets[user] + money]) else None
  }

  datatype Event =
    | Begin(user: int, base: int, code: Option<string>, now: int)
    | Abandon(id: nat)
    | PanelUserAdded(id: nat)
    | ClaimUse(id: nat, now: int)
    | Debit(id: nat)
    | Store(id: nat, ok: bool)
    | Refund(id: nat)
    | ReleaseUse(id: nat)
    | Receive(user: int, amount: nat)

  predicate At(s: Shop, id: nat, stage: Stage) {
    id < |s.purchases| && s.purchases[id].stage == stage
  }

  function Enter(s: Shop, id: nat, stage: Stage): Shop
    requires id < |s.purchases|
  {
    s.(purchases := s.purchases[id := s.purchases[id].(stage := stage)])
  }

  /** The stage that undoes a claim, or the end when there is none to undo. */
  function Undo(p: Purchase): Stage {
    if p.code.Some? then Releasing else Failed
  }

  /** _calculate_price: the price and the code to claim, or None when the code is refused. */
  function PricedPurchase(s: Shop, user: int, base: int, code: Option<string>, now: int): Option<Purchase> {
    if code.None? || code.value == "" then Some(Purchase(user, None, base, Priced))
    else if code.value in s.codes && Usable(s.codes[code.value], user, now) then
      Some(Purchase(user, code, FinalPrice(base, s.codes[code.value].percent), Priced))
    else None
  }

  function ClaimStep(s: Shop, id: nat, now: int): Shop
    requires id < |s.purchases| && s.purchases[id].code.Some?
  {
    var p := s.purchases[id];
    var claimed := Claim(s.codes, p.code.value, p.user, now);
    if claimed.Some? then Enter(s.(codes := claimed.value), id, Debiting) else Enter(s, id, Failed)
  }

  /** A negative price raises in debit_Money_if_sufficient; only an undiscounted purchase can have one. */
  function DebitStep(s: Shop, id: nat): Shop
    requires id < |s.purchases|
  {
    var p := s.purchases[id];
    if p.price < 0 then Enter(s, id, Failed)
    else
      var debited := UpdateMoney(s.wallets, p.user, -p.price, false);
      if debited.Some? then Enter(s.(wallets := debited.value), id, Storing) else Enter(s, id, Undo(p))
  }

  function RefundStep(s: Shop, id: nat): Shop
    requires id < |s.purchases|
  {
    var p := s.purchases[id];
    var refunded := UpdateMoney(s.wallets, p.user, p.price, true);
    Enter(if refunded.Some? then s.(wallets := refunded.value) else s, id, Undo(p))
  }

  function ReleaseStep(s: Shop, id: nat): Shop
    requires id < |s.purchases| && s.purchases[id].code.Some?
  {
    Enter(s.(codes := Release(s.codes, s.purchases[id].code.value)), id, Failed)
  }

  /** One transaction of anyone; an event that is not enabled changes nothing. */
  function Next(s: Shop, e: Event): Shop {
    match e
    case Begin(user, base, code, now) =>
      var p := PricedPurchase(s, user, base, code, now);
      s.(purchases := s.purchases + [if p.Some? then p.value else Purchase(user, None, base, Failed)])
    case Abandon(id) => if At(s, id, Priced) then Enter(s, id, Failed) else s
    case PanelUserAdded(id) =>
      if At(s, id, Priced) then Enter(s, id, if s.purchases[id].code.Some? then Claiming else Debiting) else s
    case ClaimUse(id, now) => if At(s, id, Claiming) && s.purchases[id].code.Some? then ClaimStep(s, id, now) else s
    case Debit(id) => if At(s, id, Debiting) then DebitStep(s, id) else s
    case Store(id, ok) => if At(s, id, Storing) then Enter(s, id, if ok then Done else Refunding) else s
    case Refund(id) => if At(s, id, Refunding) then RefundStep(s, id) else s
    case ReleaseUse(id) => if At(s, id, Releasing) && s.purchases[id].code.Some? then ReleaseStep(s, id) else s
    case Receive(user, amount) =>
      if user in s.wallets then
        s.(wallets := s.wallets[user := s.wallets[user] + amount], gifts := s.gifts + [Gift(user, amount)])
      else s
  }

  function Run(s: Shop, events: seq<Event>): Shop {
    if events == [] then s else Next(Run(s, events[..|events| - 1]), events[|events| - 1])
  }

  lemma {:induction false} RunConcat(s: Shop, a: seq<Event>, b: seq<Event>)
    ensures Run(s, a + b) == Run(Run(s, a), b)
  {
    if b == [] {
      assert a + b == a;
    } else {
      RunConcat(s, a, b[..|b| - 1]);
      assert (a + b)[..|a + b| - 1] == a + b[..|b| - 1];
    }
  }

  // ---- conservation -------------------------------------------------------------------------

  /** Purchases holding a use of `code`: open claims and completed discounted purchases. */
  function HoldsUse(code: string): Purchase -> int {
    (p: Purchase) =>
      if p.code == Some(code) && (p.stage.Debiting? || p.stage.Storing? || p.stage.Refunding?
                                  || p.stage.Releasing? || p.stage.Done?)
      then 1 else 0
  }

  /** What a purchase keeps debited from `user`: its price until refunded, or for good. */
  function Owes(user: int): Purchase -> int {
    (p: Purchase) =>
      if p.user == user && (p.stage.Storing? || p.stage.Refunding? || p.stage.Done?) then p.price else 0
  }

  function GiftTo(user: int): Gift -> int {
    (g: Gift) => if g.user == user then g.amount else 0
  }

  /** Uses never pass the limit; a code that started beyond its limit gets no further. */
  predicate WithinLimit(before: Code, after: Code) {
    before.usageLimit.Some? ==> after.timesUsed <= before.usageLimit.value || after.timesUsed <= before.timesUsed
  }

  predicate CodeBalanced(s0: Shop, s: Shop, code: string)
    requires code in s0.codes
  {
    && code in s.codes
    && s.codes[code].timesUsed == s0.codes[code].timesUsed + SumBy(s.purchases, HoldsUse(code))
    && s.codes[code].usageLimit == s0.codes[code].usageLimit
    && WithinLimit(s0.codes[code], s.codes[code])
  }

  predicate WalletBalanced(s0: Shop, s: Shop, user: int)
    requires user in s0.wallets
  {
    && user in s.wallets
    && s.wallets[user] == s0.wallets[user] + SumBy(s.gifts, GiftTo(user)) - SumBy(s.purchases, Owes(user))
    && (s.wallets[user] >= 0 || s.wallets[user] >= s0.wallets[user])
  }

  /** A purchase's own facts: debited ones exist in the wallet table, discounted ones in the code table. */
  predicate PurchaseFits(s: Shop, p: Purchase) {
    && (p.code.Some? ==> p.code.value in s.codes && p.price >= 0)
    && (p.stage.Storing? || p.stage.Refunding? ==> p.user in s.wallets && p.price >= 0)
    && (p.stage.Claiming? || p.stage.Releasing? ==> p.code.Some?)
  }

  ghost predicate Inv(s0: Shop, s: Shop) {
    && s.codes.Keys == s0.codes.Keys && s.wallets.Keys == s0.wallets.Keys
    && (forall code :: code in s0.codes ==> CodeBalanced(s0, s, code))
    && (forall user :: user in s0.wallets ==> WalletBalanced(s0, s, user))
    && (forall i :: 0 <= i < |s.purchases| ==> PurchaseFits(s, s.purchases[i]))
  }

  /** A shop before any purchase; wallets may be in debt and codes beyond their limits. */
  ghost predicate Start(s: Shop) {
    && s.purchases == [] && s.gifts == []
    && forall code :: code in s.codes ==> s.codes[code].timesUsed >= 0
  }

  lemma {:induction false} CountIsNonNegative(purchases: seq<Purchase>, code: string)
    ensures SumBy(purchases, HoldsUse(code)) >= 0
    ensures forall i :: 0 <= i < |purchases| ==> SumBy(purchases, HoldsUse(code)) >= HoldsUse(code)(purchases[i])
  {
    if purchases != [] {
      CountIsNonNegative(purchases[..|purchases| - 1], code);
    }
  }

  /** The purchase an event is about. */
  function Subject(e: Event): Option<nat> {
    match e
    case Begin(_, _, _, _) => None
    case Receive(_, _) => None
    case Abandon(id) => Some(id)
    case PanelUserAdded(id) => Some(id)
    case ClaimUse(id, _) => Some(id)
    case Debit(id) => Some(id)
    case Store(id, _) => Some(id)
    case Refund(id) => Some(id)
    case ReleaseUse(id) => Some(id)
  }

  /** An event about purchase `id` rewrites that entry only, so sums move by its weight. */
  lemma SubjectMoves(s: Shop, e: Event, f: Purchase -> int)
    requires Subject(e).Some? && Subject(e).value < |s.purchases|
    ensures var t, id := Next(s, e), Subject(e).value;
            && |t.purchases| == |s.purchases| && t.gifts == s.gifts
            && SumBy(t.purchases, f) == SumBy(s.purchases, f) - f(s.purchases[id]) + f(t.purchases[id])
  {
    var t, id := Next(s, e), Subject(e).value;
    assert t.purchases == s.purchases[id := t.purchases[id]];
    SumUpdate(s.purchases, id, t.purchases[id], f);
  }

  /** One event changes a code's count exactly as it changes whether its subject holds a use. */
  lemma CodeDelta(s: Shop, e: Event, id: nat, code: string)
    requires Subject(e) == Some(id) && id < |s.purchases| && code in s.codes
    requires PurchaseFits(s, s.purchases[id])
    requires HoldsUse(code)(s.purchases[id]) == 1 ==> s.codes[code].timesUsed > 0
    ensures var t := Next(s, e);
            && code in t.codes && t.codes[code].usageLimit == s.codes[code].usageLimit
            && t.codes[code].timesUsed - s.codes[code].timesUsed
               == HoldsUse(code)(t.purchases[id]) - HoldsUse(code)(s.purchases[id])
            && (t.codes[code].timesUsed > s.codes[code].timesUsed ==>
                  s.codes[code].usageLimit.None? || t.codes[code].timesUsed <= s.codes[code].usageLimit.value)
  {
    match e
    case Abandon(_) =>
    case PanelUserAdded(_) =>
    case ClaimUse(_, _) =>
    case Debit(_) =>
    case Store(_, _) =>
    case Refund(_) =>
    case ReleaseUse(_) =>
  }

  /** One event changes a wallet exactly against what it makes its subject owe, never into debt. */
  lemma WalletDelta(s: Shop, e: Event, id: nat, user: int)
    requires Subject(e) == Some(id) && id < |s.purchases| && user in s.wallets
    requires PurchaseFits(s, s.purchases[id])
    ensures var t := Next(s, e);
            && user in t.wallets && (t.wallets[user] >= 0 || t.wallets[user] >= s.wallets[user])
            && t.wallets[user] - s.wallets[user] == Owes(user)(s.purchases[id]) - Owes(user)(t.purchases[id])
  {
    match e
    case Abandon(_) =>
    case PanelUserAdded(_) =>
    case ClaimUse(_, _) =>
    case Debit(_) =>
    case Store(_, _) =>
    case Refund(_) =>
    case ReleaseUse(_) =>
  }

  lemma CodeStep(s0: Shop, s: Shop, e: Event, code: string)
    requires Start(s0) && Inv(s0, s) && code in s0.codes
    ensures CodeBalanced(s0, Next(s, e), code)
  {
    assert CodeBalanced(s0, s, code);
    if e.Begin? {
      SumAppend(s.purchases, Next(s, e).purchases[|s.purchases|], HoldsUse(code));
    } else if Subject(e).Some? && Subject(e).value < |s.purchases| {
      var id := Subject(e).value;
      CountIsNonNegative(s.purchases, code);
      CodeDelta(s, e, id, code);
      SubjectMoves(s, e, HoldsUse(code));
    }
  }

  lemma WalletStep(s0: Shop, s: Shop, e: Event, user: int)
    requires Inv(s0, s) && user in s0.wallets
    ensures WalletBalanced(s0, Next(s, e), user)
  {
    assert WalletBalanced(s0, s, user);
    if e.Begin? {
      BeginWalletStep(s0, s, e, user);
    } else if e.Receive? {
      GiftWalletStep(s0, s, e, user);
    } else if Subject(e).value < |s.purchases| {
      OwnWalletStep(s0, s, e, Subject(e).value, user);
    }
  }

  lemma BeginWalletStep(s0: Shop, s: Shop, e: Event, user: int)
    requires e.Begin? && user in s0.wallets && WalletBalanced(s0, s, user)
    ensures WalletBalanced(s0, Next(s, e), user)
  {
    SumAppend(s.purchases, Next(s, e).purchases[|s.purchases|], Owes(user));
  }

  lemma GiftWalletStep(s0: Shop, s: Shop, e: Event, user: int)
    requires e.Receive? && user in s0.wallets && WalletBalanced(s0, s, user)
    ensures WalletBalanced(s0, Next(s, e), user)
  {
    SumAppend(s.gifts, Gift(e.user, e.amount), GiftTo(user));
  }

  lemma OwnWalletStep(s0: Shop, s: Shop, e: Event, id: nat, user: int)
    requires Subject(e) == Some(id) && id < |s.purchases| && PurchaseFits(s, s.purchases[id])
    requires user in s0.wallets && WalletBalanced(s0, s, user)
    ensures WalletBalanced(s0, Next(s, e), user)
  {
    WalletDelta(s, e, id, user);
    SubjectMoves(s, e, Owes(user));
  }

  lemma FitStays(s: Shop, t: Shop, p: Purchase)
    requires PurchaseFits(s, p) && s.codes.Keys == t.codes.Keys && s.wallets.Keys == t.wallets.Keys
    ensures PurchaseFits(t, p)
  {
  }

  lemma FitStep(s: Shop, e: Event, i: nat)
    requires i < |Next(s, e).purchases| && (i < |s.purchases| ==> PurchaseFits(s, s.purchases[i]))
    ensures PurchaseFits(Next(s, e), Next(s, e).purchases[i])
  {
    KeysStay(s, e);
    if i < |s.purchases| && Subject(e) != Some(i) {
      FitStays(s, Next(s, e), s.purchases[i]);
    } else if i < |s.purchases| {
      FitSubject(s, e, i);
    }
  }

  lemma FitSubject(s: Shop, e: Event, id: nat)
    requires Subject(e) == Some(id) && id < |s.purchases| && PurchaseFits(s, s.purchases[id])
    ensures PurchaseFits(Next(s, e), Next(s, e).purchases[id])
  {
    match e
    case Abandon(_) =>
    case PanelUserAdded(_) =>
    case ClaimUse(_, _) =>
    case Debit(_) =>
    case Store(_, _) =>
    case Refund(_) =>
    case ReleaseUse(_) =>
  }

  lemma InvStep(s0: Shop, s: Shop, e: Event)
    requires Start(s0) && Inv(s0, s)
    ensures Inv(s0, Next(s, e))
  {
    var t := Next(s, e);
    forall code | code in s0.codes ensures CodeBalanced(s0, t, code) { CodeStep(s0, s, e, code); }
    forall user | user in s0.wallets ensures WalletBalanced(s0, t, user) { WalletStep(s0, s, e, user); }
    forall i | 0 <= i < |t.purchases| ensures PurchaseFits(t, t.purchases[i]) { FitStep(s, e, i); }
    KeysStay(s, e);
  }

  lemma KeysStay(s: Shop, e: Event)
    ensures Next(s, e).codes.Keys == s.codes.Keys && Next(s, e).wallets.Keys == s.wallets.Keys
  {
  }

  lemma {:induction false} InvThroughout(s0: Shop, events: seq<Event>)
    requires Start(s0)
    ensures Inv(s0, Run(s0, events))
  {
    if events != [] {
      InvThroughout(s0, events[..|events| - 1]);
      InvStep(s0, Run(s0, events[..|events| - 1]), events[|events| - 1]);
    }
  }

  /** Main result: at every point of every interleaving, uses counted on a code are its open claims plus
      its completed purchases and go no further than the limit; a wallet is its start plus what others
      paid in minus what is debited and not refunded, and no purchase takes it into debt or deeper into it. */
  lemma SagaConserves(s0: Shop, events: seq<Event>)
    requires Start(s0)
    ensures var s := Run(s0, events);
            && (forall code :: code in s0.codes ==>
                  && code in s.codes
                  && s.codes[code].timesUsed - s0.codes[code].timesUsed == SumBy(s.purchases, HoldsUse(code))
                  && (s0.codes[code].usageLimit.Some? ==>
                        || s.codes[code].timesUsed <= s0.codes[code].usageLimit.value
                        || s.codes[code].timesUsed <= s0.codes[code].timesUsed))
            && (forall user :: user in s0.wallets ==>
                  && user in s.wallets && (s.wallets[user] >= 0 || s.wallets[user] >= s0.wallets[user])
                  && s.wallets[user] == s0.wallets[user] + SumBy(s.gifts, GiftTo(user)) - SumBy(s.purchases, Owes(user)))
  {
    InvThroughout(s0, events);
    var s := Run(s0, events);
    forall code | code in s0.codes
      ensures code in s.codes && WithinLimit(s0.codes[code], s.codes[code])
      ensures s.codes[code].timesUsed - s0.codes[code].timesUsed == SumBy(s.purchases, HoldsUse(code))
    {
      assert CodeBalanced(s0, s, code);
    }
    forall user | user in s0.wallets
      ensures user in s.wallets && (s.wallets[user] >= 0 || s.wallets[user] >= s0.wallets[user])
      ensures s.wallets[user] == s0.wallets[user] + SumBy(s.gifts, GiftTo(user)) - SumBy(s.purchases, Owes(user))
    {
      assert WalletBalanced(s0, s, user);
    }
  }

  predicate Successful(p: Purchase) {
    p.stage == Done
  }

  function Keep(purchases: seq<Purchase>): seq<Purchase> {
    if purchases == [] then []
    else
      var rest, last := Keep(purchases[..|purchases| - 1]), purchases[|purchases| - 1];
      if Successful(last) then rest + [last] else rest
  }

  lemma {:induction false} FailuresWeighNothing(purchases: seq<Purchase>, code: string, user: int)
    requires forall i :: 0 <= i < |purchases| ==> purchases[i].stage.Done? || purchases[i].stage.Failed?
    ensures SumBy(purchases, HoldsUse(code)) == SumBy(Keep(purchases), HoldsUse(code))
    ensures SumBy(purchases, Owes(user)) == SumBy(Keep(purchases), Owes(user))
  {
    if purchases != [] {
      var before, last := purchases[..|purchases| - 1], purchases[|purchases| - 1];
      FailuresWeighNothing(before, code, user);
      if Successful(last) {
        SumAppend(Keep(before), last, HoldsUse(code));
        SumAppend(Keep(before), last, Owes(user));
      }
    }
  }

  /** Main result: once every purchase has ended, the failed ones might as well not have happened: codes
      and wallets are what the completed purchases alone account for. */
  lemma FailedPurchasesNetToZero(s0: Shop, events: seq<Event>, code: string, user: int)
    requires Start(s0) && code in s0.codes && user in s0.wallets
    requires forall i :: 0 <= i < |Run(s0, events).purchases| ==>
      Run(s0, events).purchases[i].stage.Done? || Run(s0, events).purchases[i].stage.Failed?
    ensures var s := Run(s0, events);
            && code in s.codes && user in s.wallets
            && s.codes[code].timesUsed == s0.codes[code].timesUsed + SumBy(Keep(s.purchases), HoldsUse(code))
            && s.wallets[user] == s0.wallets[user] + SumBy(s.gifts, GiftTo(user)) - SumBy(Keep(s.purchases), Owes(user))
  {
    SagaConserves(s0, events);
    FailuresWeighNothing(Run(s0, events).purchases, code, user);
  }
}

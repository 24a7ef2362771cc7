// Hourly reseller billing (app/jobs/reseller/billing.py): charge whole units per elapsed minute, carry
// the rounded fraction, advance the clock by the minutes billed. Decimals are exact reals here.
module HourlyBilling {
  import opened Common
  import opened Amounts
  import opened BillingLedger

  /** An account with its owner's wallet. `lastBilledAt` is the billing_state key, absent at first. */
  datatype Account = Account(
    lastBilledAt: Option<int>, createtime: Option<int>, carry: real, totalBilled: int,
    balance: int, suspended: bool)

  /** `a or b` on optional integers: zero counts as absent. */
  function OrElse(a: Option<int>, b: int): int {
    if a.Some? && a.value != 0 then a.value else b
  }

  function Clock(a: Account, now: int): int {
    OrElse(a.lastBilledAt, OrElse(a.createtime, now))
  }

  /** round(x, 6). */
  function Round6(x: real): real {
    RoundHalfEven(x * MICRO) as real / MICRO
  }

  function ElapsedMinutes(a: Account, now: int): int {
    var elapsed := if now > Clock(a, now) then now - Clock(a, now) else 0;
    elapsed / 60
  }

  /** The exact price of some minutes at an hourly rate. */
  function Price(rate: int, minutes: int): real {
    (rate * minutes) as real / 60.0
  }

  function Exact(a: Account, now: int, rate: int): real {
    Price(rate, ElapsedMinutes(a, now)) + a.carry
  }

  /** int(x): truncation toward zero. */
  function Truncate(x: real): int {
    if x >= 0.0 then x.Floor else -(-x).Floor
  }

  /** What one run of _process_hourly_account does. */
  datatype Outcome = Idle | Advanced | Billed(charge: int) | Short(charge: int)

  function Decide(a: Account, now: int, rate: int): Outcome {
    if ElapsedMinutes(a, now) < 1 || rate <= 0 then Idle
    else
      var charge := Truncate(Exact(a, now, rate));
      if charge <= 0 then Advanced else if a.balance < charge then Short(charge) else Billed(charge)
  }

  function Advance(a: Account, now: int, rate: int, charge: int): Account {
    a.(lastBilledAt := Some(Clock(a, now) + ElapsedMinutes(a, now) * 60),
       carry := Round6(Exact(a, now, rate) - charge as real))
  }

  /** `suspends` says whether suspending an account that cannot pay goes through: its panel is found and
      accepts the change. */
  function Process(a: Account, now: int, rate: int, suspends: bool): Account {
    match Decide(a, now, rate)
    case Idle => a
    case Advanced => Advance(a, now, rate, Truncate(Exact(a, now, rate)))
    case Short(_) => a.(suspended := a.suspended || suspends)
    case Billed(charge) =>
      Advance(a, now, rate, charge).(balance := a.balance - charge, totalBilled := a.totalBilled + charge)
  }

  // ---- one run in numbers -------------------------------------------------------------------

  /** Where the clock stands: the last billed moment, or else the account's creation, or else now. */
  lemma ClockMeans(a: Account, now: int)
    ensures a.lastBilledAt.Some? && a.lastBilledAt.value != 0 ==> Clock(a, now) == a.lastBilledAt.value
    ensures (a.lastBilledAt == None || a.lastBilledAt == Some(0)) && a.createtime.Some? && a.createtime.value != 0 ==>
      Clock(a, now) == a.createtime.value
    ensures (a.lastBilledAt == None || a.lastBilledAt == Some(0)) && (a.createtime == None || a.createtime == Some(0)) ==>
      Clock(a, now) == now
  {
  }

  /** A charge is the whole units of rate * minutes / 60 plus the carry; less than a minute or no rate bills
      nothing, and a wallet that does not hold the charge is left alone. */
  lemma OutcomeMeans(a: Account, now: int, rate: int)
    ensures var outcome, elapsed := Decide(a, now, rate), now - Clock(a, now);
      var minutes := elapsed / 60;
      var exact := (rate * minutes) as real / 60.0 + a.carry;
      && (outcome == Idle <==> elapsed < 60 || rate <= 0)
      && (outcome == Advanced <==> elapsed >= 60 && rate > 0 && exact < 1.0)
      && (outcome.Billed? <==> elapsed >= 60 && rate > 0 && exact >= 1.0 && a.balance as real > exact - 1.0)
      && (outcome.Billed? ==> outcome.charge as real <= exact < outcome.charge as real + 1.0)
      && (outcome.Short? ==> outcome.charge as real <= exact < outcome.charge as real + 1.0 && a.balance < outcome.charge)
  {
  }

  /** round(x, 6) is the half-even count of millionths. */
  lemma Round6Means(x: real, n: int)
    requires IsHalfEven(x * 1000000.0, n)
    ensures Round6(x) == n as real / 1000000.0
  {
    RoundIsTheHalfEvenInteger(x * 1000000.0, n);
  }

  /** What a run leaves: a charge moves from the wallet to the billed total, every billing run moves the clock
      by the whole minutes and keeps the rounded rest, and a short wallet may get the account suspended. */
  lemma ProcessMeans(a: Account, now: int, rate: int, suspends: bool)
    ensures var outcome, elapsed, g := Decide(a, now, rate), now - Clock(a, now), Process(a, now, rate, suspends);
      var minutes := elapsed / 60;
      var exact := (rate * minutes) as real / 60.0 + a.carry;
      && (outcome.Idle? ==> g == a)
      && (outcome.Short? ==> g == a.(suspended := a.suspended || suspends))
      && (outcome.Billed? ==>
            g == a.(lastBilledAt := Some(Clock(a, now) + 60 * minutes), carry := Round6(exact - outcome.charge as real),
                    balance := a.balance - outcome.charge, totalBilled := a.totalBilled + outcome.charge))
      && (outcome.Advanced? ==>
            g == a.(lastBilledAt := Some(Clock(a, now) + 60 * minutes), carry := Round6(exact - Truncate(exact) as real)))
  {
  }

  lemma TruncateMeans(x: real)
    ensures x >= 0.0 ==> Truncate(x) as real <= x < Truncate(x) as real + 1.0
    ensures x < 0.0 ==> Truncate(x) as real - 1.0 < x <= Truncate(x) as real
  {
  }

  // ---- the job's method ---------------------------------------------------------------------

  class HourlyAccount {
    var state: Account
    const code: int
    const ledger: Ledger

    constructor (code: int, state: Account, ledger: Ledger)
      ensures this.code == code && this.state == state && this.ledger == ledger
    {
      this.code, this.state, this.ledger := code, state, ledger;
    }

    /** _process_hourly_account, its transactions taken as one step. */
    method ProcessHourly(now: int, rate: int, suspends: bool) returns (outcome: Outcome)
      modifies this, ledger
      ensures outcome == Decide(old(state), now, rate)
      ensures state == Process(old(state), now, rate, suspends)
      ensures ledger.rows == if outcome.Billed?
                then Add(old(ledger.rows), Hourly(code, outcome.charge, ElapsedMinutes(old(state), now), now, Some(rate as real)))
                else old(ledger.rows)
    {
      var lastBilled := now;
      if state.lastBilledAt.Some? && state.lastBilledAt.value != 0 {
        lastBilled := state.lastBilledAt.value;
      } else if state.createtime.Some? && state.createtime.value != 0 {
        lastBilled := state.createtime.value;
      }
      var elapsedSeconds := if now - lastBilled > 0 then now - lastBilled else 0;
      if elapsedSeconds < 60 || rate <= 0 {
        return Idle;
      }
      var elapsedMinutes := elapsedSeconds / 60;
      var nextBilledAt := lastBilled + elapsedMinutes * 60;
      var exact := Price(rate, elapsedMinutes) + state.carry;
      assert elapsedMinutes == ElapsedMinutes(state, now) && exact == Exact(state, now, rate);
      var charge := Truncate(exact);
      var carry := Round6(exact - charge as real);
      if charge <= 0 {
        state := state.(lastBilledAt := Some(nextBilledAt), carry := carry);
        return Advanced;
      }
      if state.balance - charge < 0 {
        if suspends {
          state := state.(suspended := true);
        }
        return Short(charge);
      }
      state := state.(balance := state.balance - charge);
      state := state.(lastBilledAt := Some(nextBilledAt), carry := carry, totalBilled := state.totalBilled + charge);
      ledger.AddHourlyCharge(code, charge, elapsedMinutes, now, Some(rate as real));
      return Billed(charge);
    }
  }

  // ---- whole runs ---------------------------------------------------------------------------

  /** What happens to an account over time: the minute job, a top-up, a reactivation. */
  datatype Event = Job(now: int, rate: int, suspends: bool) | TopUp(amount: nat) | Reactivate(now: int)

  /** Bookkeeping of a history: money charged, minutes billed, their exact price, and rounding steps. */
  datatype Tally = Tally(charged: int, minutes: int, due: real, runs: nat, topUps: int)

  datatype History = History(account: Account, tally: Tally)

  /** The job skips suspended accounts; reset_billing_clock restarts the clock and keeps the carry. */
  function Next(h: History, e: Event): History {
    var a, t := h.account, h.tally;
    match e
    case TopUp(amount) => History(a.(balance := a.balance + amount), t.(topUps := t.topUps + amount))
    case Reactivate(now) => History(if a.suspended then a.(suspended := false, lastBilledAt := Some(now)) else a, t)
    case Job(now, rate, suspends) =>
      if a.suspended then h
      else
        var outcome, m := Decide(a, now, rate), ElapsedMinutes(a, now);
        if outcome.Advanced? || outcome.Billed? then
          History(Process(a, now, rate, suspends),
                  t.(charged := t.charged + (if outcome.Billed? then outcome.charge else 0),
                     minutes := t.minutes + m, due := t.due + Price(rate, m), runs := t.runs + 1))
        else h.(account := Process(a, now, rate, suspends))
  }

  function Run(h: History, events: seq<Event>): History {
    if events == [] then h else Next(Run(h, events[..|events| - 1]), events[|events| - 1])
  }

  /** What each event does: a top-up pays in, a reactivation restarts the clock of a suspended account, and the
      job passes over suspended accounts and books what it took from the wallet and the minutes it billed. */
  lemma EventMeans(h: History, e: Event)
    ensures var a, g := h.account, Next(h, e);
      match e
      case TopUp(amount) =>
        g == History(a.(balance := a.balance + amount), h.tally.(topUps := h.tally.topUps + amount))
      case Reactivate(now) =>
        g == h.(account := if a.suspended then a.(suspended := false, lastBilledAt := Some(now)) else a)
      case Job(now, rate, suspends) =>
        if a.suspended then g == h
        else
          && g.account == Process(a, now, rate, suspends)
          && g.tally.charged - h.tally.charged == a.balance - g.account.balance
          && g.tally.topUps == h.tally.topUps
          && (if Decide(a, now, rate).Idle? || Decide(a, now, rate).Short? then g.tally == h.tally
              else
                && g.tally.runs == h.tally.runs + 1
                && g.tally.minutes == h.tally.minutes + (now - Clock(a, now)) / 60)
  {
  }

  /** Half a millionth per billing run. */
  function Drift(runs: nat): real {
    0.0000005 * runs as real
  }

  lemma Round6Error(x: real)
    ensures -Drift(1) <= x - Round6(x) <= Drift(1)
    ensures 0.0 <= x < 1.0 ==> 0.0 <= Round6(x) <= 1.0
  {
  }

  lemma TruncateIsFloor(x: real)
    requires x >= 0.0
    ensures 0.0 <= x - Truncate(x) as real < 1.0
  {
  }

  lemma ExactIsNonNegative(a: Account, now: int, rate: int)
    requires a.carry >= 0.0 && rate > 0
    ensures Exact(a, now, rate) >= 0.0
  {
  }

  /** The books of a history that started at `a0`: the carry stays in [0, 1] and what was charged plus
      the carry is the exact price, up to half a millionth per billing run. */
  ghost predicate Balanced(a0: Account, h: History) {
    var a, t := h.account, h.tally;
    && 0.0 <= a.carry <= 1.0
    && -Drift(t.runs) <= t.due + a0.carry - t.charged as real - a.carry <= Drift(t.runs)
    && a.balance == a0.balance + t.topUps - t.charged
    && a.totalBilled == a0.totalBilled + t.charged
    && (a0.balance >= 0 ==> a.balance >= 0)
    && t.topUps >= 0
  }

  /** One billing run: the new carry is what the exact price leaves, up to half a step. */
  lemma BillingStep(a: Account, now: int, rate: int)
    requires a.carry >= 0.0 && rate > 0
    ensures var exact := Exact(a, now, rate);
            var charge := Truncate(exact);
            var carry := Round6(exact - charge as real);
            && charge >= 0 && 0.0 <= carry <= 1.0
            && -Drift(1) <= exact - charge as real - carry <= Drift(1)
  {
    var exact := Exact(a, now, rate);
    ExactIsNonNegative(a, now, rate);
    TruncateIsFloor(exact);
    Round6Error(exact - Truncate(exact) as real);
  }

  /** Books that moved by `due` and `paid`, with the difference put into the carry up to half a step. */
  lemma StaysBalanced(a0: Account, h: History, g: History, due: real, paid: int)
    requires Balanced(a0, h) && paid >= 0 && 0.0 <= g.account.carry <= 1.0
    requires -Drift(1) <= due + h.account.carry - paid as real - g.account.carry <= Drift(1)
    requires g.tally == h.tally.(charged := h.tally.charged + paid, due := h.tally.due + due,
                                 runs := h.tally.runs + 1, minutes := g.tally.minutes)
    requires g.account.balance == h.account.balance - paid && (paid > 0 ==> g.account.balance >= 0)
    requires g.account.totalBilled == h.account.totalBilled + paid
    ensures Balanced(a0, g)
  {
  }

  /** A billing run moves the books by its price and its charge. */
  lemma BilledBooks(h: History, e: Event, charge: int)
    requires e.Job? && !h.account.suspended && Next(h, e).tally.runs > h.tally.runs
    requires charge == Truncate(Exact(h.account, e.now, e.rate)) && charge >= 0
    ensures var g, a, t := Next(h, e), h.account, h.tally;
            && g.account.carry == Round6(Exact(a, e.now, e.rate) - charge as real)
            && g.account.balance == a.balance - charge && (charge > 0 ==> g.account.balance >= 0)
            && g.account.totalBilled == a.totalBilled + charge
            && g.tally == t.(charged := t.charged + charge, due := t.due + Price(e.rate, ElapsedMinutes(a, e.now)),
                             runs := t.runs + 1, minutes := g.tally.minutes)
  {
  }

  lemma BalancedStep(a0: Account, h: History, e: Event)
    requires Balanced(a0, h)
    ensures Balanced(a0, Next(h, e))
  {
    var g, a := Next(h, e), h.account;
    if g.tally.runs > h.tally.runs {
      var charge := Truncate(Exact(a, e.now, e.rate));
      BillingStep(a, e.now, e.rate);
      BilledBooks(h, e, charge);
      StaysBalanced(a0, h, g, Price(e.rate, ElapsedMinutes(a, e.now)), charge);
    }
  }

  lemma {:induction false} BalancedThroughout(a0: Account, events: seq<Event>)
    requires 0.0 <= a0.carry <= 1.0
    ensures Balanced(a0, Run(History(a0, Tally(0, 0, 0.0, 0, 0)), events))
  {
    if events != [] {
      BalancedThroughout(a0, events[..|events| - 1]);
      BalancedStep(a0, Run(History(a0, Tally(0, 0, 0.0, 0, 0)), events[..|events| - 1]), events[|events| - 1]);
    }
  }

  /** The exact price `due` grows by rate * minutes / 60 with every billing run, and by nothing else. */
  lemma DueGrowsByThePrice(h: History, e: Event)
    ensures var g := Next(h, e);
      g.tally.due == h.tally.due
        + (if e.Job? && g.tally.runs > h.tally.runs then (e.rate * (g.tally.minutes - h.tally.minutes)) as real / 60.0
           else 0.0)
  {
  }

  predicate JobsAt(events: seq<Event>, rate: int) {
    forall i :: 0 <= i < |events| && events[i].Job? ==> events[i].rate == rate
  }

  lemma {:induction false} DueAtConstantRate(h: History, events: seq<Event>, rate: int)
    requires JobsAt(events, rate) && h.tally.due == Price(rate, h.tally.minutes)
    ensures var t := Run(h, events).tally; t.due == Price(rate, t.minutes)
  {
    if events != [] {
      var before := events[..|events| - 1];
      DueAtConstantRate(h, before, rate);
      var g, e := Run(h, before), events[|events| - 1];
      if e.Job? {
        PriceAdds(rate, g.tally.minutes, ElapsedMinutes(g.account, e.now));
      }
    }
  }

  lemma PriceAdds(rate: int, m: int, n: int)
    ensures Price(rate, m + n) == Price(rate, m) + Price(rate, n)
  {
  }

  /** Main result: at a constant rate and from a zero carry, after any n billing runs, mixed with
      top-ups and suspensions, the total charged is within one unit plus half a millionth per run of
      rate * minutes / 60, and with the carry added within the half millionths alone. */
  lemma ChargesTrackTheExactPrice(a0: Account, events: seq<Event>, rate: int)
    requires a0.carry == 0.0 && forall i :: 0 <= i < |events| && events[i].Job? ==> events[i].rate == rate
    ensures var h := Run(History(a0, Tally(0, 0, 0.0, 0, 0)), events);
            var exact, drift := (rate * h.tally.minutes) as real / 60.0, 0.0000005 * h.tally.runs as real;
            && 0.0 <= h.account.carry <= 1.0
            && -drift <= exact - (h.tally.charged as real + h.account.carry) <= drift
            && -drift <= exact - h.tally.charged as real <= 1.0 + drift
            && h.account.totalBilled == a0.totalBilled + h.tally.charged
            && h.account.balance == a0.balance + h.tally.topUps - h.tally.charged
  {
    BalancedThroughout(a0, events);
    DueAtConstantRate(History(a0, Tally(0, 0, 0.0, 0, 0)), events, rate);
  }

  /** The clock: a billing run moves it by exactly 60 seconds per billed minute from where it stood, which
      on an account's first run is its creation, never past `now`, and leaves less than a minute behind;
      no other outcome of the job moves it. */
  lemma ClockAdvancesByTheMinutesBilled(h: History, now: int, rate: int, suspends: bool)
    ensures var g := Next(h, Job(now, rate, suspends));
            if g.tally.runs > h.tally.runs then
              && g.account.lastBilledAt == Some(Clock(h.account, now) + 60 * (g.tally.minutes - h.tally.minutes))
              && g.tally.minutes > h.tally.minutes
              && 0 <= now - g.account.lastBilledAt.value < 60
            else g.account.lastBilledAt == h.account.lastBilledAt && g.tally.minutes == h.tally.minutes
  {
  }

  /** Where the clock stands, 0 while nothing says. */
  function Stamp(a: Account): int {
    OrElse(a.lastBilledAt, OrElse(a.createtime, 0))
  }

  /** Without a reactivation, minutes billed and clock stay in step over any number of runs, from the very
      first one on. */
  lemma {:induction false} ClockOverRuns(h: History, events: seq<Event>)
    requires Stamp(h.account) >= 0
    requires forall i :: 0 <= i < |events| ==> !events[i].Reactivate?
    ensures var g := Run(h, events);
            && Stamp(g.account) - Stamp(h.account) == 60 * (g.tally.minutes - h.tally.minutes)
            && Stamp(g.account) >= Stamp(h.account)
  {
    if events != [] {
      var before, e := events[..|events| - 1], events[|events| - 1];
      ClockOverRuns(h, before);
      if e.Job? {
        ClockAdvancesByTheMinutesBilled(Run(h, before), e.now, e.rate, e.suspends);
      }
    }
  }
}

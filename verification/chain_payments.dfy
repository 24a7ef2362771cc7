// One run of a network's payment job: filter transfers by time, match, then expire what is overdue.
// Ends with the promise the amount protocol exists for: an exact payment is never missed.
module ChainPayments {
  import opened Common
  import opened Amounts
  import opened TransferMatching
  import opened InvoiceProtocol

  const INVOICE_TTL_SECONDS := 30 * 60
  const INVOICE_EXPIRY_GRACE_SECONDS := 10 * 60
  const TX_TIME_TOLERANCE_SECONDS := 2 * 60
  const MS_THRESHOLD := 10000000000

  /** to_unix_seconds: milliseconds are recognised by size; anything unreadable is 0. */
  function ToUnixSeconds(stamp: Option<int>): (seconds: int)
    ensures stamp.None? || stamp.value < 0 ==> seconds == 0
    ensures stamp.Some? && 0 <= stamp.value <= MS_THRESHOLD ==> seconds == stamp.value
    ensures stamp.Some? && stamp.value > MS_THRESHOLD ==> 1000 * seconds <= stamp.value < 1000 * seconds + 1000
  {
    if stamp.None? then 0
    else
      var ts := if stamp.value > MS_THRESHOLD then stamp.value / 1000 else stamp.value;
      if ts < 0 then 0 else ts
  }

  predicate PastExpiryGrace(p: Payment, now: int) {
    now - p.createtime > INVOICE_TTL_SECONDS + INVOICE_EXPIRY_GRACE_SECONDS
  }

  /** tx_time_in_window; `clock` is the wall clock used when the transfer's time is unknown. */
  predicate InWindow(p: Payment, stamp: Option<int>, allowUnknown: bool, clock: int) {
    var ts := ToUnixSeconds(stamp);
    if ts <= 0 then allowUnknown && clock - p.createtime <= INVOICE_TTL_SECONDS
    else p.createtime <= ts <= p.createtime + INVOICE_TTL_SECONDS + TX_TIME_TOLERANCE_SECONDS
  }

  /** How a network compares amounts: TON exactly, all others within one step. */
  datatype Rule = Tolerant | Exact

  function Compare(rule: Rule, invoice: Amount, received: Amount): Verdict {
    if rule == Exact then ExactMatches(invoice, received) else AmountMatches(invoice, received)
  }

  function InWindowOf(transfers: seq<Transfer>, p: Payment, allowUnknown: bool, clock: int): (found: seq<Transfer>)
    ensures forall t :: t in found <==> t in transfers && InWindow(p, t.stamp, allowUnknown, clock)
  {
    if transfers == [] then []
    else if InWindow(p, transfers[0].stamp, allowUnknown, clock) then
      [transfers[0]] + InWindowOf(transfers[1..], p, allowUnknown, clock)
    else InWindowOf(transfers[1..], p, allowUnknown, clock)
  }

  /** One run of a payment job: the network's rule and its own check of a transfer (destination, token,
      direction), what it read, and its clocks. */
  datatype Job = Job(
    rule: Rule, passes: Transfer -> bool, transfers: seq<Transfer>, allowUnknown: bool, clock: int,
    payments: seq<Payment>, used: set<string>, retryAfterError: bool, now: int)

  function HooksOf(job: Job): Hooks {
    Hooks(
      (p: Payment) => InWindowOf(job.transfers, p, job.allowUnknown, job.clock),
      (p: Payment, t: Transfer) => if job.passes(t) then Compare(job.rule, p.amount, t.amount) else Rejects)
  }

  /** What a run does: whom it matched and credited, and the orders it expired, in turn. */
  datatype JobRun = JobRun(
    matched: set<int>, consumed: set<string>, attempts: seq<Attempt>, expired: seq<int>, aborted: bool)

  /** The amount survives the quantising of the network's rule. */
  predicate Readable(rule: Rule, a: Amount) {
    Quantize(a, if rule == Exact then PICO else MICRO).Some?
  }

  lemma ComparingRaisesOnUnreadable(rule: Rule, a: Amount, b: Amount)
    ensures Compare(rule, a, b) == Raises <==> !Readable(rule, a) || !Readable(rule, b)
  {
  }

  ghost predicate AllReadable(job: Job) {
    && (forall p :: p in job.payments ==> Readable(job.rule, p.amount))
    && (forall t :: t in job.transfers && job.passes(t) ==> Readable(job.rule, t.amount))
  }

  ghost predicate DistinctIds(transfers: seq<Transfer>) {
    forall t, u :: t in transfers && u in transfers && t.id.Some? && t.id == u.id ==> t == u
  }

  /** No other payment of the list could be paid by a transfer of payment `k`'s amount. */
  ghost predicate Alone(payments: seq<Payment>, k: nat)
    requires k < |payments|
  {
    forall j :: 0 <= j < |payments| && j != k ==> !Collide(payments[k].amount, payments[j].amount)
  }

  /** A transfer of exactly the amount of `p`, under a transaction id. */
  predicate PaysExactly(t: Transfer, p: Payment, passes: Transfer -> bool) {
    t.id.Some? && t.amount == p.amount && passes(t)
  }

  /** When a transfer may pay an invoice: made at a known second from its creation to 32 minutes later,
      whether stamped in seconds or in milliseconds, or at an unknown time, where the network allows that,
      read within 30 minutes of its creation. */
  predicate OnTime(job: Job, p: Payment, stamp: Option<int>) {
    if stamp.None? || stamp.value <= 0 then job.allowUnknown && job.clock <= p.createtime + 1800
    else if stamp.value <= 10000000000 then p.createtime <= stamp.value <= p.createtime + 1920
    else 1000 * p.createtime <= stamp.value < 1000 * (p.createtime + 1920) + 1000
  }

  lemma OnTimeIffInWindow(job: Job, p: Payment, stamp: Option<int>)
    ensures OnTime(job, p, stamp) <==> InWindow(p, stamp, job.allowUnknown, job.clock)
  {
  }

  /** The payments left over and past their grace, in list order. */
  function Overdue(payments: seq<Payment>, matched: set<int>, now: int): (orders: seq<int>)
    ensures forall o :: o in orders <==>
              exists p :: p in payments && p.order == o && o !in matched && p.createtime + 2400 < now
  {
    if payments == [] then []
    else
      var n := |payments| - 1;
      assert payments == payments[..n] + [payments[n]];
      Overdue(payments[..n], matched, now)
      + if payments[n].order !in matched && PastExpiryGrace(payments[n], now) then [payments[n].order] else []
  }

  /** expire_unmatched: `expire` is called once for each overdue payment, in list order. */
  method ExpireUnmatched(payments: seq<Payment>, matched: set<int>, now: int) returns (expired: seq<int>)
    ensures expired == Overdue(payments, matched, now)
  {
    expired := [];
    for n := 0 to |payments|
      invariant expired == Overdue(payments[..n], matched, now)
    {
      var payment := payments[n];
      TakeNext(payments, n);
      if payment.order in matched {
        continue;
      }
      if PastExpiryGrace(payment, now) {
        expired := expired + [payment.order];
      }
    }
    TakeAll(payments);
  }

  /** Invoices accepting one transfer collide, and a transfer of the invoice's own amount matches. */
  lemma SharedTransferCollides(rule: Rule, a: Amount, b: Amount, t: Amount)
    requires Compare(rule, b, t) == Accepts && t == a
    ensures Collide(a, b)
  {
    if rule == Exact {
      ExactSharedTransferMeansCollision(a, b, t);
    }
  }

  ghost predicate Performs(job: Job, run: JobRun) {
    && MatchResult(job.payments, HooksOf(job), job.used, job.retryAfterError,
                   run.matched, run.consumed, run.attempts, run.aborted)
    && run.expired == if run.aborted then [] else Overdue(job.payments, run.matched, job.now)
  }

  /** A run stops early only at an amount that cannot be quantised. */
  lemma ReadableRunsFinish(job: Job, run: JobRun)
    requires Performs(job, run) && AllReadable(job)
    ensures !run.aborted
  {
    if run.aborted {
      var hooks := HooksOf(job);
      var k: nat :| JammedAt(job.payments, hooks, job.retryAfterError, run.consumed, run.attempts, k);
      var t :| Jams(hooks, job.payments[k], run.consumed, t);
      ComparingRaisesOnUnreadable(job.rule, job.payments[k].amount, t.amount);
    }
  }

  /** When its invoice can be told from all others, an exact unused payment is matched to it, and so the
      run does not expire it, whatever the order of payments and transfers and however late the run is. */
  lemma ExactPaymentIsMatched(job: Job, run: JobRun, k: nat, t: Transfer)
    requires Performs(job, run) && AllReadable(job) && DistinctIds(job.transfers)
    requires k < |job.payments| && Alone(job.payments, k)
    requires t in job.transfers && PaysExactly(t, job.payments[k], job.passes) && t.id.value !in job.used
    requires OnTime(job, job.payments[k], t.stamp)
    ensures MatchedOrder(job.payments, run.attempts, job.payments[k].order)
    ensures job.payments[k].order in run.matched && job.payments[k].order !in run.expired
  {
    var hooks, p, attempts := HooksOf(job), job.payments[k], run.attempts;
    ReadableRunsFinish(job, run);
    assert Served(job.payments, hooks, job.retryAfterError, run.consumed, attempts, k);
    if Finished(attempts, job.retryAfterError, k) {
      var i :| 0 <= i < |attempts| && attempts[i].index == k && !(job.retryAfterError && attempts[i].raised);
      assert job.payments[attempts[i].index].order == p.order;
    } else {
      OnTimeIffInWindow(job, p, t.stamp);
      assert hooks.accepts(p, t) == Accepts by {
        ComparingRaisesOnUnreadable(job.rule, p.amount, t.amount);
      }
      assert Reserved(attempts, t.id.value) by {
        assert Usable(hooks, p, t);
      }
      var i :| 0 <= i < |attempts| && attempts[i].transfer.id == Some(t.id.value);
      UserIsItsOwn(job, run, i, k, t);
    }
  }

  /** The other direction: whatever a run confirms was made on time, passed the network's own check, and has
      the invoice's amount by the network's rule. */
  lemma AttemptsAreOnTime(job: Job, run: JobRun, i: nat)
    requires Performs(job, run) && i < |run.attempts|
    ensures run.attempts[i].index < |job.payments|
    ensures var p, t := job.payments[run.attempts[i].index], run.attempts[i].transfer;
            && t in job.transfers && job.passes(t) && t.id.Some? && t.id.value !in job.used
            && OnTime(job, p, t.stamp)
            && (job.rule == Exact ==> ExactMatches(p.amount, t.amount) == Accepts)
            && (job.rule == Tolerant ==> AmountMatches(p.amount, t.amount) == Accepts)
  {
    var p, t := job.payments[run.attempts[i].index], run.attempts[i].transfer;
    assert Usable(HooksOf(job), p, t);
    OnTimeIffInWindow(job, p, t.stamp);
  }

  /** Whoever used up a transfer of an invoice's own amount is that invoice. */
  lemma UserIsItsOwn(job: Job, run: JobRun, i: nat, k: nat, t: Transfer)
    requires Performs(job, run) && DistinctIds(job.transfers)
    requires k < |job.payments| && Alone(job.payments, k)
    requires t in job.transfers && t.id.Some? && t.amount == job.payments[k].amount
    requires i < |run.attempts| && run.attempts[i].transfer.id == t.id
    ensures run.attempts[i].index == k
  {
    var q, hooks := job.payments[run.attempts[i].index], HooksOf(job);
    assert Usable(hooks, q, run.attempts[i].transfer);
    assert run.attempts[i].transfer == t;
    SharedTransferCollides(job.rule, job.payments[k].amount, q.amount, t.amount);
  }

  /** The body of check_payments after its reads. */
  method CheckPayments(job: Job, raises: nat -> bool) returns (run: JobRun)
    ensures Performs(job, run)
    ensures AllReadable(job) ==>
              && !run.aborted
              && run.expired == Overdue(job.payments, run.matched, job.now)
    ensures AllReadable(job) && DistinctIds(job.transfers) ==>
              forall k: nat, t :: k < |job.payments| && Alone(job.payments, k) && t in job.transfers
                && PaysExactly(t, job.payments[k], job.passes) && t.id.value !in job.used
                && OnTime(job, job.payments[k], t.stamp)
                ==> job.payments[k].order in run.matched && job.payments[k].order !in run.expired
  {
    var matched, consumed, attempts, aborted :=
      MatchTransfers(job.payments, HooksOf(job), job.used, raises, job.retryAfterError);
    var expired: seq<int> := [];
    if !aborted {
      expired := ExpireUnmatched(job.payments, matched, job.now);
    }
    run := JobRun(matched, consumed, attempts, expired, aborted);
    if AllReadable(job) {
      ReadableRunsFinish(job, run);
      forall k: nat, t | DistinctIds(job.transfers) && k < |job.payments| && Alone(job.payments, k)
        && t in job.transfers && PaysExactly(t, job.payments[k], job.passes) && t.id.value !in job.used
        && OnTime(job, job.payments[k], t.stamp)
        ensures job.payments[k].order in run.matched && job.payments[k].order !in run.expired
      {
        ExactPaymentIsMatched(job, run, k, t);
      }
    }
  }

  // ---- the job run on a state of the protocol -------------------------------------------------

  /** `payments` is what get_pending_by_arz returns for `network`, in any order. */
  ghost predicate IsPendingList(s: System, network: string, payments: seq<Payment>) {
    && (forall i :: 0 <= i < |payments| ==>
          var p := payments[i];
          && PendingAt(s.invoices, p.order) && s.invoices[p.order].network == network
          && s.invoices[p.order].amount == p.amount && s.invoices[p.order].createtime == p.createtime)
    && (forall i, j :: 0 <= i < j < |payments| ==> payments[i].order != payments[j].order)
  }

  /** The protocol delivers what the job needs: read while no creator of the network is inside its
      loop, an invoice stored by a creator stands alone in the pending list of any reachable state. */
  lemma CreatedInvoicesStandAlone(s: System, events: seq<Event>, network: string, payments: seq<Payment>, k: nat)
    requires Start(s) && Quiet(Run(s, events), network)
    requires IsPendingList(Run(s, events), network, payments) && k < |payments|
    requires Run(s, events).invoices[payments[k].order].owner.Some?
    ensures Alone(payments, k)
  {
    QuietSystemIsSeparable(s, events, network);
    var t := Run(s, events);
    forall j | 0 <= j < |payments| && j != k
      ensures !Collide(payments[k].amount, payments[j].amount)
    {
      var a, b := payments[k].order, payments[j].order;
      assert a != b && PendingAt(t.invoices, a) && PendingAt(t.invoices, b);
    }
  }

  /** Main result, end to end. Take any run of the invoice protocol from any table, and a job that reads
      the pending list of a network no creator is negotiating on. Whatever the order of payments and
      transfers, whatever confirming raises and however late the job is: an unused transfer of exactly
      the amount a creator stored, made within its invoice's window, is matched to that invoice, and the
      job does not expire it. */
  lemma ExactPaymentIsNeverMissed(
      s: System, events: seq<Event>, network: string, job: Job, run: JobRun, k: nat, t: Transfer)
    requires Start(s) && Quiet(Run(s, events), network)
    requires IsPendingList(Run(s, events), network, job.payments) && k < |job.payments|
    requires Run(s, events).invoices[job.payments[k].order].owner.Some?
    requires Performs(job, run) && AllReadable(job) && DistinctIds(job.transfers)
    requires t in job.transfers && PaysExactly(t, job.payments[k], job.passes) && t.id.value !in job.used
    requires OnTime(job, job.payments[k], t.stamp)
    ensures job.payments[k].order in run.matched && job.payments[k].order !in run.expired
  {
    CreatedInvoicesStandAlone(s, events, network, job.payments, k);
    ExactPaymentIsMatched(job, run, k, t);
  }
}

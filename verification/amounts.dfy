// Decimal amounts of crypto invoices: half-even quantising, and the rules that compare a
// transfer with an invoice (app/jobs/payments/crypto_common.py, ton.py) or two invoices with
// each other (app/db/crud/cryptopayments.py).
module Amounts {
  import opened Common

  /** A stored amount string: the decimal it denotes, or text that is no finite decimal. */
  datatype Amount = Decimal(value: real) | Unreadable

  function Abs(i: int): int {
    if i < 0 then -i else i
  }

  /** Nearest integer, a tie going to the even neighbour (ROUND_HALF_EVEN). */
  function RoundHalfEven(x: real): int {
    var low := x.Floor;
    var rest := x - low as real;
    if rest < 0.5 then low else if rest > 0.5 then low + 1 else if low % 2 == 0 then low else low + 1
  }

  /** Independent meaning: `n` is a nearest integer of `x`, and is even when two are nearest. */
  ghost predicate IsHalfEven(x: real, n: int) {
    && -0.5 <= x - n as real <= 0.5
    && (x - n as real == 0.5 || x - n as real == -0.5 ==> n % 2 == 0)
  }

  lemma RoundIsTheHalfEvenInteger(x: real, n: int)
    ensures IsHalfEven(x, n) <==> n == RoundHalfEven(x)
  {
  }

  const MICRO := 1000000.0
  const PICO := 1000000000000.0
  /** The default decimal context holds 28 digits; a longer quantised coefficient is an error. */
  const COEFFICIENT_BOUND := 10000000000000000000000000000

  /** `Decimal(x).quantize(1/unit)` as an integer count of units; None is InvalidOperation. */
  function Quantize(a: Amount, unit: real): Option<int> {
    match a
    case Unreadable => None
    case Decimal(x) =>
      var n := RoundHalfEven(x * unit);
      if Abs(n) < COEFFICIENT_BOUND then Some(n) else None
  }

  /** amounts_collide: one transfer could match both amounts. */
  predicate Collide(left: Amount, right: Amount) {
    var a, b := Quantize(left, MICRO), Quantize(right, MICRO);
    a.Some? && b.Some? && Abs(a.value - b.value) <= 1
  }

  /** A comparison of a transfer with an invoice; Raises is an uncaught InvalidOperation. */
  datatype Verdict = Accepts | Rejects | Raises

  function VerdictOf(ok: bool): Verdict {
    if ok then Accepts else Rejects
  }

  /** amount_matches: within one 6-digit step. */
  function AmountMatches(payment: Amount, received: Amount): Verdict {
    var a, b := Quantize(payment, MICRO), Quantize(received, MICRO);
    if a.None? || b.None? then Raises else VerdictOf(Abs(a.value - b.value) <= 1)
  }

  /** TON's rule: equality after quantising to 12 digits. */
  function ExactMatches(payment: Amount, received: Amount): Verdict {
    var a, b := Quantize(payment, PICO), Quantize(received, PICO);
    if a.None? || b.None? then Raises else VerdictOf(a.value == b.value)
  }

  lemma CollideIsSymmetric(a: Amount, b: Amount)
    ensures Collide(a, b) <==> Collide(b, a)
  {
  }

  // ---- the rules in millionths and in millionths of millionths ----------------------------------

  /** A count of at most 28 digits, which the decimal context can hold. */
  predicate Fits(n: int) {
    -10000000000000000000000000000 < n < 10000000000000000000000000000
  }

  lemma QuantizedMillionths(x: real, n: int)
    requires IsHalfEven(x * 1000000.0, n)
    ensures Quantize(Decimal(x), MICRO) == if Fits(n) then Some(n) else None
  {
    RoundIsTheHalfEvenInteger(x * 1000000.0, n);
  }

  lemma QuantizedTrillionths(x: real, n: int)
    requires IsHalfEven(x * 1000000000000.0, n)
    ensures Quantize(Decimal(x), PICO) == if Fits(n) then Some(n) else None
  {
    RoundIsTheHalfEvenInteger(x * 1000000000000.0, n);
  }

  lemma DecidedByMillionths(a: Amount, b: Amount)
    ensures var n, m := Quantize(a, MICRO), Quantize(b, MICRO);
            && (Collide(a, b) <==> n.Some? && m.Some? && -1 <= n.value - m.value <= 1)
            && AmountMatches(a, b) ==
                 if n.None? || m.None? then Raises else if -1 <= n.value - m.value <= 1 then Accepts else Rejects
  {
  }

  /** Both 6-digit rules on any two decimals, from the millionths they round to: invoices collide, and a
      transfer pays an invoice, when these are at most one apart. */
  lemma MillionthsDecide(x: real, y: real, n: int, m: int)
    requires IsHalfEven(x * 1000000.0, n) && IsHalfEven(y * 1000000.0, m)
    ensures Collide(Decimal(x), Decimal(y)) <==> Fits(n) && Fits(m) && -1 <= n - m <= 1
    ensures AmountMatches(Decimal(x), Decimal(y)) ==
      if !Fits(n) || !Fits(m) then Raises else if -1 <= n - m <= 1 then Accepts else Rejects
  {
    QuantizedMillionths(x, n);
    QuantizedMillionths(y, m);
    DecidedByMillionths(Decimal(x), Decimal(y));
  }

  /** TON's rule on any two decimals, from the 12-digit steps they round to. */
  lemma TrillionthsDecide(x: real, y: real, n: int, m: int)
    requires IsHalfEven(x * 1000000000000.0, n) && IsHalfEven(y * 1000000000000.0, m)
    ensures ExactMatches(Decimal(x), Decimal(y)) ==
      if !Fits(n) || !Fits(m) then Raises else if n == m then Accepts else Rejects
  {
    QuantizedTrillionths(x, n);
    QuantizedTrillionths(y, m);
  }

  /** An unreadable amount collides with nothing, and comparing it raises. */
  lemma UnreadableDecides(a: Amount)
    ensures !Collide(Unreadable, a) && !Collide(a, Unreadable)
    ensures AmountMatches(Unreadable, a) == Raises && AmountMatches(a, Unreadable) == Raises
    ensures ExactMatches(Unreadable, a) == Raises && ExactMatches(a, Unreadable) == Raises
  {
  }

  /** On whole millionths: 5.123456 collides with 5.123455 and 5.123457 and with no other. */
  lemma WholeMillionthsCollideIff(k: int, j: int)
    requires Fits(k) && Fits(j)
    ensures var a, b := Decimal(k as real / 1000000.0), Decimal(j as real / 1000000.0);
            && (Collide(a, b) <==> -1 <= k - j <= 1)
            && (AmountMatches(a, b) == Accepts <==> -1 <= k - j <= 1)
  {
    WholeStepsAreExact(k);
    WholeStepsAreExact(j);
    QuantizedMillionths(k as real / 1000000.0, k);
    QuantizedMillionths(j as real / 1000000.0, j);
    DecidedByMillionths(Decimal(k as real / 1000000.0), Decimal(j as real / 1000000.0));
  }

  /** The only transfer two separable invoices share is the midpoint of amounts exactly two
      millionths apart; in particular the exact amount of either one is never ambiguous. */
  lemma SharedTransferIsMidpoint(a: Amount, b: Amount, t: Amount)
    requires AmountMatches(a, t) == Accepts && AmountMatches(b, t) == Accepts
    ensures a.Decimal? && b.Decimal? && t.Decimal?
    ensures var n, m, l := RoundHalfEven(a.value * 1000000.0), RoundHalfEven(b.value * 1000000.0),
                           RoundHalfEven(t.value * 1000000.0);
            && (!Collide(a, b) <==> n - m == 2 || m - n == 2)
            && (!Collide(a, b) ==> 2 * l == n + m && t != a && t != b)
  {
  }

  /** The converse, down to the transferred value itself: invoices of `k` and `j` whole millionths that
      can be told apart share the transfer `t` exactly when they are two millionths apart and `t`
      rounds, half to even, to the one between them. */
  lemma TransferSharedExactlyAtMidpoint(k: int, j: int, t: real)
    requires Fits(k) && Fits(j) && k + 1 < j
    ensures var a, b := Decimal(k as real / 1000000.0), Decimal(j as real / 1000000.0);
            && !Collide(a, b)
            && (AmountMatches(a, Decimal(t)) == Accepts && AmountMatches(b, Decimal(t)) == Accepts
                <==> j == k + 2 && IsHalfEven(t * 1000000.0, k + 1))
  {
    WholeStepsAreExact(k);
    WholeStepsAreExact(j);
    RoundIsTheHalfEvenInteger(t * 1000000.0, k + 1);
  }

  lemma WholeStepsAreExact(k: int)
    ensures RoundHalfEven(k as real / 1000000.0 * 1000000.0) == k
  {
  }

  /** Agreeing at 12 digits puts the reals within one 12-digit step, so well within a 6-digit one. */
  lemma PicoEqualIsMicroClose(x: real, y: real)
    requires RoundHalfEven(x * PICO) == RoundHalfEven(y * PICO)
    ensures Abs(RoundHalfEven(x * MICRO) - RoundHalfEven(y * MICRO)) <= 1
  {
  }

  /** An amount that fits the context at 12 digits fits at 6. */
  lemma PicoFitsImpliesMicroFits(a: Amount)
    requires Quantize(a, PICO).Some?
    ensures Quantize(a, MICRO).Some?
  {
  }

  /** Amounts accepting one transfer under TON's rule agree with each other at 12 digits. */
  lemma SharedTransferAgrees(a: Amount, b: Amount, t: Amount)
    requires ExactMatches(a, t) == Accepts && ExactMatches(b, t) == Accepts
    ensures a.Decimal? && b.Decimal? && RoundHalfEven(a.value * PICO) == RoundHalfEven(b.value * PICO)
    ensures Quantize(a, PICO).Some? && Quantize(b, PICO).Some?
  {
  }

  lemma CloseMeansCollision(a: Amount, b: Amount)
    requires a.Decimal? && b.Decimal? && Quantize(a, MICRO).Some? && Quantize(b, MICRO).Some?
    requires Abs(RoundHalfEven(a.value * MICRO) - RoundHalfEven(b.value * MICRO)) <= 1
    ensures Collide(a, b)
  {
  }

  lemma AgreementMeansCollision(a: Amount, b: Amount)
    requires Quantize(a, PICO).Some? && Quantize(b, PICO).Some?
    requires a.Decimal? && b.Decimal? && RoundHalfEven(a.value * PICO) == RoundHalfEven(b.value * PICO)
    ensures Collide(a, b)
  {
    assert Quantize(a, MICRO).Some? && Quantize(b, MICRO).Some? by {
      PicoFitsImpliesMicroFits(a);
      PicoFitsImpliesMicroFits(b);
    }
    assert Abs(RoundHalfEven(a.value * MICRO) - RoundHalfEven(b.value * MICRO)) <= 1 by {
      PicoEqualIsMicroClose(a.value, b.value);
    }
    CloseMeansCollision(a, b);
  }

  /** TON's exact rule agrees with the 6-digit collision rule: invoices sharing a transfer collide. */
  lemma ExactSharedTransferMeansCollision(a: Amount, b: Amount, t: Amount)
    requires ExactMatches(a, t) == Accepts && ExactMatches(b, t) == Accepts
    ensures Collide(a, b)
  {
    SharedTransferAgrees(a, b, t);
    AgreementMeansCollision(a, b);
  }
}

// The shared match / confirm / expire flow of app/jobs/payments/crypto_common.py.
module TransferMatching {
  import opened Common
  import opened Amounts

  /** A pending invoice as a payment job loaded it. */
  datatype Payment = Payment(order: int, amount: Amount, createtime: int)

  /** A transfer read from the chain; `id` is None when it has no usable transaction id, and `stamp`
      when its time is absent or no number. */
  datatype Transfer = Transfer(id: Option<string>, amount: Amount, stamp: Option<int>)

  /** One call of `confirm`: the position of its payment, the transfer used, and whether it raised. */
  datatype Attempt = Attempt(index: nat, transfer: Transfer, raised: bool)

  /** What the hooks of a chain answer: the transfers offered to a payment, and the amount check. */
  datatype Hooks = Hooks(candidates: Payment -> seq<Transfer>, accepts: (Payment, Transfer) -> Verdict)

  predicate Usable(hooks: Hooks, p: Payment, t: Transfer) {
    t in hooks.candidates(p) && t.id.Some? && hooks.accepts(p, t) == Accepts
  }

  /** Attempts are for transfers the payment was offered and accepts, under ids not used before. */
  ghost predicate AttemptsAreSound(
      payments: seq<Payment>, hooks: Hooks, used: set<string>, attempts: seq<Attempt>)
  {
    && (forall i :: 0 <= i < |attempts| ==>
          && attempts[i].index < |payments|
          && Usable(hooks, payments[attempts[i].index], attempts[i].transfer)
          && attempts[i].transfer.id.value !in used)
    && (forall i, j :: 0 <= i < j < |attempts| ==>
          attempts[i].transfer.id != attempts[j].transfer.id)
  }

  /** A payment stops at its first attempt that did not raise, or at its first at all without retry. */
  ghost predicate AtMostOneCredit(attempts: seq<Attempt>, retryAfterError: bool) {
    forall i, j :: 0 <= i < j < |attempts| && attempts[i].index == attempts[j].index ==>
      retryAfterError && attempts[i].raised
  }

  predicate Reserved(attempts: seq<Attempt>, id: string) {
    exists i :: 0 <= i < |attempts| && attempts[i].transfer.id == Some(id)
  }

  /** Some payment with this order id had an attempt. */
  predicate MatchedOrder(payments: seq<Payment>, attempts: seq<Attempt>, order: int) {
    exists i :: 0 <= i < |attempts| && attempts[i].index < |payments| && payments[attempts[i].index].order == order
  }

  /** The payment at `index` had an attempt after which its candidates are not looked at again. */
  predicate Finished(attempts: seq<Attempt>, retryAfterError: bool, index: nat) {
    exists i :: 0 <= i < |attempts| && attempts[i].index == index && !(retryAfterError && attempts[i].raised)
  }

  /** A transfer that fits `p`, or cannot be compared with it, is used up by someone. */
  predicate UsedUp(hooks: Hooks, p: Payment, consumed: set<string>, t: Transfer) {
    (Usable(hooks, p, t) || hooks.accepts(p, t) == Raises) ==> t.id.Some? && t.id.value in consumed
  }

  ghost predicate Exhausted(hooks: Hooks, p: Payment, consumed: set<string>) {
    forall t :: t in hooks.candidates(p) ==> UsedUp(hooks, p, consumed, t)
  }

  ghost predicate Served(
      payments: seq<Payment>, hooks: Hooks, retryAfterError: bool, consumed: set<string>, attempts: seq<Attempt>, k: nat)
    requires k < |payments|
  {
    Finished(attempts, retryAfterError, k) || Exhausted(hooks, payments[k], consumed)
  }

  /** The amount check of a transfer that is offered to `p` and still free raises. */
  predicate Jams(hooks: Hooks, p: Payment, consumed: set<string>, t: Transfer) {
    && t in hooks.candidates(p) && hooks.accepts(p, t) == Raises
    && (t.id.Some? ==> t.id.value !in consumed)
  }

  /** The run stopped at payment `k`, with every earlier one served. */
  ghost predicate JammedAt(
      payments: seq<Payment>, hooks: Hooks, retryAfterError: bool, consumed: set<string>, attempts: seq<Attempt>, k: nat)
  {
    && k < |payments|
    && (exists t :: Jams(hooks, payments[k], consumed, t))
    && forall j: nat :: j < k ==> Served(payments, hooks, retryAfterError, consumed, attempts, j)
  }

  /** The attempts made so far are sound, credit no payment twice, and make up the two sets. */
  ghost predicate SoFar(
      payments: seq<Payment>, hooks: Hooks, used: set<string>, retryAfterError: bool,
      matched: set<int>, consumed: set<string>, attempts: seq<Attempt>)
  {
    && AttemptsAreSound(payments, hooks, used, attempts)
    && AtMostOneCredit(attempts, retryAfterError)
    && (forall id :: id in consumed <==> id in used || Reserved(attempts, id))
    && (forall o :: o in matched <==> MatchedOrder(payments, attempts, o))
  }

  /** What a whole run of the matcher guarantees: sound attempts, at most one success per payment, the
      sets they make, and every payment served unless the run jammed. */
  ghost predicate MatchResult(
      payments: seq<Payment>, hooks: Hooks, used: set<string>, retryAfterError: bool,
      matched: set<int>, consumed: set<string>, attempts: seq<Attempt>, aborted: bool)
  {
    && SoFar(payments, hooks, used, retryAfterError, matched, consumed, attempts)
    && (if aborted then exists k: nat :: JammedAt(payments, hooks, retryAfterError, consumed, attempts, k)
        else forall k: nat :: k < |payments| ==> Served(payments, hooks, retryAfterError, consumed, attempts, k))
  }

  /** The same in terms of payments, transfers and attempts. A run that is not cut short leaves no payment that
      could still be paid: it was confirmed, or each transfer it was offered is rejected or used up. */
  lemma MatchResultMeans(
      payments: seq<Payment>, hooks: Hooks, used: set<string>, retryAfterError: bool,
      matched: set<int>, consumed: set<string>, attempts: seq<Attempt>, aborted: bool)
    requires MatchResult(payments, hooks, used, retryAfterError, matched, consumed, attempts, aborted)
    ensures forall i :: 0 <= i < |attempts| ==>
      var a := attempts[i];
      && a.index < |payments| && a.transfer in hooks.candidates(payments[a.index])
      && hooks.accepts(payments[a.index], a.transfer) == Accepts
      && a.transfer.id != None && a.transfer.id.value !in used
    ensures forall i, j :: 0 <= i < j < |attempts| ==>
      && attempts[i].transfer.id != attempts[j].transfer.id
      && (attempts[i].index == attempts[j].index ==> attempts[i].raised && retryAfterError)
    ensures forall id :: id in consumed <==>
      id in used || exists i :: 0 <= i < |attempts| && attempts[i].transfer.id == Some(id)
    ensures forall o :: o in matched <==>
      exists i :: 0 <= i < |attempts| && attempts[i].index < |payments| && payments[attempts[i].index].order == o
    ensures aborted ==>
      exists k, t :: 0 <= k < |payments| && t in hooks.candidates(payments[k]) && hooks.accepts(payments[k], t) == Raises
        && (t.id == None || t.id.value !in consumed)
    ensures !aborted ==>
      forall k, t :: 0 <= k < |payments| && t in hooks.candidates(payments[k]) ==>
        || hooks.accepts(payments[k], t) == Rejects
        || (t.id == None && hooks.accepts(payments[k], t) == Accepts)
        || (t.id != None && t.id.value in consumed)
        || exists i :: 0 <= i < |attempts| && attempts[i].index == k && !(retryAfterError && attempts[i].raised)
  {
    forall id ensures id in consumed <==>
      id in used || exists i :: 0 <= i < |attempts| && attempts[i].transfer.id == Some(id)
    {
      assert id in consumed <==> id in used || Reserved(attempts, id);
    }
    forall o ensures o in matched <==>
      exists i :: 0 <= i < |attempts| && attempts[i].index < |payments| && payments[attempts[i].index].order == o
    {
      assert o in matched <==> MatchedOrder(payments, attempts, o);
    }
    if aborted {
      var k: nat :| JammedAt(payments, hooks, retryAfterError, consumed, attempts, k);
      var t :| Jams(hooks, payments[k], consumed, t);
    } else {
      forall k, t | 0 <= k < |payments| && t in hooks.candidates(payments[k])
        ensures
          || hooks.accepts(payments[k], t) == Rejects
          || (t.id == None && hooks.accepts(payments[k], t) == Accepts)
          || (t.id != None && t.id.value in consumed)
          || exists i :: 0 <= i < |attempts| && attempts[i].index == k && !(retryAfterError && attempts[i].raised)
      {
        assert Served(payments, hooks, retryAfterError, consumed, attempts, k);
        if Exhausted(hooks, payments[k], consumed) {
          assert UsedUp(hooks, payments[k], consumed, t);
        }
      }
    }
  }

  /** The attempts after the first `from` are failed ones of payment `n`, to be retried. */
  ghost predicate OnlyRetries(attempts: seq<Attempt>, from: nat, n: nat, retryAfterError: bool) {
    forall i :: from <= i < |attempts| ==> attempts[i].index == n && retryAfterError && attempts[i].raised
  }

  ghost predicate NoneYet(attempts: seq<Attempt>, n: nat) {
    forall i :: 0 <= i < |attempts| ==> attempts[i].index < n
  }

  lemma ReservedGrows(attempts: seq<Attempt>, a: Attempt, id: string)
    ensures Reserved(attempts + [a], id) <==> Reserved(attempts, id) || a.transfer.id == Some(id)
  {
    var longer := attempts + [a];
    assert longer[|attempts|] == a;
    if Reserved(attempts, id) {
      var i :| 0 <= i < |attempts| && attempts[i].transfer.id == Some(id);
      assert longer[i] == attempts[i];
    }
  }

  lemma MatchedGrows(payments: seq<Payment>, attempts: seq<Attempt>, a: Attempt, order: int)
    requires a.index < |payments|
    ensures MatchedOrder(payments, attempts + [a], order)
       <==> MatchedOrder(payments, attempts, order) || payments[a.index].order == order
  {
    var longer := attempts + [a];
    assert longer[|attempts|] == a;
    if MatchedOrder(payments, attempts, order) {
      var i :| 0 <= i < |attempts| && attempts[i].index < |payments| && payments[attempts[i].index].order == order;
      assert longer[i] == attempts[i];
    }
  }

  lemma SoundGrows(payments: seq<Payment>, hooks: Hooks, used: set<string>, attempts: seq<Attempt>, a: Attempt)
    requires AttemptsAreSound(payments, hooks, used, attempts)
    requires a.index < |payments| && Usable(hooks, payments[a.index], a.transfer)
    requires a.transfer.id.value !in used && !Reserved(attempts, a.transfer.id.value)
    ensures AttemptsAreSound(payments, hooks, used, attempts + [a])
  {
  }

  lemma FinishedStays(attempts: seq<Attempt>, longer: seq<Attempt>, retryAfterError: bool, index: nat)
    requires attempts <= longer && Finished(attempts, retryAfterError, index)
    ensures Finished(longer, retryAfterError, index)
  {
  }

  /** One more attempt, under an id nobody has used. */
  lemma SoFarGrows(
      payments: seq<Payment>, hooks: Hooks, used: set<string>, retryAfterError: bool,
      matched: set<int>, consumed: set<string>, attempts: seq<Attempt>, from: nat, a: Attempt)
    requires SoFar(payments, hooks, used, retryAfterError, matched, consumed, attempts)
    requires from <= |attempts| && NoneYet(attempts[..from], a.index)
    requires OnlyRetries(attempts, from, a.index, retryAfterError)
    requires a.index < |payments| && Usable(hooks, payments[a.index], a.transfer)
    requires a.transfer.id.value !in consumed
    ensures SoFar(payments, hooks, used, retryAfterError, matched + {payments[a.index].order},
                  consumed + {a.transfer.id.value}, attempts + [a])
  {
    forall id { ReservedGrows(attempts, a, id); }
    forall o { MatchedGrows(payments, attempts, a, o); }
    SoundGrows(payments, hooks, used, attempts, a);
    var longer := attempts + [a];
    forall i, j | 0 <= i < j < |longer| && longer[i].index == longer[j].index
      ensures retryAfterError && longer[i].raised
    {
      assert i < from ==> attempts[..from][i].index < a.index;
    }
  }

  /** match_transfers. `raises(k)` says whether the k-th call of `confirm` raises; `aborted` means an
      amount check raised, which ends the whole run. */
  method MatchTransfers(
      payments: seq<Payment>, hooks: Hooks, used: set<string>, raises: nat -> bool, retryAfterError: bool)
    returns (matched: set<int>, consumed: set<string>, attempts: seq<Attempt>, aborted: bool)
    ensures MatchResult(payments, hooks, used, retryAfterError, matched, consumed, attempts, aborted)
  {
    matched, consumed, attempts, aborted := {}, used, [], false;
    for n := 0 to |payments|
      invariant !aborted
      invariant SoFar(payments, hooks, used, retryAfterError, matched, consumed, attempts)
      invariant NoneYet(attempts, n)
      invariant forall k: nat :: k < n ==> Served(payments, hooks, retryAfterError, consumed, attempts, k)
    {
      ghost var before, was := attempts, consumed;
      matched, consumed, attempts, aborted :=
        MatchOne(payments, n, hooks, used, matched, consumed, attempts, raises, retryAfterError);
      forall k: nat | k < n ensures Served(payments, hooks, retryAfterError, consumed, attempts, k) {
        assert Served(payments, hooks, retryAfterError, was, before, k);
        if Finished(before, retryAfterError, k) {
          FinishedStays(before, attempts, retryAfterError, k);
        }
      }
      if aborted {
        assert JammedAt(payments, hooks, retryAfterError, consumed, attempts, n);
        return;
      }
    }
  }

  /** The inner loop: one payment against its candidates. */
  method MatchOne(
      payments: seq<Payment>, n: nat, hooks: Hooks, ghost used: set<string>,
      matchedIn: set<int>, consumedIn: set<string>, attemptsIn: seq<Attempt>,
      raises: nat -> bool, retryAfterError: bool)
    returns (matched: set<int>, consumed: set<string>, attempts: seq<Attempt>, aborted: bool)
    requires n < |payments| && NoneYet(attemptsIn, n)
    requires SoFar(payments, hooks, used, retryAfterError, matchedIn, consumedIn, attemptsIn)
    ensures SoFar(payments, hooks, used, retryAfterError, matched, consumed, attempts)
    ensures attemptsIn <= attempts && consumedIn <= consumed && NoneYet(attempts, n + 1)
    ensures if aborted then exists t :: Jams(hooks, payments[n], consumed, t)
            else Served(payments, hooks, retryAfterError, consumed, attempts, n)
  {
    matched, consumed, attempts, aborted := matchedIn, consumedIn, attemptsIn, false;
    var payment := payments[n];
    var offered := hooks.candidates(payment);
    for c := 0 to |offered|
      invariant SoFar(payments, hooks, used, retryAfterError, matched, consumed, attempts)
      invariant attemptsIn <= attempts && consumedIn <= consumed
      invariant OnlyRetries(attempts, |attemptsIn|, n, retryAfterError)
      invariant forall d :: 0 <= d < c ==> UsedUp(hooks, payment, consumed, offered[d])
    {
      var candidate := offered[c];
      if candidate.id.Some? && candidate.id.value in consumed {
        continue;
      }
      var verdict := hooks.accepts(payment, candidate);
      if verdict == Raises {
        aborted := true;
        assert Jams(hooks, payment, consumed, candidate);
        return;
      }
      if verdict != Accepts || candidate.id.None? {
        continue;
      }
      var made := Attempt(n, candidate, raises(|attempts|));
      assert attempts[..|attemptsIn|] == attemptsIn;
      SoFarGrows(payments, hooks, used, retryAfterError, matched, consumed, attempts, |attemptsIn|, made);
      consumed := consumed + {candidate.id.value};
      matched := matched + {payment.order};
      attempts := attempts + [made];
      if !(made.raised && retryAfterError) {
        assert attempts[|attempts| - 1] == made;
        return;
      }
    }
  }
}

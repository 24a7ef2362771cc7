// Shared vocabulary: optional values, sums over sequences, rows and traces.
module Common {

  datatype Option<+T> = None | Some(value: T)

  /** Sum of `f` over `s`, defined from the end so that appending is one unfolding. */
  function SumBy<T>(s: seq<T>, f: T -> int): int {
    if s == [] then 0 else SumBy(s[..|s| - 1], f) + f(s[|s| - 1])
  }

  lemma SumAppend<T>(s: seq<T>, x: T, f: T -> int)
    ensures SumBy(s + [x], f) == SumBy(s, f) + f(x)
  {
  }

  /** Two sums agree when their terms agree position by position. */
  lemma {:induction false} SumCongruent<T, U>(s: seq<T>, f: T -> int, t: seq<U>, g: U -> int)
    requires |s| == |t|
    requires forall i :: 0 <= i < |s| ==> f(s[i]) == g(t[i])
    ensures SumBy(s, f) == SumBy(t, g)
  {
    if s != [] {
      SumCongruent(s[..|s| - 1], f, t[..|t| - 1], g);
    }
  }

  /** Changing one position changes the sum by exactly that term. */
  lemma {:induction false} SumUpdate<T>(s: seq<T>, i: nat, y: T, f: T -> int)
    requires i < |s|
    ensures SumBy(s[i := y], f) == SumBy(s, f) - f(s[i]) + f(y)
  {
    var n := |s| - 1;
    if i == n {
      assert s[i := y][..n] == s[..n];
    } else {
      SumUpdate(s[..n], i, y, f);
      assert s[i := y][..n] == s[..n][i := y];
    }
  }

  lemma {:induction false} ZeroSum<T>(s: seq<T>, f: T -> int)
    requires forall i :: 0 <= i < |s| ==> f(s[i]) == 0
    ensures SumBy(s, f) == 0
  {
    if s != [] {
      ZeroSum(s[..|s| - 1], f);
    }
  }

  /** Sums of two weights add up to the sum of their total, term by term. */
  lemma {:induction false} SumSplit<T>(s: seq<T>, f: T -> int, g: T -> int, h: T -> int)
    requires forall i :: 0 <= i < |s| ==> h(s[i]) == f(s[i]) + g(s[i])
    ensures SumBy(s, h) == SumBy(s, f) + SumBy(s, g)
  {
    if s != [] {
      SumSplit(s[..|s| - 1], f, g, h);
    }
  }

  lemma TakeNext<T>(s: seq<T>, k: nat)
    requires k < |s|
    ensures s[..k + 1] == s[..k] + [s[k]] && s[..k + 1][..k] == s[..k]
  {
  }

  lemma ConcatAssociative<T>(a: seq<T>, b: seq<T>, c: seq<T>)
    ensures a + b + c == a + (b + c)
  {
  }

  lemma TakeAll<T>(s: seq<T>)
    ensures s[..|s|] == s
  {
  }

  /** A non-empty set of integers has a member to pick. */
  lemma SomeMember(s: set<int>)
    ensures s == {} || exists a :: a in s
  {
    if forall a :: a !in s {
      assert s == {};
    }
  }

  // ---- rows and repeats ---------------------------------------------------------------------------

  predicate NoRepeat<T(==)>(s: seq<T>) {
    forall i, j :: 0 <= i < j < |s| ==> s[i] != s[j]
  }

  function Flat<T>(rows: seq<seq<T>>): seq<T> {
    if rows == [] then [] else Flat(rows[..|rows| - 1]) + rows[|rows| - 1]
  }

  lemma FlatAppend<T>(rows: seq<seq<T>>, row: seq<T>)
    ensures Flat(rows + [row]) == Flat(rows) + row
  {
  }

  lemma {:induction false} FlatConcat<T>(a: seq<seq<T>>, b: seq<seq<T>>)
    ensures Flat(a + b) == Flat(a) + Flat(b)
  {
    if b == [] {
      assert a + b == a;
    } else {
      var init, last := b[..|b| - 1], b[|b| - 1];
      FlatConcat(a, init);
      assert a + b == (a + init) + [last];
      FlatAppend(a + init, last);
      ConcatAssociative(Flat(a), Flat(init), last);
    }
  }

  lemma SplitNoRepeat<T>(a: seq<T>, b: seq<T>)
    requires NoRepeat(a + b)
    ensures NoRepeat(a) && NoRepeat(b)
    ensures forall k :: k in b ==> k !in a
  {
    var ab := a + b;
    forall i, j | 0 <= i < j < |a| ensures a[i] != a[j] {
      assert ab[i] == a[i] && ab[j] == a[j];
    }
    forall i, j | 0 <= i < j < |b| ensures b[i] != b[j] {
      assert ab[|a| + i] == b[i] && ab[|a| + j] == b[j];
    }
    forall k | k in b ensures k !in a {
      var j :| 0 <= j < |b| && b[j] == k;
      forall i | 0 <= i < |a| ensures a[i] != k {
        assert ab[i] == a[i] && ab[|a| + j] == k;
      }
    }
  }

  predicate Lists(order: seq<int>, a: int) {
    exists i :: 0 <= i < |order| && order[i] == a
  }

  lemma ListsConcat(a: seq<int>, b: seq<int>, c: int)
    ensures Lists(a + b, c) <==> Lists(a, c) || Lists(b, c)
  {
    var ab := a + b;
    if Lists(a, c) {
      var i :| 0 <= i < |a| && a[i] == c;
      assert ab[i] == c;
    }
    if Lists(b, c) {
      var i :| 0 <= i < |b| && b[i] == c;
      assert ab[|a| + i] == c;
    }
  }

  // ---- traces of one run among others ---------------------------------------------------------

  /** One run's own events, with what the others do in between: their k-th move comes right after the k-th
      own event, so there is one before each own event but the first. */
  function Woven<T>(own: seq<T>, others: nat -> seq<T>): seq<T> {
    if |own| <= 1 then own
    else Woven(own[..|own| - 1], others) + others(|own| - 2) + [own[|own| - 1]]
  }

  lemma WovenNext<T>(own: seq<T>, others: nat -> seq<T>, e: T)
    requires own != []
    ensures Woven(own + [e], others) == Woven(own, others) + others(|own| - 1) + [e]
  {
    assert (own + [e])[..|own|] == own;
  }
}

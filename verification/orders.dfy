// Sequences sorted by a strict order given as a function: the order decides the sequence.
module Orders {

  ghost predicate Ordered<T>(s: seq<T>, before: (T, T) -> bool) {
    forall i, j :: 0 <= i < j < |s| ==> before(s[i], s[j])
  }

  /** No two members of `on` come before each other, and any two can be compared. */
  ghost predicate Total<T(!new)>(on: set<T>, before: (T, T) -> bool) {
    && (forall a, b :: a in on && b in on && before(a, b) ==> !before(b, a))
    && (forall a, b :: a in on && b in on && a != b ==> before(a, b) || before(b, a))
  }

  ghost predicate Transitive<T(!new)>(on: set<T>, before: (T, T) -> bool) {
    forall a, b, c :: a in on && b in on && c in on && before(a, b) && before(b, c) ==> before(a, c)
  }

  /** `order` holds exactly the members of `on`, sorted. */
  ghost predicate Arranges<T(!new)>(order: seq<T>, on: set<T>, before: (T, T) -> bool) {
    Ordered(order, before) && forall a :: a in order <==> a in on
  }

  predicate IsLeast<T>(on: set<T>, before: (T, T) -> bool, least: T) {
    least in on && forall other | other in on :: other == least || before(least, other)
  }

  lemma {:induction false} LeastExists<T(!new)>(on: set<T>, before: (T, T) -> bool)
    requires on != {} && Total(on, before) && Transitive(on, before)
    ensures exists least :: IsLeast(on, before, least)
  {
    var a :| a in on;
    var rest := on - {a};
    if rest == {} {
      assert forall b :: b in on ==> b == a || b in rest;
      assert IsLeast(on, before, a);
    } else {
      LeastExists(rest, before);
      var b :| IsLeast(rest, before, b);
      assert forall c :: c in on ==> c == a || c in rest;
      assert IsLeast(on, before, if before(a, b) then a else b);
    }
  }

  /** The members of `on`, sorted. */
  function Arranged<T(!new, ==)>(on: set<T>, before: (T, T) -> bool): (order: seq<T>)
    requires Total(on, before) && Transitive(on, before)
    ensures Arranges(order, on, before)
  {
    if on == {} then []
    else
      LeastExists(on, before);
      var least :| IsLeast(on, before, least);
      var rest := Arranged(on - {least}, before);
      assert forall a :: a in on <==> a == least || a in on - {least};
      [least] + rest
  }

  ghost predicate Asymmetric<T(!new)>(s: seq<T>, before: (T, T) -> bool) {
    forall a, b :: a in s && b in s && before(a, b) ==> !before(b, a)
  }

  /** Two sorted sequences of the same members are equal. */
  lemma {:induction false} SortedOnce<T(!new)>(s: seq<T>, t: seq<T>, before: (T, T) -> bool)
    requires Ordered(s, before) && Ordered(t, before) && Asymmetric(s, before)
    requires forall a :: a in s <==> a in t
    ensures s == t
  {
    Inhabited(t);
    if s != [] {
      assert s[0] in t;
      assert t != [] && t[0] in s;
      assert s[0] == t[0];
      forall a ensures a in s[1..] <==> a in t[1..] {
        RestWithoutFirst(s, before, a);
        RestWithoutFirst(t, before, a);
      }
      SortedOnce(s[1..], t[1..], before);
      assert s == [s[0]] + s[1..] && t == [t[0]] + t[1..];
    }
  }

  lemma Inhabited<T>(s: seq<T>)
    ensures s == [] || exists a :: a in s
  {
    if s != [] {
      assert s[0] in s;
    }
  }

  lemma RestWithoutFirst<T(!new)>(s: seq<T>, before: (T, T) -> bool, a: T)
    requires Ordered(s, before) && s != [] && Asymmetric(s, before)
    ensures a in s[1..] <==> a in s && a != s[0]
  {
    assert s == [s[0]] + s[1..];
    if a in s[1..] {
      var i :| 0 <= i < |s[1..]| && s[1..][i] == a;
      assert before(s[0], s[i + 1]);
    }
  }
}

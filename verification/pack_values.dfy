// The Python values a theme pack is made of: decoded JSON, dictionaries in insertion order, decimal
// numbers and sorted keys.
module PackValues {
  import opened Common

  datatype Json =
    | JNull
    | JBool(flag: bool)
    | JInt(number: int)
    | JFloat(fraction: real)
    | JStr(text: string)
    | JList(elements: seq<Json>)
    | JDict(entries: Dict<Json>)

  /** A dictionary as the sequence of its items, in insertion order. */
  type Dict<V> = seq<(string, V)>

  /** The value of `x or default`, for a `default` that is itself falsy. */
  predicate Truthy(j: Json) {
    match j
    case JNull => false
    case JBool(flag) => flag
    case JInt(number) => number != 0
    case JFloat(fraction) => fraction != 0.0
    case JStr(text) => text != []
    case JList(elements) => elements != []
    case JDict(entries) => entries != []
  }

  // ---- dictionaries -------------------------------------------------------------------------

  function Get<V>(d: Dict<V>, key: string): Option<V> {
    if d == [] then None
    else if d[0].0 == key then Some(d[0].1)
    else Get(d[1..], key)
  }

  predicate HasKey<V>(d: Dict<V>, key: string) {
    exists i :: 0 <= i < |d| && d[i].0 == key
  }

  predicate UniqueKeys<V>(d: Dict<V>) {
    forall i, j :: 0 <= i < j < |d| ==> d[i].0 != d[j].0
  }

  /** d[key] = value: replaced in place, or added at the end. */
  function SetItem<V>(d: Dict<V>, key: string, value: V): Dict<V> {
    if d == [] then [(key, value)]
    else if d[0].0 == key then [(key, value)] + d[1..]
    else [d[0]] + SetItem(d[1..], key, value)
  }

  lemma {:induction false} GetAt<V>(d: Dict<V>, i: nat)
    requires i < |d| && UniqueKeys(d)
    ensures Get(d, d[i].0) == Some(d[i].1)
  {
    if i > 0 {
      assert d[0].0 != d[i].0;
      GetAt(d[1..], i - 1);
    }
  }

  lemma {:induction false} GetMissing<V>(d: Dict<V>, key: string)
    requires !HasKey(d, key)
    ensures Get(d, key) == None
  {
    if d != [] {
      assert d[0].0 != key;
      assert forall i :: 0 <= i < |d[1..]| ==> d[1..][i].0 == d[i + 1].0;
      GetMissing(d[1..], key);
    }
  }

  lemma {:induction false} SetNew<V>(d: Dict<V>, key: string, value: V)
    requires !HasKey(d, key)
    ensures SetItem(d, key, value) == d + [(key, value)]
  {
    if d != [] {
      assert d[0].0 != key;
      assert forall i :: 0 <= i < |d[1..]| ==> d[1..][i].0 == d[i + 1].0;
      SetNew(d[1..], key, value);
    }
  }

  lemma {:induction false} SetLast<V>(d: Dict<V>, key: string, before: V, value: V)
    requires !HasKey(d, key)
    ensures SetItem(d + [(key, before)], key, value) == d + [(key, value)]
    ensures Get(d + [(key, before)], key) == Some(before)
  {
    if d != [] {
      assert d[0].0 != key;
      assert forall i :: 0 <= i < |d[1..]| ==> d[1..][i].0 == d[i + 1].0;
      SetLast(d[1..], key, before, value);
      assert (d + [(key, before)])[1..] == d[1..] + [(key, before)];
    }
  }

  /** Storing one item keeps the keys unique and touches no other item. */
  lemma {:induction false} SetStaysUnique<V>(d: Dict<V>, key: string, value: V)
    requires UniqueKeys(d)
    ensures UniqueKeys(SetItem(d, key, value))
    ensures |d| <= |SetItem(d, key, value)| <= |d| + 1
    ensures forall i :: 0 <= i < |SetItem(d, key, value)| ==>
      SetItem(d, key, value)[i] == (key, value) || (SetItem(d, key, value)[i] in d && SetItem(d, key, value)[i].0 != key)
    decreases d
  {
    if d != [] && d[0].0 != key {
      var rest := SetItem(d[1..], key, value);
      SetStaysUnique(d[1..], key, value);
      forall i | 0 <= i < |rest| ensures rest[i].0 != d[0].0 {
        assert rest[i] == (key, value) || rest[i] in d[1..];
      }
    }
  }

  lemma {:induction false} SetMembers<V>(d: Dict<V>, key: string, value: V, x: (string, V))
    requires UniqueKeys(d)
    ensures x in SetItem(d, key, value) <==> (if x.0 == key then x.1 == value else x in d)
    decreases d
  {
    if d != [] {
      assert d == [d[0]] + d[1..];
      if d[0].0 == key {
        forall i | 0 <= i < |d[1..]| ensures d[1..][i].0 != key {
          assert d[1..][i] == d[i + 1];
        }
      } else {
        SetMembers(d[1..], key, value, x);
      }
    }
  }

  // ---- decimal numbers ----------------------------------------------------------------------

  function Digit(d: nat): char
    requires d < 10
  {
    ('0' as int + d) as char
  }

  lemma DigitsAre(d: nat)
    requires d < 10
    ensures Digit(d) == "0123456789"[d]
  {
  }

  function ShowNat(n: nat): string {
    if n < 10 then [Digit(n)] else ShowNat(n / 10) + [Digit(n % 10)]
  }

  /** Every character counts as a decimal digit, by the digit values `digit`. */
  predicate AllDigits(digit: char -> int, s: string) {
    forall i :: 0 <= i < |s| ==> 0 <= digit(s[i]) <= 9
  }

  function ReadNat(digit: char -> int, s: string): nat
    requires AllDigits(digit, s)
  {
    if s == [] then 0 else 10 * ReadNat(digit, s[..|s| - 1]) + digit(s[|s| - 1])
  }

  ghost predicate KnowsAscii(digit: char -> int) {
    forall d: nat :: d < 10 ==> digit(Digit(d)) == d
  }

  function Power10(k: nat): nat {
    if k == 0 then 1 else 10 * Power10(k - 1)
  }

  /** int(str(n)) == n, and a number below 10^k has at most k digits. */
  lemma {:induction false} ReadUndoesShow(digit: char -> int, n: nat)
    requires KnowsAscii(digit)
    ensures AllDigits(digit, ShowNat(n)) && ReadNat(digit, ShowNat(n)) == n && |ShowNat(n)| >= 1
    decreases n
  {
    if n >= 10 {
      ReadUndoesShow(digit, n / 10);
      assert ShowNat(n)[..|ShowNat(n)| - 1] == ShowNat(n / 10);
    } else {
      assert ShowNat(n)[..0] == [];
    }
  }

  lemma {:induction false} ShowIsShort(n: nat, k: nat)
    requires n < Power10(k) && k >= 1
    ensures |ShowNat(n)| <= k
    decreases n
  {
    if n >= 10 {
      ShowIsShort(n / 10, k - 1);
    }
  }

  // ---- sorted keys --------------------------------------------------------------------------

  /** Python's order on strings: by code point, a prefix first. */
  predicate Below(a: string, b: string)
    decreases a
  {
    if a == [] then b != []
    else b != [] && (a[0] < b[0] || (a[0] == b[0] && Below(a[1..], b[1..])))
  }

  predicate Ascending(s: seq<string>) {
    forall i, j :: 0 <= i < j < |s| ==> Below(s[i], s[j])
  }

  lemma {:induction false} BelowIsStrictOrder(a: string, b: string, c: string)
    ensures !Below(a, a)
    ensures a != b ==> Below(a, b) || Below(b, a)
    ensures Below(a, b) && Below(b, c) ==> Below(a, c)
    decreases a
  {
    if a != [] {
      if b != [] && c != [] {
        BelowIsStrictOrder(a[1..], b[1..], c[1..]);
        assert a == [a[0]] + a[1..] && b == [b[0]] + b[1..];
      } else if b != [] {
        BelowIsStrictOrder(a[1..], b[1..], a[1..]);
        assert a == [a[0]] + a[1..] && b == [b[0]] + b[1..];
      } else {
        BelowIsStrictOrder(a[1..], a[1..], a[1..]);
      }
    }
  }

  /** Insert into an ascending sequence, once. */
  function InsertKey(s: seq<string>, key: string): seq<string> {
    if s == [] then [key]
    else if s[0] == key then s
    else if Below(key, s[0]) then [key] + s
    else [s[0]] + InsertKey(s[1..], key)
  }

  lemma {:induction false} InsertKeyKeepsOrder(s: seq<string>, key: string)
    requires Ascending(s)
    ensures Ascending(InsertKey(s, key))
    ensures forall k :: k in InsertKey(s, key) <==> k == key || k in s
  {
    if s != [] {
      BelowIsStrictOrder(s[0], key, key);
      if s[0] == key {
      } else if Below(key, s[0]) {
        forall j | 0 <= j < |s| ensures Below(key, s[j]) {
          BelowIsStrictOrder(key, s[0], s[j]);
        }
      } else {
        var rest := InsertKey(s[1..], key);
        InsertKeyKeepsOrder(s[1..], key);
        forall j | 0 <= j < |rest| ensures Below(s[0], rest[j]) {
          assert rest[j] in rest;
        }
      }
    }
  }

  lemma {:induction false} InsertGreatest(s: seq<string>, key: string)
    requires forall i :: 0 <= i < |s| ==> Below(s[i], key)
    ensures InsertKey(s, key) == s + [key]
  {
    if s != [] {
      BelowIsStrictOrder(s[0], key, s[0]);
      InsertGreatest(s[1..], key);
    }
  }
}

/** Definitions that several modules share. */
module Common {
  /** A task, by the address of its control block. */
  type Task = nat

  /** The largest values of `BaseType_t` and `UBaseType_t`, a signed and an unsigned char on this port. */
  const MAX_BASE := 127
  const MAX_UBASE := 255

  function Min(a: nat, b: nat): nat {
    if a < b then a else b
  }

  function Max(a: nat, b: nat): nat {
    if a < b then b else a
  }

  lemma Distribute(p: int, q: int, a: int)
    ensures (p + q) * a == p * a + q * a
    ensures (p - q) * a == p * a - q * a
  {
  }

  lemma AtLeastOnce(d: nat, a: nat)
    requires 0 < d
    ensures a <= d * a
  {
  }

  lemma NoMultipleBetween(d: int, a: nat)
    requires d * a < a && 0 < d * a + a
    ensures d == 0
  {
    if d > 0 {
      AtLeastOnce(d, a);
    } else if d < 0 {
      Distribute(0, d, a);
      AtLeastOnce(0 - d, a);
    }
  }

  lemma Ordered(p: int, q: int, a: nat)
    requires q * a <= p * a && 0 < a
    ensures q <= p
  {
    if p < q {
      Distribute(q, p, a);
      AtLeastOnce(q - p, a);
    }
  }

  /** Quotient and remainder are determined by what they add up to. */
  lemma DivisionUnique(x: nat, n: nat, q: nat, r: nat)
    requires x == q * n + r && r < n
    ensures x / n == q && x % n == r
  {
    Distribute(x / n, q, n);
    NoMultipleBetween(x / n - q, n);
  }

  ghost predicate Distinct<T>(s: seq<T>) {
    forall i, j :: 0 <= i < j < |s| ==> s[i] != s[j]
  }

  lemma InsertDistinct<T>(s: seq<T>, p: nat, t: T)
    requires Distinct(s) && p <= |s| && t !in s
    ensures Distinct(s[..p] + [t] + s[p..]) && forall x :: x in s[..p] + [t] + s[p..] <==> x in s || x == t
  {
    assert s == s[..p] + s[p..];
  }

  lemma SomeElement<T>(s: seq<T>)
    ensures s == [] || exists x :: x in s
  {
    if s != [] {
      assert s[0] in s;
    }
  }

  /** A sequence without the first occurrence of an element. */
  function Without<T(==)>(s: seq<T>, t: T): (r: seq<T>)
    ensures |r| == if t in s then |s| - 1 else |s|
  {
    if s == [] then [] else if s[0] == t then s[1..] else [s[0]] + Without(s[1..], t)
  }

  lemma {:induction false} WithoutElements<T>(s: seq<T>, t: T)
    requires Distinct(s)
    ensures Distinct(Without(s, t)) && forall x :: x in Without(s, t) <==> x in s && x != t
  {
    if s != [] && s[0] != t {
      var rest := Without(s[1..], t);
      WithoutElements(s[1..], t);
      assert forall x :: x in s <==> x == s[0] || x in s[1..];
      assert s[0] !in s[1..];
      var w := Without(s, t);
      assert w == [s[0]] + rest;
      forall i, j | 0 <= i < j < |w|
        ensures w[i] != w[j]
      {
        assert w[j] == rest[j - 1] && (i > 0 ==> w[i] == rest[i - 1]);
      }
    }
  }

  /** What is left is in order. */
  lemma {:induction false} WithoutAt<T>(s: seq<T>, k: nat)
    requires k < |s| && s[k] !in s[..k]
    ensures Without(s, s[k]) == s[..k] + s[k + 1..]
  {
    if k > 0 {
      assert s[0] in s[..k];
      assert s[1..][..k - 1] == s[..k][1..];
      WithoutAt(s[1..], k - 1);
      assert s[..k] == [s[0]] + s[1..][..k - 1];
    }
  }
}

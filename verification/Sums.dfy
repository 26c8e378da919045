/** Totals over finite maps. */
module Sums {
  ghost function Sum(m: map<nat, nat>): nat {
    if m == map[] then 0
    else
      var a :| a in m;
      m[a] + Sum(m - {a})
  }

  /** The total does not depend on the order of summation. */
  lemma {:induction false} SumWithout(m: map<nat, nat>, a: nat)
    requires a in m
    ensures Sum(m) == m[a] + Sum(m - {a})
    decreases m
  {
    var b :| b in m && Sum(m) == m[b] + Sum(m - {b});
    if b != a {
      SumWithout(m - {b}, a);
      SumWithout(m - {a}, b);
      assert m - {b} - {a} == m - {a} - {b};
    }
  }

  lemma SumUpdate(m: map<nat, nat>, a: nat, v: nat)
    requires a in m
    ensures Sum(m[a := v]) == Sum(m) - m[a] + v
  {
    SumWithout(m, a);
    SumWithout(m[a := v], a);
    assert m[a := v] - {a} == m - {a};
  }

  lemma {:induction false} SumMonotone(m: map<nat, nat>, n: map<nat, nat>)
    requires m.Keys == n.Keys && forall a :: a in m ==> m[a] <= n[a]
    ensures Sum(m) <= Sum(n)
    decreases m
  {
    if m != map[] {
      var a :| a in m;
      SumWithout(m, a);
      SumWithout(n, a);
      SumMonotone(m - {a}, n - {a});
    } else {
      assert n == map[];
    }
  }

  /** A sequence without one number. */
  lemma {:induction false} Others(s: seq<nat>, a: nat) returns (rest: seq<nat>)
    ensures |rest| == |s| - multiset(s)[a] && multiset(rest) == multiset(s)[a := 0]
  {
    if s == [] {
      rest := [];
    } else {
      var front, last := s[..|s| - 1], s[|s| - 1];
      assert s == front + [last];
      rest := Others(front, a);
      if last != a {
        rest := rest + [last];
      }
    }
  }

  /** A sequence in which each number occurs no more often than a map allows is no longer than its total. */
  lemma {:induction false} OccurrencesBound(s: seq<nat>, m: map<nat, nat>)
    requires forall a :: a in s ==> a in m
    requires forall a :: a in m ==> multiset(s)[a] <= m[a]
    ensures |s| <= Sum(m)
    decreases m
  {
    if s != [] {
      var a := s[0];
      SumWithout(m, a);
      var rest := Others(s, a);
      assert forall b :: b in rest ==> b in multiset(rest);
      assert forall b :: b in multiset(s) ==> b in s;
      hide Sum;
      OccurrencesBound(rest, m - {a});
    }
  }

  /** One in which each number occurs at least that often is no shorter. */
  lemma {:induction false} OccurrencesCover(s: seq<nat>, m: map<nat, nat>)
    requires forall a :: a in m ==> m[a] <= multiset(s)[a]
    ensures Sum(m) <= |s|
    decreases m
  {
    if m != map[] {
      var a :| a in m;
      SumWithout(m, a);
      var rest := Others(s, a);
      hide Sum;
      OccurrencesCover(rest, m - {a});
    }
  }
}

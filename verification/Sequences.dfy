/** Searching a sequence, picking from a set, and comparing sets by size. */
module Sequences {

  /** The first place of `x`, or the length. */
  function Find<T(==)>(s: seq<T>, x: T): nat { if s == [] || s[0] == x then 0 else 1 + Find(s[1..], x) }

  lemma {:induction false} FindIs<T>(s: seq<T>, x: T)
    ensures Find(s, x) <= |s| && (Find(s, x) < |s| <==> x in s)
    ensures Find(s, x) < |s| ==> s[Find(s, x)] == x
    ensures forall k | 0 <= k < Find(s, x) :: s[k] != x
  {
    if s != [] && s[0] != x {
      FindIs(s[1..], x);
    }
  }

  lemma FindUnique<T>(s: seq<T>, x: T, k: nat)
    requires k <= |s| && (k < |s| ==> s[k] == x) && forall j | 0 <= j < k :: s[j] != x
    ensures Find(s, x) == k
  {
    FindIs(s, x);
  }

  /** The first element of an ordered set. */
  method Smallest(s: set<int>) returns (m: int)
    requires s != {}
    ensures m in s && forall x | x in s :: m <= x
  {
    m := AnyOf(s);
    var rest := s - {m};
    while rest != {}
      invariant m in s && rest <= s
      invariant forall x | x in s && x !in rest :: m <= x
      decreases rest
    {
      var x := AnyOf(rest);
      rest := rest - {x};
      if x < m {
        m := x;
      }
    }
  }

  method AnyOf<T>(s: set<T>) returns (x: T)
    requires s != {}
    ensures x in s
  {
    x :| x in s;
  }

  lemma SubsetSize<T>(s: set<T>, t: set<T>)
    requires s <= t
    ensures |s| <= |t|
  {
    assert t == s + (t - s);
  }
}

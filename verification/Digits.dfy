/** Numbers written in some base, the highest digit first. */
module Digits {
  import opened Numbers

  type Digits = seq<nat>

  predicate Below(b: nat, s: Digits) { forall i | 0 <= i < |s| :: s[i] < b }

  function Zeros(n: nat): (z: Digits)
    ensures |z| == n && forall i | 0 <= i < n :: z[i] == 0
  {
    seq(n, _ => 0)
  }

  function Val(b: nat, s: Digits): nat { if s == [] then 0 else Val(b, s[..|s| - 1]) * b + s[|s| - 1] }

  lemma ValAppend(b: nat, s: Digits, d: nat)
    ensures Val(b, s + [d]) == Val(b, s) * b + d
  {
    assert (s + [d])[..|s|] == s;
  }

  lemma {:induction false} ValBound(b: nat, s: Digits)
    requires b > 0 && Below(b, s)
    ensures Val(b, s) < Pow(b, |s|)
  {
    if s != [] {
      var n := |s| - 1;
      ValBound(b, s[..n]);
      MulMono(Val(b, s[..n]) + 1, Pow(b, n), b);
      Distribute(Val(b, s[..n]), 1, b);
    }
  }

  /** Digits are determined by their number and the value. */
  lemma {:induction false} ValInjective(b: nat, s: Digits, t: Digits)
    requires b > 0 && |s| == |t| && Below(b, s) && Below(b, t) && Val(b, s) == Val(b, t)
    ensures s == t
  {
    if s != [] {
      var n := |s| - 1;
      DivOfMultiple(Val(b, s[..n]), b, s[n]);
      DivOfMultiple(Val(b, t[..n]), b, t[n]);
      ValInjective(b, s[..n], t[..n]);
    }
  }

  lemma {:induction false} ValConcat(b: nat, s: Digits, t: Digits)
    ensures Val(b, s + t) == Val(b, s) * Pow(b, |t|) + Val(b, t)
  {
    if t == [] {
      assert s + t == s;
    } else {
      var n := |t| - 1;
      ValConcat(b, s, t[..n]);
      assert (s + t)[..|s + t| - 1] == s + t[..n];
      Distribute(Val(b, s) * Pow(b, n), Val(b, t[..n]), b);
      MulAssoc(Val(b, s), Pow(b, n), b);
    }
  }

  lemma {:induction false} ValZeros(b: nat, s: Digits)
    requires forall i | 0 <= i < |s| :: s[i] == 0
    ensures Val(b, s) == 0
  {
    if s != [] {
      ValZeros(b, s[..|s| - 1]);
    }
  }
}

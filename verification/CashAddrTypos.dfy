/** Mistyped CashAddr addresses: up to four wrong characters, prefix included, are always refused. */
module CashAddrTypos {
  import opened Digits
  import opened Sequences
  import opened CashAddr
  import opened CashAddrText
  import opened CashAddrBch

  /** The address in full, in lower case. */
  function Spelled(s: string, defaultPrefix: string): string {
    PrefixOf(s, defaultPrefix) + ":" + LowerAll(DataOf(s))
  }

  ghost function Mistyped(s: string, t: string): set<nat>
    requires |s| == |t|
  {
    set k: nat | k < |s| && s[k] != t[k]
  }

  /** The symbols that the checksum runs over, one for each character of the full address. */
  function Symbols(s: string, defaultPrefix: string): (v: Digits)
    requires Readable(DataOf(s))
    ensures |v| == |Spelled(s, defaultPrefix)| && Below(32, v)
  {
    Expand(PrefixOf(s, defaultPrefix)) + Values(DataOf(s))
  }

  lemma SameCharacter(a: char, b: char)
    requires Rev(a) != -1 && Rev(b) != -1
    ensures Rev(a) == Rev(b) <==> Lower(a) == Lower(b)
  {
    hide Rev, CharOf, Lower;
    CharRev(a);
    CharRev(b);
    RevChar(Rev(a));
    RevChar(Rev(b));
  }

  lemma SameLetter(a: char, b: char)
    requires IsLower(a) && IsLower(b)
    ensures a as nat % 32 == b as nat % 32 <==> a == b
  {
  }

  /** A prefix in the string consists of letters, which the string's result leaves in lower case. */
  lemma LettersBefore(s: string, defaultPrefix: string)
    requires WellFormed(s) && Colon(s) != 0
    ensures IsPrefix(PrefixOf(s, defaultPrefix))
  {
    FindIs(s, ':');
    assert FineColon(s, Colon(s));
    forall j | 0 <= j < Colon(s) ensures IsLower(Lower(s[j])) {
      assert Allowed(s[j]);
    }
  }

  predicate Comparable(p: string, q: string) { |p| == |q| && (p == q || (IsPrefix(p) && IsPrefix(q))) }

  lemma PrefixApart(p: string, q: string, k: nat)
    requires Comparable(p, q) && k < |p|
    ensures Expand(p)[k] == Expand(q)[k] <==> p[k] == q[k]
  {
    if p != q {
      SameLetter(p[k], q[k]);
    }
  }

  lemma MistypedIsWrong(s: string, t: string, defaultPrefix: string)
    requires Readable(DataOf(s)) && Readable(DataOf(t)) && |DataOf(s)| == |DataOf(t)|
    requires Comparable(PrefixOf(s, defaultPrefix), PrefixOf(t, defaultPrefix))
    ensures |Spelled(s, defaultPrefix)| == |Spelled(t, defaultPrefix)|
    ensures Wrong(Symbols(s, defaultPrefix), Symbols(t, defaultPrefix))
         == Mistyped(Spelled(s, defaultPrefix), Spelled(t, defaultPrefix))
  {
    hide Rev, Lower, DataOf, PrefixOf, Comparable;
    var p, q, x, y := PrefixOf(s, defaultPrefix), PrefixOf(t, defaultPrefix), DataOf(s), DataOf(t);
    assert |p| == |q| by { IsComparable(p, q); }
    var v, w := Symbols(s, defaultPrefix), Symbols(t, defaultPrefix);
    var a, b := Spelled(s, defaultPrefix), Spelled(t, defaultPrefix);
    forall k: nat | k < |v| ensures v[k] == w[k] <==> a[k] == b[k] {
      if k < |p| {
        PrefixApart(p, q, k);
      } else if k > |p| {
        var i := k - |p| - 1;
        SameCharacter(x[i], y[i]);
      }
    }
  }

  lemma IsComparable(p: string, q: string)
    requires Comparable(p, q)
    ensures |p| == |q|
  {
  }

  /**
   An address that decodes, with one to four of its characters mistyped, is rejected, whether they are
   in the prefix or behind it. The window of 1025 characters is wider than any address of the node's
   networks, and all of these have letters as prefix.
   */
  lemma TyposRejected(s: string, t: string, defaultPrefix: string)
    requires !Decode(s, defaultPrefix).Rejected?
    requires |PrefixOf(s, defaultPrefix)| == |PrefixOf(t, defaultPrefix)| && |DataOf(s)| == |DataOf(t)|
    requires PrefixOf(s, defaultPrefix) == PrefixOf(t, defaultPrefix) || IsPrefix(defaultPrefix)
    requires var typos := Mistyped(Spelled(s, defaultPrefix), Spelled(t, defaultPrefix));
             1 <= |typos| <= 4 && forall p, r | p in typos && r in typos :: p - r < 1025
    ensures Decode(t, defaultPrefix).Rejected?
  {
    hide Mistyped, Wrong, Values, DataOf, WellFormed, Rev, Fold, IsPrefix, Spelled, PrefixOf, Colon;
    if !Decode(t, defaultPrefix).Rejected? {
      AreComparable(s, t, defaultPrefix);
      MistypedIsWrong(s, t, defaultPrefix);
      var v, w := Symbols(s, defaultPrefix), Symbols(t, defaultPrefix);
      FourErrorsFound(1, v, w);
      NoneWrong(v);
    }
  }

  lemma AreComparable(s: string, t: string, defaultPrefix: string)
    requires WellFormed(s) && WellFormed(t) && |PrefixOf(s, defaultPrefix)| == |PrefixOf(t, defaultPrefix)|
    requires PrefixOf(s, defaultPrefix) == PrefixOf(t, defaultPrefix) || IsPrefix(defaultPrefix)
    ensures Comparable(PrefixOf(s, defaultPrefix), PrefixOf(t, defaultPrefix))
  {
    hide WellFormed, IsPrefix, Colon;
    if Colon(s) != 0 {
      LettersBefore(s, defaultPrefix);
    }
    if Colon(t) != 0 {
      LettersBefore(t, defaultPrefix);
    }
  }

  lemma NoneWrong(v: Digits)
    ensures Wrong(v, v) == {}
  {
  }
}

/** How far the skip pointer of a block goes, and how many steps a walk along the pointers takes. */
module SkipHeights {
  import opened Numbers

  // ----- how far a skip pointer goes -----

  /** Bitwise and of two numbers. */
  function BitAnd(x: nat, y: nat): nat
    decreases x
  {
    if x == 0 then 0 else 2 * BitAnd(x / 2, y / 2) + if x % 2 == 1 && y % 2 == 1 then 1 else 0
  }

  /** Turns the lowest one of a number into a zero. */
  function InvertLowestOne(n: nat): nat { if n == 0 then 0 else BitAnd(n, n - 1) }

  lemma {:induction false} AndSame(x: nat)
    ensures BitAnd(x, x) == x
  {
    if x > 0 {
      AndSame(x / 2);
    }
  }

  lemma InvertOdd(m: nat)
    ensures InvertLowestOne(2 * m + 1) == 2 * m
  {
    AndSame(m);
  }

  lemma InvertEven(m: nat)
    requires m > 0
    ensures InvertLowestOne(2 * m) == 2 * InvertLowestOne(m)
  {
    assert (2 * m - 1) / 2 == m - 1;
  }

  /** Exactly one power of two goes away, the largest that divides the number. */
  lemma {:induction false} InvertsLowest(n: nat) returns (k: nat)
    requires n > 0
    ensures Pow(2, k) > 0 && InvertLowestOne(n) == n - Pow(2, k) && n % Pow(2, k) == 0 && n / Pow(2, k) % 2 == 1
  {
    hide InvertLowestOne;
    if n % 2 == 1 {
      k := 0;
      InvertOdd(n / 2);
    } else {
      var m := n / 2;
      InvertEven(m);
      var j := InvertsLowest(m);
      k := j + 1;
      DoubleDivides(m, Pow(2, j));
    }
  }

  lemma DoubleDivides(m: nat, p: nat)
    requires p > 0 && m % p == 0
    ensures 2 * m % (2 * p) == 0 && 2 * m / (2 * p) == m / p
  {
    var q := m / p;
    assert 2 * m == q * (2 * p);
    DivOfMultiple(q, 2 * p, 0);
  }

  function GetSkipHeight(height: nat): nat {
    if height < 2 then 0
    else if height % 2 == 1 then InvertLowestOne(InvertLowestOne(height - 1)) + 1
    else InvertLowestOne(height)
  }

  lemma SkipHeightBelow(height: nat)
    requires height > 0
    ensures GetSkipHeight(height) < height
  {
    if height >= 2 {
      var k := InvertsLowest(if height % 2 == 1 then height - 1 else height);
      if height % 2 == 1 && InvertLowestOne(height - 1) > 0 {
        var j := InvertsLowest(InvertLowestOne(height - 1));
      }
    }
  }

  // ----- one step of a walk -----

  /** Where a walk to height `t` goes from height `w`: along the skip pointer, or to the parent. */
  function Next(w: nat, t: nat): (n: nat)
    requires t < w
    ensures t <= n < w
  {
    SkipHeightBelow(w);
    var skip, skipPrev := GetSkipHeight(w), GetSkipHeight(w - 1);
    if skip == t || (skip > t && !(skipPrev < skip - 2 && skipPrev >= t)) then skip else w - 1
  }

  function Steps(w: nat, t: nat): nat
    requires t <= w
  {
    if w == t then 0 else 1 + Steps(Next(w, t), t)
  }

  // ----- where two heights part -----

  /** The place of the highest bit in which two numbers differ. */
  function Level(h: nat, g: nat): nat
    requires g < h
    decreases h
  {
    if h / 2 == g / 2 then 0 else 1 + Level(h / 2, g / 2)
  }

  /** The ones of `h` below that bit. */
  function OnesLeft(h: nat, g: nat): nat
    requires g < h
    decreases h
  {
    if h / 2 == g / 2 then 0 else h % 2 + OnesLeft(h / 2, g / 2)
  }

  lemma {:induction false} OnesFit(h: nat, g: nat)
    requires g < h
    ensures OnesLeft(h, g) <= Level(h, g)
    decreases h
  {
    if h / 2 != g / 2 {
      OnesFit(h / 2, g / 2);
    }
  }

  lemma {:induction false} LevelFits(h: nat, g: nat, k: nat)
    requires g < h < Pow(2, k)
    ensures Level(h, g) < k
    decreases h
  {
    if k > 0 && h / 2 != g / 2 {
      LevelFits(h / 2, g / 2, k - 1);
    }
  }

  /** With ones left, clearing the lowest takes one of them. */
  lemma {:induction false} ClearOne(h: nat, g: nat)
    requires g < h && OnesLeft(h, g) > 0
    ensures var c := InvertLowestOne(h);
            g < c && Level(c, g) == Level(h, g) && OnesLeft(c, g) == OnesLeft(h, g) - 1
    decreases h
  {
    hide InvertLowestOne;
    var m := h / 2;
    if h % 2 == 1 {
      InvertOdd(m);
    } else {
      InvertEven(m);
      ClearOne(m, g / 2);
    }
  }

  /** With none left, it takes the bit itself, and goes too far or just far enough. */
  lemma {:induction false} ClearLast(h: nat, g: nat)
    requires g < h && OnesLeft(h, g) == 0
    ensures InvertLowestOne(h) <= g
    decreases h
  {
    hide InvertLowestOne;
    var m := h / 2;
    if h % 2 == 1 {
      InvertOdd(m);
    } else {
      InvertEven(m);
      if m != g / 2 {
        ClearLast(m, g / 2);
      }
    }
  }

  /** One less, with ones left and one among the lowest two bits. */
  lemma OneLess(h: nat, g: nat)
    requires g < h && OnesLeft(h, g) > 0 && h % 4 != 0
    ensures g < h - 1 && Level(h - 1, g) == Level(h, g)
    ensures OnesLeft(h - 1, g) == OnesLeft(h, g) - h % 2
  {
    var m := h / 2;
    if h % 2 == 1 {
      assert h == 2 * m + 1;
      assert (h - 1) / 2 == m && (h - 1) % 2 == 0;
    } else {
      assert h == 2 * m && m == 2 * (m / 2) + 1;
      assert (h - 1) / 2 == m - 1 && (h - 1) % 2 == 1;
      assert (m - 1) / 2 == m / 2 && (m - 1) % 2 == 0;
    }
  }

  /** One less, with none left: a lower level. */
  lemma {:induction false} LevelDown(h: nat, g: nat)
    requires g < h && OnesLeft(h, g) == 0
    ensures h - 1 == g || Level(h - 1, g) < Level(h, g)
    decreases h
  {
    if h / 2 != g / 2 {
      LevelDown(h / 2, g / 2);
      assert (h - 1) / 2 == h / 2 - 1;
    }
  }

  // ----- a bound that goes down with every step -----

  /** Steps at an even height before the walk leaves its level, by the ones left. */
  function EvenSteps(q: nat): nat { if q <= 1 then q + 1 else q + 2 }

  /** And at an odd height, where a skip clears two ones. */
  function OddSteps(q: nat): nat { q / 2 + 2 + q % 2 }

  /** Steps below a level. */
  function Below(p: nat): nat { if p == 0 then 1 else Below(p - 1) + OddSteps(p - 1) }

  /** From here the skip pointer leads to the target or next to it. */
  predicate Lands(w: nat, t: nat) { w % 2 == 1 && GetSkipHeight(w) >= t && GetSkipHeight(w) / 2 == t / 2 }

  function Bound(w: nat, t: nat): nat
    requires t <= w
  {
    var h, g := w / 2, t / 2;
    if h == g then w - t
    else if Lands(w, t) then 2
    else (if w % 2 == 1 then OddSteps(OnesLeft(h, g)) else EvenSteps(OnesLeft(h, g))) + Below(Level(h, g))
  }

  lemma {:induction false} BelowGrows(p: nat, q: nat)
    requires p < q
    ensures Below(p) + OddSteps(p) <= Below(q) && Below(q) >= 3
    decreases q
  {
    if p < q - 1 {
      BelowGrows(p, q - 1);
    } else if p > 0 {
      BelowGrows(p - 1, p);
    }
  }

  lemma EvenSkip(h: nat)
    requires h > 0
    ensures GetSkipHeight(2 * h) == 2 * InvertLowestOne(h)
  {
    InvertEven(h);
  }

  lemma {:induction false} InvertBelow(n: nat)
    requires n > 0
    ensures InvertLowestOne(n) < n
  {
    hide InvertLowestOne;
    if n % 2 == 1 {
      InvertOdd(n / 2);
    } else {
      InvertEven(n / 2);
      InvertBelow(n / 2);
    }
  }

  lemma InvertZero()
    ensures InvertLowestOne(0) == 0
  {
  }

  lemma OddSkip(h: nat)
    requires h > 0
    ensures GetSkipHeight(2 * h + 1) == 2 * InvertLowestOne(InvertLowestOne(h)) + 1
    ensures InvertLowestOne(InvertLowestOne(h)) <= InvertLowestOne(h) < h
    ensures InvertLowestOne(h) > 0 ==> InvertLowestOne(InvertLowestOne(h)) < InvertLowestOne(h)
  {
    hide InvertLowestOne;
    InvertEven(h);
    InvertBelow(h);
    InvertZero();
    var c := InvertLowestOne(h);
    if c > 0 {
      InvertEven(c);
      InvertBelow(c);
    }
    assert (2 * h + 1) % 2 == 1;
  }

  /** What clearing two ones comes to, by the ones left. */
  lemma ClearTwo(h: nat, g: nat)
    requires g < h
    ensures var c := InvertLowestOne(InvertLowestOne(h));
            if OnesLeft(h, g) >= 2
            then g < c && Level(c, g) == Level(h, g) && OnesLeft(c, g) == OnesLeft(h, g) - 2
            else c <= g
  {
    hide InvertLowestOne;
    var c := InvertLowestOne(h);
    OddSkip(h);
    if OnesLeft(h, g) == 0 {
      ClearLast(h, g);
    } else {
      ClearOne(h, g);
      if OnesLeft(h, g) == 1 {
        ClearLast(c, g);
      } else {
        ClearOne(c, g);
      }
    }
  }

  lemma OddGoesDown(h: nat, t: nat)
    requires t / 2 < h
    ensures Bound(Next(2 * h + 1, t), t) < Bound(2 * h + 1, t)
  {
    hide InvertLowestOne, GetSkipHeight;
    var w, g := 2 * h + 1, t / 2;
    OddSkip(h);
    EvenSkip(h);
    ClearTwo(h, g);
    var c := InvertLowestOne(InvertLowestOne(h));
    assert w / 2 == h && (w - 1) / 2 == h && GetSkipHeight(w) / 2 == c;
  }

  /** With no ones left, an even height is where the walk goes down a level. */
  lemma LevelEnds(h: nat, t: nat)
    requires t / 2 < h && OnesLeft(h, t / 2) == 0
    ensures Bound(Next(2 * h, t), t) < Bound(2 * h, t)
  {
    hide InvertLowestOne, GetSkipHeight, OnesLeft, Level, Below;
    var w, g := 2 * h, t / 2;
    EvenSkip(h);
    ClearLast(h, g);
    LevelDown(h, g);
    BelowPositive(Level(h, g));
    if h - 1 > g {
      OnesFit(h - 1, g);
      BelowGrows(Level(h - 1, g), Level(h, g));
    }
    assert (w - 1) / 2 == h - 1;
  }

  lemma EvenGoesDown(h: nat, t: nat)
    requires t / 2 < h
    ensures Bound(Next(2 * h, t), t) < Bound(2 * h, t)
  {
    hide InvertLowestOne, GetSkipHeight, OnesLeft, Level, Below;
    var w, g := 2 * h, t / 2;
    if OnesLeft(h, g) == 0 {
      LevelEnds(h, t);
    } else {
      EvenSkip(h);
      ClearOne(h, g);
      var n := Next(w, t);
      if n == w - 1 {
        DetourGoesDown(h, t);
      } else {
        assert n == 2 * InvertLowestOne(h) && n / 2 == InvertLowestOne(h) && n % 2 == 0;
      }
    }
  }

  /** Going to the parent first, because its skip pointer is better. */
  lemma DetourGoesDown(h: nat, t: nat)
    requires t / 2 < h && OnesLeft(h, t / 2) > 0 && Next(2 * h, t) == 2 * h - 1
    ensures Bound(2 * h - 1, t) < Bound(2 * h, t)
  {
    hide InvertLowestOne, GetSkipHeight, OnesLeft, Level, Below;
    var g := t / 2;
    EvenSkip(h);
    ClearOne(h, g);
    NoDetour(h, t);
    OneLess(h, g);
    OddSkip(h - 1);
    assert 2 * (h - 1) + 1 == 2 * h - 1;
    ClearTwo(h - 1, g);
    assert (2 * h - 1) / 2 == h - 1;
    BelowPositive(Level(h, g));
    SkipsOn(h, t);
    if !Lands(2 * h - 1, t) {
      assert OnesLeft(h - 1, g) >= 2;
    }
  }

  lemma BelowPositive(p: nat)
    ensures Below(p) >= 1
  {
  }

  /** The skip pointer of the parent does not go too far. */
  lemma SkipsOn(h: nat, t: nat)
    requires t / 2 < h && OnesLeft(h, t / 2) > 0 && Next(2 * h, t) == 2 * h - 1
    ensures 2 * h - 1 > 0 && t <= GetSkipHeight(2 * h - 1) < GetSkipHeight(2 * h) - 2
  {
    hide InvertLowestOne, GetSkipHeight, OnesLeft;
    EvenSkip(h);
    ClearOne(h, t / 2);
    InvertBelow(h);
  }

  lemma NoDetour(h: nat, t: nat)
    requires t / 2 < h && OnesLeft(h, t / 2) > 0 && Next(2 * h, t) == 2 * h - 1
    ensures h % 4 != 0
  {
    hide GetSkipHeight, OnesLeft, Next;
    SkipsOn(h, t);
    if h % 4 == 0 {
      SkipsOfFours(h / 4);
    }
  }

  lemma SkipsOfFours(m: nat)
    requires m > 0
    ensures GetSkipHeight(8 * m) <= GetSkipHeight(8 * m - 1)
  {
    hide InvertLowestOne, GetSkipHeight;
    EvenSkip(4 * m);
    InvertEven(2 * m);
    InvertEven(m);
    InvertBelow(m);
    OddSkip(4 * m - 1);
    InvertOdd(2 * m - 1);
    InvertEven(2 * m - 1);
    InvertOdd(m - 1);
    assert 2 * (4 * m - 1) + 1 == 8 * m - 1 && 2 * (2 * m - 1) + 1 == 4 * m - 1 && 2 * (m - 1) + 1 == 2 * m - 1;
  }

  lemma GoesDown(w: nat, t: nat)
    requires t < w
    ensures Bound(Next(w, t), t) < Bound(w, t)
  {
    var h := w / 2;
    if h != t / 2 {
      if w % 2 == 1 {
        assert w == 2 * h + 1;
        OddGoesDown(h, t);
      } else {
        assert w == 2 * h;
        EvenGoesDown(h, t);
      }
    }
  }

  lemma {:induction false} StepsBounded(w: nat, t: nat)
    requires t <= w
    ensures Steps(w, t) <= Bound(w, t)
    decreases w
  {
    hide Next, Bound;
    if t < w {
      GoesDown(w, t);
      StepsBounded(Next(w, t), t);
    }
  }

  lemma {:induction false} BelowIs(p: nat)
    ensures Below(p) == 1 + 2 * p + p * p / 4
  {
    if p > 0 {
      BelowIs(p - 1);
      SquareStep(p - 1);
    }
  }

  lemma Squares(m: nat)
    ensures (2 * m) * (2 * m) == 4 * (m * m)
    ensures (2 * m + 1) * (2 * m + 1) == 4 * (m * m + m) + 1
    ensures (2 * m + 2) * (2 * m + 2) == 4 * (m * m + 2 * m + 1)
  {
  }

  lemma SquareStep(q: nat)
    ensures (q + 1) * (q + 1) / 4 == q * q / 4 + q / 2 + q % 2
  {
    var m := q / 2;
    Squares(m);
    var s := m * m;
    if q % 2 == 0 {
      assert q == 2 * m;
      assert (q + 1) * (q + 1) == 4 * (s + m) + 1 && q * q == 4 * s;
    } else {
      assert q == 2 * m + 1;
      assert (q + 1) * (q + 1) == 4 * (s + 2 * m + 1) && q * q == 4 * (s + m) + 1;
    }
  }

  /**
   A walk from a height of `n` bits takes at most n + 1 + 2 (n - 2) + (n - 2)^2 / 4 steps: a
   quarter of the square of the number of bits, and a few more for each bit.
   */
  lemma WalkIsShort(w: nat, t: nat, n: nat)
    requires t <= w < Pow(2, n) && n >= 2
    ensures Steps(w, t) <= n + 1 + 2 * (n - 2) + (n - 2) * (n - 2) / 4
  {
    hide Steps, Below, GetSkipHeight, OnesLeft, Level, Pow;
    StepsBounded(w, t);
    BelowIs(n - 2);
    BelowPositive(n - 2);
    var h, g := w / 2, t / 2;
    if h != g {
      HalfBelow(w, n);
      LevelFits(h, g, n - 1);
      OnesFit(h, g);
      if Level(h, g) < n - 2 {
        BelowGrows(Level(h, g), n - 2);
      }
    }
  }

  lemma HalfBelow(w: nat, n: nat)
    requires w < Pow(2, n) && n > 0
    ensures w / 2 < Pow(2, n - 1)
  {
  }

  /** At most 115 steps to go back among 2^18 blocks. */
  lemma WalkExample(w: nat, t: nat)
    requires t <= w < 0x4_0000
    ensures Steps(w, t) <= 115
  {
    assert Pow(2, 18) == 0x4_0000 by {
      PowersOfTwo();
      PowAdd(2, 16, 2);
      PowAdd(2, 1, 1);
    }
    WalkIsShort(w, t, 18);
  }
}

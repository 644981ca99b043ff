/** Median time past over up to eleven blocks, and the fork windows that depend on it. */
module MedianTime {
  import opened BlockTree

  const SPAN: nat := 11

  // ----- the median -----

  function Put(s: seq<int>, x: int): seq<int> {
    if s == [] || x <= s[0] then [x] + s else [s[0]] + Put(s[1..], x)
  }

  function Sorted(s: seq<int>): (r: seq<int>)
    ensures s == [] <==> r == []
  {
    if s == [] then [] else Put(Sorted(s[1..]), s[0])
  }

  ghost predicate Ordered(s: seq<int>) { forall i, j | 0 <= i < j < |s| :: s[i] <= s[j] }

  lemma {:induction false} PutPermutes(s: seq<int>, x: int)
    ensures multiset(Put(s, x)) == multiset(s) + multiset{x}
  {
    if s == [] || x <= s[0] {
      assert multiset([x] + s) == multiset(s) + multiset{x};
    } else {
      PutPermutes(s[1..], x);
      assert s == [s[0]] + s[1..];
    }
  }

  lemma PutMembers(s: seq<int>, x: int, y: int)
    requires y in Put(s, x)
    ensures y == x || y in s
  {
    PutPermutes(s, x);
    assert y in multiset(Put(s, x));
  }

  lemma {:induction false} PutOrders(s: seq<int>, x: int)
    requires Ordered(s)
    ensures Ordered(Put(s, x))
  {
    if s != [] && x > s[0] {
      PutOrders(s[1..], x);
      var t := Put(s[1..], x);
      forall i | 0 <= i < |t| ensures s[0] <= t[i] {
        PutMembers(s[1..], x, t[i]);
      }
    }
  }

  lemma {:induction false} SortedOrders(s: seq<int>)
    ensures Ordered(Sorted(s)) && multiset(Sorted(s)) == multiset(s) && |Sorted(s)| == |s|
  {
    if s != [] {
      SortedOrders(s[1..]);
      PutOrders(Sorted(s[1..]), s[0]);
      PutPermutes(Sorted(s[1..]), s[0]);
      assert s == [s[0]] + s[1..];
      assert |multiset(Sorted(s))| == |multiset(s)|;
    }
  }

  function Median(s: seq<int>): int
    requires s != []
  {
    SortedOrders(s);
    Sorted(s)[|s| / 2]
  }

  /** How many are at least `m`. */
  function AtLeast(s: seq<int>, m: int): nat {
    if s == [] then 0 else AtLeast(s[1..], m) + if s[0] >= m then 1 else 0
  }

  lemma {:induction false} AtLeastPut(s: seq<int>, x: int, m: int)
    ensures AtLeast(Put(s, x), m) == AtLeast(s, m) + if x >= m then 1 else 0
  {
    if s == [] || x <= s[0] {
      assert ([x] + s)[1..] == s;
    } else {
      AtLeastPut(s[1..], x, m);
      assert ([s[0]] + Put(s[1..], x))[1..] == Put(s[1..], x);
    }
  }

  lemma {:induction false} AtLeastSorted(s: seq<int>, m: int)
    ensures AtLeast(Sorted(s), m) == AtLeast(s, m)
  {
    if s != [] {
      AtLeastSorted(s[1..], m);
      AtLeastPut(Sorted(s[1..]), s[0], m);
    }
  }

  /** In an ordered sequence, entry `k` is at least `m` exactly if that many from the top are. */
  lemma {:induction false} AtLeastOrdered(s: seq<int>, k: nat, m: int)
    requires Ordered(s) && k < |s|
    ensures s[k] >= m <==> AtLeast(s, m) >= |s| - k
  {
    AtLeastBound(s, m);
    if k == 0 {
      if s[0] >= m {
        AtLeastAll(s, m);
      }
    } else {
      AtLeastOrdered(s[1..], k - 1, m);
      if s[0] >= m {
        AtLeastAll(s, m);
      }
    }
  }

  lemma {:induction false} AtLeastBound(s: seq<int>, m: int)
    ensures AtLeast(s, m) <= |s|
    ensures s != [] && s[0] < m ==> AtLeast(s, m) < |s|
  {
    if s != [] {
      AtLeastBound(s[1..], m);
    }
  }

  lemma {:induction false} AtLeastAll(s: seq<int>, m: int)
    requires forall i | 0 <= i < |s| :: s[i] >= m
    ensures AtLeast(s, m) == |s|
  {
    if s != [] {
      AtLeastAll(s[1..], m);
    }
  }

  /** The median reaches `m` exactly if the upper half does. */
  lemma MedianIff(s: seq<int>, m: int)
    requires s != []
    ensures Median(s) >= m <==> AtLeast(s, m) >= |s| - |s| / 2
  {
    SortedOrders(s);
    AtLeastSorted(s, m);
    AtLeastOrdered(Sorted(s), |s| / 2, m);
  }

  lemma {:induction false} AtLeastAppend(s: seq<int>, x: int, m: int)
    ensures AtLeast(s + [x], m) == AtLeast(s, m) + if x >= m then 1 else 0
  {
    if s == [] {
      assert [] + [x] == [x];
    } else {
      AtLeastAppend(s[1..], x, m);
      assert (s + [x])[1..] == s[1..] + [x];
    }
  }

  // ----- windows -----

  /** The times of up to `k` blocks ending at `b`, the oldest first. */
  ghost function Times(b: Block, k: nat): seq<int>
    requires Linked(b)
    decreases k
  {
    if k == 0 then []
    else (if b.pprev == null then [] else Times(b.pprev, k - 1)) + [b.nTime]
  }

  ghost function MedianTimePast(b: Block): int
    requires Linked(b)
  {
    Median(Times(b, SPAN))
  }

  lemma {:induction false} TimesLength(b: Block, k: nat)
    requires Linked(b)
    ensures |Times(b, k)| == if k <= b.nHeight + 1 then k else b.nHeight + 1
    decreases k
  {
    if k > 0 && b.pprev != null {
      TimesLength(b.pprev, k - 1);
    }
  }

  /** A longer window has older blocks in front. */
  lemma {:induction false} TimesPrepend(b: Block, k: nat)
    requires Linked(b) && k <= b.nHeight
    ensures Times(b, k + 1) == [Back(b, b.nHeight - k).nTime] + Times(b, k)
    decreases k
  {
    if k > 0 {
      TimesPrepend(b.pprev, k - 1);
    }
  }

  /** Past the root, a window does not grow any more. */
  lemma {:induction false} TimesStop(b: Block, k: nat, l: nat)
    requires Linked(b) && b.nHeight < k <= l
    ensures Times(b, k) == Times(b, l)
    decreases k
  {
    if b.pprev != null {
      TimesStop(b.pprev, k - 1, l - 1);
    }
  }

  /** Fills a buffer from its end while walking back. */
  method CollectTimes(b: Block) returns (times: seq<int>)
    requires Linked(b)
    ensures times == Times(b, SPAN)
  {
    var pmedian := new int[SPAN];
    var pbegin := SPAN;
    var pindex: Block? := b;
    var i := 0;
    BackSelf(b);
    assert Times(b, 0) == [];
    hide Times, Back;
    while i < SPAN && pindex != null
      invariant 0 <= i <= SPAN && pbegin == SPAN - i && i <= b.nHeight + 1
      invariant pindex == if i <= b.nHeight then Back(b, b.nHeight - i) else null
      invariant pmedian[pbegin..] == Times(b, i)
      decreases SPAN - i
    {
      TimesPrepend(b, i);
      ghost var rest := pmedian[pbegin..];
      pbegin := pbegin - 1;
      pmedian[pbegin] := pindex.nTime;
      assert pmedian[pbegin..] == [pindex.nTime] + rest;
      StepDown(b, b.nHeight - i);
      pindex := pindex.pprev;
      i := i + 1;
    }
    if i < SPAN {
      TimesStop(b, i, SPAN);
    }
    times := pmedian[pbegin..];
  }

  /** The middle of the sorted window, the upper one of two. */
  method GetMedianTimePast(b: Block) returns (m: int)
    requires Linked(b)
    ensures m == MedianTimePast(b)
  {
    var times := CollectTimes(b);
    TimesLength(b, SPAN);
    hide Times;
    SortedOrders(times);
    var sorted := Sorted(times);
    m := sorted[|times| / 2];
  }

  // ----- the median never goes down -----

  /** Dropping the oldest and adding one that is at least the median does not lower the median. */
  lemma SlideKeepsMedian(w: seq<int>, t: int)
    requires 0 < |w| <= SPAN && t >= Median(w)
    ensures Median((if |w| < SPAN then w else w[1..]) + [t]) >= Median(w)
  {
    var m := Median(w);
    var kept := if |w| < SPAN then w else w[1..];
    MedianIff(w, m);
    AtLeastAppend(kept, t, m);
    MedianIff(kept + [t], m);
  }

  lemma {:induction false} TimesDrop(b: Block, k: nat)
    requires Linked(b) && 0 < k
    ensures |Times(b, k)| == k ==> Times(b, k - 1) == Times(b, k)[1..]
    ensures |Times(b, k)| < k ==> Times(b, k - 1) == Times(b, k)
  {
    TimesLength(b, k);
    if k <= b.nHeight + 1 {
      TimesPrepend(b, k - 1);
    } else {
      TimesStop(b, k - 1, k);
    }
  }

  lemma MedianStep(b: Block)
    requires Linked(b) && b.pprev != null && b.nTime >= MedianTimePast(b.pprev)
    ensures MedianTimePast(b) >= MedianTimePast(b.pprev)
  {
    var w := Times(b.pprev, SPAN);
    TimesLength(b.pprev, SPAN);
    TimesDrop(b.pprev, SPAN);
    SlideKeepsMedian(w, b.nTime);
  }

  /** Every block's time is at least its parent's median time past. */
  ghost predicate TimesGrow(b: Block)
    requires Linked(b)
    decreases b.nHeight
  {
    b.pprev != null ==> b.nTime >= MedianTimePast(b.pprev) && TimesGrow(b.pprev)
  }

  lemma {:induction false} GrowBelow(b: Block, h: nat)
    requires Linked(b) && h <= b.nHeight && TimesGrow(b)
    ensures Linked(Back(b, h)) && TimesGrow(Back(b, h))
    decreases b.nHeight
  {
    hide MedianTimePast;
    if h < b.nHeight {
      GrowBelow(b.pprev, h);
    }
  }

  /** Along a branch the median time past never goes down, however short the windows are. */
  lemma {:induction false} MedianMonotone(b: Block, g: nat, h: nat)
    requires Linked(b) && TimesGrow(b) && g <= h <= b.nHeight
    ensures Linked(Back(b, g)) && Linked(Back(b, h)) && MedianTimePast(Back(b, g)) <= MedianTimePast(Back(b, h))
    decreases h
  {
    hide MedianTimePast;
    BackIs(b, g);
    BackIs(b, h);
    if g < h {
      MedianMonotone(b, g, h - 1);
      GrowBelow(b, h);
      StepDown(b, h);
      MedianStep(Back(b, h));
    }
  }

  // ----- fork windows -----

  ghost predicate ForkActivated(b: Block, time: int)
    requires Linked(b)
  {
    time != 0 && b.pprev != null && MedianTimePast(b.pprev) >= time
  }

  ghost predicate ForkAtNextBlock(b: Block, time: int)
    requires Linked(b)
  {
    time != 0 && MedianTimePast(b) >= time && b.pprev != null && MedianTimePast(b.pprev) < time
  }

  ghost predicate ForkActivateNow(b: Block, time: int)
    requires Linked(b)
  {
    time != 0 && b.pprev != null && ForkAtNextBlock(b.pprev, time)
  }

  ghost predicate ForkActiveOnNextBlock(b: Block, time: int)
    requires Linked(b)
  {
    time != 0 && (ForkActivated(b, time) || MedianTimePast(b) >= time)
  }

  /** Once a fork is activated on a branch, it stays activated. */
  lemma ActivatedIsSuffix(b: Block, time: int, g: nat, h: nat)
    requires Linked(b) && TimesGrow(b) && g <= h <= b.nHeight
    ensures Linked(Back(b, g)) && Linked(Back(b, h))
    ensures ForkActivated(Back(b, g), time) ==> ForkActivated(Back(b, h), time)
  {
    hide MedianTimePast;
    BackIs(b, g);
    BackIs(b, h);
    StepDown(b, g);
    StepDown(b, h);
    if g > 0 {
      MedianMonotone(b, g - 1, h - 1);
    }
  }

  /** A fork is active on the next block exactly if every block built here has it activated. */
  lemma NextBlockIsOneEarlier(b: Block, time: int)
    requires Linked(b) && TimesGrow(b) && b.pprev != null
    ensures ForkActiveOnNextBlock(b.pprev, time) <==> ForkActivated(b, time)
  {
    hide MedianTimePast;
    var p := b.pprev;
    if p.pprev != null {
      MedianStep(p);
    }
  }

  /**
   The activation block is the first activated one, except that a fork active from the root on has
   no activation block.
   */
  lemma ActivateNowIff(b: Block, time: int)
    requires Linked(b) && b.pprev != null
    ensures ForkActivateNow(b, time) <==>
            ForkActivated(b, time) && !ForkActivated(b.pprev, time) && b.nHeight >= 2
  {
    hide MedianTimePast;
  }

  /** On a branch, at most one block is the activation block. */
  lemma ActivateNowOnce(b: Block, time: int, g: nat, h: nat)
    requires Linked(b) && TimesGrow(b) && g < h <= b.nHeight
    ensures Linked(Back(b, g)) && Linked(Back(b, h))
    ensures !(ForkActivateNow(Back(b, g), time) && ForkActivateNow(Back(b, h), time))
  {
    hide MedianTimePast, ForkActivated, ForkAtNextBlock;
    BackIs(b, g);
    BackIs(b, h);
    StepDown(b, g);
    StepDown(b, h);
    if g > 0 {
      ActivateNowIff(Back(b, g), time);
      ActivateNowIff(Back(b, h), time);
      ActivatedIsSuffix(b, time, g, h - 1);
    }
  }

  ghost function RootMedian(b: Block): int
    requires Linked(b)
  {
    BackIs(b, 0);
    MedianTimePast(Back(b, 0))
  }

  lemma {:induction false} FirstActivated(b: Block, time: int) returns (h: nat)
    requires Linked(b) && TimesGrow(b) && ForkActivated(b, time) && RootMedian(b) < time
    ensures h <= b.nHeight && Linked(Back(b, h)) && ForkActivateNow(Back(b, h), time)
    decreases b.nHeight
  {
    hide MedianTimePast;
    var p := b.pprev;
    assert Back(b, 0) == Back(p, 0);
    if MedianTimePast(p.pprev) < time {
      h := b.nHeight;
    } else {
      h := FirstActivated(p, time);
      assert Back(b, h) == Back(p, h);
    }
  }

  /**
   A branch on which a fork is activated has an activation block, except if the fork was due at the
   root already.
   */
  lemma ActivationBlockIff(b: Block, time: int)
    requires Linked(b) && TimesGrow(b)
    ensures (exists h: nat :: h <= b.nHeight && Linked(Back(b, h)) && ForkActivateNow(Back(b, h), time)) <==>
            ForkActivated(b, time) && RootMedian(b) < time
  {
    hide MedianTimePast, ForkActivated, ForkActivateNow;
    if ForkActivated(b, time) && RootMedian(b) < time {
      var h := FirstActivated(b, time);
    }
    forall h: nat | h <= b.nHeight && Linked(Back(b, h)) && ForkActivateNow(Back(b, h), time)
      ensures ForkActivated(b, time) && RootMedian(b) < time
    {
      ActivateNowMeans(b, time, h);
    }
  }

  lemma ActivateNowMeans(b: Block, time: int, h: nat)
    requires Linked(b) && TimesGrow(b) && h <= b.nHeight && Linked(Back(b, h)) && ForkActivateNow(Back(b, h), time)
    ensures ForkActivated(b, time) && RootMedian(b) < time
  {
    hide MedianTimePast;
    BackIs(b, h);
    StepDown(b, h);
    StepDown(b, h - 1);
    BackSelf(b);
    ActivatedIsSuffix(b, time, h, b.nHeight);
    MedianMonotone(b, 0, h - 2);
  }

  lemma MedianOfRoot(b: Block)
    requires Linked(b) && b.pprev == null
    ensures MedianTimePast(b) == b.nTime
  {
    assert Times(b, SPAN) == [b.nTime];
  }

  /** A branch without an activation block: the fork is due at the root, and its child is activated. */
  method NoActivationBlock() returns (root: Block, child: Block)
    ensures child.pprev == root && Linked(child) && TimesGrow(child)
    ensures ForkActivated(child, 1) && !ForkActivateNow(child, 1) && !ForkActivateNow(root, 1)
  {
    root := new Block(null, 1);
    child := new Block(root, 1);
    MedianOfRoot(root);
  }

  /** The block before the activation block is where the fork is first due. */
  lemma AtNextIffNotYet(b: Block, time: int)
    requires Linked(b) && TimesGrow(b)
    ensures ForkAtNextBlock(b, time) <==>
            ForkActiveOnNextBlock(b, time) && !ForkActivated(b, time) && b.nHeight >= 1
  {
    hide MedianTimePast;
  }
}

/**
 The tree of block headers: skip pointers, ancestors, the active chain as a vector, and forks.
 A block's parent, height and time never change once it exists; its skip pointer is set later.
 */
module BlockTree {
  import opened Numbers
  import opened SkipHeights

  // ----- blocks -----

  class Block {
    const pprev: Block?
    const nHeight: nat
    const nTime: nat
    var pskip: Block?

    constructor (pprev: Block?, nTime: nat)
      ensures this.pprev == pprev && this.nTime == nTime && pskip == null
      ensures nHeight == if pprev == null then 0 else pprev.nHeight + 1
    {
      this.pprev := pprev;
      this.nHeight := if pprev == null then 0 else pprev.nHeight + 1;
      this.nTime := nTime;
      pskip := null;
    }

    /** Points the skip pointer at the ancestor that its height calls for. */
    method BuildSkip(ghost tree: set<Block>)
      requires SkipsRight(tree) && Linked(this) && this !in tree && (pprev != null ==> pprev in tree) && pskip == null
      modifies this
      ensures SkipsRight(tree + {this})
      ensures nHeight > 0 ==> GetSkipHeight(nHeight) < nHeight && pskip == Back(this, GetSkipHeight(nHeight))
    {
      if pprev != null {
        SkipHeightBelow(nHeight);
        ghost var steps;
        pskip, steps := pprev.GetAncestor(GetSkipHeight(nHeight), tree);
      }
    }

    /**
     The ancestor at a height: what stepping back along the parents reaches. With all skip pointers
     set, the number of steps depends on the heights alone.
     */
    method GetAncestor(height: int, ghost tree: set<Block>) returns (r: Block?, ghost steps: nat)
      requires SkipsRight(tree) && this in tree
      ensures r == if 0 <= height <= nHeight then Back(this, height) else null
      ensures r != null ==> r in tree
      ensures 0 <= height <= nHeight && AllSkips(tree) ==> steps == Steps(nHeight, height)
    {
      hide GetSkipHeight, Steps;
      steps := 0;
      if height > nHeight || height < 0 {
        return null, steps;
      }
      NoSteps(height);
      var walk: Block := this;
      var heightWalk := nHeight;
      while heightWalk > height
        invariant height <= heightWalk <= nHeight && walk in tree && walk == Back(this, heightWalk)
        invariant AllSkips(tree) ==> steps + Steps(heightWalk, height) == Steps(nHeight, height)
      {
        BackIs(this, heightWalk);
        OneStep(heightWalk, height);
        steps := steps + 1;
        SkipHeightBelow(heightWalk);
        var heightSkip := GetSkipHeight(heightWalk);
        var heightSkipPrev := GetSkipHeight(heightWalk - 1);
        if walk.pskip != null &&
           (heightSkip == height ||
            (heightSkip > height && !(heightSkipPrev < heightSkip - 2 && heightSkipPrev >= height))) {
          BackBack(this, heightWalk, heightSkip);
          walk := walk.pskip;
          heightWalk := heightSkip;
        } else {
          BackBack(this, heightWalk, heightWalk - 1);
          walk := walk.pprev;
          heightWalk := heightWalk - 1;
        }
      }
      return walk, steps;
    }
  }

  lemma NoSteps(t: nat)
    ensures Steps(t, t) == 0
  {
  }

  lemma OneStep(w: nat, t: nat)
    requires t < w
    ensures Steps(w, t) == 1 + Steps(Next(w, t), t)
  {
  }

  /** Every block but a root has its skip pointer. */
  ghost predicate AllSkips(tree: set<Block>)
    reads tree
  {
    forall b | b in tree && b.nHeight > 0 :: b.pskip != null
  }

  /** Heights count the steps to the root. */
  ghost predicate Linked(b: Block)
    decreases b.nHeight
  {
    if b.pprev == null then b.nHeight == 0
    else b.nHeight > 0 && b.pprev.nHeight == b.nHeight - 1 && Linked(b.pprev)
  }

  /** The block at height `h` on the way from `b` to its root. */
  ghost function Back(b: Block, h: nat): Block
    requires Linked(b) && h <= b.nHeight
    decreases b.nHeight
  {
    if h == b.nHeight then b else Back(b.pprev, h)
  }

  lemma BackSelf(b: Block)
    requires Linked(b)
    ensures Back(b, b.nHeight) == b
  {
  }

  lemma {:induction false} BackIs(b: Block, h: nat)
    requires Linked(b) && h <= b.nHeight
    ensures Back(b, h).nHeight == h && Linked(Back(b, h))
    decreases b.nHeight
  {
    if h < b.nHeight {
      BackIs(b.pprev, h);
    }
  }

  lemma {:induction false} BackBack(b: Block, h: nat, g: nat)
    requires Linked(b) && g <= h <= b.nHeight
    ensures Back(b, h).nHeight == h && Linked(Back(b, h)) && Back(Back(b, h), g) == Back(b, g)
    decreases b.nHeight
  {
    if h < b.nHeight {
      BackBack(b.pprev, h, g);
    }
  }

  /** A tree closed under parents, whose skip pointers, where set, lead to the right ancestors. */
  ghost predicate SkipsRight(tree: set<Block>)
    reads tree
  {
    forall b | b in tree :: Linked(b) && (b.pprev != null ==> b.pprev in tree) && SkipRight(b, tree)
  }

  ghost predicate SkipRight(b: Block, tree: set<Block>)
    requires Linked(b)
    reads b
  {
    b.pskip != null ==>
      && b.nHeight > 0
      && GetSkipHeight(b.nHeight) < b.nHeight
      && b.pskip == Back(b, GetSkipHeight(b.nHeight))
      && b.pskip in tree
  }

  /** Grows a tree by one block. */
  method AddBlock(pprev: Block?, nTime: nat, ghost tree: set<Block>) returns (b: Block)
    requires SkipsRight(tree) && (pprev != null ==> pprev in tree)
    ensures fresh(b) && b.pprev == pprev && b.nTime == nTime && Linked(b) && SkipsRight(tree + {b})
    ensures b.nHeight > 0 ==> GetSkipHeight(b.nHeight) < b.nHeight && b.pskip == Back(b, GetSkipHeight(b.nHeight))
    ensures AllSkips(tree) ==> AllSkips(tree + {b})
  {
    b := new Block(pprev, nTime);
    b.BuildSkip(tree);
  }

  // ----- the active chain -----

  class Chain {
    var vChain: seq<Block?>
    var tip: Block?

    /** Entry `i` of the vector is the tip's ancestor at height `i`. */
    ghost predicate Valid()
      reads this
    {
      if tip == null then vChain == []
      else Linked(tip) && |vChain| == tip.nHeight + 1 && forall i: nat | i < |vChain| :: vChain[i] == Back(tip, i)
    }

    constructor ()
      ensures Valid() && tip == null
    {
      vChain := [];
      tip := null;
    }

    /** Rewrites the vector from the top down and stops at the first entry that is right already. */
    method SetTip(block: Block?)
      requires Valid() && (block != null ==> Linked(block))
      modifies this
      ensures Valid() && tip == block
    {
      if block == null {
        vChain := [];
        tip := null;
        return;
      }
      var n := block.nHeight + 1;
      vChain := if n <= |vChain| then vChain[..n] else vChain + seq(n - |vChain|, _ => null);
      ghost var was := old(vChain);
      tip := block;
      var pindex: Block? := block;
      ghost var h := block.nHeight;
      while pindex != null && vChain[pindex.nHeight] != pindex
        modifies this`vChain
        invariant |vChain| == n && -1 <= h < n
        invariant pindex == null <==> h == -1
        invariant pindex != null ==> Linked(pindex) && pindex.nHeight == h && pindex == Back(block, h)
        invariant forall i: nat | h < i < n :: vChain[i] == Back(block, i)
        invariant forall i: nat | i <= h :: vChain[i] == if i < |was| then was[i] else null
        decreases h + 1
      {
        vChain := vChain[pindex.nHeight := pindex];
        if h > 0 {
          BackBack(block, h, h - 1);
        }
        pindex := pindex.pprev;
        h := h - 1;
      }
      if pindex != null {
        KeptBelow(old(tip), block, was, h);
      }
    }

    predicate Contains(b: Block)
      reads this
    {
      b.nHeight < |vChain| && vChain[b.nHeight] == b
    }

    function Height(): int
      reads this
    {
      if tip == null then -1 else tip.nHeight
    }

    /** The highest block that a branch shares with the chain, or null if there is none. */
    method FindFork(b: Block?, ghost tree: set<Block>) returns (r: Block?)
      requires Valid() && SkipsRight(tree) && (b != null ==> b in tree)
      ensures b == null ==> r == null
      ensures b != null && r != null ==> Linked(b) && r.nHeight <= b.nHeight && r == Back(b, r.nHeight) && Contains(r)
      ensures b != null ==>
                && Linked(b)
                && forall h: nat | h <= b.nHeight && (r == null || h > r.nHeight) :: !Contains(Back(b, h))
    {
      hide GetSkipHeight, SkipRight;
      if b == null {
        return null;
      }
      r := b;
      if b.nHeight > Height() {
        ghost var steps;
        r, steps := b.GetAncestor(Height(), tree);
        if r != null {
          BackIs(b, Height());
        }
      }
      forall h: nat | h <= b.nHeight && h > Height() ensures !Contains(Back(b, h)) {
        BackIs(b, h);
      }
      while r != null && !Contains(r)
        invariant r != null ==> r in tree && r.nHeight <= b.nHeight && r == Back(b, r.nHeight)
        invariant forall h: nat | h <= b.nHeight && (r == null || h > r.nHeight) :: !Contains(Back(b, h))
        decreases r != null, if r == null then 0 else r.nHeight
      {
        if r.nHeight > 0 {
          BackBack(b, r.nHeight, r.nHeight - 1);
        }
        r := r.pprev;
      }
    }

    /** An ancestor, from the vector if the block is on the chain, along the skip pointers if not. */
    method AncestorOf(b: Block, h: nat, ghost tree: set<Block>) returns (r: Block)
      requires Valid() && SkipsRight(tree) && b in tree && h <= b.nHeight && (tip != null ==> tip in tree)
      ensures Linked(b) && r == Back(b, h) && r in tree
    {
      hide GetSkipHeight, SkipRight;
      if Contains(b) {
        BackBack(tip, b.nHeight, h);
        InTree(tip, h, tree);
        r := vChain[h];
      } else {
        ghost var steps;
        var ancestor;
        ancestor, steps := b.GetAncestor(h, tree);
        r := ancestor;
      }
    }

    /** Exponentially spaced ancestors down to the root. */
    method GetLocator(b: Block?, ghost tree: set<Block>) returns (vHave: seq<Block>)
      requires Valid() && SkipsRight(tree) && (b != null ==> b in tree) && (tip != null ==> tip in tree)
      ensures var start := if b == null then tip else b;
              if start == null then vHave == []
              else Linked(start) && IsLocator(vHave, start, LocatorHeights(start.nHeight, 1, 0))
    {
      hide GetSkipHeight, SkipsRight, LocatorHeights, Back;
      assert forall x | x in tree :: Linked(x) by { TreeLinked(tree); }
      vHave := [];
      ghost var start := if b == null then tip else b;
      var pindex := if b == null then tip else b;
      if pindex == null {
        return;
      }
      BackSelf(start);
      var nStep := 1;
      ghost var all := LocatorHeights(start.nHeight, 1, 0);
      ghost var done: seq<nat> := [];
      while true
        invariant pindex != null && pindex in tree && Linked(start)
        invariant pindex.nHeight <= start.nHeight && pindex == Back(start, pindex.nHeight) && nStep > 0
        invariant all == done + LocatorHeights(pindex.nHeight, nStep, |vHave|)
        invariant IsLocator(vHave, start, done)
        decreases pindex.nHeight
      {
        LocatorUnfold(pindex.nHeight, nStep, |vHave|);
        ghost var h := pindex.nHeight;
        vHave := vHave + [pindex];
        done := done + [h];
        if pindex.nHeight == 0 {
          break;
        }
        var nHeight := if pindex.nHeight - nStep > 0 then pindex.nHeight - nStep else 0;
        BackBack(start, h, nHeight);
        pindex := AncestorOf(pindex, nHeight, tree);
        BackIs(start, nHeight);
        if |vHave| > 10 {
          nStep := nStep * 2;
        }
      }
      assert done == all;
    }
  }

  /** Where old and new chain meet, they agree all the way down. */
  lemma KeptBelow(before: Block?, block: Block, was: seq<Block?>, h: nat)
    requires Linked(block) && h <= block.nHeight && h < |was| && was[h] == Back(block, h)
    requires before != null && Linked(before) && |was| == before.nHeight + 1
    requires forall i: nat | i < |was| :: was[i] == Back(before, i)
    ensures forall i: nat | i <= h :: was[i] == Back(block, i)
  {
    forall i: nat | i <= h ensures was[i] == Back(block, i) {
      BackBack(before, h, i);
      BackBack(block, h, i);
    }
  }

  lemma TreeLinked(tree: set<Block>)
    requires SkipsRight(tree)
    ensures forall x | x in tree :: Linked(x)
  {
  }

  lemma {:induction false} InTree(b: Block, h: nat, tree: set<Block>)
    requires SkipsRight(tree) && b in tree && Linked(b) && h <= b.nHeight
    ensures Back(b, h) in tree
    decreases b.nHeight
  {
    hide SkipRight;
    if h < b.nHeight {
      InTree(b.pprev, h, tree);
    }
  }

  /** The heights of a locator: single steps for the first ten entries, doubling ones after that. */
  function LocatorHeights(h: nat, step: nat, count: nat): seq<nat>
    requires step > 0
  {
    if h == 0 then [0]
    else [h] + LocatorHeights(if h > step then h - step else 0, if count + 1 > 10 then 2 * step else step, count + 1)
  }

  lemma LocatorUnfold(h: nat, step: nat, count: nat)
    requires step > 0
    ensures LocatorHeights(0, step, count) == [0]
    ensures h > 0 ==>
      LocatorHeights(h, step, count) ==
      [h] + LocatorHeights(if h > step then h - step else 0, if count + 1 > 10 then 2 * step else step, count + 1)
  {
  }

  ghost predicate IsLocator(blocks: seq<Block>, start: Block, heights: seq<nat>)
    requires Linked(start)
  {
    && |blocks| == |heights|
    && forall i | 0 <= i < |blocks| :: heights[i] <= start.nHeight && blocks[i] == Back(start, heights[i])
  }

  /** A locator starts at its block, goes down strictly, and ends at the root. */
  lemma {:induction false} LocatorDescends(h: nat, step: nat, count: nat)
    requires step > 0
    ensures var s := LocatorHeights(h, step, count);
            |s| > 0 && s[0] == h && s[|s| - 1] == 0 && forall i | 0 < i < |s| :: s[i] < s[i - 1]
  {
    if h > 0 {
      LocatorDescends(if h > step then h - step else 0, if count + 1 > 10 then 2 * step else step, count + 1);
    }
  }

  /** Once the steps double, a height below 2^m times the step takes at most `m` more of them. */
  lemma {:induction false} LocatorDoubles(h: nat, step: nat, count: nat, m: nat)
    requires step > 0 && count >= 10 && h < step * Pow(2, m)
    ensures |LocatorHeights(h, step, count)| <= m + 2
    decreases m
  {
    if h > 0 {
      if m == 0 {
        assert h < step;
        LocatorUnfold(0, 2 * step, count + 1);
      } else {
        var g := if h > step then h - step else 0;
        assert step * Pow(2, m) == 2 * step * Pow(2, m - 1);
        LocatorDoubles(g, 2 * step, count + 1, m - 1);
      }
    }
  }

  /** A locator for a height below 2^m has at most m + 12 entries. */
  lemma {:induction false} LocatorShort(h: nat, count: nat, m: nat)
    requires count <= 10 && h < Pow(2, m)
    ensures |LocatorHeights(h, 1, count)| <= m + 12 - count
    decreases 10 - count
  {
    if count == 10 {
      LocatorDoubles(h, 1, count, m);
    } else if h > 0 {
      LocatorShort(h - 1, count + 1, m);
    }
  }

  // ----- two branches -----

  ghost predicate IsAncestor(a: Block, b: Block)
    requires Linked(b)
  {
    a.nHeight <= b.nHeight && Back(b, a.nHeight) == a
  }

  /** Blocks at one height whose ancestors differ there differ above. */
  lemma DifferAbove(a: Block, b: Block, g: nat, h: nat)
    requires Linked(a) && Linked(b) && g <= h <= a.nHeight && h <= b.nHeight && Back(a, g) != Back(b, g)
    ensures Back(a, h) != Back(b, h)
  {
    BackBack(a, h, g);
    BackBack(b, h, g);
  }

  /** The highest block that two branches share; null exactly if they have different roots. */
  method LastCommonAncestor(a: Block, b: Block, ghost tree: set<Block>) returns (r: Block?)
    requires SkipsRight(tree) && a in tree && b in tree
    ensures Linked(a) && Linked(b)
    ensures r == null <==> Back(a, 0) != Back(b, 0)
    ensures r != null ==> IsAncestor(r, a) && IsAncestor(r, b)
    ensures r != null ==>
              forall h: nat | r.nHeight < h <= a.nHeight && h <= b.nHeight :: Back(a, h) != Back(b, h)
  {
    hide GetSkipHeight, SkipRight;
    ghost var low := if a.nHeight < b.nHeight then a.nHeight else b.nHeight;
    BackSelf(a);
    BackSelf(b);
    BackIs(a, low);
    BackIs(b, low);
    var pa: Block?, pb: Block? := a, b;
    ghost var steps;
    if a.nHeight > b.nHeight {
      pa, steps := a.GetAncestor(b.nHeight, tree);
    } else if b.nHeight > a.nHeight {
      pb, steps := b.GetAncestor(a.nHeight, tree);
    }
    ghost var h: int := low;
    hide Back, SkipsRight;
    while pa != pb && pa != null && pb != null
      invariant -1 <= h <= low
      invariant h == -1 ==> pa == null && pb == null
      invariant h >= 0 ==> pa == Back(a, h) && pb == Back(b, h)
      invariant forall g: nat | h < g <= low :: Back(a, g) != Back(b, g)
      decreases h + 1
    {
      StepDown(a, h);
      StepDown(b, h);
      pa := pa.pprev;
      pb := pb.pprev;
      h := h - 1;
    }
    assert pa == pb;
    r := pa;
    if r != null {
      BackIs(a, h);
      if Back(a, 0) != Back(b, 0) {
        DifferAbove(a, b, 0, h);
      }
    }
  }

  lemma StepDown(b: Block, h: nat)
    requires Linked(b) && h <= b.nHeight
    ensures Back(b, h).pprev == if h == 0 then null else Back(b, h - 1)
  {
    BackIs(b, h);
    if h > 0 {
      BackBack(b, h, h - 1);
    }
  }

  /** Whether one of two blocks is an ancestor of the other. */
  method AreOnTheSameFork(a: Block, b: Block, ghost tree: set<Block>) returns (same: bool)
    requires SkipsRight(tree) && a in tree && b in tree
    ensures Linked(a) && Linked(b) && (same <==> IsAncestor(a, b) || IsAncestor(b, a))
  {
    hide GetSkipHeight, SkipRight;
    var common := LastCommonAncestor(a, b, tree);
    same := common == a || common == b;
    BackSelf(a);
    BackSelf(b);
    if IsAncestor(a, b) {
      BackBack(b, a.nHeight, 0);
    }
    if IsAncestor(b, a) {
      BackBack(a, b.nHeight, 0);
    }
  }
}

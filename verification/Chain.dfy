/** The block tree with its skip pointers, and the active chain. */
module Chain {
  import opened SkipHeights

  // ---- the tree ----

  class BlockIndex {
    const pprev: BlockIndex?
    const nHeight: nat
    var pskip: BlockIndex?

    /** A block on top of another one, or a first block. */
    constructor (prev: BlockIndex?)
      ensures pprev == prev && nHeight == (if prev == null then 0 else prev.nHeight + 1) && pskip == null
    {
      pprev := prev;
      nHeight := if prev == null then 0 else prev.nHeight + 1;
      pskip := null;
    }

    /**
     The ancestor at a height, by skip pointers where they help: whichever way is
     taken, the block reached by following pprev. With all skip pointers set, the
     walk is no longer than the longest one for the bits of its height.
     */
    method GetAncestor(height: int, ghost tree: set<BlockIndex>) returns (r: BlockIndex?, ghost steps: nat)
      requires ValidTree(tree) && this in tree
      ensures Rooted(this)
      ensures r == if 0 <= height <= nHeight then Ancestor(this, height) else null
      ensures r != null ==> r in tree
      ensures Complete(tree) && 0 <= height <= nHeight ==> steps == Steps(nHeight, height)
      ensures Complete(tree) ==> Quick(steps, nHeight)
    {
      hide Rooted, ValidTree, Complete, GetSkipHeight, Ancestor, Steps, Quick, Reached, TakesSkip;
      StartAt(this, tree);
      NoneQuick(nHeight);
      steps := 0;
      if height > nHeight || height < 0 {
        return null, 0;
      }
      var walk: BlockIndex := this;
      var heightWalk := nHeight;
      while heightWalk > height
        invariant height <= heightWalk && Reached(this, walk, heightWalk, tree)
        invariant Complete(tree) ==> steps + Steps(heightWalk, height) == Steps(nHeight, height)
      {
        var heightSkip := GetSkipHeight(heightWalk);
        var heightSkipPrev := GetSkipHeight(heightWalk - 1);
        steps := steps + 1;
        StepBack(this, walk, heightWalk, tree);
        StepsNext(heightWalk, height);
        if walk.pskip != null &&
           (heightSkip == height ||
            (heightSkip > height && !(heightSkipPrev < heightSkip - 2 && heightSkipPrev >= height))) {
          walk := walk.pskip;
          heightWalk := heightSkip;
        } else {
          walk := walk.pprev;
          heightWalk := heightWalk - 1;
        }
      }
      StepsNone(height);
      StepsQuick(nHeight, height);
      Arrived(this, walk, heightWalk, tree);
      return walk, steps;
    }

    /** Sets the skip pointer of a block whose predecessor has been added before. */
    method BuildSkip(ghost tree: set<BlockIndex>)
      requires ValidTree(tree) && this !in tree && Rooted(this) && pskip == null && (pprev != null ==> pprev in tree)
      modifies this`pskip
      ensures pskip == if pprev == null then null else Ancestor(this, GetSkipHeight(nHeight))
      ensures ValidTree(tree + {this})
    {
      if pprev != null {
        ghost var steps;
        pskip, steps := pprev.GetAncestor(GetSkipHeight(nHeight), tree);
      }
    }
  }

  /** Heights count the predecessors. */
  ghost predicate Rooted(b: BlockIndex)
    decreases b.nHeight
  {
    if b.pprev == null then b.nHeight == 0 else b.nHeight == b.pprev.nHeight + 1 && Rooted(b.pprev)
  }

  /** The block reached by following pprev down to a height. */
  ghost function Ancestor(b: BlockIndex, h: int): (a: BlockIndex)
    requires Rooted(b) && 0 <= h <= b.nHeight
    ensures Rooted(a) && a.nHeight == h
    decreases b.nHeight
  {
    if h == b.nHeight then b else Ancestor(b.pprev, h)
  }

  ghost predicate SkipOk(b: BlockIndex)
    requires Rooted(b)
    reads b
  {
    b.pskip != null ==> b.nHeight > 0 && b.pskip == Ancestor(b, GetSkipHeight(b.nHeight))
  }

  /** A set of blocks with their predecessors, whose skip pointers are right where they are set. */
  ghost predicate ValidTree(tree: set<BlockIndex>)
    reads tree
  {
    forall b :: b in tree ==> Rooted(b) && SkipOk(b) && (b.pprev != null ==> b.pprev in tree)
  }

  /** Every block but the roots has its skip pointer. */
  ghost predicate Complete(tree: set<BlockIndex>)
    reads tree
  {
    forall b :: b in tree && b.pprev != null ==> b.pskip != null
  }

  lemma {:induction false} AncestorOfAncestor(b: BlockIndex, h: int, i: int)
    requires Rooted(b) && 0 <= i <= h <= b.nHeight
    ensures Ancestor(Ancestor(b, h), i) == Ancestor(b, i)
    decreases b.nHeight
  {
    if h < b.nHeight { AncestorOfAncestor(b.pprev, h, i); }
  }

  lemma {:induction false} AncestorInTree(b: BlockIndex, h: int, tree: set<BlockIndex>)
    requires ValidTree(tree) && b in tree && 0 <= h <= b.nHeight
    ensures Ancestor(b, h) in tree
    decreases b.nHeight
  {
    if h < b.nHeight { AncestorInTree(b.pprev, h, tree); }
  }

  /** The predecessor of an ancestor is the next ancestor down, and a root has none. */
  lemma StepDown(b: BlockIndex, a: BlockIndex, tree: set<BlockIndex>)
    requires ValidTree(tree) && a in tree && IsAncestor(a, b)
    ensures a.nHeight == 0 <==> a.pprev == null
    ensures a.nHeight > 0 ==> a.pprev in tree && a.pprev.nHeight == a.nHeight - 1 && IsAncestor(a.pprev, b)
  {
    if a.nHeight > 0 { AncestorOfAncestor(b, a.nHeight, a.nHeight - 1); }
  }

  /** `a` is the ancestor of `b` at a height. */
  ghost predicate Reached(b: BlockIndex, a: BlockIndex, h: int, tree: set<BlockIndex>) {
    a in tree && IsAncestor(a, b) && a.nHeight == h
  }

  /** Its pprev leads to the next ancestor down and its pskip, where it is set, to the one at the skip height. */
  lemma StepBack(b: BlockIndex, a: BlockIndex, h: nat, tree: set<BlockIndex>)
    requires ValidTree(tree) && Reached(b, a, h, tree) && h > 0
    ensures a.pprev != null && Reached(b, a.pprev, h - 1, tree)
    ensures a.pskip != null ==> Reached(b, a.pskip, GetSkipHeight(h), tree)
    ensures Complete(tree) ==> a.pskip != null
  {
    AncestorOfAncestor(b, h, h - 1);
    if a.pskip != null {
      AncestorOfAncestor(b, h, GetSkipHeight(h));
      AncestorInTree(a, GetSkipHeight(h), tree);
    }
  }

  /** Grows a tree by one block, on top of any of its blocks or as another root. */
  method AddBlock(prev: BlockIndex?, ghost tree: set<BlockIndex>) returns (b: BlockIndex, ghost grown: set<BlockIndex>)
    requires ValidTree(tree) && (prev != null ==> prev in tree)
    ensures fresh(b) && grown == tree + {b} && ValidTree(grown) && b.pprev == prev
    ensures b.pskip == if prev == null then null else Ancestor(b, GetSkipHeight(b.nHeight))
    ensures old(Complete(tree)) ==> Complete(grown)
  {
    b := new BlockIndex(prev);
    b.BuildSkip(tree);
    grown := tree + {b};
  }

  // ---- the active chain ----

  /** The blocks from the root to a block, by height. */
  ghost function Path(b: BlockIndex): (p: seq<BlockIndex?>)
    requires Rooted(b)
    ensures |p| == b.nHeight + 1
    decreases b.nHeight
  {
    if b.pprev == null then [b] else Path(b.pprev) + [b]
  }

  lemma {:induction false} PathAt(b: BlockIndex, h: int)
    requires Rooted(b) && 0 <= h <= b.nHeight
    ensures Path(b)[h] == Ancestor(b, h) && Path(b)[..h + 1] == Path(Ancestor(b, h))
    decreases b.nHeight
  {
    if h < b.nHeight {
      PathAt(b.pprev, h);
      assert Path(b)[..h + 1] == Path(b.pprev)[..h + 1];
    } else {
      assert Path(b)[..h + 1] == Path(b);
    }
  }

  /** The ancestor one height up is on top of the one below. */
  lemma {:induction false} AncestorNext(b: BlockIndex, h: int)
    requires Rooted(b) && 0 <= h < b.nHeight
    ensures Ancestor(b, h + 1).pprev == Ancestor(b, h)
    decreases b.nHeight
  {
    if h + 1 < b.nHeight { AncestorNext(b.pprev, h); }
  }

  class ActiveChain {
    var vChain: seq<BlockIndex?>

    /** The chain is empty or the path of its tip. */
    ghost predicate Valid(tree: set<BlockIndex>)
      reads this, tree
    {
      && ValidTree(tree)
      && (vChain != [] ==>
            vChain[|vChain| - 1] != null && vChain[|vChain| - 1] in tree && vChain == Path(vChain[|vChain| - 1]))
    }

    constructor ()
      ensures vChain == []
    {
      vChain := [];
    }

    function Tip(): BlockIndex?
      reads this
    {
      if |vChain| > 0 then vChain[|vChain| - 1] else null
    }

    function Height(): int
      reads this
    {
      |vChain| - 1
    }

    function At(height: int): BlockIndex?
      reads this
    {
      if height < 0 || height >= |vChain| then null else vChain[height]
    }

    predicate Contains(b: BlockIndex)
      reads this
    {
      At(b.nHeight) == b
    }

    function Next(b: BlockIndex): BlockIndex?
      reads this
    {
      if Contains(b) then At(b.nHeight + 1) else null
    }

    /** The block after another one: none exactly for the tip and off the chain. */
    lemma NextMeaning(b: BlockIndex, tree: set<BlockIndex>)
      requires Valid(tree)
      ensures Next(b) == null <==> b == Tip() || !Contains(b)
      ensures Next(b) != null ==> Contains(Next(b)) && Next(b).pprev == b
    {
      if Contains(b) && b != Tip() {
        var tip := Tip();
        PathAt(tip, b.nHeight);
        PathAt(tip, tip.nHeight);
        PathAt(tip, b.nHeight + 1);
        AncestorNext(tip, b.nHeight);
      }
    }

    /** Makes the chain the path of a block, stopping where the old chain agrees. */
    method SetTip(block: BlockIndex, ghost tree: set<BlockIndex>)
      requires Valid(tree) && block in tree
      modifies this
      ensures Valid(tree) && vChain == Path(block) && Tip() == block
    {
      hide HalfSet, Path, ValidTree, IsAncestor;
      ghost var was := vChain;
      var n := block.nHeight + 1;
      vChain := if n <= |vChain| then vChain[..n] else vChain + seq(n - |vChain|, _ => null);
      var index: BlockIndex? := block;
      ghost var h: int := block.nHeight;
      StartAt(block, tree);
      if was != [] { StartAt(was[|was| - 1], tree); }
      SetStart(was, vChain, block);
      while index != null && vChain[index.nHeight] != index
        invariant |vChain| == n && HalfSet(was, vChain, block, h) && -1 <= h < n
        invariant if index == null then h == -1 else h == index.nHeight && index in tree && IsAncestor(index, block)
        decreases h
      {
        SetStep(was, vChain, block, index);
        vChain := vChain[index.nHeight := index];
        StepDown(block, index, tree);
        index := index.pprev;
        h := h - 1;
      }
      SetEnd(was, vChain, block, index, h);
    }

    /** The highest block of another branch that is on the chain. */
    method FindFork(block: BlockIndex?, ghost tree: set<BlockIndex>) returns (r: BlockIndex?)
      requires Valid(tree) && (block != null ==> block in tree)
      ensures block == null ==> r == null
      ensures block != null ==> Rooted(block)
      ensures block != null && r != null ==> IsAncestor(r, block) && Contains(r) && Off(vChain, block, r.nHeight)
      ensures block != null && r == null ==> Off(vChain, block, -1)
    {
      hide Off, ValidTree, IsAncestor, Rooted;
      if block == null { return null; }
      StartAt(block, tree);
      r := block;
      ghost var h: int := block.nHeight;
      OffAbove(vChain, block, h);
      if block.nHeight > Height() {
        ghost var steps;
        r, steps := block.GetAncestor(Height(), tree);
        h := Height();
        AncestorIs(block, h);
        OffAbove(vChain, block, h);
      }
      while r != null && !Contains(r)
        invariant Off(vChain, block, h) && h >= -1
        invariant if r == null then h == -1 else h == r.nHeight && r in tree && IsAncestor(r, block)
        decreases h
      {
        OffStep(vChain, block, r);
        StepDown(block, r, tree);
        r := r.pprev;
        h := h - 1;
      }
    }
  }

  ghost predicate IsAncestor(a: BlockIndex, b: BlockIndex) {
    Rooted(b) && a.nHeight <= b.nHeight && a == Ancestor(b, a.nHeight)
  }

  lemma StartAt(b: BlockIndex, tree: set<BlockIndex>)
    requires ValidTree(tree) && b in tree
    ensures Rooted(b) && IsAncestor(b, b) && Reached(b, b, b.nHeight, tree)
  {
  }

  lemma Arrived(b: BlockIndex, a: BlockIndex, h: int, tree: set<BlockIndex>)
    requires Reached(b, a, h, tree)
    ensures Rooted(b) && 0 <= h <= b.nHeight && a == Ancestor(b, h) && a in tree
  {
  }

  lemma AncestorIs(b: BlockIndex, h: int)
    requires Rooted(b)
    ensures 0 <= h <= b.nHeight ==> IsAncestor(Ancestor(b, h), b)
  {
  }

  ghost predicate OnChain(v: seq<BlockIndex?>, b: BlockIndex) { b.nHeight < |v| && v[b.nHeight] == b }

  /** No ancestor above a height is on the chain. */
  ghost predicate Off(v: seq<BlockIndex?>, b: BlockIndex, h: int)
    requires Rooted(b)
  {
    forall i :: 0 <= i <= b.nHeight && h < i ==> !OnChain(v, Ancestor(b, i))
  }

  lemma OffAbove(v: seq<BlockIndex?>, b: BlockIndex, h: int)
    requires Rooted(b) && (h == b.nHeight || h == |v| - 1)
    ensures Off(v, b, h)
  {
  }

  lemma OffStep(v: seq<BlockIndex?>, b: BlockIndex, r: BlockIndex)
    requires IsAncestor(r, b) && Off(v, b, r.nHeight) && !OnChain(v, r)
    ensures Off(v, b, r.nHeight - 1)
  {
  }

  // ---- setting the tip ----

  /** Above a height the chain holds the ancestors of the block, below it what it held before. */
  ghost predicate HalfSet(was: seq<BlockIndex?>, v: seq<BlockIndex?>, block: BlockIndex, h: int) {
    && Rooted(block) && |v| == block.nHeight + 1
    && (forall i :: 0 <= i < |v| && h < i ==> v[i] == Ancestor(block, i))
    && (forall i :: 0 <= i < |v| && i <= h ==> v[i] == if i < |was| then was[i] else null)
  }

  lemma SetStart(was: seq<BlockIndex?>, v: seq<BlockIndex?>, block: BlockIndex)
    requires Rooted(block) && |v| == block.nHeight + 1
    requires forall i :: 0 <= i < |v| ==> v[i] == if i < |was| then was[i] else null
    ensures HalfSet(was, v, block, block.nHeight)
  {
  }

  lemma SetStep(was: seq<BlockIndex?>, v: seq<BlockIndex?>, block: BlockIndex, index: BlockIndex)
    requires HalfSet(was, v, block, index.nHeight) && IsAncestor(index, block)
    ensures HalfSet(was, v[index.nHeight := index], block, index.nHeight - 1)
  {
  }

  lemma SetEnd(was: seq<BlockIndex?>, v: seq<BlockIndex?>, block: BlockIndex, index: BlockIndex?, h: int)
    requires HalfSet(was, v, block, h) && -1 <= h < |v|
    requires if index == null then h == -1 else h == index.nHeight && IsAncestor(index, block) && v[h] == index
    requires was != [] ==> was[|was| - 1] != null && Rooted(was[|was| - 1]) && was == Path(was[|was| - 1])
    ensures v == Path(block) && v[|v| - 1] == block
  {
    if index != null { SharedPath(was, block, index); }
    forall i | 0 <= i < |v|
      ensures v[i] == Path(block)[i]
    {
      PathAt(block, i);
    }
    PathAt(block, block.nHeight);
  }

  /** A block of an old chain that is an ancestor shares its path. */
  lemma SharedPath(was: seq<BlockIndex?>, block: BlockIndex, index: BlockIndex)
    requires IsAncestor(index, block) && index.nHeight < |was| && was[index.nHeight] == index
    requires was[|was| - 1] != null && Rooted(was[|was| - 1]) && was == Path(was[|was| - 1])
    ensures forall i :: 0 <= i <= index.nHeight ==> was[i] == Ancestor(block, i)
  {
    var tip := was[|was| - 1];
    PathAt(tip, index.nHeight);
    forall i | 0 <= i <= index.nHeight
      ensures was[i] == Ancestor(block, i)
    {
      PathAt(tip, i);
      AncestorOfAncestor(tip, index.nHeight, i);
      AncestorOfAncestor(block, index.nHeight, i);
    }
  }

  // ---- common ancestors ----

  /** Two blocks have different ancestors at every height above one. */
  ghost predicate Apart(a: BlockIndex, b: BlockIndex, h: int)
    requires Rooted(a) && Rooted(b)
  {
    forall i :: 0 <= i <= a.nHeight && i <= b.nHeight && h < i ==> Ancestor(a, i) != Ancestor(b, i)
  }

  lemma ApartStep(a: BlockIndex, b: BlockIndex, pa: BlockIndex, pb: BlockIndex)
    requires IsAncestor(pa, a) && IsAncestor(pb, b) && pa.nHeight == pb.nHeight && pa != pb && Apart(a, b, pa.nHeight)
    ensures Apart(a, b, pa.nHeight - 1)
  {
  }

  lemma ApartStart(a: BlockIndex, b: BlockIndex, h: int)
    requires Rooted(a) && Rooted(b) && (h == a.nHeight || h == b.nHeight)
    ensures Apart(a, b, h)
  {
  }

  /** The highest block that is an ancestor of both, or none if they have different roots. */
  method LastCommonAncestor(a: BlockIndex, b: BlockIndex, ghost tree: set<BlockIndex>) returns (r: BlockIndex?)
    requires ValidTree(tree) && a in tree && b in tree
    ensures Rooted(a) && Rooted(b)
    ensures if r == null then Apart(a, b, -1) else IsAncestor(r, a) && IsAncestor(r, b) && Apart(a, b, r.nHeight)
    ensures r == null <==> Ancestor(a, 0) != Ancestor(b, 0)
  {
    hide Apart, ValidTree, IsAncestor, Rooted;
    StartAt(a, tree);
    StartAt(b, tree);
    var pa: BlockIndex?, pb: BlockIndex? := a, b;
    if a.nHeight > b.nHeight {
      ghost var steps;
      pa, steps := a.GetAncestor(b.nHeight, tree);
      AncestorIs(a, b.nHeight);
    } else if b.nHeight > a.nHeight {
      ghost var steps;
      pb, steps := b.GetAncestor(a.nHeight, tree);
      AncestorIs(b, a.nHeight);
    }
    ghost var h: int := pa.nHeight;
    ApartStart(a, b, h);
    while pa != pb && pa != null && pb != null
      invariant Apart(a, b, h) && h >= -1
      invariant if pa == null then pb == null && h == -1 else
                  && pb != null && pa in tree && pb in tree && h == pa.nHeight == pb.nHeight
                  && IsAncestor(pa, a) && IsAncestor(pb, b)
      decreases h
    {
      ApartStep(a, b, pa, pb);
      StepDown(a, pa, tree);
      StepDown(b, pb, tree);
      pa := pa.pprev;
      pb := pb.pprev;
      h := h - 1;
    }
    assert pa == pb;
    RootsTell(a, b, pa);
    return pa;
  }

  /** Two blocks have a common ancestor exactly if they have the same root. */
  lemma RootsTell(a: BlockIndex, b: BlockIndex, r: BlockIndex?)
    requires Rooted(a) && Rooted(b)
    requires if r == null then Apart(a, b, -1) else IsAncestor(r, a) && IsAncestor(r, b)
    ensures r == null <==> Ancestor(a, 0) != Ancestor(b, 0)
  {
    if r != null {
      AncestorOfAncestor(a, r.nHeight, 0);
      AncestorOfAncestor(b, r.nHeight, 0);
    }
  }

  /** Two trees side by side: the assert of the search holds, and it finds nothing. */
  method StrangersMeetNowhere() returns (r: BlockIndex?)
    ensures r == null
  {
    var a, one := AddBlock(null, {});
    var b, two := AddBlock(null, one);
    r := LastCommonAncestor(a, b, two);
  }
}

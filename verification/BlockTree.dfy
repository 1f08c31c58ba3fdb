/** The block tree and CChain: chains indexed by height, their locators and fork points. */
module BlockTree {
  import opened Common

  /** CBlockIndex. Links, height and work never change once set; the two failure bits of nStatus do. */
  class BlockIndex {
    const pprev: BlockIndex?
    const nHeight: nat
    const nChainWork: nat
    const nSequenceId: nat
    const address: int
    var failedValid: bool
    var failedChild: bool

    constructor (pprev: BlockIndex?, work: nat, sequence: nat, address: int)
      ensures this.pprev == pprev && nHeight == (if pprev == null then 0 else pprev.nHeight + 1)
      ensures nChainWork == (if pprev == null then 0 else pprev.nChainWork) + work
      ensures nSequenceId == sequence && this.address == address && !Failed()
    {
      this.pprev := pprev;
      nHeight := if pprev == null then 0 else pprev.nHeight + 1;
      nChainWork := (if pprev == null then 0 else pprev.nChainWork) + work;
      nSequenceId, this.address := sequence, address;
      failedValid, failedChild := false, false;
    }

    predicate Failed()
      reads this
    {
      failedValid || failedChild
    }
  }

  ghost predicate Rooted(b: BlockIndex)
    decreases b.nHeight
  {
    if b.pprev == null then b.nHeight == 0 else b.nHeight == b.pprev.nHeight + 1 && Rooted(b.pprev)
  }

  /** The blocks from genesis to b: entry k is the ancestor of height k. */
  ghost function Path(b: BlockIndex): (p: seq<BlockIndex>)
    requires Rooted(b)
    ensures |p| == b.nHeight + 1 && p[b.nHeight] == b
    ensures forall k :: 0 <= k < |p| ==> p[k].nHeight == k && Rooted(p[k])
    decreases b.nHeight
  {
    if b.pprev == null then [b] else Path(b.pprev) + [b]
  }

  lemma {:induction false} PathOfAncestor(b: BlockIndex, k: nat)
    requires Rooted(b) && k <= b.nHeight
    ensures Path(Path(b)[k]) == Path(b)[..k + 1]
    decreases b.nHeight
  {
    if k < b.nHeight {
      PathOfAncestor(b.pprev, k);
      assert Path(b)[..k + 1] == Path(b.pprev)[..k + 1];
    } else {
      assert Path(b)[..k + 1] == Path(b);
    }
  }

  lemma ParentOnPath(b: BlockIndex, k: nat)
    requires Rooted(b) && k <= b.nHeight
    ensures Path(b)[k].pprev == if k == 0 then null else Path(b)[k - 1]
  {
    PathOfAncestor(b, k);
  }

  /** A chain is empty, or the path to its last block. */
  ghost predicate IsChain(v: seq<BlockIndex?>) {
    |v| > 0 ==> v[|v| - 1] != null && Rooted(v[|v| - 1]) && v == Path(v[|v| - 1])
  }

  lemma ChainPrefix(v: seq<BlockIndex?>, k: nat)
    requires IsChain(v) && k < |v|
    ensures v[k] != null && Rooted(v[k]) && v[k].nHeight == k && v[..k + 1] == Path(v[k])
    ensures v[k].pprev == if k == 0 then null else v[k - 1]
  {
    PathOfAncestor(v[|v| - 1], k);
    ParentOnPath(v[|v| - 1], k);
  }

  /** Above height h the path is in place, and differs from what was there; up to h nothing has changed. */
  ghost predicate Laid(after: seq<BlockIndex?>, before: seq<BlockIndex?>, path: seq<BlockIndex>, h: int) {
    && |after| == |path| && -1 <= h < |path|
    && (forall k :: h < k < |path| ==> after[k] == path[k] && (k < |before| ==> before[k] != path[k]))
    && (forall k :: 0 <= k <= h ==> after[k] == if k < |before| then before[k] else null)
  }

  lemma LaidInit(before: seq<BlockIndex?>, path: seq<BlockIndex>)
    requires |path| > 0
    ensures Laid(if |before| >= |path| then before[..|path|] else before + seq(|path| - |before|, _ => null),
                 before, path, |path| - 1)
  {
  }

  lemma LaidStep(after: seq<BlockIndex?>, before: seq<BlockIndex?>, path: seq<BlockIndex>, h: nat)
    requires Laid(after, before, path, h) && after[h] != path[h]
    ensures Laid(after[h := path[h]], before, path, h - 1)
  {
  }

  /** A new path laid over an old chain down to their first common block is the path all the way. */
  lemma Spliced(tip: BlockIndex, before: seq<BlockIndex?>, after: seq<BlockIndex?>, fork: BlockIndex?)
    requires Rooted(tip) && IsChain(before) && |after| == tip.nHeight + 1
    requires Laid(after, before, Path(tip), if fork == null then -1 else fork.nHeight)
    requires fork != null ==> after[fork.nHeight] == fork == Path(tip)[fork.nHeight]
    ensures after == Path(tip)
    ensures fork != null ==> fork in Path(tip) && fork in before
    ensures forall b :: b in Path(tip) && b in before ==> fork != null && b.nHeight <= fork.nHeight
  {
    var path := Path(tip);
    if fork != null {
      var h := fork.nHeight;
      ChainPrefix(before, h);
      PathOfAncestor(tip, h);
      assert forall k :: 0 <= k <= h ==> before[k] == before[..h + 1][k] && path[k] == path[..h + 1][k];
    }
    forall b | b in path && b in before
      ensures fork != null && b.nHeight <= fork.nHeight
    {
      var k :| 0 <= k < |before| && before[k] == b;
      ChainPrefix(before, k);
      assert path[k] == b;
    }
  }

  // ---------------------------------------------------------------- locators

  /** Heights a locator lists, starting at height h with the number of entries so far and the step in force. */
  function LocatorHeights(h: nat, count: nat, step: nat): (r: seq<nat>)
    requires step > 0
    ensures |r| > 0 && r[0] == h
    decreases h
  {
    if h == 0 then [0]
    else
      [h] + LocatorHeights(if h > step then h - step else 0, count + 1, if count + 1 > 10 then 2 * step else step)
  }

  lemma {:induction false} LocatorDescends(h: nat, count: nat, step: nat)
    requires step > 0
    ensures var r := LocatorHeights(h, count, step);
            && r[|r| - 1] == 0
            && (forall i :: 0 <= i < |r| ==> r[i] <= h)
            && (forall i, j :: 0 <= i < j < |r| ==> r[i] > r[j])
    decreases h
  {
    if h > 0 {
      LocatorDescends(if h > step then h - step else 0, count + 1, if count + 1 > 10 then 2 * step else step);
    }
  }

  /** The first twelve heights follow one another, as far as there are so many. */
  lemma {:induction false} LocatorStartsDense(h: nat, count: nat, i: nat)
    requires count + i <= 11 && i <= h
    ensures i < |LocatorHeights(h, count, 1)| && LocatorHeights(h, count, 1)[i] == h - i
    decreases i
  {
    if i > 0 {
      var step := if count + 1 > 10 then 2 else 1;
      var rest := LocatorHeights(h - 1, count + 1, step);
      assert LocatorHeights(h, count, 1) == [h] + rest;
      if step == 1 {
        LocatorStartsDense(h - 1, count + 1, i - 1);
      }
    }
  }

  lemma {:induction false} LocatorTail(h: nat, count: nat)
    requires count <= 10 && h >= 10 - count
    ensures 10 - count < |LocatorHeights(h, count, 1)|
    ensures LocatorHeights(h, count, 1)[10 - count..] == LocatorHeights(h - (10 - count), 10, 1)
    decreases 10 - count
  {
    if count < 10 {
      LocatorTail(h - 1, count + 1);
      assert LocatorHeights(h, count, 1) == [h] + LocatorHeights(h - 1, count + 1, 1);
    }
  }

  /** From there on each step down is twice the one before, until genesis is reached. */
  lemma {:induction false} LocatorDoubles(h: nat, count: nat, step: nat, i: nat)
    requires step > 0 && count >= 10 && i + 2 < |LocatorHeights(h, count, step)| && LocatorHeights(h, count, step)[i + 2] > 0
    ensures var r := LocatorHeights(h, count, step);
            var a: int, b: int, c: int := r[i], r[i + 1], r[i + 2];
            b - c == 2 * (a - b)
    decreases h
  {
    var next := if h > step then h - step else 0;
    var rest := LocatorHeights(next, count + 1, 2 * step);
    assert LocatorHeights(h, count, step) == [h] + rest;
    if i > 0 {
      LocatorDoubles(next, count + 1, 2 * step, i - 1);
    } else {
      assert next > 0 by { LocatorDescends(next, count + 1, 2 * step); }
      var last := if next > 2 * step then next - 2 * step else 0;
      assert rest == [next] + LocatorHeights(last, count + 2, 4 * step);
    }
  }

  /** A locator: twelve heights that follow one another, then steps that double until genesis is reached. */
  lemma LocatorShape(h: nat, i: nat)
    ensures var r := LocatorHeights(h, 0, 1);
            && (i <= 11 && i <= h ==> i < |r| && r[i] == h - i)
            && (i >= 10 && i + 2 < |r| && r[i + 2] > 0 ==>
                  var a: int, b: int, c: int := r[i], r[i + 1], r[i + 2]; b - c == 2 * (a - b))
  {
    hide LocatorHeights;
    var r := LocatorHeights(h, 0, 1);
    if i <= 11 && i <= h {
      LocatorStartsDense(h, 0, i);
    }
    if i >= 10 && i + 2 < |r| && r[i + 2] > 0 {
      LocatorDescends(h, 0, 1);
      if h < 10 {
        LocatorStartsDense(h, 0, h);
        assert false;
      }
      LocatorTail(h, 0);
      LocatorDoubles(h - 10, 10, 1, i - 10);
    }
  }

  lemma {:induction false} DoublingSteps(h: nat, count: nat, step: nat)
    requires step > 0 && count >= 10
    ensures var n := |LocatorHeights(h, count, step)|;
            n >= 2 ==> Pow2(n - 2) * step < h + step
    decreases h
  {
    if h > step {
      DoublingSteps(h - step, count + 1, 2 * step);
      var n := |LocatorHeights(h - step, count + 1, 2 * step)|;
      if n >= 2 {
        Doubled(Pow2(n - 2), step);
      }
    }
  }

  lemma Doubled(p: nat, step: nat)
    ensures 2 * p * step == p * (2 * step)
  {
  }

  lemma {:induction false} SingleSteps(h: nat, count: nat)
    requires count <= 10
    ensures var n := count + |LocatorHeights(h, count, 1)|;
            n >= 12 ==> Pow2(n - 12) + 10 <= h + count
    decreases 10 - count
  {
    if count == 10 {
      DoublingSteps(h, 10, 1);
    } else if h > 1 {
      SingleSteps(h - 1, count + 1);
    }
  }

  /** A locator is logarithmically long: beyond eleven entries, each further one doubles the height needed. */
  lemma LocatorIsShort(h: nat)
    ensures var n := |LocatorHeights(h, 0, 1)|;
            n >= 12 ==> Pow2(n - 12) + 10 <= h
  {
    SingleSteps(h, 0);
  }

  /** The first listed height that is not above f. */
  ghost function FirstAtMost(r: seq<nat>, f: nat): nat
    requires |r| > 0 && r[|r| - 1] == 0
  {
    if r[0] <= f then r[0] else FirstAtMost(r[1..], f)
  }

  lemma {:induction false} FirstBelowIsNear(top: nat, h: nat, count: nat, step: nat, f: nat)
    requires f < h <= top && 0 < step
    requires (step == 1 && count <= top - h) || step <= top - h
    ensures LocatorHeights(h, count, step)[|LocatorHeights(h, count, step)| - 1] == 0
    ensures top - FirstAtMost(LocatorHeights(h, count, step), f) <= 2 * (top - f)
    decreases h
  {
    LocatorDescends(h, count, step);
    var next := if h > step then h - step else 0;
    var wider := if count + 1 > 10 then 2 * step else step;
    var rest := LocatorHeights(next, count + 1, wider);
    assert LocatorHeights(h, count, step)[1..] == rest;
    if next > f {
      FirstBelowIsNear(top, next, count + 1, wider, f);
    }
  }

  /** Where a locator from height top first meets a chain that forked off at height f. */
  lemma LocatorMeetsNear(top: nat, f: nat)
    requires f <= top
    ensures LocatorHeights(top, 0, 1)[|LocatorHeights(top, 0, 1)| - 1] == 0
    ensures top - FirstAtMost(LocatorHeights(top, 0, 1), f) <= 2 * (top - f)
  {
    LocatorDescends(top, 0, 1);
    if f < top {
      FirstBelowIsNear(top, top, 0, 1, f);
    }
  }

  /** The ancestors of b a locator names. */
  ghost function Locator(b: BlockIndex): (r: seq<BlockIndex>)
    requires Rooted(b)
    ensures |r| == |LocatorHeights(b.nHeight, 0, 1)|
    ensures forall i :: 0 <= i < |r| ==> LocatorHeights(b.nHeight, 0, 1)[i] <= b.nHeight
                                         && r[i] == Path(b)[LocatorHeights(b.nHeight, 0, 1)[i]]
  {
    LocatorDescends(b.nHeight, 0, 1);
    var hs := LocatorHeights(b.nHeight, 0, 1);
    seq(|hs|, i requires 0 <= i < |hs| => Path(b)[hs[i]])
  }

  lemma LocatorUnfolds(all: seq<nat>, k: nat, h: nat, step: nat)
    requires step > 0 && k < |all| && all[k..] == LocatorHeights(h, k, step)
    ensures all[k] == h
    ensures if h == 0 then k + 1 == |all|
            else k + 1 < |all|
                 && all[k + 1..] == LocatorHeights(if h > step then h - step else 0, k + 1, if k + 1 > 10 then 2 * step else step)
  {
  }

  predicate InChain(v: seq<BlockIndex?>, b: BlockIndex) {
    b.nHeight < |v| && v[b.nHeight] == b
  }

  /** The first known block of a locator that is in the chain; otherwise genesis, if there is one. */
  ghost function ForkOf(v: seq<BlockIndex?>, locator: seq<BlockIndex>, known: set<BlockIndex>): BlockIndex? {
    if locator == [] then if v == [] then null else v[0]
    else if locator[0] in known && InChain(v, locator[0]) then locator[0]
    else ForkOf(v, locator[1..], known)
  }

  /** Two chains from one genesis agree up to the fork height and nowhere above. */
  ghost predicate ForksAt(v: seq<BlockIndex?>, b: BlockIndex, f: nat)
    requires Rooted(b)
  {
    && f <= b.nHeight && f < |v|
    && (forall k :: 0 <= k <= f ==> v[k] == Path(b)[k])
    && (forall k :: f < k < |v| && k <= b.nHeight ==> v[k] != Path(b)[k])
  }

  lemma {:induction false} ForkOfHeights(v: seq<BlockIndex?>, b: BlockIndex, f: nat, known: set<BlockIndex>,
                                         hs: seq<nat>, locator: seq<BlockIndex>)
    requires Rooted(b) && ForksAt(v, b, f) && (forall k :: 0 <= k <= f ==> v[k] in known)
    requires |hs| > 0 && hs[|hs| - 1] == 0 && |locator| == |hs|
    requires forall i :: 0 <= i < |hs| ==> hs[i] <= b.nHeight && locator[i] == Path(b)[hs[i]]
    ensures FirstAtMost(hs, f) <= f && ForkOf(v, locator, known) == Path(b)[FirstAtMost(hs, f)]
  {
    if hs[0] > f {
      assert hs[1..][|hs| - 2] == 0;
      ForkOfHeights(v, b, f, known, hs[1..], locator[1..]);
    }
  }

  /** FindFork on a locator from another tip finds a common ancestor, at most twice as far from that tip as the
      true fork. */
  lemma FindForkIsNear(v: seq<BlockIndex?>, b: BlockIndex, f: nat, known: set<BlockIndex>)
    requires Rooted(b) && ForksAt(v, b, f) && (forall k :: 0 <= k <= f ==> v[k] in known)
    ensures var r := ForkOf(v, Locator(b), known);
            && r != null && r.nHeight <= f && r == Path(b)[r.nHeight] == v[r.nHeight]
            && b.nHeight - r.nHeight <= 2 * (b.nHeight - f)
  {
    LocatorMeetsNear(b.nHeight, f);
    ForkOfHeights(v, b, f, known, LocatorHeights(b.nHeight, 0, 1), Locator(b));
  }

  class CChain {
    var vChain: seq<BlockIndex?>

    constructor ()
      ensures vChain == [] && Valid()
    {
      vChain := [];
    }

    ghost predicate Valid()
      reads this
    {
      IsChain(vChain)
    }

    function Tip(): BlockIndex?
      reads this
    {
      if |vChain| > 0 then vChain[|vChain| - 1] else null
    }

    function Genesis(): BlockIndex?
      reads this
    {
      if |vChain| > 0 then vChain[0] else null
    }

    function At(h: int): BlockIndex?
      reads this
    {
      if h < 0 || h >= |vChain| then null else vChain[h]
    }

    predicate Contains(b: BlockIndex)
      reads this
    {
      At(b.nHeight) == b
    }

    function Height(): int
      reads this
    {
      |vChain| - 1
    }

    /** Makes the chain the path to the given block. Stopping at the first block already in place is enough: that
        block is the fork point, and everything below it agrees. */
    method SetTip(pindex: BlockIndex?) returns (fork: BlockIndex?)
      requires Valid() && (pindex != null ==> Rooted(pindex))
      modifies this
      ensures Valid() && Tip() == pindex
      ensures if pindex == null then vChain == [] else vChain == Path(pindex)
      ensures fork != null ==> pindex != null && fork in Path(pindex) && fork in old(vChain)
      ensures pindex != null ==> forall b :: b in Path(pindex) && b in old(vChain) ==> fork != null && b.nHeight <= fork.nHeight
    {
      hide Laid;
      if pindex == null {
        vChain := [];
        return null;
      }
      ghost var path := Path(pindex);
      ghost var before := vChain;
      var size := pindex.nHeight + 1;
      vChain := if |vChain| >= size then vChain[..size] else vChain + seq(size - |vChain|, _ => null);
      LaidInit(before, path);
      fork := pindex;
      while fork != null && vChain[fork.nHeight] != fork
        invariant fork != null ==> fork.nHeight < size && path[fork.nHeight] == fork
        invariant |vChain| == size && Laid(vChain, before, path, if fork == null then -1 else fork.nHeight)
        decreases if fork == null then -1 else fork.nHeight
      {
        ParentOnPath(pindex, fork.nHeight);
        LaidStep(vChain, before, path, fork.nHeight);
        vChain := vChain[fork.nHeight := fork];
        fork := fork.pprev;
      }
      Spliced(pindex, before, vChain, fork);
    }
  
    /** Lists the block (by default the tip) and ancestors of it down to genesis, ever further apart; using this
        chain where the block is on it changes nothing. */
    method GetLocator(start: BlockIndex?) returns (vHave: seq<BlockIndex>)
      requires Valid() && (start != null ==> Rooted(start))
      ensures var from := if start == null then Tip() else start;
              vHave == if from == null then [] else Locator(from)
    {
      hide LocatorHeights;
      var nStep := 1;
      vHave := [];
      var pindex := start;
      if pindex == null {
        pindex := Tip();
      }
      if pindex == null {
        return;
      }
      ghost var from: BlockIndex := pindex;
      ghost var all := LocatorHeights(from.nHeight, 0, 1);
      assert all[0..] == all;
      while true
        invariant nStep > 0 && pindex != null && Rooted(from) && pindex.nHeight <= from.nHeight
        invariant pindex == Path(from)[pindex.nHeight]
        invariant |vHave| < |all| && all[|vHave|..] == LocatorHeights(pindex.nHeight, |vHave|, nStep)
        invariant vHave == Locator(from)[..|vHave|]
        decreases pindex.nHeight
      {
        LocatorUnfolds(all, |vHave|, pindex.nHeight, nStep);
        vHave := vHave + [pindex];
        if pindex.nHeight == 0 {
          break;
        }
        var nHeight := if pindex.nHeight > nStep then pindex.nHeight - nStep else 0;
        pindex := StepBack(pindex, nHeight, from);
        if |vHave| > 10 {
          nStep := nStep * 2;
        }
      }
    }

    method StepBack(pindex: BlockIndex, nHeight: nat, ghost from: BlockIndex) returns (back: BlockIndex)
      requires Valid() && Rooted(from) && nHeight < pindex.nHeight <= from.nHeight
      requires pindex == Path(from)[pindex.nHeight]
      ensures back == Path(from)[nHeight]
    {
      back := pindex;
      while back.nHeight > nHeight && !Contains(back)
        invariant nHeight <= back.nHeight <= from.nHeight && back == Path(from)[back.nHeight]
        decreases back.nHeight
      {
        ParentOnPath(from, back.nHeight);
        back := back.pprev;
      }
      if back.nHeight > nHeight {
        ChainPrefix(vChain, back.nHeight);
        PathOfAncestor(from, back.nHeight);
        assert vChain[nHeight] == vChain[..back.nHeight + 1][nHeight];
        back := vChain[nHeight];
      }
    }

    method FindFork(locator: seq<BlockIndex>, known: set<BlockIndex>) returns (fork: BlockIndex?)
      requires Valid()
      ensures fork == ForkOf(vChain, locator, known)
    {
      for i := 0 to |locator|
        invariant ForkOf(vChain, locator, known) == ForkOf(vChain, locator[i..], known)
      {
        if locator[i] in known && Contains(locator[i]) {
          return locator[i];
        }
      }
      return Genesis();
    }
  }
}

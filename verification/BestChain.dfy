/** FindMostWorkChain and ActivateBestChain over the block tree. Whether a block connects is a fixed property of
    the block: module Outcomes shows that it depends on the block's ancestors alone. */
module BestChain {
  import opened BlockTree

  datatype Outcome = Connected | Rejected(corruptionPossible: bool) | SystemError

  datatype Result = Done | Retry | Error

  /** CBlockIndexWorkComparator: by work, then by earlier arrival, then by address. */
  predicate Less(a: BlockIndex, b: BlockIndex) {
    || a.nChainWork < b.nChainWork
    || (a.nChainWork == b.nChainWork && a.nSequenceId > b.nSequenceId)
    || (a.nChainWork == b.nChainWork && a.nSequenceId == b.nSequenceId && a.address > b.address)
  }

  predicate IsGreatest(m: BlockIndex, s: set<BlockIndex>) {
    m in s && forall b :: b in s ==> b == m || Less(b, m)
  }

  /** The choice among blocks, said without the comparator: none of them has more work; of those with as much, none arrived
      earlier; and of those that arrived with it, none has a smaller address. */
  predicate ComesFirst(m: BlockIndex, s: set<BlockIndex>) {
    && m in s
    && forall b :: b in s ==>
         && b.nChainWork <= m.nChainWork
         && (b.nChainWork == m.nChainWork ==>
               && m.nSequenceId <= b.nSequenceId
               && (b.nSequenceId == m.nSequenceId ==> m.address <= b.address))
  }

  lemma GreatestComesFirst(s: set<BlockIndex>)
    requires DistinctAddresses(s)
    ensures forall m :: m in s ==> (IsGreatest(m, s) <==> ComesFirst(m, s))
  {
  }

  ghost predicate DistinctAddresses(s: set<BlockIndex>) {
    forall a, b :: a in s && b in s && a.address == b.address ==> a == b
  }

  lemma {:induction false} GreatestExists(s: set<BlockIndex>)
    requires s != {} && DistinctAddresses(s)
    ensures exists m :: IsGreatest(m, s) && ComesFirst(m, s)
    decreases |s|
  {
    var b :| b in s;
    if s == {b} {
      assert IsGreatest(b, s);
    } else {
      GreatestExists(s - {b});
      var m :| IsGreatest(m, s - {b});
      if Less(m, b) {
        forall x | x in s
          ensures x == b || Less(x, b)
        {
          assert x == b || x in s - {b};
        }
        assert IsGreatest(b, s);
      } else {
        assert IsGreatest(m, s);
      }
    }
  }

  lemma ChainPop(v: seq<BlockIndex?>)
    requires IsChain(v) && |v| > 0
    ensures v[|v| - 1] != null
    ensures var parent := v[|v| - 1].pprev;
            if parent == null then |v| == 1 else Rooted(parent) && v[..|v| - 1] == Path(parent)
  {
  }

  /** A chain whose last block is in another chain is a prefix of it, and only then. */
  lemma PrefixByTip(v: seq<BlockIndex?>, w: seq<BlockIndex?>)
    requires IsChain(v) && IsChain(w) && |v| > 0
    ensures v[|v| - 1] != null && (v <= w <==> InChain(w, v[|v| - 1]))
  {
    var tip := v[|v| - 1];
    assert tip.nHeight == |v| - 1;
    if InChain(w, tip) {
      ChainPrefix(w, tip.nHeight);
      assert v == w[..|v|];
    }
  }

  class ChainManager {
    const outcome: BlockIndex -> Outcome
    const canDisconnect: BlockIndex -> bool
    var index: set<BlockIndex>
    var validSet: set<BlockIndex>
    const active: CChain
    const mostWork: CChain

    constructor (outcome: BlockIndex -> Outcome, canDisconnect: BlockIndex -> bool)
      ensures this.outcome == outcome && this.canDisconnect == canDisconnect && index == {} && Valid()
      ensures fresh(active) && fresh(mostWork) && active.vChain == [] && mostWork.vChain == []
    {
      this.outcome, this.canDisconnect, index, validSet := outcome, canDisconnect, {}, {};
      active := new CChain();
      mostWork := new CChain();
    }

    /** What becomes of a block when its path is connected from genesis on: the first outcome on the way that is not
        Connected. */
    ghost function Fate(b: BlockIndex): Outcome
      requires Rooted(b)
      decreases b.nHeight
    {
      if b.pprev != null && !Fate(b.pprev).Connected? then Fate(b.pprev) else outcome(b)
    }

    /** Only a rule broken on the way, by data not thought damaged, rules a block out. */
    ghost predicate Eligible(b: BlockIndex) {
      Rooted(b) && Fate(b) != Rejected(false)
    }

    ghost function Eligibles(): set<BlockIndex>
      reads `index
    {
      set b | b in index && Eligible(b)
    }

    ghost predicate TreeValid()
      reads this, index
    {
      && DistinctAddresses(index)
      && (forall b :: b in index ==> Rooted(b) && forall k :: 0 <= k <= b.nHeight ==> Path(b)[k] in index)
      && validSet <= index
      && (forall b :: b in index ==> (b in validSet <==> !b.Failed()))
      && (forall b :: b in index ==> Eligible(b) ==> !b.Failed())
    }

    ghost predicate Within(c: CChain)
      reads this, c
    {
      c.Valid() && forall k :: 0 <= k < |c.vChain| ==> c.vChain[k] != null && c.vChain[k] in index
    }

    ghost predicate Valid()
      reads this, active, mostWork, index
    {
      && active != mostWork && TreeValid() && Within(active) && Within(mostWork)
      && forall k :: 0 <= k < |active.vChain| ==> outcome(active.vChain[k]).Connected?
    }

    lemma PathWithin(b: BlockIndex)
      requires TreeValid() && b in index
      ensures forall k :: 0 <= k < |Path(b)| ==> Path(b)[k] in index
    {
    }

    lemma {:induction false} FateOfAncestor(b: BlockIndex, k: nat)
      requires Rooted(b) && k <= b.nHeight
      ensures !Fate(Path(b)[k]).Connected? ==> Fate(b) == Fate(Path(b)[k])
      decreases b.nHeight
    {
      if k < b.nHeight {
        FateOfAncestor(b.pprev, k);
      }
    }

    lemma {:induction false} FateConnected(b: BlockIndex)
      requires Rooted(b)
      ensures Fate(b).Connected? <==> forall k :: 0 <= k <= b.nHeight ==> outcome(Path(b)[k]).Connected?
      decreases b.nHeight
    {
      if b.pprev == null {
        assert Path(b)[0] == b;
      } else {
        FateConnected(b.pprev);
        if Fate(b).Connected? {
          forall k | 0 <= k <= b.nHeight ensures outcome(Path(b)[k]).Connected? {
            if k < b.nHeight {
              assert Path(b)[k] == Path(b.pprev)[k];
            } else {
              assert Path(b)[k] == b;
            }
          }
        } else if Fate(b.pprev).Connected? {
          assert Path(b)[b.nHeight] == b;
        } else {
          var k :| 0 <= k < b.nHeight && !outcome(Path(b.pprev)[k]).Connected?;
          assert Path(b)[k] == Path(b.pprev)[k];
        }
      }
    }

    /** The first block on the path that does not connect decides. */
    lemma {:induction false} FateIsFirst(b: BlockIndex, k: nat)
      requires Rooted(b) && k <= b.nHeight && !outcome(Path(b)[k]).Connected?
      requires forall j :: 0 <= j < k ==> outcome(Path(b)[j]).Connected?
      ensures Fate(b) == outcome(Path(b)[k])
      decreases b.nHeight
    {
      if b.pprev != null {
        assert forall j :: 0 <= j < b.nHeight ==> Path(b)[j] == Path(b.pprev)[j];
        if k < b.nHeight {
          FateIsFirst(b.pprev, k);
        } else {
          FateConnected(b.pprev);
        }
      }
    }

    /** Blocks of the active chain connect all the way, so none of them is marked failed. */
    lemma ActiveConnects(b: BlockIndex)
      requires Valid() && active.Contains(b)
      ensures b in index && Rooted(b) && Fate(b).Connected? && !b.Failed()
    {
      ChainPrefix(active.vChain, b.nHeight);
      assert forall k :: 0 <= k <= b.nHeight ==> Path(b)[k] == active.vChain[..b.nHeight + 1][k];
      FateConnected(b);
    }

    lemma DescendantNotEligible(candidate: BlockIndex, k: nat, b: BlockIndex)
      requires Rooted(candidate) && b in Path(candidate) && k <= b.nHeight && !Eligible(Path(candidate)[k])
      ensures Rooted(b) && !Eligible(b)
    {
      PathOfAncestor(candidate, b.nHeight);
      assert Path(b)[k] == Path(candidate)[..b.nHeight + 1][k];
      FateOfAncestor(b, k);
    }

    /** Marks add nothing to what the outcomes say: an eligible block has no marked ancestor either. */
    lemma EligibleUnmarked(b: BlockIndex)
      requires Valid() && b in index && Eligible(b)
      ensures NoneFailed(b) && b in validSet
    {
      forall k | 0 <= k <= b.nHeight
        ensures !Path(b)[k].Failed()
      {
        FateOfAncestor(b, k);
      }
    }

    // -------------------------------------------------------------- FindMostWorkChain

    /** A tip that is marked failed gives way to its parent, over and over. */
    method DropFailedTips()
      requires Valid()
      modifies this`validSet, mostWork
      ensures Valid() && validSet == old(validSet)
      ensures mostWork.Tip() != null ==> !mostWork.Tip().Failed()
      ensures mostWork.vChain <= old(mostWork.vChain)
      ensures old(mostWork.Tip() != null && !mostWork.Tip().Failed()) ==> mostWork.vChain == old(mostWork.vChain)
    {
      while mostWork.Tip() != null && mostWork.Tip().Failed()
        invariant Valid() && validSet == old(validSet)
        invariant mostWork.vChain <= old(mostWork.vChain)
        invariant old(mostWork.Tip() != null && !mostWork.Tip().Failed()) ==> mostWork.vChain == old(mostWork.vChain)
        decreases |mostWork.vChain|
      {
        DropTip();
      }
    }

    method DropTip()
      requires Valid() && mostWork.Tip() != null && mostWork.Tip().Failed()
      modifies this`validSet, mostWork
      ensures Valid() && validSet == old(validSet)
      ensures mostWork.vChain == old(mostWork.vChain)[..|old(mostWork.vChain)| - 1]
    {
      hide IsChain, DistinctAddresses, Fate, Path;
      var tip := mostWork.Tip();
      ChainPop(mostWork.vChain);
      assert validSet - {tip} == validSet;
      validSet := validSet - {tip};
      var _ := mostWork.SetTip(tip.pprev);
    }

    /** The first failed block on the way from a candidate down to the active chain. */
    method FirstFailed(candidate: BlockIndex) returns (failed: BlockIndex?)
      requires Valid() && candidate in index
      ensures failed == null ==> NoneFailed(candidate)
      ensures failed != null ==> failed.nHeight <= candidate.nHeight && Path(candidate)[failed.nHeight] == failed && failed.Failed()
      ensures failed != null ==> !NoneFailed(candidate)
    {
      hide Fate, IsChain, DistinctAddresses;
      var pindexTest: BlockIndex? := candidate;
      while pindexTest != null && !active.Contains(pindexTest)
        invariant pindexTest != null ==> pindexTest.nHeight <= candidate.nHeight && pindexTest == Path(candidate)[pindexTest.nHeight]
        invariant var h := if pindexTest == null then -1 else pindexTest.nHeight;
                  forall k :: h < k <= candidate.nHeight ==> !Path(candidate)[k].Failed()
        decreases if pindexTest == null then -1 else pindexTest.nHeight
      {
        if pindexTest.Failed() {
          return pindexTest;
        }
        ParentOnPath(candidate, pindexTest.nHeight);
        pindexTest := pindexTest.pprev;
      }
      if pindexTest != null {
        NoneFailedBelow(candidate, pindexTest);
      }
      return null;
    }

    lemma NoneFailedBelow(candidate: BlockIndex, b: BlockIndex)
      requires Valid() && candidate in index && active.Contains(b)
      requires b.nHeight <= candidate.nHeight && b == Path(candidate)[b.nHeight]
      ensures forall k :: 0 <= k <= b.nHeight ==> !Path(candidate)[k].Failed()
    {
      hide Fate, IsChain, DistinctAddresses;
      var h := b.nHeight;
      PathOfAncestor(candidate, h);
      forall k | 0 <= k <= h
        ensures !Path(candidate)[k].Failed()
      {
        AncestorActive(b, k);
        assert Path(candidate)[k] == Path(candidate)[..h + 1][k];
        ActiveConnects(Path(candidate)[k]);
      }
    }

    lemma AncestorActive(b: BlockIndex, k: nat)
      requires Valid() && active.Contains(b) && k <= b.nHeight
      ensures Rooted(b) && active.Contains(Path(b)[k])
    {
      ChainPrefix(active.vChain, b.nHeight);
      assert Path(b)[k] == active.vChain[..b.nHeight + 1][k];
    }

    lemma PathByHeight(b: BlockIndex)
      requires Rooted(b)
      ensures forall a :: a in Path(b) ==> a.nHeight <= b.nHeight && Path(b)[a.nHeight] == a
    {
    }

    /** Everything above a failed block up to the candidate is marked as descending from it. */
    method MarkDescendants(candidate: BlockIndex, failed: BlockIndex)
      requires Valid() && candidate in index && candidate in validSet
      requires failed.nHeight <= candidate.nHeight && Path(candidate)[failed.nHeight] == failed && failed.Failed()
      modifies this`validSet, index`failedChild
      ensures Valid() && validSet < old(validSet)
      ensures forall b :: b in index ==> b.failedValid == old(b.failedValid)
      ensures forall b :: b in index ==>
                b.failedChild == (old(b.failedChild) || (b in Path(candidate) && b.nHeight > failed.nHeight))
    {
      hide Fate, IsChain, DistinctAddresses;
      PathByHeight(candidate);
      MarkAbove(candidate, failed);
      forall b | b in index && b in Path(candidate) && b.nHeight > failed.nHeight
        ensures !Eligible(b)
      {
        DescendantNotEligible(candidate, failed.nHeight, b);
      }
      assert candidate !in validSet;
    }

    method MarkAbove(candidate: BlockIndex, failed: BlockIndex)
      requires Rooted(candidate) && forall a :: a in Path(candidate) ==> a in index
      requires forall b :: b in index ==> (b in validSet <==> !b.Failed())
      requires failed.nHeight <= candidate.nHeight && Path(candidate)[failed.nHeight] == failed
      modifies this`validSet, index`failedChild
      ensures validSet <= old(validSet)
      ensures forall b :: b in index ==> b.failedValid == old(b.failedValid)
      ensures forall b :: b in index ==>
                b.failedChild == (old(b.failedChild) || (b in Path(candidate) && b.nHeight > failed.nHeight))
      ensures forall b :: b in index ==> (b in validSet <==> !b.Failed())
    {
      ghost var path := Path(candidate);
      PathByHeight(candidate);
      var pindexFailed: BlockIndex := candidate;
      while failed != pindexFailed
        invariant failed.nHeight <= pindexFailed.nHeight <= candidate.nHeight && path[pindexFailed.nHeight] == pindexFailed
        invariant validSet <= old(validSet)
        invariant forall b :: b in index ==> b.failedValid == old(b.failedValid)
        invariant forall b :: b in index ==>
                    b.failedChild == (old(b.failedChild) || (b in path && b.nHeight > pindexFailed.nHeight))
        invariant forall b :: b in index ==> (b in validSet <==> !b.Failed())
        decreases pindexFailed.nHeight
      {
        ParentOnPath(candidate, pindexFailed.nHeight);
        pindexFailed.failedChild := true;
        validSet := validSet - {pindexFailed};
        pindexFailed := pindexFailed.pprev;
      }
    }

    ghost predicate NoneFailed(b: BlockIndex)
      requires Rooted(b)
      reads Ancestors(b)
    {
      forall k :: 0 <= k <= b.nHeight ==> !Path(b)[k].Failed()
    }

    /** The best candidate without an invalid ancestor; candidates with one are struck off on the way. Nothing
        happens if there is no such candidate above the settled one. */
    method NextCandidate(ghost settled: BlockIndex?) returns (pindexNew: BlockIndex?)
      requires Valid() && (settled != null ==> Settled(settled))
      modifies this`validSet, index`failedChild
      ensures Valid() && validSet <= old(validSet)
      ensures if pindexNew == null then validSet == {} else Settled(pindexNew)
      ensures settled != null ==> pindexNew == settled && validSet == old(validSet) && unchanged(index)
    {
      hide Fate, IsChain;
      while true
        invariant Valid() && validSet <= old(validSet)
        invariant settled != null ==> validSet == old(validSet) && unchanged(index) && Settled(settled)
        decreases validSet
      {
        if validSet == {} {
          return null;
        }
        pindexNew := Greatest(settled);
        var failed := FirstFailed(pindexNew);
        if failed == null {
          return;
        }
        assert settled == null;
        MarkDescendants(pindexNew, failed);
      }
    }

    /** The last element of setBlockIndexValid. */
    method Greatest(ghost settled: BlockIndex?) returns (b: BlockIndex)
      requires Valid() && validSet != {} && (settled != null ==> IsGreatest(settled, validSet))
      ensures IsGreatest(b, validSet) && (settled != null ==> b == settled)
    {
      assert DistinctAddresses(validSet);
      GreatestExists(validSet);
      b :| b in validSet && IsGreatest(b, validSet);
    }

    /** The best candidate, with no invalid ancestor. */
    ghost predicate Settled(b: BlockIndex)
      reads this, Ancestors(b)
    {
      IsGreatest(b, validSet) && Rooted(b) && NoneFailed(b)
    }

    ghost function Ancestors(b: BlockIndex): set<BlockIndex> {
      if Rooted(b) then set a | a in Path(b) else {}
    }

    /** Makes mostWork the chain with the most work that is not known to be invalid. When the old tip turns out
        invalid only now, it stays -- but then a candidate has been struck off. */
    method FindMostWorkChain()
      requires Valid()
      modifies this`validSet, mostWork, index`failedChild
      ensures Valid() && validSet <= old(validSet)
      ensures mostWork.Tip() == null ==> validSet == {}
      ensures mostWork.Tip() != null && mostWork.Tip().Failed() ==> validSet < old(validSet)
      ensures mostWork.Tip() != null && !mostWork.Tip().Failed() ==>
                Settled(mostWork.Tip()) && ComesFirst(mostWork.Tip(), validSet)
      ensures old(mostWork.Tip() != null && Settled(mostWork.Tip())) ==>
                mostWork.vChain == old(mostWork.vChain) && validSet == old(validSet) && unchanged(index)
    {
      hide DistinctAddresses, Fate;
      DropFailedTips();
      var tip := mostWork.Tip();
      assert tip != null ==> tip in index && tip in validSet;
      ghost var settled := if tip != null && Settled(tip) then tip else null;
      var pindexNew := NextCandidate(settled);
      if pindexNew == null {
        return;
      }
      ValidDistinct();
      GreatestComesFirst(validSet);
      Adopt(pindexNew);
    }

    lemma ValidDistinct()
      requires Valid()
      ensures DistinctAddresses(validSet)
    {
    }

    /** Only a candidate better than the tip replaces it. */
    method Adopt(pindexNew: BlockIndex)
      requires Valid() && Settled(pindexNew)
      modifies mostWork
      ensures Valid() && mostWork.Tip() != null
      ensures mostWork.Tip() == pindexNew || (mostWork.Tip().Failed() && mostWork.vChain == old(mostWork.vChain))
      ensures old(mostWork.Tip()) == pindexNew ==> mostWork.vChain == old(mostWork.vChain)
    {
      hide DistinctAddresses, Fate;
      var tip := mostWork.Tip();
      if tip != null && !Less(tip, pindexNew) {
        assert !tip.Failed() ==> tip == pindexNew;
        return;
      }
      var _ := mostWork.SetTip(pindexNew);
      PathWithin(pindexNew);
    }

    // -------------------------------------------------------------- ActivateBestChain

    method DisconnectTip() returns (ok: bool)
      requires Valid() && active.Tip() != null
      modifies active
      ensures Valid() && ok == canDisconnect(old(active.Tip()))
      ensures active.vChain == if ok then old(active.vChain)[..|old(active.vChain)| - 1] else old(active.vChain)
    {
      hide Fate, DistinctAddresses, IsChain, Path;
      var pindexDelete := active.Tip();
      ok := canDisconnect(pindexDelete);
      if ok {
        ChainPop(active.vChain);
        var _ := active.SetTip(pindexDelete.pprev);
      }
    }

    /** Takes the active chain back to where it and mostWork part. */
    method DisconnectActive() returns (ok: bool)
      requires Valid() && mostWork.Tip() != null
      modifies active
      ensures Valid() && active.vChain <= old(active.vChain)
      ensures ok ==> active.vChain <= mostWork.vChain
      ensures PartsAbove(active.vChain, old(active.vChain), mostWork.vChain)
      ensures !ok ==> active.Tip() != null && !canDisconnect(active.Tip())
      ensures old(active.vChain <= mostWork.vChain) ==> ok && active.vChain == old(active.vChain)
    {
      hide Fate, DistinctAddresses, IsChain, Path;
      while active.Tip() != null && !mostWork.Contains(active.Tip())
        invariant Valid() && active.vChain <= old(active.vChain)
        invariant PartsAbove(active.vChain, old(active.vChain), mostWork.vChain)
        invariant old(active.vChain <= mostWork.vChain) ==> active.vChain == old(active.vChain)
        decreases |active.vChain|
      {
        TipHeight(active.vChain);
        PrefixByTip(active.vChain, mostWork.vChain);
        ok := DisconnectTip();
        if !ok {
          return;
        }
      }
      if |active.vChain| > 0 {
        PrefixByTip(active.vChain, mostWork.vChain);
      }
      return true;
    }

    /** What stood right above kept is not in the other chain. */
    ghost predicate PartsAbove(kept: seq<BlockIndex?>, before: seq<BlockIndex?>, other: seq<BlockIndex?>) {
      |kept| < |before| && |kept| < |other| ==> before[|kept|] != other[|kept|]
    }

    /** A block that broke a rule, on data not thought damaged, is marked and struck off. */
    method InvalidBlockFound(b: BlockIndex)
      requires Valid() && b in index && b.pprev == active.Tip() && outcome(b) == Rejected(false)
      modifies this`validSet, b`failedValid
      ensures Valid() && b.Failed() && validSet == old(validSet) - {b}
    {
      hide DistinctAddresses, Path;
      FateOnTip(b);
      b.failedValid := true;
      validSet := validSet - {b};
    }

    lemma FateOnTip(b: BlockIndex)
      requires Valid() && Rooted(b) && b.pprev == active.Tip()
      ensures Fate(b) == outcome(b)
    {
      if b.pprev != null {
        TipHeight(active.vChain);
        ActiveConnects(b.pprev);
      }
    }

    /** Connects one block; a block that violates a rule is marked, unless its data may just be damaged. */
    method ConnectTip(b: BlockIndex) returns (r: Outcome)
      requires Valid() && b in index && b.pprev == active.Tip()
      modifies this`validSet, active, b`failedValid
      ensures Valid() && r == outcome(b)
      ensures active.vChain == if r.Connected? then old(active.vChain) + [b] else old(active.vChain)
      ensures if r == Rejected(false) then validSet == old(validSet) - {b} else validSet == old(validSet) && unchanged(b)
    {
      r := outcome(b);
      match r
      case Connected =>
        var _ := active.SetTip(b);
      case Rejected(corrupt) =>
        if !corrupt {
          InvalidBlockFound(b);
        }
      case SystemError =>
    }
  
    /** Connects the next block of the best chain. If that fails, it is the fate of the tip. */
    method ConnectNext() returns (o: Outcome)
      requires Valid() && mostWork.Tip() != null && active.vChain <= mostWork.vChain && !active.Contains(mostWork.Tip())
      requires mostWork.Tip().Failed() || NoneFailed(mostWork.Tip())
      modifies this`validSet, active, index`failedValid
      ensures Valid() && validSet <= old(validSet) && Rooted(mostWork.Tip()) && |old(active.vChain)| < |mostWork.vChain|
      ensures mostWork.vChain[|old(active.vChain)|] != null && o == outcome(mostWork.vChain[|old(active.vChain)|])
      ensures active.vChain == if o.Connected? then mostWork.vChain[..|old(active.vChain)| + 1] else old(active.vChain)
      ensures !o.Connected? ==> Fate(mostWork.Tip()) == o
      ensures if o == Rejected(false) then old(mostWork.Tip().Failed()) || validSet < old(validSet)
              else validSet == old(validSet) && unchanged(index)
    {
      hide Fate, DistinctAddresses, IsChain, Path;
      var height := active.Height() + 1;
      NextToConnect(height);
      o := ConnectTip(mostWork.At(height));
    }

    /** Connects the blocks of the best chain on top of the active one. How this ends is the fate of the tip. */
    method ConnectBest() returns (r: Result)
      requires Valid() && mostWork.Tip() != null && active.vChain <= mostWork.vChain
      requires mostWork.Tip().Failed() || NoneFailed(mostWork.Tip())
      modifies this`validSet, active, index`failedValid
      ensures Valid() && validSet <= old(validSet) && old(active.vChain) <= active.vChain <= mostWork.vChain
      ensures Rooted(mostWork.Tip()) && r == ResultOf(Fate(mostWork.Tip()))
      ensures r == Done ==> active.vChain == mostWork.vChain && validSet == old(validSet)
      ensures r != Done ==> StoppedAt(Fate(mostWork.Tip()))
      ensures Fate(mostWork.Tip()) == Rejected(true) ==> validSet == old(validSet) && unchanged(index)
      ensures Fate(mostWork.Tip()) == Rejected(false) ==> old(mostWork.Tip().Failed()) || validSet < old(validSet)
      ensures old(StoppedAt(Fate(mostWork.Tip()))) ==> active.vChain == old(active.vChain)
    {
      hide Fate, DistinctAddresses, IsChain, Path;
      while !active.Contains(mostWork.Tip())
        invariant Valid() && validSet == old(validSet) && unchanged(index)
        invariant old(active.vChain) <= active.vChain <= mostWork.vChain
        invariant |old(active.vChain)| < |active.vChain| ==> outcome(mostWork.vChain[|old(active.vChain)|]).Connected?
        decreases |mostWork.vChain| - |active.vChain|
      {
        var outcome := ConnectNext();
        if !outcome.Connected? {
          return ResultOf(outcome);
        }
      }
      TipHeight(mostWork.vChain);
      ActiveConnects(mostWork.Tip());
      return Done;
    }

    /** The block right above the active chain has outcome o, and it is not Connected. */
    ghost predicate StoppedAt(o: Outcome)
      reads active, mostWork
    {
      |active.vChain| < |mostWork.vChain| && mostWork.vChain[|active.vChain|] != null && !o.Connected?
      && outcome(mostWork.vChain[|active.vChain|]) == o
    }

    lemma TipHeight(v: seq<BlockIndex?>)
      requires IsChain(v) && |v| > 0
      ensures v[|v| - 1] != null && v[|v| - 1].nHeight == |v| - 1
    {
    }

    lemma NextToConnect(height: nat)
      requires Valid() && mostWork.Tip() != null && active.vChain <= mostWork.vChain
      requires !active.Contains(mostWork.Tip()) && height == |active.vChain|
      requires mostWork.Tip().Failed() || NoneFailed(mostWork.Tip())
      ensures height < |mostWork.vChain| && Rooted(mostWork.Tip())
      ensures var b := mostWork.vChain[height];
              && b != null && b in index && b.pprev == active.Tip() && (mostWork.Tip().Failed() || b in validSet)
              && (!outcome(b).Connected? ==> Fate(mostWork.Tip()) == outcome(b))
    {
      ChainPrefix(mostWork.vChain, |mostWork.vChain| - 1);
      ChainPrefix(mostWork.vChain, height);
      FateOnTip(mostWork.vChain[height]);
      FateOfAncestor(mostWork.Tip(), height);
    }

    // -------------------------------------------------------------- the loop

    /** The greatest eligible block has fate o. Neither marks nor chains matter: this can be told before a call. */
    ghost predicate Ends(o: Outcome)
      reads `index
    {
      exists c :: c in index && IsGreatest(c, Eligibles()) && Fate(c) == o
    }

    /** Undo data is at hand for every block. */
    ghost predicate AllDisconnect()
      reads `index
    {
      forall b :: b in index ==> canDisconnect(b)
    }

    lemma OneEnd(o: Outcome, p: Outcome)
      requires Ends(o) && Ends(p)
      ensures o == p
    {
    }

    /** The next block to connect is one whose failure will not be remembered. */
    ghost predicate Stuck()
      reads this, active, mostWork, index
    {
      && Valid() && mostWork.Tip() != null && Settled(mostWork.Tip())
      && active.vChain <= mostWork.vChain && StoppedAt(Rejected(true))
    }

    /** The best chain is active: its tip is the greatest eligible block, or there is none and nothing is active. */
    ghost predicate BestActive()
      reads this, active, mostWork, index
    {
      && Valid()
      && if active.Tip() == null then Eligibles() == {} else IsGreatest(active.Tip(), Eligibles())
    }

    /** One round of ActivateBestChain. A round that has to be retried has struck a candidate off -- except when a
        failure is not remembered: then the next round is the same again. */
    method Round() returns (r: Result)
      requires Valid()
      modifies this`validSet, active, mostWork, index
      ensures Valid() && validSet <= old(validSet)
      ensures r == Done ==> BestActive() && (mostWork.Tip() == null || active.vChain == mostWork.vChain)
      ensures r == Done && mostWork.Tip() != null ==> IsGreatest(active.Tip(), validSet)
      ensures r == Retry ==> validSet < old(validSet) || (Stuck() && Ends(Rejected(true)))
      ensures r == Error ==> Ends(SystemError) || !AllDisconnect()
      ensures Ends(Rejected(true)) && AllDisconnect() ==> r == Retry
      ensures old(Stuck()) ==> r == Retry && Stuck() && active.vChain == old(active.vChain)
                               && mostWork.vChain == old(mostWork.vChain) && validSet == old(validSet) && unchanged(index)
    {
      hide Fate, DistinctAddresses, IsChain, BestActive, Ends;
      FindMostWorkChain();
      if mostWork.Tip() == null {
        NothingLeft();
        return Done;
      }
      TipIsGoal();
      var ok := DisconnectActive();
      if !ok {
        return Error;
      }
      r := ConnectBest();
      if r == Done {
        DoneIsBest();
      }
    }

    /** A candidate that nothing rules out is the greatest eligible block. */
    lemma TipIsGoal()
      requires Valid() && mostWork.Tip() != null && (mostWork.Tip().Failed() || Settled(mostWork.Tip()))
      ensures Rooted(mostWork.Tip())
      ensures if Fate(mostWork.Tip()) == Rejected(false) then true
              else Settled(mostWork.Tip()) && Ends(Fate(mostWork.Tip())) && forall o :: Ends(o) ==> o == Fate(mostWork.Tip())
    {
      hide Fate;
      if Fate(mostWork.Tip()) != Rejected(false) {
        assert forall b :: b in Eligibles() ==> b in validSet;
        assert IsGreatest(mostWork.Tip(), Eligibles());
        forall o | Ends(o)
          ensures o == Fate(mostWork.Tip())
        {
          OneEnd(o, Fate(mostWork.Tip()));
        }
      }
    }

    lemma NothingLeft()
      requires Valid() && validSet == {}
      ensures BestActive() && forall o :: !Ends(o)
    {
      hide Fate;
      assert forall b :: b in Eligibles() ==> b in validSet;
      if active.Tip() != null {
        TipHeight(active.vChain);
        ActiveConnects(active.Tip());
      }
    }

    lemma DoneIsBest()
      requires Valid() && mostWork.Tip() != null && active.vChain == mostWork.vChain
      requires Rooted(mostWork.Tip()) && Fate(mostWork.Tip()).Connected? && Settled(mostWork.Tip())
      ensures BestActive() && IsGreatest(active.Tip(), validSet)
    {
      hide Fate;
      assert forall b :: b in Eligibles() ==> b in validSet;
    }

    /** The tip comes first among the eligible blocks; without any, nothing is active. */
    ghost predicate TipIsFirst()
      reads active, `index
    {
      if active.Tip() == null then Eligibles() == {} else ComesFirst(active.Tip(), Eligibles())
    }

    lemma BestActiveIsFirst()
      requires Valid()
      ensures BestActive() <==> TipIsFirst()
    {
      hide Fate;
      GreatestComesFirst(Eligibles());
    }

    /** What a caller gets: an unfailed, greatest tip with at least the work of any eligible block. */
    lemma BestActiveMeans(oldTip: BlockIndex?)
      requires BestActive() && (oldTip != null ==> oldTip in index && Eligible(oldTip))
      ensures forall k :: 0 <= k < |active.vChain| ==> !active.vChain[k].Failed()
      ensures oldTip != null ==> active.Tip() != null && oldTip.nChainWork <= active.Tip().nChainWork
      ensures active.Tip() != null ==> Ends(Connected)
    {
      hide Fate;
      forall k | 0 <= k < |active.vChain|
        ensures !active.vChain[k].Failed()
      {
        ChainPrefix(active.vChain, k);
        ActiveConnects(active.vChain[k]);
      }
      assert oldTip != null ==> oldTip in Eligibles();
      if active.Tip() != null {
        TipHeight(active.vChain);
        ActiveConnects(active.Tip());
      }
    }

    /** Activates the best chain. It returns -- unless the greatest eligible block has a failure on its path that is not
        remembered -- with the path to that block active: no active block is marked failed, and the tip's work is
        never below the old tip's. */
    method ActivateBestChain() returns (ok: bool)
      requires Valid() && !Ends(Rejected(true))
      modifies this`validSet, active, mostWork, index
      ensures Valid()
      ensures ok ==> BestActive() && (mostWork.Tip() == null || active.vChain == mostWork.vChain)
      ensures ok ==> TipIsFirst()
      ensures ok ==> forall k :: 0 <= k < |active.vChain| ==> !active.vChain[k].Failed()
      ensures ok && mostWork.Tip() != null ==> IsGreatest(active.Tip(), validSet)
      ensures ok && old(active.Tip()) != null ==>
                active.Tip() != null && old(active.Tip().nChainWork) <= active.Tip().nChainWork
      ensures AllDisconnect() ==> (ok <==> !Ends(SystemError))
    {
      hide Fate, DistinctAddresses, IsChain, Path, BestActive, NoneFailed, IsGreatest, Stuck, Settled, Ends, TipIsFirst;
      ghost var oldTip := active.Tip();
      if oldTip != null {
        TipHeight(active.vChain);
        ActiveConnects(oldTip);
      }
      var fComplete := false;
      while !fComplete
        invariant Valid() && !Ends(Rejected(true))
        invariant fComplete ==> BestActive() && (mostWork.Tip() == null || active.vChain == mostWork.vChain)
        invariant fComplete && mostWork.Tip() != null ==> IsGreatest(active.Tip(), validSet)
        decreases validSet, !fComplete
      {
        var r := Round();
        if r == Error {
          return false;
        }
        fComplete := r == Done;
      }
      BestActiveMeans(oldTip);
      BestActiveIsFirst();
      NoOtherEnd(SystemError);
      return true;
    }

    /** With the best chain active, the greatest eligible block connects. */
    lemma NoOtherEnd(o: Outcome)
      requires BestActive() && !o.Connected?
      ensures !Ends(o)
    {
      BestActiveMeans(null);
      if Ends(o) && active.Tip() != null {
        OneEnd(o, Connected);
      }
    }

    /** The loop cut off after n rounds. Given undo data, it is still not through after more rounds than there are
        candidates if and only if the greatest eligible block has a failure on its path that is not remembered -- and
        then it never gets through. */
    method Rounds(n: nat) returns (r: Result)
      requires Valid()
      modifies this`validSet, active, mostWork, index
      ensures Valid()
      ensures r == Retry && n > |old(validSet)| ==> Stuck() && Ends(Rejected(true))
      ensures AllDisconnect() && Ends(Rejected(true)) ==> r == Retry
    {
      hide Fate, DistinctAddresses, IsChain, Path, BestActive, NoneFailed, IsGreatest, Stuck, Settled, Ends;
      r := Retry;
      var i := 0;
      while i < n && r == Retry
        invariant Valid() && i <= n
        invariant r == Retry ==> (Stuck() && Ends(Rejected(true))) || i + |validSet| <= |old(validSet)|
        invariant AllDisconnect() && Ends(Rejected(true)) ==> r == Retry
      {
        ghost var before := validSet;
        r := Round();
        if validSet < before {
          Shrinks(validSet, before);
        }
        i := i + 1;
      }
    }

    /** AddToBlockIndex, up to the call of ActivateBestChain. */
    method Insert(prev: BlockIndex?, work: nat, sequence: nat, address: int) returns (b: BlockIndex)
      requires Valid() && (prev != null ==> prev in index)
      requires forall x :: x in index ==> x.address != address
      modifies this`index, this`validSet
      ensures Valid() && fresh(b) && index == old(index) + {b} && validSet == old(validSet) + {b}
      ensures b.pprev == prev && b.nSequenceId == sequence && b.address == address
      ensures b.nHeight == (if prev == null then 0 else prev.nHeight + 1)
      ensures b.nChainWork == (if prev == null then 0 else prev.nChainWork) + work
    {
      b := new BlockIndex(prev, work, sequence, address);
      index := index + {b};
      validSet := validSet + {b};
    }
  }

  /** The first block seen stays: a later arrival of no more work than the tip leaves the active chain as it is, whatever
      its own data. */
  method AddRival(m: ChainManager, prev: BlockIndex?, work: nat, sequence: nat, address: int) returns (b: BlockIndex, ok: bool)
    requires m.BestActive() && m.active.Tip() != null && (prev != null ==> prev in m.index)
    requires forall x :: x in m.index ==> x.address != address
    requires (if prev == null then 0 else prev.nChainWork) + work <= m.active.Tip().nChainWork
    requires m.active.Tip().nSequenceId < sequence
    modifies m`index, m`validSet, m.active, m.mostWork, m.index
    ensures m.BestActive() || !ok
    ensures fresh(b) && m.index == old(m.index) + {b} && b.nSequenceId == sequence && b.address == address
    ensures ok ==> m.active.vChain == old(m.active.vChain)
    ensures m.AllDisconnect() ==> ok
  {
    hide ChainManager.Fate, IsChain, Path;
    ghost var tip := m.active.Tip();
    SameTip(m, tip);
    b := m.Insert(prev, work, sequence, address);
    StillFirst(m, tip, b);
    ok := m.ActivateBestChain();
    if ok {
      SameTip(m, tip);
    }
  }

  lemma StillFirst(m: ChainManager, tip: BlockIndex, b: BlockIndex)
    requires m.Valid() && b in m.index && m.active.Tip() == tip && IsGreatest(tip, m.Eligibles() - {b}) && Less(b, tip)
    ensures IsGreatest(tip, m.Eligibles()) && m.BestActive()
    ensures !m.Ends(Rejected(true)) && !m.Ends(SystemError)
  {
    hide ChainManager.Fate;
    assert IsGreatest(tip, m.Eligibles());
    m.NoOtherEnd(Rejected(true));
    m.NoOtherEnd(SystemError);
  }

  lemma SameTip(m: ChainManager, tip: BlockIndex)
    requires m.BestActive() && IsGreatest(tip, m.Eligibles())
    ensures m.active.Tip() == tip && Rooted(tip) && m.active.vChain == Path(tip)
  {
    hide ChainManager.Fate;
  }

  /** What a round makes of the fate of the candidate it settles on. */
  function ResultOf(o: Outcome): Result {
    match o
    case Connected => Done
    case Rejected(_) => Retry
    case SystemError => Error
  }

  lemma Shrinks(a: set<BlockIndex>, b: set<BlockIndex>)
    requires a < b
    ensures |a| < |b|
  {
    assert b == a + (b - a);
  }

  /** One block whose data is damaged is enough: the loop is never through, however many rounds it makes. */
  method DamagedBlock(n: nat) returns (m: ChainManager, r: Result)
    ensures fresh(m) && m.Valid() && |m.index| == 1 && m.AllDisconnect() && m.Ends(Rejected(true))
    ensures r == Retry && (n > 1 ==> m.Stuck())
  {
    m := new ChainManager(_ => Rejected(true), _ => true);
    var b := m.Insert(null, 1, 0, 0);
    assert m.Fate(b) == Rejected(true) && m.Eligibles() == {b};
    assert IsGreatest(b, m.Eligibles());
    r := m.Rounds(n);
  }
}

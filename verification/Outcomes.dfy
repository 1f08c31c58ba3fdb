/** Ties what one component takes as given to what another computes: the outcome of connecting a block, which BestChain
    assumes, is that of ChainState, and the joined script checks of Validation are those CheckQueue hands out. */
module Outcomes {
  import opened BlockTree
  import opened BestChain
  import opened Supply
  import opened Utxo
  import ChainState
  import CheckQueue

  ghost function Blocks(path: seq<BlockIndex>, blockOf: BlockIndex -> Block): (r: seq<Block>)
    ensures |r| == |path| && forall i :: 0 <= i < |path| ==> r[i] == blockOf(path[i])
  {
    seq(|path|, i requires 0 <= i < |path| => blockOf(path[i]))
  }

  /** A block connects exactly when it does on the coins its ancestors leave; the genesis block always does. */
  ghost predicate Realises(m: ChainManager, rules: Rules, blockOf: BlockIndex -> Block)
    requires rules.halvingInterval > 0
    reads m`index
  {
    forall b :: b in m.index && Rooted(b) ==>
      if b.pprev == null then m.outcome(b).Connected?
      else
        var before := Replay(rules, Blocks(Path(b.pprev), blockOf));
        before.Some? ==> (m.outcome(b).Connected? <==> ConnectBlock(rules, before.value, blockOf(b), b.nHeight).Accept?)
  }

  /** The fate of a block is whether the path to it replays. */
  lemma {:induction false} FateIsReplay(m: ChainManager, rules: Rules, blockOf: BlockIndex -> Block, b: BlockIndex)
    requires rules.halvingInterval > 0 && m.TreeValid() && Realises(m, rules, blockOf) && b in m.index
    ensures m.Fate(b).Connected? <==> Replay(rules, Blocks(Path(b), blockOf)).Some?
    decreases b.nHeight
  {
    hide ConnectBlock, DistinctAddresses, Blocks, Path, Replay, Realises;
    Realised(m, rules, blockOf, b);
    if b.pprev != null {
      ParentInIndex(m, b);
      FateIsReplay(m, rules, blockOf, b.pprev);
      BlocksOfChild(b, blockOf);
      ChainState.ReplayOfPrefix(rules, Blocks(Path(b.pprev), blockOf), blockOf(b));
    }
  }

  lemma Realised(m: ChainManager, rules: Rules, blockOf: BlockIndex -> Block, b: BlockIndex)
    requires rules.halvingInterval > 0 && Realises(m, rules, blockOf) && b in m.index && Rooted(b)
    ensures b.pprev == null ==> m.outcome(b).Connected? && Replay(rules, Blocks(Path(b), blockOf)).Some?
    ensures b.pprev != null && Replay(rules, Blocks(Path(b.pprev), blockOf)).Some? ==>
              (m.outcome(b).Connected? <==>
               ConnectBlock(rules, Replay(rules, Blocks(Path(b.pprev), blockOf)).value, blockOf(b), b.nHeight).Accept?)
  {
    hide ConnectBlock;
  }

  lemma ParentInIndex(m: ChainManager, b: BlockIndex)
    requires m.TreeValid() && b in m.index && b.pprev != null
    ensures Rooted(b) && b.pprev in m.index
  {
    assert Path(b)[b.nHeight - 1] == b.pprev;
  }

  lemma BlocksOfChild(b: BlockIndex, blockOf: BlockIndex -> Block)
    requires Rooted(b) && b.pprev != null
    ensures Blocks(Path(b), blockOf) == Blocks(Path(b.pprev), blockOf) + [blockOf(b)]
  {
  }

  /** Whatever happened before, a node that has come to a block's parent finds the outcome that was taken as given. */
  lemma OutcomeInEveryRun(m: ChainManager, rules: Rules, blockOf: BlockIndex -> Block, b: BlockIndex, s: ChainState.Node,
                          steps: seq<ChainState.Step>)
    requires rules.halvingInterval > 0 && m.TreeValid() && Realises(m, rules, blockOf) && b in m.index && b.pprev != null
    requires ChainState.Sound(rules, s)
    requires ChainState.Run(rules, s, steps).active == Blocks(Path(b.pprev), blockOf)
    ensures m.outcome(b).Connected? <==>
            ConnectBlock(rules, ChainState.Run(rules, s, steps).coins, blockOf(b), b.nHeight).Accept?
  {
    hide ConnectBlock, ChainState.Sound, ChainState.Run, DistinctAddresses;
    ChainState.OutcomeIsFixed(rules, s, steps, blockOf(b));
  }

  /** With the best chain active, its tip is the greatest of all blocks whose path replays. */
  lemma BestReplays(m: ChainManager, rules: Rules, blockOf: BlockIndex -> Block)
    requires rules.halvingInterval > 0 && m.BestActive() && Realises(m, rules, blockOf)
    ensures m.active.Tip() != null ==>
              Rooted(m.active.Tip()) && Replay(rules, Blocks(Path(m.active.Tip()), blockOf)).Some?
    ensures forall b :: b in m.index && Rooted(b) && Replay(rules, Blocks(Path(b), blockOf)).Some? ==>
              m.active.Tip() != null && (b == m.active.Tip() || Less(b, m.active.Tip()))
  {
    hide Replay, DistinctAddresses, ChainManager.Fate;
    if m.active.Tip() != null {
      m.TipHeight(m.active.vChain);
      m.ActiveConnects(m.active.Tip());
      FateIsReplay(m, rules, blockOf, m.active.Tip());
    }
    forall b | b in m.index && Rooted(b) && Replay(rules, Blocks(Path(b), blockOf)).Some?
      ensures m.active.Tip() != null && (b == m.active.Tip() || Less(b, m.active.Tip()))
    {
      FateIsReplay(m, rules, blockOf, b);
      assert b in m.Eligibles();
    }
  }

  /** Joining the checks of a block in a queue shared with any number of threads gives what checking them in turn does. */
  lemma QueueJoinsChecks(rules: Rules, nBatchSize: nat, states: seq<CheckQueue.State<ScriptCheck>>,
                         steps: seq<CheckQueue.Step<ScriptCheck>>, k: nat, checks: seq<ScriptCheck>)
    requires CheckQueue.IsRun(rules.verify, nBatchSize, states, steps) && k < |steps|
    requires !steps[k].Check? && !steps[k].Add? && steps[k].i == 0 && states[k].added == multiset(checks)
    ensures var section := CheckQueue.Decision(nBatchSize, CheckQueue.Locked(states[k], steps[k]), 0).1;
            section.Return? ==> (section.result <==> AllVerify(rules, checks))
  {
    hide CheckQueue.IsRun, CheckQueue.Decision, CheckQueue.Locked;
    CheckQueue.EveryWaitIsConjunction(rules.verify, nBatchSize, states, steps, k);
    assert forall c :: c in multiset(checks) <==> c in checks;
  }
}

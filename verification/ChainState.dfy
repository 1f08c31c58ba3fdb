/** The chain state over whole runs: whatever is connected and disconnected, in whatever order, the coin set is
    the one that replaying the active chain gives, and the best-block marker names its tip. */
module ChainState {
  import opened Coins
  import opened Utxo
  import opened CoinsViews
  import opened Supply
  import Validation

  /** An index entry is named by the path of blocks from genesis to it; undo data is filed under that name. */
  type Path = seq<Block>

  datatype Node = Node(coins: UtxoSet, best: Hash, active: Path, undo: map<Path, seq<TxUndo>>)

  datatype Step = Connect(b: Block) | Disconnect

  /** ConnectTip and DisconnectTip on the observable state. Undo data is written once per index entry and
      reused if the entry is connected again. */
  function Next(rules: Rules, s: Node, step: Step): Node
    requires rules.halvingInterval > 0 && s.active != []
  {
    var top := |s.active| - 1;
    match step
    case Connect(b) =>
      (match ConnectBlock(rules, s.coins, b, |s.active|)
       case Reject(_) => s
       case Accept((v, undo)) =>
         var entry := s.active + [b];
         Node(v, b.hash, entry, if entry in s.undo then s.undo else s.undo[entry := undo]))
    case Disconnect =>
      if top == 0 || s.active !in s.undo then s else
      match DisconnectBlock(s.coins, s.active[top], s.undo[s.active], top)
      case Clean(v) => Node(v, s.active[top - 1].hash, s.active[..top], s.undo)
      case _ => s
  }

  /** Undo data belongs to the set that replaying the entry's ancestors gives. */
  ghost predicate UndoFits(rules: Rules, entry: Path, undo: seq<TxUndo>)
    requires rules.halvingInterval > 0
  {
    && |entry| >= 2
    && Replay(rules, entry[..|entry| - 1]).Some?
    && var u := Replay(rules, entry[..|entry| - 1]).value;
       ConnectBlock(rules, u, entry[|entry| - 1], |entry| - 1).Accept?
       && ConnectBlock(rules, u, entry[|entry| - 1], |entry| - 1).value.1 == undo
  }

  ghost predicate Sound(rules: Rules, s: Node)
    requires rules.halvingInterval > 0
  {
    && s.active != []
    && Replay(rules, s.active) == Some(s.coins)
    && s.best == s.active[|s.active| - 1].hash
    && (forall e :: e in s.undo ==> UndoFits(rules, e, s.undo[e]))
    && (forall k :: 2 <= k <= |s.active| ==> s.active[..k] in s.undo)
  }

  lemma ReplaySnoc(rules: Rules, chain: Path, b: Block)
    requires rules.halvingInterval > 0 && chain != [] && Replay(rules, chain).Some?
    ensures Replay(rules, chain + [b]) ==
            match ConnectBlock(rules, Replay(rules, chain).value, b, |chain|)
            case Reject(_) => None
            case Accept((v, _)) => Some(v)
  {
    hide ConnectBlock;
    assert (chain + [b])[..|chain|] == chain;
  }

  /** A path replays only if all of it does. */
  lemma ReplayOfPrefix(rules: Rules, chain: Path, b: Block)
    requires rules.halvingInterval > 0 && chain != []
    ensures Replay(rules, chain + [b]).Some? <==>
            Replay(rules, chain).Some? && ConnectBlock(rules, Replay(rules, chain).value, b, |chain|).Accept?
  {
    hide ConnectBlock;
    assert (chain + [b])[..|chain|] == chain;
  }

  /** The undo data an entry is first given is the data every later connection would compute. */
  lemma ConnectSound(rules: Rules, s: Node, b: Block)
    requires rules.halvingInterval > 0 && Sound(rules, s)
    ensures Sound(rules, Next(rules, s, Connect(b)))
    ensures s.active != [] && s.best == s.active[|s.active| - 1].hash
  {
    hide ConnectBlock, DisconnectBlock, Replay, Next, UndoFits;
    ReplaySnoc(rules, s.active, b);
    NextConnect(rules, s, b);
    if ConnectBlock(rules, s.coins, b, |s.active|).Accept? {
      var entry := s.active + [b];
      NewEntryFits(rules, s, b);
      assert entry[..|entry|] == entry;
      assert forall k :: 2 <= k <= |s.active| ==> entry[..k] == s.active[..k];
    }
  }

  lemma NewEntryFits(rules: Rules, s: Node, b: Block)
    requires rules.halvingInterval > 0 && s.active != [] && Replay(rules, s.active) == Some(s.coins)
    requires ConnectBlock(rules, s.coins, b, |s.active|).Accept?
    ensures UndoFits(rules, s.active + [b], ConnectBlock(rules, s.coins, b, |s.active|).value.1)
  {
    hide ConnectBlock, Replay;
    var entry := s.active + [b];
    assert entry[..|entry| - 1] == s.active;
  }

  /** The tip always disconnects cleanly, and what is left is the replay of the shorter chain. */
  lemma DisconnectSound(rules: Rules, s: Node)
    requires rules.halvingInterval > 0 && Sound(rules, s) && |s.active| >= 2
    ensures var t := Next(rules, s, Disconnect);
            Sound(rules, t) && t.active == s.active[..|s.active| - 1]
    ensures s.best == s.active[|s.active| - 1].hash
    ensures s.active in s.undo
    ensures DisconnectBlock(s.coins, s.active[|s.active| - 1], s.undo[s.active], |s.active| - 1).Clean?
  {
    hide ConnectBlock, DisconnectBlock, Replay;
    var top := |s.active| - 1;
    var shorter := s.active[..top];
    assert shorter + [s.active[top]] == s.active;
    assert s.active[..|s.active|] == s.active;
    assert UndoFits(rules, s.active, s.undo[s.active]);
    ReplaySnoc(rules, shorter, s.active[top]);
    ReplayTotal(rules, shorter);
    DisconnectInvertsConnect(rules, Replay(rules, shorter).value, s.active[top], top);
    assert forall k :: 2 <= k <= top ==> shorter[..k] == s.active[..k];
  }

  ghost function Run(rules: Rules, s: Node, steps: seq<Step>): Node
    requires rules.halvingInterval > 0 && s.active != []
    ensures Run(rules, s, steps).active != []
  {
    if steps == [] then s else Next(rules, Run(rules, s, steps[..|steps| - 1]), steps[|steps| - 1])
  }

  lemma NothingToDisconnect(rules: Rules, s: Node)
    requires rules.halvingInterval > 0 && |s.active| == 1
    ensures Next(rules, s, Disconnect) == s
  {
  }

  /** Every run, reorganisations and rejected blocks included, stays at the replay of the active chain. */
  lemma {:induction false} RunSound(rules: Rules, s: Node, steps: seq<Step>)
    requires rules.halvingInterval > 0 && Sound(rules, s)
    ensures Sound(rules, Run(rules, s, steps))
  {
    hide Next;
    if steps != [] {
      RunSound(rules, s, steps[..|steps| - 1]);
      var t := Run(rules, s, steps[..|steps| - 1]);
      match steps[|steps| - 1]
      case Connect(b) => ConnectSound(rules, t, b);
      case Disconnect =>
        if |t.active| >= 2 {
          DisconnectSound(rules, t);
        } else {
          NothingToDisconnect(rules, t);
        }
    }
  }

  /** The coin set depends on the active chain alone, not on the way there. */
  lemma PathIndependence(rules: Rules, s: Node, one: seq<Step>, two: seq<Step>)
    requires rules.halvingInterval > 0 && Sound(rules, s)
    requires Run(rules, s, one).active == Run(rules, s, two).active
    ensures Run(rules, s, one).coins == Run(rules, s, two).coins
    ensures Run(rules, s, one).best == Run(rules, s, two).best
  {
    hide Sound, Run, Next, Replay;
    SoundMeans(rules, s);
    RunSound(rules, s, one);
    RunSound(rules, s, two);
    SoundMeans(rules, Run(rules, s, one));
    SoundMeans(rules, Run(rules, s, two));
  }

  lemma SoundMeans(rules: Rules, s: Node)
    requires rules.halvingInterval > 0 && Sound(rules, s)
    ensures s.active != [] && Replay(rules, s.active) == Some(s.coins) && s.best == s.active[|s.active| - 1].hash
  {
  }

  /** No run on the main network makes the coins add up to more than MAX_MONEY. */
  lemma RunKeepsSupply(rules: Rules, s: Node, steps: seq<Step>)
    requires rules.halvingInterval == MAINNET_HALVING_INTERVAL && Sound(rules, s)
    requires |Run(rules, s, steps).active| <= 64 * MAINNET_HALVING_INTERVAL
    ensures 0 <= Total(Run(rules, s, steps).coins) <= MAX_MONEY
  {
    hide Sound, Run, Next, Replay;
    SoundMeans(rules, s);
    RunSound(rules, s, steps);
    SoundMeans(rules, Run(rules, s, steps));
    SupplyNeverExceedsMaxMoney(rules, Run(rules, s, steps).active);
  }

  lemma NextConnect(rules: Rules, s: Node, b: Block)
    requires rules.halvingInterval > 0 && s.active != []
    ensures match ConnectBlock(rules, s.coins, b, |s.active|)
            case Reject(_) => Next(rules, s, Connect(b)) == s
            case Accept((v, undo)) =>
              var t := Next(rules, s, Connect(b));
              && t.coins == v && t.best == b.hash && t.active == s.active + [b]
              && t.undo == if s.active + [b] in s.undo then s.undo else s.undo[s.active + [b] := undo]
  {
  }

  lemma NextDisconnect(rules: Rules, s: Node)
    requires rules.halvingInterval > 0 && |s.active| >= 2 && s.active in s.undo
    requires DisconnectBlock(s.coins, s.active[|s.active| - 1], s.undo[s.active], |s.active| - 1).Clean?
    ensures var top := |s.active| - 1;
            var t := Next(rules, s, Disconnect);
            && Clean(t.coins) == DisconnectBlock(s.coins, s.active[top], s.undo[s.active], top)
            && t.best == s.active[top - 1].hash && t.active == s.active[..top] && t.undo == s.undo
  {
  }

  /** The globals pcoinsTip and chainActive, with the undo files. */
  class Chain {
    const rules: Rules
    var pcoinsTip: CoinsView
    var active: Path
    var undo: map<Path, seq<TxUndo>>

    ghost predicate Valid()
      reads this, pcoinsTip, pcoinsTip.Repr
    {
      && this !in pcoinsTip.Repr && pcoinsTip.Valid() && pcoinsTip.base != null
      && rules.halvingInterval > 0
      && Sound(rules, State())
    }

    ghost function State(): Node
      requires pcoinsTip.Valid()
      reads this, pcoinsTip, pcoinsTip.Repr
    {
      Node(pcoinsTip.Utxo(), pcoinsTip.Best(), active, undo)
    }

    /** A chain that holds the genesis block alone: its transactions are never put in the coin set. */
    constructor (rules: Rules, genesis: Block, tip: CoinsView)
      requires rules.halvingInterval > 0
      requires tip.Valid() && tip.base != null && tip.Utxo() == map[] && tip.Best() == genesis.hash
      ensures Valid() && active == [genesis] && undo == map[] && this.rules == rules && pcoinsTip == tip
    {
      this.rules, pcoinsTip, active, undo := rules, tip, [genesis], map[];
      new;
      assert this !in pcoinsTip.Repr;
    }

    /** WriteChainState may push the cached coins down to the database. */
    method WriteChainState(flush: bool)
      requires Valid() && pcoinsTip.hashBlock != 0
      modifies pcoinsTip.Repr
      ensures Valid() && State() == old(State()) && pcoinsTip.Repr == old(pcoinsTip.Repr)
    {
      hide Sound, CoinsView.Flat;
      if flush {
        pcoinsTip.Flush();
      }
    }
  
    /** Connects b on top of the tip, in a layer of its own. A rejected block changes nothing. Preconditions of
        ConnectBlock are the assertions of the source: they hold here. */
    method ConnectTip(b: Block, flush: bool) returns (ok: bool)
      requires Valid()
      modifies this`active, this`undo, pcoinsTip.Repr
      ensures Valid() && pcoinsTip.Repr == old(pcoinsTip.Repr)
      ensures |old(active)| > 0 && State() == Next(rules, old(State()), Connect(b))
      ensures ok <==> ConnectBlock(rules, old(pcoinsTip.Utxo()), b, |old(active)|).Accept?
      ensures active == if ok then old(active) + [b] else old(active)
    {
      hide Sound, Next, ConnectBlock, CoinsView.Flat, CoinsView.Utxo, CoinsView.Best;
      ConnectSound(rules, State(), b);
      NextConnect(rules, State(), b);
      var r := Validation.ConnectAtomically(rules, b, |active|, active[|active| - 1].hash, pcoinsTip);
      if r.Reject? {
        return false;
      }
      AddTip(b, r.value);
      WriteChainState(flush);
      return true;
    }

    /** Undo data is written where there is none yet; then the block becomes the tip. */
    method AddTip(b: Block, data: seq<TxUndo>)
      modifies this`active, this`undo
      ensures active == old(active) + [b]
      ensures undo == if active in old(undo) then old(undo) else old(undo)[active := data]
    {
      active := active + [b];
      if active !in undo {
        undo := undo[active := data];
      }
    }

    /** Takes the tip back. The recorded undo data always fits, so this cannot fail. */
    method DisconnectTip(flush: bool)
      requires Valid() && |active| >= 2
      modifies this`active, pcoinsTip.Repr
      ensures Valid() && pcoinsTip.Repr == old(pcoinsTip.Repr)
      ensures State() == Next(rules, old(State()), Disconnect)
      ensures active == old(active)[..|old(active)| - 1]
    {
      hide Sound, Next, DisconnectBlock, CoinsView.Flat, CoinsView.Utxo, CoinsView.Best;
      var top := |active| - 1;
      DisconnectSound(rules, State());
      NextDisconnect(rules, State());
      var done := Validation.DisconnectAtomically(active[top], undo[active], top, active[top - 1].hash, pcoinsTip);
      assert done;
      active := active[..top];
      WriteChainState(flush);
    }

    /** A whole run, with writes to the database wherever flushes says so. A lone genesis block stays. */
    method Perform(steps: seq<Step>, flushes: seq<bool>)
      requires Valid() && |flushes| == |steps|
      modifies this`active, this`undo, pcoinsTip.Repr
      ensures Valid() && pcoinsTip.Repr == old(pcoinsTip.Repr)
      ensures |old(active)| > 0 && State() == Run(rules, old(State()), steps)
    {
      hide Sound, Next, CoinsView.Flat, CoinsView.Utxo, CoinsView.Best;
      SoundMeans(rules, State());
      ghost var start := State();
      for i := 0 to |steps|
        invariant Valid() && pcoinsTip.Repr == old(pcoinsTip.Repr)
        invariant start.active != [] && State() == Run(rules, start, steps[..i])
      {
        assert steps[..i + 1][..i] == steps[..i];
        match steps[i]
        case Connect(b) =>
          var _ := ConnectTip(b, flushes[i]);
        case Disconnect =>
          if |active| >= 2 {
            DisconnectTip(flushes[i]);
          } else {
            NothingToDisconnect(rules, State());
          }
      }
      assert steps[..|steps|] == steps;
    }
  }

  // ---------------------------------------------------------------- what BestChain takes as given

  /** Whether a block connects, and why not, is fixed by its path: it is the same in every run that gets to its parent. */
  lemma OutcomeIsFixed(rules: Rules, s: Node, steps: seq<Step>, b: Block)
    requires rules.halvingInterval > 0 && Sound(rules, s)
    ensures s.active != []
    ensures var t := Run(rules, s, steps);
            && Replay(rules, t.active).Some?
            && ConnectBlock(rules, t.coins, b, |t.active|) == ConnectBlock(rules, Replay(rules, t.active).value, b, |t.active|)
            && (ConnectBlock(rules, t.coins, b, |t.active|).Accept? <==> Replay(rules, t.active + [b]).Some?)
  {
    hide Sound, Run, Next, ConnectBlock;
    SoundMeans(rules, s);
    RunSound(rules, s, steps);
    var t := Run(rules, s, steps);
    SoundMeans(rules, t);
    ReplaySnoc(rules, t.active, b);
  }
}

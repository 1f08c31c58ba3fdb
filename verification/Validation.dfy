/** The methods of main.cpp that change a view of the coin set, proved to do what the transition system of
    module Utxo says, and to leave the layer below untouched. */
module Validation {
  import opened Coins
  import opened Utxo
  import opened CoinsViews

  /** GetCoins by reference, Spend on what it refers to. */
  method SpendOutput(view: CoinsView, op: OutPoint) returns (undo: TxInUndo)
    requires view.Valid() && view.base != null && Available(view.Utxo(), op)
    modifies view.Repr
    ensures view.Valid() && view.base != null && view.OnTop() && view.hashBlock == old(view.hashBlock)
    ensures (view.Utxo(), undo) == SpendOne(old(view.Utxo()), op)
  {
    hide Live, SpendOf, Put, CoinsView.Flat, CoinsView.Best;
    LiveAvailable(view.Flat(), op);
    var _, c := view.GetCoins(op.hash);
    var coins := new CCoins(c);
    var ok;
    ok, undo := coins.Spend(op.n);
    assert ok;
    view.SetCoins(op.hash, coins.Value());
  }

  method SpendAllInputs(view: CoinsView, vin: seq<OutPoint>) returns (undos: TxUndo)
    requires view.Valid() && view.base != null
    requires forall i :: 0 <= i < |vin| ==> Available(view.Utxo(), vin[i])
    requires forall i, j :: 0 <= i < j < |vin| ==> vin[i] != vin[j]
    modifies view.Repr
    ensures view.Valid() && view.base != null && view.OnTop() && view.hashBlock == old(view.hashBlock)
    ensures SpendInputs(old(view.Utxo()), vin, |vin|) == Some((view.Utxo(), undos))
  {
    hide Live, SpendOne, CoinsView.Flat, CoinsView.Best;
    ghost var u := view.Utxo();
    undos := [];
    for i := 0 to |vin|
      invariant view.Valid() && view.base != null && view.OnTop() && view.hashBlock == old(view.hashBlock)
      invariant SpendInputs(u, vin, i) == Some((view.Utxo(), undos))
    {
      SpendInputsSucceeds(u, vin, i);
      var undo := SpendOutput(view, vin[i]);
      undos := undos + [undo];
    }
  }

  method UpdateCoins(view: CoinsView, tx: Tx, height: nat) returns (undos: TxUndo)
    requires view.Valid() && view.base != null
    requires ValidTx(tx) && HaveInputs(view.Utxo(), tx)
    modifies view.Repr
    ensures view.Valid() && view.base != null && view.OnTop() && view.hashBlock == old(view.hashBlock)
    ensures Utxo.UpdateCoins(old(view.Utxo()), tx, height) == Some((view.Utxo(), undos))
  {
    hide Live, SpendInputs, ClearUnspendableOf;
    undos := [];
    if !tx.IsCoinBase() {
      undos := SpendAllInputs(view, tx.vin);
    }
    var created := new CCoins.FromTx(tx.IsCoinBase(), tx.vout, height, tx.nVersion);
    view.SetCoins(tx.txid, created.Value());
  }

  /** None where the original throws. */
  method GetValueOut(tx: Tx) returns (r: Option<int>)
    ensures r == if OutputsInRange(tx.vout) then Some(ValueOut(tx)) else None
  {
    var value := 0;
    for i := 0 to |tx.vout|
      invariant value == SumOut(tx.vout, i)
      invariant forall k :: 0 <= k < i ==> MoneyRange(tx.vout[k].nValue)
      invariant forall k :: 0 <= k <= i ==> MoneyRange(SumOut(tx.vout, k))
    {
      value := value + tx.vout[i].nValue;
      if !MoneyRange(tx.vout[i].nValue) || !MoneyRange(value) {
        assert value == SumOut(tx.vout, i + 1);
        return None;
      }
    }
    return Some(value);
  }

  /** The inexpensive checks on each input: maturity and range. */
  method ScanTxInputs(view: CoinsView, vin: seq<OutPoint>, height: nat) returns (r: Verdict<int>)
    requires view.Valid() && forall i :: 0 <= i < |vin| ==> Available(view.Utxo(), vin[i])
    modifies view.Repr
    ensures view.Valid() && view.Undisturbed() && view.hashBlock == old(view.hashBlock)
    ensures r == ScanInputs(old(view.Utxo()), vin, height, |vin|)
  {
    hide Live, CoinsView.Flat, CoinsView.Best;
    ghost var u := view.Utxo();
    var valueIn := 0;
    for i := 0 to |vin|
      invariant view.Valid() && view.Undisturbed() && view.hashBlock == old(view.hashBlock)
      invariant ScanInputs(u, vin, height, i) == Accept(valueIn)
    {
      var op := vin[i];
      LiveAvailable(view.Flat(), op);
      var _, coins := view.GetCoins(op.hash);
      if coins.fCoinBase && height - coins.nHeight < COINBASE_MATURITY {
        ScanRejects(u, vin, height, i + 1, PrematureSpend);
        return Reject(PrematureSpend);
      }
      valueIn := valueIn + coins.vout[op.n].nValue;
      if !MoneyRange(coins.vout[op.n].nValue) || !MoneyRange(valueIn) {
        ScanRejects(u, vin, height, i + 1, InputValueRange);
        return Reject(InputValueRange);
      }
    }
    return Accept(valueIn);
  }

  /** Scripts of all inputs, in order: handed out where there are threads for them, checked on the spot otherwise. */
  method CheckScripts(rules: Rules, view: CoinsView, tx: Tx, strict: bool) returns (r: Verdict<seq<ScriptCheck>>)
    requires view.Valid() && forall i :: 0 <= i < |tx.vin| ==> Available(view.Utxo(), tx.vin[i])
    modifies view.Repr
    ensures view.Valid() && view.Undisturbed() && view.hashBlock == old(view.hashBlock)
    ensures r == Checked(rules, ChecksFor(old(view.Utxo()), tx, strict, |tx.vin|), rules.lastCheckpoint)
  {
    hide Live, CoinsView.Flat, CoinsView.Best;
    ghost var u := view.Utxo();
    var checks := [];
    for i := 0 to |tx.vin|
      invariant view.Valid() && view.Undisturbed() && view.hashBlock == old(view.hashBlock)
      invariant checks == if rules.checkThreads then ChecksFor(u, tx, strict, i) else []
      invariant !rules.checkThreads ==> AllVerify(rules, ChecksFor(u, tx, strict, i))
    {
      LiveAvailable(view.Flat(), tx.vin[i]);
      var _, coins := view.GetCoins(tx.vin[i].hash);
      var check := ScriptCheck(coins.vout[tx.vin[i].n].scriptPubKey, tx, i, strict);
      if rules.checkThreads {
        checks := checks + [check];
      } else if !rules.verify(check) {
        CheckFails(rules, u, tx, strict, i);
        return Reject(NonCanonical);
      }
    }
    return Accept(checks);
  }

  lemma {:induction false} ChecksInOrder(u: UtxoSet, tx: Tx, strict: bool, k: nat, i: nat)
    requires i < k <= |tx.vin| && forall i :: 0 <= i < |tx.vin| ==> Available(u, tx.vin[i])
    ensures |ChecksFor(u, tx, strict, k)| == k
    ensures ChecksFor(u, tx, strict, k)[i] == ScriptCheck(OutputFor(u, tx.vin[i]).scriptPubKey, tx, i, strict)
  {
    if k > 1 {
      ChecksInOrder(u, tx, strict, k - 1, if i < k - 1 then i else 0);
    }
  }

  lemma CheckFails(rules: Rules, u: UtxoSet, tx: Tx, strict: bool, i: nat)
    requires i < |tx.vin| && forall i :: 0 <= i < |tx.vin| ==> Available(u, tx.vin[i])
    requires !rules.verify(ScriptCheck(OutputFor(u, tx.vin[i]).scriptPubKey, tx, i, strict))
    ensures !AllVerify(rules, ChecksFor(u, tx, strict, |tx.vin|))
  {
    ChecksInOrder(u, tx, strict, |tx.vin|, i);
  }

  method CheckInputs(rules: Rules, view: CoinsView, tx: Tx, height: nat, strict: bool) returns (r: Verdict<seq<ScriptCheck>>)
    requires view.Valid() && ValidTx(tx)
    modifies view.Repr
    ensures view.Valid() && view.Undisturbed() && view.hashBlock == old(view.hashBlock)
    ensures r == Utxo.CheckInputs(rules, view.Utxo(), tx, height, strict)
  {
    hide Live, CoinsView.Flat, CoinsView.Best;
    if tx.IsCoinBase() {
      return Accept([]);
    }
    var have := view.HasInputs(tx);
    if !have {
      return Reject(MissingInputs);
    }
    var scan := ScanTxInputs(view, tx.vin, height);
    if scan.Reject? {
      return Reject(scan.reason);
    }
    var valueOut := GetValueOut(tx);
    if scan.value < valueOut.value {
      return Reject(InBelowOut);
    }
    var fee := scan.value - valueOut.value;
    if !MoneyRange(fee) {
      return Reject(FeeRange);
    }
    if height < rules.lastCheckpoint {
      return Accept([]);
    }
    r := CheckScripts(rules, view, tx, strict);
  }

  lemma {:induction false} ScanRejects(u: UtxoSet, vin: seq<OutPoint>, height: nat, k: nat, r: Reason)
    requires k <= |vin| && forall i :: 0 <= i < |vin| ==> Available(u, vin[i])
    requires ScanInputs(u, vin, height, k) == Reject(r)
    ensures ScanInputs(u, vin, height, |vin|) == Reject(r)
    decreases |vin| - k
  {
    if k < |vin| {
      ScanRejects(u, vin, height, k + 1, r);
    }
  }

  // ---------------------------------------------------------------- ConnectBlock

  lemma {:induction false} ConnectRejects(rules: Rules, u: UtxoSet, b: Block, height: nat, k: nat, r: Reason)
    requires k <= |b.vtx| && ConnectTxs(rules, u, b, height, k) == Reject(r)
    ensures ConnectTxs(rules, u, b, height, |b.vtx|) == Reject(r)
    decreases |b.vtx| - k
  {
    hide ConnectTx;
    if k < |b.vtx| {
      ConnectRejects(rules, u, b, height, k + 1, r);
    }
  }

  /** BIP 30: no transaction of the block may replace one that still has an unspent output. */
  method FindOverwrite(view: CoinsView, b: Block) returns (found: bool)
    requires view.Valid()
    modifies view.Repr
    ensures view.Valid() && view.Undisturbed() && view.hashBlock == old(view.hashBlock)
    ensures found == Overwrites(old(view.Utxo()), b)
  {
    hide CoinsView.Flat, CoinsView.Best;
    for i := 0 to |b.vtx|
      invariant view.Valid() && view.Undisturbed() && view.hashBlock == old(view.hashBlock)
      invariant forall k :: 0 <= k < i ==> b.vtx[k].txid !in view.Utxo()
    {
      var have := view.HaveCoins(b.vtx[i].txid);
      if have {
        var _, coins := view.GetCoins(b.vtx[i].txid);
        if !coins.IsPruned() {
          return true;
        }
      }
    }
    return false;
  }

  /** One round of the loop of ConnectBlock. */
  method ConnectOneTx(rules: Rules, view: CoinsView, tx: Tx, height: nat, strict: bool, undo: seq<TxUndo>, fees: int,
                      sigOps: nat, checks: seq<ScriptCheck>) returns (r: Verdict<(seq<TxUndo>, int, nat, seq<ScriptCheck>)>)
    requires view.Valid() && view.base != null && ValidTx(tx)
    modifies view.Repr
    ensures view.Valid() && view.base != null && view.OnTop() && view.hashBlock == old(view.hashBlock)
    ensures match ConnectTx(rules, ConnectState(old(view.Utxo()), undo, fees, sigOps, checks), tx, height, strict)
            case Reject(reason) => r == Reject(reason)
            case Accept(s) => s.u == view.Utxo() && r == Accept((s.undo, s.fees, s.sigOps, s.checks))
  {
    hide Live, CoinsView.Flat, CoinsView.Best, Utxo.UpdateCoins, Utxo.CheckInputs, ValueIn;
    ghost var u := view.Utxo();
    var ops := sigOps + rules.legacySigOps(tx);
    if ops > MAX_BLOCK_SIGOPS {
      return Reject(TooManySigOps);
    }
    if tx.IsCoinBase() {
      UpdateCoinsOfCoinBase(u, tx, height);
      var _ := UpdateCoins(view, tx, height);
      return Accept((undo, fees, ops, checks));
    }
    var have := view.HasInputs(tx);
    if !have {
      return Reject(MissingInputs);
    }
    if strict {
      var spent := CollectSpent(view, tx);
      ops := ops + rules.p2shSigOps(tx, spent);
    }
    if ops > MAX_BLOCK_SIGOPS {
      return Reject(TooManySigOps);
    }
    var valueIn := view.GetValueIn(tx);
    var valueOut := GetValueOut(tx);
    var more := CheckInputs(rules, view, tx, height, strict);
    if more.Reject? {
      return Reject(more.reason);
    }
    var undos := UpdateCoins(view, tx, height);
    return Accept((undo + [undos], fees + valueIn - valueOut.value, ops, checks + more.value));
  }

  lemma UpdateCoinsOfCoinBase(u: UtxoSet, tx: Tx, height: nat)
    requires tx.IsCoinBase()
    ensures Utxo.UpdateCoins(u, tx, height).Some? && Utxo.UpdateCoins(u, tx, height).value.1 == []
  {
  }

  /** The outputs a transaction spends, as GetP2SHSigOpCount reads them. */
  method CollectSpent(view: CoinsView, tx: Tx) returns (spent: seq<TxOut>)
    requires view.Valid() && !tx.IsCoinBase() && HaveInputs(view.Utxo(), tx)
    modifies view.Repr
    ensures view.Valid() && view.Undisturbed() && view.hashBlock == old(view.hashBlock)
    ensures spent == SpentOutputs(old(view.Utxo()), tx)
  {
    hide Live, CoinsView.Flat, CoinsView.Best;
    ghost var u := view.Utxo();
    spent := [];
    for i := 0 to |tx.vin|
      invariant view.Valid() && view.Undisturbed() && view.hashBlock == old(view.hashBlock)
      invariant |spent| == i && forall k :: 0 <= k < i ==> spent[k] == OutputFor(u, tx.vin[k])
    {
      var o := view.GetOutputFor(tx.vin[i]);
      spent := spent + [o];
    }
  }

  /** The script checks, joined at the end of the block. */
  method WaitForChecks(rules: Rules, checks: seq<ScriptCheck>) returns (ok: bool)
    ensures ok == AllVerify(rules, checks)
  {
    for i := 0 to |checks|
      invariant forall k :: 0 <= k < i ==> rules.verify(checks[k])
    {
      if !rules.verify(checks[i]) {
        return false;
      }
    }
    return true;
  }

  method ConnectTransactions(rules: Rules, b: Block, height: nat, view: CoinsView)
    returns (r: Verdict<(seq<TxUndo>, int, seq<ScriptCheck>)>)
    requires view.Valid() && view.base != null && ValidBlock(rules, b)
    modifies view.Repr
    ensures view.Valid() && view.base != null && view.OnTop() && view.hashBlock == old(view.hashBlock)
    ensures match ConnectTxs(rules, old(view.Utxo()), b, height, |b.vtx|)
            case Reject(reason) => r == Reject(reason)
            case Accept(s) => s.u == view.Utxo() && r == Accept((s.undo, s.fees, s.checks))
  {
    hide Live, CoinsView.Flat, CoinsView.Best, ConnectTx;
    ghost var u := view.Utxo();
    var undo, fees, sigOps, checks := [], 0, 0, [];
    for i := 0 to |b.vtx|
      invariant view.Valid() && view.base != null && view.OnTop() && view.hashBlock == old(view.hashBlock)
      invariant ConnectTxs(rules, u, b, height, i) == Accept(ConnectState(view.Utxo(), undo, fees, sigOps, checks))
    {
      var step := ConnectOneTx(rules, view, b.vtx[i], height, b.StrictPayToScriptHash(), undo, fees, sigOps, checks);
      if step.Reject? {
        ConnectRejects(rules, u, b, height, i + 1, step.reason);
        return Reject(step.reason);
      }
      undo, fees, sigOps, checks := step.value.0, step.value.1, step.value.2, step.value.3;
    }
    return Accept((undo, fees, checks));
  }

  /** Applies a block to a view. On success the view holds the new set and the block's hash; on failure it may
      be left half changed, which is why callers work on a layer of their own. */
  method ConnectBlock(rules: Rules, b: Block, height: nat, hashPrev: Hash, view: CoinsView)
    returns (r: Verdict<seq<TxUndo>>)
    requires rules.halvingInterval > 0
    requires view.Valid() && view.base != null && view.Best() == hashPrev
    modifies view.Repr
    ensures view.Valid() && view.base != null && view.OnTop()
    ensures match Utxo.ConnectBlock(rules, old(view.Utxo()), b, height)
            case Reject(reason) => r == Reject(reason)
            case Accept((v, undo)) => view.Utxo() == v && view.hashBlock == view.Best() == b.hash && r == Accept(undo)
  {
    hide Live, ConnectTxs, CoinsView.Flat, OutputsInRange, ValueOut, Subsidy, AllVerify, Overwrites;
    if !ValidBlock(rules, b) {
      return Reject(BadBlock);
    }
    var best := view.GetBestBlock();
    assert hashPrev == best;
    var overwrites := FindOverwrite(view, b);
    if overwrites {
      return Reject(Bip30);
    }
    var all := ConnectTransactions(rules, b, height, view);
    if all.Reject? {
      return Reject(all.reason);
    }
    var (undo, fees, checks) := all.value;
    var coinbase := GetValueOut(b.vtx[0]);
    if coinbase.value > Subsidy(rules, height) + fees {
      return Reject(CoinbaseTooHigh);
    }
    var ok := WaitForChecks(rules, checks);
    if !ok {
      return Reject(ScriptFailed);
    }
    view.SetBestBlock(b.hash);
    return Accept(undo);
  }

  // ---------------------------------------------------------------- DisconnectBlock

  /** Restores one input; the coin may have to be grown or made anew. */
  method RestoreOutput(view: CoinsView, op: OutPoint, undo: TxInUndo) returns (clean: bool)
    requires view.Valid() && view.base != null
    modifies view.Repr
    ensures view.Valid() && view.base != null && view.OnTop() && view.hashBlock == old(view.hashBlock)
    ensures clean == UnspendClean(Lookup(old(view.Utxo()), op.hash), op.n, undo)
    ensures clean ==>
              view.Utxo() == Put(old(view.Utxo()), op.hash, UnspendOf(Lookup(old(view.Utxo()), op.hash), op.n, undo))
  {
    hide CoinsView.Flat, CoinsView.Best, Live, Put, PutOut;
    ghost var seen := Lookup(view.Utxo(), op.hash);
    var _, coin := view.GetCoins(op.hash);
    clean := true;
    if undo.nHeight != 0 {
      if !coin.IsPruned() {
        clean := false;
      }
      coin := Coin(undo.fCoinBase, [], undo.nHeight, undo.nVersion);
    } else if coin.IsPruned() {
      clean := false;
    }
    if coin.IsAvailable(op.n) {
      clean := false;
    }
    coin := coin.(vout := PutOut(coin.vout, op.n, undo.txout));
    view.SetCoins(op.hash, coin);
  }

  /** Inputs restored last to first. After the first unclean one only the verdict is specified. */
  method RestoreAllInputs(view: CoinsView, vin: seq<OutPoint>, undos: TxUndo) returns (clean: bool)
    requires view.Valid() && view.base != null && |vin| == |undos|
    modifies view.Repr
    ensures view.Valid() && view.base != null && view.OnTop() && view.hashBlock == old(view.hashBlock)
    ensures clean == RestoreInputs(old(view.Utxo()), vin, undos, |vin|).Some?
    ensures clean ==> RestoreInputs(old(view.Utxo()), vin, undos, |vin|) == Some(view.Utxo())
  {
    hide CoinsView.Flat, CoinsView.Best, Live, Put, UnspendOf, UnspendClean;
    ghost var u := view.Utxo();
    clean := true;
    var j := |vin|;
    while j > 0
      invariant 0 <= j <= |vin|
      invariant view.Valid() && view.base != null && view.OnTop() && view.hashBlock == old(view.hashBlock)
      invariant if clean then RestoreInputs(u, vin, undos, |vin|) == RestoreInputs(view.Utxo(), vin, undos, j)
                else RestoreInputs(u, vin, undos, |vin|).None?
    {
      j := j - 1;
      var one := RestoreOutput(view, vin[j], undos[j]);
      clean := clean && one;
    }
  }

  method CompareOutputs(found: Coin, tx: Tx, height: nat) returns (matches: bool)
    ensures var outs := ClearUnspendableOf(found);
            var outsBlock := CoinOf(tx, height);
            matches == (if outsBlock.nVersion < 0 then outs.(nVersion := outsBlock.nVersion) else outs).Same(outsBlock)
  {
    hide ClearUnspendableOf, Coin.Same;
    var outs := new CCoins(found);
    outs.ClearUnspendable();
    var block := new CCoins.FromTx(tx.IsCoinBase(), tx.vout, height, tx.nVersion);
    if block.nVersion < 0 {
      outs.nVersion := block.nVersion;
    }
    matches := outs.Value().Same(block.Value());
  }

  /** Removes what a transaction created, after comparing it with what the block says it created. */
  method RemoveOutputs(view: CoinsView, tx: Tx, height: nat) returns (matches: bool)
    requires view.Valid() && view.base != null
    modifies view.Repr
    ensures view.Valid() && view.base != null && view.OnTop() && view.hashBlock == old(view.hashBlock)
    ensures matches == OutputsMatch(old(view.Utxo()), tx, height)
    ensures view.Utxo() == old(view.Utxo()) - {tx.txid}
  {
    hide CoinsView.Flat, CoinsView.Best, Live, ClearUnspendableOf, OutputsMatch, CoinOf, Coin.Same;
    PrunedMatches(view.Flat(), tx, height);
    var have, found := view.GetCoins(tx.txid);
    matches := CompareOutputs(found, tx, height);
    EraseCoin(view, tx.txid, have);
  }

  method EraseCoin(view: CoinsView, txid: Hash, have: bool)
    requires view.Valid() && view.base != null && have == (txid in view.Flat())
    modifies view`cacheCoins
    ensures view.Valid() && view.base != null && view.OnTop()
    ensures view.Utxo() == old(view.Utxo()) - {txid}
  {
    hide CoinsView.Flat, CoinsView.Best, Live, Put;
    PutPruned(view.Utxo(), txid);
    if have {
      view.SetCoins(txid, EMPTY_COIN);
    }
  }

  lemma PutPruned(u: UtxoSet, t: Hash)
    ensures Put(u, t, EMPTY_COIN) == u - {t}
  {
  }

  lemma PrunedMatches(m: map<Hash, Coin>, tx: Tx, height: nat)
    ensures var outs := ClearUnspendableOf(if tx.txid in m then m[tx.txid] else EMPTY_COIN);
            var outsBlock := CoinOf(tx, height);
            OutputsMatch(Live(m), tx, height)
            == (if outsBlock.nVersion < 0 then outs.(nVersion := outsBlock.nVersion) else outs).Same(outsBlock)
  {
  }

  lemma NothingToUndo(b: Block, undo: seq<TxUndo>, height: nat)
    ensures Consistent(b, undo) ==> forall u :: DisconnectTxs(u, b, undo, height, 0) == Some(u)
  {
  }

  /** One round of DisconnectBlock on values. */
  lemma DisconnectTxsUnfold(u: UtxoSet, b: Block, undo: seq<TxUndo>, height: nat, i: nat)
    requires Consistent(b, undo) && i < |b.vtx|
    ensures var tx := b.vtx[i];
            var v := u - {tx.txid};
            var r := if i == 0 then Some(v) else RestoreInputs(v, tx.vin, undo[i - 1], |tx.vin|);
            DisconnectTxs(u, b, undo, height, i + 1) ==
            if OutputsMatch(u, tx, height) && r.Some? then DisconnectTxs(r.value, b, undo, height, i) else None
  {
    hide OutputsMatch;
  }

  /** Takes a block back from a view. ok is false for undo data that does not fit the block; clean reports
      whether the set really was what connecting the block had left. */
  method DisconnectBlock(b: Block, undo: seq<TxUndo>, height: nat, hashPrev: BlockHash, view: CoinsView)
    returns (ok: bool, clean: bool)
    requires view.Valid() && view.base != null && view.Best() == b.hash
    modifies view.Repr
    ensures view.Valid() && view.base != null && view.OnTop()
    ensures match Utxo.DisconnectBlock(old(view.Utxo()), b, undo, height)
            case Inconsistent => !ok
            case Unclean => ok && !clean && view.hashBlock == hashPrev
            case Clean(v) => ok && clean && view.Utxo() == v && view.hashBlock == view.Best() == hashPrev
  {
    hide CoinsView.Flat, Live, OutputsMatch, DisconnectTxs, RestoreInputs;
    ghost var u := view.Utxo();
    clean := true;
    NothingToUndo(b, undo, height);
    if |undo| + 1 != |b.vtx| {
      return false, false;
    }
    var i := |b.vtx|;
    while i > 0
      invariant 0 <= i <= |b.vtx| == |undo| + 1
      invariant view.Valid() && view.base != null && view.OnTop() && view.hashBlock == old(view.hashBlock)
      invariant forall k :: 1 <= k && i <= k < |b.vtx| ==> |undo[k - 1]| == |b.vtx[k].vin|
      invariant Consistent(b, undo) ==>
                  if clean then DisconnectTxs(u, b, undo, height, |b.vtx|) == DisconnectTxs(view.Utxo(), b, undo, height, i)
                  else DisconnectTxs(u, b, undo, height, |b.vtx|).None?
    {
      i := i - 1;
      if Consistent(b, undo) {
        DisconnectTxsUnfold(view.Utxo(), b, undo, height, i);
      }
      var matches := RemoveOutputs(view, b.vtx[i], height);
      clean := clean && matches;
      if i > 0 {
        if |undo[i - 1]| != |b.vtx[i].vin| {
          return false, false;
        }
        var restored := RestoreAllInputs(view, b.vtx[i].vin, undo[i - 1]);
        clean := clean && restored;
      }
    }
    view.SetBestBlock(hashPrev);
    return true, clean;
  }

  // ---------------------------------------------------------------- on a layer of their own

  /** The block applied atomically: a layer on top of tip, flushed only on success. */
  method ConnectAtomically(rules: Rules, b: Block, height: nat, hashPrev: Hash, tip: CoinsView) returns (r: Verdict<seq<TxUndo>>)
    requires rules.halvingInterval > 0
    requires tip.Valid() && tip.base != null && tip.Best() == hashPrev
    modifies tip.Repr
    ensures tip.Valid() && tip.Repr == old(tip.Repr) && tip.base == old(tip.base)
    ensures match Utxo.ConnectBlock(rules, old(tip.Utxo()), b, height)
            case Reject(reason) => r == Reject(reason) && tip.Utxo() == old(tip.Utxo()) && tip.Best() == old(tip.Best())
            case Accept((v, undo)) => r == Accept(undo) && tip.Utxo() == v && tip.Best() == tip.hashBlock == b.hash
  {
    hide Utxo.ConnectBlock, CoinsView.Flat, Live;
    var view := new CoinsView(tip);
    r := ConnectBlock(rules, b, height, hashPrev, view);
    if r.Accept? {
      view.Flush();
    }
  }

  method DisconnectAtomically(b: Block, undo: seq<TxUndo>, height: nat, hashPrev: BlockHash, tip: CoinsView)
    returns (done: bool)
    requires tip.Valid() && tip.base != null && tip.Best() == b.hash
    modifies tip.Repr
    ensures tip.Valid() && tip.Repr == old(tip.Repr) && tip.base == old(tip.base)
    ensures match Utxo.DisconnectBlock(old(tip.Utxo()), b, undo, height)
            case Clean(v) => done && tip.Utxo() == v && tip.Best() == tip.hashBlock == hashPrev
            case _ => !done && tip.Utxo() == old(tip.Utxo()) && tip.Best() == old(tip.Best())
  {
    hide Utxo.DisconnectBlock, CoinsView.Flat, Live;
    var view := new CoinsView(tip);
    var ok, clean := DisconnectBlock(b, undo, height, hashPrev, view);
    done := ok && clean;
    if done {
      view.Flush();
    }
  }
}

/** The coin set as a transition system: ConnectBlock spends inputs, records undo data and adds outputs;
    DisconnectBlock takes all of that back. A set maps txids to coins that have an unspent output. */
module Utxo {
  import opened Coins

  const MAX_MONEY: int := 21000000 * 100000000
  const COINBASE_MATURITY := 100
  const MAX_BLOCK_SIGOPS := 20000
  const BIP16_SWITCH_TIME := 1333238400

  predicate MoneyRange(v: int) { 0 <= v <= MAX_MONEY }

  datatype Option<+T> = None | Some(value: T)

  datatype OutPoint = OutPoint(hash: Hash, n: nat) {
    predicate IsNull() { hash == 0 && n == 0xFFFF_FFFF }
  }

  datatype Tx = Tx(txid: Hash, nVersion: int, vin: seq<OutPoint>, vout: seq<TxOut>) {
    predicate IsCoinBase() { |vin| == 1 && vin[0].IsNull() }
  }

  /** The null hash 0 names no block. */
  type BlockHash = h: Hash | h != 0 witness 1

  datatype Block = Block(hash: BlockHash, nTime: nat, vtx: seq<Tx>) {
    /** From this time on, BIP16 is enforced. */
    predicate StrictPayToScriptHash() { nTime >= BIP16_SWITCH_TIME }
  }

  type UtxoSet = map<Hash, Coin>

  type TxUndo = seq<TxInUndo>

  datatype ScriptCheck = ScriptCheck(script: Script, tx: Tx, nIn: nat, strict: bool)

  /** Everything consensus leaves to code outside this model, with the height of the last checkpoint, below which
      scripts are not checked, and whether there are threads to check them. */
  datatype Rules = Rules(
    verify: ScriptCheck -> bool,
    legacySigOps: Tx -> nat,
    p2shSigOps: (Tx, seq<TxOut>) -> nat,
    contextFree: Block -> bool,
    halvingInterval: nat,
    lastCheckpoint: nat,
    checkThreads: bool)

  datatype Reason = BadBlock | Bip30 | TooManySigOps | MissingInputs | PrematureSpend | InputValueRange
                  | InBelowOut | FeeRange | CoinbaseTooHigh | NonCanonical | ScriptFailed

  datatype Verdict<+T> = Accept(value: T) | Reject(reason: Reason)

  // ---------------------------------------------------------------- the coin set

  ghost predicate Good(u: UtxoSet) {
    forall t :: t in u ==> u[t].Canonical() && u[t].vout != [] && u[t].nHeight > 0
  }

  function Lookup(u: UtxoSet, t: Hash): Coin {
    if t in u then u[t] else EMPTY_COIN
  }

  function Put(u: UtxoSet, t: Hash, c: Coin): UtxoSet {
    if c.IsPruned() then u - {t} else u[t := c]
  }

  predicate Available(u: UtxoSet, op: OutPoint) {
    Lookup(u, op.hash).IsAvailable(op.n)
  }

  function OutputFor(u: UtxoSet, op: OutPoint): TxOut
    requires Available(u, op)
  {
    Lookup(u, op.hash).vout[op.n]
  }

  predicate HaveInputs(u: UtxoSet, tx: Tx) {
    tx.IsCoinBase() || forall i :: 0 <= i < |tx.vin| ==> Available(u, tx.vin[i])
  }

  // ---------------------------------------------------------------- values

  function SumOut(vout: seq<TxOut>, k: nat): int
    requires k <= |vout|
  {
    if k == 0 then 0 else SumOut(vout, k - 1) + vout[k - 1].nValue
  }

  function ValueOut(tx: Tx): int { SumOut(tx.vout, |tx.vout|) }

  function SumIn(u: UtxoSet, vin: seq<OutPoint>, k: nat): int
    requires k <= |vin|
    requires forall i :: 0 <= i < |vin| ==> Available(u, vin[i])
  {
    if k == 0 then 0 else SumIn(u, vin, k - 1) + OutputFor(u, vin[k - 1]).nValue
  }

  function ValueIn(u: UtxoSet, tx: Tx): int
    requires HaveInputs(u, tx)
  {
    if tx.IsCoinBase() then 0 else SumIn(u, tx.vin, |tx.vin|)
  }

  function Subsidy(rules: Rules, height: nat): int
    requires rules.halvingInterval > 0
  {
    Halved(50 * 100000000, height / rules.halvingInterval)
  }

  /** A right shift of a non-negative amount. */
  function Halved(v: nat, times: nat): nat {
    if times == 0 then v else Halved(v, times - 1) / 2
  }

  // ---------------------------------------------------------------- block checks

  predicate OutputsInRange(vout: seq<TxOut>) {
    && (forall i :: 0 <= i < |vout| ==> MoneyRange(vout[i].nValue))
    && (forall k :: 0 <= k <= |vout| ==> MoneyRange(SumOut(vout, k)))
  }

  /** CheckTransaction, for the fields modelled here. */
  predicate ValidTx(tx: Tx) {
    && tx.vin != [] && tx.vout != []
    && OutputsInRange(tx.vout)
    && (forall i, j :: 0 <= i < j < |tx.vin| ==> tx.vin[i] != tx.vin[j])
    && (!tx.IsCoinBase() ==> forall i :: 0 <= i < |tx.vin| ==> !tx.vin[i].IsNull())
  }

  /** CheckBlock: one coinbase, in front; valid transactions; no txid twice. */
  predicate ValidBlock(rules: Rules, b: Block) {
    && b.vtx != [] && b.vtx[0].IsCoinBase()
    && (forall i :: 1 <= i < |b.vtx| ==> !b.vtx[i].IsCoinBase())
    && (forall i :: 0 <= i < |b.vtx| ==> ValidTx(b.vtx[i]))
    && (forall i, j :: 0 <= i < j < |b.vtx| ==> b.vtx[i].txid != b.vtx[j].txid)
    && rules.contextFree(b)
  }

  // ---------------------------------------------------------------- CheckInputs

  /** First loop of CheckInputs: maturity and range of inputs 0..k-1, and their total. */
  function ScanInputs(u: UtxoSet, vin: seq<OutPoint>, height: nat, k: nat): Verdict<int>
    requires k <= |vin|
    requires forall i :: 0 <= i < |vin| ==> Available(u, vin[i])
  {
    if k == 0 then Accept(0) else
    match ScanInputs(u, vin, height, k - 1)
    case Reject(r) => Reject(r)
    case Accept(sum) =>
      var c := Lookup(u, vin[k - 1].hash);
      var v := c.vout[vin[k - 1].n].nValue;
      if c.fCoinBase && height - c.nHeight < COINBASE_MATURITY then Reject(PrematureSpend)
      else if !MoneyRange(v) || !MoneyRange(sum + v) then Reject(InputValueRange)
      else Accept(sum + v)
  }

  /** Script checks of inputs 0..k-1, in the order they are queued. */
  function ChecksFor(u: UtxoSet, tx: Tx, strict: bool, k: nat): seq<ScriptCheck>
    requires k <= |tx.vin|
    requires forall i :: 0 <= i < |tx.vin| ==> Available(u, tx.vin[i])
  {
    if k == 0 then []
    else ChecksFor(u, tx, strict, k - 1) + [ScriptCheck(OutputFor(u, tx.vin[k - 1]).scriptPubKey, tx, k - 1, strict)]
  }

  predicate AllVerify(rules: Rules, checks: seq<ScriptCheck>) {
    forall i :: 0 <= i < |checks| ==> rules.verify(checks[i])
  }

  /** Without threads, scripts are checked on the spot; with threads, the checks are handed out. */
  function Checked(rules: Rules, checks: seq<ScriptCheck>, height: nat): Verdict<seq<ScriptCheck>> {
    if height < rules.lastCheckpoint then Accept([])
    else if rules.checkThreads then Accept(checks)
    else if AllVerify(rules, checks) then Accept([])
    else Reject(NonCanonical)
  }

  function CheckInputs(rules: Rules, u: UtxoSet, tx: Tx, height: nat, strict: bool): Verdict<seq<ScriptCheck>>
  {
    if tx.IsCoinBase() then Accept([])
    else if !HaveInputs(u, tx) then Reject(MissingInputs)
    else
      match ScanInputs(u, tx.vin, height, |tx.vin|)
      case Reject(r) => Reject(r)
      case Accept(valueIn) =>
        if valueIn < ValueOut(tx) then Reject(InBelowOut)
        else if !MoneyRange(valueIn - ValueOut(tx)) then Reject(FeeRange)
        else Checked(rules, ChecksFor(u, tx, strict, |tx.vin|), height)
  }

  // ---------------------------------------------------------------- UpdateCoins

  function SpendOne(u: UtxoSet, op: OutPoint): (UtxoSet, TxInUndo)
    requires Available(u, op)
  {
    var (c, undo) := SpendOf(u[op.hash], op.n);
    (Put(u, op.hash, c), undo)
  }

  /** Inputs 0..k-1 spent in order; None where the assertion on CCoins::Spend would fire. */
  function SpendInputs(u: UtxoSet, vin: seq<OutPoint>, k: nat): Option<(UtxoSet, TxUndo)>
    requires k <= |vin|
  {
    if k == 0 then Some((u, [])) else
    match SpendInputs(u, vin, k - 1)
    case None => None
    case Some((v, undos)) =>
      if !Available(v, vin[k - 1]) then None
      else var (w, undo) := SpendOne(v, vin[k - 1]); Some((w, undos + [undo]))
  }

  function CoinOf(tx: Tx, height: nat): Coin {
    ClearUnspendableOf(Coin(tx.IsCoinBase(), tx.vout, height, tx.nVersion))
  }

  function UpdateCoins(u: UtxoSet, tx: Tx, height: nat): Option<(UtxoSet, TxUndo)> {
    var spent: Option<(UtxoSet, TxUndo)> :=
      if tx.IsCoinBase() then Some((u, [])) else SpendInputs(u, tx.vin, |tx.vin|);
    match spent
    case None => None
    case Some((v, undos)) => Some((Put(v, tx.txid, CoinOf(tx, height)), undos))
  }

  // ---------------------------------------------------------------- ConnectBlock

  datatype ConnectState = ConnectState(u: UtxoSet, undo: seq<TxUndo>, fees: int, sigOps: nat, checks: seq<ScriptCheck>)

  function SpentOutputs(u: UtxoSet, tx: Tx): seq<TxOut>
    requires !tx.IsCoinBase() && HaveInputs(u, tx)
  {
    seq(|tx.vin|, i requires 0 <= i < |tx.vin| => OutputFor(u, tx.vin[i]))
  }

  /** One round of the loop over the block's transactions. */
  function ConnectTx(rules: Rules, s: ConnectState, tx: Tx, height: nat, strict: bool): Verdict<ConnectState>
  {
    var sigOps := s.sigOps + rules.legacySigOps(tx);
    if sigOps > MAX_BLOCK_SIGOPS then Reject(TooManySigOps)
    else if tx.IsCoinBase() then
      match UpdateCoins(s.u, tx, height)
      case None => Reject(MissingInputs)
      case Some((v, _)) => Accept(s.(u := v, sigOps := sigOps))
    else if !HaveInputs(s.u, tx) then Reject(MissingInputs)
    else
      var allOps := sigOps + if strict then rules.p2shSigOps(tx, SpentOutputs(s.u, tx)) else 0;
      if allOps > MAX_BLOCK_SIGOPS then Reject(TooManySigOps) else
      match CheckInputs(rules, s.u, tx, height, strict)
      case Reject(r) => Reject(r)
      case Accept(checks) =>
        match UpdateCoins(s.u, tx, height)
        case None => Reject(MissingInputs)
        case Some((v, undos)) =>
          Accept(ConnectState(v, s.undo + [undos], s.fees + ValueIn(s.u, tx) - ValueOut(tx), allOps, s.checks + checks))
  }

  function ConnectTxs(rules: Rules, u: UtxoSet, b: Block, height: nat, k: nat): Verdict<ConnectState>
    requires k <= |b.vtx|
  {
    if k == 0 then Accept(ConnectState(u, [], 0, 0, [])) else
    match ConnectTxs(rules, u, b, height, k - 1)
    case Reject(r) => Reject(r)
    case Accept(s) => ConnectTx(rules, s, b.vtx[k - 1], height, b.StrictPayToScriptHash())
  }

  predicate Overwrites(u: UtxoSet, b: Block) {
    exists i :: 0 <= i < |b.vtx| && b.vtx[i].txid in u
  }

  function ConnectBlock(rules: Rules, u: UtxoSet, b: Block, height: nat): Verdict<(UtxoSet, seq<TxUndo>)>
    requires rules.halvingInterval > 0
  {
    if !ValidBlock(rules, b) then Reject(BadBlock)
    else if Overwrites(u, b) then Reject(Bip30)
    else
      match ConnectTxs(rules, u, b, height, |b.vtx|)
      case Reject(r) => Reject(r)
      case Accept(s) =>
        if ValueOut(b.vtx[0]) > Subsidy(rules, height) + s.fees then Reject(CoinbaseTooHigh)
        else if !AllVerify(rules, s.checks) then Reject(ScriptFailed)
        else Accept((s.u, s.undo))
  }

  // ---------------------------------------------------------------- DisconnectBlock

  datatype Disconnected = Inconsistent | Unclean | Clean(u: UtxoSet)

  /** Inputs k-1..0 restored in reverse order; None when a check reports the data as not clean. */
  function RestoreInputs(u: UtxoSet, vin: seq<OutPoint>, undos: TxUndo, k: nat): Option<UtxoSet>
    requires k <= |vin| == |undos|
    decreases k
  {
    if k == 0 then Some(u) else
    var op := vin[k - 1];
    var c := Lookup(u, op.hash);
    if !UnspendClean(c, op.n, undos[k - 1]) then None
    else RestoreInputs(Put(u, op.hash, UnspendOf(c, op.n, undos[k - 1])), vin, undos, k - 1)
  }

  /** The outputs of tx in the set are exactly those the block created. */
  predicate OutputsMatch(u: UtxoSet, tx: Tx, height: nat) {
    var outs := ClearUnspendableOf(Lookup(u, tx.txid));
    var outsBlock := CoinOf(tx, height);
    (if outsBlock.nVersion < 0 then outs.(nVersion := outsBlock.nVersion) else outs).Same(outsBlock)
  }

  function DisconnectTx(u: UtxoSet, tx: Tx, height: nat, vin: seq<OutPoint>, undos: TxUndo): Option<UtxoSet>
    requires |vin| == |undos|
  {
    if !OutputsMatch(u, tx, height) then None
    else RestoreInputs(u - {tx.txid}, vin, undos, |vin|)
  }

  predicate Consistent(b: Block, undo: seq<TxUndo>) {
    && |undo| + 1 == |b.vtx|
    && forall i :: 1 <= i < |b.vtx| ==> |undo[i - 1]| == |b.vtx[i].vin|
  }

  /** Transactions k-1..0 undone in reverse order. The first one is the coinbase and restores nothing. */
  function DisconnectTxs(u: UtxoSet, b: Block, undo: seq<TxUndo>, height: nat, k: nat): Option<UtxoSet>
    requires Consistent(b, undo) && k <= |b.vtx|
    decreases k
  {
    if k == 0 then Some(u) else
    var inputs := if k > 1 then b.vtx[k - 1].vin else [];
    var undos := if k > 1 then undo[k - 2] else [];
    match DisconnectTx(u, b.vtx[k - 1], height, inputs, undos)
    case None => None
    case Some(v) => DisconnectTxs(v, b, undo, height, k - 1)
  }

  function DisconnectBlock(u: UtxoSet, b: Block, undo: seq<TxUndo>, height: nat): Disconnected {
    if !Consistent(b, undo) then Inconsistent
    else
      match DisconnectTxs(u, b, undo, height, |b.vtx|)
      case None => Unclean
      case Some(v) => Clean(v)
  }

  // ---------------------------------------------------------------- spending and restoring

  lemma SpendOneReversible(u: UtxoSet, op: OutPoint)
    requires Good(u) && Available(u, op)
    ensures var (v, undo) := SpendOne(u, op);
            && Good(v) && v.Keys <= u.Keys
            && UnspendClean(Lookup(v, op.hash), op.n, undo)
            && Put(v, op.hash, UnspendOf(Lookup(v, op.hash), op.n, undo)) == u
  {
    var c := u[op.hash];
    UnspendInvertsSpend(c, op.n);
    var (d, _) := SpendOf(c, op.n);
    if d.vout != [] {
      assert !d.vout[|d.vout| - 1].IsNull();
    }
    assert !c.vout[|c.vout| - 1].IsNull();
  }

  /** Restoring inputs backwards undoes spending them forwards, also when several come from one parent. */
  lemma {:induction false} RestoreInvertsSpend(u: UtxoSet, vin: seq<OutPoint>, undos: TxUndo, k: nat)
    requires Good(u) && k <= |vin| == |undos|
    requires SpendInputs(u, vin, k).Some? && SpendInputs(u, vin, k).value.1 == undos[..k]
    ensures var v := SpendInputs(u, vin, k).value.0;
            Good(v) && v.Keys <= u.Keys && RestoreInputs(v, vin, undos, k) == Some(u)
  {
    hide SpendOne, UnspendOf, UnspendClean, Put, Good;
    if k > 0 {
      var (prev, before) := SpendInputs(u, vin, k - 1).value;
      var (next, undo) := SpendOne(prev, vin[k - 1]);
      assert before + [undo] == undos[..k];
      assert undos[k - 1] == undo && before == undos[..k - 1] by {
        assert (before + [undo])[..|before|] == before;
        SpendInputsLength(u, vin, k - 1);
      }
      RestoreInvertsSpend(u, vin, undos, k - 1);
      SpendOneReversible(prev, vin[k - 1]);
    }
  }

  lemma {:induction false} SpendInputsLength(u: UtxoSet, vin: seq<OutPoint>, k: nat)
    requires k <= |vin| && SpendInputs(u, vin, k).Some?
    ensures |SpendInputs(u, vin, k).value.1| == k
  {
    if k > 0 {
      SpendInputsLength(u, vin, k - 1);
    }
  }

  /** With every input available and no input listed twice, CCoins::Spend succeeds on each of them. */
  lemma {:induction false} SpendInputsSucceeds(u: UtxoSet, vin: seq<OutPoint>, k: nat)
    requires k <= |vin|
    requires forall i :: 0 <= i < |vin| ==> Available(u, vin[i])
    requires forall i, j :: 0 <= i < j < |vin| ==> vin[i] != vin[j]
    ensures SpendInputs(u, vin, k).Some?
    ensures forall j :: k <= j < |vin| ==>
              Available(SpendInputs(u, vin, k).value.0, vin[j])
              && OutputFor(SpendInputs(u, vin, k).value.0, vin[j]) == OutputFor(u, vin[j])
  {
    if k > 0 {
      SpendInputsSucceeds(u, vin, k - 1);
      var v := SpendInputs(u, vin, k - 1).value.0;
      forall j | k <= j < |vin|
        ensures Available(SpendOne(v, vin[k - 1]).0, vin[j])
        ensures OutputFor(SpendOne(v, vin[k - 1]).0, vin[j]) == OutputFor(v, vin[j])
      {
        SpendKeepsOthers(v, vin[k - 1], vin[j]);
      }
    }
  }

  lemma SpendKeepsOthers(u: UtxoSet, op: OutPoint, other: OutPoint)
    requires Available(u, op) && Available(u, other) && op != other
    ensures Available(SpendOne(u, op).0, other)
    ensures OutputFor(SpendOne(u, op).0, other) == OutputFor(u, other)
  {
    if op.hash == other.hash {
      var c := u[op.hash];
      var nulled := c.vout[op.n := NULL_OUT];
      assert nulled[other.n] == c.vout[other.n];
      assert other.n < |Trim(nulled)|;
    }
  }

  // ---------------------------------------------------------------- one transaction

  lemma CoinOfCanonical(tx: Tx, height: nat)
    requires ValidTx(tx)
    ensures CoinOf(tx, height).Canonical()
    ensures CoinOf(tx, height).IsPruned() <==> CoinOf(tx, height).vout == []
  {
  }

  lemma CreatedKeepsGood(u: UtxoSet, tx: Tx, height: nat)
    requires Good(u) && ValidTx(tx) && height > 0 && tx.txid !in u
    ensures var v := Put(u, tx.txid, CoinOf(tx, height));
            Good(v) && v - {tx.txid} == u && v.Keys <= u.Keys + {tx.txid}
  {
    hide CoinOf;
    CoinOfCanonical(tx, height);
    CoinOfHeight(tx, height);
  }

  lemma CoinOfHeight(tx: Tx, height: nat)
    ensures CoinOf(tx, height).nHeight == height
    ensures ClearUnspendableOf(CoinOf(tx, height)) == CoinOf(tx, height)
    ensures ClearUnspendableOf(EMPTY_COIN) == EMPTY_COIN
  {
    ClearUnspendableIdempotent(Coin(tx.IsCoinBase(), tx.vout, height, tx.nVersion));
  }

  lemma CreatedOutputsMatch(u: UtxoSet, tx: Tx, height: nat)
    requires Good(u) && ValidTx(tx) && height > 0 && tx.txid !in u
    ensures var v := Put(u, tx.txid, CoinOf(tx, height));
            Good(v) && OutputsMatch(v, tx, height) && v - {tx.txid} == u && v.Keys <= u.Keys + {tx.txid}
  {
    hide CoinOf, ClearUnspendableOf, Good;
    CreatedKeepsGood(u, tx, height);
    CoinOfHeight(tx, height);
  }

  /** Undoing a transaction right after applying it gives back the set, given that its txid was free. */
  lemma DisconnectTxInverts(u: UtxoSet, tx: Tx, height: nat)
    requires Good(u) && ValidTx(tx) && height > 0 && tx.txid !in u
    requires UpdateCoins(u, tx, height).Some?
    ensures var (v, undos) := UpdateCoins(u, tx, height).value;
            var inputs := if tx.IsCoinBase() then [] else tx.vin;
            && Good(v) && v.Keys <= u.Keys + {tx.txid}
            && |inputs| == |undos|
            && DisconnectTx(v, tx, height, inputs, undos) == Some(u)
  {
    if tx.IsCoinBase() {
      CreatedOutputsMatch(u, tx, height);
    } else {
      var (spent, undos) := SpendInputs(u, tx.vin, |tx.vin|).value;
      SpendInputsLength(u, tx.vin, |tx.vin|);
      assert undos[..|tx.vin|] == undos;
      RestoreInvertsSpend(u, tx.vin, undos, |tx.vin|);
      CreatedOutputsMatch(spent, tx, height);
    }
  }

  // ---------------------------------------------------------------- whole blocks

  lemma ConnectTxUpdates(rules: Rules, s: ConnectState, tx: Tx, height: nat, strict: bool)
    requires ConnectTx(rules, s, tx, height, strict).Accept?
    ensures UpdateCoins(s.u, tx, height).Some?
    ensures var t := ConnectTx(rules, s, tx, height, strict).value;
            var (v, undos) := UpdateCoins(s.u, tx, height).value;
            && t.u == v
            && t.undo == (if tx.IsCoinBase() then s.undo else s.undo + [undos])
            && (tx.IsCoinBase() ==> undos == [])
  {
  }

  /** What holds of the loop's state after k transactions. */
  ghost predicate Progress(s: ConnectState, b: Block, k: nat)
    requires k <= |b.vtx|
  {
    && Good(s.u)
    && (forall i :: k <= i < |b.vtx| ==> b.vtx[i].txid !in s.u)
    && |s.undo| == (if k == 0 then 0 else k - 1)
    && (forall i :: 1 <= i < k ==> |s.undo[i - 1]| == |b.vtx[i].vin|)
  }

  /** One round keeps that, and DisconnectTx takes the round back. */
  lemma ConnectTxReversible(rules: Rules, s: ConnectState, b: Block, height: nat, k: nat)
    requires ValidBlock(rules, b) && height > 0 && 0 < k <= |b.vtx|
    requires Progress(s, b, k - 1) && ConnectTx(rules, s, b.vtx[k - 1], height, b.StrictPayToScriptHash()).Accept?
    ensures var t := ConnectTx(rules, s, b.vtx[k - 1], height, b.StrictPayToScriptHash()).value;
            && Progress(t, b, k) && s.undo <= t.undo
            && var inputs := if k > 1 then b.vtx[k - 1].vin else [];
               var undos := if k > 1 then t.undo[k - 2] else [];
               |inputs| == |undos| && DisconnectTx(t.u, b.vtx[k - 1], height, inputs, undos) == Some(s.u)
  {
    hide ConnectTx, UpdateCoins, DisconnectTx;
    var tx := b.vtx[k - 1];
    var strict := b.StrictPayToScriptHash();
    var t := ConnectTx(rules, s, tx, height, strict).value;
    ConnectTxUpdates(rules, s, tx, height, strict);
    DisconnectTxInverts(s.u, tx, height);
    assert tx.IsCoinBase() <==> k == 1;
    forall i | k <= i < |b.vtx|
      ensures b.vtx[i].txid !in t.u
    {
      assert b.vtx[k - 1].txid != b.vtx[i].txid;
    }
  }

  lemma {:induction false} ConnectTxsProgress(rules: Rules, u: UtxoSet, b: Block, height: nat, k: nat)
    requires Good(u) && ValidBlock(rules, b) && !Overwrites(u, b) && height > 0 && k <= |b.vtx|
    requires ConnectTxs(rules, u, b, height, k).Accept?
    ensures Progress(ConnectTxs(rules, u, b, height, k).value, b, k)
  {
    hide ConnectTx, DisconnectTx;
    if k > 0 {
      ConnectTxsProgress(rules, u, b, height, k - 1);
      ConnectTxReversible(rules, ConnectTxs(rules, u, b, height, k - 1).value, b, height, k);
    }
  }

  lemma DisconnectTxsStep(t: ConnectState, b: Block, undo: seq<TxUndo>, height: nat, k: nat, back: UtxoSet)
    requires Consistent(b, undo) && 0 < k <= |b.vtx| && |t.undo| == k - 1 && t.undo <= undo
    requires var inputs := if k > 1 then b.vtx[k - 1].vin else [];
             var undos := if k > 1 then t.undo[k - 2] else [];
             |inputs| == |undos| && DisconnectTx(t.u, b.vtx[k - 1], height, inputs, undos) == Some(back)
    ensures DisconnectTxs(t.u, b, undo, height, k) == DisconnectTxs(back, b, undo, height, k - 1)
  {
    assert k > 1 ==> undo[k - 2] == t.undo[k - 2];
  }

  /** The state before the last of k transactions, and what undoing that transaction gives. */
  lemma LastTxReversible(rules: Rules, u: UtxoSet, b: Block, height: nat, k: nat, t: ConnectState) returns (s: ConnectState)
    requires Good(u) && ValidBlock(rules, b) && !Overwrites(u, b) && height > 0 && 0 < k <= |b.vtx|
    requires ConnectTxs(rules, u, b, height, k) == Accept(t)
    ensures ConnectTxs(rules, u, b, height, k - 1) == Accept(s)
    ensures s.undo <= t.undo && |t.undo| == k - 1
    ensures var inputs := if k > 1 then b.vtx[k - 1].vin else [];
            var undos := if k > 1 then t.undo[k - 2] else [];
            |inputs| == |undos| && DisconnectTx(t.u, b.vtx[k - 1], height, inputs, undos) == Some(s.u)
  {
    hide ConnectTx, DisconnectTx;
    s := ConnectTxs(rules, u, b, height, k - 1).value;
    ConnectTxsProgress(rules, u, b, height, k - 1);
    ConnectTxReversible(rules, s, b, height, k);
  }

  /** Undoing the first k transactions leads back to the set the block started from. */
  lemma {:induction false} DisconnectTxsInverts(rules: Rules, u: UtxoSet, b: Block, undo: seq<TxUndo>, height: nat, k: nat,
                                                t: ConnectState)
    requires Good(u) && ValidBlock(rules, b) && !Overwrites(u, b) && height > 0 && k <= |b.vtx|
    requires ConnectTxs(rules, u, b, height, k) == Accept(t)
    requires Consistent(b, undo) && t.undo <= undo
    ensures DisconnectTxs(t.u, b, undo, height, k) == Some(u)
  {
    if k > 0 {
      var s := LastTxReversible(rules, u, b, height, k, t);
      DisconnectTxsStep(t, b, undo, height, k, s.u);
      DisconnectTxsInverts(rules, u, b, undo, height, k - 1, s);
    }
  }

  /** DisconnectBlock with the undo data of a successful ConnectBlock reports clean and restores the set. */
  lemma DisconnectInvertsConnect(rules: Rules, u: UtxoSet, b: Block, height: nat)
    requires rules.halvingInterval > 0 && Good(u) && height > 0
    requires ConnectBlock(rules, u, b, height).Accept?
    ensures var (v, undo) := ConnectBlock(rules, u, b, height).value;
            Good(v) && DisconnectBlock(v, b, undo, height) == Clean(u)
  {
    var undo := ConnectBlock(rules, u, b, height).value.1;
    ConnectTxsProgress(rules, u, b, height, |b.vtx|);
    DisconnectTxsInverts(rules, u, b, undo, height, |b.vtx|, ConnectTxs(rules, u, b, height, |b.vtx|).value);
  }

  /** A block that connects never makes UpdateCoins fail: the assertion on Spend cannot fire. */
  lemma UpdateCoinsNeverAsserts(u: UtxoSet, tx: Tx, height: nat)
    requires ValidTx(tx) && HaveInputs(u, tx)
    ensures UpdateCoins(u, tx, height).Some?
  {
    if !tx.IsCoinBase() {
      SpendInputsSucceeds(u, tx.vin, |tx.vin|);
    }
  }
}

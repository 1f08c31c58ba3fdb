/** Which blocks connect, said in one piece: the rules a block meets, each about its transactions and the sets they find,
    without the order in which the code looks at them. */
module Acceptance {
  import opened Common
  import opened Coins
  import opened Utxo
  import opened Supply

  // ---------------------------------------------------------------- the rules

  /** The set that the first i transactions of a block leave. */
  function SetBefore(u: UtxoSet, b: Block, height: nat, i: nat): Option<UtxoSet>
    requires i <= |b.vtx|
  {
    if i == 0 then Some(u) else
    match SetBefore(u, b, height, i - 1)
    case None => None
    case Some(v) =>
      match UpdateCoins(v, b.vtx[i - 1], height)
      case None => None
      case Some((w, _)) => Some(w)
  }

  /** An unspent output of a valid amount; 100 blocks deep if a coinbase created it. */
  predicate CanSpend(v: UtxoSet, op: OutPoint, height: nat) {
    && Available(v, op)
    && (Lookup(v, op.hash).fCoinBase ==> height - Lookup(v, op.hash).nHeight >= 100)
    && 0 <= OutputFor(v, op).nValue <= MAX_MONEY
  }

  /** Every input can be spent, and no more is paid out than comes in. */
  predicate Funds(v: UtxoSet, tx: Tx, height: nat) {
    && (forall n :: 0 <= n < |tx.vin| ==> CanSpend(v, tx.vin[n], height))
    && ValueOut(tx) <= SumIn(v, tx.vin, |tx.vin|) <= MAX_MONEY
  }

  predicate Verifies(rules: Rules, v: UtxoSet, b: Block, i: nat, n: nat)
    requires i < |b.vtx| && n < |b.vtx[i].vin|
  {
    && Available(v, b.vtx[i].vin[n])
    && rules.verify(ScriptCheck(OutputFor(v, b.vtx[i].vin[n]).scriptPubKey, b.vtx[i], n, b.nTime >= 1333238400))
  }

  /** Every script transaction i has to satisfy, against the set it finds. */
  predicate ScriptsAt(rules: Rules, u: UtxoSet, b: Block, height: nat, i: nat)
    requires i < |b.vtx|
  {
    && SetBefore(u, b, height, i).Some?
    && forall n :: 0 <= n < |b.vtx[i].vin| ==> Verifies(rules, SetBefore(u, b, height, i).value, b, i, n)
  }

  predicate ScriptsVerify(rules: Rules, u: UtxoSet, b: Block, height: nat, k: nat)
    requires k <= |b.vtx|
  {
    forall i :: 1 <= i < k ==> ScriptsAt(rules, u, b, height, i)
  }

  predicate FundedAt(u: UtxoSet, b: Block, height: nat, i: nat)
    requires i < |b.vtx|
  {
    SetBefore(u, b, height, i).Some? && Funds(SetBefore(u, b, height, i).value, b.vtx[i], height)
  }

  predicate AllFund(u: UtxoSet, b: Block, height: nat, k: nat)
    requires k <= |b.vtx|
  {
    forall i :: 1 <= i < k ==> FundedAt(u, b, height, i)
  }

  /** What the first k transactions pay in fees. */
  function Fees(u: UtxoSet, b: Block, height: nat, k: nat): int
    requires k <= |b.vtx| && AllFund(u, b, height, k)
  {
    if k <= 1 then 0
    else
      assert FundedAt(u, b, height, k - 1);
      var v := SetBefore(u, b, height, k - 1).value;
      Fees(u, b, height, k - 1) + SumIn(v, b.vtx[k - 1].vin, |b.vtx[k - 1].vin|) - ValueOut(b.vtx[k - 1])
  }

  /** Signature operations of transaction i, given the set it finds; those inside the scripts of spent outputs count from
      BIP16 on. */
  function SigOpsOf(rules: Rules, v: UtxoSet, b: Block, i: nat): nat
    requires i < |b.vtx| && (i > 0 ==> forall n :: 0 <= n < |b.vtx[i].vin| ==> Available(v, b.vtx[i].vin[n]))
  {
    var tx := b.vtx[i];
    rules.legacySigOps(tx) +
    if i == 0 || b.nTime < 1333238400 then 0
    else rules.p2shSigOps(tx, seq(|tx.vin|, n requires 0 <= n < |tx.vin| => OutputFor(v, tx.vin[n])))
  }

  /** Those of the first k transactions. */
  function SigOps(rules: Rules, u: UtxoSet, b: Block, height: nat, k: nat): nat
    requires k <= |b.vtx| && AllFund(u, b, height, k)
  {
    if k == 0 then 0
    else if k == 1 then SigOpsOf(rules, u, b, 0)
    else
      assert FundedAt(u, b, height, k - 1);
      SigOps(rules, u, b, height, k - 1) + SigOpsOf(rules, SetBefore(u, b, height, k - 1).value, b, k - 1)
  }

  /** Everything a block must meet to connect on top of u. */
  predicate Meets(rules: Rules, u: UtxoSet, b: Block, height: nat)
    requires rules.halvingInterval > 0
  {
    && ValidBlock(rules, b)
    && (forall i :: 0 <= i < |b.vtx| ==> b.vtx[i].txid !in u)
    && AllFund(u, b, height, |b.vtx|)
    && SigOps(rules, u, b, height, |b.vtx|) <= 20000
    && ValueOut(b.vtx[0]) <= 5000000000 / Pow2(height / rules.halvingInterval) + Fees(u, b, height, |b.vtx|)
    && (height >= rules.lastCheckpoint ==> ScriptsVerify(rules, u, b, height, |b.vtx|))
  }

  // ---------------------------------------------------------------- one transaction

  lemma {:induction false} ScanMeans(v: UtxoSet, vin: seq<OutPoint>, height: nat, k: nat)
    requires k <= |vin| && forall n :: 0 <= n < |vin| ==> Available(v, vin[n])
    ensures (forall n :: 0 <= n < k ==> CanSpend(v, vin[n], height)) ==> SumIn(v, vin, k) >= 0
    ensures ScanInputs(v, vin, height, k).Accept? <==>
            (forall n :: 0 <= n < k ==> CanSpend(v, vin[n], height)) && SumIn(v, vin, k) <= MAX_MONEY
    ensures ScanInputs(v, vin, height, k).Accept? ==> ScanInputs(v, vin, height, k).value == SumIn(v, vin, k)
  {
    if k > 0 {
      ScanMeans(v, vin, height, k - 1);
      var op := vin[k - 1];
      assert CanSpend(v, op, height) ==> SumIn(v, vin, k) == SumIn(v, vin, k - 1) + OutputFor(v, op).nValue;
    }
  }

  lemma AppendVerifies(rules: Rules, one: seq<ScriptCheck>, two: seq<ScriptCheck>)
    ensures AllVerify(rules, one + two) <==> AllVerify(rules, one) && AllVerify(rules, two)
  {
    var all := one + two;
    if AllVerify(rules, all) {
      forall i | 0 <= i < |one| ensures rules.verify(one[i]) { assert all[i] == one[i]; }
      forall i | 0 <= i < |two| ensures rules.verify(two[i]) { assert all[|one| + i] == two[i]; }
    }
  }

  lemma {:induction false} ChecksMean(rules: Rules, v: UtxoSet, b: Block, i: nat, k: nat)
    requires i < |b.vtx| && k <= |b.vtx[i].vin| && forall n :: 0 <= n < |b.vtx[i].vin| ==> Available(v, b.vtx[i].vin[n])
    ensures AllVerify(rules, ChecksFor(v, b.vtx[i], b.StrictPayToScriptHash(), k)) <==>
            forall n :: 0 <= n < k ==> Verifies(rules, v, b, i, n)
  {
    if k > 0 {
      ChecksMean(rules, v, b, i, k - 1);
      var tx, strict := b.vtx[i], b.StrictPayToScriptHash();
      var last := ScriptCheck(OutputFor(v, tx.vin[k - 1]).scriptPubKey, tx, k - 1, strict);
      AppendVerifies(rules, ChecksFor(v, tx, strict, k - 1), [last]);
      assert AllVerify(rules, [last]) <==> rules.verify(last) by { assert [last][0] == last; }
      assert Verifies(rules, v, b, i, k - 1) <==> rules.verify(last);
    }
  }

  predicate HandedOut(rules: Rules, height: nat) { height >= rules.lastCheckpoint && rules.checkThreads }

  predicate OnTheSpot(rules: Rules, height: nat) { height >= rules.lastCheckpoint && !rules.checkThreads }

  /** CheckInputs, for a transaction that is not a coinbase. */
  lemma CheckMeans(rules: Rules, v: UtxoSet, b: Block, i: nat, height: nat)
    requires 1 <= i < |b.vtx| && ValidBlock(rules, b)
    ensures var tx := b.vtx[i];
            var r := CheckInputs(rules, v, tx, height, b.StrictPayToScriptHash());
            var checks := if HandedOut(rules, height) then ChecksOf(v, b, i) else [];
            && (r.Accept? <==> (Funds(v, tx, height) && (OnTheSpot(rules, height) ==> AllVerify(rules, ChecksOf(v, b, i)))))
            && (r.Accept? ==> r.value == checks)
            && (Funds(v, tx, height) && r.Reject? ==> r.reason == NonCanonical)
  {
    hide ScanInputs, ChecksFor, SumIn, CanSpend, AllVerify;
    var tx := b.vtx[i];
    assert ValidTx(tx) && !tx.IsCoinBase();
    assert MoneyRange(SumOut(tx.vout, |tx.vout|));
    FundsHave(v, tx, height);
    if HaveInputs(v, tx) {
      ScanMeans(v, tx.vin, height, |tx.vin|);
    }
  }

  lemma FundsHave(v: UtxoSet, tx: Tx, height: nat)
    ensures Funds(v, tx, height) ==> HaveInputs(v, tx) && forall n :: 0 <= n < |tx.vin| ==> Available(v, tx.vin[n])
  {
  }

  /** The checks of one transaction, where its inputs are there. */
  function ChecksOf(v: UtxoSet, b: Block, i: nat): seq<ScriptCheck>
    requires i < |b.vtx|
  {
    if forall n :: 0 <= n < |b.vtx[i].vin| ==> Available(v, b.vtx[i].vin[n])
    then ChecksFor(v, b.vtx[i], b.StrictPayToScriptHash(), |b.vtx[i].vin|) else []
  }

  /** One round of the loop over the transactions, for one that is not a coinbase. */
  lemma StepMeans(rules: Rules, s: ConnectState, b: Block, i: nat, height: nat)
    requires 1 <= i < |b.vtx| && ValidBlock(rules, b)
    ensures var tx := b.vtx[i];
            var r := ConnectTx(rules, s, tx, height, b.StrictPayToScriptHash());
            && (Funds(s.u, tx, height) ==> HaveInputs(s.u, tx) && forall n :: 0 <= n < |tx.vin| ==> Available(s.u, tx.vin[n]))
            && (r.Accept? <==>
                (Funds(s.u, tx, height) && s.sigOps + SigOpsOf(rules, s.u, b, i) <= MAX_BLOCK_SIGOPS
                 && (OnTheSpot(rules, height) ==> AllVerify(rules, ChecksOf(s.u, b, i)))))
            && (r.Accept? ==>
                  && UpdateCoins(s.u, tx, height).Some? && r.value.u == UpdateCoins(s.u, tx, height).value.0
                  && r.value.fees == s.fees + SumIn(s.u, tx.vin, |tx.vin|) - ValueOut(tx)
                  && r.value.sigOps == s.sigOps + SigOpsOf(rules, s.u, b, i)
                  && r.value.checks == s.checks + if HandedOut(rules, height) then ChecksOf(s.u, b, i) else [])
            && (r.Reject? && Funds(s.u, tx, height) && s.sigOps + SigOpsOf(rules, s.u, b, i) <= MAX_BLOCK_SIGOPS ==>
                  r.reason == NonCanonical)
  {
    hide CheckInputs, UpdateCoins, Funds, AllVerify, ChecksOf, SumIn;
    var tx := b.vtx[i];
    assert ValidTx(tx) && !tx.IsCoinBase();
    FundsHave(s.u, tx, height);
    CheckMeans(rules, s.u, b, i, height);
    if HaveInputs(s.u, tx) {
      UpdateCoinsNeverAsserts(s.u, tx, height);
    }
  }

  /** And for the coinbase. */
  lemma CoinBaseMeans(rules: Rules, u: UtxoSet, b: Block, height: nat)
    requires ValidBlock(rules, b)
    ensures var tx := b.vtx[0];
            var r := ConnectTx(rules, ConnectState(u, [], 0, 0, []), tx, height, b.StrictPayToScriptHash());
            && (r.Accept? <==> SigOpsOf(rules, u, b, 0) <= MAX_BLOCK_SIGOPS)
            && (r.Accept? ==>
                  && UpdateCoins(u, tx, height).Some?
                  && r.value == ConnectState(UpdateCoins(u, tx, height).value.0, [], 0, SigOpsOf(rules, u, b, 0), []))
  {
    UpdateCoinsNeverAsserts(u, b.vtx[0], height);
  }

  // ---------------------------------------------------------------- the whole block

  /** The loop's state after k transactions. */
  ghost predicate Reached(rules: Rules, u: UtxoSet, b: Block, height: nat, k: nat, s: ConnectState)
    requires k <= |b.vtx| && AllFund(u, b, height, k)
  {
    && SetBefore(u, b, height, k) == Some(s.u) && s.fees == Fees(u, b, height, k) && s.sigOps == SigOps(rules, u, b, height, k)
    && if HandedOut(rules, height) then AllVerify(rules, s.checks) <==> ScriptsVerify(rules, u, b, height, k) else s.checks == []
  }

  /** The first k transactions go through exactly when they meet these. */
  ghost predicate Passes(rules: Rules, u: UtxoSet, b: Block, height: nat, k: nat)
    requires k <= |b.vtx|
  {
    && AllFund(u, b, height, k) && SigOps(rules, u, b, height, k) <= MAX_BLOCK_SIGOPS
    && (OnTheSpot(rules, height) ==> ScriptsVerify(rules, u, b, height, k))
  }

  lemma {:induction false} TxsMean(rules: Rules, u: UtxoSet, b: Block, height: nat, k: nat)
    requires ValidBlock(rules, b) && k <= |b.vtx|
    ensures var r := ConnectTxs(rules, u, b, height, k);
            && (r.Accept? <==> Passes(rules, u, b, height, k))
            && (r.Accept? ==> Reached(rules, u, b, height, k, r.value))
            && (r.Reject? && AllFund(u, b, height, k) && SigOps(rules, u, b, height, k) <= MAX_BLOCK_SIGOPS ==>
                  r.reason == NonCanonical)
  {
    hide ConnectTx, UpdateCoins, Funds, SigOpsOf, Verifies, AllVerify, ValidBlock, ChecksOf, SumIn;
    if k == 0 {
      assert AllVerify(rules, []) by { NothingVerifies(rules); }
    } else if k == 1 {
      CoinBaseMeans(rules, u, b, height);
      NothingVerifies(rules);
      assert ConnectTxs(rules, u, b, height, 0) == Accept(ConnectState(u, [], 0, 0, []));
      assert SetBefore(u, b, height, 0) == Some(u);
      assert ScriptsVerify(rules, u, b, height, 1);
    } else {
      TxsMean(rules, u, b, height, k - 1);
      PassesShorter(rules, u, b, height, k);
      if ConnectTxs(rules, u, b, height, k - 1).Accept? {
        StepPasses(rules, u, b, height, k, ConnectTxs(rules, u, b, height, k - 1).value);
      }
    }
  }

  lemma NothingVerifies(rules: Rules)
    ensures AllVerify(rules, [])
  {
  }

  lemma PassesShorter(rules: Rules, u: UtxoSet, b: Block, height: nat, k: nat)
    requires 1 < k <= |b.vtx|
    ensures AllFund(u, b, height, k) ==>
              AllFund(u, b, height, k - 1) && SigOps(rules, u, b, height, k - 1) <= SigOps(rules, u, b, height, k)
    ensures ScriptsVerify(rules, u, b, height, k) ==> ScriptsVerify(rules, u, b, height, k - 1)
  {
    hide FundedAt, SigOpsOf, ScriptsAt;
  }

  lemma StepPasses(rules: Rules, u: UtxoSet, b: Block, height: nat, k: nat, s: ConnectState)
    requires ValidBlock(rules, b) && 1 < k <= |b.vtx|
    requires Passes(rules, u, b, height, k - 1) && Reached(rules, u, b, height, k - 1, s)
    ensures var r := ConnectTx(rules, s, b.vtx[k - 1], height, b.StrictPayToScriptHash());
            && (r.Accept? <==> Passes(rules, u, b, height, k))
            && (r.Accept? ==> Reached(rules, u, b, height, k, r.value))
            && (r.Reject? && AllFund(u, b, height, k) && SigOps(rules, u, b, height, k) <= MAX_BLOCK_SIGOPS ==>
                  r.reason == NonCanonical)
  {
    hide ConnectTx, UpdateCoins, Funds, SigOpsOf, Verifies, AllVerify, ValidBlock, ChecksOf, SumIn;
    var i := k - 1;
    StepMeans(rules, s, b, i, height);
    AllFundLast(u, b, height, k);
    if Funds(s.u, b.vtx[i], height) {
      FundsHave(s.u, b.vtx[i], height);
      OneMeans(rules, u, b, height, i, s.u);
      AppendVerifies(rules, s.checks, ChecksOf(s.u, b, i));
    }
  }

  lemma AllFundLast(u: UtxoSet, b: Block, height: nat, k: nat)
    requires 1 < k <= |b.vtx| && SetBefore(u, b, height, k - 1).Some?
    ensures AllFund(u, b, height, k) <==>
            AllFund(u, b, height, k - 1) && Funds(SetBefore(u, b, height, k - 1).value, b.vtx[k - 1], height)
  {
    hide Funds, SetBefore;
    assert FundedAt(u, b, height, k - 1) <==> Funds(SetBefore(u, b, height, k - 1).value, b.vtx[k - 1], height);
  }

  /** The scripts of one more transaction. */
  lemma OneMeans(rules: Rules, u: UtxoSet, b: Block, height: nat, i: nat, v: UtxoSet)
    requires 1 <= i < |b.vtx| && SetBefore(u, b, height, i) == Some(v)
    requires forall n :: 0 <= n < |b.vtx[i].vin| ==> Available(v, b.vtx[i].vin[n])
    ensures ScriptsVerify(rules, u, b, height, i + 1) <==>
            ScriptsVerify(rules, u, b, height, i) && AllVerify(rules, ChecksOf(v, b, i))
  {
    hide Verifies, AllVerify, SetBefore;
    ChecksMean(rules, v, b, i, |b.vtx[i].vin|);
    assert AllVerify(rules, ChecksOf(v, b, i)) <==> ScriptsAt(rules, u, b, height, i);
  }

  lemma {:induction false} HalvedIsQuotient(v: nat, times: nat)
    ensures Halved(v, times) == v / Pow2(times)
  {
    if times > 0 {
      HalvedIsQuotient(v, times - 1);
      HalfOfQuotient(v, Pow2(times - 1));
    }
  }

  lemma HalfOfQuotient(v: nat, d: nat)
    requires d > 0
    ensures v / d / 2 == v / (2 * d)
  {
    Divided(v, d);
    Divided(v / d, 2);
    var q, r, h, o := v / d, v % d, v / d / 2, v / d % 2;
    assert v == 2 * d * h + (o * d + r) by { assert q * d == (h * 2 + o) * d; }
    assert o * d + r < 2 * d;
    Quotient(v, 2 * d, h, o * d + r);
  }

  /** A block connects exactly when it meets the rules, and what it leaves is what its transactions leave one by one. */
  lemma ConnectsIffMeets(rules: Rules, u: UtxoSet, b: Block, height: nat)
    requires rules.halvingInterval > 0
    ensures ConnectBlock(rules, u, b, height).Accept? <==> Meets(rules, u, b, height)
    ensures ConnectBlock(rules, u, b, height).Accept? ==>
              SetBefore(u, b, height, |b.vtx|) == Some(ConnectBlock(rules, u, b, height).value.0)
  {
    hide ConnectTxs, AllFund, AllVerify, ScriptsVerify, SigOps, Fees, SetBefore, Halved;
    if ValidBlock(rules, b) {
      TxsMean(rules, u, b, height, |b.vtx|);
      HalvedIsQuotient(5000000000, height / rules.halvingInterval);
      assert Overwrites(u, b) <==> !forall i :: 0 <= i < |b.vtx| ==> b.vtx[i].txid !in u;
      if ConnectTxs(rules, u, b, height, |b.vtx|).Accept? {
        var s := ConnectTxs(rules, u, b, height, |b.vtx|).value;
        assert AllVerify(rules, s.checks) && (OnTheSpot(rules, height) ==> ScriptsVerify(rules, u, b, height, |b.vtx|)) <==>
               (height >= rules.lastCheckpoint ==> ScriptsVerify(rules, u, b, height, |b.vtx|)) by { NothingVerifies(rules); }
        assert Subsidy(rules, height) == 5000000000 / Pow2(height / rules.halvingInterval);
      }
    }
  }

  /** From the last checkpoint on, every script of a block that connects verifies: for each input of each transaction but the
      coinbase, against the output it spends in the set that the transactions before it leave. */
  lemma AcceptedScripts(rules: Rules, u: UtxoSet, b: Block, height: nat, i: nat, n: nat)
    requires rules.halvingInterval > 0 && ConnectBlock(rules, u, b, height).Accept? && height >= rules.lastCheckpoint
    requires 1 <= i < |b.vtx| && n < |b.vtx[i].vin|
    ensures SetBefore(u, b, height, i).Some?
    ensures var v, op := SetBefore(u, b, height, i).value, b.vtx[i].vin[n];
            && Available(v, op)
            && rules.verify(ScriptCheck(OutputFor(v, op).scriptPubKey, b.vtx[i], n, b.nTime >= 1333238400))
  {
    hide ConnectBlock, SetBefore, SigOps, Fees, AllFund, ValidBlock;
    ConnectsIffMeets(rules, u, b, height);
    assert ScriptsAt(rules, u, b, height, i);
    assert Verifies(rules, SetBefore(u, b, height, i).value, b, i, n);
  }

  /** A block that connects as far as all else goes connects exactly when every script of it verifies, or none is looked at;
      otherwise it is rejected for that. */
  lemma ScriptsDecide(rules: Rules, u: UtxoSet, b: Block, height: nat)
    requires rules.halvingInterval > 0 && ConnectBlock(rules.(verify := _ => true), u, b, height).Accept?
    ensures if height < rules.lastCheckpoint || ScriptsVerify(rules, u, b, height, |b.vtx|)
            then ConnectBlock(rules, u, b, height).Accept?
            else ConnectBlock(rules, u, b, height) == Reject(if rules.checkThreads then ScriptFailed else NonCanonical)
  {
    hide ConnectTxs, AllFund, AllVerify, ScriptsVerify, SigOps, Fees, SetBefore, Subsidy;
    var lax := rules.(verify := _ => true);
    ConnectsIffMeets(lax, u, b, height);
    ConnectsIffMeets(rules, u, b, height);
    SameSigOps(rules, lax, u, b, height, |b.vtx|);
    assert ValidBlock(rules, b) <==> ValidBlock(lax, b);
    TxsMean(rules, u, b, height, |b.vtx|);
    if ConnectBlock(rules, u, b, height).Reject? {
      HalvedIsQuotient(5000000000, height / rules.halvingInterval);
      SubsidyIs(rules, height);
    }
  }

  lemma SubsidyIs(rules: Rules, height: nat)
    requires rules.halvingInterval > 0
    ensures Subsidy(rules, height) == 5000000000 / Pow2(height / rules.halvingInterval)
  {
    HalvedIsQuotient(5000000000, height / rules.halvingInterval);
  }

  lemma {:induction false} SameSigOps(rules: Rules, lax: Rules, u: UtxoSet, b: Block, height: nat, k: nat)
    requires lax.legacySigOps == rules.legacySigOps && lax.p2shSigOps == rules.p2shSigOps
    requires k <= |b.vtx| && AllFund(u, b, height, k)
    ensures SigOps(lax, u, b, height, k) == SigOps(rules, u, b, height, k)
  {
    hide SetBefore, Funds;
    if k > 0 {
      SameSigOps(rules, lax, u, b, height, k - 1);
    }
  }

  /** A coinbase that takes its fees and the shifted 50 coins takes no more than it may. */
  lemma CoinbaseLimit(rules: Rules, u: UtxoSet, b: Block, height: nat)
    requires rules.halvingInterval > 0 && AllFund(u, b, height, |b.vtx|) && b.vtx != []
    ensures ConnectBlock(rules, u, b, height) == Reject(CoinbaseTooHigh) ==>
              ValueOut(b.vtx[0]) > 5000000000 / Pow2(height / rules.halvingInterval) + Fees(u, b, height, |b.vtx|)
    ensures ValueOut(b.vtx[0]) > 5000000000 / Pow2(height / rules.halvingInterval) + Fees(u, b, height, |b.vtx|) ==>
              ConnectBlock(rules, u, b, height).Reject?
  {
    hide ConnectTxs, AllFund, AllVerify, ScriptsVerify, SigOps, Fees, SetBefore, Subsidy;
    ConnectsIffMeets(rules, u, b, height);
    SubsidyIs(rules, height);
    if ValidBlock(rules, b) {
      TxsMean(rules, u, b, height, |b.vtx|);
      OwnReasons(rules, u, b, height, |b.vtx|);
    }
  }

  lemma {:induction false} OwnReasons(rules: Rules, u: UtxoSet, b: Block, height: nat, k: nat)
    requires k <= |b.vtx|
    ensures ConnectTxs(rules, u, b, height, k).Reject? ==> ConnectTxs(rules, u, b, height, k).reason != CoinbaseTooHigh
  {
    hide ConnectTx;
    if k > 0 {
      OwnReasons(rules, u, b, height, k - 1);
      if ConnectTxs(rules, u, b, height, k - 1).Accept? {
        OneReason(rules, ConnectTxs(rules, u, b, height, k - 1).value, b.vtx[k - 1], height, b.StrictPayToScriptHash());
      }
    }
  }

  lemma OneReason(rules: Rules, s: ConnectState, tx: Tx, height: nat, strict: bool)
    ensures ConnectTx(rules, s, tx, height, strict).Reject? ==> ConnectTx(rules, s, tx, height, strict).reason != CoinbaseTooHigh
  {
    hide UpdateCoins, ChecksFor, SumIn, ScanInputs;
    if HaveInputs(s.u, tx) && !tx.IsCoinBase() {
      ScanReason(s.u, tx.vin, height, |tx.vin|);
    }
  }

  lemma {:induction false} ScanReason(u: UtxoSet, vin: seq<OutPoint>, height: nat, k: nat)
    requires k <= |vin| && forall i :: 0 <= i < |vin| ==> Available(u, vin[i])
    ensures ScanInputs(u, vin, height, k).Reject? ==> ScanInputs(u, vin, height, k).reason != CoinbaseTooHigh
  {
    if k > 0 {
      ScanReason(u, vin, height, k - 1);
    }
  }

  // ---------------------------------------------------------------- whole chains

  /** The block at height h meets the rules on what the blocks before it leave. */
  ghost predicate MeetsAt(rules: Rules, chain: seq<Block>, h: nat)
    requires rules.halvingInterval > 0 && h < |chain|
  {
    Replay(rules, chain[..h]).Some? && Meets(rules, Replay(rules, chain[..h]).value, chain[h], h)
  }

  /** A chain replays exactly when each of its blocks above the genesis block does so. */
  lemma {:induction false} ReplaysIffMeets(rules: Rules, chain: seq<Block>)
    requires rules.halvingInterval > 0
    ensures Replay(rules, chain).Some? <==> forall h :: 1 <= h < |chain| ==> MeetsAt(rules, chain, h)
  {
    hide ConnectBlock, Meets, MeetsAt;
    if |chain| > 1 {
      var last := |chain| - 1;
      var before := chain[..last];
      ReplaysIffMeets(rules, before);
      forall h | 1 <= h < last ensures MeetsAt(rules, before, h) <==> MeetsAt(rules, chain, h) {
        MeetsAtPrefix(rules, chain, last, h);
      }
      LastMeets(rules, chain);
    }
  }

  lemma MeetsAtPrefix(rules: Rules, chain: seq<Block>, k: nat, h: nat)
    requires rules.halvingInterval > 0 && h < k <= |chain|
    ensures MeetsAt(rules, chain[..k], h) <==> MeetsAt(rules, chain, h)
  {
    hide Replay, Meets;
    assert chain[..k][..h] == chain[..h];
  }

  lemma LastMeets(rules: Rules, chain: seq<Block>)
    requires rules.halvingInterval > 0 && |chain| > 1
    ensures Replay(rules, chain).Some? <==> MeetsAt(rules, chain, |chain| - 1)
    ensures MeetsAt(rules, chain, |chain| - 1) ==> Replay(rules, chain[..|chain| - 1]).Some?
  {
    hide ConnectBlock, Meets;
    var before := chain[..|chain| - 1];
    if Replay(rules, before).Some? {
      ConnectsIffMeets(rules, Replay(rules, before).value, chain[|chain| - 1], |chain| - 1);
    }
  }

  /** Output n of the coin is output n of the transaction that made it: what is not spent or unspendable. */
  predicate MadeBy(c: Coin, tx: Tx) {
    forall n :: 0 <= n < |c.vout| && !c.vout[n].IsNull() ==> n < |tx.vout| && c.vout[n] == tx.vout[n]
  }

  predicate MadeIn(c: Coin, t: Hash, b: Block, j: nat) {
    j < |b.vtx| && b.vtx[j].txid == t && (c.fCoinBase <==> j == 0) && MadeBy(c, b.vtx[j])
  }

  /** Every coin of the set was made by a transaction of the block at its height. */
  ghost predicate Traced(u: UtxoSet, chain: seq<Block>) {
    forall t :: t in u ==> u[t].nHeight < |chain| && exists j: nat :: MadeIn(u[t], t, chain[u[t].nHeight], j)
  }

  lemma TracedLonger(u: UtxoSet, chain: seq<Block>, b: Block)
    requires Traced(u, chain)
    ensures Traced(u, chain + [b])
  {
    hide MadeIn;
    forall t | t in u
      ensures u[t].nHeight < |chain + [b]| && exists j: nat :: MadeIn(u[t], t, (chain + [b])[u[t].nHeight], j)
    {
      var j: nat :| MadeIn(u[t], t, chain[u[t].nHeight], j);
      assert (chain + [b])[u[t].nHeight] == chain[u[t].nHeight];
    }
  }

  lemma SpendOneTraced(u: UtxoSet, op: OutPoint, chain: seq<Block>)
    requires Traced(u, chain) && Available(u, op)
    ensures Traced(SpendOne(u, op).0, chain)
  {
    hide Trim;
    var v := SpendOne(u, op).0;
    forall t | t in v
      ensures v[t].nHeight < |chain| && exists j: nat :: MadeIn(v[t], t, chain[v[t].nHeight], j)
    {
      var j: nat :| MadeIn(u[t], t, chain[u[t].nHeight], j);
      TrimmedStays(u[op.hash].vout, op.n);
      assert MadeBy(v[t], chain[u[t].nHeight].vtx[j]);
      assert MadeIn(v[t], t, chain[v[t].nHeight], j);
    }
  }

  lemma TrimmedStays(vout: seq<TxOut>, n: nat)
    requires n < |vout|
    ensures var r := Trim(vout[n := NULL_OUT]);
            |r| <= |vout| && forall k :: 0 <= k < |r| && !r[k].IsNull() ==> r[k] == vout[k]
  {
  }

  lemma {:induction false} SpendInputsTraced(u: UtxoSet, vin: seq<OutPoint>, k: nat, chain: seq<Block>)
    requires Traced(u, chain) && k <= |vin| && SpendInputs(u, vin, k).Some?
    ensures Traced(SpendInputs(u, vin, k).value.0, chain)
  {
    hide Traced, SpendOne, Available;
    if k > 0 {
      SpendInputsTraced(u, vin, k - 1, chain);
      SpendOneTraced(SpendInputs(u, vin, k - 1).value.0, vin[k - 1], chain);
    }
  }

  lemma CreatedTraced(u: UtxoSet, chain: seq<Block>, b: Block, j: nat)
    requires Traced(u, chain + [b]) && j < |b.vtx| && (b.vtx[j].IsCoinBase() <==> j == 0)
    ensures Traced(Put(u, b.vtx[j].txid, CoinOf(b.vtx[j], |chain|)), chain + [b])
  {
    hide MadeIn, CoinOf;
    var tx, all := b.vtx[j], chain + [b];
    var c := CoinOf(tx, |chain|);
    CoinOfMade(tx, |chain|, b, j);
    assert all[|chain|] == b;
    var v := Put(u, tx.txid, c);
    forall t | t in v
      ensures v[t].nHeight < |all| && exists j: nat :: MadeIn(v[t], t, all[v[t].nHeight], j)
    {
      if t == tx.txid {
        assert v[t] == c;
        assert MadeIn(v[t], t, all[v[t].nHeight], j);
      } else {
        assert v[t] == u[t];
      }
    }
  }

  lemma CoinOfMade(tx: Tx, height: nat, b: Block, j: nat)
    requires j < |b.vtx| && b.vtx[j] == tx && (tx.IsCoinBase() <==> j == 0)
    ensures CoinOf(tx, height).nHeight == height && MadeIn(CoinOf(tx, height), tx.txid, b, j)
  {
  }

  lemma {:induction false} SetBeforeTraced(u: UtxoSet, b: Block, i: nat, chain: seq<Block>)
    requires Traced(u, chain + [b]) && i <= |b.vtx| && SetBefore(u, b, |chain|, i).Some?
    requires forall j :: 0 <= j < |b.vtx| ==> (b.vtx[j].IsCoinBase() <==> j == 0)
    ensures Traced(SetBefore(u, b, |chain|, i).value, chain + [b])
  {
    hide Traced, SpendInputs, CoinOf, Put;
    if i > 0 {
      SetBeforeTraced(u, b, i - 1, chain);
      var v, tx := SetBefore(u, b, |chain|, i - 1).value, b.vtx[i - 1];
      if tx.IsCoinBase() {
        CreatedTraced(v, chain, b, i - 1);
      } else {
        SpendInputsTraced(v, tx.vin, |tx.vin|, chain + [b]);
        CreatedTraced(SpendInputs(v, tx.vin, |tx.vin|).value.0, chain, b, i - 1);
      }
    }
  }

  lemma {:induction false} ReplayTraced(rules: Rules, chain: seq<Block>)
    requires rules.halvingInterval > 0 && Replay(rules, chain).Some?
    ensures Traced(Replay(rules, chain).value, chain)
  {
    hide ConnectBlock, MadeIn, SetBefore, Meets;
    if |chain| > 1 {
      var last := |chain| - 1;
      var before, b := chain[..last], chain[last];
      ReplayTraced(rules, before);
      var u := Replay(rules, before).value;
      ConnectsIffMeets(rules, u, b, last);
      CoinbaseFirst(rules, u, b, last);
      assert chain == before + [b];
      TracedLonger(u, before, b);
      SetBeforeTraced(u, b, |b.vtx|, before);
    }
  }

  lemma CoinbaseFirst(rules: Rules, u: UtxoSet, b: Block, height: nat)
    requires rules.halvingInterval > 0 && Meets(rules, u, b, height)
    ensures forall j :: 0 <= j < |b.vtx| ==> (b.vtx[j].IsCoinBase() <==> j == 0)
  {
    hide AllFund, SigOps, Fees, ScriptsVerify;
  }

  /** In a replayed chain, every input of every transaction spends an output of a transaction that stands in the chain, at or
      below its own block, an output of a valid amount, at least 100 blocks deep if a coinbase made it; and from the last
      checkpoint on, its script verifies. */
  lemma EveryInputHolds(rules: Rules, chain: seq<Block>, h: nat, i: nat, n: nat) returns (g: nat, j: nat)
    requires rules.halvingInterval > 0 && Replay(rules, chain).Some?
    requires 1 <= h < |chain| && 1 <= i < |chain[h].vtx| && n < |chain[h].vtx[i].vin|
    ensures g <= h && j < |chain[g].vtx|
    ensures var op, made := chain[h].vtx[i].vin[n], chain[g].vtx[j];
            && made.txid == op.hash && op.n < |made.vout| && 0 <= made.vout[op.n].nValue <= MAX_MONEY
            && (j == 0 ==> h - g >= 100)
            && (h >= rules.lastCheckpoint ==>
                  rules.verify(ScriptCheck(made.vout[op.n].scriptPubKey, chain[h].vtx[i], n, chain[h].nTime >= 1333238400)))
  {
    hide ConnectBlock, MadeIn, SetBefore, SigOps, Fees, ValidBlock, Replay;
    ReplaysIffMeets(rules, chain);
    assert MeetsAt(rules, chain, h);
    var before, b := chain[..h], chain[h];
    var u := Replay(rules, before).value;
    ReplayTraced(rules, before);
    TracedLonger(u, before, b);
    CoinbaseFirst(rules, u, b, h);
    assert FundedAt(u, b, h, i);
    SetBeforeTraced(u, b, i, before);
    var v := SetBefore(u, b, h, i).value;
    assert CanSpend(v, b.vtx[i].vin[n], h);
    if h >= rules.lastCheckpoint {
      assert ScriptsAt(rules, u, b, h, i);
      assert Verifies(rules, v, b, i, n);
    }
    g, j := TracedOutput(v, before, b, b.vtx[i].vin[n]);
    assert (before + [b])[g] == chain[g];
  }

  lemma TracedOutput(v: UtxoSet, before: seq<Block>, b: Block, op: OutPoint) returns (g: nat, j: nat)
    requires Traced(v, before + [b]) && Available(v, op)
    ensures g == Lookup(v, op.hash).nHeight <= |before| && j < |(before + [b])[g].vtx|
    ensures var made := (before + [b])[g].vtx[j];
            made.txid == op.hash && op.n < |made.vout| && made.vout[op.n] == OutputFor(v, op)
    ensures Lookup(v, op.hash).fCoinBase <==> j == 0
  {
    g := v[op.hash].nHeight;
    j :| MadeIn(v[op.hash], op.hash, (before + [b])[g], j);
  }

  // ---------------------------------------------------------------- what a transaction does to the outputs

  /** After a transaction the unspent outputs are those before it without the ones it spends, and its own that can be spent at
      all. */
  lemma OutputsAfter(u: UtxoSet, tx: Tx, height: nat, op: OutPoint)
    requires ValidTx(tx) && HaveInputs(u, tx)
    ensures UpdateCoins(u, tx, height).Some?
    ensures var w := UpdateCoins(u, tx, height).value.0;
            && (Available(w, op) <==>
                  (if op.hash == tx.txid then op.n < |tx.vout| && !tx.vout[op.n].IsUnspendable()
                   else Available(u, op) && (tx.IsCoinBase() || op !in tx.vin)))
            && (Available(w, op) ==>
                  OutputFor(w, op) == if op.hash == tx.txid then tx.vout[op.n] else OutputFor(u, op))
  {
    hide SpendInputs, Available, OutputFor;
    UpdateCoinsNeverAsserts(u, tx, height);
    var spent := if tx.IsCoinBase() then u else SpendInputs(u, tx.vin, |tx.vin|).value.0;
    if !tx.IsCoinBase() {
      SpentOutputsGone(u, tx.vin, |tx.vin|, op);
    }
    PutOutputs(spent, tx, height, op);
  }

  lemma PutOutputs(u: UtxoSet, tx: Tx, height: nat, op: OutPoint)
    requires ValidTx(tx)
    ensures var w := Put(u, tx.txid, CoinOf(tx, height));
            && (Available(w, op) <==>
                  if op.hash == tx.txid then op.n < |tx.vout| && !tx.vout[op.n].IsUnspendable() else Available(u, op))
            && (Available(w, op) ==>
                  OutputFor(w, op) == if op.hash == tx.txid then tx.vout[op.n] else OutputFor(u, op))
  {
    var outs := Coins.Spendable(tx.vout);
    if op.n < |tx.vout| && !tx.vout[op.n].IsUnspendable() {
      assert MoneyRange(tx.vout[op.n].nValue);
      assert !outs[op.n].IsNull();
      assert op.n < |Trim(outs)|;
    }
  }

  lemma {:induction false} SpentOutputsGone(u: UtxoSet, vin: seq<OutPoint>, k: nat, op: OutPoint)
    requires k <= |vin| && SpendInputs(u, vin, k).Some?
    ensures var v := SpendInputs(u, vin, k).value.0;
            && (Available(v, op) <==> Available(u, op) && op !in vin[..k])
            && (Available(v, op) ==> OutputFor(v, op) == OutputFor(u, op))
  {
    hide SpendOne, Available, OutputFor;
    if k > 0 {
      SpentOutputsGone(u, vin, k - 1, op);
      var v := SpendInputs(u, vin, k - 1).value.0;
      assert vin[..k] == vin[..k - 1] + [vin[k - 1]];
      SpentOutputGone(v, vin[k - 1], op);
    }
  }

  lemma SpentOutputGone(u: UtxoSet, spent: OutPoint, op: OutPoint)
    requires Available(u, spent)
    ensures var v := SpendOne(u, spent).0;
            && (Available(v, op) <==> Available(u, op) && op != spent)
            && (Available(v, op) ==> OutputFor(v, op) == OutputFor(u, op))
  {
    if op != spent && Available(u, op) {
      SpendKeepsOthers(u, spent, op);
    } else if op.hash == spent.hash {
      TrimmedStays(u[spent.hash].vout, spent.n);
    }
  }
}

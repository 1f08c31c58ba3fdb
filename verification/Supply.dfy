/** Conservation of value: no block raises the total of the coin set by more than its subsidy, so no chain
    raises it above MAX_MONEY. */
module Supply {
  import opened Coins
  import opened Utxo

  const MAINNET_HALVING_INTERVAL := 210000

  // ---------------------------------------------------------------- totals

  function Unspent(vout: seq<TxOut>, k: nat): int
    requires k <= |vout|
  {
    if k == 0 then 0
    else Unspent(vout, k - 1) + if vout[k - 1].IsNull() then 0 else vout[k - 1].nValue
  }

  function CoinValue(c: Coin): int { Unspent(c.vout, |c.vout|) }

  ghost function Total(u: UtxoSet): int
    decreases |u|
  {
    if u == map[] then 0
    else
      var t :| t in u;
      CoinValue(u[t]) + Total(u - {t})
  }

  /** Every unspent output of the set carries a valid amount. */
  ghost predicate Funded(u: UtxoSet) {
    forall t, n: nat {:trigger u[t].vout[n]} ::
      t in u && n < |u[t].vout| && !u[t].vout[n].IsNull() ==> u[t].vout[n].nValue >= 0
  }

  lemma {:induction false} TotalRemove(u: UtxoSet, t: Hash)
    requires t in u
    ensures Total(u) == CoinValue(u[t]) + Total(u - {t})
    decreases |u|
  {
    var p :| p in u && Total(u) == CoinValue(u[p]) + Total(u - {p});
    if p != t {
      TotalRemove(u - {p}, t);
      TotalRemove(u - {t}, p);
      assert u - {p} - {t} == u - {t} - {p};
    }
  }

  lemma {:induction false} UnspentPruned(vout: seq<TxOut>, k: nat)
    requires k <= |vout|
    requires forall i :: 0 <= i < |vout| ==> vout[i].IsNull()
    ensures Unspent(vout, k) == 0
  {
    if k > 0 {
      UnspentPruned(vout, k - 1);
    }
  }

  lemma TotalPut(u: UtxoSet, t: Hash, c: Coin)
    ensures Total(Put(u, t, c)) == Total(u - {t}) + CoinValue(c)
  {
    if c.IsPruned() {
      UnspentPruned(c.vout, |c.vout|);
    } else {
      TotalRemove(u[t := c], t);
      assert u[t := c] - {t} == u - {t};
    }
  }

  lemma {:induction false} TotalNonNegative(u: UtxoSet)
    requires Funded(u)
    ensures Total(u) >= 0
    decreases |u|
  {
    if u != map[] {
      var t :| t in u;
      TotalRemove(u, t);
      assert Funded(u - {t}) by {
        forall s, n: nat {:trigger (u - {t})[s].vout[n]} | s in u - {t} && n < |u[s].vout| && !u[s].vout[n].IsNull()
          ensures (u - {t})[s].vout[n].nValue >= 0
        {
          assert u[s].vout[n].nValue >= 0;
        }
      }
      TotalNonNegative(u - {t});
      UnspentNonNegative(u[t].vout, |u[t].vout|);
      assert CoinValue(u[t]) >= 0;
    } else {
      assert Total(u) == 0;
    }
  }

  lemma {:induction false} UnspentNonNegative(vout: seq<TxOut>, k: nat)
    requires k <= |vout|
    requires forall i: nat :: i < |vout| && !vout[i].IsNull() ==> vout[i].nValue >= 0
    ensures Unspent(vout, k) >= 0
  {
    if k > 0 {
      UnspentNonNegative(vout, k - 1);
    }
  }

  // ---------------------------------------------------------------- spending

  lemma {:induction false} UnspentNulled(vout: seq<TxOut>, n: nat, k: nat)
    requires n < |vout| && k <= |vout| && !vout[n].IsNull()
    ensures Unspent(vout[n := NULL_OUT], k) == Unspent(vout, k) - if n < k then vout[n].nValue else 0
  {
    if k > 0 {
      UnspentNulled(vout, n, k - 1);
    }
  }

  lemma {:induction false} UnspentPrefix(r: seq<TxOut>, vout: seq<TxOut>, k: nat)
    requires r <= vout && k <= |vout|
    requires forall i :: |r| <= i < |vout| ==> vout[i].IsNull()
    ensures Unspent(vout, k) == Unspent(r, if k <= |r| then k else |r|)
  {
    if k > 0 {
      UnspentPrefix(r, vout, k - 1);
    }
  }

  lemma SpendOneTotal(u: UtxoSet, op: OutPoint)
    requires Available(u, op)
    ensures Total(SpendOne(u, op).0) == Total(u) - OutputFor(u, op).nValue
  {
    var c := u[op.hash];
    var d := SpendOf(c, op.n).0;
    var nulled := c.vout[op.n := NULL_OUT];
    UnspentNulled(c.vout, op.n, |c.vout|);
    UnspentPrefix(d.vout, nulled, |nulled|);
    TotalPut(u, op.hash, d);
    TotalRemove(u, op.hash);
  }

  lemma SpendOneFunded(u: UtxoSet, op: OutPoint)
    requires Available(u, op) && Funded(u)
    ensures Funded(SpendOne(u, op).0) && SpendOne(u, op).0.Keys <= u.Keys
  {
  }

  lemma {:induction false} SpendInputsTotal(u: UtxoSet, vin: seq<OutPoint>, k: nat)
    requires k <= |vin| && Funded(u)
    requires forall i :: 0 <= i < |vin| ==> Available(u, vin[i])
    requires forall i, j :: 0 <= i < j < |vin| ==> vin[i] != vin[j]
    ensures SpendInputs(u, vin, k).Some?
    ensures var v := SpendInputs(u, vin, k).value.0;
            Total(v) == Total(u) - SumIn(u, vin, k) && Funded(v) && v.Keys <= u.Keys
  {
    hide Total, Funded, Available, OutputFor, SpendOne;
    if k > 0 {
      SpendInputsTotal(u, vin, k - 1);
      SpendInputsSucceeds(u, vin, k - 1);
      var v := SpendInputs(u, vin, k - 1).value.0;
      SpendOneTotal(v, vin[k - 1]);
      SpendOneFunded(v, vin[k - 1]);
    }
  }

  // ---------------------------------------------------------------- creating

  lemma {:induction false} SpendableTotal(vout: seq<TxOut>, k: nat)
    requires k <= |vout| && forall i :: 0 <= i < |vout| ==> MoneyRange(vout[i].nValue)
    ensures Unspent(Spendable(vout), k) <= SumOut(vout, k)
  {
    if k > 0 {
      SpendableTotal(vout, k - 1);
    }
  }

  lemma CoinOfValue(tx: Tx, height: nat)
    requires ValidTx(tx)
    ensures CoinValue(CoinOf(tx, height)) <= ValueOut(tx)
  {
    var outs := Spendable(tx.vout);
    SpendableTotal(tx.vout, |tx.vout|);
    UnspentPrefix(Trim(outs), outs, |outs|);
  }

  lemma CreateFunded(u: UtxoSet, tx: Tx, height: nat)
    requires Funded(u) && ValidTx(tx)
    ensures Funded(Put(u, tx.txid, CoinOf(tx, height)))
  {
  }

  /** A transaction changes the total by no more than what it creates less what it spends. */
  lemma UpdateCoinsTotal(u: UtxoSet, tx: Tx, height: nat)
    requires Funded(u) && ValidTx(tx) && HaveInputs(u, tx) && tx.txid !in u
    ensures UpdateCoins(u, tx, height).Some?
    ensures var v := UpdateCoins(u, tx, height).value.0;
            Funded(v) && Total(v) <= Total(u) - ValueIn(u, tx) + ValueOut(tx)
  {
    var spent := u;
    if !tx.IsCoinBase() {
      SpendInputsTotal(u, tx.vin, |tx.vin|);
      spent := SpendInputs(u, tx.vin, |tx.vin|).value.0;
    }
    assert spent - {tx.txid} == spent;
    TotalPut(spent, tx.txid, CoinOf(tx, height));
    CoinOfValue(tx, height);
    CreateFunded(spent, tx, height);
  }

  // ---------------------------------------------------------------- blocks

  /** Within a block: value leaves the set as fees and enters it as the coinbase. */
  ghost predicate Balanced(s: ConnectState, u: UtxoSet, b: Block, k: nat)
    requires k <= |b.vtx|
  {
    && Funded(s.u) && s.fees >= 0
    && Total(s.u) <= Total(u) - s.fees + if k == 0 then 0 else ValueOut(b.vtx[0])
  }

  lemma ConnectTxBalanced(rules: Rules, s: ConnectState, u: UtxoSet, b: Block, height: nat, k: nat)
    requires ValidBlock(rules, b) && 0 < k <= |b.vtx|
    requires b.vtx[k - 1].txid !in s.u && Balanced(s, u, b, k - 1)
    requires ConnectTx(rules, s, b.vtx[k - 1], height, b.StrictPayToScriptHash()).Accept?
    ensures Balanced(ConnectTx(rules, s, b.vtx[k - 1], height, b.StrictPayToScriptHash()).value, u, b, k)
  {
    var tx := b.vtx[k - 1];
    UpdateCoinsTotal(s.u, tx, height);
    if k > 1 {
      ScanInputsSum(s.u, tx.vin, height, |tx.vin|);
    }
  }

  lemma {:induction false} ScanInputsSum(u: UtxoSet, vin: seq<OutPoint>, height: nat, k: nat)
    requires k <= |vin|
    requires forall i :: 0 <= i < |vin| ==> Available(u, vin[i])
    ensures ScanInputs(u, vin, height, k).Accept? ==> ScanInputs(u, vin, height, k).value == SumIn(u, vin, k)
  {
    if k > 0 {
      ScanInputsSum(u, vin, height, k - 1);
    }
  }

  lemma {:induction false} ConnectTxsBalanced(rules: Rules, u: UtxoSet, b: Block, height: nat, k: nat)
    requires Good(u) && Funded(u) && ValidBlock(rules, b) && !Overwrites(u, b) && height > 0 && k <= |b.vtx|
    requires ConnectTxs(rules, u, b, height, k).Accept?
    ensures Balanced(ConnectTxs(rules, u, b, height, k).value, u, b, k)
  {
    hide ConnectTx;
    if k > 0 {
      ConnectTxsBalanced(rules, u, b, height, k - 1);
      ConnectTxsProgress(rules, u, b, height, k - 1);
      ConnectTxBalanced(rules, ConnectTxs(rules, u, b, height, k - 1).value, u, b, height, k);
    }
  }

  /** The running fee total stays within a signed 64-bit integer while the set is worth at most MAX_MONEY. */
  lemma FeesDoNotOverflow(rules: Rules, u: UtxoSet, b: Block, height: nat, k: nat)
    requires Good(u) && Funded(u) && ValidBlock(rules, b) && !Overwrites(u, b) && height > 0 && k <= |b.vtx|
    requires ConnectTxs(rules, u, b, height, k).Accept? && Total(u) <= MAX_MONEY
    ensures 0 <= ConnectTxs(rules, u, b, height, k).value.fees <= 2 * MAX_MONEY < 0x8000_0000_0000_0000
  {
    ConnectTxsBalanced(rules, u, b, height, k);
    TotalNonNegative(ConnectTxs(rules, u, b, height, k).value.u);
    if k > 0 {
      assert MoneyRange(SumOut(b.vtx[0].vout, |b.vtx[0].vout|));
    }
  }

  /** A connected block raises the total by at most the subsidy of its height. */
  lemma BlockAddsAtMostSubsidy(rules: Rules, u: UtxoSet, b: Block, height: nat)
    requires rules.halvingInterval > 0 && Good(u) && Funded(u) && height > 0
    requires ConnectBlock(rules, u, b, height).Accept?
    ensures var v := ConnectBlock(rules, u, b, height).value.0;
            Funded(v) && Total(v) <= Total(u) + Subsidy(rules, height)
  {
    ConnectTxsBalanced(rules, u, b, height, |b.vtx|);
  }

  // ---------------------------------------------------------------- chains

  /** The coin set that connecting chain[1..] to the genesis block's empty set gives, if all of it connects. */
  function Replay(rules: Rules, chain: seq<Block>): Option<UtxoSet>
    requires rules.halvingInterval > 0
  {
    if |chain| <= 1 then Some(map[]) else
    match Replay(rules, chain[..|chain| - 1])
    case None => None
    case Some(u) =>
      match ConnectBlock(rules, u, chain[|chain| - 1], |chain| - 1)
      case Reject(_) => None
      case Accept((v, _)) => Some(v)
  }

  /** Subsidies of heights 0..n-1. */
  function Issued(rules: Rules, n: nat): int
    requires rules.halvingInterval > 0
  {
    if n == 0 then 0 else Issued(rules, n - 1) + Subsidy(rules, n - 1)
  }

  /** The geometric bound: what is issued, and what this era and all later ones can still issue, fits. */
  lemma {:induction false} IssuedBound(rules: Rules, n: nat)
    requires rules.halvingInterval == MAINNET_HALVING_INTERVAL
    ensures var era := n / MAINNET_HALVING_INTERVAL;
            var left := 2 * MAINNET_HALVING_INTERVAL - n % MAINNET_HALVING_INTERVAL;
            Issued(rules, n) + left * Halved(50 * 100000000, era) <= MAX_MONEY
  {
    if n > 0 {
      IssuedBound(rules, n - 1);
      var era, next := (n - 1) / MAINNET_HALVING_INTERVAL, n / MAINNET_HALVING_INTERVAL;
      var r := (n - 1) % MAINNET_HALVING_INTERVAL;
      var h := Halved(50 * 100000000, era);
      if r + 1 < MAINNET_HALVING_INTERVAL {
        assert next == era && n % MAINNET_HALVING_INTERVAL == r + 1;
        OneMore(2 * MAINNET_HALVING_INTERVAL - r - 1, h);
      } else {
        assert next == era + 1 && n % MAINNET_HALVING_INTERVAL == 0;
        assert 2 * Halved(50 * 100000000, next) <= h;
      }
    }
  }

  lemma OneMore(a: nat, h: nat)
    ensures (a + 1) * h == a * h + h
  {
  }

  lemma IssuedAtMost(rules: Rules, n: nat)
    requires rules.halvingInterval == MAINNET_HALVING_INTERVAL
    ensures Issued(rules, n) <= MAX_MONEY
  {
    hide Issued, Halved;
    IssuedBound(rules, n);
    var left: nat := 2 * MAINNET_HALVING_INTERVAL - n % MAINNET_HALVING_INTERVAL;
    var h := Halved(50 * 100000000, n / MAINNET_HALVING_INTERVAL);
    assert left * h >= 0;
  }

  lemma {:induction false} ReplayTotal(rules: Rules, chain: seq<Block>)
    requires rules.halvingInterval > 0 && Replay(rules, chain).Some?
    ensures var u := Replay(rules, chain).value;
            Good(u) && Funded(u) && Total(u) <= Issued(rules, |chain|)
  {
    hide ConnectBlock;
    if |chain| <= 1 {
      assert Issued(rules, 0) == 0;
    } else {
      var prev := chain[..|chain| - 1];
      ReplayTotal(rules, prev);
      var u := Replay(rules, prev).value;
      DisconnectInvertsConnect(rules, u, chain[|chain| - 1], |chain| - 1);
      BlockAddsAtMostSubsidy(rules, u, chain[|chain| - 1], |chain| - 1);
    }
  }

  /** On the main network no chain creates more than MAX_MONEY. Beyond 64 halvings the source's shift of the
      subsidy is undefined, so longer chains are not covered. */
  lemma SupplyNeverExceedsMaxMoney(rules: Rules, chain: seq<Block>)
    requires rules.halvingInterval == MAINNET_HALVING_INTERVAL && |chain| <= 64 * MAINNET_HALVING_INTERVAL
    requires Replay(rules, chain).Some?
    ensures 0 <= Total(Replay(rules, chain).value) <= MAX_MONEY
  {
    hide Replay, Total, Issued, Good, Funded;
    ReplayTotal(rules, chain);
    TotalNonNegative(Replay(rules, chain).value);
    IssuedAtMost(rules, |chain|);
  }
}

/** Disconnecting the other way round: what a clean disconnect accepts as the work of a block is what connecting the block
    again makes. */
module Reversal {
  import opened Coins
  import opened Utxo
  import opened Acceptance
  import opened Supply

  /** No stored output is one that could never be spent. */
  ghost predicate Cleared(u: UtxoSet) {
    forall t, n: nat {:trigger u[t].vout[n]} :: t in u && n < |u[t].vout| ==> !u[t].vout[n].IsUnspendable()
  }

  predicate Restorable(undos: TxUndo) {
    forall k :: 0 <= k < |undos| ==> !undos[k].txout.IsNull() && !undos[k].txout.IsUnspendable()
  }

  /** A coin whose output was restored has exactly that output more. */
  lemma RestoredSpends(c: Coin, n: nat, undo: TxInUndo)
    requires c.Canonical() && UnspendClean(c, n, undo) && !undo.txout.IsNull() && (c.vout == [] || c.nHeight > 0)
    ensures var d := UnspendOf(c, n, undo);
            && d.Canonical() && d.vout != [] && d.nHeight > 0 && d.IsAvailable(n)
            && if c.vout == [] then SpendOf(d, n).0.vout == [] else SpendOf(d, n).0 == c
  {
    var d := UnspendOf(c, n, undo);
    var nulled := d.vout[n := NULL_OUT];
    if c.vout == [] {
      assert c.IsPruned();
      TrimUnique(nulled, []);
    } else {
      assert !c.vout[|c.vout| - 1].IsNull();
      assert c.vout <= nulled;
      TrimUnique(nulled, c.vout);
    }
  }

  lemma RestoreOneSpends(w: UtxoSet, op: OutPoint, undo: TxInUndo)
    requires Good(w) && Cleared(w) && UnspendClean(Lookup(w, op.hash), op.n, undo)
    requires !undo.txout.IsNull() && !undo.txout.IsUnspendable()
    ensures var v := Put(w, op.hash, UnspendOf(Lookup(w, op.hash), op.n, undo));
            Good(v) && Cleared(v) && Available(v, op) && SpendOne(v, op).0 == w
  {
    hide Cleared, Trim, UnspendOf, SpendOf, PutOut;
    var c := Lookup(w, op.hash);
    var d := UnspendOf(c, op.n, undo);
    RestoredSpends(c, op.n, undo);
    assert !d.vout[|d.vout| - 1].IsNull();
    var v := Put(w, op.hash, d);
    assert v == w[op.hash := d];
    RestoredCleared(w, op, undo);
    if c.vout == [] {
      assert op.hash !in w;
      assert v - {op.hash} == w;
    } else {
      assert !c.vout[|c.vout| - 1].IsNull();
      assert v[op.hash := c] == w;
    }
  }

  lemma RestoredCleared(w: UtxoSet, op: OutPoint, undo: TxInUndo)
    requires Cleared(w) && !undo.txout.IsUnspendable()
    ensures Cleared(w[op.hash := UnspendOf(Lookup(w, op.hash), op.n, undo)])
  {
    var c := Lookup(w, op.hash);
    var v := w[op.hash := UnspendOf(c, op.n, undo)];
    forall t, n: nat {:trigger v[t].vout[n]} | t in v && n < |v[t].vout|
      ensures !v[t].vout[n].IsUnspendable()
    {
      assert op.hash in w && n < |c.vout| ==> !w[op.hash].vout[n].IsUnspendable();
      assert t != op.hash ==> !w[t].vout[n].IsUnspendable();
    }
  }

  /** Spending forwards undoes restoring backwards. */
  lemma {:induction false} SpendInvertsRestore(w: UtxoSet, vin: seq<OutPoint>, undos: TxUndo, k: nat)
    requires Good(w) && Cleared(w) && k <= |vin| == |undos| && Restorable(undos)
    requires RestoreInputs(w, vin, undos, k).Some?
    ensures var v := RestoreInputs(w, vin, undos, k).value;
            && Good(v) && Cleared(v)
            && SpendInputs(v, vin, k).Some? && SpendInputs(v, vin, k).value.0 == w
    decreases k
  {
    hide SpendOne, UnspendOf, UnspendClean, Put, Good, Cleared, Available;
    if k > 0 {
      var op := vin[k - 1];
      RestoreOneSpends(w, op, undos[k - 1]);
      SpendInvertsRestore(Put(w, op.hash, UnspendOf(Lookup(w, op.hash), op.n, undos[k - 1])), vin, undos, k - 1);
    }
  }

  lemma TrimmedIsSame(vout: seq<TxOut>)
    requires |vout| > 0 ==> !vout[|vout| - 1].IsNull()
    ensures Trim(vout) == vout
  {
  }

  /** Outputs that match a transaction are the ones it makes. */
  lemma MatchedOutputs(u: UtxoSet, tx: Tx, height: nat)
    requires Good(u) && Cleared(u) && OutputsMatch(u, tx, height) && tx.nVersion >= 0
    ensures Put(u - {tx.txid}, tx.txid, CoinOf(tx, height)) == u
    ensures Good(u - {tx.txid}) && Cleared(u - {tx.txid})
  {
    hide Cleared, CoinOf, ClearUnspendableOf;
    var t := tx.txid;
    RemovedCleared(u, t);
    VersionKept(tx, height);
    if t in u {
      var c := u[t];
      AlreadyCleared(u, t);
      assert !c.vout[|c.vout| - 1].IsNull();
      assert (u - {t})[t := c] == u;
    } else {
      CoinOfHeight(tx, height);
      assert u - {t} == u;
    }
  }

  lemma VersionKept(tx: Tx, height: nat)
    ensures CoinOf(tx, height).nVersion == tx.nVersion
  {
  }

  lemma AlreadyCleared(u: UtxoSet, t: Hash)
    requires Good(u) && Cleared(u) && t in u
    ensures ClearUnspendableOf(u[t]) == u[t]
  {
    var vout := u[t].vout;
    forall n | 0 <= n < |vout| ensures !vout[n].IsUnspendable() {
      assert !u[t].vout[n].IsUnspendable();
    }
    assert Coins.Spendable(vout) == vout;
    TrimmedIsSame(vout);
  }

  lemma RemovedCleared(u: UtxoSet, t: Hash)
    requires Cleared(u)
    ensures Cleared(u - {t})
  {
    forall s, n: nat {:trigger (u - {t})[s].vout[n]} | s in u - {t} && n < |(u - {t})[s].vout|
      ensures !(u - {t})[s].vout[n].IsUnspendable()
    {
      assert !u[s].vout[n].IsUnspendable();
    }
  }

  lemma TxReconnects(u: UtxoSet, tx: Tx, height: nat, undos: TxUndo)
    requires Good(u) && Cleared(u) && tx.nVersion >= 0 && Restorable(undos)
    requires var inputs := if tx.IsCoinBase() then [] else tx.vin;
             |inputs| == |undos| && DisconnectTx(u, tx, height, inputs, undos).Some?
    ensures var v := DisconnectTx(u, tx, height, if tx.IsCoinBase() then [] else tx.vin, undos).value;
            && Good(v) && Cleared(v)
            && UpdateCoins(v, tx, height).Some? && UpdateCoins(v, tx, height).value.0 == u
  {
    hide OutputsMatch, Good, Cleared, Put, CoinOf, SpendInputs;
    MatchedOutputs(u, tx, height);
    if !tx.IsCoinBase() {
      SpendInvertsRestore(u - {tx.txid}, tx.vin, undos, |tx.vin|);
    }
  }

  lemma {:induction false} TxsReconnect(u: UtxoSet, b: Block, undo: seq<TxUndo>, height: nat, k: nat)
    requires Good(u) && Cleared(u) && Consistent(b, undo) && k <= |b.vtx|
    requires forall j :: 0 <= j < |b.vtx| ==> b.vtx[j].nVersion >= 0 && (b.vtx[j].IsCoinBase() <==> j == 0)
    requires forall j :: 0 <= j < |undo| ==> Restorable(undo[j])
    requires DisconnectTxs(u, b, undo, height, k).Some?
    ensures SetBefore(DisconnectTxs(u, b, undo, height, k).value, b, height, k) == Some(u)
    decreases k
  {
    hide DisconnectTx, UpdateCoins, Good, Cleared, Restorable;
    if k > 0 {
      var tx := b.vtx[k - 1];
      assert Restorable([]) by { NothingToRestore(); }
      TxReconnects(u, tx, height, if k > 1 then undo[k - 2] else []);
      var inputs := if k > 1 then tx.vin else [];
      TxsReconnect(DisconnectTx(u, tx, height, inputs, if k > 1 then undo[k - 2] else []).value, b, undo, height, k - 1);
    }
  }

  lemma NothingToRestore()
    ensures Restorable([])
  {
  }

  /** A disconnect reported clean, with undo data that can be spent again, is exactly undone by connecting the block again: so
      it never is reported when an output of the block is missing or another stands in its place, or when an input had not been
      spent. */
  lemma ConnectInvertsDisconnect(u: UtxoSet, b: Block, undo: seq<TxUndo>, height: nat)
    requires Good(u) && Cleared(u)
    requires forall j :: 0 <= j < |b.vtx| ==> b.vtx[j].nVersion >= 0 && (b.vtx[j].IsCoinBase() <==> j == 0)
    requires forall j :: 0 <= j < |undo| ==> Restorable(undo[j])
    requires DisconnectBlock(u, b, undo, height).Clean?
    ensures SetBefore(DisconnectBlock(u, b, undo, height).u, b, height, |b.vtx|) == Some(u)
  {
    hide DisconnectTxs, SetBefore, Good, Cleared, Restorable;
    TxsReconnect(u, b, undo, height, |b.vtx|);
  }

  // ---------------------------------------------------------------- and this applies to every chain

  lemma SpentCleared(u: UtxoSet, op: OutPoint)
    requires Cleared(u) && Available(u, op)
    ensures var (v, undo) := SpendOne(u, op);
            Cleared(v) && !undo.txout.IsNull() && !undo.txout.IsUnspendable()
  {
    hide Trim;
    var v := SpendOne(u, op).0;
    assert !u[op.hash].vout[op.n].IsUnspendable();
    forall t, n: nat {:trigger v[t].vout[n]} | t in v && n < |v[t].vout|
      ensures !v[t].vout[n].IsUnspendable()
    {
      assert n < |u[t].vout| ==> !u[t].vout[n].IsUnspendable();
    }
  }

  lemma {:induction false} AllSpentCleared(u: UtxoSet, vin: seq<OutPoint>, k: nat)
    requires Cleared(u) && k <= |vin| && SpendInputs(u, vin, k).Some?
    ensures var (v, undos) := SpendInputs(u, vin, k).value; Cleared(v) && Restorable(undos)
  {
    hide Cleared, SpendOne, Available;
    if k > 0 {
      AllSpentCleared(u, vin, k - 1);
      SpentCleared(SpendInputs(u, vin, k - 1).value.0, vin[k - 1]);
    }
  }

  lemma CreatedCleared(u: UtxoSet, tx: Tx, height: nat)
    requires Cleared(u)
    ensures Cleared(Put(u, tx.txid, CoinOf(tx, height)))
  {
    var c := CoinOf(tx, height);
    var v := Put(u, tx.txid, c);
    forall t, n: nat {:trigger v[t].vout[n]} | t in v && n < |v[t].vout|
      ensures !v[t].vout[n].IsUnspendable()
    {
      if t == tx.txid {
        assert v[t] == c && c.vout[n] == Coins.Spendable(tx.vout)[n];
      } else {
        assert !u[t].vout[n].IsUnspendable();
      }
    }
  }

  lemma TxCleared(rules: Rules, s: ConnectState, tx: Tx, height: nat, strict: bool)
    requires Cleared(s.u) && (forall j :: 0 <= j < |s.undo| ==> Restorable(s.undo[j]))
    requires ConnectTx(rules, s, tx, height, strict).Accept?
    ensures var t := ConnectTx(rules, s, tx, height, strict).value;
            Cleared(t.u) && forall j :: 0 <= j < |t.undo| ==> Restorable(t.undo[j])
  {
    hide Cleared, Restorable, ConnectTx, CoinOf, Put, SpendInputs;
    ConnectTxUpdates(rules, s, tx, height, strict);
    if tx.IsCoinBase() {
      CreatedCleared(s.u, tx, height);
    } else {
      AllSpentCleared(s.u, tx.vin, |tx.vin|);
      CreatedCleared(SpendInputs(s.u, tx.vin, |tx.vin|).value.0, tx, height);
    }
  }

  lemma {:induction false} TxsCleared(rules: Rules, u: UtxoSet, b: Block, height: nat, k: nat)
    requires Cleared(u) && k <= |b.vtx| && ConnectTxs(rules, u, b, height, k).Accept?
    ensures var s := ConnectTxs(rules, u, b, height, k).value;
            Cleared(s.u) && forall j :: 0 <= j < |s.undo| ==> Restorable(s.undo[j])
  {
    hide Cleared, Restorable, ConnectTx;
    if k > 0 {
      TxsCleared(rules, u, b, height, k - 1);
      TxCleared(rules, ConnectTxs(rules, u, b, height, k - 1).value, b.vtx[k - 1], height, b.StrictPayToScriptHash());
    }
  }

  /** A connected block leaves no output that can never be spent, and its undo data can be spent again. */
  lemma ConnectKeepsCleared(rules: Rules, u: UtxoSet, b: Block, height: nat)
    requires rules.halvingInterval > 0 && Cleared(u) && ConnectBlock(rules, u, b, height).Accept?
    ensures var (v, undo) := ConnectBlock(rules, u, b, height).value;
            Cleared(v) && forall j :: 0 <= j < |undo| ==> Restorable(undo[j])
  {
    hide Cleared, Restorable, ConnectTxs;
    TxsCleared(rules, u, b, height, |b.vtx|);
  }

  lemma {:induction false} ReplayCleared(rules: Rules, chain: seq<Block>)
    requires rules.halvingInterval > 0 && Replay(rules, chain).Some?
    ensures Cleared(Replay(rules, chain).value)
  {
    hide ConnectBlock;
    if |chain| > 1 {
      var before := chain[..|chain| - 1];
      ReplayCleared(rules, before);
      ConnectKeepsCleared(rules, Replay(rules, before).value, chain[|chain| - 1], |chain| - 1);
    }
  }
}

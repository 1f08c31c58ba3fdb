/** Unspent outputs of one transaction: the CCoins class, its trimming discipline, and the undo record
    that spending an output leaves behind. */
module Coins {
  type Hash = nat

  type Script = seq<nat>

  const OP_RETURN := 0x6a

  datatype TxOut = TxOut(nValue: int, scriptPubKey: Script) {
    predicate IsNull() { nValue == -1 }

    predicate IsUnspendable() { |scriptPubKey| > 0 && scriptPubKey[0] == OP_RETURN }
  }

  const NULL_OUT := TxOut(-1, [])

  /** The value of a CCoins object, as std::map stores it. */
  datatype Coin = Coin(fCoinBase: bool, vout: seq<TxOut>, nHeight: nat, nVersion: int) {
    predicate IsAvailable(n: nat) { n < |vout| && !vout[n].IsNull() }

    predicate IsPruned() { forall i :: 0 <= i < |vout| ==> vout[i].IsNull() }

    /** operator==: all pruned coins are equal. */
    predicate Same(that: Coin) {
      (IsPruned() && that.IsPruned()) || this == that
    }

    /** Shape that every stored coin has: nulls are canonical and the last output is unspent. */
    predicate Canonical() {
      && (forall i :: 0 <= i < |vout| && vout[i].IsNull() ==> vout[i] == NULL_OUT)
      && (|vout| > 0 ==> !vout[|vout| - 1].IsNull())
    }
  }

  const EMPTY_COIN := Coin(false, [], 0, 0)

  datatype TxInUndo = TxInUndo(txout: TxOut, fCoinBase: bool, nHeight: nat, nVersion: int)

  /** The outputs that remain once trailing nulls are dropped. */
  function Trim(vout: seq<TxOut>): (r: seq<TxOut>)
    ensures r <= vout
    ensures |r| > 0 ==> !r[|r| - 1].IsNull()
    ensures forall i :: |r| <= i < |vout| ==> vout[i].IsNull()
  {
    if |vout| > 0 && vout[|vout| - 1].IsNull() then Trim(vout[..|vout| - 1]) else vout
  }

  /** Outputs with the provably unspendable ones nulled. */
  function Spendable(vout: seq<TxOut>): (r: seq<TxOut>)
    ensures |r| == |vout|
    ensures forall i :: 0 <= i < |vout| ==> r[i] == if vout[i].IsUnspendable() then NULL_OUT else vout[i]
  {
    seq(|vout|, i requires 0 <= i < |vout| => if vout[i].IsUnspendable() then NULL_OUT else vout[i])
  }

  function ClearUnspendableOf(c: Coin): (r: Coin)
  {
    c.(vout := Trim(Spendable(c.vout)))
  }

  /** CCoins::Spend as a function: the coin left over and the undo record, for an available output. */
  function SpendOf(c: Coin, n: nat): (r: (Coin, TxInUndo))
    requires c.IsAvailable(n)
  {
    var vout := Trim(c.vout[n := NULL_OUT]);
    (c.(vout := vout),
     if vout == [] then TxInUndo(c.vout[n], c.fCoinBase, c.nHeight, c.nVersion)
     else TxInUndo(c.vout[n], false, 0, 0))
  }

  /** Puts an output back, growing the vector with nulls where needed. */
  function PutOut(vout: seq<TxOut>, n: nat, o: TxOut): (r: seq<TxOut>)
    ensures |r| == if n < |vout| then |vout| else n + 1
    ensures forall i :: 0 <= i < |r| ==> r[i] == if i == n then o else if i < |vout| then vout[i] else NULL_OUT
  {
    seq(if n < |vout| then |vout| else n + 1,
        i requires 0 <= i => if i == n then o else if i < |vout| then vout[i] else NULL_OUT)
  }

  /** What DisconnectBlock makes of the coin an input came from: metadata travels in the undo record exactly
      when the spent output was the last one. */
  function UnspendOf(c: Coin, n: nat, undo: TxInUndo): (r: Coin)
  {
    var base := if undo.nHeight != 0 then Coin(undo.fCoinBase, [], undo.nHeight, undo.nVersion) else c;
    base.(vout := PutOut(base.vout, n, undo.txout))
  }

  /** The three consistency checks of DisconnectBlock for one restored input. */
  predicate UnspendClean(c: Coin, n: nat, undo: TxInUndo) {
    if undo.nHeight != 0 then c.IsPruned() else !c.IsPruned() && !c.IsAvailable(n)
  }

  lemma TrimUnique(vout: seq<TxOut>, r: seq<TxOut>)
    requires r <= vout && (|r| > 0 ==> !r[|r| - 1].IsNull())
    requires forall i :: |r| <= i < |vout| ==> vout[i].IsNull()
    ensures r == Trim(vout)
  {
  }

  /** Restoring a spent output with its own undo record gives back the very coin, trimmed vector and metadata
      included -- except for a coin of height 0 whose last output was spent, where the record cannot say so. */
  lemma UnspendInvertsSpend(c: Coin, n: nat)
    requires c.Canonical() && c.IsAvailable(n)
    ensures var (d, undo) := SpendOf(c, n);
            && d.Canonical()
            && (c.nHeight > 0 || d.vout != [] <==> UnspendClean(d, n, undo) && UnspendOf(d, n, undo) == c)
            && (c.nHeight > 0 && d.vout == [] ==> UnspendOf(EMPTY_COIN, n, undo) == c)
  {
  }

  lemma ClearUnspendableIdempotent(c: Coin)
    ensures ClearUnspendableOf(ClearUnspendableOf(c)) == ClearUnspendableOf(c)
  {
  }

  /** CCoins with the fields its methods change in place. */
  class CCoins {
    var fCoinBase: bool
    var vout: seq<TxOut>
    var nHeight: nat
    var nVersion: int

    constructor (c: Coin)
      ensures Value() == c
    {
      fCoinBase, vout, nHeight, nVersion := c.fCoinBase, c.vout, c.nHeight, c.nVersion;
    }

    constructor FromTx(coinBase: bool, outs: seq<TxOut>, height: nat, version: int)
      ensures Value() == ClearUnspendableOf(Coin(coinBase, outs, height, version))
    {
      fCoinBase, vout, nHeight, nVersion := coinBase, outs, height, version;
      new;
      ClearUnspendable();
    }

    function Value(): Coin
      reads this
    {
      Coin(fCoinBase, vout, nHeight, nVersion)
    }

    method Cleanup()
      modifies this`vout
      ensures vout == Trim(old(vout))
    {
      while |vout| > 0 && vout[|vout| - 1].IsNull()
        invariant Trim(vout) == Trim(old(vout))
        decreases |vout|
      {
        vout := vout[..|vout| - 1];
      }
    }

    method ClearUnspendable()
      modifies this`vout
      ensures Value() == ClearUnspendableOf(old(Value()))
    {
      for i := 0 to |vout|
        invariant |vout| == |old(vout)|
        invariant forall k :: 0 <= k < |vout| ==>
                    vout[k] == if k < i && old(vout)[k].IsUnspendable() then NULL_OUT else old(vout)[k]
      {
        if vout[i].IsUnspendable() {
          vout := vout[i := NULL_OUT];
        }
      }
      assert vout == Spendable(old(vout));
      Cleanup();
    }

    method Spend(n: nat) returns (ok: bool, undo: TxInUndo)
      modifies this
      ensures ok == old(Value()).IsAvailable(n)
      ensures ok ==> (Value(), undo) == SpendOf(old(Value()), n)
      ensures !ok ==> Value() == old(Value())
    {
      undo := TxInUndo(NULL_OUT, false, 0, 0);
      if n >= |vout| {
        return false, undo;
      }
      if vout[n].IsNull() {
        return false, undo;
      }
      undo := TxInUndo(vout[n], false, 0, 0);
      vout := vout[n := NULL_OUT];
      Cleanup();
      if |vout| == 0 {
        undo := undo.(nHeight := nHeight, fCoinBase := fCoinBase, nVersion := nVersion);
      }
      return true, undo;
    }
  }
}

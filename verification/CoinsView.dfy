/** Stacked views of the coin set. A layer with a base is a CCoinsViewCache; the layer without one stands for
    CCoinsViewDB at the bottom. Reads may fill caches, but a stack always answers as one flat map. */
module CoinsViews {
  import opened Coins
  import opened Utxo

  /** The observable part of a view: pruned and missing coins look alike. */
  function Live(m: map<Hash, Coin>): (u: UtxoSet)
    ensures forall t :: t in u <==> t in m && !m[t].IsPruned()
    ensures forall t :: t in u ==> u[t] == m[t]
  {
    map t | t in m && !m[t].IsPruned() :: m[t]
  }

  lemma LiveAvailable(m: map<Hash, Coin>, op: OutPoint)
    ensures Available(Live(m), op) <==> op.hash in m && m[op.hash].IsAvailable(op.n)
    ensures Available(Live(m), op) ==> OutputFor(Live(m), op) == m[op.hash].vout[op.n]
  {
  }

  lemma LiveUpdate(m: map<Hash, Coin>, t: Hash, c: Coin)
    ensures Live(m[t := c]) == Put(Live(m), t, c)
  {
  }

  ghost function At(m: map<Hash, Coin>, t: Hash): Option<Coin> {
    if t in m then Some(m[t]) else None
  }

  lemma MapsAgree(a: map<Hash, Coin>, b: map<Hash, Coin>)
    requires forall t :: At(a, t) == At(b, t)
    ensures a == b
  {
    assert forall t :: t in a ==> At(b, t) == Some(a[t]);
    assert forall t :: t in b ==> At(a, t) == Some(b[t]);
  }

  lemma MergedAgrees(r: map<Hash, Coin>, before: map<Hash, Coin>, m: map<Hash, Coin>, erasePruned: bool)
    requires forall t :: At(r, t) ==
               if t !in m then At(before, t) else if erasePruned && m[t].IsPruned() then None else Some(m[t])
    ensures !erasePruned ==> r == before + m
    ensures Live(r) == Live(before + m)
  {
    hide Coin.IsPruned;
    forall t
      ensures At(Live(r), t) == At(Live(before + m), t)
    {
      assert At(r, t) == if t !in m then At(before, t) else if erasePruned && m[t].IsPruned() then None else Some(m[t]);
    }
    MapsAgree(Live(r), Live(before + m));
    if !erasePruned {
      MapsAgree(r, before + m);
    }
  }

  /** Entry by entry, either storing everything or erasing what is pruned. */
  method MergeInto(before: map<Hash, Coin>, m: map<Hash, Coin>, erasePruned: bool) returns (r: map<Hash, Coin>)
    ensures !erasePruned ==> r == before + m
    ensures Live(r) == Live(before + m)
  {
    hide Coin.IsPruned;
    r := before;
    var todo := m.Keys;
    while todo != {}
      invariant todo <= m.Keys
      invariant forall t :: At(r, t) ==
                  if t !in m.Keys - todo then At(before, t)
                  else if erasePruned && m[t].IsPruned() then None else Some(m[t])
      decreases |todo|
    {
      var t :| t in todo;
      if erasePruned && m[t].IsPruned() {
        r := r - {t};
      } else {
        r := r[t := m[t]];
      }
      todo := todo - {t};
    }
    MergedAgrees(r, before, m, erasePruned);
  }

  /** A layer of a stack and what it answers. */
  datatype Layer = Layer(view: CoinsView, footprint: set<object>, coins: map<Hash, Coin>, best: Hash)

  /** Caching what the layer below has changes nothing. */
  lemma RememberedAgrees(lower: map<Hash, Coin>, cache: map<Hash, Coin>, t: Hash)
    requires t in lower && t !in cache
    ensures lower + cache[t := lower[t]] == lower + cache
  {
  }

  lemma StackedMerge(lower: map<Hash, Coin>, cache: map<Hash, Coin>, m: map<Hash, Coin>)
    ensures lower + (cache + m) == lower + cache + m
    ensures map[] + cache == cache
  {
  }

  class CoinsView {
    var base: CoinsView?
    var hashBlock: Hash
    var cacheCoins: map<Hash, Coin>
    ghost var Repr: set<object>

    ghost predicate Valid()
      reads this, Repr
      decreases Repr
    {
      && this in Repr
      && (base != null ==>
            base in Repr && base.Repr <= Repr && this !in base.Repr && base.Valid())
    }

    /** What the whole stack below and including this layer maps each txid to. */
    ghost function Flat(): map<Hash, Coin>
      requires Valid()
      reads this, Repr
      decreases Repr
    {
      if base == null then cacheCoins else base.Flat() + cacheCoins
    }

    ghost function Best(): Hash
      requires Valid()
      reads this, Repr
      decreases Repr
    {
      if hashBlock != 0 || base == null then hashBlock else base.Best()
    }

    ghost function Utxo(): UtxoSet
      requires Valid()
      reads this, Repr
    {
      Live(Flat())
    }

    /** All layers from this one down to the database. */
    ghost function Layers(): (s: seq<Layer>)
      requires Valid()
      reads this, Repr
      ensures |s| > 0 && s[0] == Layer(this, Repr, Flat(), Best())
      decreases Repr
    {
      [Layer(this, Repr, Flat(), Best())] + if base == null then [] else base.Layers()
    }

    /** Reading fills caches only: neither this view nor any below answers differently. */
    twostate predicate Undisturbed()
      requires old(Valid()) && Valid()
      reads this, Repr
    {
      && Repr == old(Repr) && base == old(base)
      && Flat() == old(Flat()) && Utxo() == old(Utxo()) && Best() == old(Best())
      && (base != null ==> base.base == old(base.base) && base.Layers() == old(base.Layers()))
    }

    /** Changes stay in this layer: nothing below it answers differently. */
    twostate predicate OnTop()
      requires old(Valid()) && Valid() && base != null
      reads this, Repr
    {
      && Repr == old(Repr) && base == old(base)
      && base.base == old(base.base) && base.Layers() == old(base.Layers())
    }

    constructor Database()
      ensures Valid() && fresh(Repr) && base == null
      ensures Flat() == map[] && Best() == 0
    {
      base, hashBlock, cacheCoins := null, 0, map[];
      Repr := {this};
    }

    constructor (baseIn: CoinsView)
      requires baseIn.Valid()
      ensures Valid() && fresh(Repr - baseIn.Repr) && base == baseIn && Repr == {this} + baseIn.Repr
      ensures hashBlock == 0 && cacheCoins == map[]
      ensures Flat() == baseIn.Flat() && Best() == baseIn.Best()
    {
      base, hashBlock, cacheCoins := baseIn, 0, map[];
      Repr := {this} + baseIn.Repr;
    }

    /** Both the copying GetCoins and FetchCoins: look here, then below, remembering what was found. */
    method GetCoins(txid: Hash) returns (found: bool, coins: Coin)
      requires Valid()
      modifies Repr
      ensures Valid() && Undisturbed() && hashBlock == old(hashBlock)
      ensures found == (txid in Flat())
      ensures coins == if found then Flat()[txid] else EMPTY_COIN
      ensures found ==> txid in cacheCoins
      decreases Repr
    {
      hide Live;
      if txid in cacheCoins {
        return true, cacheCoins[txid];
      }
      if base == null {
        return false, EMPTY_COIN;
      }
      found, coins := base.GetCoins(txid);
      if found {
        RememberedAgrees(base.Flat(), cacheCoins, txid);
        cacheCoins := cacheCoins[txid := coins];
      }
    }

    method HaveCoins(txid: Hash) returns (found: bool)
      requires Valid()
      modifies Repr
      ensures Valid() && Undisturbed() && hashBlock == old(hashBlock)
      ensures found == (txid in Flat())
    {
      var coins;
      found, coins := GetCoins(txid);
    }

    method SetCoins(txid: Hash, coins: Coin)
      requires Valid() && base != null
      modifies this`cacheCoins
      ensures Valid() && Flat() == old(Flat())[txid := coins] && Best() == old(Best())
      ensures base.Layers() == old(base.Layers())
      ensures Utxo() == Put(old(Utxo()), txid, coins)
    {
      hide Live, Put;
      LiveUpdate(Flat(), txid, coins);
      assert base.Flat() + cacheCoins[txid := coins] == Flat()[txid := coins];
      cacheCoins := cacheCoins[txid := coins];
    }

    method GetBestBlock() returns (h: Hash)
      requires Valid()
      modifies Repr
      ensures Valid() && Undisturbed() && cacheCoins == old(cacheCoins) && h == Best()
      decreases Repr
    {
      if hashBlock == 0 && base != null {
        var below := base.GetBestBlock();
        hashBlock := below;
      }
      return hashBlock;
    }

    method SetBestBlock(h: Hash)
      requires Valid() && base != null
      modifies this`hashBlock
      ensures Valid() && hashBlock == h && Flat() == old(Flat())
      ensures Best() == if h != 0 then h else base.Best()
      ensures base.Layers() == old(base.Layers())
    {
      hashBlock := h;
    }

    /** A cache takes every entry and the marker as they are; the database erases pruned coins and ignores a
        null marker. */
    method BatchWrite(m: map<Hash, Coin>, h: Hash)
      requires Valid()
      modifies this`cacheCoins, this`hashBlock
      ensures Valid()
      ensures Live(Flat()) == Live(old(Flat()) + m)
      ensures base != null ==> Flat() == old(Flat()) + m
      ensures hashBlock == if base == null && h == 0 then old(hashBlock) else h
    {
      hide Live;
      ghost var lower := if base == null then map[] else base.Flat();
      ghost var before := cacheCoins;
      var merged := MergeInto(cacheCoins, m, base == null);
      StackedMerge(lower, before, m);
      assert Flat() == lower + before;
      cacheCoins := merged;
      assert Flat() == lower + merged;
      if base != null || h != 0 {
        hashBlock := h;
      }
    }

    /** Writes this layer down. The observable set survives always; the marker survives exactly when the guard
        below holds, in particular whenever this layer has one of its own. */
    method Flush()
      requires Valid() && base != null
      modifies this`cacheCoins, base`cacheCoins, base`hashBlock
      ensures Valid() && cacheCoins == map[] && hashBlock == old(hashBlock)
      ensures Utxo() == base.Utxo() == old(Utxo())
      ensures base.base != null ==> Flat() == old(Flat()) == base.Flat()
      ensures Best() == old(Best()) <==>
                || hashBlock != 0 || base.base == null
                || old(base.hashBlock) == 0 || old(base.hashBlock) == base.base.Best()
      ensures hashBlock != 0 ==> base.Best() == base.hashBlock == old(Best())
    {
      hide Live;
      base.BatchWrite(cacheCoins, hashBlock);
      cacheCoins := map[];
      assert Flat() == base.Flat();
    }

    method GetOutputFor(op: OutPoint) returns (o: TxOut)
      requires Valid() && Available(Utxo(), op)
      modifies Repr
      ensures Valid() && Undisturbed() && hashBlock == old(hashBlock)
      ensures o == OutputFor(Utxo(), op)
    {
      LiveAvailable(Flat(), op);
      var found, coins := GetCoins(op.hash);
      return coins.vout[op.n];
    }

    method GetValueIn(tx: Tx) returns (value: int)
      requires Valid() && HaveInputs(Utxo(), tx)
      modifies Repr
      ensures Valid() && Undisturbed() && hashBlock == old(hashBlock)
      ensures value == ValueIn(Utxo(), tx)
    {
      if tx.IsCoinBase() {
        return 0;
      }
      value := 0;
      for i := 0 to |tx.vin|
        invariant Valid() && Undisturbed() && hashBlock == old(hashBlock)
        invariant value == SumIn(Utxo(), tx.vin, i)
      {
        var o := GetOutputFor(tx.vin[i]);
        value := value + o.nValue;
      }
    }

    method HasInputs(tx: Tx) returns (ok: bool)
      requires Valid()
      modifies Repr
      ensures Valid() && Undisturbed() && hashBlock == old(hashBlock)
      ensures ok == HaveInputs(Utxo(), tx)
    {
      if !tx.IsCoinBase() {
        for i := 0 to |tx.vin|
          invariant Valid() && Undisturbed() && hashBlock == old(hashBlock)
          invariant forall k :: 0 <= k < i ==> tx.vin[k].hash in Flat()
        {
          LiveAvailable(Flat(), tx.vin[i]);
          var have := HaveCoins(tx.vin[i].hash);
          if !have {
            return false;
          }
        }
        for i := 0 to |tx.vin|
          invariant Valid() && Undisturbed() && hashBlock == old(hashBlock)
          invariant forall k :: 0 <= k < |tx.vin| ==> tx.vin[k].hash in Flat()
          invariant forall k :: 0 <= k < i ==> Available(Utxo(), tx.vin[k])
        {
          LiveAvailable(Flat(), tx.vin[i]);
          var _, coins := GetCoins(tx.vin[i].hash);
          if !coins.IsAvailable(tx.vin[i].n) {
            return false;
          }
        }
      }
      return true;
    }
  }

  /** A layer without a marker of its own, on a cache that has one, loses the marker when it is flushed: the null
      marker is written over it, and the database below answers. No caller in the original flushes such a layer. */
  method FlushLosesMarker(marker: Hash) returns (top: CoinsView)
    requires marker != 0
    ensures top.Valid() && top.base != null && top.base.base != null && top.hashBlock == 0
    ensures top.Best() != marker
  {
    var db := new CoinsView.Database();
    var cache := new CoinsView(db);
    cache.SetBestBlock(marker);
    top := new CoinsView(cache);
    assert top.Best() == marker;
    top.Flush();
  }
}

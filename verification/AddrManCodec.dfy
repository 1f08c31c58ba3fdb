/** The on-disk form of CAddrMan: only entries and new buckets are stored; ids, indexes, the random order and the tried
    buckets are rebuilt. Reading back what a consistent manager wrote gives the same tables up to a renaming of ids. */
module AddrManCodec {
  import opened AddrMan

  /** What is stored of an entry. The time of the last try, the reference count and all positions are not. */
  datatype Saved = Saved(addr: Address, source: NetAddr, nLastSuccess: int, nAttempts: int)

  /** The stored fields in their order: counts, all entries (new ones first), then one list of indexes a bucket. The
      secret key, stored with them, is represented by the hash functions. */
  datatype Archive = Archive(nNew: nat, nTried: nat, nUBuckets: nat, entries: seq<Saved>, buckets: seq<seq<int>>)

  function SavedOf(info: Info): Saved {
    Saved(info.addr, info.source, info.nLastSuccess, info.nAttempts)
  }

  function Restored(e: Saved, place: int, tried: bool, nRefCount: int): Info {
    Info(e.addr, e.source, e.nLastSuccess, 0, e.nAttempts, nRefCount, tried, place)
  }

  predicate Distinct(s: seq<int>) {
    forall i, j :: 0 <= i < j < |s| ==> s[i] != s[j]
  }

  function Elements(s: seq<int>): set<int> {
    set x | x in s
  }

  /** The members of a set, each once. */
  predicate Lists(s: seq<int>, all: set<int>) {
    Distinct(s) && Elements(s) == all
  }

  lemma ListsSize(s: seq<int>, all: set<int>)
    requires Lists(s, all)
    ensures |s| == |all|
  {
    DistinctSize(s);
  }

  // ---------------------------------------------------------------- writing

  function Referenced(mapInfo: map<int, Info>): set<int> {
    set id | id in mapInfo && mapInfo[id].nRefCount != 0
  }

  function InTried(mapInfo: map<int, Info>): set<int> {
    set id | id in mapInfo && mapInfo[id].fInTried
  }

  /** A walk that takes members of a set, and stops when it has passed them all or counted them all, has them all. */
  lemma AllOrCounted(s: seq<int>, all: set<int>, rest: set<int>)
    requires Distinct(s) && (forall id :: id in s <==> id in all && id !in rest)
    requires rest == {} || |s| == |all|
    ensures Lists(s, all)
  {
    DistinctSize(s);
    forall id | id in Elements(s) ensures id in all {
    }
    SubsetOfSameSize(Elements(s), all);
    if rest == {} {
      forall id | id in all ensures id in Elements(s) {
      }
    }
  }

  lemma SubsetOfSameSize(a: set<int>, b: set<int>)
    requires a <= b
    ensures |a| == |b| ==> a == b
  {
    assert b == a + (b - a);
  }

  method WriteNew(mapInfo: map<int, Info>, nNew: int)
    returns (entries: seq<Saved>, mapUnkIds: map<int, int>, ghost newIds: seq<int>)
    requires nNew == |Referenced(mapInfo)|
    ensures Lists(newIds, Referenced(mapInfo)) && |entries| == |newIds|
    ensures forall i :: 0 <= i < |newIds| ==> newIds[i] in mapInfo && entries[i] == SavedOf(mapInfo[newIds[i]])
    ensures forall i :: 0 <= i < |newIds| ==> newIds[i] in mapUnkIds && mapUnkIds[newIds[i]] == i
  {
    entries, mapUnkIds, newIds := [], map[], [];
    var nIds := 0;
    var rest := mapInfo.Keys;
    while rest != {} && nIds != nNew
      invariant rest <= mapInfo.Keys && nIds == |newIds| == |entries| && Distinct(newIds)
      invariant forall id :: id in newIds <==> id in Referenced(mapInfo) && id !in rest
      invariant forall i :: 0 <= i < |newIds| ==> newIds[i] in mapInfo && entries[i] == SavedOf(mapInfo[newIds[i]])
      invariant forall i :: 0 <= i < |newIds| ==> newIds[i] in mapUnkIds && mapUnkIds[newIds[i]] == i
      decreases |rest|
    {
      var id := Least(rest);
      rest := rest - {id};
      mapUnkIds := mapUnkIds[id := nIds];
      var info := mapInfo[id];
      if info.nRefCount != 0 {
        entries, newIds := entries + [SavedOf(info)], newIds + [id];
        nIds := nIds + 1;
      }
    }
    AllOrCounted(newIds, Referenced(mapInfo), rest);
  }

  method WriteTried(mapInfo: map<int, Info>, nTried: int) returns (entries: seq<Saved>, ghost triedIds: seq<int>)
    requires nTried == |InTried(mapInfo)|
    ensures Lists(triedIds, InTried(mapInfo)) && |entries| == |triedIds|
    ensures forall i :: 0 <= i < |triedIds| ==> triedIds[i] in mapInfo && entries[i] == SavedOf(mapInfo[triedIds[i]])
  {
    entries, triedIds := [], [];
    var nIds := 0;
    var rest := mapInfo.Keys;
    while rest != {} && nIds != nTried
      invariant rest <= mapInfo.Keys && nIds == |triedIds| == |entries| && Distinct(triedIds)
      invariant forall id :: id in triedIds <==> id in InTried(mapInfo) && id !in rest
      invariant forall i :: 0 <= i < |triedIds| ==> triedIds[i] in mapInfo && entries[i] == SavedOf(mapInfo[triedIds[i]])
      decreases |rest|
    {
      var id := Least(rest);
      rest := rest - {id};
      var info := mapInfo[id];
      if info.fInTried {
        entries, triedIds := entries + [SavedOf(info)], triedIds + [id];
        nIds := nIds + 1;
      }
    }
    AllOrCounted(triedIds, InTried(mapInfo), rest);
  }

  method WriteBucket(vNew: set<int>, mapUnkIds: map<int, int>) returns (bucket: seq<int>, ghost order: seq<int>)
    requires vNew <= mapUnkIds.Keys
    ensures Lists(order, vNew) && |bucket| == |order| == |vNew|
    ensures forall i :: 0 <= i < |bucket| ==> order[i] in mapUnkIds && bucket[i] == mapUnkIds[order[i]]
  {
    bucket, order := [], [];
    var rest := vNew;
    while rest != {}
      invariant rest <= vNew && |bucket| == |order| && Distinct(order)
      invariant forall id :: id in order <==> id in vNew && id !in rest
      invariant forall i :: 0 <= i < |bucket| ==> order[i] in mapUnkIds && bucket[i] == mapUnkIds[order[i]]
      decreases |rest|
    {
      var id := Least(rest);
      rest := rest - {id};
      bucket, order := bucket + [mapUnkIds[id]], order + [id];
    }
    assert forall id :: id in Elements(order) <==> id in vNew;
    ListsSize(order, vNew);
  }

  /** An archive of t, given the order in which entries and bucket members were visited. */
  ghost predicate Fits(t: Tables, a: Archive, newIds: seq<int>, triedIds: seq<int>, orders: seq<seq<int>>) {
    && Lists(newIds, Referenced(t.mapInfo)) && Lists(triedIds, InTried(t.mapInfo))
    && a.nNew == |newIds| && a.nTried == |triedIds| && |a.entries| == a.nNew + a.nTried
    && (forall i :: 0 <= i < a.nNew ==> newIds[i] in t.mapInfo && a.entries[i] == SavedOf(t.mapInfo[newIds[i]]))
    && (forall i :: 0 <= i < a.nTried ==> triedIds[i] in t.mapInfo && a.entries[a.nNew + i] == SavedOf(t.mapInfo[triedIds[i]]))
    && a.nUBuckets == NEW_BUCKET_COUNT == |a.buckets| == |orders| == |t.vvNew|
    && (forall b :: 0 <= b < |orders| ==> Lists(orders[b], t.vvNew[b]) && |a.buckets[b]| == |orders[b]|)
    && (forall b, i :: 0 <= b < |orders| && 0 <= i < |orders[b]| ==>
          0 <= a.buckets[b][i] < a.nNew && newIds[a.buckets[b][i]] == orders[b][i])
  }

  method WriteBuckets(vvNew: seq<set<int>>, mapUnkIds: map<int, int>, ghost newIds: seq<int>)
    returns (buckets: seq<seq<int>>, ghost orders: seq<seq<int>>)
    requires forall b :: 0 <= b < |vvNew| ==> vvNew[b] <= Elements(newIds)
    requires forall i :: 0 <= i < |newIds| ==> newIds[i] in mapUnkIds && mapUnkIds[newIds[i]] == i
    ensures |buckets| == |orders| == |vvNew|
    ensures forall b :: 0 <= b < |orders| ==> Lists(orders[b], vvNew[b]) && |buckets[b]| == |orders[b]| == |vvNew[b]|
    ensures forall b, i :: 0 <= b < |orders| && 0 <= i < |orders[b]| ==>
              0 <= buckets[b][i] < |newIds| && newIds[buckets[b][i]] == orders[b][i]
  {
    buckets, orders := [], [];
    while |buckets| < |vvNew|
      invariant |buckets| == |orders| <= |vvNew|
      invariant forall b :: 0 <= b < |orders| ==> Lists(orders[b], vvNew[b]) && |buckets[b]| == |orders[b]| == |vvNew[b]|
      invariant forall b, i :: 0 <= b < |orders| && 0 <= i < |orders[b]| ==>
                  0 <= buckets[b][i] < |newIds| && newIds[buckets[b][i]] == orders[b][i]
    {
      var vNew := vvNew[|buckets|];
      forall id | id in vNew ensures id in mapUnkIds && 0 <= mapUnkIds[id] < |newIds| && newIds[mapUnkIds[id]] == id {
        assert id in Elements(newIds);
      }
      var bucket;
      ghost var order;
      bucket, order := WriteBucket(vNew, mapUnkIds);
      forall i | 0 <= i < |order| ensures 0 <= bucket[i] < |newIds| && newIds[bucket[i]] == order[i] {
        assert order[i] in Elements(order);
      }
      buckets, orders := buckets + [bucket], orders + [order];
    }
  }

  method Write(am: CAddrMan)
    returns (a: Archive, ghost newIds: seq<int>, ghost triedIds: seq<int>, ghost orders: seq<seq<int>>)
    requires am.Valid()
    ensures a.nNew == am.nNew && a.nTried == am.nTried && a.nUBuckets == |a.buckets| == NEW_BUCKET_COUNT
    ensures |a.entries| == a.nNew + a.nTried && forall b :: 0 <= b < |a.buckets| ==> |a.buckets[b]| == |am.vvNew[b]|
    ensures Fits(am.T(), a, newIds, triedIds, orders)
  {
    hide RandomOk, AddrOk, EntriesOk, NewOk, TriedOk, CountsOk, RefOf, SumLen, Lists, Fits, SavedOf, Referenced, InTried;
    WritingFits(am.T(), am.triedHash);
    var nUBuckets := NEW_BUCKET_COUNT;
    var newEntries, mapUnkIds, triedEntries;
    newEntries, mapUnkIds, newIds := WriteNew(am.mapInfo, am.nNew);
    triedEntries, triedIds := WriteTried(am.mapInfo, am.nTried);
    var buckets;
    ListedReferenced(am.T(), newIds);
    buckets, orders := WriteBuckets(am.vvNew, mapUnkIds, newIds);
    ListsSize(newIds, Referenced(am.mapInfo));
    ListsSize(triedIds, InTried(am.mapInfo));
    a := Archive(am.nNew, am.nTried, nUBuckets, newEntries + triedEntries, buckets);
    Assembled(am.T(), a, newIds, triedIds, orders, newEntries, triedEntries);
  }

  lemma ListedReferenced(t: Tables, newIds: seq<int>)
    requires Lists(newIds, Referenced(t.mapInfo)) && forall b :: 0 <= b < |t.vvNew| ==> t.vvNew[b] <= Referenced(t.mapInfo)
    ensures forall b :: 0 <= b < |t.vvNew| ==> t.vvNew[b] <= Elements(newIds)
  {
  }

  lemma Assembled(t: Tables, a: Archive, newIds: seq<int>, triedIds: seq<int>, orders: seq<seq<int>>, newEntries: seq<Saved>,
      triedEntries: seq<Saved>)
    requires Lists(newIds, Referenced(t.mapInfo)) && Lists(triedIds, InTried(t.mapInfo))
    requires |newEntries| == |newIds| == a.nNew && |triedEntries| == |triedIds| == a.nTried
    requires forall i :: 0 <= i < |newIds| ==> newIds[i] in t.mapInfo && newEntries[i] == SavedOf(t.mapInfo[newIds[i]])
    requires forall i :: 0 <= i < |triedIds| ==> triedIds[i] in t.mapInfo && triedEntries[i] == SavedOf(t.mapInfo[triedIds[i]])
    requires a.entries == newEntries + triedEntries && a.nUBuckets == NEW_BUCKET_COUNT == |a.buckets| == |orders| == |t.vvNew|
    requires forall b :: 0 <= b < |orders| ==> Lists(orders[b], t.vvNew[b]) && |a.buckets[b]| == |orders[b]|
    requires forall b, i :: 0 <= b < |orders| && 0 <= i < |orders[b]| ==>
               0 <= a.buckets[b][i] < |newIds| && newIds[a.buckets[b][i]] == orders[b][i]
    ensures Fits(t, a, newIds, triedIds, orders)
  {
    hide Lists, SavedOf, Referenced, InTried;
  }

  lemma WritingFits(t: Tables, bucketOf: Service -> nat)
    requires Consistent(t, bucketOf, {})
    ensures Referenced(t.mapInfo) == t.mapInfo.Keys - TriedIds(t) && InTried(t.mapInfo) == TriedIds(t)
    ensures |Referenced(t.mapInfo)| == t.nNew && |InTried(t.mapInfo)| == t.nTried
    ensures |t.vvNew| == NEW_BUCKET_COUNT && Referenced(t.mapInfo) !! InTried(t.mapInfo)
    ensures forall b :: 0 <= b < |t.vvNew| ==> t.vvNew[b] <= Referenced(t.mapInfo)
  {
    hide RandomOk, AddrOk, TriedOk, CountsOk, RefOf, SumLen;
    TriedCount(t, bucketOf);
    CountingFits(t, bucketOf);
    assert forall id :: id in Referenced(t.mapInfo) <==> id in t.mapInfo.Keys - TriedIds(t);
    forall b | 0 <= b < |t.vvNew| ensures t.vvNew[b] <= Referenced(t.mapInfo) {
      assert forall id :: id in t.vvNew[b] ==> id in t.mapInfo && id !in TriedIds(t);
    }
  }

  // ---------------------------------------------------------------- reading

  function TriedHome(e: Saved, triedHash: Service -> nat): (k: nat)
    ensures k < TRIED_BUCKET_COUNT
  {
    triedHash(e.addr.where) % TRIED_BUCKET_COUNT
  }

  function NewHome(e: Saved, newHash: (NetAddr, NetAddr) -> nat): (b: nat)
    ensures b < NEW_BUCKET_COUNT
  {
    newHash(e.addr.where.ip, e.source) % NEW_BUCKET_COUNT
  }

  /** How many of the entries hash to tried bucket k. */
  function Homed(s: seq<Saved>, triedHash: Service -> nat, k: nat): nat {
    if s == [] then 0
    else Homed(s[..|s| - 1], triedHash, k) + if TriedHome(s[|s| - 1], triedHash) == k then 1 else 0
  }

  lemma {:induction false} HomedPrefix(s: seq<Saved>, triedHash: Service -> nat, k: nat, j: nat)
    requires j <= |s|
    ensures Homed(s[..j], triedHash, k) <= Homed(s, triedHash, k)
    decreases |s|
  {
    if j < |s| {
      HomedPrefix(s[..|s| - 1], triedHash, k, j);
      assert s[..|s| - 1][..j] == s[..j];
    } else {
      assert s[..j] == s;
    }
  }

  /** Ids 0 .. |entries| - 1 for the entries, in order. */
  ghost predicate Indexed(entries: seq<Saved>, mapInfo: map<int, Info>, mapAddr: map<NetAddr, int>, vRandom: seq<int>) {
    && (forall i :: i in mapInfo <==> 0 <= i < |entries|)
    && |vRandom| == |entries| && (forall i :: 0 <= i < |vRandom| ==> vRandom[i] == i)
    && (forall i :: 0 <= i < |entries| ==> entries[i].addr.where.ip in mapAddr)
    && (forall ip :: ip in mapAddr ==> 0 <= mapAddr[ip] < |entries| && entries[mapAddr[ip]].addr.where.ip == ip)
  }

  lemma IndexedFacts(entries: seq<Saved>, mapInfo: map<int, Info>, mapAddr: map<NetAddr, int>, vRandom: seq<int>)
    requires Indexed(entries, mapInfo, mapAddr, vRandom)
    ensures |vRandom| == |entries| && forall i :: i in mapInfo <==> 0 <= i < |entries|
  {
  }

  lemma IndexedStep(entries: seq<Saved>, n: nat, mapInfo: map<int, Info>, mapAddr: map<NetAddr, int>, vRandom: seq<int>, info: Info)
    requires n < |entries| && Indexed(entries[..n], mapInfo, mapAddr, vRandom)
    ensures Indexed(entries[..n + 1], mapInfo[n := info], mapAddr[entries[n].addr.where.ip := n], vRandom + [n])
  {
    var prev, next := entries[..n], entries[..n + 1];
    var addr := mapAddr[entries[n].addr.where.ip := n];
    assert next[n] == entries[n] && forall i :: 0 <= i < n ==> next[i] == prev[i];
    forall ip | ip in addr ensures 0 <= addr[ip] <= n && next[addr[ip]].addr.where.ip == ip {
      assert ip != entries[n].addr.where.ip ==> prev[mapAddr[ip]].addr.where.ip == ip;
    }
    forall i | 0 <= i <= n ensures next[i].addr.where.ip in addr {
      assert i < n ==> prev[i].addr.where.ip in mapAddr;
    }
  }

  lemma NothingIndexed()
    ensures Indexed([], map[], map[], [])
  {
  }

  /** Every id stands in the one new bucket its entry's source hashes to. */
  ghost predicate NewPlaced(entries: seq<Saved>, newHash: (NetAddr, NetAddr) -> nat, vvNew: seq<set<int>>) {
    forall b, i :: 0 <= b < |vvNew| ==>
      (i in vvNew[b] <==> 0 <= i < |entries| && NewHome(entries[i], newHash) == b)
  }

  lemma NothingPlaced(newHash: (NetAddr, NetAddr) -> nat)
    ensures NewPlaced([], newHash, seq(NEW_BUCKET_COUNT, _ => {}))
  {
  }

  lemma NewPlacedAt(entries: seq<Saved>, newHash: (NetAddr, NetAddr) -> nat, vvNew: seq<set<int>>, b: nat, i: int)
    requires NewPlaced(entries, newHash, vvNew) && b < |vvNew|
    ensures i in vvNew[b] <==> 0 <= i < |entries| && NewHome(entries[i], newHash) == b
  {
  }

  lemma NewPlacedStep(entries: seq<Saved>, n: nat, newHash: (NetAddr, NetAddr) -> nat, vvNew: seq<set<int>>)
    requires n < |entries| && NewPlaced(entries[..n], newHash, vvNew) && |vvNew| == NEW_BUCKET_COUNT
    ensures var b := NewHome(entries[n], newHash);
            NewPlaced(entries[..n + 1], newHash, vvNew[b := vvNew[b] + {n}])
  {
    var h := NewHome(entries[n], newHash);
    var after := vvNew[h := vvNew[h] + {n}];
    forall b, i | 0 <= b < |after|
      ensures i in after[b] <==>
              (0 <= i < n + 1 && NewHome(entries[..n + 1][i], newHash) == b)
    {
      assert i in after[b] <==> i in vvNew[b] || (b == h && i == n);
      NewPlacedAt(entries[..n], newHash, vvNew, b, i);
    }
  }

  /** The new entries get the ids 0, 1, 2, ... When the number of new buckets has changed, each goes to the bucket its
      own source hashes to. */
  method ReadNew(entries: seq<Saved>, newHash: (NetAddr, NetAddr) -> nat, nUBuckets: nat)
    returns (mapInfo: map<int, Info>, mapAddr: map<NetAddr, int>, vRandom: seq<int>, vvNew: seq<set<int>>)
    ensures Indexed(entries, mapInfo, mapAddr, vRandom) && |vvNew| == NEW_BUCKET_COUNT
    ensures forall i :: 0 <= i < |entries| ==>
              i in mapInfo && mapInfo[i] == Restored(entries[i], i, false, if nUBuckets == NEW_BUCKET_COUNT then 0 else 1)
    ensures if nUBuckets == NEW_BUCKET_COUNT then forall b :: 0 <= b < |vvNew| ==> vvNew[b] == {}
            else NewPlaced(entries, newHash, vvNew)
  {
    hide NewPlaced, Indexed;
    NothingIndexed();
    assert NewPlaced([], newHash, seq(NEW_BUCKET_COUNT, _ => {})) by { NothingPlaced(newHash); }
    mapInfo, mapAddr, vRandom := map[], map[], [];
    vvNew := seq(NEW_BUCKET_COUNT, _ => {});
    var n := 0;
    while n < |entries|
      invariant n <= |entries| && Indexed(entries[..n], mapInfo, mapAddr, vRandom) && |vvNew| == NEW_BUCKET_COUNT
      invariant forall i :: 0 <= i < n ==>
                  i in mapInfo && mapInfo[i] == Restored(entries[i], i, false, if nUBuckets == NEW_BUCKET_COUNT then 0 else 1)
      invariant if nUBuckets == NEW_BUCKET_COUNT then forall b :: 0 <= b < |vvNew| ==> vvNew[b] == {}
                else NewPlaced(entries[..n], newHash, vvNew)
    {
      var e := entries[n];
      IndexedFacts(entries[..n], mapInfo, mapAddr, vRandom);
      ghost var info := Restored(e, n, false, if nUBuckets == NEW_BUCKET_COUNT then 0 else 1);
      ghost var after := mapInfo[n := info];
      IndexedStep(entries, n, mapInfo, mapAddr, vRandom, info);
      mapInfo := mapInfo[n := Restored(e, |vRandom|, false, 0)];
      mapAddr := mapAddr[e.addr.where.ip := n];
      vRandom := vRandom + [n];
      if nUBuckets != NEW_BUCKET_COUNT {
        var b := NewHome(e, newHash);
        NewPlacedStep(entries, n, newHash, vvNew);
        vvNew := vvNew[b := vvNew[b] + {n}];
        mapInfo := mapInfo[n := mapInfo[n].(nRefCount := mapInfo[n].nRefCount + 1)];
      }
      assert mapInfo == after;
      n := n + 1;
    }
    assert entries[..n] == entries;
  }

  /** Every tried entry fits the bucket it hashes to. */
  ghost predicate AllFit(entries: seq<Saved>, triedHash: Service -> nat) {
    forall k: nat :: k < TRIED_BUCKET_COUNT ==> Homed(entries, triedHash, k) <= TRIED_BUCKET_SIZE
  }

  /** Tried entries from position `from` on go to the buckets they hash to, as long as there is room; the rest is lost. */
  method ReadTried(entries: seq<Saved>, from: nat, triedHash: Service -> nat, info0: map<int, Info>, addr0: map<NetAddr, int>,
      random0: seq<int>)
    returns (mapInfo: map<int, Info>, mapAddr: map<NetAddr, int>, vRandom: seq<int>, vvTried: seq<seq<int>>, nLost: int)
    requires from <= |entries| && Indexed(entries[..from], info0, addr0, random0)
    requires forall i :: 0 <= i < from ==> i in info0
    ensures |vvTried| == TRIED_BUCKET_COUNT && SumLen(vvTried) == |entries| - from - nLost
    ensures Sized(entries[from..], triedHash, vvTried)
    ensures AllFit(entries[from..], triedHash) ==>
              && nLost == 0 && Indexed(entries, mapInfo, mapAddr, vRandom)
              && (forall i :: 0 <= i < |entries| ==> mapInfo[i] == if i < from then info0[i] else Restored(entries[i], i, true, 0))
              && TriedPlaced(entries, from, |entries|, triedHash, vvTried)
  {
    hide SumLen, Homed, Indexed, TriedPlaced;
    mapInfo, mapAddr, vRandom, nLost := info0, addr0, random0, 0;
    vvTried := seq(TRIED_BUCKET_COUNT, _ => []);
    NothingTried(vvTried);
    IndexedFacts(entries[..from], info0, addr0, random0);
    TriedStart(entries, from, triedHash);
    var nIdCount, n := from, from;
    while n < |entries|
      invariant from <= n <= |entries| && nLost >= 0 && nIdCount == n - nLost
      invariant |vvTried| == TRIED_BUCKET_COUNT && SumLen(vvTried) == n - from - nLost
      invariant Sized(entries[from..n], triedHash, vvTried)
      invariant AllFit(entries[from..], triedHash) ==> nLost == 0
      invariant AllFit(entries[from..], triedHash) ==> |vRandom| == n && Indexed(entries[..n], mapInfo, mapAddr, vRandom)
      invariant AllFit(entries[from..], triedHash) ==>
                  forall i :: 0 <= i < n ==> i in mapInfo && mapInfo[i] == if i < from then info0[i] else Restored(entries[i], i, true, 0)
      invariant AllFit(entries[from..], triedHash) ==> TriedPlaced(entries, from, n, triedHash, vvTried)
    {
      var e := entries[n];
      var k := TriedHome(e, triedHash);
      SizedStep(entries, from, n, triedHash, vvTried);
      if |vvTried[k]| < TRIED_BUCKET_SIZE {
        if AllFit(entries[from..], triedHash) {
          IndexedStep(entries, n, mapInfo, mapAddr, vRandom, Restored(e, |vRandom|, true, 0));
          TriedPlacedStep(entries, from, n, triedHash, vvTried);
        }
        SumLenUpdate(vvTried, k, vvTried[k] + [nIdCount]);
        mapInfo := mapInfo[nIdCount := Restored(e, |vRandom|, true, 0)];
        mapAddr := mapAddr[e.addr.where.ip := nIdCount];
        vRandom := vRandom + [nIdCount];
        vvTried := vvTried[k := vvTried[k] + [nIdCount]];
        nIdCount := nIdCount + 1;
      } else {
        nLost := nLost + 1;
      }
      n := n + 1;
    }
    assert entries[..n] == entries && entries[from..n] == entries[from..];
  }

  lemma TriedStart(entries: seq<Saved>, from: nat, triedHash: Service -> nat)
    requires from <= |entries|
    ensures Sized(entries[from..from], triedHash, seq(TRIED_BUCKET_COUNT, _ => []))
    ensures TriedPlaced(entries, from, from, triedHash, seq(TRIED_BUCKET_COUNT, _ => []))
  {
  }

  /** A tried bucket is as long as its share of the entries, or full. */
  ghost predicate Sized(entries: seq<Saved>, triedHash: Service -> nat, vvTried: seq<seq<int>>) {
    && |vvTried| == TRIED_BUCKET_COUNT
    && forall k :: 0 <= k < |vvTried| ==>
         var h := Homed(entries, triedHash, k); |vvTried[k]| == if h <= TRIED_BUCKET_SIZE then h else TRIED_BUCKET_SIZE
  }

  lemma SizedStep(entries: seq<Saved>, from: nat, n: nat, triedHash: Service -> nat, vvTried: seq<seq<int>>)
    requires from <= n < |entries| && Sized(entries[from..n], triedHash, vvTried)
    ensures var k := TriedHome(entries[n], triedHash);
            if |vvTried[k]| < TRIED_BUCKET_SIZE then
              forall id :: Sized(entries[from..n + 1], triedHash, vvTried[k := vvTried[k] + [id]])
            else Sized(entries[from..n + 1], triedHash, vvTried) && !AllFit(entries[from..], triedHash)
  {
    assert entries[from..n + 1][..n - from] == entries[from..n];
    assert entries[from..n + 1] == entries[from..][..n + 1 - from];
    HomedPrefix(entries[from..], triedHash, TriedHome(entries[n], triedHash), n + 1 - from);
  }

  lemma TriedPlacedAt(entries: seq<Saved>, from: int, to: int, triedHash: Service -> nat, vvTried: seq<seq<int>>, k: nat, i: int)
    requires 0 <= from <= to <= |entries| && TriedPlaced(entries, from, to, triedHash, vvTried) && k < |vvTried|
    ensures i in vvTried[k] <==> from <= i < to && TriedHome(entries[i], triedHash) == k
  {
  }

  lemma TriedPlacedStep(entries: seq<Saved>, from: nat, n: nat, triedHash: Service -> nat, vvTried: seq<seq<int>>)
    requires from <= n < |entries| && TriedPlaced(entries, from, n, triedHash, vvTried)
    requires var k := TriedHome(entries[n], triedHash); |vvTried[k]| < TRIED_BUCKET_SIZE
    ensures var k := TriedHome(entries[n], triedHash);
            TriedPlaced(entries, from, n + 1, triedHash, vvTried[k := vvTried[k] + [n]])
  {
    var h := TriedHome(entries[n], triedHash);
    var after := vvTried[h := vvTried[h] + [n]];
    forall k | 0 <= k < |after|
      ensures Distinct(after[k]) && |after[k]| <= TRIED_BUCKET_SIZE && HoldsHomed(entries, from, n + 1, triedHash, after[k], k)
    {
      HomedStep(entries, from, n, triedHash, vvTried[k], k);
      DistinctSnoc(vvTried[h], n);
    }
  }

  lemma HomedStep(entries: seq<Saved>, from: nat, n: nat, triedHash: Service -> nat, bucket: seq<int>, k: nat)
    requires from <= n < |entries| && HoldsHomed(entries, from, n, triedHash, bucket, k)
    ensures n !in bucket
    ensures HoldsHomed(entries, from, n + 1, triedHash, if TriedHome(entries[n], triedHash) == k then bucket + [n] else bucket, k)
  {
    var after := if TriedHome(entries[n], triedHash) == k then bucket + [n] else bucket;
    forall i
      ensures i in after <==> from <= i < n + 1 && TriedHome(entries[i], triedHash) == k
    {
      assert i in after <==> i in bucket || (i == n && TriedHome(entries[n], triedHash) == k);
    }
  }

  lemma DistinctSnoc(s: seq<int>, x: int)
    requires Distinct(s) && x !in s
    ensures Distinct(s + [x])
  {
  }

  /** Tried ids stand in the buckets their entries hash to. */
  ghost predicate TriedPlaced(entries: seq<Saved>, from: int, to: int, triedHash: Service -> nat, vvTried: seq<seq<int>>)
    requires 0 <= from <= to <= |entries|
  {
    && |vvTried| == TRIED_BUCKET_COUNT
    && forall k :: 0 <= k < |vvTried| ==>
         Distinct(vvTried[k]) && |vvTried[k]| <= TRIED_BUCKET_SIZE && HoldsHomed(entries, from, to, triedHash, vvTried[k], k)
  }

  ghost predicate HoldsHomed(entries: seq<Saved>, from: int, to: int, triedHash: Service -> nat, bucket: seq<int>, k: int)
    requires 0 <= from <= to <= |entries|
  {
    forall i :: i in bucket <==> from <= i < to && TriedHome(entries[i], triedHash) == k
  }

  /** Indexes that a bucket can take in without loss: known, once each, and below the reference limit. */
  predicate Plain(bucket: seq<int>, mapInfo: map<int, Info>) {
    && Distinct(bucket)
    && forall i :: 0 <= i < |bucket| ==> bucket[i] in mapInfo && mapInfo[bucket[i]].nRefCount < NEW_BUCKETS_PER_ADDRESS
  }

  /** One reference more for every member of a bucket. */
  ghost predicate ReferencedBy(bucket: seq<int>, before: map<int, Info>, after: map<int, Info>) {
    && after.Keys == before.Keys
    && forall i :: i in before ==> after[i] == before[i].(nRefCount := before[i].nRefCount + if i in bucket then 1 else 0)
  }

  /** Reads one new bucket. An index without entry gets an empty one, as a map lookup does. */
  method ReadBucket(bucket: seq<int>, fill: bool, info0: map<int, Info>, vNew0: set<int>)
    returns (mapInfo: map<int, Info>, vNew: set<int>)
    ensures !fill ==> vNew == vNew0
    ensures fill && Plain(bucket, info0) ==> vNew == vNew0 + Elements(bucket) && ReferencedBy(bucket, info0, mapInfo)
  {
    mapInfo, vNew := info0, vNew0;
    var n := 0;
    while n < |bucket|
      invariant n <= |bucket| && (!fill ==> vNew == vNew0)
      invariant fill && Plain(bucket, info0) ==> vNew == vNew0 + Elements(bucket[..n]) && ReferencedBy(bucket[..n], info0, mapInfo)
    {
      var nIndex := bucket[n];
      if nIndex !in mapInfo {
        mapInfo := mapInfo[nIndex := Info(Address(Service(0, 0), {}, 0), 0, 0, 0, 0, 0, false, -1)];
      }
      if fill && Plain(bucket, info0) {
        OneMore(bucket, n, info0, mapInfo);
      }
      if fill && mapInfo[nIndex].nRefCount < NEW_BUCKETS_PER_ADDRESS {
        mapInfo := mapInfo[nIndex := mapInfo[nIndex].(nRefCount := mapInfo[nIndex].nRefCount + 1)];
        vNew := vNew + {nIndex};
      }
      n := n + 1;
    }
    assert bucket[..n] == bucket;
  }

  lemma OneMore(bucket: seq<int>, n: nat, info0: map<int, Info>, mapInfo: map<int, Info>)
    requires n < |bucket| && Plain(bucket, info0) && ReferencedBy(bucket[..n], info0, mapInfo)
    ensures bucket[n] in mapInfo && mapInfo[bucket[n]].nRefCount < NEW_BUCKETS_PER_ADDRESS
    ensures ReferencedBy(bucket[..n + 1], info0,
              mapInfo[bucket[n] := mapInfo[bucket[n]].(nRefCount := mapInfo[bucket[n]].nRefCount + 1)])
    ensures Elements(bucket[..n + 1]) == Elements(bucket[..n]) + {bucket[n]}
  {
    assert bucket[n] !in bucket[..n];
    assert forall i :: i in bucket[..n + 1] <==> i in bucket[..n] || i == bucket[n];
    assert forall i :: i in Elements(bucket[..n + 1]) <==> i in Elements(bucket[..n]) + {bucket[n]};
  }

  function Sets(buckets: seq<seq<int>>): (r: seq<set<int>>)
    ensures |r| == |buckets| && forall b :: 0 <= b < |r| ==> r[b] == Elements(buckets[b])
  {
    seq(|buckets|, b requires 0 <= b < |buckets| => Elements(buckets[b]))
  }

  /** The stored buckets give every known index at most four places, and no other index any. */
  ghost predicate Placeable(buckets: seq<seq<int>>, mapInfo: map<int, Info>) {
    && (forall b :: 0 <= b < |buckets| ==> Distinct(buckets[b]) && forall i :: i in buckets[b] ==> i in mapInfo)
    && (forall i :: i in mapInfo ==> mapInfo[i].nRefCount == 0 && RefOf(Sets(buckets), i) <= NEW_BUCKETS_PER_ADDRESS)
  }

  /** Every entry with the references the first n buckets give it. */
  ghost predicate CountedFrom(buckets: seq<seq<int>>, n: nat, before: map<int, Info>, after: map<int, Info>)
    requires n <= |buckets|
  {
    && after.Keys == before.Keys
    && forall i :: i in before ==> after[i] == before[i].(nRefCount := RefOf(Sets(buckets)[..n], i))
  }

  method ReadBuckets(buckets: seq<seq<int>>, nUBuckets: nat, info0: map<int, Info>, vvNew0: seq<set<int>>)
    returns (mapInfo: map<int, Info>, vvNew: seq<set<int>>)
    requires nUBuckets == |buckets| <= |vvNew0| == NEW_BUCKET_COUNT
    ensures nUBuckets != NEW_BUCKET_COUNT ==> vvNew == vvNew0
    ensures nUBuckets == NEW_BUCKET_COUNT && (forall b :: 0 <= b < |vvNew0| ==> vvNew0[b] == {}) && Placeable(buckets, info0) ==>
              vvNew == Sets(buckets) && CountedFrom(buckets, |buckets|, info0, mapInfo)
  {
    hide RefOf, Placeable, CountedFrom, Plain;
    mapInfo, vvNew := info0, vvNew0;
    ghost var good := nUBuckets == NEW_BUCKET_COUNT && (forall b :: 0 <= b < |vvNew0| ==> vvNew0[b] == {}) && Placeable(buckets, info0);
    if good {
      NothingCounted(buckets, info0);
    }
    var b := 0;
    while b < nUBuckets
      invariant b <= nUBuckets && |vvNew| == |vvNew0|
      invariant nUBuckets != NEW_BUCKET_COUNT ==> vvNew == vvNew0
      invariant forall c :: b <= c < |vvNew| ==> vvNew[c] == vvNew0[c]
      invariant good ==> CountedFrom(buckets, b, info0, mapInfo)
      invariant good ==> forall c :: 0 <= c < b ==> vvNew[c] == Elements(buckets[c])
    {
      ghost var before := mapInfo;
      if good {
        NextIsPlain(buckets, b, info0, before);
      }
      var vNew;
      mapInfo, vNew := ReadBucket(buckets[b], nUBuckets == NEW_BUCKET_COUNT, mapInfo, vvNew[b]);
      if good {
        NextCounted(buckets, b, info0, before, mapInfo);
      }
      vvNew := vvNew[b := vNew];
      b := b + 1;
    }
  }

  lemma NothingCounted(buckets: seq<seq<int>>, info0: map<int, Info>)
    requires Placeable(buckets, info0)
    ensures CountedFrom(buckets, 0, info0, info0)
  {
  }

  lemma {:induction false} RefOfPrefix(vv: seq<set<int>>, n: nat, id: int)
    requires n <= |vv|
    ensures RefOf(vv[..n], id) <= RefOf(vv, id)
    ensures n < |vv| ==> RefOf(vv[..n + 1], id) == RefOf(vv[..n], id) + if id in vv[n] then 1 else 0
  {
    LeftSteps(vv, n, id);
    if n < |vv| {
      assert vv[..n + 1][..n] == vv[..n];
    }
  }

  lemma NextIsPlain(buckets: seq<seq<int>>, b: nat, info0: map<int, Info>, mapInfo: map<int, Info>)
    requires b < |buckets| && Placeable(buckets, info0) && CountedFrom(buckets, b, info0, mapInfo)
    ensures Plain(buckets[b], mapInfo)
  {
    hide RefOf;
    forall i | 0 <= i < |buckets[b]|
      ensures buckets[b][i] in mapInfo && mapInfo[buckets[b][i]].nRefCount < NEW_BUCKETS_PER_ADDRESS
    {
      var x := buckets[b][i];
      assert x in buckets[b];
      RefOfPrefix(Sets(buckets), b, x);
      RefOfPrefix(Sets(buckets), b + 1, x);
    }
  }

  lemma NextCounted(buckets: seq<seq<int>>, b: nat, info0: map<int, Info>, before: map<int, Info>, after: map<int, Info>)
    requires b < |buckets| && CountedFrom(buckets, b, info0, before) && ReferencedBy(buckets[b], before, after)
    ensures CountedFrom(buckets, b + 1, info0, after)
  {
    hide RefOf;
    forall i | i in info0
      ensures after[i] == info0[i].(nRefCount := RefOf(Sets(buckets)[..b + 1], i))
    {
      RefOfPrefix(Sets(buckets), b, i);
    }
  }

  // ---------------------------------------------------------------- what comes back

  /** The facts about an entry that survive storage. */
  predicate Kept(before: Info, after: Info) {
    && after.addr == before.addr && after.source == before.source
    && after.nLastSuccess == before.nLastSuccess && after.nAttempts == before.nAttempts && after.nLastTry == 0
    && after.nRefCount == before.nRefCount && after.fInTried == before.fInTried
  }

  /** Id p of r stands for id ids[p] of t: same entries, same new buckets, same tried buckets up to order. */
  ghost predicate Isomorphic(t: Tables, r: Tables, ids: seq<int>) {
    && Lists(ids, t.mapInfo.Keys) && (forall p :: p in r.mapInfo <==> 0 <= p < |ids|)
    && (forall p :: 0 <= p < |ids| ==> ids[p] in t.mapInfo && Kept(t.mapInfo[ids[p]], r.mapInfo[p]))
    && |r.vvNew| == |t.vvNew| && |r.vvTried| == |t.vvTried| && r.nNew == t.nNew && r.nTried == t.nTried
    && (forall b, p :: 0 <= b < |r.vvNew| && 0 <= p < |ids| ==> (p in r.vvNew[b] <==> ids[p] in t.vvNew[b]))
    && (forall k, p :: 0 <= k < |r.vvTried| && 0 <= p < |ids| ==> (p in r.vvTried[k] <==> ids[p] in t.vvTried[k]))
    && (forall b :: 0 <= b < |r.vvNew| ==> |r.vvNew[b]| == |t.vvNew[b]|)
    && (forall k :: 0 <= k < |r.vvTried| ==> |r.vvTried[k]| == |t.vvTried[k]|)
  }

  /** The entries of an archive of t, in terms of the ids of t. */
  ghost predicate Stored(t: Tables, entries: seq<Saved>, nNew: nat, ids: seq<int>) {
    && nNew <= |ids| == |entries| && Lists(ids, t.mapInfo.Keys)
    && forall p :: 0 <= p < |ids| ==>
         ids[p] in t.mapInfo && entries[p] == SavedOf(t.mapInfo[ids[p]]) && (t.mapInfo[ids[p]].fInTried <==> p >= nNew)
  }

  /** The stored buckets of t. */
  ghost predicate StoredBuckets(t: Tables, buckets: seq<seq<int>>, ids: seq<int>) {
    && |buckets| == NEW_BUCKET_COUNT == |t.vvNew|
    && (forall b :: 0 <= b < |buckets| ==> Distinct(buckets[b]) && |buckets[b]| == |t.vvNew[b]|)
    && (forall b, p :: 0 <= b < |buckets| ==> (p in buckets[b] <==> 0 <= p < |ids| && ids[p] in t.vvNew[b]))
  }

  lemma FitsStored(t: Tables, a: Archive, newIds: seq<int>, triedIds: seq<int>, orders: seq<seq<int>>, bucketOf: Service -> nat)
    requires Consistent(t, bucketOf, {}) && Fits(t, a, newIds, triedIds, orders)
    ensures Stored(t, a.entries, a.nNew, newIds + triedIds)
  {
    hide RandomOk, AddrOk, EntriesOk, NewOk, TriedOk, CountsOk, RefOf, SumLen;
    WritingFits(t, bucketOf);
    StoredFromLists(t, a.entries, newIds, triedIds);
  }

  lemma StoredFromLists(t: Tables, entries: seq<Saved>, newIds: seq<int>, triedIds: seq<int>)
    requires Lists(newIds, Referenced(t.mapInfo)) && Lists(triedIds, InTried(t.mapInfo))
    requires Referenced(t.mapInfo) == t.mapInfo.Keys - InTried(t.mapInfo) && |entries| == |newIds| + |triedIds|
    requires forall i :: 0 <= i < |newIds| ==> newIds[i] in t.mapInfo && entries[i] == SavedOf(t.mapInfo[newIds[i]])
    requires forall i :: 0 <= i < |triedIds| ==> triedIds[i] in t.mapInfo && entries[|newIds| + i] == SavedOf(t.mapInfo[triedIds[i]])
    ensures Stored(t, entries, |newIds|, newIds + triedIds)
  {
    hide Lists, SavedOf;
    JoinLists(newIds, Referenced(t.mapInfo), triedIds, InTried(t.mapInfo));
    assert Referenced(t.mapInfo) + InTried(t.mapInfo) == t.mapInfo.Keys;
    ListMembers(newIds, Referenced(t.mapInfo));
    ListMembers(triedIds, InTried(t.mapInfo));
    var ids := newIds + triedIds;
    forall p | 0 <= p < |ids|
      ensures ids[p] in t.mapInfo && entries[p] == SavedOf(t.mapInfo[ids[p]]) && (t.mapInfo[ids[p]].fInTried <==> p >= |newIds|)
    {
      assert ids[p] == if p < |newIds| then newIds[p] else triedIds[p - |newIds|];
      assert p >= |newIds| ==> entries[p] == entries[|newIds| + (p - |newIds|)];
    }
  }

  lemma ListMembers(s: seq<int>, all: set<int>)
    requires Lists(s, all)
    ensures forall i :: 0 <= i < |s| ==> s[i] in all
  {
  }

  lemma JoinLists(s: seq<int>, a: set<int>, r: seq<int>, b: set<int>)
    requires Lists(s, a) && Lists(r, b) && a !! b
    ensures Lists(s + r, a + b)
  {
    forall i, j | 0 <= i < j < |s + r| ensures (s + r)[i] != (s + r)[j] {
      assert i < |s| ==> s[i] in Elements(s);
      assert j >= |s| ==> r[j - |s|] in Elements(r);
    }
    forall id ensures id in Elements(s + r) <==> id in a + b {
      assert id in Elements(s) <==> id in s;
      assert id in Elements(r) <==> id in r;
    }
  }

  lemma FitsStoredBuckets(t: Tables, a: Archive, newIds: seq<int>, triedIds: seq<int>, orders: seq<seq<int>>, bucketOf: Service -> nat)
    requires Consistent(t, bucketOf, {}) && Fits(t, a, newIds, triedIds, orders)
    ensures StoredBuckets(t, a.buckets, newIds + triedIds)
  {
    hide RandomOk, AddrOk, EntriesOk, NewOk, TriedOk, CountsOk, RefOf, SumLen;
    WritingFits(t, bucketOf);
    var ids := newIds + triedIds;
    forall b | 0 <= b < |a.buckets|
      ensures Distinct(a.buckets[b]) && |a.buckets[b]| == |t.vvNew[b]|
    {
      ListsSize(orders[b], t.vvNew[b]);
      forall i, j | 0 <= i < j < |a.buckets[b]| ensures a.buckets[b][i] != a.buckets[b][j] {
        assert orders[b][i] != orders[b][j];
      }
    }
    forall b, p | 0 <= b < |a.buckets|
      ensures p in a.buckets[b] <==> 0 <= p < |ids| && ids[p] in t.vvNew[b]
    {
      StoredMember(t, a, newIds, triedIds, orders, b, p);
    }
  }

  lemma StoredMember(t: Tables, a: Archive, newIds: seq<int>, triedIds: seq<int>, orders: seq<seq<int>>, b: nat, p: int)
    requires Fits(t, a, newIds, triedIds, orders) && b < |a.buckets| && t.vvNew[b] <= Referenced(t.mapInfo)
    requires Referenced(t.mapInfo) !! InTried(t.mapInfo)
    ensures p in a.buckets[b] <==> 0 <= p < |newIds + triedIds| && (newIds + triedIds)[p] in t.vvNew[b]
  {
  }

  /** The ids among a list of tried ones whose entries hash to bucket k, in order. */
  lemma {:induction false} HomedIds(t: Tables, entries: seq<Saved>, ids: seq<int>, triedHash: Service -> nat, k: nat) returns (at: seq<int>)
    requires |entries| == |ids| && Distinct(ids)
    requires forall p :: 0 <= p < |ids| ==> ids[p] in t.mapInfo && entries[p] == SavedOf(t.mapInfo[ids[p]])
    ensures |at| == Homed(entries, triedHash, k) && Distinct(at)
    ensures forall id :: id in at <==> id in ids && id in t.mapInfo && triedHash(t.mapInfo[id].addr.where) % TRIED_BUCKET_COUNT == k
  {
    if ids == [] {
      at := [];
    } else {
      var last := |ids| - 1;
      at := HomedIds(t, entries[..last], ids[..last], triedHash, k);
      assert ids[last] !in ids[..last];
      assert forall id :: id in ids <==> id in ids[..last] || id == ids[last];
      if TriedHome(entries[last], triedHash) == k {
        at := at + [ids[last]];
      }
    }
  }

  /** Each tried bucket of t holds exactly the entries that hash to it, so they all fit again. */
  lemma TriedFit(t: Tables, entries: seq<Saved>, nNew: nat, ids: seq<int>, triedHash: Service -> nat)
    requires TriedOk(t, triedHash) && Stored(t, entries, nNew, ids)
    ensures AllFit(entries[nNew..], triedHash)
    ensures forall k: nat :: k < TRIED_BUCKET_COUNT ==> Homed(entries[nNew..], triedHash, k) == |t.vvTried[k]|
  {
    hide SumLen, Homed;
    forall k: nat | k < TRIED_BUCKET_COUNT
      ensures Homed(entries[nNew..], triedHash, k) == |t.vvTried[k]| <= TRIED_BUCKET_SIZE
    {
      var at := HomedIds(t, entries[nNew..], ids[nNew..], triedHash, k);
      forall id ensures id in at <==> id in t.vvTried[k] {
        TriedMember(t, nNew, ids, triedHash, k, id);
        assert id in ids[nNew..] <==> exists p :: nNew <= p < |ids| && ids[p] == id;
      }
      SameLength(at, t.vvTried[k]);
    }
  }

  lemma SameLength(s: seq<int>, r: seq<int>)
    requires Distinct(s) && Distinct(r) && forall id :: id in s <==> id in r
    ensures |s| == |r|
  {
    ListsSize(s, Elements(s));
    ListsSize(r, Elements(r));
    assert forall id :: id in Elements(s) <==> id in Elements(r);
    assert Elements(s) == Elements(r);
  }

  lemma TriedMember(t: Tables, nNew: nat, ids: seq<int>, triedHash: Service -> nat, k: nat, id: int)
    requires TriedOk(t, triedHash) && k < TRIED_BUCKET_COUNT && nNew <= |ids| && Lists(ids, t.mapInfo.Keys)
    requires forall p :: 0 <= p < |ids| ==> ids[p] in t.mapInfo && (t.mapInfo[ids[p]].fInTried <==> p >= nNew)
    ensures id in t.vvTried[k] <==>
              (id in t.mapInfo && (exists p :: nNew <= p < |ids| && ids[p] == id)
                && triedHash(t.mapInfo[id].addr.where) % TRIED_BUCKET_COUNT == k)
  {
  }

  lemma {:induction false} RefOfSame(vv: seq<set<int>>, x: int, ww: seq<set<int>>, y: int)
    requires |vv| == |ww| && forall b :: 0 <= b < |vv| ==> (x in vv[b] <==> y in ww[b])
    ensures RefOf(vv, x) == RefOf(ww, y)
  {
    if vv != [] {
      var last := |vv| - 1;
      RefOfSame(vv[..last], x, ww[..last], y);
    }
  }

  /** The stored buckets give every entry the references it had. */
  lemma SameReferences(t: Tables, buckets: seq<seq<int>>, ids: seq<int>, p: nat, triedHash: Service -> nat)
    requires Consistent(t, triedHash, {}) && StoredBuckets(t, buckets, ids) && p < |ids| && ids[p] in t.mapInfo
    ensures RefOf(Sets(buckets), p) == RefOf(t.vvNew, ids[p]) == t.mapInfo[ids[p]].nRefCount <= NEW_BUCKETS_PER_ADDRESS
  {
    hide RandomOk, AddrOk, TriedOk, CountsOk, RefOf;
    RefOfSame(Sets(buckets), p, t.vvNew, ids[p]);
    RefOfMember(t.vvNew, ids[p]);
  }

  lemma BucketsPlaceable(t: Tables, buckets: seq<seq<int>>, ids: seq<int>, mapInfo: map<int, Info>, triedHash: Service -> nat)
    requires Consistent(t, triedHash, {}) && StoredBuckets(t, buckets, ids)
    requires forall p :: 0 <= p < |ids| ==> ids[p] in t.mapInfo
    requires forall p :: p in mapInfo <==> 0 <= p < |ids|
    requires forall p :: p in mapInfo ==> mapInfo[p].nRefCount == 0
    ensures Placeable(buckets, mapInfo)
  {
    hide Consistent, RefOf;
    forall p | p in mapInfo ensures RefOf(Sets(buckets), p) <= NEW_BUCKETS_PER_ADDRESS {
      SameReferences(t, buckets, ids, p, triedHash);
    }
    forall b, p | 0 <= b < |buckets| && p in buckets[b] ensures p in mapInfo {
      StoredAt(t, buckets, ids, b, p);
    }
  }

  lemma StoredAt(t: Tables, buckets: seq<seq<int>>, ids: seq<int>, b: nat, p: int)
    requires StoredBuckets(t, buckets, ids) && b < |buckets|
    ensures p in buckets[b] <==> 0 <= p < |ids| && ids[p] in t.vvNew[b]
  {
  }

  /** The entries read back: what was stored, at their places, counted from the buckets. */
  ghost predicate ReadBack(entries: seq<Saved>, nNew: nat, buckets: seq<seq<int>>, r: Tables) {
    && Indexed(entries, r.mapInfo, r.mapAddr, r.vRandom) && nNew <= |entries|
    && (forall p :: 0 <= p < |entries| ==> r.mapInfo[p] == Restored(entries[p], p, p >= nNew, RefOf(Sets(buckets), p)))
    && r.nIdCount == |entries| && r.nNew == nNew && r.nTried == |entries| - nNew && r.vvNew == Sets(buckets)
  }

  lemma ReadBackAddrOk(t: Tables, entries: seq<Saved>, nNew: nat, ids: seq<int>, buckets: seq<seq<int>>, r: Tables)
    requires AddrOk(t) && Stored(t, entries, nNew, ids) && ReadBack(entries, nNew, buckets, r)
    ensures RandomOk(r) && AddrOk(r)
  {
    hide RefOf, Sets;
    DistinctIps(t, entries, nNew, ids);
  }

  lemma DistinctIps(t: Tables, entries: seq<Saved>, nNew: nat, ids: seq<int>)
    requires AddrOk(t) && Stored(t, entries, nNew, ids)
    ensures forall p, q :: 0 <= p < |entries| && 0 <= q < |entries| && entries[p].addr.where.ip == entries[q].addr.where.ip ==> p == q
  {
  }

  lemma ReadBackEntriesOk(t: Tables, entries: seq<Saved>, nNew: nat, ids: seq<int>, buckets: seq<seq<int>>, r: Tables,
      triedHash: Service -> nat)
    requires Consistent(t, triedHash, {}) && Stored(t, entries, nNew, ids) && StoredBuckets(t, buckets, ids)
    requires ReadBack(entries, nNew, buckets, r)
    ensures EntriesOk(r) && forall p :: 0 <= p < |ids| ==> Kept(t.mapInfo[ids[p]], r.mapInfo[p])
  {
    hide Consistent, RefOf, Sets;
    forall p | 0 <= p < |ids|
      ensures EntryOk(r.mapInfo[p]) && Kept(t.mapInfo[ids[p]], r.mapInfo[p])
    {
      EntryOkAt(t, triedHash, ids[p]);
      SameReferences(t, buckets, ids, p, triedHash);
    }
  }

  lemma ReadBackNewOk(t: Tables, entries: seq<Saved>, nNew: nat, ids: seq<int>, buckets: seq<seq<int>>, r: Tables)
    requires NewOk(t, {}) && Stored(t, entries, nNew, ids) && StoredBuckets(t, buckets, ids) && ReadBack(entries, nNew, buckets, r)
    ensures NewOk(r, {}) && forall b :: 0 <= b < |r.vvNew| ==> |r.vvNew[b]| == |t.vvNew[b]|
  {
    hide RefOf, Lists, SavedOf;
    SameSizes(t, buckets, ids);
    forall b, p | 0 <= b < |r.vvNew| && p in r.vvNew[b]
      ensures p in r.mapInfo && !r.mapInfo[p].fInTried
    {
      NotTriedThere(t, entries, nNew, ids, buckets, b, p);
    }
  }

  lemma SameSizes(t: Tables, buckets: seq<seq<int>>, ids: seq<int>)
    requires NewOk(t, {}) && StoredBuckets(t, buckets, ids)
    ensures forall b :: 0 <= b < |buckets| ==> |Sets(buckets)[b]| == |t.vvNew[b]| <= NEW_BUCKET_SIZE
  {
    hide RefOf;
    forall b | 0 <= b < |buckets| ensures |Sets(buckets)[b]| == |t.vvNew[b]| {
      ListsSize(buckets[b], Elements(buckets[b]));
    }
  }

  lemma NotTriedThere(t: Tables, entries: seq<Saved>, nNew: nat, ids: seq<int>, buckets: seq<seq<int>>, b: nat, p: int)
    requires NewOk(t, {}) && Stored(t, entries, nNew, ids) && StoredBuckets(t, buckets, ids)
    requires b < |buckets| && p in Sets(buckets)[b]
    ensures 0 <= p < nNew
  {
    hide RefOf;
    assert p in buckets[b];
    StoredAt(t, buckets, ids, b, p);
    assert ids[p] in t.mapInfo && !t.mapInfo[ids[p]].fInTried;
  }

  lemma ReadBackTriedOk(t: Tables, entries: seq<Saved>, nNew: nat, ids: seq<int>, buckets: seq<seq<int>>, r: Tables,
      triedHash: Service -> nat)
    requires TriedOk(t, triedHash) && Stored(t, entries, nNew, ids) && ReadBack(entries, nNew, buckets, r)
    requires TriedPlaced(entries, nNew, |entries|, triedHash, r.vvTried)
    ensures TriedOk(r, triedHash)
  {
    hide RefOf, Sets;
    forall k, i | 0 <= k < |r.vvTried| && 0 <= i < |r.vvTried[k]|
      ensures var p := r.vvTried[k][i]; p in r.mapInfo && r.mapInfo[p].fInTried && TriedHome(entries[p], triedHash) == k
    {
      TriedPlacedAt(entries, nNew, |entries|, triedHash, r.vvTried, k, r.vvTried[k][i]);
    }
    forall p | p in r.mapInfo && r.mapInfo[p].fInTried
      ensures p in r.vvTried[triedHash(r.mapInfo[p].addr.where) % TRIED_BUCKET_COUNT]
    {
      TriedPlacedAt(entries, nNew, |entries|, triedHash, r.vvTried, TriedHome(entries[p], triedHash), p);
    }
  }

  lemma SameTried(t: Tables, entries: seq<Saved>, nNew: nat, ids: seq<int>, vvTried: seq<seq<int>>, triedHash: Service -> nat)
    requires TriedOk(t, triedHash) && Stored(t, entries, nNew, ids)
    requires TriedPlaced(entries, nNew, |entries|, triedHash, vvTried)
    ensures forall k, p :: 0 <= k < |vvTried| && 0 <= p < |ids| ==> (p in vvTried[k] <==> ids[p] in t.vvTried[k])
  {
  }

  /** What was read back is consistent and isomorphic to what was written. */
  lemma ReadBackIsomorphic(t: Tables, entries: seq<Saved>, nNew: nat, ids: seq<int>, buckets: seq<seq<int>>, r: Tables,
      triedHash: Service -> nat)
    requires Consistent(t, triedHash, {}) && Stored(t, entries, nNew, ids) && StoredBuckets(t, buckets, ids)
    requires ReadBack(entries, nNew, buckets, r) && nNew == t.nNew && |entries| - nNew == t.nTried
    requires TriedPlaced(entries, nNew, |entries|, triedHash, r.vvTried) && SumLen(r.vvTried) == |entries| - nNew
    requires Sized(entries[nNew..], triedHash, r.vvTried)
    ensures Consistent(r, triedHash, {}) && Isomorphic(t, r, ids)
  {
    hide RandomOk, AddrOk, EntriesOk, NewOk, TriedOk, SumLen, RefOf, Homed, Sets, TriedPlaced;
    ReadBackAddrOk(t, entries, nNew, ids, buckets, r);
    ReadBackEntriesOk(t, entries, nNew, ids, buckets, r, triedHash);
    ReadBackNewOk(t, entries, nNew, ids, buckets, r);
    ReadBackTriedOk(t, entries, nNew, ids, buckets, r, triedHash);
    ReadBackSame(t, entries, nNew, ids, buckets, r, triedHash);
  }

  lemma ReadBackSame(t: Tables, entries: seq<Saved>, nNew: nat, ids: seq<int>, buckets: seq<seq<int>>, r: Tables,
      triedHash: Service -> nat)
    requires TriedOk(t, triedHash) && Stored(t, entries, nNew, ids) && StoredBuckets(t, buckets, ids)
    requires r.vvNew == Sets(buckets) && TriedPlaced(entries, nNew, |entries|, triedHash, r.vvTried)
    requires Sized(entries[nNew..], triedHash, r.vvTried)
    ensures |r.vvTried| == |t.vvTried| && |r.vvNew| == |t.vvNew|
    ensures forall k :: 0 <= k < |r.vvTried| ==> |r.vvTried[k]| == |t.vvTried[k]|
    ensures forall b, p :: 0 <= b < |r.vvNew| && 0 <= p < |ids| ==> (p in r.vvNew[b] <==> ids[p] in t.vvNew[b])
    ensures forall k, p :: 0 <= k < |r.vvTried| && 0 <= p < |ids| ==> (p in r.vvTried[k] <==> ids[p] in t.vvTried[k])
  {
    hide TriedOk, TriedPlaced, Homed;
    SameTried(t, entries, nNew, ids, r.vvTried, triedHash);
    TriedFit(t, entries, nNew, ids, triedHash);
    TriedSized(t, triedHash);
    forall b, p | 0 <= b < |r.vvNew| && 0 <= p < |ids| ensures p in r.vvNew[b] <==> ids[p] in t.vvNew[b] {
      StoredAt(t, buckets, ids, b, p);
    }
  }

  lemma FitsSizes(t: Tables, a: Archive, newIds: seq<int>, triedIds: seq<int>, orders: seq<seq<int>>, triedHash: Service -> nat)
    requires Consistent(t, triedHash, {}) && Fits(t, a, newIds, triedIds, orders)
    ensures |a.entries| == a.nNew + a.nTried && a.nUBuckets == |a.buckets| == NEW_BUCKET_COUNT
    ensures a.nNew == t.nNew && a.nTried == t.nTried
    ensures Stored(t, a.entries, a.nNew, newIds + triedIds) && StoredBuckets(t, a.buckets, newIds + triedIds)
    ensures AllFit(a.entries[a.nNew..], triedHash)
  {
    hide RandomOk, AddrOk, EntriesOk, NewOk, TriedOk, CountsOk, SumLen, RefOf, Homed, Stored, StoredBuckets, AllFit;
    WritingFits(t, triedHash);
    ListsSize(newIds, Referenced(t.mapInfo));
    ListsSize(triedIds, InTried(t.mapInfo));
    FitsStored(t, a, newIds, triedIds, orders, triedHash);
    FitsStoredBuckets(t, a, newIds, triedIds, orders, triedHash);
    TriedFit(t, a.entries, a.nNew, newIds + triedIds, triedHash);
  }

  /** The entries as the bucket lists find them. */
  ghost predicate Uncounted(entries: seq<Saved>, nNew: nat, mapInfo: map<int, Info>) {
    && (forall i :: i in mapInfo <==> 0 <= i < |entries|)
    && forall i :: 0 <= i < |entries| ==> mapInfo[i] == Restored(entries[i], i, i >= nNew, 0)
  }

  lemma UncountedFrom(entries: seq<Saved>, nNew: nat, info0: map<int, Info>, mapInfo: map<int, Info>, mapAddr: map<NetAddr, int>,
      vRandom: seq<int>)
    requires nNew <= |entries| && (forall i :: 0 <= i < nNew ==> i in info0 && info0[i] == Restored(entries[..nNew][i], i, false, 0))
    requires Indexed(entries, mapInfo, mapAddr, vRandom)
    requires forall i :: 0 <= i < |entries| ==> mapInfo[i] == if i < nNew then info0[i] else Restored(entries[i], i, true, 0)
    ensures Uncounted(entries, nNew, mapInfo)
  {
  }

  lemma ReadingFits(t: Tables, entries: seq<Saved>, nNew: nat, ids: seq<int>, buckets: seq<seq<int>>, mapInfo: map<int, Info>,
      triedHash: Service -> nat)
    requires Consistent(t, triedHash, {}) && Stored(t, entries, nNew, ids) && StoredBuckets(t, buckets, ids)
    requires Uncounted(entries, nNew, mapInfo)
    ensures Placeable(buckets, mapInfo)
  {
    hide Consistent, RefOf, StoredBuckets, Placeable;
    BucketsPlaceable(t, buckets, ids, mapInfo, triedHash);
  }

  lemma Reassembled(entries: seq<Saved>, nNew: nat, buckets: seq<seq<int>>, info1: map<int, Info>, r: Tables)
    requires Uncounted(entries, nNew, info1) && CountedFrom(buckets, |buckets|, info1, r.mapInfo) && nNew <= |entries|
    requires Indexed(entries, info1, r.mapAddr, r.vRandom)
    requires r.nIdCount == |entries| && r.nNew == nNew && r.nTried == |entries| - nNew && r.vvNew == Sets(buckets)
    ensures ReadBack(entries, nNew, buckets, r)
  {
    hide RefOf, Sets;
    assert Sets(buckets)[..|buckets|] == Sets(buckets);
  }

  /** Reads an archive into a new manager with the stored key. It fails where the original runs off the end of the
      stream or of its array of new buckets. For any consistent manager that wrote the archive, the result is consistent
      and isomorphic to it: no entry is lost, tried ones included. */
  method Read(a: Archive, triedHash: Service -> nat, newHash: (NetAddr, NetAddr) -> nat,
      ghost t: Tables, ghost newIds: seq<int>, ghost triedIds: seq<int>, ghost orders: seq<seq<int>>)
    returns (ok: bool, am: CAddrMan)
    ensures ok <==> |a.entries| >= a.nNew + a.nTried && a.nUBuckets <= |a.buckets| && a.nUBuckets <= NEW_BUCKET_COUNT
    ensures fresh(am) && am.triedHash == triedHash && am.newHash == newHash
    ensures Consistent(t, triedHash, {}) && Fits(t, a, newIds, triedIds, orders) ==>
              ok && am.Valid() && Isomorphic(t, am.T(), newIds + triedIds)
  {
    hide Consistent, Fits, Isomorphic, AllFit, Placeable, CountedFrom, TriedPlaced, Stored, StoredBuckets, Sized, Sets, SumLen, RefOf, Homed, Uncounted, Indexed, ReadBack,
      Restored, NewPlaced;
    am := new CAddrMan(triedHash, newHash);
    ghost var known := Consistent(t, triedHash, {}) && Fits(t, a, newIds, triedIds, orders);
    if known {
      FitsSizes(t, a, newIds, triedIds, orders, triedHash);
    }
    if |a.entries| < a.nNew + a.nTried || a.nUBuckets > |a.buckets| || a.nUBuckets > NEW_BUCKET_COUNT {
      return false, am;
    }
    ok := true;
    var entries := a.entries[..a.nNew + a.nTried];
    var buckets := a.buckets[..a.nUBuckets];
    var mapInfo, mapAddr, vRandom, vvTried, vvNew, nLost;
    mapInfo, mapAddr, vRandom, vvNew := ReadNew(entries[..a.nNew], newHash, a.nUBuckets);
    ghost var info0 := mapInfo;
    IndexedFacts(entries[..a.nNew], mapInfo, mapAddr, vRandom);
    mapInfo, mapAddr, vRandom, vvTried, nLost := ReadTried(entries, a.nNew, triedHash, mapInfo, mapAddr, vRandom);
    am.nNew, am.nTried, am.nIdCount := a.nNew, a.nTried - nLost, a.nNew + a.nTried - nLost;
    ghost var info1 := mapInfo;
    if known {
      assert entries == a.entries && buckets == a.buckets;
      UncountedFrom(entries, a.nNew, info0, mapInfo, mapAddr, vRandom);
      ReadingFits(t, entries, a.nNew, newIds + triedIds, buckets, mapInfo, triedHash);
    }
    mapInfo, vvNew := ReadBuckets(buckets, a.nUBuckets, mapInfo, vvNew);
    am.mapInfo, am.mapAddr, am.vRandom, am.vvTried, am.vvNew := mapInfo, mapAddr, vRandom, vvTried, vvNew;
    if known {
      Reassembled(entries, a.nNew, buckets, info1, am.T());
      ReadBackIsomorphic(t, entries, a.nNew, newIds + triedIds, buckets, am.T(), triedHash);
    }
  }
}

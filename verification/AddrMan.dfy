/** CAddrMan: six redundant structures over one set of addresses -- a table by id, an index by address, a
    randomly ordered vector, "tried" and "new" buckets, and two counters -- kept in agreement by every operation,
    whatever the random choices. */
module AddrMan {
  import Common

  const TRIED_BUCKET_COUNT := 64
  const TRIED_BUCKET_SIZE := 64
  const NEW_BUCKET_COUNT := 256
  const NEW_BUCKET_SIZE := 64
  const NEW_BUCKETS_PER_ADDRESS := 4
  const TRIED_ENTRIES_INSPECT_ON_EVICT := 4
  const HORIZON_DAYS := 30
  const RETRIES := 3
  const MAX_FAILURES := 10
  const MIN_FAIL_DAYS := 7
  const GETADDR_MAX_PCT := 23
  const GETADDR_MAX := 2500

  /** CNetAddr, by name. */
  type NetAddr = nat

  /** CService: a network address with a port. */
  datatype Service = Service(ip: NetAddr, port: nat)

  type UInt32 = n: int | 0 <= n < 0x1_0000_0000

  /** CAddress: a service with the set of its service bits and its last-seen time. */
  datatype Address = Address(where: Service, nServices: set<nat>, nTime: UInt32)

  datatype Info = Info(
    addr: Address,
    source: NetAddr,
    nLastSuccess: int,
    nLastTry: int,
    nAttempts: int,
    nRefCount: int,
    fInTried: bool,
    nRandomPos: int)
  {
    predicate IsTerrible(now: int) {
      if nLastTry != 0 && nLastTry >= now - 60 then false
      else
        || addr.nTime > now + 10 * 60
        || addr.nTime == 0 || now - addr.nTime > HORIZON_DAYS * 86400
        || (nLastSuccess == 0 && nAttempts >= RETRIES)
        || (now - nLastSuccess > MIN_FAIL_DAYS * 86400 && nAttempts >= MAX_FAILURES)
    }
  }

  /** An entry tried within the last minute is never terrible. Any other is if its time lies more than ten minutes ahead, if
      it has none or one over thirty days old, if three attempts never succeeded, or if ten did not within a week. */
  lemma TerribleMeans(info: Info, now: int)
    ensures info.IsTerrible(now) <==>
            && (info.nLastTry == 0 || now - info.nLastTry > 60)
            && (|| info.addr.nTime - now > 600 || info.addr.nTime == 0 || now - info.addr.nTime > 2592000
                || (info.nLastSuccess == 0 && info.nAttempts >= 3)
                || (now - info.nLastSuccess > 604800 && info.nAttempts >= 10))
  {
  }

  // ---------------------------------------------------------------- counting

  /** In how many buckets an id occurs. */
  function RefOf(vv: seq<set<int>>, id: int): nat {
    if vv == [] then 0 else RefOf(vv[..|vv| - 1], id) + if id in vv[|vv| - 1] then 1 else 0
  }

  function SumLen(vv: seq<seq<int>>): nat {
    if vv == [] then 0 else SumLen(vv[..|vv| - 1]) + |vv[|vv| - 1]|
  }

  lemma {:induction false} RefOfUpdate(vv: seq<set<int>>, b: nat, s: set<int>, id: int)
    requires b < |vv|
    ensures RefOf(vv[b := s], id) == RefOf(vv, id) - (if id in vv[b] then 1 else 0) + if id in s then 1 else 0
  {
    var last := |vv| - 1;
    if b == last {
      assert vv[b := s][..last] == vv[..last];
    } else {
      RefOfUpdate(vv[..last], b, s, id);
      assert vv[b := s][..last] == vv[..last][b := s];
    }
  }

  lemma {:induction false} RefOfMember(vv: seq<set<int>>, id: int)
    ensures RefOf(vv, id) <= |vv|
    ensures RefOf(vv, id) == 0 <==> forall b :: 0 <= b < |vv| ==> id !in vv[b]
  {
    if vv != [] {
      var last := |vv| - 1;
      RefOfMember(vv[..last], id);
      assert forall b :: 0 <= b < last ==> vv[..last][b] == vv[b];
    }
  }

  lemma {:induction false} SumLenUpdate(vv: seq<seq<int>>, b: nat, s: seq<int>)
    requires b < |vv|
    ensures SumLen(vv[b := s]) == SumLen(vv) - |vv[b]| + |s|
  {
    var last := |vv| - 1;
    if b == last {
      assert vv[b := s][..last] == vv[..last];
    } else {
      SumLenUpdate(vv[..last], b, s);
      assert vv[b := s][..last] == vv[..last][b := s];
    }
  }

  // ---------------------------------------------------------------- the tables

  datatype Tables = Tables(
    nIdCount: int,
    mapInfo: map<int, Info>,
    mapAddr: map<NetAddr, int>,
    vRandom: seq<int>,
    nTried: int,
    vvTried: seq<seq<int>>,
    nNew: int,
    vvNew: seq<set<int>>)

  /** vRandom lists every id once, and every entry knows its place there. */
  ghost predicate RandomOk(t: Tables) {
    && (forall id :: id in t.mapInfo ==>
          0 <= t.mapInfo[id].nRandomPos < |t.vRandom| && t.vRandom[t.mapInfo[id].nRandomPos] == id)
    && (forall k :: 0 <= k < |t.vRandom| ==> t.vRandom[k] in t.mapInfo && t.mapInfo[t.vRandom[k]].nRandomPos == k)
  }

  /** mapAddr is the inverse of the table. */
  ghost predicate AddrOk(t: Tables) {
    && (forall id :: id in t.mapInfo ==> t.mapInfo[id].addr.where.ip in t.mapAddr && t.mapAddr[t.mapInfo[id].addr.where.ip] == id)
    && (forall ip :: ip in t.mapAddr ==> t.mapAddr[ip] in t.mapInfo && t.mapInfo[t.mapAddr[ip]].addr.where.ip == ip)
  }

  predicate EntryOk(info: Info) {
    && info.nLastTry >= 0 && info.nLastSuccess >= 0
    && if info.fInTried then info.nLastSuccess != 0 && info.nRefCount == 0
       else 1 <= info.nRefCount <= NEW_BUCKETS_PER_ADDRESS
  }

  ghost predicate EntriesOk(t: Tables) {
    forall id :: id in t.mapInfo ==> 0 <= id < t.nIdCount && EntryOk(t.mapInfo[id])
  }

  /** New buckets hold exactly the ids that are not tried, each as often as its count says; a pending id has been
      counted once in advance. */
  ghost predicate NewOk(t: Tables, pending: set<int>) {
    && |t.vvNew| == NEW_BUCKET_COUNT
    && (forall b :: 0 <= b < |t.vvNew| ==> |t.vvNew[b]| <= NEW_BUCKET_SIZE)
    && (forall b, id :: 0 <= b < |t.vvNew| && id in t.vvNew[b] ==> id in t.mapInfo && !t.mapInfo[id].fInTried)
    && (forall id :: id in t.mapInfo && !t.mapInfo[id].fInTried ==>
          t.mapInfo[id].nRefCount == RefOf(t.vvNew, id) + if id in pending then 1 else 0)
  }

  /** Tried buckets hold exactly the tried ids, each once, in the bucket its address hashes to. */
  ghost predicate TriedOk(t: Tables, bucketOf: Service -> nat) {
    && |t.vvTried| == TRIED_BUCKET_COUNT
    && (forall b :: 0 <= b < |t.vvTried| ==> |t.vvTried[b]| <= TRIED_BUCKET_SIZE)
    && (forall b, i, j :: 0 <= b < |t.vvTried| && 0 <= i < j < |t.vvTried[b]| ==> t.vvTried[b][i] != t.vvTried[b][j])
    && (forall b, i :: 0 <= b < |t.vvTried| && 0 <= i < |t.vvTried[b]| ==>
          var id := t.vvTried[b][i];
          id in t.mapInfo && t.mapInfo[id].fInTried && bucketOf(t.mapInfo[id].addr.where) % TRIED_BUCKET_COUNT == b)
    && (forall id :: id in t.mapInfo && t.mapInfo[id].fInTried ==>
          id in t.vvTried[bucketOf(t.mapInfo[id].addr.where) % TRIED_BUCKET_COUNT])
  }

  ghost predicate CountsOk(t: Tables) {
    t.nTried == SumLen(t.vvTried) && t.nTried + t.nNew == |t.vRandom|
  }

  ghost predicate Consistent(t: Tables, bucketOf: Service -> nat, pending: set<int>) {
    RandomOk(t) && AddrOk(t) && EntriesOk(t) && NewOk(t, pending) && TriedOk(t, bucketOf) && CountsOk(t)
  }

  // ---------------------------------------------------------------- single steps

  /** Two entries of vRandom change places. */
  function Swapped(t: Tables, p: nat, q: nat): Tables
    requires p < |t.vRandom| && q < |t.vRandom|
    requires t.vRandom[p] in t.mapInfo && t.vRandom[q] in t.mapInfo
  {
    var a, b := t.vRandom[p], t.vRandom[q];
    if p == q then t
    else
      var m := t.mapInfo[a := t.mapInfo[a].(nRandomPos := q)];
      t.(mapInfo := m[b := m[b].(nRandomPos := p)], vRandom := t.vRandom[p := b][q := a])
  }

  /** Equal but for the place in vRandom. */
  predicate SameEntry(a: Info, b: Info) {
    a.(nRandomPos := 0) == b.(nRandomPos := 0)
  }

  lemma SwapRandomOk(t: Tables, p: nat, q: nat)
    requires RandomOk(t) && p < |t.vRandom| && q < |t.vRandom|
    ensures RandomOk(Swapped(t, p, q))
  {
  }

  lemma SwapFrame(t: Tables, p: nat, q: nat)
    requires RandomOk(t) && p < |t.vRandom| && q < |t.vRandom|
    ensures Swapped(t, p, q).mapInfo.Keys == t.mapInfo.Keys
    ensures forall id :: id in t.mapInfo ==> SameEntry(Swapped(t, p, q).mapInfo[id], t.mapInfo[id])
    ensures |Swapped(t, p, q).vRandom| == |t.vRandom| && Swapped(t, p, q).vRandom[q] == t.vRandom[p]
    ensures Swapped(t, p, q).mapInfo[t.vRandom[p]].nRandomPos == q
    ensures Swapped(t, p, q) == t.(mapInfo := Swapped(t, p, q).mapInfo, vRandom := Swapped(t, p, q).vRandom)
  {
  }

  /** Everything but the order of vRandom is blind to places in it. */
  lemma PlacesDoNotMatter(t: Tables, u: Tables, bucketOf: Service -> nat, pending: set<int>)
    requires u.mapInfo.Keys == t.mapInfo.Keys
    requires forall id :: id in t.mapInfo ==> SameEntry(u.mapInfo[id], t.mapInfo[id])
    requires u == t.(mapInfo := u.mapInfo, vRandom := u.vRandom) && |u.vRandom| == |t.vRandom|
    ensures AddrOk(t) ==> AddrOk(u)
    ensures EntriesOk(t) ==> EntriesOk(u)
    ensures NewOk(t, pending) ==> NewOk(u, pending)
    ensures TriedOk(t, bucketOf) ==> TriedOk(u, bucketOf)
    ensures CountsOk(t) ==> CountsOk(u)
  {
  }

  lemma SwapConsistent(t: Tables, p: nat, q: nat, bucketOf: Service -> nat, pending: set<int>)
    requires Consistent(t, bucketOf, pending) && p < |t.vRandom| && q < |t.vRandom|
    ensures Consistent(Swapped(t, p, q), bucketOf, pending)
  {
    hide AddrOk, EntriesOk, NewOk, TriedOk, CountsOk;
    SwapRandomOk(t, p, q);
    SwapFrame(t, p, q);
    PlacesDoNotMatter(t, Swapped(t, p, q), bucketOf, pending);
  }

  /** An id gives up its place in one new bucket. */
  function Unreferenced(t: Tables, id: int, b: nat): Tables
    requires id in t.mapInfo && b < |t.vvNew|
  {
    t.(mapInfo := t.mapInfo[id := t.mapInfo[id].(nRefCount := t.mapInfo[id].nRefCount - 1)],
       vvNew := t.vvNew[b := t.vvNew[b] - {id}])
  }

  /** Updates that keep addresses, places and the tried mark touch none of these. */
  lemma FieldsDoNotMatter(t: Tables, u: Tables, bucketOf: Service -> nat)
    requires u.mapInfo.Keys == t.mapInfo.Keys && u == t.(mapInfo := u.mapInfo, vvNew := u.vvNew)
    requires forall id :: id in t.mapInfo ==>
               && u.mapInfo[id].addr.where == t.mapInfo[id].addr.where
               && u.mapInfo[id].nRandomPos == t.mapInfo[id].nRandomPos
               && u.mapInfo[id].fInTried == t.mapInfo[id].fInTried
    ensures RandomOk(t) ==> RandomOk(u)
    ensures AddrOk(t) ==> AddrOk(u)
    ensures TriedOk(t, bucketOf) ==> TriedOk(u, bucketOf)
    ensures CountsOk(t) ==> CountsOk(u)
  {
  }

  /** An entry without references goes: swapped to the end of vRandom, popped, and erased from both maps. */
  function Erased(t: Tables, id: int): Tables
    requires RandomOk(t) && id in t.mapInfo
  {
    var last := |t.vRandom| - 1;
    SwapFrame(t, t.mapInfo[id].nRandomPos, last);
    var u := Swapped(t, t.mapInfo[id].nRandomPos, last);
    u.(vRandom := u.vRandom[..last], mapAddr := t.mapAddr - {t.mapInfo[id].addr.where.ip},
       mapInfo := u.mapInfo - {id}, nNew := t.nNew - 1)
  }

  lemma EraseRandomOk(t: Tables, id: int)
    requires RandomOk(t) && id in t.mapInfo
    ensures RandomOk(Erased(t, id)) && |Erased(t, id).vRandom| == |t.vRandom| - 1
    ensures Erased(t, id).mapInfo.Keys == t.mapInfo.Keys - {id}
    ensures forall o :: o in t.mapInfo && o != id ==> SameEntry(Erased(t, id).mapInfo[o], t.mapInfo[o])
    ensures var u := Erased(t, id);
            u == t.(vRandom := u.vRandom, mapAddr := t.mapAddr - {t.mapInfo[id].addr.where.ip}, mapInfo := u.mapInfo, nNew := t.nNew - 1)
  {
    hide Swapped;
    SwapRandomOk(t, t.mapInfo[id].nRandomPos, |t.vRandom| - 1);
    SwapFrame(t, t.mapInfo[id].nRandomPos, |t.vRandom| - 1);
  }

  lemma EraseCommutes(t: Tables, id: int, v: seq<set<int>>)
    requires RandomOk(t) && id in t.mapInfo
    ensures RandomOk(t.(vvNew := v)) && Erased(t.(vvNew := v), id) == Erased(t, id).(vvNew := v)
  {
  }

  lemma EraseAddrOk(t: Tables, id: int)
    requires RandomOk(t) && AddrOk(t) && id in t.mapInfo
    ensures AddrOk(Erased(t, id))
  {
  }

  lemma EraseNewOk(t: Tables, id: int, pending: set<int>)
    requires RandomOk(t) && NewOk(t, pending) && id in t.mapInfo && id !in pending
    requires !t.mapInfo[id].fInTried && t.mapInfo[id].nRefCount == 0
    ensures NewOk(Erased(t, id), pending)
  {
    hide RandomOk, Erased;
    EraseRandomOk(t, id);
    RefOfMember(t.vvNew, id);
    var u := Erased(t, id);
    assert forall o :: o in u.mapInfo ==> SameEntry(u.mapInfo[o], t.mapInfo[o]);
  }

  lemma EraseTriedOk(t: Tables, id: int, bucketOf: Service -> nat)
    requires RandomOk(t) && TriedOk(t, bucketOf) && id in t.mapInfo && !t.mapInfo[id].fInTried
    ensures TriedOk(Erased(t, id), bucketOf)
  {
    hide RandomOk, Erased;
    EraseRandomOk(t, id);
    var u := Erased(t, id);
    assert forall o :: o in u.mapInfo ==> SameEntry(u.mapInfo[o], t.mapInfo[o]);
  }

  lemma EraseConsistent(t: Tables, id: int, bucketOf: Service -> nat, pending: set<int>)
    requires RandomOk(t) && AddrOk(t) && NewOk(t, pending) && TriedOk(t, bucketOf) && CountsOk(t)
    requires id in t.mapInfo && !t.mapInfo[id].fInTried && t.mapInfo[id].nRefCount == 0 && id !in pending
    requires forall o :: o in t.mapInfo && o != id ==> 0 <= o < t.nIdCount && EntryOk(t.mapInfo[o])
    ensures Consistent(Erased(t, id), bucketOf, pending)
  {
    hide RandomOk, AddrOk, NewOk, TriedOk, Erased;
    EraseRandomOk(t, id);
    EraseAddrOk(t, id);
    EraseNewOk(t, id, pending);
    EraseTriedOk(t, id, bucketOf);
    assert forall o :: o in Erased(t, id).mapInfo ==> SameEntry(Erased(t, id).mapInfo[o], t.mapInfo[o]);
  }

  /** What ShrinkNew does to the id it picks. */
  function DropRef(t: Tables, id: int, b: nat): Tables
    requires RandomOk(t) && id in t.mapInfo && b < |t.vvNew|
  {
    var u := Unreferenced(t, id, b);
    if t.mapInfo[id].nRefCount == 1 then Erased(u, id) else u
  }

  lemma UnreferencedNewOk(t: Tables, id: int, b: nat, pending: set<int>)
    requires NewOk(t, pending) && b < |t.vvNew| && id in t.vvNew[b] && id !in pending
    ensures id in t.mapInfo && !t.mapInfo[id].fInTried && NewOk(Unreferenced(t, id, b), pending)
  {
    var u := Unreferenced(t, id, b);
    forall o
      ensures RefOf(u.vvNew, o) == RefOf(t.vvNew, o) - if o == id then 1 else 0
    {
      RefOfUpdate(t.vvNew, b, t.vvNew[b] - {id}, o);
    }
  }

  lemma DropRefConsistent(t: Tables, id: int, b: nat, bucketOf: Service -> nat, pending: set<int>)
    requires Consistent(t, bucketOf, pending) && b < |t.vvNew| && id in t.vvNew[b] && id !in pending
    ensures id in t.mapInfo && !t.mapInfo[id].fInTried && Consistent(DropRef(t, id, b), bucketOf, pending)
  {
    hide RandomOk, AddrOk, NewOk, TriedOk, CountsOk, Erased;
    UnreferencedNewOk(t, id, b, pending);
    var u := Unreferenced(t, id, b);
    FieldsDoNotMatter(t, u, bucketOf);
    if t.mapInfo[id].nRefCount == 1 {
      EraseConsistent(u, id, bucketOf, pending);
    }
  }

  /** Other facts about an entry may change freely within EntryOk. */
  lemma UpdateConsistent(t: Tables, id: int, info: Info, bucketOf: Service -> nat)
    requires Consistent(t, bucketOf, {}) && id in t.mapInfo && EntryOk(info)
    requires info.addr.where == t.mapInfo[id].addr.where && info.nRandomPos == t.mapInfo[id].nRandomPos
    requires info.fInTried == t.mapInfo[id].fInTried && info.nRefCount == t.mapInfo[id].nRefCount
    ensures Consistent(t.(mapInfo := t.mapInfo[id := info]), bucketOf, {})
  {
    hide RandomOk, AddrOk, NewOk, TriedOk, CountsOk;
    FieldsDoNotMatter(t, t.(mapInfo := t.mapInfo[id := info]), bucketOf);
    ReferencesKept(t, t.(mapInfo := t.mapInfo[id := info]));
  }

  lemma ReferencesKept(t: Tables, u: Tables)
    requires u == t.(mapInfo := u.mapInfo) && u.mapInfo.Keys == t.mapInfo.Keys
    requires forall id :: id in t.mapInfo ==>
               u.mapInfo[id].fInTried == t.mapInfo[id].fInTried && u.mapInfo[id].nRefCount == t.mapInfo[id].nRefCount
    ensures NewOk(t, {}) ==> NewOk(u, {})
  {
    hide RefOf;
  }

  /** One more reference is counted before the bucket is filled. */
  function Counted(t: Tables, id: int): Tables
    requires id in t.mapInfo
  {
    t.(mapInfo := t.mapInfo[id := t.mapInfo[id].(nRefCount := t.mapInfo[id].nRefCount + 1)])
  }

  lemma CountConsistent(t: Tables, id: int, bucketOf: Service -> nat)
    requires Consistent(t, bucketOf, {}) && id in t.mapInfo && !t.mapInfo[id].fInTried
    requires t.mapInfo[id].nRefCount < NEW_BUCKETS_PER_ADDRESS
    ensures Consistent(Counted(t, id), bucketOf, {id})
  {
    hide RandomOk, AddrOk, NewOk, TriedOk, CountsOk;
    FieldsDoNotMatter(t, Counted(t, id), bucketOf);
    CountNewOk(t, id);
  }

  lemma CountNewOk(t: Tables, id: int)
    requires NewOk(t, {}) && id in t.mapInfo
    ensures NewOk(Counted(t, id), {id})
  {
    hide RefOf;
  }

  /** Create, with the adjustments its caller makes at once: the entry is counted as new and as referenced. */
  function Created(t: Tables, addr: Address, source: NetAddr): Tables {
    var id := t.nIdCount;
    t.(nIdCount := id + 1, nNew := t.nNew + 1, mapAddr := t.mapAddr[addr.where.ip := id], vRandom := t.vRandom + [id],
       mapInfo := t.mapInfo[id := Info(addr, source, 0, 0, 0, 1, false, |t.vRandom|)])
  }

  lemma CreateNewOk(t: Tables, addr: Address, source: NetAddr)
    requires NewOk(t, {}) && t.nIdCount !in t.mapInfo
    ensures NewOk(Created(t, addr, source), {t.nIdCount})
  {
    RefOfMember(t.vvNew, t.nIdCount);
  }

  lemma CreateConsistent(t: Tables, addr: Address, source: NetAddr, bucketOf: Service -> nat)
    requires Consistent(t, bucketOf, {}) && addr.where.ip !in t.mapAddr && 0 <= t.nIdCount
    ensures Consistent(Created(t, addr, source), bucketOf, {t.nIdCount})
  {
    hide RandomOk, AddrOk, NewOk, TriedOk, SumLen, Created;
    assert t.nIdCount !in t.mapInfo;
    CreateRandomOk(t, addr, source);
    CreateAddrOk(t, addr, source);
    CreateNewOk(t, addr, source);
    CreateTriedOk(t, addr, source, bucketOf);
    CreateOthersOk(t, addr, source);
  }

  lemma CreateRandomOk(t: Tables, addr: Address, source: NetAddr)
    requires RandomOk(t) && t.nIdCount !in t.mapInfo
    ensures RandomOk(Created(t, addr, source))
  {
  }

  lemma CreateAddrOk(t: Tables, addr: Address, source: NetAddr)
    requires AddrOk(t) && t.nIdCount !in t.mapInfo && addr.where.ip !in t.mapAddr
    ensures AddrOk(Created(t, addr, source))
  {
  }

  lemma CreateTriedOk(t: Tables, addr: Address, source: NetAddr, bucketOf: Service -> nat)
    requires TriedOk(t, bucketOf) && t.nIdCount !in t.mapInfo
    ensures TriedOk(Created(t, addr, source), bucketOf)
  {
  }

  lemma CreateOthersOk(t: Tables, addr: Address, source: NetAddr)
    requires EntriesOk(t) && CountsOk(t) && 0 <= t.nIdCount
    ensures EntriesOk(Created(t, addr, source)) && CountsOk(Created(t, addr, source))
  {
    hide SumLen;
  }

  /** The pending id takes its place in a bucket with room. */
  function Filled(t: Tables, id: int, b: nat): Tables
    requires b < |t.vvNew|
  {
    t.(vvNew := t.vvNew[b := t.vvNew[b] + {id}])
  }

  lemma FillConsistent(t: Tables, id: int, b: nat, bucketOf: Service -> nat)
    requires Consistent(t, bucketOf, {id}) && b < |t.vvNew| && |t.vvNew[b]| < NEW_BUCKET_SIZE
    requires id in t.mapInfo && !t.mapInfo[id].fInTried && id !in t.vvNew[b]
    ensures Consistent(Filled(t, id, b), bucketOf, {})
  {
    hide RandomOk, AddrOk, TriedOk, CountsOk;
    var u := Filled(t, id, b);
    FieldsDoNotMatter(t, u, bucketOf);
    forall o
      ensures RefOf(u.vvNew, o) == RefOf(t.vvNew, o) + if o == id then 1 else 0
    {
      RefOfUpdate(t.vvNew, b, t.vvNew[b] + {id}, o);
    }
  }

  // ---------------------------------------------------------------- moving to the tried buckets

  /** The new buckets with an id taken out of the first n of them. */
  function Without(vv: seq<set<int>>, id: int, n: nat): (r: seq<set<int>>)
    ensures |r| == |vv|
  {
    seq(|vv|, i requires 0 <= i < |vv| => if i < n then vv[i] - {id} else vv[i])
  }

  lemma {:induction false} RefOfWithout(vv: seq<set<int>>, id: int, o: int)
    ensures RefOf(Without(vv, id, |vv|), o) == if o == id then 0 else RefOf(vv, o)
  {
    if vv != [] {
      var last := |vv| - 1;
      RefOfWithout(vv[..last], id, o);
      assert Without(vv, id, |vv|)[..last] == Without(vv[..last], id, last);
    }
  }

  /** An entry of the new buckets becomes an entry of its tried bucket, which has room. */
  function Promoted(t: Tables, id: int, k: nat): Tables
    requires id in t.mapInfo && k < |t.vvTried|
  {
    t.(mapInfo := t.mapInfo[id := t.mapInfo[id].(nRefCount := 0, fInTried := true)],
       vvNew := Without(t.vvNew, id, |t.vvNew|), nNew := t.nNew - 1,
       vvTried := t.vvTried[k := t.vvTried[k] + [id]], nTried := t.nTried + 1)
  }

  lemma PromoteNewOk(t: Tables, id: int, k: nat)
    requires NewOk(t, {}) && id in t.mapInfo && k < |t.vvTried|
    ensures NewOk(Promoted(t, id, k), {})
  {
    var u := Promoted(t, id, k);
    forall o ensures RefOf(u.vvNew, o) == if o == id then 0 else RefOf(t.vvNew, o) {
      RefOfWithout(t.vvNew, id, o);
    }
    WithoutFits(t.vvNew, id);
  }

  lemma WithoutFits(vv: seq<set<int>>, id: int)
    requires forall b :: 0 <= b < |vv| ==> |vv[b]| <= NEW_BUCKET_SIZE
    ensures forall b :: 0 <= b < |vv| ==> |Without(vv, id, |vv|)[b]| <= NEW_BUCKET_SIZE
  {
  }

  lemma SubsetSize<T>(a: set<T>, b: set<T>)
    requires a <= b
    ensures |a| <= |b|
  {
    assert b == a + (b - a);
  }

  lemma PromoteConsistent(t: Tables, id: int, bucketOf: Service -> nat)
    requires Consistent(t, bucketOf, {}) && id in t.mapInfo
    requires !t.mapInfo[id].fInTried && t.mapInfo[id].nLastSuccess != 0
    requires var k := bucketOf(t.mapInfo[id].addr.where) % TRIED_BUCKET_COUNT; |t.vvTried[k]| < TRIED_BUCKET_SIZE
    ensures Consistent(Promoted(t, id, bucketOf(t.mapInfo[id].addr.where) % TRIED_BUCKET_COUNT), bucketOf, {})
  {
    hide RandomOk, AddrOk, NewOk, TriedOk, SumLen, Without;
    var k := bucketOf(t.mapInfo[id].addr.where) % TRIED_BUCKET_COUNT;
    TriedSized(t, bucketOf);
    AddressesKept(t, Promoted(t, id, k));
    PromoteNewOk(t, id, k);
    PromoteTriedOk(t, id, bucketOf);
    SumLenUpdate(t.vvTried, k, t.vvTried[k] + [id]);
  }

  /** The address index and the random order look only at addresses and places. */
  lemma AddressesKept(t: Tables, u: Tables)
    requires u.mapInfo.Keys == t.mapInfo.Keys && u.vRandom == t.vRandom && u.mapAddr == t.mapAddr
    requires forall id :: id in t.mapInfo ==>
               u.mapInfo[id].addr.where == t.mapInfo[id].addr.where && u.mapInfo[id].nRandomPos == t.mapInfo[id].nRandomPos
    ensures RandomOk(t) ==> RandomOk(u)
    ensures AddrOk(t) ==> AddrOk(u)
  {
  }

  lemma PromoteTriedOk(t: Tables, id: int, bucketOf: Service -> nat)
    requires TriedOk(t, bucketOf) && id in t.mapInfo && !t.mapInfo[id].fInTried
    requires var k := bucketOf(t.mapInfo[id].addr.where) % TRIED_BUCKET_COUNT; |t.vvTried[k]| < TRIED_BUCKET_SIZE
    ensures TriedOk(Promoted(t, id, bucketOf(t.mapInfo[id].addr.where) % TRIED_BUCKET_COUNT), bucketOf)
  {
    hide Without;
  }

  /** The first half of a move: out of every new bucket. */
  function Unlisted(t: Tables, id: int): Tables
    requires id in t.mapInfo
  {
    t.(mapInfo := t.mapInfo[id := t.mapInfo[id].(nRefCount := 0)], vvNew := Without(t.vvNew, id, |t.vvNew|), nNew := t.nNew - 1)
  }

  /** A tried bucket in another order. */
  function Shuffled(t: Tables, k: nat, s: seq<int>): Tables
    requires k < |t.vvTried|
  {
    t.(vvTried := t.vvTried[k := s])
  }

  lemma PermutationDistinct(s: seq<int>, r: seq<int>)
    requires multiset(s) == multiset(r)
    requires forall i, j :: 0 <= i < j < |s| ==> s[i] != s[j]
    ensures |s| == |r|
    ensures forall i, j :: 0 <= i < j < |r| ==> r[i] != r[j]
    ensures forall x :: x in s <==> x in r
  {
    assert |multiset(s)| == |s| && |multiset(r)| == |r|;
    forall x ensures x in s <==> x in r {
      assert x in s <==> x in multiset(s);
      assert x in r <==> x in multiset(r);
    }
    forall i, j | 0 <= i < j < |r| ensures r[i] != r[j] {
      if r[i] == r[j] {
        assert r == r[..j] + [r[j]] + r[j + 1..];
        assert r[i] in r[..j];
        assert multiset(r)[r[i]] >= 2;
        DistinctCount(s, r[i]);
        assert false;
      }
    }
  }

  lemma {:induction false} DistinctCount(s: seq<int>, x: int)
    requires forall i, j :: 0 <= i < j < |s| ==> s[i] != s[j]
    ensures multiset(s)[x] <= 1
  {
    if s != [] {
      DistinctCount(s[1..], x);
      assert s == [s[0]] + s[1..];
      assert s[0] == x ==> x !in s[1..];
    }
  }

  lemma TriedBucketsDoNotMatter(t: Tables, u: Tables, pending: set<int>)
    requires u == t.(vvTried := u.vvTried)
    ensures RandomOk(t) ==> RandomOk(u)
    ensures AddrOk(t) ==> AddrOk(u)
    ensures EntriesOk(t) ==> EntriesOk(u)
    ensures NewOk(t, pending) ==> NewOk(u, pending)
  {
  }

  lemma ShuffleConsistent(t: Tables, k: nat, s: seq<int>, bucketOf: Service -> nat)
    requires Consistent(t, bucketOf, {}) && k < |t.vvTried| && multiset(s) == multiset(t.vvTried[k])
    ensures Consistent(Shuffled(t, k, s), bucketOf, {})
  {
    hide RandomOk, AddrOk, EntriesOk, NewOk, TriedOk, SumLen;
    assert |s| == |t.vvTried[k]| by { assert |multiset(s)| == |s|; }
    SumLenUpdate(t.vvTried, k, s);
    TriedBucketsDoNotMatter(t, Shuffled(t, k, s), {});
    ShuffleTriedOk(t, k, s, bucketOf);
  }

  lemma ShuffleTriedOk(t: Tables, k: nat, s: seq<int>, bucketOf: Service -> nat)
    requires TriedOk(t, bucketOf) && k < |t.vvTried| && multiset(s) == multiset(t.vvTried[k])
    ensures TriedOk(Shuffled(t, k, s), bucketOf)
  {
    PermutationDistinct(t.vvTried[k], s);
    forall i | 0 <= i < |s| ensures s[i] in t.vvTried[k] {
      assert s[i] in s;
    }
  }

  /** An unlisted entry takes the place of a tried one, which falls back into new bucket b. */
  function TookPlace(t: Tables, id: int, k: nat, pos: nat, b: nat): Tables
    requires id in t.mapInfo && k < |t.vvTried| && pos < |t.vvTried[k]| && t.vvTried[k][pos] in t.mapInfo && b < |t.vvNew|
  {
    var out := t.vvTried[k][pos];
    var m := t.mapInfo[out := t.mapInfo[out].(nRefCount := 1, fInTried := false)];
    t.(mapInfo := m[id := m[id].(fInTried := true)], nNew := t.nNew + 1,
       vvNew := t.vvNew[b := t.vvNew[b] + {out}], vvTried := t.vvTried[k := t.vvTried[k][pos := id]])
  }

  /** An entry of the new buckets takes the place of a tried one, which falls back into new bucket b. */
  function Replaced(t: Tables, id: int, k: nat, pos: nat, b: nat): Tables
    requires id in t.mapInfo && k < |t.vvTried| && pos < |t.vvTried[k]| && t.vvTried[k][pos] in t.mapInfo && b < |t.vvNew|
  {
    TookPlace(Unlisted(t, id), id, k, pos, b)
  }

  lemma ReplaceNewOk(t: Tables, id: int, k: nat, pos: nat, b: nat)
    requires NewOk(t, {}) && id in t.mapInfo && !t.mapInfo[id].fInTried
    requires k < |t.vvTried| && pos < |t.vvTried[k]|
    requires t.vvTried[k][pos] in t.mapInfo && t.mapInfo[t.vvTried[k][pos]].fInTried
    requires b < |t.vvNew| && |t.vvNew[b] - {id}| < NEW_BUCKET_SIZE
    ensures NewOk(Replaced(t, id, k, pos, b), {})
  {
    hide RefOf;
    var u, out := Replaced(t, id, k, pos, b), t.vvTried[k][pos];
    RefOfMember(t.vvNew, out);
    forall o ensures RefOf(u.vvNew, o) == if o == id then 0 else RefOf(t.vvNew, o) + if o == out then 1 else 0 {
      RefOfMoved(t.vvNew, id, out, b, o);
    }
    WithoutFits(t.vvNew, id);
  }

  lemma RefOfMoved(vv: seq<set<int>>, id: int, out: int, b: nat, o: int)
    requires b < |vv| && out != id && RefOf(vv, out) == 0
    ensures var less := Without(vv, id, |vv|);
            RefOf(less[b := less[b] + {out}], o) == if o == id then 0 else RefOf(vv, o) + if o == out then 1 else 0
  {
    var less := Without(vv, id, |vv|);
    RefOfMember(vv, out);
    RefOfWithout(vv, id, o);
    RefOfUpdate(less, b, less[b] + {out}, o);
  }

  lemma ReplaceTriedOk(t: Tables, id: int, pos: nat, b: nat, bucketOf: Service -> nat)
    requires TriedOk(t, bucketOf) && id in t.mapInfo && !t.mapInfo[id].fInTried && b < |t.vvNew|
    requires pos < |t.vvTried[bucketOf(t.mapInfo[id].addr.where) % TRIED_BUCKET_COUNT]|
    ensures TriedOk(Replaced(t, id, bucketOf(t.mapInfo[id].addr.where) % TRIED_BUCKET_COUNT, pos, b), bucketOf)
  {
    var k := bucketOf(t.mapInfo[id].addr.where) % TRIED_BUCKET_COUNT;
    var u, out := Replaced(t, id, k, pos, b), t.vvTried[k][pos];
    forall o | o in u.mapInfo && u.mapInfo[o].fInTried
      ensures o in u.vvTried[bucketOf(u.mapInfo[o].addr.where) % TRIED_BUCKET_COUNT]
    {
      if o == id {
        assert u.vvTried[k][pos] == id;
      } else {
        var c := bucketOf(t.mapInfo[o].addr.where) % TRIED_BUCKET_COUNT;
        var i :| 0 <= i < |t.vvTried[c]| && t.vvTried[c][i] == o;
        assert u.vvTried[c][i] == o;
      }
    }
  }

  lemma ReplaceConsistent(t: Tables, id: int, pos: nat, b: nat, bucketOf: Service -> nat)
    requires Consistent(t, bucketOf, {}) && id in t.mapInfo && !t.mapInfo[id].fInTried && t.mapInfo[id].nLastSuccess != 0
    requires pos < |t.vvTried[bucketOf(t.mapInfo[id].addr.where) % TRIED_BUCKET_COUNT]|
    requires b < |t.vvNew| && |t.vvNew[b] - {id}| < NEW_BUCKET_SIZE
    ensures Consistent(Replaced(t, id, bucketOf(t.mapInfo[id].addr.where) % TRIED_BUCKET_COUNT, pos, b), bucketOf, {})
  {
    hide RandomOk, AddrOk, EntriesOk, NewOk, TriedOk, CountsOk, Replaced;
    var k := bucketOf(t.mapInfo[id].addr.where) % TRIED_BUCKET_COUNT;
    TriedAt(t, bucketOf, k, pos);
    ReplaceOthersOk(t, id, k, pos, b);
    ReplaceNewOk(t, id, k, pos, b);
    ReplaceTriedOk(t, id, pos, b, bucketOf);
  }

  lemma ReplaceOthersOk(t: Tables, id: int, k: nat, pos: nat, b: nat)
    requires RandomOk(t) && AddrOk(t) && EntriesOk(t) && CountsOk(t)
    requires id in t.mapInfo && t.mapInfo[id].nLastSuccess != 0 && k < |t.vvTried| && pos < |t.vvTried[k]| && b < |t.vvNew|
    requires t.vvTried[k][pos] in t.mapInfo && t.vvTried[k][pos] != id
    ensures var u := Replaced(t, id, k, pos, b); RandomOk(u) && AddrOk(u) && EntriesOk(u) && CountsOk(u)
  {
    hide RandomOk, AddrOk, SumLen, Without;
    AddressesKept(t, Replaced(t, id, k, pos, b));
    SumLenUpdate(t.vvTried, k, t.vvTried[k][pos := id]);
  }

  lemma TriedSized(t: Tables, bucketOf: Service -> nat)
    requires TriedOk(t, bucketOf)
    ensures |t.vvTried| == TRIED_BUCKET_COUNT
  {
  }

  lemma TriedAt(t: Tables, bucketOf: Service -> nat, k: nat, pos: nat)
    requires TriedOk(t, bucketOf) && k < TRIED_BUCKET_COUNT && pos < |t.vvTried[k]|
    ensures k < |t.vvTried| && t.vvTried[k][pos] in t.mapInfo && t.mapInfo[t.vvTried[k][pos]].fInTried
  {
  }

  lemma BucketsCounted(t: Tables, bucketOf: Service -> nat)
    requires Consistent(t, bucketOf, {})
    ensures |t.vvTried| == TRIED_BUCKET_COUNT
  {
  }

  /** An entry that is not tried stands in no tried bucket. */
  lemma OthersOnly(t: Tables, id: int, k: nat, bucketOf: Service -> nat)
    requires Consistent(t, bucketOf, {}) && id in t.mapInfo && !t.mapInfo[id].fInTried && k < |t.vvTried|
    ensures forall i :: 0 <= i < |t.vvTried[k]| ==>
              0 <= t.vvTried[k][i] && t.vvTried[k][i] in t.mapInfo && t.vvTried[k][i] != id
  {
  }

  lemma TriedPlaceKnown(t: Tables, bucketOf: Service -> nat, k: nat, pos: nat)
    requires Consistent(t, bucketOf, {}) && k < TRIED_BUCKET_COUNT && k < |t.vvTried| && pos < |t.vvTried[k]|
    ensures t.vvTried[k][pos] in t.mapInfo && t.mapInfo[t.vvTried[k][pos]].fInTried
  {
    hide RandomOk, AddrOk, EntriesOk, NewOk, TriedOk, CountsOk;
    TriedAt(t, bucketOf, k, pos);
  }

  // ---------------------------------------------------------------- how large the tables get

  lemma {:induction false} NewUnion(vv: seq<set<int>>) returns (all: set<int>)
    requires forall b :: 0 <= b < |vv| ==> |vv[b]| <= NEW_BUCKET_SIZE
    ensures |all| <= |vv| * NEW_BUCKET_SIZE
    ensures forall b, id :: 0 <= b < |vv| && id in vv[b] ==> id in all
  {
    if vv == [] {
      all := {};
    } else {
      var last := |vv| - 1;
      var most := NewUnion(vv[..last]);
      all := most + vv[last];
    }
  }

  lemma {:induction false} TriedUnion(vv: seq<seq<int>>) returns (all: set<int>)
    requires forall b :: 0 <= b < |vv| ==> |vv[b]| <= TRIED_BUCKET_SIZE
    ensures |all| <= |vv| * TRIED_BUCKET_SIZE
    ensures forall b, id :: 0 <= b < |vv| && id in vv[b] ==> id in all
  {
    if vv == [] {
      all := {};
    } else {
      var last := |vv| - 1;
      var most := TriedUnion(vv[..last]);
      var top := set id | id in vv[last];
      ElementsBound(vv[last]);
      all := most + top;
    }
  }

  lemma {:induction false} ElementsBound(s: seq<int>)
    ensures |set id | id in s| <= |s|
  {
    if s != [] {
      ElementsBound(s[1..]);
      assert (set id | id in s) == {s[0]} + set id | id in s[1..];
    }
  }

  lemma {:induction false} DistinctSize(s: seq<int>)
    requires forall i, j :: 0 <= i < j < |s| ==> s[i] != s[j]
    ensures |set id | id in s| == |s|
  {
    if s != [] {
      DistinctSize(s[1..]);
      assert s[0] !in s[1..];
      assert (set id | id in s) == {s[0]} + set id | id in s[1..];
    }
  }

  lemma ListedOnce(t: Tables)
    requires RandomOk(t)
    ensures |t.vRandom| == |t.mapInfo.Keys|
  {
    DistinctSize(t.vRandom);
    forall id | id in t.mapInfo ensures id in t.vRandom {
      assert t.vRandom[t.mapInfo[id].nRandomPos] == id;
    }
    assert t.mapInfo.Keys == set id | id in t.vRandom;
  }

  /** However many addresses are offered, the tables hold at most 64 * 64 + 256 * 64 entries, listed once each. */
  lemma EntriesAreBounded(t: Tables, bucketOf: Service -> nat)
    requires Consistent(t, bucketOf, {})
    ensures |t.vRandom| == |t.mapInfo|
    ensures |t.mapInfo| <= TRIED_BUCKET_COUNT * TRIED_BUCKET_SIZE + NEW_BUCKET_COUNT * NEW_BUCKET_SIZE
  {
    hide SumLen, RefOf, RandomOk;
    ListedOnce(t);
    var triedIds := TriedUnion(t.vvTried);
    var newIds := NewUnion(t.vvNew);
    forall id | id in t.mapInfo ensures id in triedIds + newIds {
      RefOfMember(t.vvNew, id);
    }
    SubsetSize(t.mapInfo.Keys, triedIds + newIds);
  }

  lemma BucketsHoldIds(t: Tables, b: nat, pending: set<int>)
    requires NewOk(t, pending) && EntriesOk(t) && b < |t.vvNew|
    ensures t.vvNew[b] <= t.mapInfo.Keys
    ensures forall id :: id in t.mapInfo ==> 0 <= id
  {
    assert forall id :: id in t.vvNew[b] ==> id in t.mapInfo;
  }

  // ---------------------------------------------------------------- the manager

  /** nTime is an unsigned 32-bit field. */
  function Wrap32(n: int): UInt32 {
    n % 0x1_0000_0000
  }

  /** GetRandInt: any choice below n, and 0 when there is none. */
  method RandInt(n: int) returns (r: int)
    ensures if n > 0 then 0 <= r < n else r == 0
  {
    if n > 0 {
      r :| 0 <= r < n;
    } else {
      r := 0;
    }
  }

  lemma HasMember(s: set<int>)
    requires s != {}
    ensures exists o :: o in s
  {
    assert (forall o :: o !in s) ==> s == {};
  }

  method Least(s: set<int>) returns (least: int)
    requires s != {}
    ensures least in s && forall o :: o in s ==> least <= o
  {
    HasMember(s);
    least :| least in s;
    var rest := s - {least};
    while rest != {}
      invariant rest <= s && least in s
      invariant forall o: int :: o in s && o !in rest ==> least <= o
      decreases |rest|
    {
      HasMember(rest);
      var o :| o in rest;
      if o < least {
        least := o;
      }
      rest := rest - {o};
    }
  }

  /** The place of an id in the ascending order of a bucket. */
  function Rank(vNew: set<int>, id: int): nat {
    |set o | o in vNew && o < id|
  }

  lemma RankOfLeast(vNew: set<int>, rest: set<int>, id: int)
    requires rest <= vNew && id in rest && forall o :: o in rest ==> id <= o
    requires forall o, q :: o in vNew && o !in rest && q in rest ==> o < q
    ensures Rank(vNew, id) == |vNew| - |rest|
  {
    var below := set o | o in vNew && o < id;
    assert forall o :: o in below <==> o in vNew - rest;
    assert below == vNew - rest;
    assert vNew == (vNew - rest) + rest;
  }

  /** id comes before o: seen longer ago or, at the same time, smaller. */
  predicate OlderOf(mapInfo: map<int, Info>, id: int, o: int)
    requires id in mapInfo && o in mapInfo
  {
    mapInfo[id].addr.nTime < mapInfo[o].addr.nTime || (mapInfo[id].addr.nTime == mapInfo[o].addr.nTime && id <= o)
  }

  /** Of the ids at up to four places drawn from a new bucket, the one last seen longest ago. */
  method OldestOfFour(vNew: set<int>, mapInfo: map<int, Info>, n: seq<int>) returns (nOldest: int)
    requires vNew <= mapInfo.Keys && |n| == 4 && forall i :: 0 <= i < 4 ==> 0 <= n[i] < |vNew|
    requires forall id :: id in mapInfo ==> 0 <= id
    ensures nOldest in vNew && Rank(vNew, nOldest) in n
    ensures forall o :: o in vNew && Rank(vNew, o) in n ==> OlderOf(mapInfo, nOldest, o)
  {
    hide Rank;
    var nI := 0;
    nOldest := -1;
    var rest := vNew;
    while rest != {}
      invariant rest <= vNew && |rest| == |vNew| - nI
      invariant forall o, q :: o in vNew && o !in rest && q in rest ==> o < q
      invariant nOldest != -1 ==> nOldest in vNew && nOldest !in rest && Rank(vNew, nOldest) in n
      invariant n[0] < nI ==> nOldest != -1
      invariant forall o :: o in vNew && o !in rest && Rank(vNew, o) in n ==> nOldest != -1 && OlderOf(mapInfo, nOldest, o)
      decreases |rest|
    {
      var nId := Least(rest);
      RankOfLeast(vNew, rest, nId);
      assert nI in n <==> nI == n[0] || nI == n[1] || nI == n[2] || nI == n[3];
      if nI == n[0] || nI == n[1] || nI == n[2] || nI == n[3] {
        if nOldest == -1 || mapInfo[nId].addr.nTime < mapInfo[nOldest].addr.nTime {
          nOldest := nId;
        }
      }
      rest := rest - {nId};
      nI := nI + 1;
    }
  }

  lemma {:induction false} NothingTried(vv: seq<seq<int>>)
    requires forall b :: 0 <= b < |vv| ==> vv[b] == []
    ensures SumLen(vv) == 0
  {
    if vv != [] {
      NothingTried(vv[..|vv| - 1]);
    }
  }

  function Exchanged(s: seq<int>, i: nat, j: nat): (r: seq<int>)
    requires i <= j < |s|
    ensures |r| == |s| && multiset(r) == multiset(s)
    ensures forall k :: 0 <= k < |s| ==> r[k] == if k == i then s[j] else if k == j then s[i] else s[k]
  {
    s[j := s[i]][i := s[j]]
  }

  /** A tried bucket under inspection: the shuffled bucket, the least recently successful entry so far, the position
      recorded for it, and the slot it was moved to. */
  datatype Scan = Scan(vTried: seq<int>, nOldest: int, nOldestPos: int, slot: int)

  /** Draws, of what is left of the bucket at each step. */
  predicate Drawable(draws: seq<nat>, size: nat) {
    |draws| <= size && forall i :: 0 <= i < |draws| ==> draws[i] < size - i
  }

  predicate KnownIds(s: seq<int>, mapInfo: map<int, Info>) {
    forall i :: 0 <= i < |s| ==> 0 <= s[i] && s[i] in mapInfo
  }

  /** The oldest of the entries drawn stands in its slot, but the position recorded is the one it was drawn from. */
  predicate ScanOk(before: seq<int>, mapInfo: map<int, Info>, draws: seq<nat>, r: Scan) {
    && |r.vTried| == |before| && multiset(r.vTried) == multiset(before) && KnownIds(r.vTried, mapInfo)
    && if draws == [] then r.nOldest == -1 && r.nOldestPos == -1
       else
         && 0 <= r.slot < |draws| <= |r.vTried| && r.nOldest == r.vTried[r.slot] && r.nOldestPos == r.slot + draws[r.slot]
         && (forall j :: 0 <= j < |draws| ==> mapInfo[r.nOldest].nLastSuccess <= mapInfo[r.vTried[j]].nLastSuccess)
         && forall j :: 0 <= j < r.slot ==> mapInfo[r.nOldest].nLastSuccess < mapInfo[r.vTried[j]].nLastSuccess
  }

  /** SelectTried for given draws: each draw moves an entry to the front. */
  function Scanned(before: seq<int>, mapInfo: map<int, Info>, draws: seq<nat>): (r: Scan)
    requires Drawable(draws, |before|) && KnownIds(before, mapInfo)
    ensures ScanOk(before, mapInfo, draws, r)
  {
    if draws == [] then Scan(before, -1, -1, -1)
    else
      var i := |draws| - 1;
      var p := Scanned(before, mapInfo, draws[..i]);
      InspectOk(before, mapInfo, draws, p);
      Inspect(p, mapInfo, i, draws[i])
  }

  /** One step: slot i gets the entry drawn. */
  function Inspect(scan: Scan, mapInfo: map<int, Info>, i: nat, draw: nat): (r: Scan)
    requires i + draw < |scan.vTried| && scan.vTried[i + draw] in mapInfo && (scan.nOldest == -1 || scan.nOldest in mapInfo)
  {
    var nTemp := scan.vTried[i + draw];
    var vTried := Exchanged(scan.vTried, i, i + draw);
    if scan.nOldest == -1 || mapInfo[nTemp].nLastSuccess < mapInfo[scan.nOldest].nLastSuccess then Scan(vTried, nTemp, i + draw, i)
    else scan.(vTried := vTried)
  }

  lemma InspectOk(before: seq<int>, mapInfo: map<int, Info>, draws: seq<nat>, p: Scan)
    requires draws != [] && Drawable(draws, |before|) && ScanOk(before, mapInfo, draws[..|draws| - 1], p)
    ensures var i := |draws| - 1;
            && i + draws[i] < |p.vTried| && p.vTried[i + draws[i]] in mapInfo && (p.nOldest == -1 || p.nOldest in mapInfo)
            && ScanOk(before, mapInfo, draws, Inspect(p, mapInfo, i, draws[i]))
  {
    hide Exchanged;
    var i := |draws| - 1;
    var r := Inspect(p, mapInfo, i, draws[i]);
    forall j | 0 <= j < |draws|
      ensures mapInfo[r.nOldest].nLastSuccess <= mapInfo[r.vTried[j]].nLastSuccess
      ensures j < r.slot ==> mapInfo[r.nOldest].nLastSuccess < mapInfo[r.vTried[j]].nLastSuccess
    {
      assert j < i ==> r.vTried[j] == p.vTried[j];
    }
  }

  lemma ScannedStep(before: seq<int>, mapInfo: map<int, Info>, draws: seq<nat>, draw: nat)
    requires Drawable(draws + [draw], |before|) && KnownIds(before, mapInfo)
    ensures Drawable(draws, |before|)
    ensures var p := Scanned(before, mapInfo, draws);
            && |draws| + draw < |p.vTried| && p.vTried[|draws| + draw] in mapInfo && (p.nOldest == -1 || p.nOldest in mapInfo)
            && Scanned(before, mapInfo, draws + [draw]) == Inspect(p, mapInfo, |draws|, draw)
  {
    var more := draws + [draw];
    assert more[..|draws|] == draws && more[|draws|] == draw;
    forall i | 0 <= i < |draws| ensures draws[i] < |before| - i {
      assert more[i] == draws[i];
    }
    InspectOk(before, mapInfo, more, Scanned(before, mapInfo, draws));
  }

  /** The bucket after the first n draws: which entries stand where does not depend on what is known of them. */
  function Drawn(before: seq<int>, draws: seq<nat>, n: nat): (r: seq<int>)
    requires n <= |draws| && Drawable(draws, |before|)
    ensures |r| == |before|
  {
    if n == 0 then before else Exchanged(Drawn(before, draws, n - 1), n - 1, n - 1 + draws[n - 1])
  }

  /** The first of the entries with the least time of last success. */
  function FirstOldest(s: seq<int>, mapInfo: map<int, Info>): (k: nat)
    requires s != [] && KnownIds(s, mapInfo)
    ensures k < |s| && forall j :: 0 <= j < |s| ==> mapInfo[s[k]].nLastSuccess <= mapInfo[s[j]].nLastSuccess
    ensures forall j :: 0 <= j < k ==> mapInfo[s[k]].nLastSuccess < mapInfo[s[j]].nLastSuccess
  {
    var last := |s| - 1;
    if last == 0 then 0
    else
      var k := FirstOldest(s[..last], mapInfo);
      if mapInfo[s[last]].nLastSuccess < mapInfo[s[k]].nLastSuccess then last else k
  }

  lemma FirstDraws(draws: seq<nat>, size: nat, n: nat)
    requires 0 < n <= |draws| && Drawable(draws, size)
    ensures Drawable(draws[..n], size) && draws[..n] == draws[..n - 1] + [draws[n - 1]]
  {
  }

  lemma {:induction false} ScanDraws(before: seq<int>, mapInfo: map<int, Info>, draws: seq<nat>, n: nat)
    requires n <= |draws| && Drawable(draws, |before|) && KnownIds(before, mapInfo)
    ensures Scanned(before, mapInfo, draws[..n]).vTried == Drawn(before, draws, n)
  {
    hide Exchanged, ScanOk, Scanned, Drawable;
    if n == 0 {
      NothingScanned(before, mapInfo);
      assert draws[..0] == [];
    } else {
      ScanDraws(before, mapInfo, draws, n - 1);
      FirstDraws(draws, |before|, n);
      ScannedStep(before, mapInfo, draws[..n - 1], draws[n - 1]);
    }
  }

  /** The entry selected for eviction is as old as any inspected if and only if the first oldest one inspected was left
      in place by its draw, or the entry that came to stand where it was drawn from is no younger. */
  lemma SelectsOldestIff(before: seq<int>, mapInfo: map<int, Info>, draws: seq<nat>)
    requires Drawable(draws, |before|) && KnownIds(before, mapInfo) && draws != []
    ensures var s := Drawn(before, draws, |draws|);
            && KnownIds(s, mapInfo)
            && var k := FirstOldest(s[..|draws|], mapInfo);
               var r := Scanned(before, mapInfo, draws);
               && k + draws[k] < |s| && r.vTried == s && r.nOldestPos == k + draws[k]
               && ((forall j :: 0 <= j < |draws| ==>
                      mapInfo[s[r.nOldestPos]].nLastSuccess <= mapInfo[s[j]].nLastSuccess)
                   <==> draws[k] == 0 || mapInfo[s[k + draws[k]]].nLastSuccess <= mapInfo[s[k]].nLastSuccess)
  {
    hide Scanned, Drawn;
    ScanDraws(before, mapInfo, draws, |draws|);
    assert draws[..|draws|] == draws;
    var s, r := Drawn(before, draws, |draws|), Scanned(before, mapInfo, draws);
    var k := FirstOldest(s[..|draws|], mapInfo);
    assert forall j :: 0 <= j < |draws| ==> s[..|draws|][j] == s[j];
    assert k == r.slot;
  }

  /** So an entry may be evicted although an older one was inspected: from any full bucket whose second entry is older
      than its first, third and fourth, the draws 1, 0, 0, 0 select the first. */
  lemma SelectionCanMiss(before: seq<int>, mapInfo: map<int, Info>)
    requires |before| == TRIED_BUCKET_SIZE && KnownIds(before, mapInfo)
    requires forall i :: 0 <= i < 4 && i != 1 ==> mapInfo[before[1]].nLastSuccess < mapInfo[before[i]].nLastSuccess
    ensures var draws := [1, 0, 0, 0];
            && Drawable(draws, |before|) && |draws| == TRIED_ENTRIES_INSPECT_ON_EVICT
            && var r := Scanned(before, mapInfo, draws);
               && r.nOldestPos == 1 && r.vTried[1] == before[0] && r.vTried[0] == before[1]
               && mapInfo[r.vTried[0]].nLastSuccess < mapInfo[r.vTried[1]].nLastSuccess
  {
    hide Scanned, ScanOk, Drawn;
    var draws := [1, 0, 0, 0];
    FirstTwoSwapped(before);
    SelectsOldestIff(before, mapInfo, draws);
    var drawn := Drawn(before, draws, 4)[..4];
    assert drawn == [before[1], before[0], before[2], before[3]];
    assert FirstOldest(drawn, mapInfo) == 0;
  }

  lemma StaysPut(s: seq<int>, i: nat)
    requires i < |s|
    ensures Exchanged(s, i, i) == s
  {
  }

  /** Draws of 0 leave everything in place. */
  lemma FirstTwoSwapped(before: seq<int>)
    requires |before| == TRIED_BUCKET_SIZE
    ensures Drawable([1, 0, 0, 0], |before|)
    ensures Drawn(before, [1, 0, 0, 0], 4) == before[0 := before[1]][1 := before[0]]
  {
    var draws := [1, 0, 0, 0];
    var once := Drawn(before, draws, 1);
    assert Drawn(before, draws, 0) == before;
    assert once == before[0 := before[1]][1 := before[0]];
    hide Exchanged;
    StaysPut(once, 1);
    assert Drawn(before, draws, 2) == once;
    StaysPut(once, 2);
    assert Drawn(before, draws, 3) == once;
    StaysPut(once, 3);
  }

  lemma NothingScanned(before: seq<int>, mapInfo: map<int, Info>)
    requires KnownIds(before, mapInfo)
    ensures Scanned(before, mapInfo, []) == Scan(before, -1, -1, -1)
  {
  }

  /** An eviction from a tried bucket: four draws, or as many as there are entries, rearrange the bucket, and the position
      given up is the one which the first oldest of the entries drawn was drawn from. */
  ghost predicate Selected(before: seq<int>, mapInfo: map<int, Info>, draws: seq<nat>, after: seq<int>, pos: int) {
    && |draws| == (if |before| < 4 then |before| else 4) && Drawable(draws, |before|)
    && after == Drawn(before, draws, |draws|) && KnownIds(after, mapInfo)
    && if draws == [] then pos == -1
       else var j := FirstOldest(after[..|draws|], mapInfo); pos == j + draws[j] < |after|
  }

  /** As old as any of the entries drawn. */
  predicate AsOldAsDrawn(id: int, drawn: seq<int>, mapInfo: map<int, Info>)
    requires id in mapInfo && KnownIds(drawn, mapInfo)
  {
    forall i :: 0 <= i < |drawn| ==> mapInfo[id].nLastSuccess <= mapInfo[drawn[i]].nLastSuccess
  }

  /** The condition of SelectsOldestIff, for an eviction. */
  lemma EvictsOldestIff(before: seq<int>, mapInfo: map<int, Info>, draws: seq<nat>, after: seq<int>, pos: int)
    requires Selected(before, mapInfo, draws, after, pos) && before != []
    ensures |draws| <= |after| && 0 <= pos < |after|
    ensures var j := FirstOldest(after[..|draws|], mapInfo);
            AsOldAsDrawn(after[pos], after[..|draws|], mapInfo) <==>
            draws[j] == 0 || mapInfo[after[pos]].nLastSuccess <= mapInfo[after[j]].nLastSuccess
  {
    hide FirstOldest, Drawn;
  }

  /** An eviction from a full bucket, and when it is that of an entry as old as any of the four drawn. */
  ghost predicate Evicts(before: seq<int>, mapInfo: map<int, Info>, draws: seq<nat>, after: seq<int>, pos: int, evicted: int) {
    && |before| == |after| == TRIED_BUCKET_SIZE && |draws| == 4 && Selected(before, mapInfo, draws, after, pos)
    && 0 <= pos < |after| && evicted == after[pos]
    && var j := FirstOldest(after[..4], mapInfo);
       AsOldAsDrawn(evicted, after[..4], mapInfo) <==>
       draws[j] == 0 || mapInfo[evicted].nLastSuccess <= mapInfo[after[j]].nLastSuccess
  }

  lemma SelectedEvicts(before: seq<int>, mapInfo: map<int, Info>, draws: seq<nat>, after: seq<int>, pos: int)
    requires Selected(before, mapInfo, draws, after, pos) && |before| == TRIED_BUCKET_SIZE
    ensures 0 <= pos < |after| && Evicts(before, mapInfo, draws, after, pos, after[pos])
  {
    hide FirstOldest, Drawn;
    EvictsOldestIff(before, mapInfo, draws, after, pos);
  }

  lemma ScanSelects(before: seq<int>, mapInfo: map<int, Info>, draws: seq<nat>)
    requires Drawable(draws, |before|) && KnownIds(before, mapInfo)
    requires |draws| == if |before| < 4 then |before| else 4
    ensures var r := Scanned(before, mapInfo, draws); Selected(before, mapInfo, draws, r.vTried, r.nOldestPos)
  {
    hide Scanned, Drawn, ScanOk;
    if draws == [] {
      NothingScanned(before, mapInfo);
      ScanDraws(before, mapInfo, draws, 0);
      assert draws[..0] == draws;
    } else {
      SelectsOldestIff(before, mapInfo, draws);
    }
  }

  /** Only the times of last success of the bucket's own entries matter. */
  lemma SelectedSame(before: seq<int>, m1: map<int, Info>, m2: map<int, Info>, draws: seq<nat>, after: seq<int>, pos: int)
    requires Selected(before, m1, draws, after, pos) && m1.Keys <= m2.Keys
    requires forall i :: 0 <= i < |after| && after[i] in m1 ==> m1[after[i]].nLastSuccess == m2[after[i]].nLastSuccess
    ensures Selected(before, m2, draws, after, pos)
  {
    hide FirstOldest, Drawn;
    if draws != [] {
      var drawn := after[..|draws|];
      assert FirstOldest(drawn, m1) == FirstOldest(drawn, m2);
    }
  }

  lemma ScanPermutes(before: seq<int>, mapInfo: map<int, Info>, draws: seq<nat>)
    requires Drawable(draws, |before|) && KnownIds(before, mapInfo) && (draws == [] ==> before == [])
    ensures var r := Scanned(before, mapInfo, draws);
            && |r.vTried| == |before| && multiset(r.vTried) == multiset(before)
            && if before == [] then r.nOldestPos == -1 else 0 <= r.nOldestPos < |before|
  {
    hide Scanned;
  }

  method ShuffleFront(before: seq<int>, mapInfo: map<int, Info>)
    returns (vTried: seq<int>, nOldestPos: int, ghost draws: seq<nat>)
    requires KnownIds(before, mapInfo)
    ensures multiset(vTried) == multiset(before)
    ensures |vTried| == |before| && if before == [] then nOldestPos == -1 else 0 <= nOldestPos < |vTried|
    ensures |draws| == if |before| < TRIED_ENTRIES_INSPECT_ON_EVICT then |before| else TRIED_ENTRIES_INSPECT_ON_EVICT
    ensures Drawable(draws, |before|)
    ensures vTried == Scanned(before, mapInfo, draws).vTried && nOldestPos == Scanned(before, mapInfo, draws).nOldestPos
  {
    hide Scanned, ScanOk;
    NothingScanned(before, mapInfo);
    vTried, nOldestPos, draws := before, -1, [];
    var nOldest := -1;
    var i := 0;
    while i < TRIED_ENTRIES_INSPECT_ON_EVICT && i < |vTried|
      invariant i == |draws| <= |before| == |vTried| && i <= TRIED_ENTRIES_INSPECT_ON_EVICT && Drawable(draws, |before|)
      invariant vTried == Scanned(before, mapInfo, draws).vTried && nOldest == Scanned(before, mapInfo, draws).nOldest
      invariant nOldestPos == Scanned(before, mapInfo, draws).nOldestPos
    {
      var draw: nat := RandInt(|vTried| - i);
      var nPos := draw + i;
      ScannedStep(before, mapInfo, draws, draw);
      draws := draws + [draw];
      var nTemp := vTried[nPos];
      vTried := vTried[nPos := vTried[i]];
      vTried := vTried[i := nTemp];
      if nOldest == -1 || mapInfo[nTemp].nLastSuccess < mapInfo[nOldest].nLastSuccess {
        nOldest := nTemp;
        nOldestPos := nPos;
      }
      i := i + 1;
    }
    ScanPermutes(before, mapInfo, draws);
  }

  /** The tables with good times in one entry. */
  function Redated(t: Tables, id: int): Tables
    requires id in t.mapInfo
  {
    t.(mapInfo := t.mapInfo[id := t.mapInfo[id].(nLastTry := 1, nLastSuccess := 1)])
  }

  /** The way an entry gets tried does not depend on its times. */
  lemma PromotedRedated(t: Tables, id: int, k: nat)
    requires id in t.mapInfo && k < |t.vvTried|
    ensures Redated(Promoted(t, id, k), id) == Promoted(Redated(t, id), id, k)
  {
    hide Without;
  }

  lemma ReplacedRedated(t: Tables, id: int, k: nat, s: seq<int>, pos: nat, b: nat)
    requires id in t.mapInfo && k < |t.vvTried| && pos < |s| && s[pos] in t.mapInfo && s[pos] != id && b < |t.vvNew|
    ensures Shuffled(Redated(t, id), k, s) == Redated(Shuffled(t, k, s), id)
    ensures Redated(Replaced(Shuffled(t, k, s), id, k, pos, b), id) == Replaced(Shuffled(Redated(t, id), k, s), id, k, pos, b)
  {
    hide Without;
    var one, two := Redated(Replaced(Shuffled(t, k, s), id, k, pos, b), id), Replaced(Shuffled(Redated(t, id), k, s), id, k, pos, b);
    assert one.mapInfo == two.mapInfo;
  }

  /** Only the times of an entry that are not good can have kept redated tables from being consistent. */
  lemma RedatedBack(t: Tables, id: int, bucketOf: Service -> nat)
    requires id in t.mapInfo && Consistent(Redated(t, id), bucketOf, {}) && t.mapInfo[id].fInTried
    ensures Consistent(t, bucketOf, {}) <==> t.mapInfo[id].nLastTry >= 0 && t.mapInfo[id].nLastSuccess > 0
  {
    hide RandomOk, AddrOk, EntriesOk, NewOk, TriedOk, CountsOk;
    EntryOkAt(Redated(t, id), bucketOf, id);
    if t.mapInfo[id].nLastTry >= 0 && t.mapInfo[id].nLastSuccess > 0 {
      UpdateConsistent(Redated(t, id), id, t.mapInfo[id], bucketOf);
      assert Redated(t, id).mapInfo[id := t.mapInfo[id]] == t.mapInfo;
    } else {
      BadEntry(t, bucketOf, id);
    }
  }

  /** What MakeTried relies on at its start. */
  lemma MakeTriedFacts(t: Tables, id: int, origin: nat, bucketOf: Service -> nat)
    requires Consistent(t, bucketOf, {}) && id in t.mapInfo && !t.mapInfo[id].fInTried
    requires origin < |t.vvNew| && id in t.vvNew[origin]
    ensures |t.vvNew| == NEW_BUCKET_COUNT && |t.vvTried| == TRIED_BUCKET_COUNT
    ensures t.mapInfo[id].nRefCount == RefOf(t.vvNew, id) && |t.vvNew[origin] - {id}| < NEW_BUCKET_SIZE
    ensures forall k, i :: 0 <= k < |t.vvTried| && 0 <= i < |t.vvTried[k]| ==>
              0 <= t.vvTried[k][i] && t.vvTried[k][i] in t.mapInfo && t.vvTried[k][i] != id
    ensures Without(t.vvNew, id, 0) == t.vvNew
  {
  }

  function Around(n: nat, start: nat, size: nat): (r: nat)
    requires n < size && start < size
    ensures r == if n + start < size then n + start else n + start - size
  {
    (n + start) % size
  }

  /** A search all the way around misses no bucket. */
  lemma NowhereAround(vv: seq<set<int>>, id: int, start: nat)
    requires start < |vv| && forall m: nat :: m < |vv| ==> id !in vv[Around(m, start, |vv|)]
    ensures forall b :: 0 <= b < |vv| ==> id !in vv[b]
  {
    hide Around;
    forall b | 0 <= b < |vv| ensures id !in vv[b] {
      assert Around(if b >= start then b - start else b - start + |vv|, start, |vv|) == b;
    }
  }

  lemma NoNegativeIds(t: Tables, bucketOf: Service -> nat)
    requires Consistent(t, bucketOf, {})
    ensures -1 !in t.mapInfo
  {
  }

  lemma EntryOkAt(t: Tables, bucketOf: Service -> nat, id: int)
    requires Consistent(t, bucketOf, {}) && id in t.mapInfo
    ensures EntryOk(t.mapInfo[id])
  {
  }

  lemma BadEntry(t: Tables, bucketOf: Service -> nat, id: int)
    requires id in t.mapInfo && !EntryOk(t.mapInfo[id])
    ensures !Consistent(t, bucketOf, {})
  {
  }

  lemma PlacesKnown(t: Tables)
    requires RandomOk(t)
    ensures forall m :: 0 <= m < |t.vRandom| ==> t.vRandom[m] in t.mapInfo
  {
  }

  lemma SwapForward(t: Tables, p: nat, q: nat, bucketOf: Service -> nat)
    requires Consistent(t, bucketOf, {}) && p <= q < |t.vRandom|
    ensures var u := Swapped(t, p, q);
            && Consistent(u, bucketOf, {}) && u.mapInfo.Keys == t.mapInfo.Keys && |u.vRandom| == |t.vRandom|
            && (forall id :: id in t.mapInfo ==> SameEntry(u.mapInfo[id], t.mapInfo[id]))
            && forall m :: 0 <= m < p ==>
                 && u.vRandom[m] == t.vRandom[m] && t.vRandom[m] in t.mapInfo
                 && u.mapInfo[u.vRandom[m]].addr == t.mapInfo[t.vRandom[m]].addr
  {
    hide AddrOk, EntriesOk, NewOk, TriedOk, CountsOk;
    SwapRandomOk(t, p, q);
    SwapFrame(t, p, q);
    SwapConsistent(t, p, q, bucketOf, {});
    var u := Swapped(t, p, q);
    forall m | 0 <= m < p
      ensures u.vRandom[m] == t.vRandom[m] && t.vRandom[m] in t.mapInfo
      ensures u.mapInfo[t.vRandom[m]].addr == t.mapInfo[t.vRandom[m]].addr
    {
      assert SameEntry(u.mapInfo[t.vRandom[m]], t.mapInfo[t.vRandom[m]]);
    }
  }

  lemma InSomeBucket(t: Tables, id: int, bucketOf: Service -> nat)
    requires Consistent(t, bucketOf, {}) && id in t.mapInfo && !t.mapInfo[id].fInTried
    ensures exists b :: 0 <= b < |t.vvNew| && id in t.vvNew[b]
  {
    RefOfMember(t.vvNew, id);
  }

  /** Entries at different places in vRandom have different network addresses. */
  lemma DistinctAddresses(t: Tables, vAddr: seq<Address>)
    requires RandomOk(t) && AddrOk(t) && |vAddr| <= |t.vRandom|
    requires forall n :: 0 <= n < |vAddr| ==> vAddr[n] == t.mapInfo[t.vRandom[n]].addr
    ensures forall m, n :: 0 <= m < n < |vAddr| ==> vAddr[m].where.ip != vAddr[n].where.ip
  {
    forall m, n | 0 <= m < n < |vAddr|
      ensures vAddr[m].where.ip != vAddr[n].where.ip
    {
      assert t.mapInfo[t.vRandom[m]].nRandomPos == m && t.mapInfo[t.vRandom[n]].nRandomPos == n;
      var a, b := t.vRandom[m], t.vRandom[n];
      assert t.mapAddr[t.mapInfo[a].addr.where.ip] == a && t.mapAddr[t.mapInfo[b].addr.where.ip] == b;
    }
  }

  /** What a move to the tried buckets leaves alone. */
  lemma GoodFrame(u: Tables, v: Tables, id: int, k: nat, evicted: int, pos: int, b: nat, s: seq<int>, bucketOf: Service -> nat)
    requires Consistent(u, bucketOf, {}) && id in u.mapInfo && !u.mapInfo[id].fInTried && k < |u.vvTried|
    requires if |u.vvTried[k]| < TRIED_BUCKET_SIZE then evicted == -1 && v == Promoted(u, id, k)
             else && multiset(s) == multiset(u.vvTried[k]) && 0 <= pos < |s| && evicted == s[pos] && evicted in u.mapInfo
                  && u.mapInfo[evicted].fInTried && b < |u.vvNew| && v == Replaced(Shuffled(u, k, s), id, k, pos, b)
    ensures v.mapInfo.Keys == u.mapInfo.Keys && v.mapAddr == u.mapAddr && v.vRandom == u.vRandom
    ensures v.mapInfo[id] == u.mapInfo[id].(nRefCount := 0, fInTried := true)
    ensures forall o :: o in v.mapInfo && o != id && o != evicted ==> v.mapInfo[o] == u.mapInfo[o]
    ensures evicted in v.mapInfo ==>
              && evicted != id && u.mapInfo[evicted].fInTried && bucketOf(u.mapInfo[evicted].addr.where) % TRIED_BUCKET_COUNT == k
              && |u.vvTried[k]| == TRIED_BUCKET_SIZE
              && v.mapInfo[evicted] == u.mapInfo[evicted].(fInTried := false, nRefCount := 1)
    ensures v.nTried == u.nTried + if evicted in v.mapInfo then 0 else 1
  {
    hide RandomOk, AddrOk, NewOk, CountsOk, RefOf, SumLen, Without;
    if |u.vvTried[k]| >= TRIED_BUCKET_SIZE {
      assert evicted in multiset(s);
      assert evicted in u.vvTried[k];
    }
  }

  lemma GoodFrameAnyTime(u: Tables, v: Tables, id: int, k: nat, evicted: int, pos: int, b: nat, s: seq<int>,
                         bucketOf: Service -> nat)
    requires id in u.mapInfo && Consistent(Redated(u, id), bucketOf, {}) && !u.mapInfo[id].fInTried && k < |u.vvTried|
    requires if |u.vvTried[k]| < TRIED_BUCKET_SIZE then evicted == -1 && v == Promoted(u, id, k)
             else && multiset(s) == multiset(u.vvTried[k]) && 0 <= pos < |s| && evicted == s[pos] && evicted in u.mapInfo
                  && u.mapInfo[evicted].fInTried && b < |u.vvNew| && v == Replaced(Shuffled(u, k, s), id, k, pos, b)
    ensures v.mapInfo.Keys == u.mapInfo.Keys && v.mapAddr == u.mapAddr && v.vRandom == u.vRandom
    ensures v.mapInfo[id] == u.mapInfo[id].(nRefCount := 0, fInTried := true)
    ensures forall o :: o in v.mapInfo && o != id && o != evicted ==> v.mapInfo[o] == u.mapInfo[o]
    ensures evicted in v.mapInfo ==>
              && evicted != id && u.mapInfo[evicted].fInTried && bucketOf(u.mapInfo[evicted].addr.where) % TRIED_BUCKET_COUNT == k
              && |u.vvTried[k]| == TRIED_BUCKET_SIZE
              && v.mapInfo[evicted] == u.mapInfo[evicted].(fInTried := false, nRefCount := 1)
    ensures v.nTried == u.nTried + if evicted in v.mapInfo then 0 else 1
  {
    hide Consistent, Without;
    if |u.vvTried[k]| < TRIED_BUCKET_SIZE {
      PromotedRedated(u, id, k);
    } else {
      ReplacedRedated(u, id, k, s, pos, b);
    }
    GoodFrame(Redated(u, id), Redated(v, id), id, k, evicted, pos, b, s, bucketOf);
    var v' := Redated(v, id);
    assert forall o :: o in v.mapInfo && o != id ==> v'.mapInfo[o] == v.mapInfo[o];
  }

  /** Equal but for the bookkeeping. */
  predicate SameRecord(a: Info, b: Info) {
    a.(nRandomPos := 0, nRefCount := 0) == b.(nRandomPos := 0, nRefCount := 0)
  }

  /** max(0, nTime - nTimePenalty), as stored. */
  function Penalised(nTime: int, nTimePenalty: int): UInt32 {
    Wrap32(if nTime - nTimePenalty > 0 then nTime - nTimePenalty else 0)
  }

  /** A known address after an offer of it: its time moves on when it has grown old enough, its services accumulate. */
  function Refreshed(known: Address, addr: Address, nTimePenalty: int, now: int): (r: Address)
    ensures r.where == known.where
  {
    var nUpdateInterval := if now - addr.nTime < 24 * 60 * 60 then 60 * 60 else 24 * 60 * 60;
    var nTime :=
      if addr.nTime != 0 && (known.nTime == 0 || known.nTime < addr.nTime - nUpdateInterval - nTimePenalty) then
        Penalised(addr.nTime, nTimePenalty)
      else known.nTime;
    known.(nTime := nTime, nServices := known.nServices + addr.nServices)
  }

  /** After an offer with a time, the known time is never more than an hour and the penalty behind it, or a day and the
      penalty when the offer itself is a day old; it never goes back, and it moves only if it was that far behind or
      there was none. An offer without a time leaves it. */
  lemma KnownTimeKeepsUp(known: Address, addr: Address, nTimePenalty: nat, now: int)
    ensures var r := Refreshed(known, addr, nTimePenalty, now);
            var lag := nTimePenalty + if now - addr.nTime < 86400 then 3600 else 86400;
            && r.nTime >= known.nTime && r.where == known.where && r.nServices == known.nServices + addr.nServices
            && (addr.nTime > 0 ==> r.nTime >= addr.nTime - lag)
            && (r.nTime > known.nTime ==>
                  r.nTime == addr.nTime - nTimePenalty && (known.nTime == 0 || known.nTime < addr.nTime - lag))
            && (addr.nTime == 0 ==> r.nTime == known.nTime)
  {
  }

  /** Whether a refreshed entry is worth another reference: each one makes the next twice as unlikely, the first is sure. */
  method WorthAnother(info: Info, addr: Address) returns (worth: bool, ghost draw: int)
    ensures info.nRefCount >= 0 ==> 0 <= draw < Common.Pow2(info.nRefCount)
    ensures worth <==>
              && addr.nTime > 0 && (info.addr.nTime == 0 || addr.nTime > info.addr.nTime)
              && !info.fInTried && info.nRefCount != NEW_BUCKETS_PER_ADDRESS && draw == 0
    ensures worth ==> addr.nTime > info.addr.nTime && !info.fInTried && info.nRefCount != NEW_BUCKETS_PER_ADDRESS
    ensures addr.nTime > info.addr.nTime && !info.fInTried && info.nRefCount <= 0 ==> worth
  {
    draw := 0;
    if addr.nTime == 0 || (info.addr.nTime != 0 && addr.nTime <= info.addr.nTime) {
      return false, 0;
    }
    if info.fInTried {
      return false, 0;
    }
    if info.nRefCount == NEW_BUCKETS_PER_ADDRESS {
      return false, 0;
    }
    var nFactor, n := 1, 0;
    while n < info.nRefCount
      invariant 0 <= n && (info.nRefCount >= 0 ==> n <= info.nRefCount) && (info.nRefCount < 0 ==> n == 0)
      invariant nFactor == Common.Pow2(n)
    {
      nFactor, n := nFactor * 2, n + 1;
    }
    var drawn := RandInt(nFactor);
    return nFactor <= 1 || drawn == 0, drawn;
  }

  lemma KnownByAddress(t: Tables, bucketOf: Service -> nat, id: int)
    requires Consistent(t, bucketOf, {}) && id in t.mapInfo
    ensures t.mapInfo[id].addr.where.ip in t.mapAddr && t.mapAddr[t.mapInfo[id].addr.where.ip] == id
  {
  }

  /** The offered address has an entry, refreshed or created; nothing else has changed. */
  ghost predicate Admitted(t: Tables, u: Tables, addr: Address, source: NetAddr, nTimePenalty: int, now: int, fNew: bool, id: int)
  {
    && fNew == (addr.where.ip !in t.mapAddr)
    && id in u.mapInfo && u.mapInfo[id].addr.where.ip == addr.where.ip
    && u.vvNew == t.vvNew && u.vvTried == t.vvTried && u.nTried == t.nTried
    && if fNew then
         && id == t.nIdCount && id !in t.mapInfo && (forall b :: 0 <= b < |t.vvNew| ==> id !in t.vvNew[b])
         && u.mapInfo == t.mapInfo[id := Info(addr.(nTime := Penalised(addr.nTime, nTimePenalty)), source, 0, 0, 0, 0, false, |t.vRandom|)]
       else
         && id == t.mapAddr[addr.where.ip] && id in t.mapInfo
         && u.mapInfo == t.mapInfo[id := t.mapInfo[id].(addr := Refreshed(t.mapInfo[id].addr, addr, nTimePenalty, now))]
  }

  /** Bucket b has taken in an id, at the cost of at most one entry. */
  ghost predicate Inserted(u: Tables, v: Tables, id: int, b: nat, dropped: set<int>)
  {
    && b < |u.vvNew| == |v.vvNew| && id in v.vvNew[b] && v.vvNew == u.vvNew[b := v.vvNew[b]]
    && |dropped| <= 1 && id !in dropped && id in u.mapInfo && v.mapInfo.Keys == u.mapInfo.Keys - dropped
    && dropped <= u.vvNew[b] && (dropped != {} ==> |u.vvNew[b]| == NEW_BUCKET_SIZE)
    && (forall o :: o in v.mapInfo ==> SameRecord(v.mapInfo[o], u.mapInfo[o]))
    && v.mapInfo[id].nRefCount == u.mapInfo[id].nRefCount + 1
    && v.vvTried == u.vvTried && v.nTried == u.nTried
  }

  /** What an offer for new bucket b does to the tables. One not known yet always gets an entry; a known one is refreshed
      and may gain a reference, if the offer has seen it more recently. At most one other entry is lost, one referenced
      only from bucket b, and that only when b was full; the tried buckets are never touched. */
  ghost predicate Offered(t: Tables, u: Tables, addr: Address, source: NetAddr, nTimePenalty: int, now: int, b: nat,
      fNew: bool, dropped: set<int>)
  {
    var ip := addr.where.ip;
    && fNew == (ip !in t.mapAddr)
    && ip in u.mapAddr && u.mapAddr[ip] in u.mapInfo && b < |u.vvNew| == |t.vvNew|
    && (var id := u.mapAddr[ip];
        && (fNew ==>
              && id == t.nIdCount && u.mapInfo[id].nRefCount == 1 && id in u.vvNew[b]
              && SameRecord(u.mapInfo[id], Info(addr.(nTime := Penalised(addr.nTime, nTimePenalty)), source, 0, 0, 0, 0, false, 0)))
        && (!fNew ==>
              && id == t.mapAddr[ip] && id in t.mapInfo
              && SameRecord(u.mapInfo[id], t.mapInfo[id].(addr := Refreshed(t.mapInfo[id].addr, addr, nTimePenalty, now)))
              && (u.mapInfo[id].nRefCount == t.mapInfo[id].nRefCount
                  || (u.mapInfo[id].nRefCount == t.mapInfo[id].nRefCount + 1 && u.mapInfo[id].addr.nTime < addr.nTime)))
        && (forall o :: o in u.mapInfo && o in t.mapInfo && o != id ==> SameRecord(u.mapInfo[o], t.mapInfo[o])))
    && |dropped| <= 1 && dropped <= t.vvNew[b] && (dropped != {} ==> |t.vvNew[b]| == NEW_BUCKET_SIZE)
    && u.mapInfo.Keys == t.mapInfo.Keys - dropped + (if fNew then {t.nIdCount} else {})
    && u.vvTried == t.vvTried && u.nTried == t.nTried && u.vvNew == t.vvNew[b := u.vvNew[b]]
  }

  lemma OfferCreated(t: Tables, u: Tables, v: Tables, addr: Address, source: NetAddr, nTimePenalty: int, now: int, b: nat,
      id: int, dropped: set<int>)
    requires Admitted(t, u, addr, source, nTimePenalty, now, true, id) && Inserted(u, v, id, b, dropped)
    requires addr.where.ip in v.mapAddr && v.mapAddr[addr.where.ip] == id
    ensures Offered(t, v, addr, source, nTimePenalty, now, b, true, dropped)
  {
  }

  lemma OfferReferenced(t: Tables, u: Tables, v: Tables, addr: Address, source: NetAddr, nTimePenalty: int, now: int, b: nat,
      id: int, dropped: set<int>)
    requires Admitted(t, u, addr, source, nTimePenalty, now, false, id) && Inserted(u, v, id, b, dropped)
    requires addr.where.ip in v.mapAddr && v.mapAddr[addr.where.ip] == id && u.mapInfo[id].addr.nTime < addr.nTime
    ensures Offered(t, v, addr, source, nTimePenalty, now, b, false, dropped)
  {
  }

  lemma OfferRefreshed(t: Tables, u: Tables, addr: Address, source: NetAddr, nTimePenalty: int, now: int, b: nat, id: int)
    requires Admitted(t, u, addr, source, nTimePenalty, now, false, id) && b < |t.vvNew|
    requires addr.where.ip in u.mapAddr && u.mapAddr[addr.where.ip] == id
    ensures Offered(t, u, addr, source, nTimePenalty, now, b, false, {})
  {
  }

  lemma BucketsFit(t: Tables, bucketOf: Service -> nat, pending: set<int>)
    requires Consistent(t, bucketOf, pending)
    ensures |t.vvNew| == NEW_BUCKET_COUNT
    ensures forall b :: 0 <= b < |t.vvNew| ==> |t.vvNew[b]| <= NEW_BUCKET_SIZE && t.vvNew[b] <= t.mapInfo.Keys
    ensures t.nIdCount !in t.mapInfo
  {
    forall b | 0 <= b < |t.vvNew| ensures t.vvNew[b] <= t.mapInfo.Keys {
      assert forall id :: id in t.vvNew[b] ==> id in t.mapInfo;
    }
  }

  /** What a dropped reference leaves alone. */
  lemma DropRefFrame(t: Tables, id: int, b: nat, bucketOf: Service -> nat, pending: set<int>)
    requires Consistent(t, bucketOf, pending) && id in t.mapInfo && b < |t.vvNew| && id in t.vvNew[b]
    ensures var u := DropRef(t, id, b);
            && u.mapInfo.Keys == t.mapInfo.Keys - (if t.mapInfo[id].nRefCount == 1 then {id} else {})
            && (forall o :: o in u.mapInfo ==> SameRecord(u.mapInfo[o], t.mapInfo[o]))
            && (forall o :: o in u.mapInfo && o != id ==> u.mapInfo[o].nRefCount == t.mapInfo[o].nRefCount)
            && u.nIdCount == t.nIdCount && u.vvTried == t.vvTried && u.nTried == t.nTried
            && u.vvNew == t.vvNew[b := t.vvNew[b] - {id}]
  {
    hide RandomOk, AddrOk, EntriesOk, NewOk, TriedOk, CountsOk, Erased;
    var u := Unreferenced(t, id, b);
    FieldsDoNotMatter(t, u, bucketOf);
    if t.mapInfo[id].nRefCount == 1 {
      EraseRandomOk(u, id);
      forall o | o in DropRef(t, id, b).mapInfo
        ensures SameRecord(DropRef(t, id, b).mapInfo[o], t.mapInfo[o])
        ensures o != id ==> DropRef(t, id, b).mapInfo[o].nRefCount == t.mapInfo[o].nRefCount
      {
        assert SameEntry(Erased(u, id).mapInfo[o], u.mapInfo[o]);
      }
    }
  }

  // ---------------------------------------------------------------- the consistency check

  ghost function TriedIds(t: Tables): set<int> {
    set id | id in t.mapInfo && t.mapInfo[id].fInTried
  }

  /** nTried counts the tried entries, and nNew the others. */
  lemma TriedCount(t: Tables, bucketOf: Service -> nat)
    requires Consistent(t, bucketOf, {})
    ensures |TriedIds(t)| == t.nTried && |t.mapInfo.Keys - TriedIds(t)| == t.nNew
  {
    hide RandomOk, AddrOk, EntriesOk, NewOk, TriedOk, SumLen;
    AllTried(t, bucketOf);
    ListedOnce(t);
    assert t.mapInfo.Keys == TriedIds(t) + (t.mapInfo.Keys - TriedIds(t));
  }

  lemma AllTried(t: Tables, bucketOf: Service -> nat)
    requires TriedOk(t, bucketOf)
    ensures |TriedIds(t)| == SumLen(t.vvTried)
  {
    hide SumLen;
    var all := FlatTried(t.vvTried, TriedIds(t));
    forall id | id in TriedIds(t) ensures id in all {
      var b := bucketOf(t.mapInfo[id].addr.where) % TRIED_BUCKET_COUNT;
      assert id in t.vvTried[b];
    }
    assert all == TriedIds(t);
  }

  lemma {:induction false} FlatTried(vv: seq<seq<int>>, limit: set<int>) returns (all: set<int>)
    requires forall b, i, j :: 0 <= b < |vv| && 0 <= i < j < |vv[b]| ==> vv[b][i] != vv[b][j]
    requires forall b, c, id :: 0 <= b < c < |vv| && id in vv[b] ==> id !in vv[c]
    requires forall b, id :: 0 <= b < |vv| && id in vv[b] ==> id in limit
    ensures |all| == SumLen(vv) && all <= limit
    ensures forall id :: id in all <==> exists b :: 0 <= b < |vv| && id in vv[b]
  {
    if vv == [] {
      all := {};
    } else {
      var last := |vv| - 1;
      var most := FlatTried(vv[..last], limit);
      var top := set id | id in vv[last];
      DistinctSize(vv[last]);
      assert most !! top;
      all := most + top;
    }
  }

  lemma EntryFacts(t: Tables, bucketOf: Service -> nat, id: int)
    requires Consistent(t, bucketOf, {}) && id in t.mapInfo
    ensures var info := t.mapInfo[id];
            && EntryOk(info) && info.addr.where.ip in t.mapAddr && t.mapAddr[info.addr.where.ip] == id
            && 0 <= info.nRandomPos < |t.vRandom| && t.vRandom[info.nRandomPos] == id
  {
  }

  method CheckEntry(n: int, info: Info, mapAddr: map<NetAddr, int>, vRandom: seq<int>) returns (err: int)
    ensures err == 0 <==>
              && EntryOk(info) && info.addr.where.ip in mapAddr && mapAddr[info.addr.where.ip] == n
              && 0 <= info.nRandomPos < |vRandom| && vRandom[info.nRandomPos] == n
  {
    if info.fInTried {
      if info.nLastSuccess == 0 {
        return -1;
      }
      if info.nRefCount != 0 {
        return -2;
      }
    } else {
      if info.nRefCount < 0 || info.nRefCount > NEW_BUCKETS_PER_ADDRESS {
        return -3;
      }
      if info.nRefCount == 0 {
        return -4;
      }
    }
    if info.addr.where.ip !in mapAddr || mapAddr[info.addr.where.ip] != n {
      return -5;
    }
    if info.nRandomPos < 0 || info.nRandomPos >= |vRandom| || vRandom[info.nRandomPos] != n {
      return -14;
    }
    if info.nLastTry < 0 {
      return -6;
    }
    if info.nLastSuccess < 0 {
      return -8;
    }
    err := 0;
  }

  method CheckEntries(mapInfo: map<int, Info>, mapAddr: map<NetAddr, int>, vRandom: seq<int>, ghost t: Tables,
      ghost bucketOf: Service -> nat)
    returns (err: int, setTried: set<int>, mapNew: map<int, int>)
    requires Consistent(t, bucketOf, {}) && mapInfo == t.mapInfo && mapAddr == t.mapAddr && vRandom == t.vRandom
    ensures err == 0 && setTried == TriedIds(t) && mapNew.Keys == t.mapInfo.Keys - TriedIds(t)
    ensures forall id :: id in mapNew ==> mapNew[id] == t.mapInfo[id].nRefCount > 0
  {
    hide RandomOk, AddrOk, EntriesOk, NewOk, TriedOk, CountsOk, Consistent, SumLen, RefOf;
    err, setTried, mapNew := 0, {}, map[];
    var rest := mapInfo.Keys;
    while rest != {}
      invariant err == 0 && rest <= mapInfo.Keys
      invariant forall id :: id in setTried <==> id in mapInfo && id !in rest && mapInfo[id].fInTried
      invariant forall id :: id in mapNew <==> id in mapInfo && id !in rest && !mapInfo[id].fInTried
      invariant forall id :: id in mapNew ==> mapNew[id] == t.mapInfo[id].nRefCount > 0
      decreases |rest|
    {
      HasMember(rest);
      var n :| n in rest;
      EntryFacts(t, bucketOf, n);
      var info := mapInfo[n];
      err := CheckEntry(n, info, mapAddr, vRandom);
      if err != 0 {
        return;
      }
      if info.fInTried {
        setTried := setTried + {n};
      } else {
        mapNew := mapNew[n := info.nRefCount];
      }
      rest := rest - {n};
    }
    assert forall id :: id in setTried <==> id in TriedIds(t);
    assert forall id :: id in mapNew <==> id in t.mapInfo.Keys - TriedIds(t);
  }

  /** Strikes every id in the tried buckets off a list; none is missing there and none is left. */
  method StrikeTried(vvTried: seq<seq<int>>, ids: set<int>, ghost home: map<int, nat>) returns (err: int, setTried: set<int>)
    requires home.Keys == ids
    requires forall b, i :: 0 <= b < |vvTried| && 0 <= i < |vvTried[b]| ==> vvTried[b][i] in ids && home[vvTried[b][i]] == b
    requires forall b, i, j :: 0 <= b < |vvTried| && 0 <= i < j < |vvTried[b]| ==> vvTried[b][i] != vvTried[b][j]
    requires forall id :: id in ids ==> home[id] < |vvTried| && id in vvTried[home[id]]
    ensures err == 0 && setTried == {}
  {
    setTried := ids;
    var n := 0;
    while n < |vvTried|
      invariant n <= |vvTried|
      invariant forall id :: id in setTried <==> id in ids && home[id] >= n
    {
      var i := 0;
      while i < |vvTried[n]|
        invariant i <= |vvTried[n]|
        invariant forall id :: id in setTried <==> id in ids && (home[id] > n || (home[id] == n && id in vvTried[n][i..]))
      {
        if vvTried[n][i] !in setTried {
          return -11, setTried;
        }
        setTried := setTried - {vvTried[n][i]};
        i := i + 1;
      }
      n := n + 1;
    }
    assert forall id :: id !in setTried;
    err := 0;
  }

  /** How often an id occurs from bucket n on. */
  ghost function Left(vv: seq<set<int>>, n: nat, id: int): int
    requires n <= |vv|
  {
    RefOf(vv, id) - RefOf(vv[..n], id)
  }

  lemma {:induction false} LeftSteps(vv: seq<set<int>>, n: nat, id: int)
    requires n <= |vv|
    ensures Left(vv, n, id) >= 0 && (n == 0 ==> Left(vv, n, id) == RefOf(vv, id)) && (n == |vv| ==> Left(vv, n, id) == 0)
    ensures n < |vv| ==> Left(vv, n, id) == Left(vv, n + 1, id) + if id in vv[n] then 1 else 0
    decreases |vv| - n
  {
    assert vv[..|vv|] == vv;
    if n < |vv| {
      LeftSteps(vv, n + 1, id);
      assert vv[..n + 1][..n] == vv[..n];
    }
  }

  /** Counts every id in the new buckets down; none is missing there and none is left. */
  method StrikeNew(vvNew: seq<set<int>>, counts: map<int, int>) returns (err: int, mapNew: map<int, int>)
    requires forall id :: id in counts ==> counts[id] == RefOf(vvNew, id) > 0
    requires forall b, id :: 0 <= b < |vvNew| && id in vvNew[b] ==> id in counts
    ensures err == 0 && mapNew == map[]
  {
    hide RefOf, Left;
    mapNew := counts;
    forall id ensures Left(vvNew, 0, id) > 0 <==> id in counts {
      LeftSteps(vvNew, 0, id);
      RefOfMember(vvNew, id);
    }
    forall id | id in counts ensures Left(vvNew, 0, id) == counts[id] {
      LeftSteps(vvNew, 0, id);
    }
    var n := 0;
    while n < |vvNew|
      invariant n <= |vvNew|
      invariant forall id :: id in mapNew <==> Left(vvNew, n, id) > 0
      invariant forall id :: id in mapNew ==> mapNew[id] == Left(vvNew, n, id)
    {
      forall id
        ensures Left(vvNew, n, id) == Left(vvNew, n + 1, id) + if id in vvNew[n] then 1 else 0
      {
        LeftSteps(vvNew, n, id);
      }
      forall id {:trigger Left(vvNew, n + 1, id)}
        ensures Left(vvNew, n + 1, id) >= 0
      {
        LeftSteps(vvNew, n + 1, id);
      }
      err, mapNew := StrikeBucket(vvNew, n, mapNew);
      if err != 0 {
        return;
      }
      n := n + 1;
    }
    forall id ensures Left(vvNew, |vvNew|, id) == 0 {
      LeftSteps(vvNew, |vvNew|, id);
    }
    assert forall id :: id !in mapNew;
    err := 0;
  }

  method StrikeBucket(vvNew: seq<set<int>>, n: nat, before: map<int, int>) returns (err: int, mapNew: map<int, int>)
    requires n < |vvNew|
    requires forall id :: id in before <==> Left(vvNew, n + 1, id) + (if id in vvNew[n] then 1 else 0) > 0
    requires forall id :: id in before ==> before[id] == Left(vvNew, n + 1, id) + if id in vvNew[n] then 1 else 0
    requires forall id {:trigger Left(vvNew, n + 1, id)} :: Left(vvNew, n + 1, id) >= 0
    ensures err == 0
    ensures forall id :: id in mapNew <==> Left(vvNew, n + 1, id) > 0
    ensures forall id :: id in mapNew ==> mapNew[id] == Left(vvNew, n + 1, id)
  {
    hide Left;
    mapNew := before;
    var rest := vvNew[n];
    while rest != {}
      invariant rest <= vvNew[n]
      invariant forall id :: id in mapNew <==> Left(vvNew, n + 1, id) + (if id in rest then 1 else 0) > 0
      invariant forall id :: id in mapNew ==> mapNew[id] == Left(vvNew, n + 1, id) + if id in rest then 1 else 0
      decreases |rest|
    {
      HasMember(rest);
      var id :| id in rest;
      if id !in mapNew {
        return -12, mapNew;
      }
      mapNew := mapNew[id := mapNew[id] - 1];
      if mapNew[id] == 0 {
        mapNew := mapNew - {id};
      }
      rest := rest - {id};
    }
    err := 0;
  }

  /** What the strikes rely on. */
  lemma StrikingFits(t: Tables, bucketOf: Service -> nat, home: map<int, nat>)
    requires Consistent(t, bucketOf, {}) && home.Keys == TriedIds(t)
    requires forall id :: id in home ==> home[id] == bucketOf(t.mapInfo[id].addr.where) % TRIED_BUCKET_COUNT
    ensures forall b, i :: 0 <= b < |t.vvTried| && 0 <= i < |t.vvTried[b]| ==> t.vvTried[b][i] in home && home[t.vvTried[b][i]] == b
    ensures forall b, i, j :: 0 <= b < |t.vvTried| && 0 <= i < j < |t.vvTried[b]| ==> t.vvTried[b][i] != t.vvTried[b][j]
    ensures forall id :: id in home ==> home[id] < |t.vvTried| && id in t.vvTried[home[id]]
  {
    hide SumLen, RandomOk, AddrOk, NewOk;
  }

  lemma CountingFits(t: Tables, bucketOf: Service -> nat)
    requires Consistent(t, bucketOf, {})
    ensures forall id :: id in t.mapInfo && id !in TriedIds(t) ==> t.mapInfo[id].nRefCount == RefOf(t.vvNew, id)
    ensures forall b, id :: 0 <= b < |t.vvNew| && id in t.vvNew[b] ==> id in t.mapInfo && id !in TriedIds(t)
  {
    hide RefOf, SumLen, RandomOk, AddrOk, TriedOk;
  }

  class CAddrMan {
    /** The bucket hashes under this manager's secret key. */
    const triedHash: Service -> nat
    const newHash: (NetAddr, NetAddr) -> nat

    var nIdCount: int
    var mapInfo: map<int, Info>
    var mapAddr: map<NetAddr, int>
    var vRandom: seq<int>
    var nTried: int
    var vvTried: seq<seq<int>>
    var nNew: int
    var vvNew: seq<set<int>>

    ghost function T(): Tables
      reads this
    {
      Tables(nIdCount, mapInfo, mapAddr, vRandom, nTried, vvTried, nNew, vvNew)
    }

    ghost predicate Valid()
      reads this
    {
      0 <= nIdCount && Consistent(T(), triedHash, {})
    }

    function TriedBucket(where: Service): (k: nat)
      ensures k < TRIED_BUCKET_COUNT
    {
      triedHash(where) % TRIED_BUCKET_COUNT
    }

    function NewBucket(ip: NetAddr, source: NetAddr): (b: nat)
      ensures b < NEW_BUCKET_COUNT
    {
      newHash(ip, source) % NEW_BUCKET_COUNT
    }

    constructor (triedHash: Service -> nat, newHash: (NetAddr, NetAddr) -> nat)
      ensures Valid() && mapInfo == map[]
      ensures this.triedHash == triedHash && this.newHash == newHash
    {
      this.triedHash, this.newHash := triedHash, newHash;
      nIdCount, nTried, nNew := 0, 0, 0;
      mapInfo, mapAddr, vRandom := map[], map[], [];
      vvTried := seq(TRIED_BUCKET_COUNT, _ => []);
      vvNew := seq(NEW_BUCKET_COUNT, _ => {});
      new;
      NothingTried(vvTried);
    }

    /** The id of a network address, if it has an entry. */
    method Find(ip: NetAddr) returns (found: bool, nId: int)
      requires Valid()
      ensures found == (ip in mapAddr)
      ensures found ==> nId in mapInfo && mapInfo[nId].addr.where.ip == ip
      ensures found ==> nId == mapAddr[ip]
    {
      if ip !in mapAddr {
        return false, -1;
      }
      nId := mapAddr[ip];
      found := nId in mapInfo;
    }

    method SwapRandom(p: nat, q: nat)
      requires RandomOk(T()) && p < |vRandom| && q < |vRandom|
      modifies `mapInfo, `vRandom
      ensures T() == Swapped(old(T()), p, q)
    {
      if p == q {
        return;
      }
      var a, b := vRandom[p], vRandom[q];
      mapInfo := mapInfo[a := mapInfo[a].(nRandomPos := q)];
      mapInfo := mapInfo[b := mapInfo[b].(nRandomPos := p)];
      vRandom := vRandom[p := b];
      vRandom := vRandom[q := a];
    }

    /** Removes an entry from both maps and from vRandom. */
    method Erase(nId: int)
      requires RandomOk(T()) && nId in mapInfo
      modifies this
      ensures T() == Erased(old(T()), nId) && vvNew == old(vvNew)
    {
      hide Swapped;
      SwapFrame(T(), mapInfo[nId].nRandomPos, |vRandom| - 1);
      SwapRandom(mapInfo[nId].nRandomPos, |vRandom| - 1);
      vRandom := vRandom[..|vRandom| - 1];
      mapAddr := mapAddr - {mapInfo[nId].addr.where.ip};
      mapInfo := mapInfo - {nId};
      nNew := nNew - 1;
    }

    /** Takes an id out of new bucket b, and out of the tables with its last reference. */
    method Release(nId: int, b: nat)
      requires RandomOk(T()) && nId in mapInfo && b < |vvNew|
      modifies this
      ensures T() == DropRef(old(T()), nId, b)
    {
      hide Erased, SumLen, RefOf;
      ghost var v := vvNew[b := vvNew[b] - {nId}];
      mapInfo := mapInfo[nId := mapInfo[nId].(nRefCount := mapInfo[nId].nRefCount - 1)];
      assert RandomOk(T());
      if mapInfo[nId].nRefCount == 0 {
        EraseCommutes(T(), nId, v);
        Erase(nId);
      }
      vvNew := vvNew[b := vvNew[b] - {nId}];
    }

    /** Makes room in a new bucket: the first terrible entry goes; failing that, the oldest of up to four drawn at
        random. The id that waits for the place is never the one to go. */
    method ShrinkNew(b: nat, now: int, ghost pending: set<int>)
      returns (r: int, ghost dropped: int, ghost draws: seq<int>)
      requires Consistent(T(), triedHash, pending) && b < |vvNew| && vvNew[b] != {} && pending !! vvNew[b]
      modifies this
      ensures dropped in old(vvNew)[b] && T() == DropRef(old(T()), dropped, b)
      ensures Consistent(T(), triedHash, pending)
      ensures old(vvNew)[b] <= old(mapInfo).Keys
      ensures r == 0 ==>
                && old(mapInfo)[dropped].IsTerrible(now)
                && forall o :: o in old(vvNew)[b] && o < dropped ==> !old(mapInfo)[o].IsTerrible(now)
      ensures r != 0 ==>
                && r == 1 && (forall o :: o in old(vvNew)[b] ==> !old(mapInfo)[o].IsTerrible(now))
                && |draws| == 4 && Rank(old(vvNew)[b], dropped) in draws
                && forall o :: o in old(vvNew)[b] && Rank(old(vvNew)[b], o) in draws ==> OlderOf(old(mapInfo), dropped, o)
    {
      hide RandomOk, AddrOk, EntriesOk, TriedOk, CountsOk, RefOf, DropRef, Rank;
      ghost var t := T();
      BucketsHoldIds(t, b, pending);
      draws := [];
      var rest := vvNew[b];
      while rest != {}
        invariant T() == t && rest <= vvNew[b]
        invariant forall o :: o in vvNew[b] && o !in rest ==> !mapInfo[o].IsTerrible(now)
        invariant forall o, q :: o in vvNew[b] && o !in rest && q in rest ==> o < q
        decreases |rest|
      {
        var nId := Least(rest);
        if mapInfo[nId].IsTerrible(now) {
          DropRefConsistent(t, nId, b, triedHash, pending);
          Release(nId, b);
          return 0, nId, [];
        }
        rest := rest - {nId};
      }
      var n0 := RandInt(|vvNew[b]|);
      var n1 := RandInt(|vvNew[b]|);
      var n2 := RandInt(|vvNew[b]|);
      var n3 := RandInt(|vvNew[b]|);
      var nOldest := OldestOfFour(vvNew[b], mapInfo, [n0, n1, n2, n3]);
      DropRefConsistent(t, nOldest, b, triedHash, pending);
      Release(nOldest, b);
      return 1, nOldest, [n0, n1, n2, n3];
    }

    /** The position in a full tried bucket to give up, after a partial shuffle of that bucket. */
    method SelectTried(k: nat) returns (nOldestPos: int, ghost draws: seq<nat>)
      requires k < |vvTried| && forall i :: 0 <= i < |vvTried[k]| ==> 0 <= vvTried[k][i] && vvTried[k][i] in mapInfo
      modifies `vvTried
      ensures |vvTried| == |old(vvTried)| && T() == Shuffled(old(T()), k, vvTried[k])
      ensures multiset(vvTried[k]) == multiset(old(vvTried)[k])
      ensures if vvTried[k] == [] then nOldestPos == -1 else 0 <= nOldestPos < |vvTried[k]|
      ensures Selected(old(vvTried)[k], mapInfo, draws, vvTried[k], nOldestPos)
    {
      hide Scanned, Drawn, FirstOldest;
      var vTried;
      vTried, nOldestPos, draws := ShuffleFront(vvTried[k], mapInfo);
      ScanSelects(vvTried[k], mapInfo, draws);
      vvTried := vvTried[k := vTried];
    }

    /** Takes an entry out of every new bucket. */
    method Unlist(nId: int)
      requires nId in mapInfo && mapInfo[nId].nRefCount == RefOf(vvNew, nId)
      modifies this
      ensures T() == Unlisted(old(T()), nId)
    {
      ghost var t := T();
      assert Without(t.vvNew, nId, 0) == t.vvNew;
      var n := 0;
      while n < |vvNew|
        invariant n <= |vvNew| == |t.vvNew| && vvNew == Without(t.vvNew, nId, n)
        invariant mapInfo == t.mapInfo[nId := t.mapInfo[nId].(nRefCount := RefOf(vvNew, nId))]
        invariant T() == t.(mapInfo := mapInfo, vvNew := vvNew)
      {
        assert Without(t.vvNew, nId, n + 1) == vvNew[n := vvNew[n] - {nId}];
        RefOfUpdate(vvNew, n, vvNew[n] - {nId}, nId);
        if nId in vvNew[n] {
          vvNew := vvNew[n := vvNew[n] - {nId}];
          mapInfo := mapInfo[nId := mapInfo[nId].(nRefCount := mapInfo[nId].nRefCount - 1)];
        } else {
          assert vvNew[n] - {nId} == vvNew[n];
        }
        n := n + 1;
      }
      RefOfWithout(t.vvNew, nId, nId);
      nNew := nNew - 1;
    }

    /** An unlisted entry takes over a place in a tried bucket, and what stood there goes back to the new buckets: to its
        own one or, if that is full, to the one the unlisted entry came from. */
    method TakePlace(nId: int, nOrigin: nat, k: nat, nPos: nat) returns (ghost b: nat)
      requires nId in mapInfo && k < |vvTried| && nPos < |vvTried[k]| && nOrigin < |vvNew| == NEW_BUCKET_COUNT
      requires vvTried[k][nPos] in mapInfo && vvTried[k][nPos] != nId
      modifies this
      ensures var out := old(vvTried)[k][nPos];
              && (var own := NewBucket(old(mapInfo)[out].addr.where.ip, old(mapInfo)[out].source);
                  b == if |old(vvNew)[own]| < NEW_BUCKET_SIZE then own else nOrigin)
              && T() == TookPlace(old(T()), nId, k, nPos, b)
    {
      var out := vvTried[k][nPos];
      var nUBucket := NewBucket(mapInfo[out].addr.where.ip, mapInfo[out].source);
      mapInfo := mapInfo[out := mapInfo[out].(fInTried := false, nRefCount := 1)];
      if |vvNew[nUBucket]| < NEW_BUCKET_SIZE {
        b := nUBucket;
        vvNew := vvNew[nUBucket := vvNew[nUBucket] + {out}];
      } else {
        b := nOrigin;
        vvNew := vvNew[nOrigin := vvNew[nOrigin] + {out}];
      }
      nNew := nNew + 1;
      vvTried := vvTried[k := vvTried[k][nPos := nId]];
      mapInfo := mapInfo[nId := mapInfo[nId].(fInTried := true)];
    }

    /** Moves a new entry to its tried bucket, at the cost of an entry there when it is full. */
    method MakeTried(nId: int, nOrigin: nat)
      returns (ghost evicted: int, ghost pos: int, ghost b: nat, ghost s: seq<int>, ghost draws: seq<nat>)
      requires nId in mapInfo && Consistent(Redated(T(), nId), triedHash, {}) && !mapInfo[nId].fInTried
      requires nOrigin < |vvNew| && nId in vvNew[nOrigin]
      modifies this
      ensures nId in mapInfo && Consistent(Redated(T(), nId), triedHash, {})
      ensures var k := TriedBucket(old(mapInfo)[nId].addr.where);
              k < |old(vvTried)| &&
              if |old(vvTried)[k]| < TRIED_BUCKET_SIZE then
                evicted == -1 && T() == Promoted(old(T()), nId, k)
              else
                && Selected(old(vvTried)[k], old(mapInfo), draws, s, pos)
                && multiset(s) == multiset(old(vvTried)[k]) && 0 <= pos < |s| && evicted == s[pos] && nId !in s
                && evicted in old(mapInfo) && old(mapInfo)[evicted].fInTried && |old(vvNew)| == NEW_BUCKET_COUNT
                && (var own := NewBucket(old(mapInfo)[evicted].addr.where.ip, old(mapInfo)[evicted].source);
                    b == if |old(vvNew)[own] - {nId}| < NEW_BUCKET_SIZE then own else nOrigin)
                && T() == Replaced(Shuffled(old(T()), k, s), nId, k, pos, b)
    {
      hide RandomOk, AddrOk, EntriesOk, NewOk, TriedOk, CountsOk, RefOf, Consistent, Selected;
      ghost var t := T();
      ghost var u := Redated(t, nId);
      MakeTriedFacts(u, nId, nOrigin, triedHash);
      Unlist(nId);
      assert mapInfo[nId].nRefCount == 0;
      var k := TriedBucket(mapInfo[nId].addr.where);
      evicted, pos, b, s, draws := -1, -1, 0, [], [];
      if |vvTried[k]| < TRIED_BUCKET_SIZE {
        PromoteConsistent(u, nId, triedHash);
        PromotedRedated(t, nId, k);
        vvTried := vvTried[k := vvTried[k] + [nId]];
        nTried := nTried + 1;
        mapInfo := mapInfo[nId := mapInfo[nId].(fInTried := true)];
        assert T() == Promoted(t, nId, k);
        return;
      }
      var nPos;
      nPos, draws := SelectTried(k);
      pos, s := nPos, vvTried[k];
      ShuffleConsistent(u, k, s, triedHash);
      OthersOnly(Shuffled(u, k, s), nId, k, triedHash);
      SelectedSame(t.vvTried[k], mapInfo, t.mapInfo, draws, s, pos);
      TriedPlaceKnown(Shuffled(u, k, s), triedHash, k, pos);
      evicted := vvTried[k][pos];
      b := TakePlace(nId, nOrigin, k, nPos);
      ReplaceConsistent(Shuffled(u, k, s), nId, pos, b, triedHash);
      ReplacedRedated(t, nId, k, s, pos, b);
    }

    /** The entry of exactly this service, port included. */
    ghost predicate Known(addr: Service)
      reads this
    {
      addr.ip in mapAddr && mapAddr[addr.ip] in mapInfo && mapInfo[mapAddr[addr.ip]].addr.where == addr
    }

    /** A service known exactly becomes, or stays, tried, with fresh statistics. Nobody is lost: at most one entry of its
        tried bucket falls back to the new ones, and that only when the bucket was full. The tables stay consistent if and
        only if the time is positive or the service is not known exactly. */
    method Good(addr: Service, nTime: int) returns (ghost evicted: int, ghost pos: int, ghost s: seq<int>, ghost draws: seq<nat>)
      requires Valid()
      modifies this
      ensures Valid() <==> nTime > 0 || !old(Known(addr))
      ensures !old(Known(addr)) ==> T() == old(T())
      ensures mapInfo.Keys == old(mapInfo).Keys && mapAddr == old(mapAddr) && vRandom == old(vRandom)
      ensures old(Known(addr)) ==>
                var id := mapAddr[addr.ip];
                && mapInfo[id] == old(mapInfo)[id].(addr := old(mapInfo)[id].addr.(nTime := Wrap32(nTime)),
                     nLastSuccess := nTime, nLastTry := nTime, nAttempts := 0, nRefCount := 0, fInTried := true)
                && (forall o :: o in mapInfo && o != id && o != evicted ==> mapInfo[o] == old(mapInfo)[o])
                && (evicted in mapInfo ==>
                      && evicted != id && old(mapInfo)[evicted].fInTried
                      && TriedBucket(old(mapInfo)[evicted].addr.where) == TriedBucket(addr)
                      && |old(vvTried)[TriedBucket(addr)]| == TRIED_BUCKET_SIZE
                      && mapInfo[evicted] == old(mapInfo)[evicted].(fInTried := false, nRefCount := 1))
                && nTried == old(nTried) + if old(mapInfo)[id].fInTried || evicted in mapInfo then 0 else 1
      ensures TriedBucket(addr) < |old(vvTried)|
      ensures evicted in mapInfo ==> Evicts(old(vvTried)[TriedBucket(addr)], old(mapInfo), draws, s, pos, evicted)
      ensures old(Known(addr)) ==>
                var id, k := mapAddr[addr.ip], TriedBucket(addr);
                vvTried == if old(mapInfo)[id].fInTried then old(vvTried)
                           else old(vvTried)[k := if evicted in mapInfo then s[pos := id] else old(vvTried)[k] + [id]]
    {
      hide RandomOk, AddrOk, EntriesOk, NewOk, TriedOk, CountsOk, RefOf, Consistent, Selected, AsOldAsDrawn;
      ghost var t := T();
      evicted, pos, s, draws := -1, -1, [], [];
      NoNegativeIds(t, triedHash);
      BucketsCounted(t, triedHash);
      var found, nId := Find(addr.ip);
      if !found || mapInfo[nId].addr.where != addr {
        return;
      }
      var info := mapInfo[nId];
      info := info.(addr := info.addr.(nTime := Wrap32(nTime)), nLastSuccess := nTime, nLastTry := nTime, nAttempts := 0);
      EntryOkAt(t, triedHash, nId);
      UpdateConsistent(t, nId, info.(nLastTry := 1, nLastSuccess := 1), triedHash);
      mapInfo := mapInfo[nId := info];
      ghost var u := T();
      assert u == t.(mapInfo := t.mapInfo[nId := info]);
      assert Redated(u, nId) == t.(mapInfo := t.mapInfo[nId := info.(nLastTry := 1, nLastSuccess := 1)]);
      if info.fInTried {
        RedatedBack(u, nId, triedHash);
        return;
      }
      var nUBucket := FindBucket(nId);
      ghost var b;
      evicted, pos, b, s, draws := MakeTried(nId, nUBucket);
      GoodFrameAnyTime(u, T(), nId, TriedBucket(addr), evicted, pos, b, s, triedHash);
      if evicted in mapInfo {
        SelectedSame(t.vvTried[TriedBucket(addr)], u.mapInfo, t.mapInfo, draws, s, pos);
        SelectedEvicts(t.vvTried[TriedBucket(addr)], t.mapInfo, draws, s, pos);
      }
      RedatedBack(T(), nId, triedHash);
    }

    /** Some new bucket that holds the id, searched from a random start. */
    method FindBucket(nId: int) returns (nUBucket: nat)
      requires nId in mapInfo && Consistent(Redated(T(), nId), triedHash, {}) && !mapInfo[nId].fInTried
      ensures nUBucket < |vvNew| && nId in vvNew[nUBucket]
    {
      InSomeBucket(Redated(T(), nId), nId, triedHash);
      var nRnd := RandInt(|vvNew|);
      var n := 0;
      while n < |vvNew|
        invariant n <= |vvNew|
        invariant forall m :: 0 <= m < n ==> nId !in vvNew[Around(m, nRnd, |vvNew|)]
      {
        var nB := Around(n, nRnd, |vvNew|);
        if nId in vvNew[nB] {
          return nB;
        }
        n := n + 1;
      }
      NowhereAround(vvNew, nId, nRnd);
      assert false;
    }

    /** Keeps the tables consistent if and only if the time is not negative or the service is not known exactly. */
    method Attempt(addr: Service, nTime: int)
      requires Valid()
      modifies `mapInfo
      ensures Valid() <==> nTime >= 0 || !old(Known(addr))
      ensures mapInfo == if !old(Known(addr)) then old(mapInfo) else
                var id := mapAddr[addr.ip];
                old(mapInfo)[id := old(mapInfo)[id].(nLastTry := nTime, nAttempts := old(mapInfo)[id].nAttempts + 1)]
    {
      hide RandomOk, AddrOk, EntriesOk, NewOk, TriedOk, CountsOk, RefOf, Consistent;
      var found, nId := Find(addr.ip);
      if !found || mapInfo[nId].addr.where != addr {
        return;
      }
      EntryOkAt(T(), triedHash, nId);
      if nTime >= 0 {
        UpdateConsistent(T(), nId, mapInfo[nId].(nLastTry := nTime, nAttempts := mapInfo[nId].nAttempts + 1), triedHash);
      }
      mapInfo := mapInfo[nId := mapInfo[nId].(nLastTry := nTime, nAttempts := mapInfo[nId].nAttempts + 1)];
      if nTime < 0 {
        BadEntry(T(), triedHash, nId);
      }
    }

    method Connected(addr: Service, nTime: int)
      requires Valid()
      modifies `mapInfo
      ensures Valid()
      ensures mapInfo == if !old(Known(addr)) then old(mapInfo) else
                var id := mapAddr[addr.ip];
                if nTime - old(mapInfo)[id].addr.nTime <= 20 * 60 then old(mapInfo) else
                  old(mapInfo)[id := old(mapInfo)[id].(addr := old(mapInfo)[id].addr.(nTime := Wrap32(nTime)))]
    {
      hide RandomOk, AddrOk, EntriesOk, NewOk, TriedOk, CountsOk, RefOf, Consistent;
      var found, nId := Find(addr.ip);
      if !found || mapInfo[nId].addr.where != addr {
        return;
      }
      var nUpdateInterval := 20 * 60;
      if nTime - mapInfo[nId].addr.nTime > nUpdateInterval {
        EntryOkAt(T(), triedHash, nId);
        UpdateConsistent(T(), nId, mapInfo[nId].(addr := mapInfo[nId].addr.(nTime := Wrap32(nTime))), triedHash);
        mapInfo := mapInfo[nId := mapInfo[nId].(addr := mapInfo[nId].addr.(nTime := Wrap32(nTime)))];
      }
    }

    /** A random selection without repetition of up to 23% of the known addresses and up to 2500. */
    method GetAddr() returns (vAddr: seq<Address>)
      requires Valid()
      modifies `mapInfo, `vRandom
      ensures Valid()
      ensures var share := GETADDR_MAX_PCT * |old(vRandom)| / 100;
              |vAddr| == if share > GETADDR_MAX then GETADDR_MAX else share
      ensures |vAddr| <= |vRandom| == |old(vRandom)|
      ensures forall n :: 0 <= n < |vAddr| ==> vRandom[n] in mapInfo && vAddr[n] == mapInfo[vRandom[n]].addr
      ensures forall m, n :: 0 <= m < n < |vAddr| ==> vAddr[m].where.ip != vAddr[n].where.ip
      ensures mapInfo.Keys == old(mapInfo).Keys && forall id :: id in mapInfo ==> SameEntry(mapInfo[id], old(mapInfo)[id])
    {
      hide RandomOk, AddrOk, EntriesOk, NewOk, TriedOk, CountsOk, Swapped;
      PlacesKnown(T());
      var nNodes := GETADDR_MAX_PCT * |vRandom| / 100;
      if nNodes > GETADDR_MAX {
        nNodes := GETADDR_MAX;
      }
      vAddr := [];
      var n := 0;
      while n < nNodes
        invariant n <= nNodes <= |vRandom| == |old(vRandom)| && |vAddr| == n
        invariant Valid()
        invariant forall m :: 0 <= m < |vRandom| ==> vRandom[m] in mapInfo
        invariant forall m :: 0 <= m < n ==> vAddr[m] == mapInfo[vRandom[m]].addr
        invariant mapInfo.Keys == old(mapInfo).Keys
        invariant forall id :: id in mapInfo ==> SameEntry(mapInfo[id], old(mapInfo)[id])
      {
        var draw := RandInt(|vRandom| - n);
        var nRndPos := draw + n;
        SwapForward(T(), n, nRndPos, triedHash);
        SwapRandom(n, nRndPos);
        PlacesKnown(T());
        vAddr := vAddr + [mapInfo[vRandom[n]].addr];
        n := n + 1;
      }
      DistinctAddresses(T(), vAddr);
    }

    /** A fresh entry, not yet referenced from any bucket nor counted as new. */
    method Create(addr: Address, source: NetAddr) returns (nId: int)
      requires Valid()
      modifies this
      ensures nId == old(nIdCount)
      ensures T() == old(T()).(nIdCount := nId + 1, mapAddr := old(mapAddr)[addr.where.ip := nId],
                vRandom := old(vRandom) + [nId],
                mapInfo := old(mapInfo)[nId := Info(addr, source, 0, 0, 0, 0, false, |old(vRandom)|)])
    {
      nId := nIdCount;
      nIdCount := nIdCount + 1;
      mapInfo := mapInfo[nId := Info(addr, source, 0, 0, 0, 0, false, -1)];
      mapAddr := mapAddr[addr.where.ip := nId];
      mapInfo := mapInfo[nId := mapInfo[nId].(nRandomPos := |vRandom|)];
      vRandom := vRandom + [nId];
    }

    /** Room in a new bucket for an id already counted for it. */
    method MakeRoom(nId: int, b: nat, now: int) returns (ghost dropped: set<int>)
      requires nId in mapInfo && b < |vvNew| && nId !in vvNew[b] && Consistent(T(), triedHash, {nId})
      modifies this
      ensures Consistent(T(), triedHash, {nId})
      ensures nIdCount == old(nIdCount) && vvTried == old(vvTried) && nTried == old(nTried)
      ensures |vvNew| == |old(vvNew)| && |vvNew[b]| < NEW_BUCKET_SIZE && vvNew[b] <= old(vvNew)[b]
      ensures vvNew == old(vvNew)[b := vvNew[b]]
      ensures |dropped| <= 1 && nId !in dropped && mapInfo.Keys == old(mapInfo).Keys - dropped
      ensures dropped <= old(vvNew)[b] && (dropped != {} ==> |old(vvNew)[b]| == NEW_BUCKET_SIZE)
      ensures forall o :: o in mapInfo ==> SameRecord(mapInfo[o], old(mapInfo)[o])
      ensures mapInfo[nId].nRefCount == old(mapInfo)[nId].nRefCount
    {
      hide RandomOk, AddrOk, EntriesOk, NewOk, TriedOk, CountsOk, RefOf, Consistent, DropRef;
      ghost var t := T();
      BucketsFit(t, triedHash, {nId});
      dropped := {};
      if |vvNew[b]| == NEW_BUCKET_SIZE {
        var _, gone, _ := ShrinkNew(b, now, {nId});
        dropped := if t.mapInfo[gone].nRefCount == 1 then {gone} else {};
        DropRefFrame(t, gone, b, triedHash, {nId});
      }
    }

    /** One more reference to an entry, from a bucket that does not hold it yet and may have to be shrunk for it. */
    method Insert(nId: int, b: nat, now: int) returns (ghost dropped: set<int>)
      requires nId in mapInfo && !mapInfo[nId].fInTried && b < |vvNew| && nId !in vvNew[b]
      requires Consistent(Counted(T(), nId), triedHash, {nId})
      modifies this
      ensures Consistent(T(), triedHash, {}) && nIdCount == old(nIdCount)
      ensures Inserted(old(T()), T(), nId, b, dropped) && nId in mapInfo
      ensures mapInfo[nId].addr == old(mapInfo)[nId].addr
    {
      hide RandomOk, AddrOk, EntriesOk, NewOk, TriedOk, CountsOk, RefOf, Consistent;
      mapInfo := mapInfo[nId := mapInfo[nId].(nRefCount := mapInfo[nId].nRefCount + 1)];
      assert T() == Counted(old(T()), nId);
      dropped := MakeRoom(nId, b, now);
      FillConsistent(T(), nId, b, triedHash);
      vvNew := vvNew[b := vvNew[b] + {nId}];
    }

    /** Refreshes a known entry, and decides whether it is worth another reference. */
    method Refresh(nId: int, addr: Address, nTimePenalty: int, now: int) returns (fOffered: bool)
      requires Valid() && nId in mapInfo
      modifies `mapInfo
      ensures Valid()
      ensures mapInfo == old(mapInfo)[nId := old(mapInfo)[nId].(addr := Refreshed(old(mapInfo)[nId].addr, addr, nTimePenalty, now))]
      ensures fOffered ==>
                && mapInfo[nId].addr.nTime < addr.nTime
                && !mapInfo[nId].fInTried && mapInfo[nId].nRefCount < NEW_BUCKETS_PER_ADDRESS
    {
      hide RandomOk, AddrOk, EntriesOk, NewOk, TriedOk, CountsOk, RefOf, Consistent;
      EntryOkAt(T(), triedHash, nId);
      ghost var refreshed := mapInfo[nId].(addr := Refreshed(mapInfo[nId].addr, addr, nTimePenalty, now));
      UpdateConsistent(T(), nId, refreshed, triedHash);
      var info := mapInfo[nId];
      var fCurrentlyOnline := now - addr.nTime < 24 * 60 * 60;
      var nUpdateInterval := if fCurrentlyOnline then 60 * 60 else 24 * 60 * 60;
      if addr.nTime != 0 && (info.addr.nTime == 0 || info.addr.nTime < addr.nTime - nUpdateInterval - nTimePenalty) {
        info := info.(addr := info.addr.(nTime := Penalised(addr.nTime, nTimePenalty)));
      }
      info := info.(addr := info.addr.(nServices := info.addr.nServices + addr.nServices));
      mapInfo := mapInfo[nId := info];
      ghost var draw;
      fOffered, draw := WorthAnother(info, addr);
    }

    /** The entry for an offered address, refreshed or created, and whether it is to be put in a bucket. */
    method Admit(addr: Address, source: NetAddr, nTimePenalty: int, now: int) returns (fNew: bool, fOffered: bool, nId: int)
      requires Valid()
      modifies this
      ensures fNew ==> fOffered
      ensures Admitted(old(T()), T(), addr, source, nTimePenalty, now, fNew, nId)
      ensures !fNew ==> Valid() && (fOffered ==> mapInfo[nId].addr.nTime < addr.nTime)
      ensures nId in mapInfo && mapInfo[nId].addr.where.ip == addr.where.ip && vvNew == old(vvNew)
      ensures fNew ==> forall b :: 0 <= b < |vvNew| ==> nId !in vvNew[b]
      ensures 0 <= nIdCount && (fOffered ==> !mapInfo[nId].fInTried && Consistent(Counted(T(), nId), triedHash, {nId}))
    {
      hide RandomOk, AddrOk, EntriesOk, NewOk, TriedOk, CountsOk, RefOf, Consistent, Refreshed;
      ghost var t := T();
      fNew := false;
      BucketsFit(t, triedHash, {});
      var found;
      found, nId := Find(addr.where.ip);
      if found {
        fOffered := Refresh(nId, addr, nTimePenalty, now);
        if fOffered {
          CountConsistent(T(), nId, triedHash);
        }
        return;
      }
      CreateConsistent(t, addr.(nTime := Penalised(addr.nTime, nTimePenalty)), source, triedHash);
      nId := Create(addr, source);
      mapInfo := mapInfo[nId := mapInfo[nId].(addr := addr.(nTime := Penalised(addr.nTime, nTimePenalty)))];
      nNew := nNew + 1;
      fNew, fOffered := true, true;
      assert Counted(T(), nId) == Created(t, addr.(nTime := Penalised(addr.nTime, nTimePenalty)), source);
    }

    /** Offers an address; whatever happens, the tables stay consistent and change as Offered says. */
    method Add(addr: Address, source: NetAddr, nTimePenalty: int, routable: bool, now: int)
      returns (fNew: bool, ghost dropped: set<int>)
      requires Valid()
      modifies this
      ensures Valid()
      ensures if routable then
                Offered(old(T()), T(), addr, source, nTimePenalty, now, NewBucket(addr.where.ip, source), fNew, dropped)
              else !fNew && T() == old(T())
    {
      hide RandomOk, AddrOk, EntriesOk, NewOk, TriedOk, CountsOk, RefOf, Consistent, Admitted, Inserted, Offered;
      ghost var t := T();
      fNew, dropped := false, {};
      if !routable {
        return;
      }
      BucketsFit(T(), triedHash, {});
      var nId, fOffered;
      fNew, fOffered, nId := Admit(addr, source, nTimePenalty, now);
      ghost var u := T();
      var nUBucket := NewBucket(addr.where.ip, source);
      if fOffered && nId !in vvNew[nUBucket] {
        dropped := Insert(nId, nUBucket, now);
        KnownByAddress(T(), triedHash, nId);
        if fNew {
          OfferCreated(t, u, T(), addr, source, nTimePenalty, now, nUBucket, nId, dropped);
        } else {
          OfferReferenced(t, u, T(), addr, source, nTimePenalty, now, nUBucket, nId, dropped);
        }
      } else {
        KnownByAddress(T(), triedHash, nId);
        OfferRefreshed(t, u, addr, source, nTimePenalty, now, nUBucket, nId);
      }
    }

    /** The consistency check of the debug build. On a consistent manager no branch of it ever reports an error. */
    method Check() returns (err: int)
      requires Valid()
      ensures err == 0
    {
      hide RandomOk, AddrOk, EntriesOk, NewOk, TriedOk, SumLen, RefOf;
      if |vRandom| != nTried + nNew {
        return -7;
      }
      var setTried, mapNew;
      err, setTried, mapNew := CheckEntries(mapInfo, mapAddr, vRandom, T(), triedHash);
      if err != 0 {
        return;
      }
      TriedCount(T(), triedHash);
      if |setTried| != nTried {
        return -9;
      }
      if |mapNew.Keys| != nNew {
        return -10;
      }
      ghost var home := map id | id in TriedIds(T()) :: TriedBucket(mapInfo[id].addr.where);
      StrikingFits(T(), triedHash, home);
      CountingFits(T(), triedHash);
      err, setTried := StrikeTried(vvTried, setTried, home);
      if err != 0 {
        return;
      }
      err, mapNew := StrikeNew(vvNew, mapNew);
      if err != 0 {
        return;
      }
      if setTried != {} {
        return -13;
      }
      if mapNew.Keys != {} {
        return -15;
      }
    }
  }
}

/** CPartialMerkleTree: a depth-first stream of bits and hashes from which a receiver recovers the matched
    txids and the root, in an authenticated way (BIP 37, "Partial Merkle branch format"). */
module PartialMerkle {
  import opened Common
  import opened Merkle

  const MAX_BLOCK_SIZE := 1000000

  // ---------------------------------------------------------------- ranges and matches

  /** Leaves first..last-1 under a node. */
  function First(height: nat, pos: nat): nat { pos * Pow2(height) }

  function Last(n: nat, height: nat, pos: nat): nat { Min((pos + 1) * Pow2(height), n) }

  predicate AnyMatch(mask: seq<bool>, lo: nat, hi: nat)
    requires hi <= |mask|
  {
    exists p :: lo <= p < hi && mask[p]
  }

  /** Positions in lo..hi-1 that are matched, in order. */
  function Positions(mask: seq<bool>, lo: nat, hi: nat): (r: seq<nat>)
    requires hi <= |mask|
    ensures forall i :: 0 <= i < |r| ==> lo <= r[i] < hi && mask[r[i]]
    decreases hi
  {
    if hi <= lo then [] else Positions(mask, lo, hi - 1) + if mask[hi - 1] then [hi - 1] else []
  }

  function AtAll<T>(txids: seq<T>, ps: seq<nat>): (r: seq<T>)
    requires forall i :: 0 <= i < |ps| ==> ps[i] < |txids|
    ensures |r| == |ps| && forall i :: 0 <= i < |ps| ==> r[i] == txids[ps[i]]
  {
    seq(|ps|, i requires 0 <= i < |ps| => txids[ps[i]])
  }

  predicate Increasing(ps: seq<nat>, lo: nat, hi: nat) {
    && (forall i :: 0 <= i < |ps| ==> lo <= ps[i] < hi)
    && (forall i, j :: 0 <= i < j < |ps| ==> ps[i] < ps[j])
  }

  /** Positions is the sorted list of exactly the matched positions. */
  lemma {:induction false} PositionsExact(mask: seq<bool>, lo: nat, hi: nat)
    requires hi <= |mask|
    ensures Increasing(Positions(mask, lo, hi), lo, hi)
    ensures forall p :: lo <= p < hi && mask[p] ==> p in Positions(mask, lo, hi)
    decreases hi
  {
    if lo < hi {
      PositionsExact(mask, lo, hi - 1);
    }
  }

  lemma {:induction false} PositionsSplit(mask: seq<bool>, lo: nat, mid: nat, hi: nat)
    requires lo <= mid <= hi <= |mask|
    ensures Positions(mask, lo, hi) == Positions(mask, lo, mid) + Positions(mask, mid, hi)
    decreases hi
  {
    if mid < hi {
      PositionsSplit(mask, lo, mid, hi - 1);
    }
  }

  lemma {:induction false} NoMatchNoPositions(mask: seq<bool>, lo: nat, hi: nat)
    requires hi <= |mask| && !AnyMatch(mask, lo, hi)
    ensures Positions(mask, lo, hi) == []
    decreases hi
  {
    if lo < hi {
      assert !mask[hi - 1];
      NoMatchNoPositions(mask, lo, hi - 1);
    }
  }

  // ---------------------------------------------------------------- node ranges

  lemma CeilingDivision(n: nat, p: nat, q: nat, r: nat, pos: nat)
    requires n + p - 1 == p * q + r && r < p
    ensures pos < q <==> pos * p < n
  {
    if pos < q {
      var d := q - pos;
      assert p * q == p * pos + p * d && p * d >= p;
    } else {
      var d := pos - q;
      assert p * pos == p * q + p * d && p * d >= 0;
    }
  }

  lemma WidthMeansFirst(n: nat, height: nat, pos: nat)
    ensures pos < Width(n, height) <==> First(height, pos) < n
  {
    var p := Pow2(height);
    CeilingDivision(n, p, (n + p - 1) / p, (n + p - 1) % p, pos);
  }

  lemma NodeRange(n: nat, height: nat, pos: nat)
    requires pos < Width(n, height)
    ensures First(height, pos) < Last(n, height, pos) <= n
    ensures Last(n, height, pos) <= First(height, pos + 1)
  {
    WidthMeansFirst(n, height, pos);
    assert (pos + 1) * Pow2(height) == pos * Pow2(height) + Pow2(height);
  }

  /** A node's leaves are its children's leaves. */
  lemma ChildRanges(n: nat, height: nat, pos: nat)
    requires pos < Width(n, height + 1)
    ensures 2 * pos < Width(n, height)
    ensures First(height, 2 * pos) == First(height + 1, pos)
    ensures First(height, 2 * pos + 2) == First(height + 1, pos + 1)
    ensures if 2 * pos + 1 < Width(n, height)
            then Last(n, height, 2 * pos) == First(height, 2 * pos + 1)
                 && Last(n, height, 2 * pos + 1) == Last(n, height + 1, pos)
            else Last(n, height, 2 * pos) == Last(n, height + 1, pos) == n < First(height + 1, pos + 1)
  {
    var p := Pow2(height);
    assert Pow2(height + 1) == 2 * p;
    assert (2 * pos) * p == pos * (2 * p);
    assert (2 * pos + 2) * p == (pos + 1) * (2 * p);
    assert (2 * pos + 1) * p == (2 * pos) * p + p;
    assert (2 * pos + 2) * p == (2 * pos + 1) * p + p;
    WidthMeansFirst(n, height + 1, pos);
    WidthMeansFirst(n, height, 2 * pos);
    WidthMeansFirst(n, height, 2 * pos + 1);
  }

  // ---------------------------------------------------------------- building

  /** Bits and hashes of the subtree at a node. */
  function Build<T>(hash: (T, T) -> T, txids: seq<T>, mask: seq<bool>, height: nat, pos: nat): (seq<bool>, seq<T>)
    requires |mask| == |txids| && pos < Width(|txids|, height)
  {
    var parent := AnyMatch(mask, First(height, pos), Last(|txids|, height, pos));
    if height == 0 || !parent then ([parent], [CalcHash(hash, txids, height, pos)])
    else
      ChildInRange(|txids|, height - 1, pos);
      var (lb, lh) := Build(hash, txids, mask, height - 1, 2 * pos);
      if 2 * pos + 1 < Width(|txids|, height - 1) then
        var (rb, rh) := Build(hash, txids, mask, height - 1, 2 * pos + 1);
        ([parent] + lb + rb, lh + rh)
      else ([parent] + lb, lh)
  }

  // ---------------------------------------------------------------- extracting

  /** Result of traversing a subtree: the node's hash, how far both streams have been read, whether data ran
      out, and the matched txids with their positions. */
  datatype Parsed<T> = Parsed(root: T, bitsUsed: nat, hashUsed: nat, bad: bool, matches: seq<T>, positions: seq<nat>)

  function Extract<T>(hash: (T, T) -> T, zero: T, n: nat, bits: seq<bool>, hashes: seq<T>, height: nat, pos: nat,
                      bitsUsed: nat, hashUsed: nat): (r: Parsed<T>)
    ensures |r.matches| == |r.positions|
  {
    if bitsUsed >= |bits| then Parsed(zero, bitsUsed, hashUsed, true, [], [])
    else if height == 0 || !bits[bitsUsed] then
      if hashUsed >= |hashes| then Parsed(zero, bitsUsed + 1, hashUsed, true, [], [])
      else
        var matched := height == 0 && bits[bitsUsed];
        Parsed(hashes[hashUsed], bitsUsed + 1, hashUsed + 1, false,
               if matched then [hashes[hashUsed]] else [], if matched then [pos] else [])
    else
      var left := Extract(hash, zero, n, bits, hashes, height - 1, 2 * pos, bitsUsed + 1, hashUsed);
      if 2 * pos + 1 < Width(n, height - 1) then
        var right := Extract(hash, zero, n, bits, hashes, height - 1, 2 * pos + 1, left.bitsUsed, left.hashUsed);
        Parsed(hash(left.root, right.root), right.bitsUsed, right.hashUsed, left.bad || right.bad,
               left.matches + right.matches, left.positions + right.positions)
      else left.(root := hash(left.root, left.root))
  }

  /** The tree as it is sent: the number of transactions, the bits and the hashes. */
  datatype Tree<T> = Tree(nTransactions: nat, vBits: seq<bool>, vHash: seq<T>)

  /** Checks made before the traversal. */
  predicate Plausible<T>(t: Tree<T>) {
    && 0 < t.nTransactions <= MAX_BLOCK_SIZE / 60
    && |t.vHash| <= t.nTransactions && |t.vHash| <= |t.vBits|
  }

  function Traverse<T>(hash: (T, T) -> T, zero: T, t: Tree<T>): Parsed<T> {
    Extract(hash, zero, t.nTransactions, t.vBits, t.vHash, Height(t.nTransactions), 0, 0, 0)
  }

  /** Everything ExtractMatches demands before it hands out a root. */
  predicate Accepted<T>(hash: (T, T) -> T, zero: T, t: Tree<T>) {
    && Plausible(t)
    && var p := Traverse(hash, zero, t);
       !p.bad && (p.bitsUsed + 7) / 8 == (|t.vBits| + 7) / 8 && p.hashUsed == |t.vHash|
  }

  function TreeOf<T>(hash: (T, T) -> T, txids: seq<T>, mask: seq<bool>): Tree<T>
    requires 0 < |txids| == |mask|
  {
    HeightIsFirst(|txids|);
    var (bits, hashes) := Build(hash, txids, mask, Height(|txids|), 0);
    Tree(|txids|, bits, hashes)
  }

  // ---------------------------------------------------------------- sizes

  /** Hashes: at most one per leaf, and at most one per level and match besides the first. Bits: one per hash and
      one per inner node above them; below a full node all inner nodes have two children. */
  predicate Sized(bits: nat, hashes: nat, leaves: nat, matches: nat, height: nat, full: bool) {
    && 1 <= hashes <= leaves && hashes <= 1 + matches * height && hashes <= bits
    && if full then bits + 1 == 2 * hashes else bits + 1 <= 2 * hashes + height
  }

  lemma JoinSized(lb: nat, lh: nat, ll: nat, lm: nat, rb: nat, rh: nat, rl: nat, rm: nat, height: nat, full: bool)
    requires Sized(lb, lh, ll, lm, height, true) && Sized(rb, rh, rl, rm, height, full) && lm + rm >= 1
    ensures Sized(1 + lb + rb, lh + rh, ll + rl, lm + rm, height + 1, full)
  {
    assert (lm + rm) * (height + 1) == lm * height + rm * height + lm + rm;
  }

  lemma WrapSized(b: nat, h: nat, l: nat, m: nat, height: nat, full: bool)
    requires Sized(b, h, l, m, height, full)
    ensures Sized(1 + b, h, l, m, height + 1, false)
  {
    assert m * (height + 1) == m * height + m;
  }

  ghost predicate NodeSized<T>(hash: (T, T) -> T, txids: seq<T>, mask: seq<bool>, height: nat, pos: nat)
    requires |mask| == |txids| && pos < Width(|txids|, height)
  {
    var (bits, hashes) := Build(hash, txids, mask, height, pos);
    var lo, hi := First(height, pos), Last(|txids|, height, pos);
    lo < hi && Sized(|bits|, |hashes|, hi - lo, |Positions(mask, lo, hi)|, height, hi == First(height, pos + 1))
  }

  lemma LeafSized<T>(hash: (T, T) -> T, txids: seq<T>, mask: seq<bool>, height: nat, pos: nat)
    requires |mask| == |txids| && pos < Width(|txids|, height)
    requires height == 0 || !AnyMatch(mask, First(height, pos), Last(|txids|, height, pos))
    ensures NodeSized(hash, txids, mask, height, pos)
  {
    NodeRange(|txids|, height, pos);
    assert |Positions(mask, First(height, pos), Last(|txids|, height, pos))| * height >= 0;
  }

  lemma InnerSized<T>(hash: (T, T) -> T, txids: seq<T>, mask: seq<bool>, height: nat, pos: nat)
    requires |mask| == |txids| && pos < Width(|txids|, height + 1)
    requires First(height + 1, pos) <= Last(|txids|, height + 1, pos) <= |mask|
    requires AnyMatch(mask, First(height + 1, pos), Last(|txids|, height + 1, pos))
    requires 2 * pos < Width(|txids|, height) && NodeSized(hash, txids, mask, height, 2 * pos)
    requires 2 * pos + 1 < Width(|txids|, height) ==> NodeSized(hash, txids, mask, height, 2 * pos + 1)
    ensures NodeSized(hash, txids, mask, height + 1, pos)
  {
    hide Sized, Width, First, Last, Positions;
    var n := |txids|;
    NodeRange(n, height + 1, pos);
    ChildRanges(n, height, pos);
    var lo, mid, hi := First(height + 1, pos), Last(n, height, 2 * pos), Last(n, height + 1, pos);
    var (lb, lh) := Build(hash, txids, mask, height, 2 * pos);
    var full := hi == First(height + 1, pos + 1);
    if 2 * pos + 1 < Width(n, height) {
      PositionsSplit(mask, lo, mid, hi);
      PositionsExact(mask, lo, hi);
      var (rb, rh) := Build(hash, txids, mask, height, 2 * pos + 1);
      JoinSized(|lb|, |lh|, mid - lo, |Positions(mask, lo, mid)|,
                |rb|, |rh|, hi - mid, |Positions(mask, mid, hi)|, height, full);
    } else {
      WrapSized(|lb|, |lh|, hi - lo, |Positions(mask, lo, hi)|, height, hi == First(height, 2 * pos + 1));
    }
  }

  lemma {:induction false} BuildSizes<T>(hash: (T, T) -> T, txids: seq<T>, mask: seq<bool>, height: nat, pos: nat)
    requires |mask| == |txids| && pos < Width(|txids|, height)
    ensures NodeSized(hash, txids, mask, height, pos)
  {
    hide NodeSized;
    if height == 0 || !AnyMatch(mask, First(height, pos), Last(|txids|, height, pos)) {
      LeafSized(hash, txids, mask, height, pos);
    } else {
      ChildRanges(|txids|, height - 1, pos);
      BuildSizes(hash, txids, mask, height - 1, 2 * pos);
      if 2 * pos + 1 < Width(|txids|, height - 1) {
        BuildSizes(hash, txids, mask, height - 1, 2 * pos + 1);
      }
      InnerSized(hash, txids, mask, height - 1, pos);
    }
  }

  // ---------------------------------------------------------------- exactly when 2*N-1 bits suffice

  /** At this height a last, unpaired node of the level below has a match under it. */
  ghost predicate OddEdge(mask: seq<bool>, height: nat)
    requires height > 0 && |mask| > 0
  {
    var n := |mask|;
    EdgeRange(n, height);
    Width(n, height - 1) % 2 == 1 && AnyMatch(mask, First(height, Width(n, height) - 1), n)
  }

  /** The last node of a level reaches to the end of the list. */
  lemma EdgeRange(n: nat, height: nat)
    requires n > 0
    ensures Width(n, height) > 0 && First(height, Width(n, height) - 1) < n == Last(n, height, Width(n, height) - 1)
  {
  }

  /** One level down, the edge moves to the last child. */
  lemma EdgeChild(n: nat, height: nat)
    requires n > 0
    ensures var pos := Width(n, height + 1) - 1;
            && pos >= 0
            && (Width(n, height) % 2 == 0 <==> 2 * pos + 1 < Width(n, height))
            && Width(n, height) - 1 == 2 * pos + (if Width(n, height) % 2 == 0 then 1 else 0)
            && First(height + 1, pos) <= First(height, Width(n, height) - 1)
  {
    WidthHalves(n, height);
    EdgeRange(n, height + 1);
    EdgeRange(n, height);
    var pos := Width(n, height + 1) - 1;
    ChildRanges(n, height, pos);
    NodeRange(n, height, 2 * pos);
  }

  function BitsAndHashes<T>(hash: (T, T) -> T, txids: seq<T>, mask: seq<bool>, height: nat, pos: nat): (nat, nat)
    requires |mask| == |txids| && pos < Width(|txids|, height)
  {
    (|Build(hash, txids, mask, height, pos).0|, |Build(hash, txids, mask, height, pos).1|)
  }

  lemma EdgeLengths<T>(hash: (T, T) -> T, txids: seq<T>, mask: seq<bool>, height: nat)
    requires |mask| == |txids| > 0 && Width(|txids|, height) > 0
    requires First(height, Width(|txids|, height) - 1) < |mask| == Last(|txids|, height, Width(|txids|, height) - 1)
    ensures var n, pos := |txids|, Width(|txids|, height) - 1;
            var here := BitsAndHashes(hash, txids, mask, height, pos);
            if height == 0 || !AnyMatch(mask, First(height, pos), n) then here == (1, 1)
            else
              Width(n, height - 1) > 0 && 2 * pos < Width(n, height - 1)
              && var edge := BitsAndHashes(hash, txids, mask, height - 1, Width(n, height - 1) - 1);
                 if Width(n, height - 1) % 2 == 0 then
                   var left := BitsAndHashes(hash, txids, mask, height - 1, 2 * pos);
                   left.0 + 1 == 2 * left.1 && here == (1 + left.0 + edge.0, left.1 + edge.1)
                 else here == (1 + edge.0, edge.1)
  {
    hide Width, First, Last, AnyMatch;
    var n, pos := |txids|, Width(|txids|, height) - 1;
    if height > 0 && AnyMatch(mask, First(height, pos), n) {
      EdgeChild(n, height - 1);
      EdgeRange(n, height - 1);
      ChildRanges(n, height - 1, pos);
      NodeRange(n, height - 1, 2 * pos);
      BuildSizes(hash, txids, mask, height - 1, 2 * pos);
    }
  }

  /** Along the right edge of the tree, and nowhere else, a node with a single child costs a bit without its hash. */
  lemma {:induction false} EdgeBits<T>(hash: (T, T) -> T, txids: seq<T>, mask: seq<bool>, height: nat)
    requires |mask| == |txids| > 0
    ensures Width(|txids|, height) > 0
    ensures var (bits, hashes) := BitsAndHashes(hash, txids, mask, height, Width(|txids|, height) - 1);
            bits + 1 >= 2 * hashes && (bits + 1 == 2 * hashes <==> forall k :: 1 <= k <= height ==> !OddEdge(mask, k))
  {
    hide Width, First, Last, AnyMatch, BitsAndHashes;
    var n := |txids|;
    EdgeRange(n, height);
    EdgeLengths(hash, txids, mask, height);
    if height > 0 {
      if AnyMatch(mask, First(height, Width(n, height) - 1), n) {
        EdgeBits(hash, txids, mask, height - 1);
        assert OddEdge(mask, height) <==> Width(n, height - 1) % 2 == 1;
      } else {
        NoMatchNoEdge(mask, height);
      }
    }
  }

  lemma {:induction false} NoMatchNoEdge(mask: seq<bool>, height: nat)
    requires |mask| > 0 && Width(|mask|, height) > 0
    requires First(height, Width(|mask|, height) - 1) <= |mask|
    requires !AnyMatch(mask, First(height, Width(|mask|, height) - 1), |mask|)
    ensures forall k :: 1 <= k <= height ==> !OddEdge(mask, k)
  {
    if height > 0 {
      var n := |mask|;
      EdgeChild(n, height - 1);
      EdgeRange(n, height - 1);
      NoMatchNoEdge(mask, height - 1);
    }
  }

  /** The documented 2*N-1 bits hold if and only if no node with a single child has a match under it; a level of odd
      width whose last node is below a match breaks them. */
  lemma BitBoundHoldsIff<T>(hash: (T, T) -> T, txids: seq<T>, mask: seq<bool>)
    requires 0 < |txids| == |mask|
    ensures var t := TreeOf(hash, txids, mask);
            |t.vBits| <= 2 * |t.vHash| - 1 <==> forall k :: 1 <= k <= Height(|txids|) ==> !OddEdge(mask, k)
  {
    hide Build, Width, First, Last, AnyMatch;
    HeightIsFirst(|txids|);
    EdgeBits(hash, txids, mask, Height(|txids|));
  }

  // ---------------------------------------------------------------- round trip

  ghost predicate Embedded<A>(s: seq<A>, k: nat, part: seq<A>) {
    k + |part| <= |s| && s[k..k + |part|] == part
  }

  lemma EmbeddedSplit<A>(s: seq<A>, k: nat, a: seq<A>, b: seq<A>)
    requires Embedded(s, k, a + b)
    ensures Embedded(s, k, a) && Embedded(s, k + |a|, b)
  {
    assert s[k..k + |a|] == s[k..k + |a + b|][..|a|];
    assert s[k + |a|..k + |a + b|] == s[k..k + |a + b|][|a|..];
  }

  lemma AtAllConcat<T>(txids: seq<T>, p: seq<nat>, q: seq<nat>)
    requires forall i :: 0 <= i < |p + q| ==> (p + q)[i] < |txids|
    ensures forall i :: 0 <= i < |p| ==> p[i] < |txids|
    ensures forall i :: 0 <= i < |q| ==> q[i] < |txids|
    ensures AtAll(txids, p + q) == AtAll(txids, p) + AtAll(txids, q)
  {
    assert forall i :: 0 <= i < |p| ==> p[i] == (p + q)[i];
    assert forall i :: 0 <= i < |q| ==> q[i] == (p + q)[|p| + i];
  }

  /** What extracting the streams built for a node must give. */
  ghost function Expected<T>(hash: (T, T) -> T, txids: seq<T>, mask: seq<bool>, height: nat, pos: nat,
                             bitsUsed: nat, hashUsed: nat): Parsed<T>
    requires |mask| == |txids| && pos < Width(|txids|, height)
  {
    var (bits, hashes) := Build(hash, txids, mask, height, pos);
    var ps := Positions(mask, First(height, pos), Last(|txids|, height, pos));
    Parsed(CalcHash(hash, txids, height, pos), bitsUsed + |bits|, hashUsed + |hashes|, false, AtAll(txids, ps), ps)
  }

  lemma LeafRoundTrip<T>(hash: (T, T) -> T, zero: T, txids: seq<T>, mask: seq<bool>, height: nat, pos: nat,
                         bits: seq<bool>, hashes: seq<T>, bu: nat, hu: nat)
    requires |mask| == |txids| && pos < Width(|txids|, height)
    requires height == 0 || !AnyMatch(mask, First(height, pos), Last(|txids|, height, pos))
    requires Carries(hash, txids, mask, height, pos, bits, hashes, bu, hu)
    ensures Extract(hash, zero, |txids|, bits, hashes, height, pos, bu, hu)
            == Expected(hash, txids, mask, height, pos, bu, hu)
  {
    var lo, hi := First(height, pos), Last(|txids|, height, pos);
    var (b, h) := Build(hash, txids, mask, height, pos);
    assert bits[bu] == bits[bu..bu + 1][0] == b[0] && hashes[hu] == hashes[hu..hu + 1][0] == h[0];
    if AnyMatch(mask, lo, hi) {
      WidthOfLeaves(|txids|);
      assert lo == pos && hi == pos + 1 && mask[pos];
      assert Positions(mask, pos, pos) == [] && Positions(mask, lo, hi) == [pos];
    } else {
      NoMatchNoPositions(mask, lo, hi);
    }
  }

  ghost predicate Carries<T>(hash: (T, T) -> T, txids: seq<T>, mask: seq<bool>, height: nat, pos: nat,
                             bits: seq<bool>, hashes: seq<T>, bu: nat, hu: nat)
    requires |mask| == |txids| && pos < Width(|txids|, height)
  {
    var (b, h) := Build(hash, txids, mask, height, pos);
    Embedded(bits, bu, b) && Embedded(hashes, hu, h)
  }

  /** Where a node's streams are embedded, its children's follow the node's bit. */
  lemma CarriesChildren<T>(hash: (T, T) -> T, txids: seq<T>, mask: seq<bool>, height: nat, pos: nat,
                           bits: seq<bool>, hashes: seq<T>, bu: nat, hu: nat)
    requires |mask| == |txids| && pos < Width(|txids|, height + 1)
    requires AnyMatch(mask, First(height + 1, pos), Last(|txids|, height + 1, pos))
    requires Carries(hash, txids, mask, height + 1, pos, bits, hashes, bu, hu)
    ensures bu < |bits| && bits[bu]
    ensures 2 * pos < Width(|txids|, height) && Carries(hash, txids, mask, height, 2 * pos, bits, hashes, bu + 1, hu)
    ensures 2 * pos + 1 < Width(|txids|, height) ==>
              var l := Expected(hash, txids, mask, height, 2 * pos, bu + 1, hu);
              Carries(hash, txids, mask, height, 2 * pos + 1, bits, hashes, l.bitsUsed, l.hashUsed)
  {
    hide Width, First, Last, Positions, AtAll, AnyMatch, Embedded;
    ChildRanges(|txids|, height, pos);
    var (b, h) := Build(hash, txids, mask, height + 1, pos);
    var (lb, lh) := Build(hash, txids, mask, height, 2 * pos);
    FirstBit(bits, bu, b);
    if 2 * pos + 1 < Width(|txids|, height) {
      var (rb, rh) := Build(hash, txids, mask, height, 2 * pos + 1);
      EmbeddedSplit(bits, bu, [true] + lb, rb);
      EmbeddedSplit(hashes, hu, lh, rh);
    }
    EmbeddedSplit(bits, bu, [true], lb);
  }

  lemma ExpectedJoins<T>(hash: (T, T) -> T, txids: seq<T>, mask: seq<bool>, height: nat, pos: nat, bu: nat, hu: nat)
    requires |mask| == |txids| && pos < Width(|txids|, height + 1)
    requires AnyMatch(mask, First(height + 1, pos), Last(|txids|, height + 1, pos))
    ensures 2 * pos < Width(|txids|, height)
    ensures var l := Expected(hash, txids, mask, height, 2 * pos, bu + 1, hu);
            Expected(hash, txids, mask, height + 1, pos, bu, hu) ==
            if 2 * pos + 1 < Width(|txids|, height) then
              var r := Expected(hash, txids, mask, height, 2 * pos + 1, l.bitsUsed, l.hashUsed);
              Parsed(hash(l.root, r.root), r.bitsUsed, r.hashUsed, l.bad || r.bad, l.matches + r.matches, l.positions + r.positions)
            else l.(root := hash(l.root, l.root))
  {
    hide Width, First, Last, Positions, AtAll, AnyMatch;
    var n := |txids|;
    NodeRange(n, height + 1, pos);
    ChildRanges(n, height, pos);
    NodeRange(n, height, 2 * pos);
    if 2 * pos + 1 < Width(n, height) {
      var lo, mid, hi := First(height + 1, pos), Last(n, height, 2 * pos), Last(n, height + 1, pos);
      NodeRange(n, height, 2 * pos + 1);
      PositionsSplit(mask, lo, mid, hi);
      AtAllConcat(txids, Positions(mask, lo, mid), Positions(mask, mid, hi));
    }
  }

  lemma {:induction false} ExtractInvertsBuild<T>(hash: (T, T) -> T, zero: T, txids: seq<T>, mask: seq<bool>,
                                                  height: nat, pos: nat, bits: seq<bool>, hashes: seq<T>, bu: nat, hu: nat)
    requires |mask| == |txids| && pos < Width(|txids|, height)
    requires Carries(hash, txids, mask, height, pos, bits, hashes, bu, hu)
    ensures Extract(hash, zero, |txids|, bits, hashes, height, pos, bu, hu)
            == Expected(hash, txids, mask, height, pos, bu, hu)
  {
    hide Width, First, Last, AnyMatch, Carries, Expected;
    var n := |txids|;
    NodeRange(n, height, pos);
    if height == 0 || !AnyMatch(mask, First(height, pos), Last(n, height, pos)) {
      LeafRoundTrip(hash, zero, txids, mask, height, pos, bits, hashes, bu, hu);
    } else {
      CarriesChildren(hash, txids, mask, height - 1, pos, bits, hashes, bu, hu);
      ExpectedJoins(hash, txids, mask, height - 1, pos, bu, hu);
      ExtractInvertsBuild(hash, zero, txids, mask, height - 1, 2 * pos, bits, hashes, bu + 1, hu);
      if 2 * pos + 1 < Width(n, height - 1) {
        var l := Expected(hash, txids, mask, height - 1, 2 * pos, bu + 1, hu);
        ExtractInvertsBuild(hash, zero, txids, mask, height - 1, 2 * pos + 1, bits, hashes, l.bitsUsed, l.hashUsed);
      }
    }
  }

  lemma FirstBit(bits: seq<bool>, bu: nat, b: seq<bool>)
    requires b != [] && Embedded(bits, bu, b)
    ensures bu < |bits| && bits[bu] == b[0]
  {
    assert bits[bu] == bits[bu..bu + |b|][0];
  }

  // ---------------------------------------------------------------- soundness

  ghost function NodePairs<T(!new)>(hash: (T, T) -> T, txids: seq<T>, height: nat, pos: nat): set<(T, T)>
    requires pos < Width(|txids|, height)
  {
    if height == 0 then {}
    else
      ChildInRange(|txids|, height - 1, pos);
      var left := CalcHash(hash, txids, height - 1, 2 * pos);
      if 2 * pos + 1 < Width(|txids|, height - 1) then
        {(left, CalcHash(hash, txids, height - 1, 2 * pos + 1))}
        + NodePairs(hash, txids, height - 1, 2 * pos) + NodePairs(hash, txids, height - 1, 2 * pos + 1)
      else {(left, left)} + NodePairs(hash, txids, height - 1, 2 * pos)
  }

  ghost function ExtractPairs<T(!new)>(hash: (T, T) -> T, zero: T, n: nat, bits: seq<bool>, hashes: seq<T>,
                                       height: nat, pos: nat, bu: nat, hu: nat): set<(T, T)>
  {
    if bu >= |bits| || height == 0 || !bits[bu] then {}
    else
      var left := Extract(hash, zero, n, bits, hashes, height - 1, 2 * pos, bu + 1, hu);
      var below := ExtractPairs(hash, zero, n, bits, hashes, height - 1, 2 * pos, bu + 1, hu);
      if 2 * pos + 1 < Width(n, height - 1) then
        var right := Extract(hash, zero, n, bits, hashes, height - 1, 2 * pos + 1, left.bitsUsed, left.hashUsed);
        {(left.root, right.root)} + below
        + ExtractPairs(hash, zero, n, bits, hashes, height - 1, 2 * pos + 1, left.bitsUsed, left.hashUsed)
      else {(left.root, left.root)} + below
  }

  /** The ids handed out below a node are entries of the list, at increasing positions below that node. */
  ghost predicate Authentic<T>(r: Parsed<T>, txids: seq<T>, lo: nat, hi: nat) {
    && hi <= |txids| && |r.matches| == |r.positions|
    && Increasing(r.positions, lo, hi)
    && forall i :: 0 <= i < |r.positions| ==> r.matches[i] == txids[r.positions[i]]
  }

  lemma LeafAuthentic<T>(txids: seq<T>, height: nat, pos: nat, matched: bool, leaf: T, r: Parsed<T>)
    requires pos < Width(|txids|, height)
    requires matched ==> height == 0 && leaf == txids[pos]
    requires r.matches == (if matched then [leaf] else []) && r.positions == (if matched then [pos] else [])
    ensures Authentic(r, txids, First(height, pos), Last(|txids|, height, pos))
  {
    NodeRange(|txids|, height, pos);
  }

  lemma JoinAuthentic<T>(l: Parsed<T>, r: Parsed<T>, both: Parsed<T>, txids: seq<T>, lo: nat, mid: nat, hi: nat)
    requires Authentic(l, txids, lo, mid) && Authentic(r, txids, mid, hi) && lo <= mid <= hi
    requires both.matches == l.matches + r.matches && both.positions == l.positions + r.positions
    ensures Authentic(both, txids, lo, hi)
  {
  }

  lemma SamePair<T(!new)>(hash: (T, T) -> T, pairs: set<(T, T)>, p: (T, T), q: (T, T))
    requires CollisionFree(hash, pairs) && p in pairs && q in pairs && hash(p.0, p.1) == hash(q.0, q.1)
    ensures p == q
  {
  }

  /** What the assumptions about a node say about its children. */
  ghost predicate Traced<T(!new)>(hash: (T, T) -> T, zero: T, txids: seq<T>, bits: seq<bool>, hashes: seq<T>,
                                  height: nat, pos: nat, bu: nat, hu: nat, pairs: set<(T, T)>)
  {
    && pos < Width(|txids|, height) && CollisionFree(hash, pairs)
    && NodePairs(hash, txids, height, pos) <= pairs
    && ExtractPairs(hash, zero, |txids|, bits, hashes, height, pos, bu, hu) <= pairs
    && var r := Extract(hash, zero, |txids|, bits, hashes, height, pos, bu, hu);
       !r.bad && r.root == CalcHash(hash, txids, height, pos)
  }

  lemma TracedChildren<T(!new)>(hash: (T, T) -> T, zero: T, txids: seq<T>, bits: seq<bool>, hashes: seq<T>,
                                height: nat, pos: nat, bu: nat, hu: nat, pairs: set<(T, T)>)
    requires Traced(hash, zero, txids, bits, hashes, height + 1, pos, bu, hu, pairs) && bits[bu]
    ensures Traced(hash, zero, txids, bits, hashes, height, 2 * pos, bu + 1, hu, pairs)
    ensures 2 * pos + 1 < Width(|txids|, height) ==>
              var l := Extract(hash, zero, |txids|, bits, hashes, height, 2 * pos, bu + 1, hu);
              Traced(hash, zero, txids, bits, hashes, height, 2 * pos + 1, l.bitsUsed, l.hashUsed, pairs)
  {
    hide Width, CollisionFree;
    var n := |txids|;
    ChildInRange(n, height, pos);
    var ll := CalcHash(hash, txids, height, 2 * pos);
    var left := Extract(hash, zero, n, bits, hashes, height, 2 * pos, bu + 1, hu);
    if 2 * pos + 1 < Width(n, height) {
      var rr := CalcHash(hash, txids, height, 2 * pos + 1);
      var right := Extract(hash, zero, n, bits, hashes, height, 2 * pos + 1, left.bitsUsed, left.hashUsed);
      SamePair(hash, pairs, (ll, rr), (left.root, right.root));
    } else {
      SamePair(hash, pairs, (ll, ll), (left.root, left.root));
    }
  }

  /** Whatever the streams are: if they hash to the right node and no collision occurs, every id handed out sits in
      the list at the position it was read for. */
  lemma {:induction false} ExtractSound<T(!new)>(hash: (T, T) -> T, zero: T, txids: seq<T>, bits: seq<bool>, hashes: seq<T>,
                                                 height: nat, pos: nat, bu: nat, hu: nat, pairs: set<(T, T)>)
    requires Traced(hash, zero, txids, bits, hashes, height, pos, bu, hu, pairs)
    ensures Authentic(Extract(hash, zero, |txids|, bits, hashes, height, pos, bu, hu), txids,
                      First(height, pos), Last(|txids|, height, pos))
  {
    hide Width, First, Last, Authentic, CollisionFree, NodePairs, ExtractPairs;
    var n := |txids|;
    var r := Extract(hash, zero, n, bits, hashes, height, pos, bu, hu);
    if height == 0 || !bits[bu] {
      LeafAuthentic(txids, height, pos, height == 0 && bits[bu], hashes[hu], r);
    } else {
      ChildRanges(n, height - 1, pos);
      TracedChildren(hash, zero, txids, bits, hashes, height - 1, pos, bu, hu, pairs);
      var left := Extract(hash, zero, n, bits, hashes, height - 1, 2 * pos, bu + 1, hu);
      ExtractSound(hash, zero, txids, bits, hashes, height - 1, 2 * pos, bu + 1, hu, pairs);
      if 2 * pos + 1 < Width(n, height - 1) {
        var right := Extract(hash, zero, n, bits, hashes, height - 1, 2 * pos + 1, left.bitsUsed, left.hashUsed);
        ExtractSound(hash, zero, txids, bits, hashes, height - 1, 2 * pos + 1, left.bitsUsed, left.hashUsed, pairs);
        NodeRange(n, height - 1, 2 * pos);
        NodeRange(n, height - 1, 2 * pos + 1);
        JoinAuthentic(left, right, r, txids, First(height, pos), Last(n, height - 1, 2 * pos), Last(n, height, pos));
      } else {
        SameAuthentic(left, r, txids, First(height, pos), Last(n, height, pos));
      }
    }
  }

  lemma SameAuthentic<T>(l: Parsed<T>, r: Parsed<T>, txids: seq<T>, lo: nat, hi: nat)
    requires Authentic(l, txids, lo, hi) && l.matches == r.matches && l.positions == r.positions
    ensures Authentic(r, txids, lo, hi)
  {
  }

  // ---------------------------------------------------------------- byte packing

  /** 1 << i in a byte. */
  function Bit(i: nat): bv8
    requires i < 8
  {
    match i
    case 0 => 0x01 case 1 => 0x02 case 2 => 0x04 case 3 => 0x08
    case 4 => 0x10 case 5 => 0x20 case 6 => 0x40 case _ => 0x80
  }

  predicate Test(b: bv8, i: nat)
    requires i < 8
  {
    b & Bit(i) != 0
  }

  lemma TestAfterSet(b: bv8, i: nat, j: nat)
    requires i < 8 && j < 8
    ensures Test(b | Bit(i), j) <==> i == j || Test(b, j)
  {
  }

  /** The bits a byte vector stands for, least significant first. */
  function Unpacked(bytes: seq<bv8>): (bits: seq<bool>)
    ensures |bits| == 8 * |bytes|
  {
    seq(8 * |bytes|, p requires 0 <= p < 8 * |bytes| => Test(bytes[p / 8], p % 8))
  }

  /** Bits padded with zeros to whole bytes. */
  function Padded(bits: seq<bool>): (r: seq<bool>)
    ensures |r| == 8 * ((|bits| + 7) / 8) && bits <= r
  {
    bits + seq(8 * ((|bits| + 7) / 8) - |bits|, _ => false)
  }

  method PackBits(bits: seq<bool>) returns (bytes: seq<bv8>)
    ensures |bytes| == (|bits| + 7) / 8 && Unpacked(bytes) == Padded(bits)
  {
    var size := (|bits| + 7) / 8;
    bytes := seq(size, _ => 0);
    for p := 0 to |bits|
      invariant |bytes| == size
      invariant forall q :: 0 <= q < 8 * size ==> Test(bytes[q / 8], q % 8) == (q < p && bits[q])
    {
      if bits[p] {
        forall q | 0 <= q < 8 * size && q / 8 == p / 8
          ensures Test(bytes[p / 8] | Bit(p % 8), q % 8) == (p == q || Test(bytes[q / 8], q % 8))
        {
          TestAfterSet(bytes[p / 8], p % 8, q % 8);
        }
        bytes := bytes[p / 8 := bytes[p / 8] | Bit(p % 8)];
      }
    }
  }

  method UnpackBits(bytes: seq<bv8>) returns (bits: seq<bool>)
    ensures bits == Unpacked(bytes)
  {
    bits := [];
    for p := 0 to 8 * |bytes|
      invariant bits == Unpacked(bytes)[..p]
    {
      bits := bits + [Test(bytes[p / 8], p % 8)];
    }
  }

  // ---------------------------------------------------------------- whole trees

  /** What is built is small -- the 2*N-1 bits of the format's description only up to the height. */
  lemma BuiltTreeIsSmall<T>(hash: (T, T) -> T, txids: seq<T>, mask: seq<bool>)
    requires 0 < |txids| == |mask|
    ensures var t := TreeOf(hash, txids, mask);
            && 1 <= |t.vHash| <= |txids| && |t.vHash| <= |t.vBits|
            && |t.vHash| <= 1 + |Positions(mask, 0, |mask|)| * Height(|txids|)
            && |t.vBits| <= 2 * |t.vHash| - 1 + Height(|txids|)
  {
    hide Build, Positions, Width, First, Last;
    HeightIsFirst(|txids|);
    WholeRange(|txids|);
    BuildSizes(hash, txids, mask, Height(|txids|), 0);
  }

  lemma SentCarries<T>(hash: (T, T) -> T, txids: seq<T>, mask: seq<bool>, bits: seq<bool>)
    requires 0 < |txids| == |mask| && TreeOf(hash, txids, mask).vBits <= bits
    requires 0 < Width(|txids|, Height(|txids|))
    ensures Carries(hash, txids, mask, Height(|txids|), 0, bits, TreeOf(hash, txids, mask).vHash, 0, 0)
  {
  }

  /** A tree built for a block, packed into bytes or not, is accepted and yields the block's root and exactly the
      matched txids, in order. */
  lemma TreeRoundTrip<T>(hash: (T, T) -> T, zero: T, txids: seq<T>, mask: seq<bool>, padded: bool)
    requires 0 < |txids| == |mask| <= MAX_BLOCK_SIZE / 60
    ensures var t := TreeOf(hash, txids, mask);
            var sent := if padded then t.(vBits := Padded(t.vBits)) else t;
            var p := Traverse(hash, zero, sent);
            var wanted := Positions(mask, 0, |mask|);
            && Accepted(hash, zero, sent)
            && p.root == Root(hash, txids) && p.positions == wanted && p.matches == AtAll(txids, wanted)
  {
    hide Traverse, TreeOf, Positions, AtAll, Root, Padded, Height;
    BuiltTreeIsSmall(hash, txids, mask);
    var t := TreeOf(hash, txids, mask);
    var sent := if padded then t.(vBits := Padded(t.vBits)) else t;
    assert t.vBits <= sent.vBits && (|sent.vBits| + 7) / 8 == (|t.vBits| + 7) / 8;
    BuiltTreeTraverses(hash, zero, txids, mask, sent);
  }

  /** Any tree that carries the built bits, and maybe more, is traversed to its end. */
  lemma BuiltTreeTraverses<T>(hash: (T, T) -> T, zero: T, txids: seq<T>, mask: seq<bool>, sent: Tree<T>)
    requires 0 < |txids| == |mask|
    requires var t := TreeOf(hash, txids, mask);
             sent.nTransactions == t.nTransactions && sent.vHash == t.vHash && t.vBits <= sent.vBits
    ensures TreeOf(hash, txids, mask).nTransactions == |txids|
    ensures var t := TreeOf(hash, txids, mask);
            var p := Traverse(hash, zero, sent);
            var wanted := Positions(mask, 0, |mask|);
            && !p.bad && p.bitsUsed == |t.vBits| && p.hashUsed == |t.vHash|
            && p.root == Root(hash, txids) && p.positions == wanted && p.matches == AtAll(txids, wanted)
  {
    hide Extract, Width, Positions, AtAll, First, Last, CalcHash, Root, Carries, Embedded, Build, Height;
    var n, top := |txids|, Height(|txids|);
    HeightIsFirst(n);
    WholeRange(n);
    RootIsCalcHash(hash, txids);
    SentCarries(hash, txids, mask, sent.vBits);
    ExtractInvertsBuild(hash, zero, txids, mask, top, 0, sent.vBits, sent.vHash, 0, 0);
  }

  lemma WholeRange(n: nat)
    requires n > 0
    ensures First(Height(n), 0) == 0 && Last(n, Height(n), 0) == n
  {
  }

  lemma WidthsOfThree()
    ensures Height(3) == 2 && Width(3, 0) == 3 && Width(3, 1) == 2 && Width(3, 2) == 1
  {
  }

  lemma RangesOfThree()
    ensures First(2, 0) == 0 && Last(3, 2, 0) == 3 && First(1, 0) == 0 && Last(3, 1, 0) == 2
    ensures First(1, 1) == 2 && Last(3, 1, 1) == 3
  {
  }

  lemma LeafRange(n: nat, pos: nat)
    ensures First(0, pos) == pos && Last(n, 0, pos) == Min(pos + 1, n)
  {
  }

  lemma SmallPowers()
    ensures Pow2(0) == 1 && Pow2(1) == 2 && Pow2(2) == 4
  {
    assert Pow2(1) == 2 * Pow2(0);
  }

  /** The 2*N-1 bits fail already for three transactions with the third one matched. */
  lemma BitBoundFails<T>(hash: (T, T) -> T, ids: seq<T>)
    requires |ids| == 3
    ensures var t := TreeOf(hash, ids, [false, false, true]);
            |t.vBits| == 4 && |t.vHash| == 2
  {
    hide CalcHash, Pow2, First, Last, Width, Height;
    WidthsOfThree();
    RangesOfThree();
    LeafRange(3, 2);
    var mask := [false, false, true];
    assert mask[2] && AnyMatch(mask, 0, 3) && AnyMatch(mask, 2, 3) && !AnyMatch(mask, 0, 2);
    assert |Build(hash, ids, mask, 0, 2).0| == 1 == |Build(hash, ids, mask, 0, 2).1|;
    assert |Build(hash, ids, mask, 1, 0).0| == 1 == |Build(hash, ids, mask, 1, 0).1|;
    assert |Build(hash, ids, mask, 1, 1).0| == 2 && |Build(hash, ids, mask, 1, 1).1| == 1;
  }

  /** Any tree that is accepted with the root of a list of its declared length hands out entries of that list, at
      strictly increasing positions, unless two different pairs among those hashed collide. */
  lemma AcceptedTreesAreSound<T(!new)>(hash: (T, T) -> T, zero: T, t: Tree<T>, txids: seq<T>)
    requires Accepted(hash, zero, t) && |txids| == t.nTransactions
    requires Traverse(hash, zero, t).root == Root(hash, txids)
    requires 0 < Width(|txids|, Height(|txids|))
    requires CollisionFree(hash, NodePairs(hash, txids, Height(|txids|), 0)
                                 + ExtractPairs(hash, zero, |txids|, t.vBits, t.vHash, Height(|txids|), 0, 0, 0))
    ensures Authentic(Traverse(hash, zero, t), txids, 0, |txids|)
  {
    var top := Height(|txids|);
    var pairs := NodePairs(hash, txids, top, 0) + ExtractPairs(hash, zero, |txids|, t.vBits, t.vHash, top, 0, 0, 0);
    RootIsCalcHash(hash, txids);
    WholeRange(|txids|);
    ExtractSound(hash, zero, txids, t.vBits, t.vHash, top, 0, 0, 0, pairs);
  }

  // ---------------------------------------------------------------- the class

  class CPartialMerkleTree<T(==)> {
    const hash: (T, T) -> T
    const zero: T
    var nTransactions: nat
    var vBits: seq<bool>
    var vHash: seq<T>
    var fBad: bool

    function Value(): Tree<T>
      reads this
    {
      Tree(nTransactions, vBits, vHash)
    }

    constructor Empty(hash: (T, T) -> T, zero: T)
      ensures this.hash == hash && this.zero == zero && nTransactions == 0 && fBad
    {
      this.hash, this.zero, nTransactions, vBits, vHash, fBad := hash, zero, 0, [], [], true;
    }

    constructor (hash: (T, T) -> T, zero: T, vTxid: seq<T>, vMatch: seq<bool>)
      requires 0 < |vTxid| == |vMatch|
      ensures this.hash == hash && this.zero == zero && !fBad
      ensures Value() == TreeOf(hash, vTxid, vMatch)
    {
      this.hash, this.zero, nTransactions, vBits, vHash, fBad := hash, zero, |vTxid|, [], [], false;
      new;
      var nHeight := TreeHeight(nTransactions);
      HeightIsFirst(nTransactions);
      TraverseAndBuild(nHeight, 0, vTxid, vMatch);
    }

    method IsParentOfMatch(height: nat, pos: nat, vMatch: seq<bool>) returns (fParentOfMatch: bool)
      requires |vMatch| == nTransactions && pos < Width(nTransactions, height)
      ensures fParentOfMatch == AnyMatch(vMatch, First(height, pos), Last(nTransactions, height, pos))
    {
      NodeRange(nTransactions, height, pos);
      fParentOfMatch := false;
      var p := pos * Pow2(height);
      while p < (pos + 1) * Pow2(height) && p < nTransactions
        invariant First(height, pos) <= p <= Last(nTransactions, height, pos)
        invariant fParentOfMatch == AnyMatch(vMatch, First(height, pos), p)
        decreases nTransactions - p
      {
        fParentOfMatch := fParentOfMatch || vMatch[p];
        p := p + 1;
      }
    }

    method TraverseAndBuild(height: nat, pos: nat, vTxid: seq<T>, vMatch: seq<bool>)
      requires |vTxid| == |vMatch| == nTransactions && pos < Width(nTransactions, height)
      modifies this`vBits, this`vHash
      ensures var (bits, hashes) := Build(hash, vTxid, vMatch, height, pos);
              vBits == old(vBits) + bits && vHash == old(vHash) + hashes
      decreases height
    {
      hide Width, CalcHash, AnyMatch, Pow2, First, Last;
      var fParentOfMatch := IsParentOfMatch(height, pos, vMatch);
      vBits := vBits + [fParentOfMatch];
      if height == 0 || !fParentOfMatch {
        vHash := vHash + [CalcHash(hash, vTxid, height, pos)];
      } else {
        ChildInRange(nTransactions, height - 1, pos);
        TraverseAndBuild(height - 1, pos * 2, vTxid, vMatch);
        if pos * 2 + 1 < Width(nTransactions, height - 1) {
          TraverseAndBuild(height - 1, pos * 2 + 1, vTxid, vMatch);
        }
      }
    }

    /** nBitsUsed, nHashUsed and vMatch are passed on and returned in place of the source's references. */
    method TraverseAndExtract(height: nat, pos: nat, bitsUsed: nat, hashUsed: nat, matches: seq<T>)
      returns (root: T, nBitsUsed: nat, nHashUsed: nat, vMatch: seq<T>)
      modifies this`fBad
      ensures var r := Extract(hash, zero, nTransactions, vBits, vHash, height, pos, bitsUsed, hashUsed);
              && root == r.root && nBitsUsed == r.bitsUsed && nHashUsed == r.hashUsed
              && vMatch == matches + r.matches && fBad == (old(fBad) || r.bad)
      decreases height
    {
      hide Width;
      nBitsUsed, nHashUsed, vMatch := bitsUsed, hashUsed, matches;
      if nBitsUsed >= |vBits| {
        fBad := true;
        root := zero;
        return;
      }
      var fParentOfMatch := vBits[nBitsUsed];
      nBitsUsed := nBitsUsed + 1;
      if height == 0 || !fParentOfMatch {
        if nHashUsed >= |vHash| {
          fBad := true;
          root := zero;
          return;
        }
        root := vHash[nHashUsed];
        nHashUsed := nHashUsed + 1;
        if height == 0 && fParentOfMatch {
          vMatch := vMatch + [root];
        }
      } else {
        var left, right;
        left, nBitsUsed, nHashUsed, vMatch := TraverseAndExtract(height - 1, pos * 2, nBitsUsed, nHashUsed, vMatch);
        if pos * 2 + 1 < Width(nTransactions, height - 1) {
          right, nBitsUsed, nHashUsed, vMatch := TraverseAndExtract(height - 1, pos * 2 + 1, nBitsUsed, nHashUsed, vMatch);
        } else {
          right := left;
        }
        root := hash(left, right);
      }
    }

    /** The matched ids and the root, or zero in case of failure. */
    method ExtractMatches() returns (root: T, vMatch: seq<T>)
      modifies this`fBad
      ensures if !old(fBad) && Accepted(hash, zero, Value())
              then root == Traverse(hash, zero, Value()).root && vMatch == Traverse(hash, zero, Value()).matches
              else root == zero
    {
      hide Extract;
      vMatch := [];
      if nTransactions == 0 {
        return zero, vMatch;
      }
      if nTransactions > MAX_BLOCK_SIZE / 60 {
        return zero, vMatch;
      }
      if |vHash| > nTransactions {
        return zero, vMatch;
      }
      if |vBits| < |vHash| {
        return zero, vMatch;
      }
      var nHeight := TreeHeight(nTransactions);
      var nBitsUsed, nHashUsed;
      root, nBitsUsed, nHashUsed, vMatch := TraverseAndExtract(nHeight, 0, 0, 0, vMatch);
      if fBad {
        return zero, vMatch;
      }
      if (nBitsUsed + 7) / 8 != (|vBits| + 7) / 8 {
        return zero, vMatch;
      }
      if nHashUsed != |vHash| {
        return zero, vMatch;
      }
    }

    /** The reading side of the serializer: bits come back padded to whole bytes. */
    method Receive(n: nat, hashes: seq<T>, vBytes: seq<bv8>)
      modifies this
      ensures Value() == Tree(n, Unpacked(vBytes), hashes) && !fBad
    {
      nTransactions, vHash := n, hashes;
      vBits := UnpackBits(vBytes);
      fBad := false;
    }
  }

  /** From the block to the reader: built, packed into bytes, received and extracted, a tree gives the block's root and
      exactly the matched txids. */
  method SendAndExtract<T(==)>(hash: (T, T) -> T, zero: T, vTxid: seq<T>, vMatch: seq<bool>) returns (root: T, matches: seq<T>)
    requires 0 < |vTxid| == |vMatch| <= MAX_BLOCK_SIZE / 60
    ensures root == Root(hash, vTxid) && matches == AtAll(vTxid, Positions(vMatch, 0, |vMatch|))
  {
    hide Traverse, Accepted, TreeOf, Positions, AtAll, Root, Padded, Unpacked;
    var sender := new CPartialMerkleTree(hash, zero, vTxid, vMatch);
    var vBytes := PackBits(sender.vBits);
    var receiver := new CPartialMerkleTree<T>.Empty(hash, zero);
    receiver.Receive(sender.nTransactions, sender.vHash, vBytes);
    TreeRoundTrip(hash, zero, vTxid, vMatch, true);
    root, matches := receiver.ExtractMatches();
  }
}

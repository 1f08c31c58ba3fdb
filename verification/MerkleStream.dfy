/** What ExtractMatches accepts, said without its cursors: the streams are the nodes of a partial tree, written one after
    the other from the root down, and nothing else but the padding of the last byte. */
module MerkleStream {
  import opened Common
  import opened Merkle
  import opened PartialMerkle

  /** A node: a subtree known by its hash alone, a matched leaf, a parent of two, or of an only child. */
  datatype Partial<T> = Hidden(node: T) | Matched(txid: T) | Pair(left: Partial<T>, right: Partial<T>) | Lone(only: Partial<T>)

  /** The tree has the shape of a list of n entries, from this node down. */
  predicate Shaped<T>(p: Partial<T>, n: nat, height: nat, pos: nat)
    decreases p
  {
    match p
    case Hidden(_) => true
    case Matched(_) => height == 0
    case Pair(left, right) =>
      && height > 0 && 2 * pos + 1 < Width(n, height - 1)
      && Shaped(left, n, height - 1, 2 * pos) && Shaped(right, n, height - 1, 2 * pos + 1)
    case Lone(only) => height > 0 && 2 * pos + 1 >= Width(n, height - 1) && Shaped(only, n, height - 1, 2 * pos)
  }

  function Flags<T>(p: Partial<T>): (bits: seq<bool>)
    ensures |bits| > 0
  {
    match p
    case Hidden(_) => [false]
    case Matched(_) => [true]
    case Pair(left, right) => [true] + (Flags(left) + Flags(right))
    case Lone(only) => [true] + Flags(only)
  }

  function Hashes<T>(p: Partial<T>): (hashes: seq<T>)
    ensures 0 < |hashes| <= |Flags(p)|
  {
    match p
    case Hidden(h) => [h]
    case Matched(h) => [h]
    case Pair(left, right) => Hashes(left) + Hashes(right)
    case Lone(only) => Hashes(only)
  }

  function RootOf<T>(hash: (T, T) -> T, p: Partial<T>): T {
    match p
    case Hidden(h) => h
    case Matched(h) => h
    case Pair(left, right) => hash(RootOf(hash, left), RootOf(hash, right))
    case Lone(only) => hash(RootOf(hash, only), RootOf(hash, only))
  }

  function MatchedIds<T>(p: Partial<T>): seq<T> {
    match p
    case Hidden(_) => []
    case Matched(h) => [h]
    case Pair(left, right) => MatchedIds(left) + MatchedIds(right)
    case Lone(only) => MatchedIds(only)
  }

  /** s continues with part from place `at`. */
  predicate Continues<T(==)>(s: seq<T>, at: nat, part: seq<T>) {
    at + |part| <= |s| && s[at..at + |part|] == part
  }

  lemma ContinuesSplit<T>(s: seq<T>, at: nat, one: seq<T>, two: seq<T>)
    ensures Continues(s, at, one + two) <==> Continues(s, at, one) && Continues(s, at + |one|, two)
  {
    if at + |one| + |two| <= |s| {
      assert s[at..at + |one + two|] == s[at..at + |one|] + s[at + |one|..at + |one| + |two|];
      assert (one + two)[..|one|] == one && (one + two)[|one|..] == two;
    }
  }

  lemma ContinuesOne<T>(s: seq<T>, at: nat, x: T)
    ensures Continues(s, at, [x]) <==> at < |s| && s[at] == x
  {
  }

  /** Extract at a node whose flag is not set, or at a leaf. */
  lemma ReadsEnd<T>(hash: (T, T) -> T, zero: T, n: nat, bits: seq<bool>, hashes: seq<T>, height: nat, pos: nat, bu: nat, hu: nat)
    requires bu < |bits| && hu < |hashes| && (height == 0 || !bits[bu])
    ensures Extract(hash, zero, n, bits, hashes, height, pos, bu, hu) ==
            if bits[bu] then Parsed(hashes[hu], bu + 1, hu + 1, false, [hashes[hu]], [pos])
            else Parsed(hashes[hu], bu + 1, hu + 1, false, [], [])
  {
  }

  /** And at a parent. */
  lemma ReadsParent<T>(hash: (T, T) -> T, zero: T, n: nat, bits: seq<bool>, hashes: seq<T>, height: nat, pos: nat, bu: nat, hu: nat)
    requires bu < |bits| && height > 0 && bits[bu]
    ensures var left := Extract(hash, zero, n, bits, hashes, height - 1, 2 * pos, bu + 1, hu);
            Extract(hash, zero, n, bits, hashes, height, pos, bu, hu) ==
            if 2 * pos + 1 < Width(n, height - 1) then
              var right := Extract(hash, zero, n, bits, hashes, height - 1, 2 * pos + 1, left.bitsUsed, left.hashUsed);
              Parsed(hash(left.root, right.root), right.bitsUsed, right.hashUsed, left.bad || right.bad,
                     left.matches + right.matches, left.positions + right.positions)
            else left.(root := hash(left.root, left.root))
  {
    hide Width;
  }

  /** What has gone well in a traversal that is not bad. */
  lemma NotBad<T>(hash: (T, T) -> T, zero: T, n: nat, bits: seq<bool>, hashes: seq<T>, height: nat, pos: nat, bu: nat, hu: nat)
    requires !Extract(hash, zero, n, bits, hashes, height, pos, bu, hu).bad
    ensures bu < |bits| && (height == 0 || !bits[bu] ==> hu < |hashes|)
  {
  }

  /** Extract reads a partial tree off the streams: it comes to its end, with its root and its matched txids. */
  lemma {:induction false} ReadsPartial<T>(hash: (T, T) -> T, zero: T, n: nat, bits: seq<bool>, hashes: seq<T>, height: nat,
                                           pos: nat, bu: nat, hu: nat, p: Partial<T>)
    requires Shaped(p, n, height, pos) && Continues(bits, bu, Flags(p)) && Continues(hashes, hu, Hashes(p))
    ensures var r := Extract(hash, zero, n, bits, hashes, height, pos, bu, hu);
            && !r.bad && r.bitsUsed == bu + |Flags(p)| && r.hashUsed == hu + |Hashes(p)|
            && r.root == RootOf(hash, p) && r.matches == MatchedIds(p)
    decreases p
  {
    hide Continues, Width, Extract;
    match p
    case Hidden(h) =>
      ContinuesOne(bits, bu, false);
      ContinuesOne(hashes, hu, h);
      ReadsEnd(hash, zero, n, bits, hashes, height, pos, bu, hu);
    case Matched(h) =>
      ContinuesOne(bits, bu, true);
      ContinuesOne(hashes, hu, h);
      ReadsEnd(hash, zero, n, bits, hashes, height, pos, bu, hu);
    case Pair(left, right) =>
      ContinuesSplit(bits, bu, [true], Flags(left) + Flags(right));
      ContinuesOne(bits, bu, true);
      ContinuesSplit(bits, bu + 1, Flags(left), Flags(right));
      ContinuesSplit(hashes, hu, Hashes(left), Hashes(right));
      ReadsPartial(hash, zero, n, bits, hashes, height - 1, 2 * pos, bu + 1, hu, left);
      ReadsPartial(hash, zero, n, bits, hashes, height - 1, 2 * pos + 1, bu + 1 + |Flags(left)|, hu + |Hashes(left)|, right);
      ReadsParent(hash, zero, n, bits, hashes, height, pos, bu, hu);
    case Lone(only) =>
      ContinuesSplit(bits, bu, [true], Flags(only));
      ContinuesOne(bits, bu, true);
      ReadsPartial(hash, zero, n, bits, hashes, height - 1, 2 * pos, bu + 1, hu, only);
      ReadsParent(hash, zero, n, bits, hashes, height, pos, bu, hu);
  }

  /** And whatever it reads without running out is one. */
  lemma {:induction false} PartialRead<T>(hash: (T, T) -> T, zero: T, n: nat, bits: seq<bool>, hashes: seq<T>, height: nat,
                                          pos: nat, bu: nat, hu: nat) returns (p: Partial<T>)
    requires !Extract(hash, zero, n, bits, hashes, height, pos, bu, hu).bad
    ensures Shaped(p, n, height, pos) && Continues(bits, bu, Flags(p)) && Continues(hashes, hu, Hashes(p))
    ensures var r := Extract(hash, zero, n, bits, hashes, height, pos, bu, hu);
            r.bitsUsed == bu + |Flags(p)| && r.hashUsed == hu + |Hashes(p)|
    decreases height
  {
    hide Continues, Width, Extract;
    NotBad(hash, zero, n, bits, hashes, height, pos, bu, hu);
    ContinuesOne(bits, bu, bits[bu]);
    if height == 0 || !bits[bu] {
      ReadsEnd(hash, zero, n, bits, hashes, height, pos, bu, hu);
      ContinuesOne(hashes, hu, hashes[hu]);
      p := if bits[bu] then Matched(hashes[hu]) else Hidden(hashes[hu]);
    } else {
      ReadsParent(hash, zero, n, bits, hashes, height, pos, bu, hu);
      var left := PartialRead(hash, zero, n, bits, hashes, height - 1, 2 * pos, bu + 1, hu);
      if 2 * pos + 1 < Width(n, height - 1) {
        var b, h := bu + 1 + |Flags(left)|, hu + |Hashes(left)|;
        var right := PartialRead(hash, zero, n, bits, hashes, height - 1, 2 * pos + 1, b, h);
        p := Pair(left, right);
        ContinuesSplit(bits, bu + 1, Flags(left), Flags(right));
        ContinuesSplit(bits, bu, [true], Flags(left) + Flags(right));
        ContinuesSplit(hashes, hu, Hashes(left), Hashes(right));
      } else {
        p := Lone(left);
        ContinuesSplit(bits, bu, [true], Flags(left));
      }
    }
  }

  /** A partial tree never has more hashes than there are leaves under it. */
  lemma {:induction false} HashesFit<T>(p: Partial<T>, n: nat, height: nat, pos: nat)
    requires Shaped(p, n, height, pos) && pos < Width(n, height)
    ensures |Hashes(p)| <= Last(n, height, pos) - First(height, pos)
    decreases p
  {
    hide Width, First, Last;
    NodeRange(n, height, pos);
    if p.Pair? {
      ChildRanges(n, height - 1, pos);
      HashesFit(p.left, n, height - 1, 2 * pos);
      HashesFit(p.right, n, height - 1, 2 * pos + 1);
    } else if p.Lone? {
      ChildRanges(n, height - 1, pos);
      HashesFit(p.only, n, height - 1, 2 * pos);
    }
  }

  /** The bytes hold the flags of p and nothing after them but the padding of the last one. */
  predicate Holds<T(==)>(t: Tree<T>, p: Partial<T>) {
    && 0 < t.nTransactions <= MAX_BLOCK_SIZE / 60 && Shaped(p, t.nTransactions, Height(t.nTransactions), 0)
    && t.vHash == Hashes(p) && Flags(p) <= t.vBits && (|t.vBits| + 7) / 8 == (|Flags(p)| + 7) / 8
  }

  /** What ExtractMatches accepts is exactly what holds a partial tree, and it gives that tree's root and matched txids. */
  lemma AcceptedIsPartial<T>(hash: (T, T) -> T, zero: T, t: Tree<T>)
    ensures Accepted(hash, zero, t) <==> exists p :: Holds(t, p)
    ensures forall p :: Holds(t, p) ==>
              Traverse(hash, zero, t).root == RootOf(hash, p) && Traverse(hash, zero, t).matches == MatchedIds(p)
  {
    hide Extract, Shaped, Flags, Hashes, Height;
    if Accepted(hash, zero, t) {
      var p := PartialRead(hash, zero, t.nTransactions, t.vBits, t.vHash, Height(t.nTransactions), 0, 0, 0);
      assert Holds(t, p);
    }
    forall p | Holds(t, p)
      ensures Accepted(hash, zero, t)
      ensures Traverse(hash, zero, t).root == RootOf(hash, p) && Traverse(hash, zero, t).matches == MatchedIds(p)
    {
      HeldIsAccepted(hash, zero, t, p);
    }
  }

  lemma HeldIsAccepted<T>(hash: (T, T) -> T, zero: T, t: Tree<T>, p: Partial<T>)
    requires Holds(t, p)
    ensures Accepted(hash, zero, t)
    ensures var r := Traverse(hash, zero, t);
            r.root == RootOf(hash, p) && r.matches == MatchedIds(p) && r.bitsUsed == |Flags(p)| && r.hashUsed == |Hashes(p)|
  {
    hide Extract, Shaped, Flags, Hashes, Height, First, Last, Width;
    var n := t.nTransactions;
    HeightIsFirst(n);
    WholeRange(n);
    HashesFit(p, n, Height(n), 0);
    ReadsPartial(hash, zero, n, t.vBits, t.vHash, Height(n), 0, 0, 0, p);
  }

  /** Of two accepted trees of one size, one cannot go on where the other ends, but for the padding of the last byte. */
  lemma AcceptedIsComplete<T>(hash: (T, T) -> T, zero: T, t: Tree<T>, u: Tree<T>)
    requires Accepted(hash, zero, t) && Accepted(hash, zero, u) && t.nTransactions == u.nTransactions
    requires t.vBits <= u.vBits && t.vHash <= u.vHash
    ensures t.vHash == u.vHash && (|t.vBits| + 7) / 8 == (|u.vBits| + 7) / 8
    ensures Traverse(hash, zero, t).root == Traverse(hash, zero, u).root
    ensures Traverse(hash, zero, t).matches == Traverse(hash, zero, u).matches
  {
    hide Extract, Shaped, Flags, Hashes, Height;
    AcceptedIsPartial(hash, zero, t);
    var p :| Holds(t, p);
    assert Continues(u.vBits, 0, Flags(p)) && Continues(u.vHash, 0, Hashes(p));
    ReadsPartial(hash, zero, u.nTransactions, u.vBits, u.vHash, Height(u.nTransactions), 0, 0, 0, p);
    HeldIsAccepted(hash, zero, t, p);
  }

  /** So nothing may be left over, and nothing missing: with a hash more, eight bits more, or its last hash gone, an accepted
      tree is accepted no longer. */
  lemma LeftoversAreRejected<T>(hash: (T, T) -> T, zero: T, t: Tree<T>, extra: T, more: seq<bool>)
    requires Accepted(hash, zero, t)
    ensures !Accepted(hash, zero, t.(vHash := t.vHash + [extra]))
    ensures |more| >= 8 ==> !Accepted(hash, zero, t.(vBits := t.vBits + more))
    ensures t.vHash != [] && !Accepted(hash, zero, t.(vHash := t.vHash[..|t.vHash| - 1]))
  {
    hide Traverse, Plausible;
    SomeHash(hash, zero, t);
    var longer, wider, shorter :=
      t.(vHash := t.vHash + [extra]), t.(vBits := t.vBits + more), t.(vHash := t.vHash[..|t.vHash| - 1]);
    if Accepted(hash, zero, longer) {
      AcceptedIsComplete(hash, zero, t, longer);
    }
    if |more| >= 8 && Accepted(hash, zero, wider) {
      AcceptedIsComplete(hash, zero, t, wider);
    }
    if Accepted(hash, zero, shorter) {
      AcceptedIsComplete(hash, zero, shorter, t);
    }
  }

  lemma SomeHash<T>(hash: (T, T) -> T, zero: T, t: Tree<T>)
    requires Accepted(hash, zero, t)
    ensures t.vHash != []
  {
    AcceptedIsPartial(hash, zero, t);
    var p :| Holds(t, p);
    assert |Hashes(p)| > 0;
  }

  /** From bytes received to the result: root and matched txids of the partial tree they hold, or else the null hash. */
  method ReceiveAndExtract<T(==)>(hash: (T, T) -> T, zero: T, nTransactions: nat, vHash: seq<T>, vBytes: seq<bv8>)
    returns (root: T, matches: seq<T>)
    ensures var t := Tree(nTransactions, Unpacked(vBytes), vHash);
            && (forall p :: Holds(t, p) ==> root == RootOf(hash, p) && matches == MatchedIds(p))
            && ((forall p :: !Holds(t, p)) ==> root == zero)
  {
    hide Traverse, Accepted, Unpacked, Shaped, Flags, Hashes;
    var receiver := new CPartialMerkleTree<T>.Empty(hash, zero);
    receiver.Receive(nTransactions, vHash, vBytes);
    ghost var t := Tree(nTransactions, Unpacked(vBytes), vHash);
    assert receiver.Value() == t;
    AcceptedIsPartial(hash, zero, t);
    root, matches := receiver.ExtractMatches();
    forall p | Holds(t, p)
      ensures root == RootOf(hash, p) && matches == MatchedIds(p)
    {
      HeldIsAccepted(hash, zero, t, p);
      assert root == Traverse(hash, zero, t).root;
    }
  }
}

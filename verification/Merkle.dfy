/** Merkle trees two ways: the flat array that BuildMerkleTree lays out level by level, and the recursive
    CalcHash. The hash function is a parameter; where it must resist collisions, it must do so only on the
    pairs that are actually hashed. */
module Merkle {
  import opened Common

  // ---------------------------------------------------------------- widths

  /** Number of nodes at a height: CalcTreeWidth. */
  function Width(n: nat, h: nat): nat {
    (n + Pow2(h) - 1) / Pow2(h)
  }

  /** Each level is half the one below, rounded up: the two width computations of the source agree. */
  lemma WidthHalves(n: nat, h: nat)
    ensures Width(n, h + 1) == (Width(n, h) + 1) / 2
  {
    var p := Pow2(h);
    var q, r := (n + p - 1) / p, (n + p - 1) % p;
    var m, b := (q + 1) / 2, (q + 1) % 2;
    assert n + 2 * p - 1 == p * (q + 1) + r;
    assert p * (q + 1) == p * (2 * m + b) == (2 * p) * m + p * b;
    Quotient(n + 2 * p - 1, 2 * p, m, p * b + r);
  }

  lemma {:induction false} WidthOfHalf(n: nat, h: nat)
    ensures Width((n + 1) / 2, h) == Width(n, h + 1)
  {
    if h == 0 {
      WidthHalves(n, 0);
    } else {
      WidthOfHalf(n, h - 1);
      WidthHalves((n + 1) / 2, h - 1);
      WidthHalves(n, h);
    }
  }

  /** The height of the root. */
  function Height(n: nat): nat {
    if n <= 1 then 0 else 1 + Height((n + 1) / 2)
  }

  lemma {:induction false} HeightIsFirst(n: nat)
    ensures Width(n, Height(n)) <= 1 && (n > 0 ==> Width(n, Height(n)) == 1)
    ensures forall h :: 0 <= h < Height(n) ==> Width(n, h) > 1
  {
    if n > 1 {
      HeightIsFirst((n + 1) / 2);
      WidthOfHalf(n, Height(n) - 1);
      forall h | 0 <= h < Height(n)
        ensures Width(n, h) > 1
      {
        if h > 0 {
          WidthOfHalf(n, h - 1);
        }
      }
    }
  }

  lemma WidthOfLeaves(n: nat)
    ensures Width(n, 0) == n
  {
  }

  lemma ChildInRange(n: nat, h: nat, pos: nat)
    requires pos < Width(n, h + 1)
    ensures 2 * pos < Width(n, h)
  {
    WidthHalves(n, h);
  }

  /** Computes the height as both constructors and ExtractMatches do. */
  method TreeHeight(n: nat) returns (h: nat)
    ensures h == Height(n)
  {
    HeightIsFirst(n);
    h := 0;
    while Width(n, h) > 1
      invariant h <= Height(n)
      decreases Height(n) - h
    {
      h := h + 1;
    }
  }

  // ---------------------------------------------------------------- the recursive tree

  function CalcHash<T>(hash: (T, T) -> T, txids: seq<T>, height: nat, pos: nat): T
    requires pos < Width(|txids|, height)
  {
    if height == 0 then txids[pos]
    else
      ChildInRange(|txids|, height - 1, pos);
      var left := CalcHash(hash, txids, height - 1, 2 * pos);
      var right := if 2 * pos + 1 < Width(|txids|, height - 1)
                   then CalcHash(hash, txids, height - 1, 2 * pos + 1) else left;
      hash(left, right)
  }

  // ---------------------------------------------------------------- the flat tree

  /** One level up; an odd last node is paired with itself. */
  function NextLevel<T>(hash: (T, T) -> T, s: seq<T>): (r: seq<T>)
    ensures |r| == (|s| + 1) / 2
  {
    seq((|s| + 1) / 2, i requires 0 <= i < (|s| + 1) / 2 =>
      hash(s[2 * i], s[if 2 * i + 1 < |s| then 2 * i + 1 else |s| - 1]))
  }

  function Levels<T>(hash: (T, T) -> T, s: seq<T>): (r: seq<T>)
    ensures s <= r
    decreases |s|
  {
    if |s| <= 1 then s else s + Levels(hash, NextLevel(hash, s))
  }

  function Root<T>(hash: (T, T) -> T, s: seq<T>): T
    requires |s| > 0
    decreases |s|
  {
    if |s| == 1 then s[0] else Root(hash, NextLevel(hash, s))
  }

  lemma {:induction false} LevelsEndInRoot<T>(hash: (T, T) -> T, s: seq<T>)
    requires |s| > 0
    ensures |Levels(hash, s)| > 0 && Levels(hash, s)[|Levels(hash, s)| - 1] == Root(hash, s)
    decreases |s|
  {
    if |s| > 1 {
      LevelsEndInRoot(hash, NextLevel(hash, s));
    }
  }

  /** A node over the next level is the same node one higher over this one. */
  lemma {:induction false} NextLevelShifts<T>(hash: (T, T) -> T, s: seq<T>, height: nat, pos: nat)
    requires pos < Width(|s|, height + 1)
    ensures pos < Width(|NextLevel(hash, s)|, height)
    ensures CalcHash(hash, NextLevel(hash, s), height, pos) == CalcHash(hash, s, height + 1, pos)
    decreases height
  {
    hide Width;
    WidthOfHalf(|s|, height);
    WidthHalves(|s|, height);
    WidthOfLeaves(|s|);
    if height == 0 {
      WidthOfLeaves(|NextLevel(hash, s)|);
    } else {
      WidthOfHalf(|s|, height - 1);
      ChildInRange(|s|, height, pos);
      NextLevelShifts(hash, s, height - 1, 2 * pos);
      if 2 * pos + 1 < Width(|s|, height) {
        NextLevelShifts(hash, s, height - 1, 2 * pos + 1);
      }
    }
  }

  /** The last entry of the flat array is CalcHash of the top node. */
  lemma {:induction false} RootIsCalcHash<T>(hash: (T, T) -> T, s: seq<T>)
    requires |s| > 0
    ensures 0 < Width(|s|, Height(|s|))
    ensures Root(hash, s) == CalcHash(hash, s, Height(|s|), 0)
    decreases |s|
  {
    hide Width;
    HeightIsFirst(|s|);
    if |s| > 1 {
      RootIsCalcHash(hash, NextLevel(hash, s));
      NextLevelShifts(hash, s, Height(|s|) - 1, 0);
    }
  }

  // ---------------------------------------------------------------- branches

  function Sibling(i: nat, size: nat): nat
    requires size > 0
  {
    var other := if i % 2 == 0 then i + 1 else i - 1;
    if other < size then other else size - 1
  }

  /** The sibling at each level on the way up from index i. */
  function Branch<T>(hash: (T, T) -> T, s: seq<T>, i: nat): (r: seq<T>)
    ensures |r| == Height(|s|)
    decreases |s|
  {
    if |s| <= 1 then [] else [s[Sibling(i, |s|)]] + Branch(hash, NextLevel(hash, s), i / 2)
  }

  /** A node of index i and what stands beside it, in the order they are hashed. */
  function Beside<T>(x: T, other: T, i: int): (T, T) {
    if i % 2 == 1 then (other, x) else (x, other)
  }

  function Fold<T>(hash: (T, T) -> T, x: T, branch: seq<T>, i: int): T
    decreases |branch|
  {
    if branch == [] then x
    else
      var pair := Beside(x, branch[0], i);
      Fold(hash, hash(pair.0, pair.1), branch[1..], i / 2)
  }

  /** Entry i and its sibling, in the order they are hashed. */
  function PairAt<T>(s: seq<T>, i: nat): (T, T)
    requires i < |s|
  {
    Beside(s[i], s[Sibling(i, |s|)], i)
  }

  lemma ParentOf<T>(hash: (T, T) -> T, s: seq<T>, i: nat)
    requires i < |s| && |s| > 1
    ensures NextLevel(hash, s)[i / 2] == hash(PairAt(s, i).0, PairAt(s, i).1)
  {
  }

  lemma {:induction false} BranchLeadsToRoot<T>(hash: (T, T) -> T, s: seq<T>, i: nat)
    requires i < |s|
    ensures Fold(hash, s[i], Branch(hash, s, i), i) == Root(hash, s)
    decreases |s|
  {
    if |s| > 1 {
      var branch := Branch(hash, s, i);
      var next := NextLevel(hash, s);
      assert branch[0] == s[Sibling(i, |s|)] && branch[1..] == Branch(hash, next, i / 2);
      ParentOf(hash, s, i);
      BranchLeadsToRoot(hash, next, i / 2);
    }
  }

  // ---------------------------------------------------------------- what a root binds

  ghost predicate CollisionFree<T(!new)>(hash: (T, T) -> T, pairs: set<(T, T)>) {
    forall p, q :: p in pairs && q in pairs && hash(p.0, p.1) == hash(q.0, q.1) ==> p == q
  }

  /** The pairs hashed to build the tree over s. */
  ghost function TreePairs<T(!new)>(hash: (T, T) -> T, s: seq<T>): set<(T, T)>
    decreases |s|
  {
    if |s| <= 1 then {} else (set i | 0 <= i < |s| :: PairAt(s, i)) + TreePairs(hash, NextLevel(hash, s))
  }

  /** The pairs hashed to check a branch. */
  ghost function FoldPairs<T>(hash: (T, T) -> T, x: T, branch: seq<T>, i: nat): set<(T, T)>
    decreases |branch|
  {
    if branch == [] then {}
    else
      var pair := Beside(x, branch[0], i);
      {pair} + FoldPairs(hash, hash(pair.0, pair.1), branch[1..], i / 2)
  }

  lemma PairInTree<T(!new)>(hash: (T, T) -> T, s: seq<T>, i: nat)
    requires i < |s| && |s| > 1
    ensures PairAt(s, i) in TreePairs(hash, s) && TreePairs(hash, NextLevel(hash, s)) <= TreePairs(hash, s)
  {
  }

  lemma FoldUnfolds<T(!new)>(hash: (T, T) -> T, x: T, branch: seq<T>, i: nat)
    requires branch != []
    ensures var pair := Beside(x, branch[0], i);
            && Fold(hash, x, branch, i) == Fold(hash, hash(pair.0, pair.1), branch[1..], i / 2)
            && pair in FoldPairs(hash, x, branch, i)
            && FoldPairs(hash, hash(pair.0, pair.1), branch[1..], i / 2) <= FoldPairs(hash, x, branch, i)
  {
  }

  lemma SamePairSameEntry<T>(s: seq<T>, x: T, other: T, i: nat)
    requires i < |s| && Beside(x, other, i) == PairAt(s, i)
    ensures x == s[i] && other == s[Sibling(i, |s|)]
  {
  }

  /** Short of a collision, no other hash and no other branch of the right length leads to the root. */
  lemma {:induction false} BranchBinds<T(!new)>(hash: (T, T) -> T, s: seq<T>, x: T, branch: seq<T>, i: nat)
    requires i < |s| && |branch| == Height(|s|)
    requires CollisionFree(hash, TreePairs(hash, s) + FoldPairs(hash, x, branch, i))
    requires Fold(hash, x, branch, i) == Root(hash, s)
    ensures x == s[i] && branch == Branch(hash, s, i)
    decreases |s|
  {
    if |s| > 1 {
      hide Fold, FoldPairs, TreePairs, Branch, Beside, Sibling;
      var next, pair := NextLevel(hash, s), Beside(x, branch[0], i);
      FoldUnfolds(hash, x, branch, i);
      PairInTree(hash, s, i);
      BranchBinds(hash, next, hash(pair.0, pair.1), branch[1..], i / 2);
      ParentOf(hash, s, i);
      SamePairSameEntry(s, x, branch[0], i);
      BranchUnfolds(hash, s, i);
      assert branch == [branch[0]] + branch[1..];
    }
  }

  /** Short of a collision, a root binds the whole list among lists of its length. */
  lemma {:induction false} RootBindsList<T(!new)>(hash: (T, T) -> T, s: seq<T>, t: seq<T>)
    requires |s| == |t| > 0 && Root(hash, s) == Root(hash, t)
    requires CollisionFree(hash, TreePairs(hash, s) + TreePairs(hash, t))
    ensures s == t
    decreases |s|
  {
    if |s| > 1 {
      RootBindsList(hash, NextLevel(hash, s), NextLevel(hash, t));
      forall i | 0 <= i < |s|
        ensures s[i] == t[i]
      {
        ParentOf(hash, s, i);
        ParentOf(hash, t, i);
        assert PairAt(s, i) in TreePairs(hash, s) && PairAt(t, i) in TreePairs(hash, t);
      }
    }
  }

  /** It does not bind the length: an odd list and the list with its last entry doubled share their root,
      whatever the hash function. CheckBlock's search for duplicates answers to this. */
  lemma DoubledTailSharesRoot<T>(hash: (T, T) -> T, s: seq<T>)
    requires |s| % 2 == 1 && |s| > 1
    ensures Root(hash, s + [s[|s| - 1]]) == Root(hash, s)
  {
    hide Root;
    var doubled := s + [s[|s| - 1]];
    var a, b := NextLevel(hash, doubled), NextLevel(hash, s);
    assert |a| == |b|;
    forall k | 0 <= k < |b| ensures a[k] == b[k] {
      SameParent(hash, s, k);
    }
    assert a == b;
    RootOfLevel(hash, doubled);
    RootOfLevel(hash, s);
  }

  lemma SameParent<T>(hash: (T, T) -> T, s: seq<T>, k: nat)
    requires |s| % 2 == 1 && k < (|s| + 1) / 2
    ensures NextLevel(hash, s + [s[|s| - 1]])[k] == NextLevel(hash, s)[k]
  {
  }

  lemma RootOfLevel<T>(hash: (T, T) -> T, s: seq<T>)
    requires |s| > 1
    ensures Root(hash, s) == Root(hash, NextLevel(hash, s))
  {
  }

  // ---------------------------------------------------------------- CBlock

  lemma LevelsOfFew<T>(hash: (T, T) -> T, s: seq<T>)
    ensures |s| <= 1 ==> Levels(hash, s) == s
  {
  }

  lemma LevelOnTop<T>(hash: (T, T) -> T, tree: seq<T>, j: nat)
    requires j + 1 < |tree|
    ensures tree[..j] + Levels(hash, tree[j..]) == tree + Levels(hash, NextLevel(hash, tree[j..]))
  {
    assert tree == tree[..j] + tree[j..];
  }

  lemma LevelBelow<T>(hash: (T, T) -> T, tree: seq<T>, j: nat, level: seq<T>)
    requires j <= |tree| && |level| > 1 && tree[j..] == Levels(hash, level)
    ensures j + |level| <= |tree| && tree[j..j + |level|] == level
    ensures tree[j + |level|..] == Levels(hash, NextLevel(hash, level))
  {
    var rest := Levels(hash, NextLevel(hash, level));
    assert tree[j..] == level + rest;
    hide Levels, NextLevel;
    assert tree[j..j + |level|] == tree[j..][..|level|];
    assert tree[j + |level|..] == tree[j..][|level|..];
  }

  lemma BranchUnfolds<T>(hash: (T, T) -> T, s: seq<T>, i: nat)
    ensures Branch(hash, s, i) ==
            if |s| <= 1 then [] else [s[Sibling(i, |s|)]] + Branch(hash, NextLevel(hash, s), i / 2)
  {
  }

  class CBlock<T(==)> {
    const hash: (T, T) -> T
    const zero: T
    const txids: seq<T>
    var vMerkleTree: seq<T>

    constructor (hash: (T, T) -> T, zero: T, txids: seq<T>)
      ensures this.hash == hash && this.zero == zero && this.txids == txids && Valid()
    {
      this.hash, this.zero, this.txids, vMerkleTree := hash, zero, txids, [];
    }

    /** The tree is not built yet, or complete. */
    ghost predicate Valid()
      reads this
    {
      vMerkleTree == [] || vMerkleTree == Levels(hash, txids)
    }

    method BuildMerkleTree() returns (root: T)
      modifies this
      ensures Valid() && vMerkleTree == Levels(hash, txids)
      ensures root == if txids == [] then zero else Root(hash, txids)
    {
      hide Levels, NextLevel, Root;
      LevelsOfFew(hash, txids);
      vMerkleTree := [];
      for k := 0 to |txids|
        invariant vMerkleTree == txids[..k]
      {
        vMerkleTree := vMerkleTree + [txids[k]];
      }
      assert vMerkleTree == txids && vMerkleTree[0..] == txids;
      var j, nSize := 0, |txids|;
      while nSize > 1
        invariant 0 <= j && 0 <= nSize && |vMerkleTree| == j + nSize && (nSize == 0 <==> txids == [])
        invariant Levels(hash, txids) == vMerkleTree[..j] + Levels(hash, vMerkleTree[j..])
        decreases nSize
      {
        LevelOnTop(hash, vMerkleTree, j);
        AppendLevel(j, nSize);
        j := j + nSize;
        nSize := (nSize + 1) / 2;
      }
      LevelsOfFew(hash, vMerkleTree[j..]);
      assert vMerkleTree == vMerkleTree[..j] + vMerkleTree[j..];
      if txids != [] {
        LevelsEndInRoot(hash, txids);
      }
      root := if |vMerkleTree| == 0 then zero else vMerkleTree[|vMerkleTree| - 1];
    }

    /** The inner loop: hashes the level at j in pairs and appends the results. */
    method AppendLevel(j: nat, nSize: nat)
      requires |vMerkleTree| == j + nSize && nSize > 1
      modifies this
      ensures vMerkleTree == old(vMerkleTree) + NextLevel(hash, old(vMerkleTree)[j..])
    {
      hide Levels;
      ghost var before := vMerkleTree;
      ghost var level := vMerkleTree[j..];
      ghost var m := 0;
      var i := 0;
      while i < nSize
        invariant i == 2 * m && m <= (nSize + 1) / 2
        invariant vMerkleTree == before + NextLevel(hash, level)[..m]
        decreases nSize - i
      {
        var i2 := if i + 1 < nSize then i + 1 else nSize - 1;
        assert vMerkleTree[j + i] == level[i] && vMerkleTree[j + i2] == level[i2];
        vMerkleTree := vMerkleTree + [hash(vMerkleTree[j + i], vMerkleTree[j + i2])];
        i := i + 2;
        m := m + 1;
      }
    }

    method GetMerkleBranch(index: nat) returns (branch: seq<T>)
      requires Valid()
      modifies this
      ensures Valid() && branch == Branch(hash, txids, index)
    {
      hide Levels, NextLevel, Branch;
      if |vMerkleTree| == 0 {
        var _ := BuildMerkleTree();
      }
      branch := [];
      assert vMerkleTree[0..] == vMerkleTree;
      var nIndex, j, nSize := index, 0, |txids|;
      ghost var level := txids;
      while nSize > 1
        invariant vMerkleTree == Levels(hash, txids)
        invariant 0 <= nIndex && 0 <= j <= |vMerkleTree| && nSize == |level|
        invariant vMerkleTree[j..] == Levels(hash, level)
        invariant Branch(hash, txids, index) == branch + Branch(hash, level, nIndex)
        decreases nSize
      {
        var i := Sibling(nIndex, nSize);
        LevelBelow(hash, vMerkleTree, j, level);
        assert vMerkleTree[j + i] == vMerkleTree[j..j + |level|][i];
        BranchUnfolds(hash, level, nIndex);
        branch := branch + [vMerkleTree[j + i]];
        nIndex := nIndex / 2;
        level := NextLevel(hash, level);
        j := j + nSize;
        nSize := (nSize + 1) / 2;
      }
      BranchUnfolds(hash, level, nIndex);
    }

    /** Folds a branch from a leaf upwards; index -1 stands for no index. Other negative indexes are shifted like any:
        division by two rounds down. */
    method CheckMerkleBranch(leaf: T, branch: seq<T>, index: int) returns (r: T)
      ensures r == if index == -1 then zero else Fold(hash, leaf, branch, index)
    {
      if index == -1 {
        return zero;
      }
      r := leaf;
      var nIndex := index;
      for k := 0 to |branch|
        invariant Fold(hash, leaf, branch, index) == Fold(hash, r, branch[k..], nIndex)
      {
        if nIndex % 2 == 1 {
          r := hash(branch[k], r);
        } else {
          r := hash(r, branch[k]);
        }
        nIndex := nIndex / 2;
      }
    }
  }
}

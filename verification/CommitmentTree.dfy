/** The incremental Merkle tree of shielded commitments: a sparse node map kept equal to the plain recursive tree. */
module CommitmentTree {
  import opened Arith

  const COMMITMENT_TREE_DEPTH: nat := 32

  /** Ideal hashes. Commitments are arbitrary hashes, nodes and the empty leaf included. */
  datatype Hash = Zero | EmptyLeaf | Commitment(id: int) | Branch(left: Hash, right: Hash)

  datatype Result<+T> = Ok(value: T) | TreeFull | NotFound

  datatype MerkleProof = MerkleProof(commitment: Hash, index: nat, siblings: seq<Hash>)

  function Pow2(k: nat): (p: nat)
    ensures p >= 1
  {
    if k == 0 then 1 else 2 * Pow2(k - 1)
  }

  // ------------------------------------------------------------------
  // The plain tree
  // ------------------------------------------------------------------

  function EmptyRoot(h: nat): Hash {
    if h == 0 then EmptyLeaf else Branch(EmptyRoot(h - 1), EmptyRoot(h - 1))
  }

  /** The leaf list padded with empty leaves. */
  function PaddedLeaf(leaves: seq<Hash>, i: nat): Hash {
    if i < |leaves| then leaves[i] else EmptyLeaf
  }

  /** Root of the `i`-th subtree of height `h` over the padded leaves. */
  function PlainRoot(leaves: seq<Hash>, h: nat, i: nat): Hash {
    if h == 0 then PaddedLeaf(leaves, i)
    else Branch(PlainRoot(leaves, h - 1, 2 * i), PlainRoot(leaves, h - 1, 2 * i + 1))
  }

  /** The ancestor of a leaf at height `h`. */
  function Ancestor(i: nat, h: nat): nat {
    if h == 0 then i else Ancestor(i, h - 1) / 2
  }

  lemma {:induction false} AncestorFromParent(i: nat, h: nat)
    requires h > 0
    ensures Ancestor(i, h) == Ancestor(i / 2, h - 1)
  {
    if h > 1 {
      AncestorFromParent(i, h - 1);
    }
  }

  lemma {:induction false} AncestorIsRoot(i: nat, h: nat)
    requires i < Pow2(h)
    ensures Ancestor(i, h) == 0
  {
    if h > 0 {
      AncestorFromParent(i, h);
      AncestorIsRoot(i / 2, h - 1);
    }
  }

  lemma {:induction false} EmptyTree(h: nat, i: nat)
    ensures PlainRoot([], h, i) == EmptyRoot(h)
  {
    if h > 0 {
      EmptyTree(h - 1, 2 * i);
      EmptyTree(h - 1, 2 * i + 1);
    }
  }

  /** Appending a leaf changes nothing off its path to the root. */
  lemma {:induction false} OffPathUnchanged(leaves: seq<Hash>, c: Hash, h: nat, i: nat)
    requires i != Ancestor(|leaves|, h)
    ensures PlainRoot(leaves + [c], h, i) == PlainRoot(leaves, h, i)
  {
    if h > 0 {
      OffPathUnchanged(leaves, c, h - 1, 2 * i);
      OffPathUnchanged(leaves, c, h - 1, 2 * i + 1);
    }
  }

  // ------------------------------------------------------------------
  // Proofs
  // ------------------------------------------------------------------

  /** The root reached from a node by its siblings, going up. */
  function ClimbUp(current: Hash, siblings: seq<Hash>, index: nat): Hash
    decreases siblings
  {
    if siblings == [] then current
    else ClimbUp(if index % 2 == 0 then Branch(current, siblings[0]) else Branch(siblings[0], current),
                 siblings[1..], index / 2)
  }

  predicate Accepts(p: MerkleProof, root: Hash, depth: nat) {
    |p.siblings| == depth && ClimbUp(p.commitment, p.siblings, p.index) == root
  }

  method VerifyCommitmentProof(p: MerkleProof, root: Hash, depth: nat) returns (ok: bool)
    ensures ok <==> Accepts(p, root, depth)
  {
    if |p.siblings| != depth {
      return false;
    }
    var current, index := p.commitment, p.index;
    for k := 0 to depth
      invariant ClimbUp(current, p.siblings[k..], index) == ClimbUp(p.commitment, p.siblings, p.index)
    {
      assert p.siblings[k..][1..] == p.siblings[k + 1..];
      current := if index % 2 == 0 then Branch(current, p.siblings[k]) else Branch(p.siblings[k], current);
      index := index / 2;
    }
    return current == root;
  }

  function SiblingIndex(i: nat): nat {
    if i % 2 == 0 then i + 1 else i - 1
  }

  /** The `k` siblings on the way up from the node at height `h` and index `i`. */
  function PlainSiblings(leaves: seq<Hash>, h: nat, i: nat, k: nat): (r: seq<Hash>)
    ensures |r| == k
    decreases k
  {
    if k == 0 then [] else [PlainRoot(leaves, h, SiblingIndex(i))] + PlainSiblings(leaves, h + 1, i / 2, k - 1)
  }

  lemma {:induction false} PlainSiblingsSnoc(leaves: seq<Hash>, h: nat, i: nat, k: nat)
    ensures PlainSiblings(leaves, h, i, k + 1)
         == PlainSiblings(leaves, h, i, k) + [PlainRoot(leaves, h + k, SiblingIndex(Ancestor(i, k)))]
    decreases k
  {
    if k > 0 {
      PlainSiblingsSnoc(leaves, h + 1, i / 2, k - 1);
      AncestorFromParent(i, k);
    }
  }

  lemma {:induction false} SiblingsClimb(leaves: seq<Hash>, h: nat, i: nat, k: nat)
    ensures ClimbUp(PlainRoot(leaves, h, i), PlainSiblings(leaves, h, i, k), i) == PlainRoot(leaves, h + k, Ancestor(i, k))
    decreases k
  {
    if k > 0 {
      var parent := PlainRoot(leaves, h + 1, i / 2);
      assert parent == if i % 2 == 0 then Branch(PlainRoot(leaves, h, i), PlainRoot(leaves, h, i + 1))
                                     else Branch(PlainRoot(leaves, h, i - 1), PlainRoot(leaves, h, i));
      SiblingsClimb(leaves, h + 1, i / 2, k - 1);
      AncestorFromParent(i, k);
    }
  }

  /** Descending `k` levels from node `j`, following the low bits of `i`. */
  function Descend(j: nat, i: nat, k: nat): nat {
    if k == 0 then j else 2 * Descend(j, i / 2, k - 1) + i % 2
  }

  lemma {:induction false} DescendIsMod(i: nat, k: nat)
    ensures Descend(0, i, k) == i % Pow2(k)
  {
    if k > 0 {
      DescendIsMod(i / 2, k - 1);
      ModDouble(i, Pow2(k - 1));
    }
  }

  lemma ModDouble(i: nat, p: nat)
    requires p > 0
    ensures i % (2 * p) == 2 * ((i / 2) % p) + i % 2
  {
    var q, r := (i / 2) / p, (i / 2) % p;
    assert i / 2 == p * q + r;
    assert (2 * p) * q == 2 * (p * q);
    DivModUnique(i, 2 * p, q, 2 * r + i % 2);
  }

  lemma {:induction false} ClimbDescends(leaves: seq<Hash>, h: nat, j: nat, current: Hash, siblings: seq<Hash>, i: nat)
    requires ClimbUp(current, siblings, i) == PlainRoot(leaves, h + |siblings|, j)
    ensures current == PlainRoot(leaves, h, Descend(j, i, |siblings|))
    decreases |siblings|
  {
    if siblings != [] {
      var parent := if i % 2 == 0 then Branch(current, siblings[0]) else Branch(siblings[0], current);
      ClimbDescends(leaves, h + 1, j, parent, siblings[1..], i / 2);
    }
  }

  /** Soundness, for arbitrary siblings and any index: an accepted proof carries the leaf at the index modulo the
      capacity, even though commitments may collide with inner nodes. */
  lemma ProofSound(leaves: seq<Hash>, p: MerkleProof, depth: nat)
    requires Accepts(p, PlainRoot(leaves, depth, 0), depth)
    ensures p.commitment == PaddedLeaf(leaves, p.index % Pow2(depth))
  {
    ClimbDescends(leaves, 0, 0, p.commitment, p.siblings, p.index);
    DescendIsMod(p.index, depth);
  }

  lemma {:induction false} Pow2Sum(a: nat, b: nat)
    ensures Pow2(a + b) == Pow2(a) * Pow2(b)
  {
    if b > 0 {
      Pow2Sum(a, b - 1);
      assert Pow2(a + b) == 2 * Pow2(a + (b - 1));
    }
  }

  /** The tree of the shielded pool: an accepted proof carries the leaf at its index modulo 2^32. */
  lemma PoolProofSound(leaves: seq<Hash>, p: MerkleProof)
    requires Accepts(p, PlainRoot(leaves, COMMITMENT_TREE_DEPTH, 0), COMMITMENT_TREE_DEPTH)
    ensures p.commitment == PaddedLeaf(leaves, p.index % 0x1_0000_0000)
  {
    hide PlainRoot, ClimbUp;
    assert Pow2(4) == 16;
    Pow2Sum(4, 4);
    Pow2Sum(8, 8);
    Pow2Sum(16, 16);
    ProofSound(leaves, p, COMMITMENT_TREE_DEPTH);
  }

  /** Completeness: every leaf below the capacity has an accepted proof. */
  lemma ProofComplete(leaves: seq<Hash>, i: nat, depth: nat)
    requires i < Pow2(depth)
    ensures Accepts(MerkleProof(PaddedLeaf(leaves, i), i, PlainSiblings(leaves, 0, i, depth)), PlainRoot(leaves, depth, 0), depth)
  {
    SiblingsClimb(leaves, 0, i, depth);
    AncestorIsRoot(i, depth);
  }

  /** The root binds the leaves: lists of one length with one root are equal. */
  lemma RootBinds(a: seq<Hash>, b: seq<Hash>, depth: nat)
    requires |a| == |b| <= Pow2(depth) && PlainRoot(a, depth, 0) == PlainRoot(b, depth, 0)
    ensures a == b
  {
    forall i | 0 <= i < |a| ensures a[i] == b[i] {
      ProofComplete(a, i, depth);
      ProofSound(b, MerkleProof(PaddedLeaf(a, i), i, PlainSiblings(a, 0, i, depth)), depth);
      assert i % Pow2(depth) == i by { DivModUnique(i, Pow2(depth), 0, i); }
    }
  }

  // ------------------------------------------------------------------
  // The incremental tree
  // ------------------------------------------------------------------

  class Tree {
    const depth: nat
    var leafCount: nat
    var nodes: map<(nat, nat), Hash>
    var emptyHashes: seq<Hash>
    ghost var leaves: seq<Hash>

    /** A stored node, or the empty subtree hash of its level. */
    ghost function NodeAt(d: nat, i: nat): Hash
      reads `nodes
      requires d <= depth
    {
      if (d, i) in nodes then nodes[(d, i)] else EmptyRoot(depth - d)
    }

    /** The empty-hash table is complete, or dropped by serialization. */
    ghost predicate Table() reads `emptyHashes {
      emptyHashes == [] || (|emptyHashes| == depth + 1 && forall d :: 0 <= d <= depth ==> emptyHashes[d] == EmptyRoot(depth - d))
    }

    /** Every stored node is the plain root of its leaf range and every missing one is an empty subtree. */
    ghost predicate Valid() reads this {
      && Table()
      && leafCount == |leaves| <= Pow2(depth)
      && forall d, i :: 0 <= d <= depth && 0 <= i ==> NodeAt(d, i) == PlainRoot(leaves, depth - d, i)
    }

    constructor (depth: nat)
      ensures Valid() && leaves == [] && this.depth == depth
    {
      this.depth := depth;
      leafCount, nodes, emptyHashes, leaves := 0, map[], [], [];
      new;
      EnsureEmptyHashes();
      forall d, i | 0 <= d <= depth && 0 <= i ensures NodeAt(d, i) == PlainRoot(leaves, depth - d, i) {
        EmptyTree(depth - d, i);
      }
    }

    /** Fills the table from the leaf level up when it is missing. */
    method EnsureEmptyHashes()
      requires Table()
      modifies `emptyHashes
      ensures Table() && emptyHashes != []
    {
      if emptyHashes == [] {
        var hashes := [EmptyLeaf];
        for h := 0 to depth
          invariant |hashes| == h + 1 && forall k :: 0 <= k <= h ==> hashes[k] == EmptyRoot(h - k)
        {
          hashes := [Branch(hashes[0], hashes[0])] + hashes;
        }
        emptyHashes := hashes;
      }
    }

    method NodeHash(d: nat, i: nat) returns (r: Hash)
      requires Table() && emptyHashes != [] && d <= depth
      ensures r == NodeAt(d, i)
    {
      if (d, i) in nodes {
        return nodes[(d, i)];
      }
      return if d < |emptyHashes| then emptyHashes[d] else Zero;
    }

    method Root() returns (r: Hash)
      requires Valid()
      modifies `emptyHashes
      ensures Valid() && r == PlainRoot(leaves, depth, 0)
    {
      EnsureEmptyHashes();
      r := NodeHash(0, 0);
    }

    /** Level `d` and everything off the new leaf's path already agree with the extended leaves. */
    ghost predicate Updated(after: seq<Hash>, index: nat, level: nat)
      reads `nodes
      requires level <= depth
    {
      forall d, i :: 0 <= d <= depth && 0 <= i && (d >= level || i != Ancestor(index, depth - d)) ==>
        NodeAt(d, i) == PlainRoot(after, depth - d, i)
    }

    /** Inserts at the next free index, or reports a full tree and changes nothing. */
    method Insert(commitment: Hash) returns (r: Result<nat>)
      requires Valid()
      modifies this
      ensures Valid()
      ensures old(leafCount) < Pow2(depth) ==> r == Ok(old(leafCount)) && leaves == old(leaves) + [commitment]
      ensures old(leafCount) >= Pow2(depth) ==> r == TreeFull && leaves == old(leaves) && nodes == old(nodes)
    {
      EnsureEmptyHashes();
      var index := leafCount;
      if index >= Pow2(depth) {
        return TreeFull;
      }
      ghost var after := leaves + [commitment];
      nodes := nodes[(depth, index) := commitment];
      leafCount := leafCount + 1;
      forall d, i | 0 <= d <= depth && 0 <= i && (d >= depth || i != Ancestor(index, depth - d))
        ensures NodeAt(d, i) == PlainRoot(after, depth - d, i)
      {
        if (d, i) != (depth, index) {
          OffPathUnchanged(leaves, commitment, depth - d, i);
          assert old(NodeAt(d, i)) == PlainRoot(leaves, depth - d, i);
        }
      }
      var current, level := index, depth;
      while level > 0
        invariant 0 <= level <= depth && current == Ancestor(index, depth - level)
        invariant Table() && emptyHashes != [] && leafCount == |after| && leaves == old(leaves)
        invariant Updated(after, index, level)
      {
        var parent := current / 2;
        var left := NodeHash(level, parent * 2);
        var right := NodeHash(level, parent * 2 + 1);
        UpdateParent(after, index, level, parent, Branch(left, right));
        level := level - 1;
        current := parent;
      }
      leaves := after;
      return Ok(index);
    }

    /** One step of the path update. */
    method UpdateParent(ghost after: seq<Hash>, ghost index: nat, level: nat, parent: nat, hash: Hash)
      requires 0 < level <= depth && Updated(after, index, level)
      requires parent == Ancestor(index, depth - level) / 2
      requires hash == Branch(NodeAt(level, parent * 2), NodeAt(level, parent * 2 + 1))
      modifies `nodes
      ensures Updated(after, index, level - 1)
    {
      assert hash == PlainRoot(after, depth - (level - 1), parent);
      nodes := nodes[(level - 1, parent) := hash];
      forall d, i | 0 <= d <= depth && 0 <= i && (d >= level - 1 || i != Ancestor(index, depth - d))
        ensures NodeAt(d, i) == PlainRoot(after, depth - d, i)
      {
        if (d, i) != (level - 1, parent) {
          assert old(NodeAt(d, i)) == PlainRoot(after, depth - d, i);
        }
      }
    }

    /** The proof for an inserted leaf, accepted against the root; an error for any other index. */
    method Prove(index: nat) returns (r: Result<MerkleProof>)
      requires Valid()
      modifies `emptyHashes
      ensures Valid()
      ensures index >= leafCount ==> r == NotFound
      ensures index < leafCount ==>
                && r == Ok(MerkleProof(leaves[index], index, PlainSiblings(leaves, 0, index, depth)))
                && Accepts(r.value, PlainRoot(leaves, depth, 0), depth)
    {
      EnsureEmptyHashes();
      if index >= leafCount {
        return NotFound;
      }
      var commitment := NodeHash(depth, index);
      var siblings: seq<Hash> := [];
      var current, level := index, depth;
      while level > 0
        invariant 0 <= level <= depth && current == Ancestor(index, depth - level)
        invariant Valid() && emptyHashes != []
        invariant siblings == PlainSiblings(leaves, 0, index, depth - level)
      {
        var sibling := NodeHash(level, if current % 2 == 0 then current + 1 else current - 1);
        PlainSiblingsSnoc(leaves, 0, index, depth - level);
        siblings := siblings + [sibling];
        current := current / 2;
        level := level - 1;
      }
      ProofComplete(leaves, index, depth);
      return Ok(MerkleProof(commitment, index, siblings));
    }
  }
}

/** Sparse Merkle commitment of the account map, with inclusion and non-inclusion proofs. */
module SparseMerkle {
  import opened Common

  const SPARSE_DEPTH: nat := 64

  /** An account key with the bits of its hashed path that the tree uses, most significant first. */
  datatype Address = Address(id: nat, path: seq<bool>)

  datatype Account = Account(nonce: nat, balance: nat)

  datatype Entry = Entry(address: Address, account: Account)

  /** Ideal hashes: the domain tags keep empty leaves, leaves and nodes apart, and hashing is injective. */
  datatype Hash = EmptyLeaf | Leaf(address: Address, account: Account) | Branch(left: Hash, right: Hash)

  datatype AccountProof = AccountProof(address: Address, account: Option<Account>, siblings: seq<Hash>)

  /** Account maps are listed in key order; every path has the depth of the tree. */
  predicate AccountMap(es: seq<Entry>, depth: nat) {
    && (forall e <- es :: |e.address.path| == depth)
    && (forall i, j :: 0 <= i < j < |es| ==> es[i].address != es[j].address)
  }

  // ------------------------------------------------------------------
  // Building the tree
  // ------------------------------------------------------------------

  /** The precomputed root of an empty subtree of some height. */
  function EmptyRoot(height: nat): Hash {
    if height == 0 then EmptyLeaf else Branch(EmptyRoot(height - 1), EmptyRoot(height - 1))
  }

  /** The entries whose path has `bit` at position `d`, in order. */
  function Side(es: seq<Entry>, d: nat, bit: bool): (r: seq<Entry>)
    requires forall e <- es :: d < |e.address.path|
    ensures forall e :: e in r <==> e in es && e.address.path[d] == bit
  {
    if es == [] then []
    else (if es[0].address.path[d] == bit then [es[0]] else []) + Side(es[1..], d, bit)
  }

  /** The loop that deals the entries out to the two sides of a node. */
  method Split(es: seq<Entry>, d: nat) returns (left: seq<Entry>, right: seq<Entry>)
    requires forall e <- es :: d < |e.address.path|
    ensures left == Side(es, d, false) && right == Side(es, d, true)
  {
    left, right := [], [];
    for i := 0 to |es|
      invariant left == Side(es[..i], d, false) && right == Side(es[..i], d, true)
    {
      assert es[..i + 1] == es[..i] + [es[i]];
      SideSnoc(es[..i], es[i], d, false);
      SideSnoc(es[..i], es[i], d, true);
      if es[i].address.path[d] {
        right := right + [es[i]];
      } else {
        left := left + [es[i]];
      }
    }
    assert es[..|es|] == es;
  }

  lemma {:induction false} SideSnoc(es: seq<Entry>, e: Entry, d: nat, bit: bool)
    requires forall x <- es + [e] :: d < |x.address.path|
    ensures Side(es + [e], d, bit) == Side(es, d, bit) + (if e.address.path[d] == bit then [e] else [])
  {
    if es != [] {
      assert (es + [e])[1..] == es[1..] + [e];
      SideSnoc(es[1..], e, d, bit);
    }
  }

  /** The table of empty-subtree hashes, filled from the leaf level up; position `d` is the root of height `depth - d`. */
  method EmptyHashes(depth: nat) returns (hashes: array<Hash>)
    ensures fresh(hashes) && hashes.Length == depth + 1
    ensures forall d :: 0 <= d <= depth ==> hashes[d] == EmptyRoot(depth - d)
  {
    hashes := new Hash[depth + 1](_ => EmptyLeaf);
    var d := depth;
    while d > 0
      invariant 0 <= d <= depth
      invariant forall k :: d <= k <= depth ==> hashes[k] == EmptyRoot(depth - k)
    {
      d := d - 1;
      hashes[d] := Branch(hashes[d + 1], hashes[d + 1]);
    }
  }

  /** The recursive root, with the shortcut for empty subtrees. */
  function SubtreeRoot(es: seq<Entry>, d: nat, depth: nat): Hash
    requires d <= depth && forall e <- es :: |e.address.path| == depth
    decreases depth - d
  {
    if es == [] then EmptyRoot(depth - d)
    else if d == depth then Leaf(es[0].address, es[0].account)
    else Branch(SubtreeRoot(Side(es, d, false), d + 1, depth), SubtreeRoot(Side(es, d, true), d + 1, depth))
  }

  /** Siblings along a path, from the root down. */
  function CollectProof(es: seq<Entry>, path: seq<bool>, d: nat, depth: nat): (r: seq<Hash>)
    requires d <= depth == |path| && forall e <- es :: |e.address.path| == depth
    ensures |r| == depth - d
    decreases depth - d
  {
    if d == depth then []
    else [SubtreeRoot(Side(es, d, !path[d]), d + 1, depth)] + CollectProof(Side(es, d, path[d]), path, d + 1, depth)
  }

  /** Map lookup. */
  function Lookup(es: seq<Entry>, a: Address): (r: Option<Account>)
    ensures r.Some? ==> Entry(a, r.value) in es
    ensures r.None? ==> forall e <- es :: e.address != a
  {
    if es == [] then None else if es[0].address == a then Some(es[0].account) else Lookup(es[1..], a)
  }

  function StateRoot(es: seq<Entry>, depth: nat): Hash
    requires AccountMap(es, depth)
  {
    SubtreeRoot(es, 0, depth)
  }

  function Prove(es: seq<Entry>, a: Address, depth: nat): AccountProof
    requires AccountMap(es, depth) && |a.path| == depth
  {
    AccountProof(a, Lookup(es, a), CollectProof(es, a.path, 0, depth))
  }

  // ------------------------------------------------------------------
  // Verifying proofs
  // ------------------------------------------------------------------

  function ClaimedLeaf(p: AccountProof): Hash {
    if p.account.Some? then Leaf(p.address, p.account.value) else EmptyLeaf
  }

  /** The root that a leaf and its siblings hash up to. */
  function Climb(leaf: Hash, siblings: seq<Hash>, path: seq<bool>): Hash
    requires |siblings| == |path|
  {
    if siblings == [] then leaf
    else
      var below := Climb(leaf, siblings[1..], path[1..]);
      if path[0] then Branch(siblings[0], below) else Branch(below, siblings[0])
  }

  predicate Accepts(p: AccountProof, root: Hash, depth: nat)
    requires |p.address.path| == depth
  {
    |p.siblings| == depth && Climb(ClaimedLeaf(p), p.siblings, p.address.path) == root
  }

  /** The verification loop climbs from the leaf, over the siblings in reverse. */
  method Verify(p: AccountProof, root: Hash, depth: nat) returns (ok: bool)
    requires |p.address.path| == depth
    ensures ok <==> Accepts(p, root, depth)
  {
    if |p.siblings| != depth {
      return false;
    }
    var current := ClaimedLeaf(p);
    var path := p.address.path;
    for k := 0 to depth
      invariant current == Climb(ClaimedLeaf(p), p.siblings[depth - k..], path[depth - k..])
    {
      var sibling := p.siblings[depth - 1 - k];
      assert p.siblings[depth - 1 - k..][1..] == p.siblings[depth - k..];
      assert path[depth - 1 - k..][1..] == path[depth - k..];
      current := if path[depth - 1 - k] then Branch(sibling, current) else Branch(current, sibling);
    }
    assert p.siblings[0..] == p.siblings && path[0..] == path;
    return current == root;
  }

  // ------------------------------------------------------------------
  // The reference: what leaf stands at a path
  // ------------------------------------------------------------------

  /** The leaf of the full tree at a path: the first account, in key order, with that path. */
  function LeafAt(es: seq<Entry>, path: seq<bool>): Hash {
    if es == [] then EmptyLeaf
    else if es[0].address.path == path then Leaf(es[0].address, es[0].account)
    else LeafAt(es[1..], path)
  }

  /** Walking a path down a hash tree. */
  function Walk(root: Hash, path: seq<bool>): Option<Hash> {
    if path == [] then Some(root)
    else if root.Branch? then Walk(if path[0] then root.right else root.left, path[1..])
    else None
  }

  lemma {:induction false} LeafAtMeaning(es: seq<Entry>, path: seq<bool>)
    ensures LeafAt(es, path).EmptyLeaf? <==> forall e <- es :: e.address.path != path
    ensures LeafAt(es, path) != EmptyLeaf ==>
              LeafAt(es, path).Leaf? && LeafAt(es, path).address.path == path
              && Entry(LeafAt(es, path).address, LeafAt(es, path).account) in es
  {
    if es != [] {
      LeafAtMeaning(es[1..], path);
      assert es == [es[0]] + es[1..];
    }
  }

  lemma {:induction false} SideKeepsLeaf(es: seq<Entry>, d: nat, path: seq<bool>)
    requires d < |path| && forall e <- es :: d < |e.address.path|
    ensures LeafAt(Side(es, d, path[d]), path) == LeafAt(es, path)
  {
    if es != [] {
      SideKeepsLeaf(es[1..], d, path);
      if es[0].address.path[d] == path[d] {
        assert ([es[0]] + Side(es[1..], d, path[d]))[1..] == Side(es[1..], d, path[d]);
      } else {
        assert [] + Side(es[1..], d, path[d]) == Side(es[1..], d, path[d]);
      }
    }
  }

  lemma {:induction false} EmptyWalk(path: seq<bool>)
    ensures Walk(EmptyRoot(|path|), path) == Some(EmptyLeaf)
  {
    if path != [] {
      EmptyWalk(path[1..]);
    }
  }

  /** Entries that agree with a path so far. */
  predicate AgreeUpTo(es: seq<Entry>, path: seq<bool>, d: nat)
    requires d <= |path|
  {
    forall e <- es :: |e.address.path| == |path| && e.address.path[..d] == path[..d]
  }

  lemma AgreeDeeper(es: seq<Entry>, path: seq<bool>, d: nat)
    requires d < |path| && AgreeUpTo(es, path, d)
    ensures AgreeUpTo(Side(es, d, path[d]), path, d + 1)
  {
    forall e <- Side(es, d, path[d]) ensures e.address.path[..d + 1] == path[..d + 1] {
      assert e.address.path[..d + 1] == e.address.path[..d] + [e.address.path[d]];
      assert path[..d + 1] == path[..d] + [path[d]];
    }
  }

  /** The computed root commits, at every path, to exactly the reference leaf: the empty-subtree shortcut and the
      splitting agree with the full tree. */
  lemma {:induction false} RootCommits(es: seq<Entry>, path: seq<bool>, d: nat)
    requires d <= |path| && AgreeUpTo(es, path, d)
    ensures Walk(SubtreeRoot(es, d, |path|), path[d..]) == Some(LeafAt(es, path))
    decreases |path| - d
  {
    if es == [] {
      EmptyWalk(path[d..]);
    } else if d == |path| {
      assert es[0].address.path[..d] == es[0].address.path && path[..d] == path;
    } else {
      AgreeDeeper(es, path, d);
      RootCommits(Side(es, d, path[d]), path, d + 1);
      SideKeepsLeaf(es, d, path);
      assert path[d..][1..] == path[d + 1..] && path[d..][0] == path[d];
    }
  }

  lemma {:induction false} ClimbWalks(leaf: Hash, siblings: seq<Hash>, path: seq<bool>)
    requires |siblings| == |path|
    ensures Walk(Climb(leaf, siblings, path), path) == Some(leaf)
  {
    if siblings != [] {
      ClimbWalks(leaf, siblings[1..], path[1..]);
    }
  }

  /** The collected siblings lead from the reference leaf to the root. */
  lemma {:induction false} ProofClimbs(es: seq<Entry>, path: seq<bool>, d: nat)
    requires d <= |path| && AgreeUpTo(es, path, d)
    ensures Climb(LeafAt(es, path), CollectProof(es, path, d, |path|), path[d..]) == SubtreeRoot(es, d, |path|)
    decreases |path| - d
  {
    if d == |path| {
      if es != [] {
        assert es[0].address.path[..d] == es[0].address.path && path[..d] == path;
      }
    } else {
      AgreeDeeper(es, path, d);
      ProofClimbs(Side(es, d, path[d]), path, d + 1);
      SideKeepsLeaf(es, d, path);
      assert path[d..][1..] == path[d + 1..] && path[d..][0] == path[d];
      if es == [] {
        assert Side(es, d, true) == [] && Side(es, d, false) == [];
      }
    }
  }

  // ------------------------------------------------------------------
  // Main results
  // ------------------------------------------------------------------

  lemma {:induction false} LookupUnique(es: seq<Entry>, a: Address, depth: nat)
    requires AccountMap(es, depth)
    ensures forall e <- es :: e.address == a ==> Lookup(es, a) == Some(e.account)
  {
    if es != [] {
      LookupUnique(es[1..], a, depth);
      assert es == [es[0]] + es[1..];
    }
  }

  /** Soundness, for arbitrary siblings: an accepted proof states exactly what the map holds for its address. */
  lemma ProofSound(es: seq<Entry>, p: AccountProof, depth: nat)
    requires AccountMap(es, depth) && |p.address.path| == depth
    requires Accepts(p, StateRoot(es, depth), depth)
    ensures p.account == Lookup(es, p.address)
  {
    var path := p.address.path;
    ClimbWalks(ClaimedLeaf(p), p.siblings, path);
    assert path[0..] == path;
    RootCommits(es, path, 0);
    LeafAtMeaning(es, path);
    LookupUnique(es, p.address, depth);
  }

  /** Scanning in key order, no other account with the path of `a` is met before `a` itself. */
  predicate Unshadowed(es: seq<Entry>, a: Address) {
    es == [] || es[0].address == a || (es[0].address.path != a.path && Unshadowed(es[1..], a))
  }

  lemma {:induction false} FirstAtPath(es: seq<Entry>, a: Address)
    ensures LeafAt(es, a.path) == (if Lookup(es, a).Some? then Leaf(a, Lookup(es, a).value) else EmptyLeaf) <==> Unshadowed(es, a)
  {
    if es != [] {
      FirstAtPath(es[1..], a);
    }
  }

  lemma {:induction false} NoCollisionNoShadow(es: seq<Entry>, a: Address)
    requires forall e <- es :: e.address.path == a.path ==> e.address == a
    ensures Unshadowed(es, a)
  {
    if es != [] {
      assert es[0] in es && forall e <- es[1..] :: e in es;
      NoCollisionNoShadow(es[1..], a);
    }
  }

  /** Completeness, exactly: the proof built for an address, present or absent, verifies against the root if and only
      if no other account shares all the used path bits and precedes it. */
  lemma ProofComplete(es: seq<Entry>, a: Address, depth: nat)
    requires AccountMap(es, depth) && |a.path| == depth
    ensures Accepts(Prove(es, a, depth), StateRoot(es, depth), depth) <==> Unshadowed(es, a)
  {
    assert a.path[0..] == a.path;
    ProofClimbs(es, a.path, 0);
    ClimbWalks(ClaimedLeaf(Prove(es, a, depth)), Prove(es, a, depth).siblings, a.path);
    RootCommits(es, a.path, 0);
    FirstAtPath(es, a);
  }

  /** In particular for every address of a map without collisions on the used bits. */
  lemma ProofCompleteWithoutCollisions(es: seq<Entry>, a: Address)
    requires AccountMap(es, SPARSE_DEPTH) && |a.path| == SPARSE_DEPTH
    requires forall e <- es :: e.address.path == a.path ==> e.address == a
    ensures Accepts(Prove(es, a, SPARSE_DEPTH), StateRoot(es, SPARSE_DEPTH), SPARSE_DEPTH)
  {
    NoCollisionNoShadow(es, a);
    ProofComplete(es, a, SPARSE_DEPTH);
  }

  /** The root binds the map: equal roots give equal contents at every address free of collisions in both maps. */
  lemma RootBinds(es: seq<Entry>, fs: seq<Entry>, a: Address, depth: nat)
    requires AccountMap(es, depth) && AccountMap(fs, depth) && |a.path| == depth
    requires StateRoot(es, depth) == StateRoot(fs, depth) && Unshadowed(es, a)
    ensures Lookup(fs, a) == Lookup(es, a)
    ensures Unshadowed(fs, a)
  {
    ProofComplete(es, a, depth);
    ProofSound(fs, Prove(es, a, depth), depth);
    assert a.path[0..] == a.path;
    RootCommits(es, a.path, 0);
    RootCommits(fs, a.path, 0);
    FirstAtPath(es, a);
    FirstAtPath(fs, a);
  }
}

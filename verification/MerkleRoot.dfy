/** The Merkle root of a list, an odd last leaf being its own sibling. */
module MerkleRoot {

  /** Ideal hashes: leaves are arbitrary, nodes hash exactly two children, and the empty list has its own root. */
  datatype Hash = EmptyList | Leaf(id: int) | Pair(left: Hash, right: Hash)

  /** The layer above: neighbours paired, an odd last one with itself. */
  function Above(layer: seq<Hash>): (r: seq<Hash>)
    ensures |r| == (|layer| + 1) / 2
  {
    if layer == [] then []
    else if |layer| == 1 then [Pair(layer[0], layer[0])]
    else [Pair(layer[0], layer[1])] + Above(layer[2..])
  }

  function Root(leaves: seq<Hash>): Hash
    decreases |leaves|
  {
    if leaves == [] then EmptyList else if |leaves| == 1 then leaves[0] else Root(Above(leaves))
  }

  lemma {:induction false} AboveSplit(layer: seq<Hash>, k: nat)
    requires 2 * k <= |layer|
    ensures Above(layer) == Above(layer[..2 * k]) + Above(layer[2 * k..])
  {
    if k == 0 {
      assert layer[0..] == layer;
    } else {
      AboveSplit(layer[2..], k - 1);
      assert layer[2..][..2 * (k - 1)] == layer[..2 * k][2..];
      assert layer[2..][2 * (k - 1)..] == layer[2 * k..];
    }
  }

  /** The layer loop. */
  method MerkleRoot(leaves: seq<Hash>) returns (root: Hash)
    ensures root == Root(leaves)
  {
    if leaves == [] {
      return EmptyList;
    }
    var layer := leaves;
    while |layer| > 1
      invariant layer != [] && Root(layer) == Root(leaves)
      decreases |layer|
    {
      var next: seq<Hash> := [];
      for k := 0 to (|layer| + 1) / 2
        invariant next == Above(layer)[..k]
      {
        var left := layer[2 * k];
        var right := if 2 * k + 1 < |layer| then layer[2 * k + 1] else left;
        AboveAt(layer, k);
        assert Above(layer)[..k + 1] == Above(layer)[..k] + [Pair(left, right)];
        next := next + [Pair(left, right)];
      }
      assert next == Above(layer);
      layer := next;
    }
    return layer[0];
  }

  // ------------------------------------------------------------------
  // The tree, node by node
  // ------------------------------------------------------------------

  /** How many nodes stand at height `h` over `n` leaves. */
  function Width(n: nat, h: nat): nat {
    if h == 0 then n else (Width(n, h - 1) + 1) / 2
  }

  /** The node at height `h` and index `i`: a missing right child is replaced by the left one. */
  function NodeAt(leaves: seq<Hash>, h: nat, i: nat): Hash
    requires i < Width(|leaves|, h)
  {
    if h == 0 then leaves[i]
    else
      var left := NodeAt(leaves, h - 1, 2 * i);
      Pair(left, if 2 * i + 1 < Width(|leaves|, h - 1) then NodeAt(leaves, h - 1, 2 * i + 1) else left)
  }

  lemma {:induction false} AboveAt(layer: seq<Hash>, i: nat)
    requires i < (|layer| + 1) / 2
    ensures Above(layer)[i] == Pair(layer[2 * i], if 2 * i + 1 < |layer| then layer[2 * i + 1] else layer[2 * i])
  {
    if i > 0 {
      AboveAt(layer[2..], i - 1);
    }
  }

  lemma {:induction false} WidthAbove(n: nat, h: nat)
    ensures Width((n + 1) / 2, h) == Width(n, h + 1)
  {
    if h > 0 {
      WidthAbove(n, h - 1);
    }
  }

  lemma {:induction false} NodeAbove(leaves: seq<Hash>, h: nat, i: nat)
    requires i < Width(|leaves|, h + 1)
    ensures i < Width(|Above(leaves)|, h) && NodeAt(Above(leaves), h, i) == NodeAt(leaves, h + 1, i)
  {
    WidthAbove(|leaves|, h);
    if h == 0 {
      AboveAt(leaves, i);
    } else {
      WidthAbove(|leaves|, h - 1);
      NodeAbove(leaves, h - 1, 2 * i);
      if 2 * i + 1 < Width(|leaves|, h) {
        NodeAbove(leaves, h - 1, 2 * i + 1);
      }
    }
  }

  function Height(n: nat): nat
    requires n > 0
  {
    if n == 1 then 0 else 1 + Height((n + 1) / 2)
  }

  lemma {:induction false} HeightWidth(n: nat)
    requires n > 0
    ensures Width(n, Height(n)) == 1
  {
    if n > 1 {
      HeightWidth((n + 1) / 2);
      WidthAbove(n, Height((n + 1) / 2));
    }
  }

  /** The layered root is the top node of the recursively defined tree. */
  lemma {:induction false} RootIsTopNode(leaves: seq<Hash>)
    requires leaves != []
    ensures Width(|leaves|, Height(|leaves|)) == 1 && Root(leaves) == NodeAt(leaves, Height(|leaves|), 0)
    decreases |leaves|
  {
    HeightWidth(|leaves|);
    if |leaves| > 1 {
      RootIsTopNode(Above(leaves));
      NodeAbove(leaves, Height(|Above(leaves)|), 0);
    }
  }

  // ------------------------------------------------------------------
  // Binding
  // ------------------------------------------------------------------

  lemma {:induction false} AboveInjective(a: seq<Hash>, b: seq<Hash>)
    requires |a| == |b| && Above(a) == Above(b)
    ensures a == b
  {
    if |a| == 1 {
      assert Above(a)[0] == Above(b)[0];
    } else if |a| > 1 {
      assert Above(a)[0] == Above(b)[0] && Above(a)[1..] == Above(b)[1..];
      AboveInjective(a[2..], b[2..]);
      assert a == [a[0], a[1]] + a[2..] && b == [b[0], b[1]] + b[2..];
    }
  }

  /** Two lists of one length with one root are equal. */
  lemma {:induction false} RootBinds(a: seq<Hash>, b: seq<Hash>)
    requires |a| == |b| && Root(a) == Root(b)
    ensures a == b
    decreases |a|
  {
    if |a| == 1 {
      assert a == [a[0]] && b == [b[0]];
    } else if |a| > 1 {
      RootBinds(Above(a), Above(b));
      AboveInjective(a, b);
    }
  }

  /** The length matters: repeating the odd last leaf never changes the root. */
  lemma RepeatedTailCollides(leaves: seq<Hash>)
    requires |leaves| % 2 == 1 && |leaves| > 1
    ensures Root(leaves + [leaves[|leaves| - 1]]) == Root(leaves)
  {
    var longer := leaves + [leaves[|leaves| - 1]];
    var k := |leaves| / 2;
    AboveSplit(leaves, k);
    AboveSplit(longer, k);
    assert longer[..2 * k] == leaves[..2 * k];
    assert leaves[2 * k..] == [leaves[|leaves| - 1]];
    assert longer[2 * k..] == [leaves[|leaves| - 1], leaves[|leaves| - 1]];
    assert Above(longer[2 * k..]) == [Pair(leaves[|leaves| - 1], leaves[|leaves| - 1])] + [];
    assert Above(longer) == Above(leaves);
  }
}

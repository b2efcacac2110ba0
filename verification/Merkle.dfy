/** The duplicate-last Merkle tree over a worker's checkpoints: root, path and path check. */
module Merkle {
  import opened Arith
  import opened Hashing

  const LEAF_TAG: Bytes := [0x00]
  const NODE_TAG: Bytes := [0x01]

  function LeafPre(c: Bytes): Bytes { LEAF_TAG + c }

  function NodePre(left: Bytes, right: Bytes): Bytes { NODE_TAG + left + right }

  /** A leaf is hashed behind a byte 0, two digests behind a byte 1, the left one first. */
  lemma {:induction false} TagsAndOrder(c: Bytes, left: Digest, right: Digest)
    ensures |LeafPre(c)| == 1 + |c| && LeafPre(c)[0] == 0 && LeafPre(c)[1..] == c
    ensures var pre := NodePre(left, right);
      |pre| == 65 && pre[0] == 1 && pre[1..33] == left && pre[33..65] == right
  {
  }

  // ------------------------------------------------------------ the tree as a definition

  /** Nodes on level k of a tree of n leaves. */
  function Width(n: nat, k: nat): (w: nat)
    ensures n > 0 ==> w > 0
  {
    if k == 0 then n else (Width(n, k - 1) + 1) / 2
  }

  /** Levels above the leaves. */
  function Height(n: nat): nat
    requires n > 0
  {
    if n == 1 then 0 else 1 + Height((n + 1) / 2)
  }

  /** Position of leaf i's ancestor on level k: halve k times. */
  function Shift(i: nat, k: nat): nat {
    if k == 0 then i else Shift(i, k - 1) / 2
  }

  /** Node i of level k, from the top down; a left child without a sibling is paired with itself. */
  function Node(H: Hash, leaves: seq<Digest>, k: nat, i: nat): Digest
    requires i < Width(|leaves|, k)
    decreases k
  {
    if k == 0 then leaves[i]
    else H(NodePre(Node(H, leaves, k - 1, 2 * i), RightChild(H, leaves, k, i)))
  }

  function RightChild(H: Hash, leaves: seq<Digest>, k: nat, i: nat): Digest
    requires k > 0 && i < Width(|leaves|, k)
    decreases k, 0
  {
    if 2 * i + 1 < Width(|leaves|, k - 1) then Node(H, leaves, k - 1, 2 * i + 1)
    else Node(H, leaves, k - 1, 2 * i)
  }

  /** `merkleLeaves`: one tagged hash per checkpoint. */
  function Leaves(H: Hash, cps: seq<Bytes>): (leaves: seq<Digest>)
    ensures |leaves| == |cps|
    ensures forall i :: 0 <= i < |cps| ==> leaves[i] == H(LeafPre(cps[i]))
  {
    seq<Digest>(|cps|, i requires 0 <= i < |cps| => H(LeafPre(cps[i])))
  }

  function Root(H: Hash, leaves: seq<Digest>): Digest
    requires |leaves| > 0
  {
    WidthAtHeight(|leaves|);
    Node(H, leaves, Height(|leaves|), 0)
  }

  /** The neighbour a node of a level of width w is hashed with: itself when it is the odd last one. */
  function Sibling(w: nat, i: nat): (s: nat)
    requires i < w
    ensures s < w
  {
    if i % 2 == 1 then i - 1 else if i + 1 < w then i + 1 else i
  }

  /** The siblings met from node i of level k up to the root. */
  function PathFrom(H: Hash, leaves: seq<Digest>, k: nat, i: nat): (path: seq<Digest>)
    requires |leaves| > 0 && k <= Height(|leaves|) && i < Width(|leaves|, k)
    ensures |path| == Height(|leaves|) - k
    decreases Height(|leaves|) - k
  {
    if k == Height(|leaves|) then []
    else [Node(H, leaves, k, Sibling(Width(|leaves|, k), i))] + PathFrom(H, leaves, k + 1, i / 2)
  }

  function Path(H: Hash, leaves: seq<Digest>, i: nat): (path: seq<Digest>)
    requires i < |leaves|
    ensures |path| == Height(|leaves|)
  {
    PathFrom(H, leaves, 0, i)
  }

  /** The node a path check arrives at: a tagged leaf, then one tagged hash per sibling. */
  function Climb(H: Hash, c: Bytes, i: nat, path: seq<Bytes>): Digest {
    H(ClimbPre(H, c, i, path))
  }

  /** What the last hash of the climb is taken of. */
  function ClimbPre(H: Hash, c: Bytes, i: nat, path: seq<Bytes>): Bytes
    decreases |path|, 0
  {
    if path == [] then LeafPre(c)
    else
      var m := |path| - 1;
      var below := H(ClimbPre(H, c, i, path[..m]));
      if Shift(i, m) % 2 == 0 then NodePre(below, path[m]) else NodePre(path[m], below)
  }

  predicate PathOk(H: Hash, c: Bytes, i: nat, path: seq<Bytes>, root: Bytes) {
    Climb(H, c, i, path) == root && Shift(i, |path|) == 0
  }

  // ------------------------------------------------------------ shape of the tree

  lemma {:induction false} WidthFromAbove(n: nat, k: nat)
    requires n > 0
    ensures Width(n, k + 1) == Width((n + 1) / 2, k)
  {
    if k > 0 {
      WidthFromAbove(n, k - 1);
    }
  }

  /** One node on the top level, more than one on every level below it. */
  lemma {:induction false} WidthAtHeight(n: nat)
    requires n > 0
    ensures Width(n, Height(n)) == 1
    ensures forall k :: 0 <= k < Height(n) ==> Width(n, k) > 1
  {
    if n > 1 {
      WidthAtHeight((n + 1) / 2);
      forall k | 0 <= k < Height(n) ensures Width(n, k) > 1 {
        if k > 0 { WidthFromAbove(n, k - 1); }
      }
      WidthFromAbove(n, Height(n) - 1);
    }
  }

  lemma {:induction false} Regroup(s: int, t: int, p: int)
    ensures (2 * s + t - 1) * p == s * (2 * p) + t * p - p
  {
  }

  lemma {:induction false} HalvingCeil(a: nat, p: nat)
    requires p > 0
    ensures ((a + p - 1) / p + 1) / 2 == (a + 2 * p - 1) / (2 * p)
  {
    var q := (a + p - 1) / p;
    var r := (a + p - 1) % p;
    assert a + p - 1 == q * p + r;
    var s := (q + 1) / 2;
    var t := (q + 1) % 2;
    var rest := r + t * p;
    Regroup(s, t, p);
    assert 0 <= rest < 2 * p by { assert t == 0 || t == 1; }
    QuotientUnique(a + 2 * p - 1, 2 * p, s, rest);
  }

  lemma {:induction false} HalvingFloor(a: nat, p: nat)
    requires p > 0
    ensures a / p / 2 == a / (2 * p)
  {
    var q := a / p;
    var r := a % p;
    var s := q / 2;
    var t := q % 2;
    assert a == q * p + r && q == 2 * s + t;
    assert q * p == (2 * s + t) * p == s * (2 * p) + t * p;
    assert 0 <= r + t * p < 2 * p by { assert t == 0 || t == 1; }
    QuotientUnique(a, 2 * p, s, r + t * p);
  }

  lemma {:induction false} ShiftInside(n: nat, i: nat, k: nat)
    requires i < n
    ensures Shift(i, k) < Width(n, k)
  {
    if k > 0 {
      ShiftInside(n, i, k - 1);
    }
  }

  lemma {:induction false} WidthIsCeil(n: nat, k: nat)
    ensures Width(n, k) == (n + Power(2, k) - 1) / Power(2, k)
  {
    if k > 0 {
      WidthIsCeil(n, k - 1);
      HalvingCeil(n, Power(2, k - 1));
    }
  }

  lemma {:induction false} ShiftIsFloor(i: nat, k: nat)
    ensures Shift(i, k) == i / Power(2, k)
  {
    if k > 0 {
      ShiftIsFloor(i, k - 1);
      HalvingFloor(i, Power(2, k - 1));
    }
  }

  /** Level k has ceil(n / 2^k) nodes, and leaf i sits under node i >> k, which is one of them. */
  lemma {:induction false} LevelShape(n: nat, i: nat, k: nat)
    requires i < n
    ensures i / Power(2, k) == Shift(i, k) < Width(n, k) == (n + Power(2, k) - 1) / Power(2, k)
  {
    ShiftInside(n, i, k);
    WidthIsCeil(n, k);
    ShiftIsFloor(i, k);
  }

  /** The height is ceil(log2 n). */
  lemma {:induction false} HeightIsCeilLog2(n: nat)
    requires n > 0
    ensures n <= Power(2, Height(n))
    ensures n > 1 ==> Power(2, Height(n) - 1) < n
  {
    if n > 1 {
      HeightIsCeilLog2((n + 1) / 2);
    }
  }

  // ------------------------------------------------------------ the loops

  /** One pass of the inner loop of `merkleRoot` and `merklePath`. */
  method NextLevel(H: Hash, level: seq<Digest>) returns (next: seq<Digest>)
    ensures |next| == (|level| + 1) / 2
    ensures forall i :: 0 <= i < |next| ==>
      next[i] == H(NodePre(level[2 * i], if 2 * i + 1 < |level| then level[2 * i + 1] else level[2 * i]))
  {
    next := [];
    var i := 0;
    while i < |level|
      invariant i == 2 * |next| && i <= |level| + 1
      invariant forall j :: 0 <= j < |next| ==>
        next[j] == H(NodePre(level[2 * j], if 2 * j + 1 < |level| then level[2 * j + 1] else level[2 * j]))
    {
      var left := level[i];
      var right := if i + 1 < |level| then level[i + 1] else left;
      next := next + [H(NodePre(left, right))];
      i := i + 2;
    }
  }

  /** `merkleRoot` computes the recursive tree's root, level by level. */
  method MerkleRoot(H: Hash, leaves: seq<Digest>) returns (root: Digest)
    requires |leaves| > 0
    ensures root == Root(H, leaves)
  {
    var level := leaves;
    ghost var k := 0;
    WidthAtHeight(|leaves|);
    while |level| > 1
      invariant k <= Height(|leaves|) && |level| == Width(|leaves|, k)
      invariant forall i :: 0 <= i < |level| ==> level[i] == Node(H, leaves, k, i)
      decreases |level|
    {
      level := NextLevel(H, level);
      k := k + 1;
    }
    root := level[0];
  }

  /** `merklePath` collects exactly the siblings of the recursive tree. */
  method MerklePath(H: Hash, leaves: seq<Digest>, index: nat) returns (path: seq<Digest>)
    requires index < |leaves|
    ensures path == Path(H, leaves, index)
  {
    path := [];
    var level := leaves;
    var idx: nat := index;
    ghost var k := 0;
    WidthAtHeight(|leaves|);
    while |level| > 1
      invariant k <= Height(|leaves|) && |level| == Width(|leaves|, k) && idx < |level|
      invariant forall i :: 0 <= i < |level| ==> level[i] == Node(H, leaves, k, i)
      invariant path + PathFrom(H, leaves, k, idx) == Path(H, leaves, index)
      decreases |level|
    {
      var sibling := if idx % 2 == 0 then (if idx + 1 < |level| then level[idx + 1] else level[idx])
        else level[idx - 1];
      path := path + [sibling];
      level := NextLevel(H, level);
      idx := idx / 2;
      k := k + 1;
    }
  }

  /** `verifyPath`. */
  method VerifyPath(H: Hash, c: Bytes, index: nat, path: seq<Bytes>, root: Bytes) returns (ok: bool)
    ensures ok <==> PathOk(H, c, index, path, root)
  {
    var node := H(LeafPre(c));
    var idx := index;
    for k := 0 to |path|
      invariant node == Climb(H, c, index, path[..k]) && idx == Shift(index, k)
    {
      var sibling := path[k];
      assert path[..k + 1][..k] == path[..k];
      node := if idx % 2 == 0 then H(NodePre(node, sibling)) else H(NodePre(sibling, node));
      idx := idx / 2;
    }
    assert path[..|path|] == path;
    ok := node == root && idx == 0;
  }

  // ------------------------------------------------------------ completeness of paths

  lemma {:induction false} PathAt(H: Hash, leaves: seq<Digest>, k: nat, i: nat, d: nat)
    requires |leaves| > 0 && k + d < Height(|leaves|) && i < Width(|leaves|, k)
    ensures Shift(i, d) < Width(|leaves|, k + d)
    ensures PathFrom(H, leaves, k, i)[d] ==
      Node(H, leaves, k + d, Sibling(Width(|leaves|, k + d), Shift(i, d)))
    decreases d
  {
    if d > 0 {
      PathAt(H, leaves, k + 1, i / 2, d - 1);
      ShiftFromBelow(i, d - 1);
    }
  }

  lemma {:induction false} ShiftFromBelow(i: nat, k: nat)
    ensures Shift(i, k + 1) == Shift(i / 2, k)
  {
    if k > 0 {
      ShiftFromBelow(i, k - 1);
    }
  }

  /** Hashing a node with its sibling, on the side its position says, gives the node above. */
  lemma {:induction false} ParentOf(H: Hash, leaves: seq<Digest>, k: nat, i: nat)
    requires i < Width(|leaves|, k) && Width(|leaves|, k) > 1
    ensures i / 2 < Width(|leaves|, k + 1)
    ensures var node, sibling := Node(H, leaves, k, i), Node(H, leaves, k, Sibling(Width(|leaves|, k), i));
      Node(H, leaves, k + 1, i / 2) ==
      if i % 2 == 0 then H(NodePre(node, sibling)) else H(NodePre(sibling, node))
  {
  }

  lemma {:induction false} ClimbFollowsTree(H: Hash, cps: seq<Bytes>, i: nat, path: seq<Bytes>)
    requires i < |cps| && path <= Path(H, Leaves(H, cps), i)
    ensures Shift(i, |path|) < Width(|cps|, |path|)
    ensures Climb(H, cps[i], i, path) == Node(H, Leaves(H, cps), |path|, Shift(i, |path|))
    decreases |path|
  {
    if path != [] {
      var m := |path| - 1;
      ClimbFollowsTree(H, cps, i, path[..m]);
      PathAt(H, Leaves(H, cps), 0, i, m);
      WidthAtHeight(|cps|);
      ParentOf(H, Leaves(H, cps), m, Shift(i, m));
    }
  }

  /** For every width and every index, the generated path verifies. */
  lemma {:induction false} PathVerifies(H: Hash, cps: seq<Bytes>, i: nat)
    requires i < |cps|
    ensures PathOk(H, cps[i], i, Path(H, Leaves(H, cps), i), Root(H, Leaves(H, cps)))
  {
    ClimbFollowsTree(H, cps, i, Path(H, Leaves(H, cps), i));
    WidthAtHeight(|cps|);
  }

  function Pair(H: Hash, left: Digest, right: Digest): Digest { H([1] + left + right) }

  /** The trees of one, two and three leaves, and the way from the leaf that is paired with itself. */
  lemma {:induction false} SmallTrees(H: Hash, a: Digest, b: Digest, c: Digest)
    ensures Root(H, [a]) == a && Root(H, [a, b]) == Pair(H, a, b)
    ensures Root(H, [a, b, c]) == Pair(H, Pair(H, a, b), Pair(H, c, c))
    ensures Path(H, [a, b, c], 2) == [c, Pair(H, a, b)]
    ensures Path(H, [a, b, c], 0) == [b, Pair(H, c, c)]
  {
    assert Width(3, 2) == 1 && Width(3, 1) == 2 && Width(2, 1) == 1;
    assert Node(H, [a, b], 1, 0) == Pair(H, a, b);
    var three := [a, b, c];
    assert Node(H, three, 1, 0) == Pair(H, a, b) && Node(H, three, 1, 1) == Pair(H, c, c);
    assert Height(3) == 2;
    assert PathFrom(H, three, 2, 0) == [];
    assert PathFrom(H, three, 1, 1) == [Pair(H, a, b)];
    assert PathFrom(H, three, 1, 0) == [Pair(H, c, c)];
  }
}

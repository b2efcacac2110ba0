/**
 Position binding. A path that verifies either opens the committed checkpoint at the claimed
 position, or the two hash trees hand over a concrete pair of colliding inputs.
 */
module MerkleBinding {
  import opened Hashing
  import opened Merkle

  /** What node i of level k of the committed tree is the hash of. */
  function TreePre(H: Hash, cps: seq<Bytes>, k: nat, i: nat): (pre: Bytes)
    requires i < Width(|cps|, k)
    ensures H(pre) == Node(H, Leaves(H, cps), k, i)
  {
    var leaves := Leaves(H, cps);
    if k == 0 then LeafPre(cps[i])
    else NodePre(Node(H, leaves, k - 1, 2 * i), RightChild(H, leaves, k, i))
  }

  /** Which child of node i of level k a climb whose index bit is `bit` came from. */
  function Descend(n: nat, k: nat, i: nat, bit: nat): (child: nat)
    requires k > 0 && i < Width(n, k) && bit < 2
    ensures child < Width(n, k - 1)
  {
    if bit == 1 && 2 * i + 1 < Width(n, k - 1) then 2 * i + 1 else 2 * i
  }

  /**
   Walks the climb and the committed tree down together from a common digest, and stops at
   the first level where the two inputs of that digest differ.
   */
  function Extract(H: Hash, cps: seq<Bytes>, k: nat, node: nat, c: Bytes, i: nat, path: seq<Bytes>)
    : Option<(Bytes, Bytes)>
    requires node < Width(|cps|, k)
    decreases |path|
  {
    var claimed := ClimbPre(H, c, i, path);
    var committed := TreePre(H, cps, k, node);
    if claimed != committed then Some((claimed, committed))
    else if path == [] then None
    else
      assert claimed[0] == NODE_TAG[0] && k > 0;
      var m := |path| - 1;
      Extract(H, cps, k - 1, Descend(|cps|, k, node, Shift(i, m) % 2), c, i, path[..m])
  }

  lemma {:induction false} SplitNode(a: Bytes, b: Bytes, c: Bytes, d: Bytes)
    requires NodePre(a, b) == NodePre(c, d) && (|a| == |c| || |b| == |d|)
    ensures a == c && b == d
  {
    assert NodePre(a, b)[1..] == a + b && NodePre(c, d)[1..] == c + d;
    assert |a + b| == |c + d|;
    assert a == (a + b)[..|a|] && c == (c + d)[..|c|];
    assert b == (a + b)[|a|..] && d == (c + d)[|c|..];
  }

  /** One level of the walk: equal inputs mean equal digests one level below, and the true sibling. */
  lemma {:induction false} DescendKeepsDigest(H: Hash, cps: seq<Bytes>, k: nat, node: nat, c: Bytes, i: nat,
                                              path: seq<Bytes>)
    requires node < Width(|cps|, k) && k > 0 && path != []
    requires ClimbPre(H, c, i, path) == TreePre(H, cps, k, node)
    ensures var m := |path| - 1;
      var child := Descend(|cps|, k, node, Shift(i, m) % 2);
      && Climb(H, c, i, path[..m]) == Node(H, Leaves(H, cps), k - 1, child)
      && (Shift(i, m) / 2 == node && Shift(i, m) < Width(|cps|, k - 1) ==>
            && child == Shift(i, m)
            && path[m] == Node(H, Leaves(H, cps), k - 1, Sibling(Width(|cps|, k - 1), child)))
  {
    var m := |path| - 1;
    var leaves := Leaves(H, cps);
    var below := Climb(H, c, i, path[..m]);
    var left, right := Node(H, leaves, k - 1, 2 * node), RightChild(H, leaves, k, node);
    if Shift(i, m) % 2 == 0 {
      SplitNode(below, path[m], left, right);
    } else {
      SplitNode(path[m], below, left, right);
    }
  }

  /** What a walk without a collision has checked: as many levels, the committed leaf, the true siblings. */
  ghost predicate Bound(H: Hash, cps: seq<Bytes>, k: nat, c: Bytes, i: nat, path: seq<Bytes>)
    requires i < |cps|
  {
    && k <= Height(|cps|)
    && c == cps[i]
    && path == Path(H, Leaves(H, cps), i)[..k]
  }

  lemma {:induction false} BoundGrows(H: Hash, cps: seq<Bytes>, k: nat, c: Bytes, i: nat, path: seq<Bytes>)
    requires i < |cps| && 0 < k <= Height(|cps|) && |path| == k
    requires Bound(H, cps, k - 1, c, i, path[..k - 1])
    requires Shift(i, k - 1) < Width(|cps|, k - 1)
    requires path[k - 1] == Node(H, Leaves(H, cps), k - 1, Sibling(Width(|cps|, k - 1), Shift(i, k - 1)))
    ensures Bound(H, cps, k, c, i, path)
  {
    var whole := Path(H, Leaves(H, cps), i);
    PathAt(H, Leaves(H, cps), 0, i, k - 1);
    assert path == path[..k - 1] + [path[k - 1]];
    assert whole[..k] == whole[..k - 1] + [whole[k - 1]];
  }

  lemma {:induction false} ExtractWorks(H: Hash, cps: seq<Bytes>, k: nat, node: nat, c: Bytes, i: nat, path: seq<Bytes>)
    requires i < |cps| && k <= Height(|cps|) && node < Width(|cps|, k)
    requires Climb(H, c, i, path) == Node(H, Leaves(H, cps), k, node)
    ensures var e := Extract(H, cps, k, node, c, i, path);
      && (e.Some? ==> Collides(H, e.value))
      && (e.None? ==> |path| == k && (node == Shift(i, k) ==> Bound(H, cps, k, c, i, path)))
    decreases |path|
  {
    var claimed := ClimbPre(H, c, i, path);
    var committed := TreePre(H, cps, k, node);
    if claimed == committed {
      if path == [] {
        assert claimed[0] == LEAF_TAG[0] && k == 0;
        assert claimed[1..] == c && committed[1..] == cps[node];
      } else {
        assert claimed[0] == NODE_TAG[0] && k > 0;
        var m := |path| - 1;
        DescendKeepsDigest(H, cps, k, node, c, i, path);
        var child := Descend(|cps|, k, node, Shift(i, m) % 2);
        ExtractWorks(H, cps, k - 1, child, c, i, path[..m]);
        if m == k - 1 && node == Shift(i, k) && Extract(H, cps, k, node, c, i, path).None? {
          ShiftInside(|cps|, i, m);
          BoundGrows(H, cps, k, c, i, path);
        }
      }
    }
  }

  /** The collision finder for one opened leaf of a committed tree. */
  function ExtractOpening(H: Hash, cps: seq<Bytes>, c: Bytes, i: nat, path: seq<Bytes>): Option<(Bytes, Bytes)>
    requires |cps| > 0
  {
    WidthAtHeight(|cps|);
    Extract(H, cps, Height(|cps|), 0, c, i, path)
  }

  /**
   Position binding, for every width and index and for a path of any length with siblings of
   any size: a verifying path gives a collision, or it is the one honest path to the one
   committed checkpoint.
   */
  lemma {:induction false} PositionBinding(H: Hash, cps: seq<Bytes>, c: Bytes, i: nat, path: seq<Bytes>)
    requires i < |cps|
    requires PathOk(H, c, i, path, Root(H, Leaves(H, cps)))
    ensures var e := ExtractOpening(H, cps, c, i, path);
      if e.Some? then Collides(H, e.value)
      else c == cps[i] && path == Path(H, Leaves(H, cps), i) && |path| == Height(|cps|)
  {
    var k := Height(|cps|);
    WidthAtHeight(|cps|);
    ExtractWorks(H, cps, k, 0, c, i, path);
    ShiftInside(|cps|, i, k);
    if ExtractOpening(H, cps, c, i, path).None? {
      var whole := Path(H, Leaves(H, cps), i);
      assert whole[..k] == whole;
    }
  }

  /** The root alone fixes the checkpoints: two committed lists of one length with one root are equal. */
  lemma {:induction false} RootBinds(H: Hash, cps: seq<Bytes>, other: seq<Bytes>)
    requires |cps| == |other| > 0
    requires Root(H, Leaves(H, cps)) == Root(H, Leaves(H, other))
    requires forall i :: 0 <= i < |cps| ==>
      ExtractOpening(H, cps, other[i], i, Path(H, Leaves(H, other), i)).None?
    ensures cps == other
  {
    forall i | 0 <= i < |cps| ensures cps[i] == other[i] {
      PathVerifies(H, other, i);
      PositionBinding(H, cps, other[i], i, Path(H, Leaves(H, other), i));
    }
  }
}

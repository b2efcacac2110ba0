/**
 Two paths against each other. Nothing here assumes that the root belongs to a tree: two paths that
 verify at one index under one root and have one length open the same leaf, or hand over a collision.
 So do two paths of which one ends on the way of the other.
 */
module PathBinding {
  import opened Hashing
  import opened Merkle
  import opened MerkleBinding

  /** A leaf opened by a path. */
  datatype Leaf = Leaf(index: nat, value: Bytes, path: seq<Bytes>)

  predicate LeafOk(H: Hash, root: Bytes, l: Leaf) { PathOk(H, l.value, l.index, l.path, root) }

  /** What the last hash of its climb is taken of. */
  function LastPre(H: Hash, l: Leaf): Bytes { ClimbPre(H, l.value, l.index, l.path) }

  /** The climb without its last step, and the side that step comes from. */
  function Cut(l: Leaf): Leaf
    requires l.path != []
  {
    l.(path := l.path[..|l.path| - 1])
  }

  function Side(l: Leaf): nat
    requires l.path != []
  {
    Shift(l.index, |l.path| - 1) % 2
  }

  /**
   Walks two climbs down together from their common end, and stops at the first level where the hashed
   inputs differ, where a climb has reached its leaf, or where the two come from different sides.
   */
  function Compare(H: Hash, a: Leaf, b: Leaf): Option<(Bytes, Bytes)>
    decreases |a.path|
  {
    if LastPre(H, a) != LastPre(H, b) then Some((LastPre(H, a), LastPre(H, b)))
    else if a.path == [] || b.path == [] || Side(a) != Side(b) then None
    else Compare(H, Cut(a), Cut(b))
  }

  /** The last inputs agree: so do the digests one level down and the siblings, where the side is the same. */
  lemma {:induction false} SameBelow(H: Hash, a: Leaf, b: Leaf)
    requires a.path != [] && b.path != [] && LastPre(H, a) == LastPre(H, b) && Side(a) == Side(b)
    ensures H(LastPre(H, Cut(a))) == H(LastPre(H, Cut(b)))
    ensures a.path[|a.path| - 1] == b.path[|b.path| - 1]
  {
    var s, t := a.path[|a.path| - 1], b.path[|b.path| - 1];
    var below, beside := H(LastPre(H, Cut(a))), H(LastPre(H, Cut(b)));
    if Side(a) == 0 {
      SplitNode(below, s, beside, t);
    } else {
      SplitNode(s, below, t, beside);
    }
  }

  lemma {:induction false} Rejoin(a: Leaf, b: Leaf)
    requires a.path != [] && b.path != [] && a.path[|a.path| - 1] == b.path[|b.path| - 1]
    ensures Cut(a) == Cut(b) ==> a == b
  {
    assert a.path == Cut(a).path + [a.path[|a.path| - 1]];
    assert b.path == Cut(b).path + [b.path[|b.path| - 1]];
  }

  /** The tag tells a leaf from a node, and a leaf's input names it. */
  lemma {:induction false} TagOf(H: Hash, l: Leaf)
    ensures LastPre(H, l) != []
    ensures LastPre(H, l)[0] == if l.path == [] then LEAF_TAG[0] else NODE_TAG[0]
    ensures l.path == [] ==> LastPre(H, l)[1..] == l.value
  {
  }

  /** The comparison finds a collision or, where index and length are the same, one leaf and one path. */
  lemma {:induction false} CompareWorks(H: Hash, a: Leaf, b: Leaf)
    requires H(LastPre(H, a)) == H(LastPre(H, b))
    ensures var e := Compare(H, a, b);
      && (e.Some? ==> Collides(H, e.value))
      && (e.None? && a.index == b.index && |a.path| == |b.path| ==> a == b)
    decreases |a.path|
  {
    if LastPre(H, a) == LastPre(H, b) {
      if a.path == [] || b.path == [] {
        TagOf(H, a);
        TagOf(H, b);
      } else if Side(a) == Side(b) {
        SameBelow(H, a, b);
        CompareWorks(H, Cut(a), Cut(b));
        Rejoin(a, b);
      }
    }
  }

  lemma {:induction false} ShiftAdd(i: nat, j: nat, k: nat)
    ensures Shift(Shift(i, j), k) == Shift(i, j + k)
  {
    if k > 0 {
      ShiftAdd(i, j, k - 1);
    }
  }

  lemma {:induction false} ShiftZero(k: nat)
    ensures Shift(0, k) == 0
  {
    if k > 0 {
      ShiftZero(k - 1);
    }
  }

  /** A leaf that would lie on the way to another one cannot go unnoticed. */
  lemma {:induction false} NestedClash(H: Hash, a: Leaf, b: Leaf)
    requires |a.path| < |b.path| && a.index == Shift(b.index, |b.path| - |a.path|)
    ensures Compare(H, a, b).Some? && Compare(H, b, a).Some?
    decreases |a.path|
  {
    if a.path == [] {
      TagOf(H, a);
      TagOf(H, b);
    } else {
      ShiftAdd(b.index, |b.path| - |a.path|, |a.path| - 1);
      NestedClash(H, Cut(a), Cut(b));
    }
  }

  /** Index 0 has one place at every depth, and they lie on one way. */
  lemma {:induction false} ZeroClash(H: Hash, a: Leaf, b: Leaf)
    requires a.index == b.index == 0 && |a.path| != |b.path|
    ensures Compare(H, a, b).Some?
  {
    if |a.path| < |b.path| {
      ShiftZero(|b.path| - |a.path|);
      NestedClash(H, a, b);
    } else {
      ShiftZero(|a.path| - |b.path|);
      NestedClash(H, b, a);
    }
  }

  /** Binding without a tree: one index, one root, one length (any lengths at index 0). */
  lemma {:induction false} SameLengthBinding(H: Hash, root: Bytes, a: Leaf, b: Leaf)
    requires LeafOk(H, root, a) && LeafOk(H, root, b)
    requires a.index == b.index && (|a.path| == |b.path| || a.index == 0)
    ensures var e := Compare(H, a, b);
      if e.Some? then Collides(H, e.value) else a == b
  {
    CompareWorks(H, a, b);
    if |a.path| != |b.path| {
      ZeroClash(H, a, b);
    }
  }

  // ------------------------------------------------------------ how long a path must be

  /** Bits of an index: a path reaches index i exactly if it has at least that many siblings. */
  function BitsOf(i: nat): nat {
    if i == 0 then 0 else 1 + BitsOf(i / 2)
  }

  lemma {:induction false} ShiftReaches(i: nat, k: nat)
    ensures Shift(i, k) == 0 <==> k >= BitsOf(i)
    decreases i
  {
    if i == 0 {
      ShiftZero(k);
    } else if k > 0 {
      ShiftFromBelow(i, k - 1);
      ShiftReaches(i / 2, k - 1);
    }
  }

  /** The height of the tree of n leaves is what the last index needs. */
  lemma {:induction false} HeightIsBits(n: nat)
    requires n > 0
    ensures Height(n) == BitsOf(n - 1)
    decreases n
  {
    if n > 1 {
      HeightIsBits((n + 1) / 2);
      assert (n + 1) / 2 - 1 == (n - 1) / 2;
    }
  }

  lemma {:induction false} BitsGrow(i: nat, j: nat)
    requires i <= j
    ensures BitsOf(i) <= BitsOf(j)
    decreases j
  {
    if i > 0 {
      BitsGrow(i / 2, j / 2);
    }
  }

  /** So a path of the tree's height reaches every index of the tree. */
  lemma {:induction false} HighReaches(n: nat, i: nat, k: nat)
    requires i < n && k >= Height(n)
    ensures Shift(i, k) == 0
  {
    HeightIsBits(n);
    BitsGrow(i, n - 1);
    ShiftReaches(i, k);
  }
}

/**
 Trees of any shape. A path check follows the bits of an index from a root, so every binary tree is a root
 under which each of its tips is opened by the index and the length that spell the way to it. No two
 tips of a tree hand over a collision. What the path check leaves open is shown by giving such a tree.
 */
module Plans {
  import opened Hashing
  import opened Merkle
  import opened PathBinding

  datatype Plan = Tip(value: Bytes) | Branch(left: Plan, right: Plan)

  function RootPre(H: Hash, t: Plan): Bytes {
    match t
    case Tip(c) => LeafPre(c)
    case Branch(l, r) => NodePre(H(RootPre(H, l)), H(RootPre(H, r)))
  }

  function RootOf(H: Hash, t: Plan): Digest { H(RootPre(H, t)) }

  /** Where index i goes from a node n levels above its leaf. */
  function Turn(t: Plan, i: nat, n: nat): Plan
    requires t.Branch? && n > 0
  {
    if Shift(i, n - 1) % 2 == 0 then t.left else t.right
  }

  function Aside(t: Plan, i: nat, n: nat): Plan
    requires t.Branch? && n > 0
  {
    if Shift(i, n - 1) % 2 == 0 then t.right else t.left
  }

  /** What lies at index i, n levels down. */
  function At(t: Plan, i: nat, n: nat): Option<Plan>
    decreases n
  {
    if n == 0 then Some(t) else if t.Tip? then None else At(Turn(t, i, n), i, n - 1)
  }

  /** The siblings from there up to the root. */
  function Way(H: Hash, t: Plan, i: nat, n: nat): seq<Bytes>
    decreases n
  {
    if n == 0 || t.Tip? then [] else Way(H, Turn(t, i, n), i, n - 1) + [RootOf(H, Aside(t, i, n))]
  }

  /** Index i and length n lead to a tip with value c. */
  predicate Shows(t: Plan, i: nat, n: nat, c: Bytes) {
    At(t, i, n) == Some(Tip(c)) && Shift(i, n) == 0
  }

  function Shown(H: Hash, t: Plan, i: nat, n: nat, c: Bytes): Leaf {
    Leaf(i, c, Way(H, t, i, n))
  }

  lemma {:induction false} WayClimbs(H: Hash, t: Plan, i: nat, n: nat, c: Bytes)
    requires At(t, i, n) == Some(Tip(c))
    ensures |Way(H, t, i, n)| == n
    ensures LastPre(H, Shown(H, t, i, n, c)) == RootPre(H, t)
    decreases n
  {
    if n > 0 {
      var next := Turn(t, i, n);
      WayClimbs(H, next, i, n - 1, c);
      assert Way(H, t, i, n)[..n - 1] == Way(H, next, i, n - 1);
    }
  }

  /** What a tree shows verifies under its root. */
  lemma {:induction false} ShownVerifies(H: Hash, t: Plan, i: nat, n: nat, c: Bytes)
    requires Shows(t, i, n, c)
    ensures |Way(H, t, i, n)| == n
    ensures LeafOk(H, RootOf(H, t), Shown(H, t, i, n, c))
  {
    WayClimbs(H, t, i, n, c);
  }

  /** The climb without its last step is the climb in the tree one level down. */
  lemma {:induction false} CutShown(H: Hash, t: Plan, i: nat, n: nat, c: Bytes)
    requires n > 0 && At(t, i, n) == Some(Tip(c))
    ensures t.Branch? && |Way(H, t, i, n)| == n
    ensures At(Turn(t, i, n), i, n - 1) == Some(Tip(c))
    ensures Cut(Shown(H, t, i, n, c)) == Shown(H, Turn(t, i, n), i, n - 1, c)
  {
    WayClimbs(H, t, i, n, c);
    WayClimbs(H, Turn(t, i, n), i, n - 1, c);
    assert Way(H, t, i, n)[..n - 1] == Way(H, Turn(t, i, n), i, n - 1);
  }

  lemma {:induction false} QuietStep(H: Hash, a: Leaf, b: Leaf)
    requires LastPre(H, a) == LastPre(H, b)
    requires a.path != [] && b.path != [] && Side(a) == Side(b) ==> Compare(H, Cut(a), Cut(b)).None?
    ensures Compare(H, a, b).None?
  {
  }

  /** Two tips of one tree hand over nothing. */
  lemma {:induction false} ShownQuiet(H: Hash, t: Plan, i: nat, m: nat, c: Bytes, j: nat, n: nat, d: Bytes)
    requires At(t, i, m) == Some(Tip(c)) && At(t, j, n) == Some(Tip(d))
    ensures Compare(H, Shown(H, t, i, m, c), Shown(H, t, j, n, d)).None?
    decreases m
  {
    var a, b := Shown(H, t, i, m, c), Shown(H, t, j, n, d);
    WayClimbs(H, t, i, m, c);
    WayClimbs(H, t, j, n, d);
    if a.path != [] && b.path != [] && Side(a) == Side(b) {
      CutShown(H, t, i, m, c);
      CutShown(H, t, j, n, d);
      var next := Turn(t, i, m);
      assert Turn(t, j, n) == next;
      assert Cut(a) == Shown(H, next, i, m - 1, c);
      assert Cut(b) == Shown(H, next, j, n - 1, d);
      ShownQuiet(H, next, i, m - 1, c, j, n - 1, d);
    }
    QuietStep(H, a, b);
  }

  // ------------------------------------------------------------ a tree with tips at chosen places

  /** The value of the tip at node x of level k, if there is to be one; level 0 is the lowest. */
  type Tips = (nat, nat) -> Option<Bytes>

  /** The tree below node x of level k. */
  function Grow(f: Tips, k: nat, x: nat): Plan
    decreases k
  {
    if f(k, x).Some? then Tip(f(k, x).value)
    else if k == 0 then Tip([])
    else Branch(Grow(f, k - 1, 2 * x), Grow(f, k - 1, 2 * x + 1))
  }

  /** No tip above node i of level s, up to n levels. */
  predicate Open(f: Tips, i: nat, s: nat, n: nat) {
    forall d :: 0 < d <= n ==> f(s + d, Shift(i, d)).None?
  }

  lemma {:induction false} GrowAt(f: Tips, x: nat, i: nat, s: nat, n: nat)
    requires Shift(i, n) == x && Open(f, i, s, n)
    ensures At(Grow(f, s + n, x), i, n) == Some(Grow(f, s, i))
    decreases n
  {
    if n > 0 {
      assert f(s + n, Shift(i, n)).None?;
      GrowAt(f, Shift(i, n - 1), i, s, n - 1);
    }
  }

  /** A tip with none above it is shown by the whole tree of height M. */
  lemma {:induction false} GrowShows(f: Tips, M: nat, i: nat, s: nat, c: Bytes)
    requires s <= M && f(s, i) == Some(c) && Shift(i, M - s) == 0 && Open(f, i, s, M - s)
    ensures Shows(Grow(f, M, 0), i, M - s, c)
  {
    GrowAt(f, 0, i, s, M - s);
  }

  // ------------------------------------------------------------ one index at two depths

  /** Index i leads to c at length m and to d at the shorter length n. */
  function Double(i: nat, c: Bytes, d: Bytes, gap: nat): Tips {
    (s: nat, x: nat) => if s == gap && x == i then Some(d) else if s == 0 then Some(c) else None
  }

  lemma {:induction false} ShiftShrinks(i: nat, k: nat)
    requires i > 0 && k > 0
    ensures Shift(i, k) < i
  {
    if k > 1 {
      ShiftShrinks(i, k - 1);
    }
  }

  /** For every hash, every index but 0 and every two lengths that reach it, some root opens it to any two leaves. */
  lemma {:induction false} OpensTwoWays(H: Hash, i: nat, c: Bytes, m: nat, d: Bytes, n: nat)
    returns (root: Digest, a: Leaf, b: Leaf)
    requires i > 0 && BitsOf(i) <= n < m
    ensures a.index == i == b.index && a.value == c && b.value == d && |a.path| == m && |b.path| == n
    ensures LeafOk(H, root, a) && LeafOk(H, root, b)
    ensures Compare(H, a, b).None? && Compare(H, b, a).None?
  {
    var f := Double(i, c, d, m - n);
    var t := Grow(f, m, 0);
    ShiftReaches(i, m);
    ShiftReaches(i, n);
    forall k | 0 < k <= m ensures f(k, Shift(i, k)).None? {
      ShiftShrinks(i, k);
    }
    GrowShows(f, m, i, 0, c);
    GrowShows(f, m, i, m - n, d);
    root, a, b := RootOf(H, t), Shown(H, t, i, m, c), Shown(H, t, i, n, d);
    ShownVerifies(H, t, i, m, c);
    ShownVerifies(H, t, i, n, d);
    ShownQuiet(H, t, i, m, c, i, n, d);
    ShownQuiet(H, t, i, n, d, i, m, c);
  }

  /** Any two paths of these lengths that verify at index i under one root open one leaf, or show a collision. */
  ghost predicate LengthsBind(H: Hash, i: nat, m: nat, n: nat) {
    forall root: Bytes, a: Leaf, b: Leaf ::
      (a.index == i == b.index && |a.path| == m && |b.path| == n && LeafOk(H, root, a) && LeafOk(H, root, b)
       && Compare(H, a, b).None?) ==> a.value == b.value
  }

  /**
   Exactly when the path check binds: the two lengths are equal, the index is 0, or one of the lengths is
   too short for the index to be used up.
   */
  lemma {:induction false} LengthsBindIff(H: Hash, i: nat, m: nat, n: nat)
    ensures LengthsBind(H, i, m, n) <==> m == n || i == 0 || m < BitsOf(i) || n < BitsOf(i)
  {
    if m == n || i == 0 {
      forall root: Bytes, a: Leaf, b: Leaf |
        a.index == i == b.index && |a.path| == m && |b.path| == n && LeafOk(H, root, a) && LeafOk(H, root, b)
        && Compare(H, a, b).None?
        ensures a.value == b.value
      {
        SameLengthBinding(H, root, a, b);
      }
    } else if m < BitsOf(i) || n < BitsOf(i) {
      ShiftReaches(i, m);
      ShiftReaches(i, n);
    } else {
      var c: Bytes, d: Bytes := [0], [1];
      assert c[0] != d[0];
      if n < m {
        var root, a, b := OpensTwoWays(H, i, c, m, d, n);
        assert !LengthsBind(H, i, m, n) by { assert a.value != b.value; }
      } else {
        var root, a, b := OpensTwoWays(H, i, d, n, c, m);
        assert !LengthsBind(H, i, m, n) by { assert a.value != b.value; }
      }
    }
  }
}

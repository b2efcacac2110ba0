/** JSON values over a string type K, the order of their keys, and equality up to member order. */
module JsonValue {
  import opened Arith
  import opened Order

  /** One UTF-16 code unit. */
  type Unit = u: int | 0 <= u < 0x1_0000

  type Units = seq<Unit>

  /** Members are kept in the order the object lists them. */
  datatype Json<K> =
    | Null
    | Bool(b: bool)
    | Num(n: int)
    | Str(s: K)
    | Arr(items: seq<Json<K>>)
    | Obj(members: seq<Member<K>>)

  datatype Member<K> = Member(key: K, value: Json<K>)

  const LIMIT := 0x20_0000_0000_0000

  /** Every number is an integer both canonicalizers print in the same digits: at most 2^53 in size. */
  predicate InRange<K>(v: Json<K>) {
    match v
    case Num(n) => -LIMIT <= n <= LIMIT
    case Arr(items) => forall i :: 0 <= i < |items| ==> InRange(items[i])
    case Obj(members) => forall i :: 0 <= i < |members| ==> InRange(members[i].value)
    case _ => true
  }

  /** The number occurs in the value, at whatever depth. */
  predicate Occurs<K>(v: Json<K>, n: int) {
    match v
    case Num(m) => m == n
    case Arr(items) => exists i :: 0 <= i < |items| && Occurs(items[i], n)
    case Obj(members) => exists i :: 0 <= i < |members| && Occurs(members[i].value, n)
    case _ => false
  }

  /** A value is in range exactly if every number that occurs in it is at most 2^53 in size. */
  lemma {:induction false} InRangeIff<K>(v: Json<K>)
    ensures InRange(v) <==> forall n :: Occurs(v, n) ==> -9_007_199_254_740_992 <= n <= 9_007_199_254_740_992
    decreases v
  {
    match v
    case Num(n) => assert Occurs(v, n);
    case Arr(items) =>
      forall i | 0 <= i < |items|
        ensures InRange(items[i]) <==> forall n :: Occurs(items[i], n) ==> -LIMIT <= n <= LIMIT {
        InRangeIff(items[i]);
      }
      if n, i :| 0 <= i < |items| && Occurs(items[i], n) && !(-LIMIT <= n <= LIMIT) {
        assert Occurs(v, n);
      }
    case Obj(members) =>
      forall i | 0 <= i < |members|
        ensures InRange(members[i].value) <==> forall n :: Occurs(members[i].value, n) ==> -LIMIT <= n <= LIMIT {
        InRangeIff(members[i].value);
      }
      if n, i :| 0 <= i < |members| && Occurs(members[i].value, n) && !(-LIMIT <= n <= LIMIT) {
        assert Occurs(v, n);
      }
    case _ =>
  }

  // ------------------------------------------------------------ sorting members

  /** Members in the order of their keys' code units. */
  predicate KeyBefore(m: Member<Units>, n: Member<Units>) { Less(m.key, n.key) }

  ghost predicate DistinctKeys<K>(members: seq<Member<K>>) {
    forall i, j :: 0 <= i < j < |members| ==> members[i].key != members[j].key
  }

  lemma {:induction false} KeyOrder()
    ensures Transitive(KeyBefore) && Asymmetric(KeyBefore)
  {
    forall x: Member<Units>, y: Member<Units>, z: Member<Units> | KeyBefore(x, y) && KeyBefore(y, z)
      ensures KeyBefore(x, z)
    {
      LessTransitive(x.key, y.key, z.key);
    }
    forall x: Member<Units>, y: Member<Units> | KeyBefore(x, y) ensures !KeyBefore(y, x) {
      LessTotal(x.key, y.key);
    }
  }

  lemma {:induction false} KeysAscend(members: seq<Member<Units>>)
    requires DistinctKeys(members)
    ensures Ascending(KeyBefore, Sort(KeyBefore, members))
  {
    KeyOrder();
    forall i, j | 0 <= i < |members| && 0 <= j < |members| && i != j
      ensures KeyBefore(members[i], members[j]) || KeyBefore(members[j], members[i])
    {
      LessTotal(members[i].key, members[j].key);
      assert members[i].key != members[j].key by {
        if i > j { assert members[j].key != members[i].key; }
      }
    }
    SortAscends(KeyBefore, members);
  }

  // ------------------------------------------------------------ canonical order

  /** The value with every object's members sorted. */
  function Canon(v: Json<Units>): Json<Units>
    decreases v, 1
  {
    match v
    case Arr(items) => Arr(CanonItems(items))
    case Obj(members) => Obj(Sort(KeyBefore, CanonMembers(members)))
    case _ => v
  }

  function CanonItems(items: seq<Json<Units>>): (r: seq<Json<Units>>)
    ensures |r| == |items| && forall i :: 0 <= i < |items| ==> r[i] == Canon(items[i])
    decreases items, 0
  {
    seq(|items|, i requires 0 <= i < |items| => Canon(items[i]))
  }

  function CanonMember(m: Member<Units>): Member<Units>
    decreases m, 2
  {
    Member(m.key, Canon(m.value))
  }

  function CanonMembers(members: seq<Member<Units>>): (r: seq<Member<Units>>)
    ensures |r| == |members| && forall i :: 0 <= i < |members| ==> r[i] == CanonMember(members[i])
    decreases members, 0
  {
    seq(|members|, i requires 0 <= i < |members| => CanonMember(members[i]))
  }

  /** No object names a key twice: what both JSON libraries guarantee of the values they hold. */
  ghost predicate UniqueKeys<K>(v: Json<K>) {
    match v
    case Arr(items) => forall i :: 0 <= i < |items| ==> UniqueKeys(items[i])
    case Obj(members) => DistinctKeys(members) && forall i :: 0 <= i < |members| ==> UniqueKeys(members[i].value)
    case _ => true
  }

  /** Equal but for the order of object members. */
  ghost predicate Alike<K>(v: Json<K>, w: Json<K>) {
    match (v, w)
    case (Arr(a), Arr(b)) => |a| == |b| && forall i :: 0 <= i < |a| ==> Alike(a[i], b[i])
    case (Obj(a), Obj(b)) => |a| == |b| && forall i :: 0 <= i < |a| ==> Matched(a[i], b)
    case (Arr(_), _) => false
    case (Obj(_), _) => false
    case (_, Arr(_)) => false
    case (_, Obj(_)) => false
    case _ => v == w
  }

  ghost predicate Matched<K>(m: Member<K>, members: seq<Member<K>>) {
    exists j :: 0 <= j < |members| && AlikeMembers(m, members[j])
  }

  ghost predicate AlikeMembers<K>(m: Member<K>, n: Member<K>) {
    m.key == n.key && Alike(m.value, n.value)
  }

  // ------------------------------------------------------------ Canon decides Alike

  /** Distinct-keyed lists of one length, every member of the first in the second, are permutations of each other. */
  lemma {:induction false} SameMembers(a: seq<Member<Units>>, b: seq<Member<Units>>)
    requires |a| == |b| && DistinctKeys(a) && DistinctKeys(b)
    requires forall x :: x in a ==> x in b
    ensures multiset(a) == multiset(b)
    decreases |a|
  {
    if a != [] {
      assert a[0] in b;
      var j :| 0 <= j < |b| && b[j] == a[0];
      var rest := b[..j] + b[j + 1..];
      forall x | x in a[1..] ensures x in rest {
        var i :| 0 <= i < |a[1..]| && a[1..][i] == x;
        assert a[i + 1] == x && a[0] != x;
        InRest(b, j, x);
      }
      SameMembers(a[1..], rest);
      assert a == [a[0]] + a[1..];
      assert b == b[..j] + [b[j]] + b[j + 1..];
    } else {
      assert b == [];
    }
  }

  lemma {:induction false} InRest(b: seq<Member<Units>>, j: nat, x: Member<Units>)
    requires j < |b| && x in b && x != b[j]
    ensures x in b[..j] + b[j + 1..]
  {
    var rest := b[..j] + b[j + 1..];
    var k :| 0 <= k < |b| && b[k] == x;
    assert if k < j then rest[k] == x else rest[k - 1] == x;
  }

  lemma {:induction false} SortUnique(a: seq<Member<Units>>, b: seq<Member<Units>>)
    requires |a| == |b| && DistinctKeys(a) && DistinctKeys(b) && multiset(a) == multiset(b)
    ensures Sort(KeyBefore, a) == Sort(KeyBefore, b)
  {
    KeyOrder();
    KeysAscend(a);
    KeysAscend(b);
    SortPermutes(KeyBefore, a);
    SortPermutes(KeyBefore, b);
    AscendingUnique(KeyBefore, Sort(KeyBefore, a), Sort(KeyBefore, b));
  }

  lemma {:induction false} AlikeCanon(v: Json<Units>, w: Json<Units>)
    requires UniqueKeys(v) && UniqueKeys(w) && Alike(v, w)
    ensures Canon(v) == Canon(w)
    decreases v
  {
    match (v, w)
    case (Arr(a), Arr(b)) =>
      forall i | 0 <= i < |a| ensures Canon(a[i]) == Canon(b[i]) {
        AlikeCanon(a[i], b[i]);
      }
    case (Obj(a), Obj(b)) =>
      var ca, cb := CanonMembers(a), CanonMembers(b);
      forall x | x in ca ensures x in cb {
        var i :| 0 <= i < |ca| && ca[i] == x;
        assert Matched(a[i], b);
        var j :| 0 <= j < |b| && AlikeMembers(a[i], b[j]);
        AlikeCanon(a[i].value, b[j].value);
        assert cb[j] == x;
      }
      SameMembers(ca, cb);
      SortUnique(ca, cb);
    case _ =>
  }

  lemma {:induction false} SortedAlike(a: seq<Member<Units>>, b: seq<Member<Units>>, i: nat) returns (j: nat)
    requires Sort(KeyBefore, a) == Sort(KeyBefore, b) && i < |a|
    ensures j < |b| && b[j] == a[i]
  {
    SortPermutes(KeyBefore, a);
    SortPermutes(KeyBefore, b);
    assert a[i] in multiset(b);
    j :| 0 <= j < |b| && b[j] == a[i];
  }

  lemma {:induction false} CanonAlike(v: Json<Units>, w: Json<Units>)
    requires Canon(v) == Canon(w)
    ensures Alike(v, w)
    decreases v
  {
    match (v, w)
    case (Arr(a), Arr(b)) =>
      forall i | 0 <= i < |a| ensures Alike(a[i], b[i]) {
        assert CanonItems(a)[i] == CanonItems(b)[i];
        CanonAlike(a[i], b[i]);
      }
    case (Obj(a), Obj(b)) =>
      var ca, cb := CanonMembers(a), CanonMembers(b);
      assert Sort(KeyBefore, ca) == Sort(KeyBefore, cb);
      forall i | 0 <= i < |a| ensures Matched(a[i], b) {
        var j := SortedAlike(ca, cb, i);
        CanonAlike(a[i].value, b[j].value);
        assert AlikeMembers(a[i], b[j]);
      }
    case _ =>
  }

  /** Sorting decides equality up to member order. */
  lemma {:induction false} CanonDecidesAlike(v: Json<Units>, w: Json<Units>)
    requires UniqueKeys(v) && UniqueKeys(w)
    ensures Canon(v) == Canon(w) <==> Alike(v, w)
  {
    if Canon(v) == Canon(w) {
      CanonAlike(v, w);
    }
    if Alike(v, w) {
      AlikeCanon(v, w);
    }
  }

  // ------------------------------------------------------------ what the canonical order is

  /** In every object, at every depth, each key comes before all later ones at the first code unit they differ in. */
  ghost predicate KeysInOrder(v: Json<Units>) {
    match v
    case Arr(items) => forall i :: 0 <= i < |items| ==> KeysInOrder(items[i])
    case Obj(members) =>
      && (forall i, j :: 0 <= i < j < |members| ==> ComesFirst(members[i].key, members[j].key))
      && forall i :: 0 <= i < |members| ==> KeysInOrder(members[i].value)
    case _ => true
  }

  lemma {:induction false} SortedKeys(members: seq<Member<Units>>, i: nat, j: nat)
    requires DistinctKeys(members) && i < j < |members|
    ensures ComesFirst(Sort(KeyBefore, members)[i].key, Sort(KeyBefore, members)[j].key)
  {
    var sorted := Sort(KeyBefore, members);
    KeysAscend(members);
    assert KeyBefore(sorted[i], sorted[j]);
    LessIff(sorted[i].key, sorted[j].key);
  }

  lemma {:induction false} CanonInOrder(v: Json<Units>)
    requires UniqueKeys(v)
    ensures KeysInOrder(Canon(v))
    decreases v
  {
    match v
    case Arr(items) =>
      forall i | 0 <= i < |items| ensures KeysInOrder(Canon(items[i])) {
        CanonInOrder(items[i]);
      }
    case Obj(members) =>
      var canon := CanonMembers(members);
      var sorted := Sort(KeyBefore, canon);
      SortPermutes(KeyBefore, canon);
      forall i, j | 0 <= i < j < |sorted| ensures ComesFirst(sorted[i].key, sorted[j].key) {
        SortedKeys(canon, i, j);
      }
      forall i | 0 <= i < |sorted| ensures KeysInOrder(sorted[i].value) {
        assert sorted[i] in multiset(canon);
        var k :| 0 <= k < |canon| && canon[k] == sorted[i];
        CanonInOrder(members[k].value);
      }
    case _ =>
  }

  /** Sorting members changes nothing but their order. */
  lemma {:induction false} CanonKeeps(v: Json<Units>)
    ensures Alike(v, Canon(v))
    decreases v
  {
    match v
    case Arr(items) =>
      forall i | 0 <= i < |items| ensures Alike(items[i], CanonItems(items)[i]) {
        CanonKeeps(items[i]);
      }
    case Obj(members) =>
      var canon := CanonMembers(members);
      var sorted := Sort(KeyBefore, canon);
      SortPermutes(KeyBefore, canon);
      forall i | 0 <= i < |members| ensures Matched(members[i], sorted) {
        CanonKeeps(members[i].value);
        assert canon[i] in multiset(sorted);
        var j :| 0 <= j < |sorted| && sorted[j] == canon[i];
        assert AlikeMembers(members[i], sorted[j]);
      }
    case _ =>
  }
}

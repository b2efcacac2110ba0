/** Sorting by a strict order: what the library sorts of both languages are relied on for. */
module Order {

  /** Puts x in front of the first element that does not come before it. */
  function Insert<T>(before: (T, T) -> bool, x: T, sorted: seq<T>): (r: seq<T>)
    ensures |r| == |sorted| + 1
  {
    if sorted == [] then [x]
    else if before(sorted[0], x) then [sorted[0]] + Insert(before, x, sorted[1..])
    else [x] + sorted
  }

  function Sort<T>(before: (T, T) -> bool, s: seq<T>): (r: seq<T>)
    ensures |r| == |s|
  {
    if s == [] then [] else Insert(before, s[0], Sort(before, s[1..]))
  }

  ghost predicate Ascending<T>(before: (T, T) -> bool, s: seq<T>) {
    forall i, j :: 0 <= i < j < |s| ==> before(s[i], s[j])
  }

  /** Any two elements at different places are ordered, one way or the other. */
  ghost predicate Comparable<T>(before: (T, T) -> bool, s: seq<T>) {
    forall i, j :: 0 <= i < |s| && 0 <= j < |s| && i != j ==> before(s[i], s[j]) || before(s[j], s[i])
  }

  ghost predicate Transitive<T(!new)>(before: (T, T) -> bool) {
    forall x, y, z :: before(x, y) && before(y, z) ==> before(x, z)
  }

  ghost predicate Asymmetric<T(!new)>(before: (T, T) -> bool) {
    forall x, y :: before(x, y) ==> !before(y, x)
  }

  lemma {:induction false} InsertPermutes<T>(before: (T, T) -> bool, x: T, sorted: seq<T>)
    ensures multiset(Insert(before, x, sorted)) == multiset(sorted) + multiset{x}
  {
    if sorted != [] && before(sorted[0], x) {
      InsertPermutes(before, x, sorted[1..]);
      assert sorted == [sorted[0]] + sorted[1..];
    }
  }

  lemma {:induction false} SortPermutes<T>(before: (T, T) -> bool, s: seq<T>)
    ensures multiset(Sort(before, s)) == multiset(s)
  {
    if s != [] {
      SortPermutes(before, s[1..]);
      InsertPermutes(before, s[0], Sort(before, s[1..]));
      assert s == [s[0]] + s[1..];
    }
  }

  lemma {:induction false} SameElements<T>(a: seq<T>, b: seq<T>)
    requires multiset(a) == multiset(b)
    ensures forall x :: x in a <==> x in b
  {
    forall x ensures x in a <==> x in b {
      assert x in multiset(a) <==> x in a;
      assert x in multiset(b) <==> x in b;
    }
  }

  lemma {:induction false} InsertAscends<T(!new)>(before: (T, T) -> bool, x: T, sorted: seq<T>)
    requires Transitive(before) && Ascending(before, sorted)
    requires forall i :: 0 <= i < |sorted| ==> before(sorted[i], x) || before(x, sorted[i])
    ensures Ascending(before, Insert(before, x, sorted))
  {
    var r := Insert(before, x, sorted);
    if sorted != [] {
      if before(sorted[0], x) {
        var rest := Insert(before, x, sorted[1..]);
        InsertAscends(before, x, sorted[1..]);
        InsertPermutes(before, x, sorted[1..]);
        forall j | 0 <= j < |rest| ensures before(sorted[0], rest[j]) {
          assert rest[j] in multiset(rest);
          assert rest[j] == x || rest[j] in multiset(sorted[1..]);
        }
        assert r == [sorted[0]] + rest;
      } else {
        forall j | 0 <= j < |sorted| ensures before(x, sorted[j]) {
        }
        assert r == [x] + sorted;
      }
    }
  }

  lemma {:induction false} SortAscends<T(!new)>(before: (T, T) -> bool, s: seq<T>)
    requires Transitive(before) && Comparable(before, s)
    ensures Ascending(before, Sort(before, s))
  {
    if s != [] {
      var rest := Sort(before, s[1..]);
      assert Comparable(before, s[1..]);
      SortAscends(before, s[1..]);
      SortPermutes(before, s[1..]);
      SameElements(rest, s[1..]);
      forall i | 0 <= i < |rest| ensures before(rest[i], s[0]) || before(s[0], rest[i]) {
        assert rest[i] in s[1..];
        var k :| 0 <= k < |s[1..]| && s[1..][k] == rest[i];
        assert s[k + 1] == rest[i];
      }
      InsertAscends(before, s[0], rest);
    }
  }

  lemma {:induction false} SameFirst<T(!new)>(before: (T, T) -> bool, a: seq<T>, b: seq<T>)
    requires Asymmetric(before) && Ascending(before, a) && Ascending(before, b)
    requires multiset(a) == multiset(b) && a != [] && b != []
    ensures a[0] == b[0]
  {
    SameElements(a, b);
    assert a[0] in b;
    var i :| 0 <= i < |b| && b[i] == a[0];
    assert b[0] in a;
    var j :| 0 <= j < |a| && a[j] == b[0];
  }

  lemma {:induction false} RestPermutes<T>(a: seq<T>, b: seq<T>)
    requires a != [] && b != [] && a[0] == b[0] && multiset(a) == multiset(b)
    ensures multiset(a[1..]) == multiset(b[1..])
  {
    assert a == [a[0]] + a[1..] && b == [b[0]] + b[1..];
    assert multiset(a[1..]) == multiset(a) - multiset{a[0]};
    assert multiset(b[1..]) == multiset(b) - multiset{b[0]};
  }

  /** Ascending arrangements of the same elements are equal, so which sorting algorithm is used does not matter. */
  lemma {:induction false} AscendingUnique<T(!new)>(before: (T, T) -> bool, a: seq<T>, b: seq<T>)
    requires Asymmetric(before) && Ascending(before, a) && Ascending(before, b)
    requires |a| == |b| && multiset(a) == multiset(b)
    ensures a == b
  {
    if a != [] {
      SameFirst(before, a, b);
      RestPermutes(a, b);
      AscendingUnique(before, a[1..], b[1..]);
      assert a == [a[0]] + a[1..] && b == [b[0]] + b[1..];
    }
  }
}

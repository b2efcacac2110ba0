/** The TypeScript canonicalizer, on UTF-16 strings. */
module JcsTs {
  import opened Order
  import opened JsonValue
  import opened JcsText

  /** What is still to be written of an array's text when i of its items are. */
  function ItemsLeft(items: seq<Json<Units>>, i: nat): Units
    requires i <= |items|
  {
    if i == |items| then [CLOSE_ARR]
    else if i == 0 then PrintItems(items)
    else [COMMA] + PrintItems(items[i..])
  }

  lemma {:induction false} ItemsAdvance(items: seq<Json<Units>>, i: nat)
    requires i < |items|
    ensures ItemsLeft(items, i) == (if i > 0 then [COMMA] else []) + Print(items[i]) + ItemsLeft(items, i + 1)
  {
    assert items[i..][1..] == items[i + 1..];
    assert items[0..] == items;
  }

  function MembersLeft(members: seq<Member<Units>>, i: nat): Units
    requires i <= |members|
  {
    if i == |members| then [CLOSE_OBJ]
    else if i == 0 then PrintMembers(members)
    else [COMMA] + PrintMembers(members[i..])
  }

  lemma {:induction false} MembersAdvance(members: seq<Member<Units>>, i: nat)
    requires i < |members|
    ensures MembersLeft(members, i) ==
      (if i > 0 then [COMMA] else []) + PrintMember(members[i]) + MembersLeft(members, i + 1)
  {
    assert members[i..][1..] == members[i + 1..];
    assert members[0..] == members;
  }

  lemma {:induction false} InsertCanon(m: Member<Units>, sorted: seq<Member<Units>>)
    ensures CanonMembers(Insert(KeyBefore, m, sorted)) == Insert(KeyBefore, CanonMember(m), CanonMembers(sorted))
  {
    if sorted != [] && KeyBefore(sorted[0], m) {
      InsertCanon(m, sorted[1..]);
      assert CanonMembers(sorted)[1..] == CanonMembers(sorted[1..]);
    }
  }

  /** Canonicalizing the members and sorting them commute: sorting only looks at the keys. */
  lemma {:induction false} SortCanon(members: seq<Member<Units>>)
    ensures CanonMembers(Sort(KeyBefore, members)) == Sort(KeyBefore, CanonMembers(members))
  {
    if members != [] {
      SortCanon(members[1..]);
      InsertCanon(members[0], Sort(KeyBefore, members[1..]));
      assert CanonMembers(members)[1..] == CanonMembers(members[1..]);
    }
  }

  /** `value[k]`. */
  function Lookup(members: seq<Member<Units>>, key: Units): (m: Member<Units>)
    requires exists i :: 0 <= i < |members| && members[i].key == key
    ensures m in members && m.key == key
  {
    if members[0].key == key then members[0] else Lookup(members[1..], key)
  }

  lemma {:induction false} LookupFinds(members: seq<Member<Units>>, m: Member<Units>)
    requires DistinctKeys(members) && m in members
    ensures (exists i :: 0 <= i < |members| && members[i].key == m.key) && Lookup(members, m.key) == m
  {
    var i :| 0 <= i < |members| && members[i] == m;
    var found := Lookup(members, m.key);
    var j :| 0 <= j < |members| && members[j] == found;
  }

  /** `parts.join(",")` around the parts. */
  function Join(parts: seq<Units>): Units {
    if parts == [] then []
    else if |parts| == 1 then parts[0]
    else Join(parts[..|parts| - 1]) + [COMMA] + parts[|parts| - 1]
  }

  lemma {:induction false} JoinStep(parts: seq<Units>, part: Units, left: Units)
    ensures Join(parts + [part]) + left == Join(parts) + ((if parts == [] then [] else [COMMA]) + part + left)
  {
    assert (parts + [part])[..|parts|] == parts;
  }

  /**
   `serialize`: the canonical text of every value with numbers in range whose objects name no key twice.
   JSON.stringify prints integers of that size in plain decimal; from 10^21 on it would not.
   */
  method Serialize(v: Json<Units>) returns (text: Units)
    requires UniqueKeys(v) && InRange(v)
    ensures text == Canonical(v)
    decreases v, 1
  {
    match v
    case Null => return NULL;
    case Bool(b) => return if b then TRUE else FALSE;
    case Num(n) => return Decimal(n);
    case Str(s) => return Quote(s);
    case Arr(items) => text := SerializeArray(items);
    case Obj(members) => text := SerializeObject(members);
  }

  method SerializeArray(items: seq<Json<Units>>) returns (text: Units)
    requires UniqueKeys(Arr(items)) && InRange(Arr(items))
    ensures text == Canonical(Arr(items))
    decreases items, 0
  {
    ghost var canon := CanonItems(items);
    var parts := [];
    for i := 0 to |items|
      invariant |parts| == i
      invariant Join(parts) + ItemsLeft(canon, i) == ItemsLeft(canon, 0)
    {
      var part := Serialize(items[i]);
      ItemsAdvance(canon, i);
      JoinStep(parts, part, ItemsLeft(canon, i + 1));
      parts := parts + [part];
    }
    text := [OPEN_ARR] + (Join(parts) + [CLOSE_ARR]);
  }

  method SerializeObject(members: seq<Member<Units>>) returns (text: Units)
    requires UniqueKeys(Obj(members)) && InRange(Obj(members))
    ensures text == Canonical(Obj(members))
    decreases members, 0
  {
    var sorted := Sort(KeyBefore, members);
    ghost var canon := CanonMembers(sorted);
    SortPermutes(KeyBefore, members);
    SameElements(sorted, members);
    var parts := [];
    for i := 0 to |sorted|
      invariant |parts| == i
      invariant Join(parts) + MembersLeft(canon, i) == MembersLeft(canon, 0)
    {
      assert sorted[i] in members;
      var part := SerializeMember(members, sorted[i].key, sorted[i]);
      MembersAdvance(canon, i);
      JoinStep(parts, part, MembersLeft(canon, i + 1));
      parts := parts + [part];
    }
    SortCanon(members);
    text := [OPEN_OBJ] + (Join(parts) + [CLOSE_OBJ]);
  }

  method SerializeMember(members: seq<Member<Units>>, k: Units, ghost m: Member<Units>) returns (part: Units)
    requires UniqueKeys(Obj(members)) && InRange(Obj(members)) && m in members && m.key == k
    ensures part == PrintMember(CanonMember(m))
    decreases members, 0, 0
  {
    LookupFinds(members, m);
    var found := Lookup(members, k);
    ghost var j :| 0 <= j < |members| && members[j] == found;
    var text := Serialize(found.value);
    part := Quote(k) + [COLON] + text;
  }
}

/**
 The Rust canonicalizer, on strings of Unicode scalar values (Dafny's char is one), and its
 agreement with the TypeScript one on the UTF-16 encoding of the same value.
 */
module JcsRust {
  import opened Arith
  import opened Order
  import opened Hashing
  import opened JsonValue
  import opened JcsText
  import opened JcsTs

  // ------------------------------------------------------------ UTF-16

  function EncodeChar(c: char): (r: Units)
    ensures r != []
  {
    var n := c as int;
    if n < 0x1_0000 then [n]
    else [0xD800 + (n - 0x1_0000) / 0x400, 0xDC00 + (n - 0x1_0000) % 0x400]
  }

  function Utf16(s: string): Units {
    if s == [] then [] else EncodeChar(s[0]) + Utf16(s[1..])
  }

  lemma {:induction false} Utf16Concat(a: string, b: string)
    ensures Utf16(a + b) == Utf16(a) + Utf16(b)
  {
    if a == [] {
      assert a + b == b && Utf16(a) == [];
      assert [] + Utf16(b) == Utf16(b);
    } else {
      assert (a + b)[0] == a[0] && (a + b)[1..] == a[1..] + b;
      Utf16Concat(a[1..], b);
    }
  }

  lemma {:induction false} CharInjective(a: char, b: char, s: Units, t: Units)
    requires EncodeChar(a) + s == EncodeChar(b) + t
    ensures a == b && s == t
  {
    var x, y := EncodeChar(a), EncodeChar(b);
    assert (x + s)[0] == x[0] && (y + t)[0] == y[0];
    assert |x| == |y|;
    assert x == (x + s)[..|x|] && y == (y + t)[..|y|];
    assert s == (x + s)[|x|..] && t == (y + t)[|y|..];
    assert a as int == b as int;
  }

  lemma {:induction false} Utf16Injective(a: string, b: string)
    requires Utf16(a) == Utf16(b)
    ensures a == b
  {
    if a != [] && b != [] {
      CharInjective(a[0], b[0], Utf16(a[1..]), Utf16(b[1..]));
      Utf16Injective(a[1..], b[1..]);
      assert a == [a[0]] + a[1..] && b == [b[0]] + b[1..];
    }
  }

  /** `utf16_cmp`. */
  predicate Utf16Less(a: string, b: string) { Less(Utf16(a), Utf16(b)) }

  /** A strict total order: distinct keys are always ordered, one way. */
  lemma {:induction false} Utf16LessTotal(a: string, b: string, c: string)
    ensures !Utf16Less(a, a)
    ensures a != b ==> Utf16Less(a, b) != Utf16Less(b, a)
    ensures Utf16Less(a, b) && Utf16Less(b, c) ==> Utf16Less(a, c)
  {
    LessTotal(Utf16(a), Utf16(a));
    LessTotal(Utf16(a), Utf16(b));
    if a != b && Utf16(a) == Utf16(b) {
      Utf16Injective(a, b);
    }
    if Utf16Less(a, b) && Utf16Less(b, c) {
      LessTransitive(Utf16(a), Utf16(b), Utf16(c));
    }
  }

  /** Order by code point. */
  predicate CodePointLess(a: string, b: string) {
    if b == [] then false
    else if a == [] then true
    else if a[0] != b[0] then a[0] < b[0]
    else CodePointLess(a[1..], b[1..])
  }

  /** A character beyond U+FFFF against one in U+E000 .. U+FFFF: the one case the two orders disagree on. */
  predicate Crosses(a: char, b: char) {
    || (a as int >= 0x1_0000 && 0xE000 <= b as int < 0x1_0000)
    || (b as int >= 0x1_0000 && 0xE000 <= a as int < 0x1_0000)
  }

  function FirstDifference(a: string, b: string): (i: nat)
    ensures i <= |a| && i <= |b|
  {
    if a != [] && b != [] && a[0] == b[0] then 1 + FirstDifference(a[1..], b[1..]) else 0
  }

  lemma {:induction false} LessSkipsCommon(p: Units, s: Units, t: Units)
    ensures Less(p + s, p + t) == Less(s, t)
  {
    if p == [] {
      assert p + s == s && p + t == t;
    } else {
      LessSkipsCommon(p[1..], s, t);
      assert (p + s)[1..] == p[1..] + s && (p + t)[1..] == p[1..] + t;
    }
  }

  lemma {:induction false} CharOrder(a: char, b: char, s: Units, t: Units)
    requires a != b
    ensures Less(EncodeChar(a) + s, EncodeChar(b) + t) == (if Crosses(a, b) then b < a else a < b)
  {
    var m, n := a as int, b as int;
    var x, y := EncodeChar(a) + s, EncodeChar(b) + t;
    assert x[0] == EncodeChar(a)[0] && y[0] == EncodeChar(b)[0];
    if m >= 0x1_0000 && n >= 0x1_0000 && x[0] == y[0] {
      assert x[1..][0] == EncodeChar(a)[1] && y[1..][0] == EncodeChar(b)[1];
    }
  }

  /** UTF-16 order and code-point order disagree exactly when the first differing characters cross. */
  lemma {:induction false} OrdersDisagreeIff(a: string, b: string)
    requires a != b
    ensures var i := FirstDifference(a, b);
      Utf16Less(a, b) != CodePointLess(a, b) <==> i < |a| && i < |b| && Crosses(a[i], b[i])
  {
    if a != [] && b != [] {
      if a[0] == b[0] {
        assert a == [a[0]] + a[1..] && b == [b[0]] + b[1..];
        OrdersDisagreeIff(a[1..], b[1..]);
        LessSkipsCommon(EncodeChar(a[0]), Utf16(a[1..]), Utf16(b[1..]));
      } else {
        CharOrder(a[0], b[0], Utf16(a[1..]), Utf16(b[1..]));
      }
    }
  }

  // ------------------------------------------------------------ the same value in both worlds

  function Encode(v: Json<string>): Json<Units>
    decreases v, 1
  {
    match v
    case Null => Null
    case Bool(b) => Bool(b)
    case Num(n) => Num(n)
    case Str(s) => Str(Utf16(s))
    case Arr(items) => Arr(EncodeItems(items))
    case Obj(members) => Obj(EncodeMembers(members))
  }

  function EncodeItems(items: seq<Json<string>>): (r: seq<Json<Units>>)
    ensures |r| == |items| && forall i :: 0 <= i < |items| ==> r[i] == Encode(items[i])
    decreases items, 0
  {
    seq(|items|, i requires 0 <= i < |items| => Encode(items[i]))
  }

  function EncodeMember(m: Member<string>): Member<Units>
    decreases m, 2
  {
    Member(Utf16(m.key), Encode(m.value))
  }

  function EncodeMembers(members: seq<Member<string>>): (r: seq<Member<Units>>)
    ensures |r| == |members| && forall i :: 0 <= i < |members| ==> r[i] == EncodeMember(members[i])
    decreases members, 0
  {
    seq(|members|, i requires 0 <= i < |members| => EncodeMember(members[i]))
  }

  /** How `sort_by` compares entries. */
  predicate Utf16Before(m: Member<string>, n: Member<string>) { Utf16Less(m.key, n.key) }

  lemma {:induction false} InsertEncode(m: Member<string>, sorted: seq<Member<string>>)
    ensures EncodeMembers(Insert(Utf16Before, m, sorted)) == Insert(KeyBefore, EncodeMember(m), EncodeMembers(sorted))
  {
    if sorted != [] {
      assert EncodeMembers(sorted)[0] == EncodeMember(sorted[0]);
      assert KeyBefore(EncodeMember(sorted[0]), EncodeMember(m)) == Utf16Before(sorted[0], m);
      if Utf16Before(sorted[0], m) {
        InsertEncode(m, sorted[1..]);
        assert EncodeMembers(sorted)[1..] == EncodeMembers(sorted[1..]);
      }
    }
  }

  /** Sorting by `utf16_cmp` is sorting the encoded keys by code unit. */
  lemma {:induction false} SortEncode(members: seq<Member<string>>)
    ensures EncodeMembers(Sort(Utf16Before, members)) == Sort(KeyBefore, EncodeMembers(members))
  {
    if members != [] {
      SortEncode(members[1..]);
      InsertEncode(members[0], Sort(Utf16Before, members[1..]));
      assert EncodeMembers(members)[1..] == EncodeMembers(members[1..]);
    }
  }

  lemma {:induction false} EncodeUnique(v: Json<string>)
    requires UniqueKeys(v)
    ensures UniqueKeys(Encode(v))
    decreases v
  {
    match v
    case Arr(items) =>
      forall i | 0 <= i < |items| ensures UniqueKeys(Encode(items[i])) {
        EncodeUnique(items[i]);
      }
    case Obj(members) =>
      var encoded := EncodeMembers(members);
      forall i, j | 0 <= i < j < |members| ensures encoded[i].key != encoded[j].key {
        if encoded[i].key == encoded[j].key {
          Utf16Injective(members[i].key, members[j].key);
        }
      }
      forall i | 0 <= i < |members| ensures UniqueKeys(encoded[i].value) {
        EncodeUnique(members[i].value);
      }
    case _ =>
  }

  lemma {:induction false} EncodeMatched(m: Member<string>, b: seq<Member<string>>)
    requires forall j :: 0 <= j < |b| ==> (AlikeMembers(EncodeMember(m), EncodeMember(b[j])) <==> AlikeMembers(m, b[j]))
    ensures Matched(EncodeMember(m), EncodeMembers(b)) <==> Matched(m, b)
  {
    var eb := EncodeMembers(b);
    if Matched(EncodeMember(m), eb) {
      var j :| 0 <= j < |eb| && AlikeMembers(EncodeMember(m), eb[j]);
      assert AlikeMembers(m, b[j]);
    }
    if Matched(m, b) {
      var j :| 0 <= j < |b| && AlikeMembers(m, b[j]);
      assert AlikeMembers(EncodeMember(m), eb[j]);
    }
  }

  lemma {:induction false} EncodeAlike(v: Json<string>, w: Json<string>)
    ensures Alike(Encode(v), Encode(w)) <==> Alike(v, w)
    decreases v
  {
    match (v, w)
    case (Str(s), Str(t)) =>
      if Utf16(s) == Utf16(t) {
        Utf16Injective(s, t);
      }
    case (Arr(a), Arr(b)) =>
      forall i | 0 <= i < |a| && |a| == |b| ensures Alike(Encode(a[i]), Encode(b[i])) <==> Alike(a[i], b[i]) {
        EncodeAlike(a[i], b[i]);
      }
    case (Obj(a), Obj(b)) =>
      forall i | 0 <= i < |a| ensures Matched(EncodeMember(a[i]), EncodeMembers(b)) <==> Matched(a[i], b) {
        forall j | 0 <= j < |b|
          ensures AlikeMembers(EncodeMember(a[i]), EncodeMember(b[j])) <==> AlikeMembers(a[i], b[j])
        {
          EncodeAlike(a[i].value, b[j].value);
          if Utf16(a[i].key) == Utf16(b[j].key) {
            Utf16Injective(a[i].key, b[j].key);
          }
        }
        EncodeMatched(a[i], b);
      }
    case _ =>
  }

  // ------------------------------------------------------------ escaping

  function HexChar(d: nat): char
    requires d < 16
  {
    if d < 10 then '0' + d as char else 'a' + (d - 10) as char
  }

  /** The escape of one character; `\u{:04x}` of a control character has two leading zeros. */
  function EscapeChar(c: char): string {
    if c == '"' then "\\\""
    else if c == '\\' then "\\\\"
    else if c as int == 0x08 then "\\b"
    else if c as int == 0x0C then "\\f"
    else if c == '\n' then "\\n"
    else if c == '\r' then "\\r"
    else if c == '\t' then "\\t"
    else if c as int < 0x20 then "\\u00" + [HexChar(c as int / 16), HexChar(c as int % 16)]
    else [c]
  }

  lemma {:induction false} Utf16Two(a: char, b: char)
    requires a as int < 0x80 && b as int < 0x80
    ensures Utf16([a, b]) == [a as int, b as int]
  {
    Utf16One(b);
    assert [a, b][0] == a && [a, b][1..] == [b];
  }

  lemma {:induction false} Utf16One(a: char)
    ensures Utf16([a]) == EncodeChar(a)
  {
    assert [a][1..] == [];
  }

  lemma {:induction false} EscapeControl(c: char)
    requires c as int < 0x20
    ensures Utf16("\\u00" + [HexChar(c as int / 16), HexChar(c as int % 16)]) == UnicodeEscape(c as int)
  {
    var n := c as int;
    var d, e := HexChar(n / 16), HexChar(n % 16);
    Utf16Two('\\', 'u');
    Utf16Two('0', '0');
    Utf16Two(d, e);
    Utf16Concat("\\u", "00");
    assert "\\u" + "00" == "\\u00";
    Utf16Concat("\\u00", [d, e]);
    assert n / 16 / 16 == 0;
  }

  /** Escaping a character and then encoding it is escaping what it encodes to. */
  lemma {:induction false} EscapeCommutes(c: char, rest: Units)
    ensures QuoteRest(EncodeChar(c) + rest) == Utf16(EscapeChar(c)) + QuoteRest(rest)
  {
    var n := c as int;
    var t := EncodeChar(c) + rest;
    assert t[0] == EncodeChar(c)[0];
    if n < 0x1_0000 {
      assert t[1..] == rest;
      assert Utf16(EscapeChar(c)) == EscapeUnit(n) by {
        EscapeBmp(c);
      }
    } else {
      assert t[1] == EncodeChar(c)[1] && t[2..] == rest;
      Utf16One(c);
    }
  }

  lemma {:induction false} EscapeBmp(c: char)
    requires c as int < 0x1_0000
    ensures Utf16(EscapeChar(c)) == EscapeUnit(c as int)
  {
    if c as int < 0x20 {
      EscapeControl(c);
    }
    if |EscapeChar(c)| == 2 {
      Utf16Two(EscapeChar(c)[0], EscapeChar(c)[1]);
      assert EscapeChar(c) == [EscapeChar(c)[0], EscapeChar(c)[1]];
    } else if |EscapeChar(c)| == 1 {
      Utf16One(c);
    }
  }

  // ------------------------------------------------------------ the serializer

  datatype JcsError = NotI64(n: int) | OutOfRange(n: int)

  /** The error for an integer beyond 2^53: whether it still is a 64-bit one decides which. */
  function BadNumber(n: int): JcsError {
    if -0x8000_0000_0000_0000 <= n < 0x8000_0000_0000_0000 then OutOfRange(n) else NotI64(n)
  }

  lemma {:induction false} NumberErrors(n: int)
    ensures BadNumber(n) == OutOfRange(n) <==> -9_223_372_036_854_775_808 <= n <= 9_223_372_036_854_775_807
    ensures BadNumber(n) == NotI64(n) <==> n < -9_223_372_036_854_775_808 || 9_223_372_036_854_775_807 < n
  {
  }

  /** The error is about a number of the value that is out of range. */
  ghost predicate Names(v: Json<string>, e: JcsError) {
    match v
    case Num(n) => !(-0x20_0000_0000_0000 <= n <= 0x20_0000_0000_0000) && e == BadNumber(n)
    case Arr(items) => exists i :: 0 <= i < |items| && Names(items[i], e)
    case Obj(members) => exists i :: 0 <= i < |members| && Names(members[i].value, e)
    case _ => false
  }

  /** The first n items are in range. */
  predicate ItemsInRange<K>(items: seq<Json<K>>, n: nat)
    requires n <= |items|
  {
    n == 0 || (ItemsInRange(items, n - 1) && InRange(items[n - 1]))
  }

  lemma {:induction false} ItemsInRangeMeans<K>(items: seq<Json<K>>, n: nat)
    requires n <= |items|
    ensures ItemsInRange(items, n) <==> forall k :: 0 <= k < n ==> InRange(items[k])
  {
    if n > 0 {
      ItemsInRangeMeans(items, n - 1);
    }
  }

  lemma {:induction false} ItemOutOfRange<K>(items: seq<Json<K>>, i: nat, n: nat)
    requires i < n <= |items| && !InRange(items[i])
    ensures !ItemsInRange(items, n)
  {
    if i < n - 1 {
      ItemOutOfRange(items, i, n - 1);
    }
  }

  /** The first n members' values are in range. */
  predicate MembersInRange<K>(members: seq<Member<K>>, n: nat)
    requires n <= |members|
  {
    n == 0 || (MembersInRange(members, n - 1) && InRange(members[n - 1].value))
  }

  lemma {:induction false} MembersInRangeMeans<K>(members: seq<Member<K>>, n: nat)
    requires n <= |members|
    ensures MembersInRange(members, n) <==> forall k :: 0 <= k < n ==> InRange(members[k].value)
  {
    if n > 0 {
      MembersInRangeMeans(members, n - 1);
    }
  }

  lemma {:induction false} MemberOutOfRange<K>(members: seq<Member<K>>, i: nat, n: nat)
    requires i < n <= |members| && !InRange(members[i].value)
    ensures !MembersInRange(members, n)
  {
    if i < n - 1 {
      MemberOutOfRange(members, i, n - 1);
    }
  }

  /** The `&mut String` the serializer appends to. */
  class Buffer {
    var text: string

    constructor ()
      ensures text == ""
    {
      text := "";
    }

    /** `push_str`, with its effect on the text's encoding. */
    method Push(s: string)
      modifies this
      ensures text == old(text) + s
      ensures Utf16(text) == Utf16(old(text)) + Utf16(s)
    {
      Utf16Concat(text, s);
      text := text + s;
    }

    /** `push`, of an ASCII character. */
    method PushAscii(c: char)
      requires c as int < 0x80
      modifies this
      ensures Utf16(text) == Utf16(old(text)) + [c as int]
    {
      Utf16One(c);
      Push([c]);
    }
  }

  /** `escape_string` appends exactly what JSON.stringify writes for the encoded string. */
  method EscapeString(s: string, out: Buffer)
    modifies out
    ensures Utf16(out.text) == Utf16(old(out.text)) + Quote(Utf16(s))
  {
    out.PushAscii('"');
    ghost var start := Utf16(out.text);
    ghost var done: Units := [];
    assert s[0..] == s;
    for i := 0 to |s|
      invariant Utf16(out.text) == start + done
      invariant done + QuoteRest(Utf16(s[i..])) == QuoteRest(Utf16(s))
    {
      ghost var piece := Utf16(EscapeChar(s[i]));
      assert s[i..][1..] == s[i + 1..];
      EscapeCommutes(s[i], Utf16(s[i + 1..]));
      Regroup(done, piece, QuoteRest(Utf16(s[i + 1..])));
      Regroup(start, done, piece);
      out.Push(EscapeChar(s[i]));
      done := done + piece;
    }
    assert s[|s|..] == [];
    Regroup(start, done, [QUOTE]);
    out.PushAscii('"');
    Regroup(Utf16(old(out.text)), [QUOTE], QuoteRest(Utf16(s)));
  }

  method SignedDecimal(n: int) returns (s: string)
    ensures Utf16(s) == Decimal(n)
  {
    if n < 0 {
      s := UnsignedDecimal(-n);
      Utf16Concat("-", s);
      Utf16One('-');
      s := "-" + s;
    } else {
      s := UnsignedDecimal(n);
    }
  }

  method UnsignedDecimal(n: nat) returns (s: string)
    ensures Utf16(s) == Digits(n)
    decreases n
  {
    var last := '0' + (n % 10) as char;
    Utf16One(last);
    if n < 10 {
      s := [last];
    } else {
      var front := UnsignedDecimal(n / 10);
      Utf16Concat(front, [last]);
      s := front + [last];
    }
  }

  lemma {:induction false} KeywordsEncode()
    ensures Utf16("null") == NULL && Utf16("true") == TRUE && Utf16("false") == FALSE
  {
    Utf16Two('n', 'u'); Utf16Two('l', 'l'); Utf16Concat("nu", "ll");
    assert "nu" + "ll" == "null";
    Utf16Two('t', 'r'); Utf16Two('u', 'e'); Utf16Concat("tr", "ue");
    assert "tr" + "ue" == "true";
    Utf16Two('f', 'a'); Utf16Two('l', 's'); Utf16Concat("fa", "ls");
    assert "fa" + "ls" == "fals";
    Utf16One('e'); Utf16Concat("fals", "e");
    assert "fals" + "e" == "false";
  }

  /**
   `serialize`. It succeeds exactly when every number is in range, and then what it appends is, in
   UTF-16, the canonical text the TypeScript canonicalizer gives the encoded value.
   */
  method Serialize(v: Json<string>, out: Buffer) returns (error: Option<JcsError>)
    modifies out
    ensures error.None? <==> InRange(v)
    ensures error.None? ==> Utf16(out.text) == Utf16(old(out.text)) + Canonical(Encode(v))
    ensures error.Some? ==> Names(v, error.value)
    decreases v, 1
  {
    error := None;
    match v
    case Null =>
      KeywordsEncode();
      out.Push("null");
    case Bool(b) =>
      KeywordsEncode();
      out.Push(if b then "true" else "false");
    case Num(n) =>
      if n < -0x8000_0000_0000_0000 || n >= 0x8000_0000_0000_0000 {
        return Some(NotI64(n));
      }
      if n < -LIMIT || n > LIMIT {
        return Some(OutOfRange(n));
      }
      var digits := SignedDecimal(n);
      out.Push(digits);
    case Str(s) =>
      EscapeString(s, out);
    case Arr(items) =>
      error := SerializeArray(items, out);
    case Obj(members) =>
      error := SerializeObject(members, out);
  }

  /** One turn of the array loop: a comma unless first, then the item. */
  method SerializeItem(items: seq<Json<string>>, i: nat, ghost start: Units, out: Buffer)
    returns (error: Option<JcsError>)
    requires i < |items|
    requires Utf16(out.text) == start + ItemsDone(CanonItems(EncodeItems(items)), i)
    modifies out
    ensures error.None? <==> InRange(items[i])
    ensures error.None? ==> Utf16(out.text) == start + ItemsDone(CanonItems(EncodeItems(items)), i + 1)
    ensures error.Some? ==> Names(items[i], error.value)
    decreases items, 0, 0
  {
    ghost var canon := CanonItems(EncodeItems(items));
    ghost var before := Utf16(out.text);
    PushComma(i > 0, out);
    error := Serialize(items[i], out);
    Regroup(before, Separator(i == 0), Canonical(Encode(items[i])));
    Regroup(start, ItemsDone(canon, i), Separator(i == 0) + Print(canon[i]));
  }

  method SerializeArray(items: seq<Json<string>>, out: Buffer) returns (error: Option<JcsError>)
    modifies out
    ensures error.None? <==> InRange(Arr(items))
    ensures error.None? ==> Utf16(out.text) == Utf16(old(out.text)) + Canonical(Encode(Arr(items)))
    ensures error.Some? ==> Names(Arr(items), error.value)
    decreases items, 0, 2
  {
    error := SerializeItems(items, out);
    ItemsInRangeMeans(items, |items|);
  }

  method SerializeItems(items: seq<Json<string>>, out: Buffer) returns (error: Option<JcsError>)
    modifies out
    ensures error.None? <==> ItemsInRange(items, |items|)
    ensures error.None? ==>
      Utf16(out.text) == Utf16(old(out.text)) + Print(Arr(CanonItems(EncodeItems(items))))
    ensures error.Some? ==> Names(Arr(items), error.value)
    decreases items, 0, 1
  {
    ghost var canon := CanonItems(EncodeItems(items));
    out.PushAscii('[');
    ghost var start := Utf16(out.text);
    for i := 0 to |items|
      invariant ItemsInRange(items, i)
      invariant Utf16(out.text) == start + ItemsDone(canon, i)
    {
      error := SerializeItem(items, i, start, out);
      if error.Some? {
        ItemOutOfRange(items, i, |items|);
        return;
      }
    }
    out.PushAscii(']');
    ItemsText(Utf16(old(out.text)), canon);
    error := None;
  }

  function Separator(first: bool): Units { if first then [] else [COMMA] }

  /** What has been written of an array's text after i items. */
  function ItemsDone(items: seq<Json<Units>>, i: nat): Units
    requires i <= |items|
  {
    if i == 0 then [] else ItemsDone(items, i - 1) + (Separator(i == 1) + Print(items[i - 1]))
  }

  lemma {:induction false} ItemsAllDone(items: seq<Json<Units>>, i: nat)
    requires i <= |items|
    ensures ItemsDone(items, i) + ItemsLeft(items, i) == ItemsLeft(items, 0)
  {
    if i > 0 {
      ItemsAllDone(items, i - 1);
      ItemsAdvance(items, i - 1);
      Regroup(ItemsDone(items, i - 1), Separator(i == 1) + Print(items[i - 1]), ItemsLeft(items, i));
    }
  }

  lemma {:induction false} ItemsText(start: Units, items: seq<Json<Units>>)
    ensures ((start + [OPEN_ARR]) + ItemsDone(items, |items|)) + [CLOSE_ARR] == start + Print(Arr(items))
  {
    ItemsAllDone(items, |items|);
    Closing(start, OPEN_ARR, ItemsDone(items, |items|), CLOSE_ARR);
  }

  /** The same for an object's members. */
  function MembersDone(members: seq<Member<Units>>, i: nat): Units
    requires i <= |members|
  {
    if i == 0 then [] else MembersDone(members, i - 1) + (Separator(i == 1) + PrintMember(members[i - 1]))
  }

  lemma {:induction false} MembersAllDone(members: seq<Member<Units>>, i: nat)
    requires i <= |members|
    ensures MembersDone(members, i) + MembersLeft(members, i) == MembersLeft(members, 0)
  {
    if i > 0 {
      MembersAllDone(members, i - 1);
      MembersAdvance(members, i - 1);
      Regroup(MembersDone(members, i - 1), Separator(i == 1) + PrintMember(members[i - 1]), MembersLeft(members, i));
    }
  }

  lemma {:induction false} MembersText(start: Units, members: seq<Member<Units>>)
    ensures ((start + [OPEN_OBJ]) + MembersDone(members, |members|)) + [CLOSE_OBJ] == start + Print(Obj(members))
  {
    MembersAllDone(members, |members|);
    Closing(start, OPEN_OBJ, MembersDone(members, |members|), CLOSE_OBJ);
  }

  lemma {:induction false} Closing(start: Units, open: Unit, done: Units, close: Unit)
    ensures ((start + [open]) + done) + [close] == start + ([open] + (done + [close]))
  {
  }

  method PushComma(needed: bool, out: Buffer)
    modifies out
    ensures Utf16(out.text) == Utf16(old(out.text)) + if needed then [COMMA] else []
  {
    if needed {
      out.PushAscii(',');
    }
  }

  /** One turn of the object loop. */
  method SerializeMember(first: bool, m: Member<string>, out: Buffer) returns (error: Option<JcsError>)
    modifies out
    ensures error.None? <==> InRange(m.value)
    ensures error.None? ==>
      Utf16(out.text) == Utf16(old(out.text)) + (Separator(first) + PrintMember(CanonMember(EncodeMember(m))))
    ensures error.Some? ==> Names(m.value, error.value)
    decreases m, 2
  {
    ghost var start := Utf16(out.text);
    PushComma(!first, out);
    EscapeString(m.key, out);
    out.PushAscii(':');
    error := Serialize(m.value, out);
    MemberPieces(start, Separator(first), Quote(Utf16(m.key)), Canonical(Encode(m.value)));
  }

  lemma {:induction false} MemberPieces(start: Units, sep: Units, key: Units, value: Units)
    ensures (((start + sep) + key) + [COLON]) + value == start + (sep + (key + [COLON] + value))
  {
  }

  lemma {:induction false} ObjectText(members: seq<Member<string>>)
    ensures Canonical(Encode(Obj(members))) ==
      Print(Obj(CanonMembers(EncodeMembers(Sort(Utf16Before, members)))))
  {
    SortEncode(members);
    SortCanon(EncodeMembers(members));
  }

  lemma {:induction false} EntriesInRange(members: seq<Member<string>>, entries: seq<Member<string>>)
    requires multiset(entries) == multiset(members)
    ensures MembersInRange(entries, |entries|) <==> InRange(Obj(members))
  {
    MembersInRangeMeans(entries, |entries|);
    SameElements(entries, members);
    forall k | 0 <= k < |members| ensures members[k] in entries {
      assert members[k] in multiset(members);
    }
    forall k | 0 <= k < |entries| ensures entries[k] in members {
      assert entries[k] in multiset(entries);
    }
  }

  lemma {:induction false} EntryNamed(members: seq<Member<string>>, entries: seq<Member<string>>, e: JcsError)
    requires multiset(entries) == multiset(members) && Names(Obj(entries), e)
    ensures Names(Obj(members), e)
  {
    var i :| 0 <= i < |entries| && Names(entries[i].value, e);
    assert entries[i] in multiset(members);
    var j :| 0 <= j < |members| && members[j] == entries[i];
    assert Names(members[j].value, e);
  }

  method SerializeObject(members: seq<Member<string>>, out: Buffer) returns (error: Option<JcsError>)
    modifies out
    ensures error.None? <==> InRange(Obj(members))
    ensures error.None? ==> Utf16(out.text) == Utf16(old(out.text)) + Canonical(Encode(Obj(members)))
    ensures error.Some? ==> Names(Obj(members), error.value)
    decreases members, 0, 2
  {
    var entries := Sort(Utf16Before, members);
    SortPermutes(Utf16Before, members);
    error := SerializeEntries(members, entries, out);
    ObjectText(members);
    EntriesInRange(members, entries);
    if error.Some? {
      EntryNamed(members, entries, error.value);
    }
  }

  method SerializeEntries(ghost members: seq<Member<string>>, entries: seq<Member<string>>, out: Buffer)
    returns (error: Option<JcsError>)
    requires multiset(entries) == multiset(members)
    modifies out
    ensures error.None? <==> MembersInRange(entries, |entries|)
    ensures error.None? ==>
      Utf16(out.text) == Utf16(old(out.text)) + Print(Obj(CanonMembers(EncodeMembers(entries))))
    ensures error.Some? ==> Names(Obj(entries), error.value)
    decreases members, 0, 1
  {
    ghost var canon := CanonMembers(EncodeMembers(entries));
    out.PushAscii('{');
    ghost var start := Utf16(out.text);
    for i := 0 to |entries|
      invariant MembersInRange(entries, i)
      invariant Utf16(out.text) == start + MembersDone(canon, i)
    {
      error := SerializeEntry(members, entries, i, start, out);
      if error.Some? {
        MemberOutOfRange(entries, i, |entries|);
        return;
      }
    }
    out.PushAscii('}');
    MembersText(Utf16(old(out.text)), canon);
    error := None;
  }

  /** The turn for entry i, which is one of the object's members and so smaller than the object. */
  method SerializeEntry(ghost members: seq<Member<string>>, entries: seq<Member<string>>, i: nat, ghost start: Units,
                        out: Buffer)
    returns (error: Option<JcsError>)
    requires i < |entries| && multiset(entries) == multiset(members)
    requires Utf16(out.text) == start + MembersDone(CanonMembers(EncodeMembers(entries)), i)
    modifies out
    ensures error.None? <==> InRange(entries[i].value)
    ensures error.None? ==> Utf16(out.text) == start + MembersDone(CanonMembers(EncodeMembers(entries)), i + 1)
    ensures error.Some? ==> Names(entries[i].value, error.value)
    decreases members, 0, 0
  {
    assert entries[i] in multiset(entries);
    ghost var j :| 0 <= j < |members| && members[j] == entries[i];
    ghost var canon := CanonMembers(EncodeMembers(entries));
    error := SerializeMember(i == 0, entries[i], out);
    Regroup(start, MembersDone(canon, i), Separator(i == 0) + PrintMember(canon[i]));
  }

  /** `jcs`. */
  method Jcs(v: Json<string>) returns (text: string, error: Option<JcsError>)
    ensures error.None? <==> InRange(v)
    ensures error.None? ==> Utf16(text) == Canonical(Encode(v))
    ensures error.Some? ==> Names(v, error.value)
  {
    var out := new Buffer();
    error := Serialize(v, out);
    text := out.text;
  }

  /** Two Rust values have one canonical text exactly when they are equal up to member order. */
  lemma {:induction false} SameRustTextIff(v: Json<string>, w: Json<string>)
    requires UniqueKeys(v) && UniqueKeys(w)
    ensures Canonical(Encode(v)) == Canonical(Encode(w)) <==> Alike(v, w)
  {
    EncodeUnique(v);
    EncodeUnique(w);
    SameTextIff(Encode(v), Encode(w));
    EncodeAlike(v, w);
  }

  /** What the text of a Rust value says, in its UTF-16 form. */
  lemma {:induction false} RustTextMeans(v: Json<string>)
    requires UniqueKeys(v)
    ensures var r := ParseValue(Canonical(Encode(v)));
      r.Done? && r.rest == [] && Alike(Encode(v), r.value) && KeysInOrder(r.value)
  {
    EncodeUnique(v);
    TextMeans(Encode(v));
  }

  /** A character beyond the basic plane becomes a high and a low surrogate that together give it back. */
  lemma {:induction false} EncodeCharDecodes(c: char)
    ensures var n, u := c as int, EncodeChar(c);
      if n < 0x1_0000 then u == [n]
      else
        && |u| == 2 && 0xD800 <= u[0] < 0xDC00 && 0xDC00 <= u[1] < 0xE000
        && n == 0x1_0000 + (u[0] as int - 0xD800) * 0x400 + (u[1] as int - 0xDC00)
  {
  }
}

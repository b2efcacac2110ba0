/** The canonical text of a value as UTF-16 code units, and a parser that inverts it. */
module JcsText {
  import opened Arith
  import opened Hashing
  import opened JsonValue

  // ASCII code units
  const QUOTE: Unit := 0x22
  const COMMA: Unit := 0x2C
  const MINUS: Unit := 0x2D
  const ZERO: Unit := 0x30
  const COLON: Unit := 0x3A
  const OPEN_ARR: Unit := 0x5B
  const BACKSLASH: Unit := 0x5C
  const CLOSE_ARR: Unit := 0x5D
  const OPEN_OBJ: Unit := 0x7B
  const CLOSE_OBJ: Unit := 0x7D
  const NULL: Units := [0x6E, 0x75, 0x6C, 0x6C]
  const TRUE: Units := [0x74, 0x72, 0x75, 0x65]
  const FALSE: Units := [0x66, 0x61, 0x6C, 0x73, 0x65]

  // ------------------------------------------------------------ strings

  predicate IsHigh(u: Unit) { 0xD800 <= u < 0xDC00 }

  predicate IsLow(u: Unit) { 0xDC00 <= u < 0xE000 }

  /** A lower-case hexadecimal digit. */
  function HexDigit(d: nat): Unit
    requires d < 16
  {
    if d < 10 then ZERO + d else 0x61 + d - 10
  }

  function Hex4(u: Unit): (r: Units)
    ensures |r| == 4
  {
    var x := u / 16;
    var y := x / 16;
    [HexDigit(y / 16), HexDigit(y % 16), HexDigit(x % 16), HexDigit(u % 16)]
  }

  function UnicodeEscape(u: Unit): (r: Units)
    ensures |r| == 6
  {
    [BACKSLASH, 0x75] + Hex4(u)
  }

  /** The letter after the backslash of a two-character escape. */
  function ShortEscape(u: Unit): Option<Unit> {
    if u == QUOTE || u == BACKSLASH then Some(u)
    else if u == 0x08 then Some(0x62)
    else if u == 0x0C then Some(0x66)
    else if u == 0x0A then Some(0x6E)
    else if u == 0x0D then Some(0x72)
    else if u == 0x09 then Some(0x74)
    else None
  }

  /** How JSON.stringify writes one code unit that is not half of a surrogate pair. */
  function EscapeUnit(u: Unit): (r: Units)
    ensures r != []
  {
    var short := ShortEscape(u);
    if short.Some? then [BACKSLASH, short.value]
    else if u < 0x20 || IsHigh(u) || IsLow(u) then UnicodeEscape(u)
    else [u]
  }

  /** The string from here to its closing quote. */
  function QuoteRest(s: Units): (r: Units)
    ensures r != []
  {
    if s == [] then [QUOTE]
    else if |s| >= 2 && IsHigh(s[0]) && IsLow(s[1]) then [s[0], s[1]] + QuoteRest(s[2..])
    else EscapeUnit(s[0]) + QuoteRest(s[1..])
  }

  function Quote(s: Units): Units { [QUOTE] + QuoteRest(s) }

  // ------------------------------------------------------------ numbers

  /** Decimal digits without leading zeros. */
  function Digits(n: nat): (r: Units)
    ensures |r| > 0 && forall i :: 0 <= i < |r| ==> IsDigit(r[i])
  {
    if n < 10 then [ZERO + n] else Digits(n / 10) + [ZERO + n % 10]
  }

  function Decimal(n: int): (r: Units)
    ensures r != [] && (r[0] == MINUS || IsDigit(r[0]))
  {
    if n < 0 then [MINUS] + Digits(-n) else Digits(n)
  }

  predicate IsDigit(u: Unit) { ZERO <= u < ZERO + 10 }

  // ------------------------------------------------------------ values

  /** The text of a value whose members are printed in the order given. */
  function Print(v: Json<Units>): (r: Units)
    ensures r != []
    decreases v, 1
  {
    match v
    case Null => NULL
    case Bool(b) => if b then TRUE else FALSE
    case Num(n) => Decimal(n)
    case Str(s) => Quote(s)
    case Arr(items) => [OPEN_ARR] + if items == [] then [CLOSE_ARR] else PrintItems(items)
    case Obj(members) => [OPEN_OBJ] + if members == [] then [CLOSE_OBJ] else PrintMembers(members)
  }

  /** Items, commas and the closing bracket. */
  function PrintItems(items: seq<Json<Units>>): Units
    requires items != []
    decreases items, 0
  {
    Print(items[0]) + if |items| == 1 then [CLOSE_ARR] else [COMMA] + PrintItems(items[1..])
  }

  function PrintMember(m: Member<Units>): Units
    decreases m, 2
  {
    Quote(m.key) + [COLON] + Print(m.value)
  }

  function PrintMembers(members: seq<Member<Units>>): Units
    requires members != []
    decreases members, 0
  {
    PrintMember(members[0]) + if |members| == 1 then [CLOSE_OBJ] else [COMMA] + PrintMembers(members[1..])
  }

  /** The canonical text: members sorted at every level. */
  function Canonical(v: Json<Units>): Units { Print(Canon(v)) }

  // ------------------------------------------------------------ the parser

  datatype Parsed<+T> = Fail | Done(value: T, rest: Units)

  function HexValue(u: Unit): (d: Option<nat>)
    ensures d.Some? ==> d.value < 16
  {
    if IsDigit(u) then Some(u - ZERO) else if 0x61 <= u < 0x67 then Some(u - 0x61 + 10) else None
  }

  function ParseHex4(t: Units): (r: Option<Unit>)
    requires |t| >= 4
  {
    var a, b, c, d := HexValue(t[0]), HexValue(t[1]), HexValue(t[2]), HexValue(t[3]);
    if a.None? || b.None? || c.None? || d.None? then None
    else Some(((a.value * 16 + b.value) * 16 + c.value) * 16 + d.value)
  }

  function Unescape(letter: Unit): Option<Unit> {
    if letter == QUOTE || letter == BACKSLASH then Some(letter)
    else if letter == 0x62 then Some(0x08)
    else if letter == 0x66 then Some(0x0C)
    else if letter == 0x6E then Some(0x0A)
    else if letter == 0x72 then Some(0x0D)
    else if letter == 0x74 then Some(0x09)
    else None
  }

  function ParseUnit(t: Units): (r: Parsed<Unit>)
    requires t != []
    ensures r.Done? ==> |r.rest| < |t|
  {
    if t[0] != BACKSLASH then Done(t[0], t[1..])
    else if |t| >= 2 && Unescape(t[1]).Some? then Done(Unescape(t[1]).value, t[2..])
    else if |t| >= 6 && t[1] == 0x75 && ParseHex4(t[2..6]).Some? then Done(ParseHex4(t[2..6]).value, t[6..])
    else Fail
  }

  function ParseRest(t: Units): (r: Parsed<Units>)
    ensures r.Done? ==> |r.rest| < |t|
    decreases |t|
  {
    if t == [] then Fail
    else if t[0] == QUOTE then Done([], t[1..])
    else
      var first := ParseUnit(t);
      if first.Fail? then Fail
      else
        var more := ParseRest(first.rest);
        if more.Fail? then Fail else Done([first.value] + more.value, more.rest)
  }

  function ParseDigits(t: Units, acc: nat): (r: Parsed<nat>)
    ensures r.Done? && |r.rest| <= |t|
    decreases |t|
  {
    if t != [] && IsDigit(t[0]) then ParseDigits(t[1..], acc * 10 + (t[0] - ZERO)) else Done(acc, t)
  }

  function ParseValue(t: Units): (r: Parsed<Json<Units>>)
    ensures r.Done? ==> |r.rest| < |t|
    decreases |t|, 1
  {
    if t == [] then Fail
    else if NULL <= t then Done(Null, t[4..])
    else if TRUE <= t then Done(Bool(true), t[4..])
    else if FALSE <= t then Done(Bool(false), t[5..])
    else if t[0] == QUOTE then
      var s := ParseRest(t[1..]);
      if s.Fail? then Fail else Done(Str(s.value), s.rest)
    else if t[0] == OPEN_ARR then
      if |t| > 1 && t[1] == CLOSE_ARR then Done(Arr([]), t[2..])
      else
        var items := ParseItems(t[1..]);
        if items.Fail? then Fail else Done(Arr(items.value), items.rest)
    else if t[0] == OPEN_OBJ then
      if |t| > 1 && t[1] == CLOSE_OBJ then Done(Obj([]), t[2..])
      else
        var members := ParseMembers(t[1..]);
        if members.Fail? then Fail else Done(Obj(members.value), members.rest)
    else if t[0] == MINUS then
      var n := ParseDigits(t[1..], 0);
      Done(Num(0 - n.value), n.rest)
    else if IsDigit(t[0]) then
      var n := ParseDigits(t[1..], t[0] - ZERO);
      Done(Num(n.value), n.rest)
    else Fail
  }

  function ParseItems(t: Units): (r: Parsed<seq<Json<Units>>>)
    ensures r.Done? ==> |r.rest| < |t|
    decreases |t|, 2
  {
    var first := ParseValue(t);
    if first.Fail? || first.rest == [] then Fail
    else if first.rest[0] == CLOSE_ARR then Done([first.value], first.rest[1..])
    else if first.rest[0] == COMMA then
      var more := ParseItems(first.rest[1..]);
      if more.Fail? then Fail else Done([first.value] + more.value, more.rest)
    else Fail
  }

  function ParseMember(t: Units): (r: Parsed<Member<Units>>)
    ensures r.Done? ==> |r.rest| < |t|
    decreases |t|, 2
  {
    if t == [] || t[0] != QUOTE then Fail
    else
      var key := ParseRest(t[1..]);
      if key.Fail? || key.rest == [] || key.rest[0] != COLON then Fail
      else
        var value := ParseValue(key.rest[1..]);
        if value.Fail? then Fail else Done(Member(key.value, value.value), value.rest)
  }

  function ParseMembers(t: Units): (r: Parsed<seq<Member<Units>>>)
    ensures r.Done? ==> |r.rest| < |t|
    decreases |t|, 3
  {
    var first := ParseMember(t);
    if first.Fail? || first.rest == [] then Fail
    else if first.rest[0] == CLOSE_OBJ then Done([first.value], first.rest[1..])
    else if first.rest[0] == COMMA then
      var more := ParseMembers(first.rest[1..]);
      if more.Fail? then Fail else Done([first.value] + more.value, more.rest)
    else Fail
  }

  // ------------------------------------------------------------ parsing undoes printing

  lemma {:induction false} HexDigitRoundTrip(d: nat)
    requires d < 16
    ensures HexValue(HexDigit(d)) == Some(d)
  {
  }

  lemma {:induction false} HexRoundTrip(u: Unit)
    ensures ParseHex4(Hex4(u)) == Some(u)
  {
    var x := u / 16;
    var y := x / 16;
    HexDigitRoundTrip(y / 16);
    HexDigitRoundTrip(y % 16);
    HexDigitRoundTrip(x % 16);
    HexDigitRoundTrip(u % 16);
  }

  lemma {:induction false} UnitRoundTrip(u: Unit, rest: Units)
    ensures EscapeUnit(u)[0] != QUOTE && ParseUnit(EscapeUnit(u) + rest) == Done(u, rest)
  {
    var e := EscapeUnit(u);
    var t := e + rest;
    assert t[|e|..] == rest;
    if ShortEscape(u).None? && |e| == 6 {
      HexRoundTrip(u);
      assert t[2..6] == Hex4(u);
      assert t[1] == 0x75;
    }
  }

  lemma {:induction false} RestStep(t: Units, u: Unit, after: Units, more: Units, rest: Units)
    requires t != [] && t[0] != QUOTE && ParseUnit(t) == Done(u, after) && ParseRest(after) == Done(more, rest)
    ensures ParseRest(t) == Done([u] + more, rest)
  {
  }

  lemma {:induction false} PairStep(high: Unit, low: Unit, after: Units, more: Units, rest: Units)
    requires IsHigh(high) && IsLow(low) && ParseRest(after) == Done(more, rest)
    ensures ParseRest([high, low] + after) == Done([high, low] + more, rest)
  {
    var t := [high, low] + after;
    assert t[1..] == [low] + after && t[1..][1..] == after;
    RestStep(t[1..], low, after, more, rest);
    RestStep(t, high, t[1..], [low] + more, rest);
    assert [high] + ([low] + more) == [high, low] + more;
  }

  lemma {:induction false} EscapedStep(u: Unit, after: Units, more: Units, rest: Units)
    requires ParseRest(after) == Done(more, rest)
    ensures ParseRest(EscapeUnit(u) + after) == Done([u] + more, rest)
  {
    UnitRoundTrip(u, after);
    RestStep(EscapeUnit(u) + after, u, after, more, rest);
  }

  lemma {:induction false} StringRoundTrip(s: Units, rest: Units)
    ensures ParseRest(QuoteRest(s) + rest) == Done(s, rest)
    decreases |s|
  {
    if s == [] {
      assert ([QUOTE] + rest)[1..] == rest;
    } else if |s| >= 2 && IsHigh(s[0]) && IsLow(s[1]) {
      StringRoundTrip(s[2..], rest);
      PairStep(s[0], s[1], QuoteRest(s[2..]) + rest, s[2..], rest);
      Regroup([s[0], s[1]], QuoteRest(s[2..]), rest);
      assert s == [s[0], s[1]] + s[2..];
    } else {
      StringRoundTrip(s[1..], rest);
      EscapedStep(s[0], QuoteRest(s[1..]) + rest, s[1..], rest);
      Regroup(EscapeUnit(s[0]), QuoteRest(s[1..]), rest);
      assert s == [s[0]] + s[1..];
    }
  }

  lemma {:induction false} Regroup(a: Units, b: Units, c: Units)
    ensures (a + b) + c == a + (b + c)
  {
  }

  /** Text that cannot be mistaken for more digits of a number in front of it. */
  predicate Delimited(rest: Units) { rest == [] || !IsDigit(rest[0]) }

  lemma {:induction false} DigitsRoundTrip(n: nat, acc: nat, rest: Units)
    requires Delimited(rest)
    ensures ParseDigits(Digits(n) + rest, acc) == Done(acc * Power(10, |Digits(n)|) + n, rest)
  {
    DigitsThen(n, acc, rest);
  }

  lemma {:induction false} DigitStep(d: nat, rest: Units, acc: nat)
    requires d < 10
    ensures ParseDigits([ZERO + d] + rest, acc) == ParseDigits(rest, acc * 10 + d)
  {
    var t := [ZERO + d] + rest;
    assert t[0] == ZERO + d && t[1..] == rest;
  }

  lemma {:induction false} ShiftIn(acc: nat, p: nat, n: nat)
    ensures (acc * p + n / 10) * 10 + n % 10 == acc * (10 * p) + n
  {
    assert acc * (10 * p) == (acc * p) * 10;
  }

  lemma {:induction false} DigitsThen(n: nat, acc: nat, rest: Units)
    ensures ParseDigits(Digits(n) + rest, acc) == ParseDigits(rest, acc * Power(10, |Digits(n)|) + n)
    decreases n
  {
    if n < 10 {
      DigitStep(n, rest, acc);
      assert Power(10, 1) == 10 * Power(10, 0);
    } else {
      var front := Digits(n / 10);
      var last := [ZERO + n % 10];
      var p := Power(10, |front|);
      DigitsThen(n / 10, acc, last + rest);
      Regroup(front, last, rest);
      DigitStep(n % 10, rest, acc * p + n / 10);
      ShiftIn(acc, p, n);
      assert Power(10, |front| + 1) == 10 * p;
    }
  }

  lemma {:induction false} NumberRoundTrip(n: int, rest: Units)
    requires Delimited(rest)
    ensures ParseValue(Decimal(n) + rest) == Done(Num(n), rest)
  {
    var t := Decimal(n) + rest;
    if n < 0 {
      DigitsRoundTrip(-n, 0, rest);
      assert t[1..] == Digits(-n) + rest;
      NegativeStep(t, -n, rest);
    } else {
      DigitsRoundTrip(n, 0, rest);
      NaturalStep(t, n, rest);
    }
  }

  lemma {:induction false} NegativeStep(t: Units, n: int, rest: Units)
    requires n >= 0 && t != [] && t[0] == MINUS && ParseDigits(t[1..], 0) == Done(n, rest)
    ensures ParseValue(t) == Done(Num(-n), rest)
  {
  }

  lemma {:induction false} NaturalStep(t: Units, n: nat, rest: Units)
    requires t != [] && IsDigit(t[0]) && ParseDigits(t, 0) == Done(n, rest)
    ensures ParseValue(t) == Done(Num(n), rest)
  {
  }

  lemma {:induction false} ItemsEnd(t: Units, x: Json<Units>, after: Units)
    requires after != [] && after[0] == CLOSE_ARR && ParseValue(t) == Done(x, after)
    ensures ParseItems(t) == Done([x], after[1..])
  {
  }

  lemma {:induction false} ItemsStep(t: Units, x: Json<Units>, after: Units, more: seq<Json<Units>>, rest: Units)
    requires after != [] && after[0] == COMMA && ParseValue(t) == Done(x, after)
    requires ParseItems(after[1..]) == Done(more, rest)
    ensures ParseItems(t) == Done([x] + more, rest)
  {
  }

  lemma {:induction false} LastItem(x: Json<Units>, rest: Units)
    ensures ParseItems(Print(x) + ([CLOSE_ARR] + rest)) == Done([x], rest)
    decreases x, 2
  {
    var after := [CLOSE_ARR] + rest;
    assert after[1..] == rest;
    ValueRoundTrip(x, after);
    ItemsEnd(Print(x) + after, x, after);
  }

  lemma {:induction false} FirstItem(x: Json<Units>, text: Units, more: seq<Json<Units>>, rest: Units)
    requires ParseItems(text) == Done(more, rest)
    ensures ParseItems(Print(x) + ([COMMA] + text)) == Done([x] + more, rest)
    decreases x, 2
  {
    var after := [COMMA] + text;
    assert after[1..] == text;
    ValueRoundTrip(x, after);
    ItemsStep(Print(x) + after, x, after, more, rest);
  }

  lemma {:induction false} ItemsRoundTrip(items: seq<Json<Units>>, rest: Units)
    requires items != []
    ensures ParseItems(PrintItems(items) + rest) == Done(items, rest)
    decreases items, 0
  {
    if |items| == 1 {
      LastItem(items[0], rest);
      Regroup(Print(items[0]), [CLOSE_ARR], rest);
      assert items == [items[0]];
    } else {
      var more := PrintItems(items[1..]);
      ItemsRoundTrip(items[1..], rest);
      FirstItem(items[0], more + rest, items[1..], rest);
      Regroup(Print(items[0]), [COMMA] + more, rest);
      Regroup([COMMA], more, rest);
      assert items == [items[0]] + items[1..];
    }
  }

  lemma {:induction false} MemberStep(t: Units, key: Units, afterKey: Units, value: Json<Units>, rest: Units)
    requires t != [] && t[0] == QUOTE && ParseRest(t[1..]) == Done(key, afterKey)
    requires afterKey != [] && afterKey[0] == COLON && ParseValue(afterKey[1..]) == Done(value, rest)
    ensures ParseMember(t) == Done(Member(key, value), rest)
  {
  }

  lemma {:induction false} MemberRoundTrip(m: Member<Units>, rest: Units)
    requires Delimited(rest)
    ensures ParseMember(PrintMember(m) + rest) == Done(m, rest)
    decreases m, 2
  {
    var t := PrintMember(m) + rest;
    var value := Print(m.value);
    var after := [COLON] + (value + rest);
    MemberPieces(QuoteRest(m.key), value, rest);
    StringRoundTrip(m.key, after);
    ValueRoundTrip(m.value, rest);
    MemberStep(t, m.key, after, m.value, rest);
  }

  lemma {:induction false} MemberPieces(key: Units, value: Units, rest: Units)
    ensures (([QUOTE] + key + [COLON] + value) + rest)[0] == QUOTE
    ensures (([QUOTE] + key + [COLON] + value) + rest)[1..] == key + ([COLON] + (value + rest))
    ensures ([COLON] + (value + rest))[1..] == value + rest
  {
  }

  lemma {:induction false} MembersEnd(t: Units, m: Member<Units>, after: Units)
    requires after != [] && after[0] == CLOSE_OBJ && ParseMember(t) == Done(m, after)
    ensures ParseMembers(t) == Done([m], after[1..])
  {
  }

  lemma {:induction false} MembersStep(t: Units, m: Member<Units>, after: Units, more: seq<Member<Units>>, rest: Units)
    requires after != [] && after[0] == COMMA && ParseMember(t) == Done(m, after)
    requires ParseMembers(after[1..]) == Done(more, rest)
    ensures ParseMembers(t) == Done([m] + more, rest)
  {
  }

  lemma {:induction false} LastMember(m: Member<Units>, rest: Units)
    ensures ParseMembers(PrintMember(m) + ([CLOSE_OBJ] + rest)) == Done([m], rest)
    decreases m, 3
  {
    var after := [CLOSE_OBJ] + rest;
    assert after[1..] == rest;
    MemberRoundTrip(m, after);
    MembersEnd(PrintMember(m) + after, m, after);
  }

  lemma {:induction false} FirstMember(m: Member<Units>, text: Units, more: seq<Member<Units>>, rest: Units)
    requires ParseMembers(text) == Done(more, rest)
    ensures ParseMembers(PrintMember(m) + ([COMMA] + text)) == Done([m] + more, rest)
    decreases m, 3
  {
    var after := [COMMA] + text;
    assert after[1..] == text;
    MemberRoundTrip(m, after);
    MembersStep(PrintMember(m) + after, m, after, more, rest);
  }

  lemma {:induction false} MembersRoundTrip(members: seq<Member<Units>>, rest: Units)
    requires members != []
    ensures ParseMembers(PrintMembers(members) + rest) == Done(members, rest)
    decreases members, 0
  {
    if |members| == 1 {
      LastMember(members[0], rest);
      Regroup(PrintMember(members[0]), [CLOSE_OBJ], rest);
      assert members == [members[0]];
    } else {
      var more := PrintMembers(members[1..]);
      MembersRoundTrip(members[1..], rest);
      FirstMember(members[0], more + rest, members[1..], rest);
      Regroup(PrintMember(members[0]), [COMMA] + more, rest);
      Regroup([COMMA], more, rest);
      assert members == [members[0]] + members[1..];
    }
  }

  /** What a value's text starts with: never a closing bracket. */
  lemma {:induction false} PrintStart(v: Json<Units>)
    ensures Print(v)[0] != CLOSE_ARR && Print(v)[0] != CLOSE_OBJ
  {
  }

  lemma {:induction false} ArrayStep(t: Units, items: seq<Json<Units>>, rest: Units)
    requires |t| > 1 && t[0] == OPEN_ARR && t[1] != CLOSE_ARR && ParseItems(t[1..]) == Done(items, rest)
    ensures ParseValue(t) == Done(Arr(items), rest)
  {
  }

  lemma {:induction false} ObjectStep(t: Units, members: seq<Member<Units>>, rest: Units)
    requires |t| > 1 && t[0] == OPEN_OBJ && t[1] != CLOSE_OBJ && ParseMembers(t[1..]) == Done(members, rest)
    ensures ParseValue(t) == Done(Obj(members), rest)
  {
  }

  lemma {:induction false} ArrayRoundTrip(items: seq<Json<Units>>, rest: Units)
    ensures ParseValue(Print(Arr(items)) + rest) == Done(Arr(items), rest)
    decreases items, 1
  {
    var t := Print(Arr(items)) + rest;
    if items == [] {
      assert t[0] == OPEN_ARR && t[1] == CLOSE_ARR && t[2..] == rest;
    } else {
      assert t[1..] == PrintItems(items) + rest;
      assert t[1] == Print(items[0])[0];
      PrintStart(items[0]);
      ItemsRoundTrip(items, rest);
      ArrayStep(t, items, rest);
    }
  }

  lemma {:induction false} ObjectRoundTrip(members: seq<Member<Units>>, rest: Units)
    ensures ParseValue(Print(Obj(members)) + rest) == Done(Obj(members), rest)
    decreases members, 1
  {
    var t := Print(Obj(members)) + rest;
    if members == [] {
      assert t[0] == OPEN_OBJ && t[1] == CLOSE_OBJ && t[2..] == rest;
    } else {
      assert t[1..] == PrintMembers(members) + rest;
      MembersRoundTrip(members, rest);
      ObjectStep(t, members, rest);
    }
  }

  lemma {:induction false} StringStep(t: Units, s: Units, rest: Units)
    requires t != [] && t[0] == QUOTE && ParseRest(t[1..]) == Done(s, rest)
    ensures ParseValue(t) == Done(Str(s), rest)
  {
  }

  /**
   The parser inverts the printer in front of any text that does not go on with a digit; numbers
   are not prefix-free, so without that condition 1 followed by 2 would read as 12.
   */
  lemma {:induction false} ValueRoundTrip(v: Json<Units>, rest: Units)
    requires Delimited(rest)
    ensures ParseValue(Print(v) + rest) == Done(v, rest)
    decreases v, 1
  {
    var t := Print(v) + rest;
    match v
    case Null => assert t[4..] == rest;
    case Bool(b) =>
      assert t[0] == Print(v)[0] && t[..|Print(v)|] == Print(v) && t[|Print(v)|..] == rest;
    case Num(n) => NumberRoundTrip(n, rest);
    case Str(s) =>
      assert t[1..] == QuoteRest(s) + rest;
      StringRoundTrip(s, rest);
      StringStep(t, s, rest);
    case Arr(items) => ArrayRoundTrip(items, rest);
    case Obj(members) => ObjectRoundTrip(members, rest);
  }

  // ------------------------------------------------------------ what the text decides

  /** Parsing a canonical text gives back the value with its members sorted. */
  lemma {:induction false} CanonicalRoundTrip(v: Json<Units>)
    ensures ParseValue(Canonical(v)) == Done(Canon(v), [])
  {
    ValueRoundTrip(Canon(v), []);
    assert Canonical(v) + [] == Canonical(v);
  }

  /** Two values have one text exactly when they are equal up to member order. */
  lemma {:induction false} SameTextIff(v: Json<Units>, w: Json<Units>)
    requires UniqueKeys(v) && UniqueKeys(w)
    ensures Canonical(v) == Canonical(w) <==> Alike(v, w)
  {
    CanonicalRoundTrip(v);
    CanonicalRoundTrip(w);
    CanonDecidesAlike(v, w);
  }

  /** A value that is no number is read back whatever follows it. */
  lemma {:induction false} ClosedRoundTrip(v: Json<Units>, rest: Units)
    requires !v.Num?
    ensures ParseValue(Print(v) + rest) == Done(v, rest)
  {
    var t := Print(v) + rest;
    match v
    case Null => assert t[4..] == rest;
    case Bool(b) =>
      assert t[0] == Print(v)[0] && t[..|Print(v)|] == Print(v) && t[|Print(v)|..] == rest;
    case Str(s) =>
      assert t[1..] == QuoteRest(s) + rest;
      StringRoundTrip(s, rest);
      StringStep(t, s, rest);
    case Arr(items) => ArrayRoundTrip(items, rest);
    case Obj(members) => ObjectRoundTrip(members, rest);
  }

  /** No text of a value is a proper beginning of another's, except a number's when a digit comes next. */
  lemma {:induction false} PrefixFree(v: Json<Units>, w: Json<Units>, rest: Units)
    requires Print(w) == Print(v) + rest && (v.Num? ==> Delimited(rest))
    ensures v == w && rest == []
  {
    if v.Num? {
      ValueRoundTrip(v, rest);
    } else {
      ClosedRoundTrip(v, rest);
    }
    ValueRoundTrip(w, []);
    assert Print(w) + [] == Print(w);
  }

  /** The exception is one: the text of 1 begins the text of 12. */
  lemma {:induction false} NumbersAreNotPrefixFree()
    ensures Print(Num(12)) == Print(Num(1)) + [ZERO + 2]
  {
    assert Digits(12) == Digits(1) + [ZERO + 2];
  }

  /** What a canonical text says: the value it was made of, all of it, with the keys of every object in order. */
  lemma {:induction false} TextMeans(v: Json<Units>)
    requires UniqueKeys(v)
    ensures var r := ParseValue(Canonical(v));
      r.Done? && r.rest == [] && Alike(v, r.value) && KeysInOrder(r.value)
  {
    CanonicalRoundTrip(v);
    CanonKeeps(v);
    CanonInOrder(v);
  }

  // ------------------------------------------------------------ texts spelt out

  /** The code units of ASCII text. */
  function Ascii(s: string): Units
    requires forall i :: 0 <= i < |s| ==> s[i] as int < 0x80
  {
    seq(|s|, i requires 0 <= i < |s| => s[i] as int)
  }

  lemma {:induction false} WordsSpeltOut()
    ensures Print(Null) == Ascii("null") && Print(Bool(true)) == Ascii("true") && Print(Bool(false)) == Ascii("false")
    ensures Print(Arr([])) == Ascii("[]") && Print(Obj([])) == Ascii("{}")
  {
  }

  lemma {:induction false} NumbersSpeltOut()
    ensures Decimal(0) == Ascii("0") && Decimal(7) == Ascii("7") && Decimal(-120) == Ascii("-120")
  {
    assert Digits(12) == Digits(1) + [ZERO + 2];
    assert Digits(120) == Digits(12) + [ZERO];
  }

  /** An array's text is its items' texts with a comma between two of them. */
  lemma {:induction false} ArraysSpeltOut(a: Json<Units>, b: Json<Units>)
    ensures Print(Arr([a])) == Ascii("[") + (Print(a) + Ascii("]"))
    ensures Print(Arr([a, b])) == Ascii("[") + (Print(a) + (Ascii(",") + (Print(b) + Ascii("]"))))
  {
    assert [a, b][1..] == [b];
    assert Ascii("[") == [OPEN_ARR] && Ascii("]") == [CLOSE_ARR] && Ascii(",") == [COMMA];
    assert PrintItems([b]) == Print(b) + [CLOSE_ARR];
    assert PrintItems([a, b]) == Print(a) + ([COMMA] + PrintItems([b]));
  }

  /** A member's text is its quoted key, a colon and its value's text. */
  lemma {:induction false} MembersSpeltOut(k: Units, a: Json<Units>)
    ensures PrintMember(Member(k, a)) == Print(Str(k)) + Ascii(":") + Print(a)
  {
    assert Ascii(":") == [COLON];
  }

  /** An object's text is its members' texts with a comma between two of them. */
  lemma {:induction false} ObjectsSpeltOut(m: Member<Units>, n: Member<Units>)
    ensures Print(Obj([m])) == Ascii("{") + (PrintMember(m) + Ascii("}"))
    ensures Print(Obj([m, n])) == Ascii("{") + (PrintMember(m) + (Ascii(",") + (PrintMember(n) + Ascii("}"))))
  {
    assert [m, n][1..] == [n];
    assert Ascii("{") == [OPEN_OBJ] && Ascii("}") == [CLOSE_OBJ] && Ascii(",") == [COMMA];
    assert PrintMembers([n]) == PrintMember(n) + [CLOSE_OBJ];
    assert PrintMembers([m, n]) == PrintMember(m) + ([COMMA] + PrintMembers([n]));
  }

  /** A plain string stands between quotes. */
  lemma {:induction false} QuotesSpeltOut(u: Unit)
    requires 0x20 <= u && u != 0x22 && u != 0x5C && !(0xD800 <= u < 0xE000)
    ensures Print(Str([])) == [0x22, 0x22] && Print(Str([u])) == [0x22, u, 0x22]
  {
    assert [u][1..] == [];
  }

  /** The two halves of a surrogate pair stand side by side; every other unit is written by itself. */
  lemma {:induction false} PairsSpeltOut(u: Unit, s: Units)
    requires s != []
    ensures QuoteRest([u] + s) ==
      if 0xD800 <= u <= 0xDBFF && 0xDC00 <= s[0] <= 0xDFFF then [u, s[0]] + QuoteRest(s[1..])
      else EscapeUnit(u) + QuoteRest(s)
  {
    var text := [u] + s;
    assert text[1..] == s && text[2..] == s[1..];
  }

  /** The escapes: two characters where JSON has such a form, four lower-case digits for other controls, else none. */
  lemma {:induction false} ShortEscapesSpeltOut()
    ensures EscapeUnit(0x22) == Ascii("\\\"") && EscapeUnit(0x5C) == Ascii("\\\\")
    ensures EscapeUnit(0x08) == Ascii("\\b") && EscapeUnit(0x0C) == Ascii("\\f") && EscapeUnit(0x0A) == Ascii("\\n")
    ensures EscapeUnit(0x0D) == Ascii("\\r") && EscapeUnit(0x09) == Ascii("\\t")
  {
  }

  lemma {:induction false} LongEscapesSpeltOut(u: Unit)
    ensures EscapeUnit(0x1F) == Ascii("\\u001f") && EscapeUnit(0xD83D) == Ascii("\\ud83d")
    ensures 0x20 <= u && u != 0x22 && u != 0x5C && !(0xD800 <= u < 0xE000) ==> EscapeUnit(u) == [u]
    ensures u < 0x20 && u !in {8, 9, 10, 12, 13} ==> |EscapeUnit(u)| == 6
    ensures 0xD800 <= u < 0xE000 ==> |EscapeUnit(u)| == 6
  {
  }
}

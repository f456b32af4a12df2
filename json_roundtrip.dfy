/**
 * `json.dumps` loses nothing: decoding the text it writes gives back the
 * value, for every value, whatever the characters of its strings are.
 */
module JsonRoundTrip {
  import opened Wrappers
  import opened Json
  import opened JsonText
  import opened JsonParse
  import Runs

  /** The text after a number: it cannot continue the number's digits. */
  predicate Delimited(rest: string) {
    rest == [] || !IsDigit(rest[0])
  }

  lemma {:induction false} HexDigitValue(d: nat)
    requires d < 16
    ensures HexValue(HexDigit(d)) == Some(d)
  {
  }

  lemma {:induction false} Hex4RoundTrip(n: nat)
    requires n < 0x10000
    ensures ParseHex4(Hex4(n)) == Some(n)
  {
    var hi, lo := n / 0x100, n % 0x100;
    var t := Hex4(n);
    assert t[..2] == Hex2(hi) && t[2..] == Hex2(lo);
    HexDigitValue(hi / 16);
    HexDigitValue(hi % 16);
    HexDigitValue(lo / 16);
    HexDigitValue(lo % 16);
  }

  lemma {:induction false} SkipWsNoop(s: string)
    requires s == [] || !IsWs(s[0])
    ensures SkipWs(s) == s
  {
  }

  lemma {:induction false} SkipWsSpace(s: string)
    ensures SkipWs([' '] + s) == SkipWs(s)
  {
    var k := Runs.RunLength(s, IsWs);
    assert ([' '] + s)[1..] == s;
    assert Runs.RunLength([' '] + s, IsWs) == 1 + k;
    assert ([' '] + s)[1 + k..] == s[k..];
  }

  lemma {:induction false} ParseValueSpace(s: string)
    ensures ParseValue([' '] + s) == ParseValue(s)
  {
    SkipWsSpace(s);
  }

  lemma {:induction false} ParseItemsSpace(s: string)
    ensures ParseItems([' '] + s) == ParseItems(s)
  {
    ParseValueSpace(s);
  }

  lemma {:induction false} ParseMembersSpace(s: string)
    ensures ParseMembers([' '] + s) == ParseMembers(s)
  {
    SkipWsSpace(s);
  }

  /** A `\uXXXX` escape of a code unit that is not a surrogate decodes to
      that character. */
  lemma {:induction false} UEscapeStep(c: char, more: string)
    requires c as int < 0x10000
    ensures ParseChars(UEscape(c as int) + more) == Prepend(c, ParseChars(more))
  {
    var n := c as int;
    var s := UEscape(n) + more;
    var u := s[1..];
    assert u == ['u'] + Hex4(n) + more;
    assert u[1..5] == Hex4(n);
    Hex4RoundTrip(n);
    assert u[5..] == more;
  }

  /** The text after the backslash of a surrogate-pair escape decodes to the
      character the pair stands for. */
  lemma {:induction false} UnescapePair(u: string, hi: nat, lo: nat)
    requires 0xD800 <= hi < 0xDC00 && 0xDC00 <= lo < 0xE000
    requires |u| >= 11 && u[0] == 'u' && u[5] == '\\' && u[6] == 'u'
    requires u[1..5] == Hex4(hi) && u[7..11] == Hex4(lo)
    ensures Unescape(u) == Some(((0x10000 + (hi - 0xD800) * 0x400 + (lo - 0xDC00)) as char, u[11..]))
  {
    Hex4RoundTrip(hi);
    Hex4RoundTrip(lo);
  }

  /** The two halves of a surrogate pair, and the character they recombine to. */
  lemma {:induction false} SurrogateHalves(n: int, hi: int, lo: int)
    requires 0x10000 <= n < 0x110000
    requires hi == 0xD800 + (n - 0x10000) / 0x400 && lo == 0xDC00 + (n - 0x10000) % 0x400
    ensures 0xD800 <= hi < 0xDC00 && 0xDC00 <= lo < 0xE000
    ensures 0x10000 + (hi - 0xD800) * 0x400 + (lo - 0xDC00) == n
  {
  }

  /** A character beyond the Basic Multilingual Plane, written as a surrogate
      pair, decodes to that character. */
  lemma {:induction false} SurrogatePairStep(c: char, more: string)
    requires c as int >= 0x10000
    ensures ParseChars(EscapeChar(c) + more) == Prepend(c, ParseChars(more))
  {
    var n := c as int;
    var hi, lo := 0xD800 + (n - 0x10000) / 0x400, 0xDC00 + (n - 0x10000) % 0x400;
    SurrogateHalves(n, hi, lo);
    var s := EscapeChar(c) + more;
    var u := s[1..];
    assert s[0] == '\\' && u == ['u'] + Hex4(hi) + ['\\', 'u'] + Hex4(lo) + more by {
      assert EscapeChar(c) == UEscape(hi) + UEscape(lo);
    }
    assert |u| >= 11 && u[0] == 'u' && u[5] == '\\' && u[6] == 'u';
    assert u[1..5] == Hex4(hi) && u[7..11] == Hex4(lo) && u[11..] == more;
    UnescapePair(u, hi, lo);
  }

  /** Decoding the escape of one character yields that character and
      continues right after the escape. */
  lemma {:induction false} EscapeCharStep(c: char, more: string)
    ensures ParseChars(EscapeChar(c) + more) == Prepend(c, ParseChars(more))
  {
    var n := c as int;
    var s := EscapeChar(c) + more;
    if c == '"' || c == '\\' || n == 0x08 || n == 0x0C || c == '\n' || c == '\r' || c == '\t' {
      assert s[1..] == [EscapeChar(c)[1]] + more;
      assert s[1..][1..] == more;
    } else if n < 0x20 || 0x7F <= n < 0x10000 {
      UEscapeStep(c, more);
    } else if n < 0x7F {
      assert s[1..] == more;
    } else {
      SurrogatePairStep(c, more);
    }
  }

  /** A string literal's body decodes to the string, whatever follows it. */
  lemma {:induction false} EscapeRoundTrip(str: string, rest: string)
    ensures ParseChars(Escape(str) + ['"'] + rest) == Some((str, rest))
    decreases |str|
  {
    if str == [] {
      assert Escape(str) + ['"'] + rest == ['"'] + rest;
    } else {
      var more := Escape(str[1..]) + ['"'] + rest;
      assert Escape(str) + ['"'] + rest == EscapeChar(str[0]) + more;
      EscapeCharStep(str[0], more);
      EscapeRoundTrip(str[1..], rest);
      assert [str[0]] + str[1..] == str;
    }
  }

  lemma {:induction false} DigitsRoundTrip(n: nat)
    ensures DigitsValue(Digits(n)) == n
    decreases n
  {
    var t := Digits(n);
    if n < 10 {
      assert t[..0] == [];
    } else {
      DigitsRoundTrip(n / 10);
      assert t[..|t| - 1] == Digits(n / 10);
    }
  }

  lemma {:induction false} NaturalRoundTrip(k: nat, rest: string)
    requires Delimited(rest)
    ensures ParseNatural(Digits(k) + rest) == Some((k, rest))
  {
    var t := Digits(k);
    var s := t + rest;
    if t[0] != '0' {
      Runs.RunLengthOfPrefix(t, rest, IsDigit);
      assert s[..|t|] == t && s[|t|..] == rest;
      DigitsRoundTrip(k);
    } else {
      assert s[1..] == rest;
    }
  }

  lemma {:induction false} NumberRoundTrip(n: int, rest: string)
    requires Delimited(rest)
    ensures ParseNumber(IntText(n) + rest) == Some((n, rest))
  {
    var k: nat := if n < 0 then -n else n;
    var s := Digits(k) + rest;
    NaturalRoundTrip(k, rest);
    if n < 0 {
      var w := ['-'] + s;
      assert IntText(n) + rest == w;
      assert w[0] == '-' && w[1..] == s;
    } else {
      assert IntText(n) + rest == s;
      assert s[0] != '-';
    }
  }


  lemma {:induction false} ValueAtArray(s: string)
    requires s != [] && s[0] == '['
    ensures ParseValue(s) == ParseArray(s[1..])
  {
    SkipWsNoop(s);
  }

  lemma {:induction false} ValueAtObject(s: string)
    requires s != [] && s[0] == '{'
    ensures ParseValue(s) == ParseObject(s[1..])
  {
    SkipWsNoop(s);
  }

  lemma {:induction false} ValueAtString(s: string)
    requires s != [] && s[0] == '"'
    ensures ParseChars(s[1..]).Some? ==>
      ParseValue(s) == Some((Str(ParseChars(s[1..]).value.0), ParseChars(s[1..]).value.1))
  {
    SkipWsNoop(s);
  }

  lemma {:induction false} ValueAtNumber(s: string, n: int, rest: string)
    requires s != [] && (s[0] == '-' || IsDigit(s[0]))
    requires ParseNumber(s) == Some((n, rest))
    ensures ParseValue(s) == Some((Num(n), rest))
  {
    SkipWsNoop(s);
    assert s[0] != 'n' && s[0] != 't' && s[0] != 'f' && s[0] != '"' && s[0] != '[' && s[0] != '{';
  }

  lemma {:induction false} ArrayAtClose(s: string)
    requires s != [] && s[0] == ']'
    ensures ParseArray(s) == Some((Arr([]), s[1..]))
  {
    SkipWsNoop(s);
  }

  lemma {:induction false} ArrayAtItem(s: string, items: seq<Value>, rest: string)
    requires s != [] && !IsWs(s[0]) && s[0] != ']'
    requires ParseItems(s) == Some((items, rest))
    ensures ParseArray(s) == Some((Arr(items), rest))
  {
    SkipWsNoop(s);
  }

  lemma {:induction false} ObjectAtClose(s: string)
    requires s != [] && s[0] == '}'
    ensures ParseObject(s) == Some((Obj([]), s[1..]))
  {
    SkipWsNoop(s);
  }

  lemma {:induction false} ObjectAtMember(s: string, members: seq<Member>, rest: string)
    requires s != [] && !IsWs(s[0]) && s[0] != '}'
    requires ParseMembers(s) == Some((members, rest))
    ensures ParseObject(s) == Some((Obj(members), rest))
  {
    SkipWsNoop(s);
  }

  /** A list's text: the opening bracket, then items the items parser reads. */
  lemma {:induction false} ArrayValue(s: string, body: string, items: seq<Value>, rest: string)
    requires s == ['['] + body && body != [] && !IsWs(body[0]) && body[0] != ']'
    requires ParseItems(body) == Some((items, rest))
    ensures ParseValue(s) == Some((Arr(items), rest))
  {
    assert s[0] == '[' && s[1..] == body;
    ValueAtArray(s);
    ArrayAtItem(body, items, rest);
  }

  /** An object's text: the opening brace, then members the members parser
      reads. */
  lemma {:induction false} ObjectValue(s: string, body: string, members: seq<Member>, rest: string)
    requires s == ['{'] + body && body != [] && !IsWs(body[0]) && body[0] != '}'
    requires ParseMembers(body) == Some((members, rest))
    ensures ParseValue(s) == Some((Obj(members), rest))
  {
    assert s[0] == '{' && s[1..] == body;
    ValueAtObject(s);
    ObjectAtMember(body, members, rest);
  }

  lemma {:induction false} ItemsLast(s: string, v: Value, rest: string)
    requires ParseValue(s) == Some((v, [']'] + rest))
    ensures ParseItems(s) == Some(([v], rest))
  {
    var w := [']'] + rest;
    SkipWsNoop(w);
    assert w[0] == ']' && w[1..] == rest;
  }

  lemma {:induction false} ItemsNext(s: string, v: Value, tail: string, vs: seq<Value>, rest: string)
    requires ParseValue(s) == Some((v, [','] + tail))
    requires ParseItems(tail) == Some((vs, rest))
    ensures ParseItems(s) == Some(([v] + vs, rest))
  {
    var w := [','] + tail;
    SkipWsNoop(w);
    assert w[0] == ',' && w[1..] == tail;
  }

  lemma {:induction false} MembersLast(s: string, key: string, r1: string, v: Value, rest: string)
    requires s != [] && s[0] == '"'
    requires ParseChars(s[1..]) == Some((key, [':'] + r1))
    requires ParseValue(r1) == Some((v, ['}'] + rest))
    ensures ParseMembers(s) == Some(([Member(key, v)], rest))
  {
    SkipWsNoop(s);
    SkipWsNoop([':'] + r1);
    assert ([':'] + r1)[1..] == r1;
    SkipWsNoop(['}'] + rest);
    assert (['}'] + rest)[1..] == rest;
  }

  lemma {:induction false} MembersNext(s: string, key: string, u: string, v: Value, w: string, ms: seq<Member>, rest: string)
    requires s != [] && s[0] == '"'
    requires ParseChars(s[1..]) == Some((key, u))
    requires u != [] && u[0] == ':' && ParseValue(u[1..]) == Some((v, w))
    requires w != [] && w[0] == ',' && ParseMembers(w[1..]) == Some((ms, rest))
    ensures ParseMembers(s) == Some(([Member(key, v)] + ms, rest))
  {
    SkipWsNoop(s);
    SkipWsNoop(u);
    SkipWsNoop(w);
  }

  lemma {:induction false} LiteralRoundTrip(v: Value, rest: string)
    requires v.Null? || v.Bool?
    ensures ParseValue(Dumps(v) + rest) == Some((v, rest))
  {
    var s := Dumps(v) + rest;
    SkipWsNoop(s);
    var w := Dumps(v);
    assert s[..|w|] == w && s[|w|..] == rest;
  }

  lemma {:induction false} NumRoundTrip(n: int, rest: string)
    requires Delimited(rest)
    ensures ParseValue(Dumps(Num(n)) + rest) == Some((Num(n), rest))
  {
    var s := IntText(n) + rest;
    assert Dumps(Num(n)) == IntText(n);
    NumberRoundTrip(n, rest);
    ValueAtNumber(s, n, rest);
  }

  lemma {:induction false} StrRoundTrip(str: string, rest: string)
    ensures ParseValue(Dumps(Str(str)) + rest) == Some((Str(str), rest))
  {
    var s := Quote(str) + rest;
    assert Dumps(Str(str)) == Quote(str);
    assert s[1..] == Escape(str) + ['"'] + rest;
    EscapeRoundTrip(str, rest);
    ValueAtString(s);
  }

  /** Decoding the text of a value yields the value and continues right after
      it. */
  lemma {:induction false} ValueRoundTrip(v: Value, rest: string)
    requires Delimited(rest)
    ensures ParseValue(Dumps(v) + rest) == Some((v, rest))
    decreases v, 1
  {
    match v
    case Null => LiteralRoundTrip(v, rest);
    case Bool(_) => LiteralRoundTrip(v, rest);
    case Num(n) => NumRoundTrip(n, rest);
    case Str(str) => StrRoundTrip(str, rest);
    case Arr(items) => ArrRoundTrip(items, rest);
    case Obj(members) => ObjRoundTrip(members, rest);
  }

  lemma {:induction false} EmptyArrRoundTrip(rest: string)
    ensures ParseValue(Dumps(Arr([])) + rest) == Some((Arr([]), rest))
  {
    var s := Dumps(Arr([])) + rest;
    assert s == ['[', ']'] + rest;
    ValueAtArray(s);
    assert s[1..] == [']'] + rest;
    ArrayAtClose(s[1..]);
    assert s[1..][1..] == rest;
  }

  lemma {:induction false} ArrRoundTrip(items: seq<Value>, rest: string)
    ensures ParseValue(Dumps(Arr(items)) + rest) == Some((Arr(items), rest))
    decreases items, 2
  {
    var s := Dumps(Arr(items)) + rest;
    if items == [] {
      EmptyArrRoundTrip(rest);
    } else {
      var body := DumpItems(items) + [']'] + rest;
      assert s == ['['] + body by {
        assert Dumps(Arr(items)) == ['['] + DumpItems(items) + [']'];
      }
      assert ParseItems(body) == Some((items, rest)) by {
        ItemsRoundTrip(items, rest);
      }
      ArrayValue(s, body, items, rest);
    }
  }

  lemma {:induction false} EmptyObjRoundTrip(rest: string)
    ensures ParseValue(Dumps(Obj([])) + rest) == Some((Obj([]), rest))
  {
    var s := Dumps(Obj([])) + rest;
    assert s == ['{', '}'] + rest;
    ValueAtObject(s);
    assert s[1..] == ['}'] + rest;
    ObjectAtClose(s[1..]);
    assert s[1..][1..] == rest;
  }

  lemma {:induction false} ObjRoundTrip(members: seq<Member>, rest: string)
    ensures ParseValue(Dumps(Obj(members)) + rest) == Some((Obj(members), rest))
    decreases members, 2
  {
    var s := Dumps(Obj(members)) + rest;
    if members == [] {
      EmptyObjRoundTrip(rest);
    } else {
      var body := DumpMembers(members) + ['}'] + rest;
      assert s == ['{'] + body by {
        assert Dumps(Obj(members)) == ['{'] + DumpMembers(members) + ['}'];
      }
      assert ParseMembers(body) == Some((members, rest)) by {
        MembersRoundTrip(members, rest);
      }
      ObjectValue(s, body, members, rest);
    }
  }

  lemma {:induction false} Assoc<T>(a: seq<T>, b: seq<T>, c: seq<T>)
    ensures a + b + c == a + (b + c)
  {
  }

  lemma {:induction false} ItemsUnfold(items: seq<Value>)
    requires |items| > 1
    ensures DumpItems(items) == Dumps(items[0]) + [',', ' '] + DumpItems(items[1..])
  {
  }

  lemma {:induction false} ItemsShape(a: string, b: string, rest: string)
    ensures a + [',', ' '] + b + [']'] + rest == a + ([','] + ([' '] + (b + [']'] + rest)))
  {
    Assoc(a, [',', ' '], b);
    Assoc(a, [',', ' '] + b, [']'] + rest);
    assert [',', ' '] == [','] + [' '];
    Assoc([','], [' '], b + [']'] + rest);
  }

  /** The text of a list's items, split after its first item. */
  lemma {:induction false} ItemsText(items: seq<Value>, rest: string)
    requires items != []
    ensures |items| == 1 ==>
      DumpItems(items) + [']'] + rest == Dumps(items[0]) + ([']'] + rest)
    ensures |items| > 1 ==>
      DumpItems(items) + [']'] + rest
      == Dumps(items[0]) + ([','] + ([' '] + (DumpItems(items[1..]) + [']'] + rest)))
  {
    if |items| == 1 {
      var a := Dumps(items[0]);
      assert DumpItems(items) == a;
      Assoc(a, [']'], rest);
    } else {
      ItemsUnfold(items);
      ItemsShape(Dumps(items[0]), DumpItems(items[1..]), rest);
    }
  }

  lemma {:induction false} MembersUnfold(members: seq<Member>)
    requires members != []
    ensures var q := Quote(members[0].key) + [':', ' '] + Dumps(members[0].value);
      DumpMembers(members) == if |members| == 1 then q else q + [',', ' '] + DumpMembers(members[1..])
  {
  }

  lemma {:induction false} MemberShape(e: string, d: string, after: string)
    ensures var s := ['"'] + e + ['"'] + [':', ' '] + d + after;
      s[0] == '"' && s[1..] == e + ['"'] + ([':'] + ([' '] + (d + after)))
  {
    var s := ['"'] + e + ['"'] + [':', ' '] + d + after;
    assert s == ['"'] + (e + ['"'] + ([':'] + ([' '] + (d + after))));
  }

  lemma {:induction false} MembersShape(q: string, b: string, rest: string)
    ensures q + [',', ' '] + b + ['}'] + rest == q + ([','] + ([' '] + (b + ['}'] + rest)))
  {
    Assoc(q, [',', ' '], b);
    Assoc(q, [',', ' '] + b, ['}'] + rest);
    assert [',', ' '] == [','] + [' '];
    Assoc([','], [' '], b + ['}'] + rest);
  }

  /** The text of an object's members, split around its first key. */
  lemma {:induction false} MembersText(members: seq<Member>, after: string, rest: string)
    requires members != []
    requires after == if |members| == 1 then ['}'] + rest
      else [','] + ([' '] + (DumpMembers(members[1..]) + ['}'] + rest))
    ensures var s := DumpMembers(members) + ['}'] + rest;
      s != [] && s[0] == '"'
      && s[1..] == Escape(members[0].key) + ['"'] + ([':'] + ([' '] + (Dumps(members[0].value) + after)))
  {
    var m := members[0];
    var e, d := Escape(m.key), Dumps(m.value);
    var q := Quote(m.key) + [':', ' '] + d;
    MembersUnfold(members);
    if |members| == 1 {
      Assoc(q, ['}'], rest);
    } else {
      MembersShape(q, DumpMembers(members[1..]), rest);
    }
    assert DumpMembers(members) + ['}'] + rest == q + after;
    assert q + after == ['"'] + e + ['"'] + [':', ' '] + d + after;
    MemberShape(e, d, after);
  }

  lemma {:induction false} ItemsRoundTrip(items: seq<Value>, rest: string)
    requires items != []
    ensures ParseItems(DumpItems(items) + [']'] + rest) == Some((items, rest))
    decreases items, 0
  {
    var s := DumpItems(items) + [']'] + rest;
    if |items| == 1 {
      assert items == [items[0]];
      var after := [']'] + rest;
      assert s == Dumps(items[0]) + after by {
        ItemsText(items, rest);
      }
      assert ParseValue(s) == Some((items[0], after)) by {
        ValueRoundTrip(items[0], after);
      }
      ItemsLast(s, items[0], rest);
    } else {
      assert items == [items[0]] + items[1..];
      var tail := DumpItems(items[1..]) + [']'] + rest;
      var after := [','] + ([' '] + tail);
      assert s == Dumps(items[0]) + after by {
        ItemsText(items, rest);
      }
      assert ParseValue(s) == Some((items[0], after)) by {
        ValueRoundTrip(items[0], after);
      }
      assert ParseItems([' '] + tail) == Some((items[1..], rest)) by {
        ItemsRoundTrip(items[1..], rest);
        ParseItemsSpace(tail);
      }
      ItemsNext(s, items[0], [' '] + tail, items[1..], rest);
    }
  }

  lemma {:induction false} MembersRoundTrip(members: seq<Member>, rest: string)
    requires members != []
    ensures ParseMembers(DumpMembers(members) + ['}'] + rest) == Some((members, rest))
    decreases members, 1
  {
    if |members| == 1 {
      LastMemberRoundTrip(members, rest);
    } else {
      NextMemberRoundTrip(members, rest);
    }
  }

  lemma {:induction false} LastMemberRoundTrip(members: seq<Member>, rest: string)
    requires |members| == 1
    ensures ParseMembers(DumpMembers(members) + ['}'] + rest) == Some((members, rest))
    decreases members, 0
  {
    var m := members[0];
    var after := ['}'] + rest;
    var s := DumpMembers(members) + ['}'] + rest;
    var r1 := [' '] + (Dumps(m.value) + after);
    MembersText(members, after, rest);
    EscapeRoundTrip(m.key, [':'] + r1);
    ValueRoundTrip(m.value, after);
    ParseValueSpace(Dumps(m.value) + after);
    MembersLast(s, m.key, r1, m.value, rest);
    assert members == [m];
  }

  /** One member followed by a comma, over its text `d` and the text `tail`
      of the members after it. */
  lemma {:induction false} MemberThenMore(s: string, key: string, d: string, v: Value, tail: string, ms: seq<Member>, rest: string)
    requires s != [] && s[0] == '"'
    requires s[1..] == Escape(key) + ['"'] + ([':'] + ([' '] + (d + ([','] + ([' '] + tail)))))
    requires ParseValue(d + ([','] + ([' '] + tail))) == Some((v, [','] + ([' '] + tail)))
    requires ParseMembers(tail) == Some((ms, rest))
    ensures ParseMembers(s) == Some(([Member(key, v)] + ms, rest))
  {
    var after := [','] + ([' '] + tail);
    var r1 := [' '] + (d + after);
    EscapeRoundTrip(key, [':'] + r1);
    ParseValueSpace(d + after);
    ParseMembersSpace(tail);
    var u, w := [':'] + r1, [','] + ([' '] + tail);
    assert u[1..] == r1 && w[1..] == [' '] + tail;
    MembersNext(s, key, u, v, w, ms, rest);
  }

  lemma {:induction false} NextMemberRoundTrip(members: seq<Member>, rest: string)
    requires |members| > 1
    ensures ParseMembers(DumpMembers(members) + ['}'] + rest) == Some((members, rest))
    decreases members, 0
  {
    var m := members[0];
    assert members == [m] + members[1..];
    var tail := DumpMembers(members[1..]) + ['}'] + rest;
    var after := [','] + ([' '] + tail);
    var s := DumpMembers(members) + ['}'] + rest;
    var d := Dumps(m.value);
    assert s != [] && s[0] == '"' && s[1..] == Escape(m.key) + ['"'] + ([':'] + ([' '] + (d + after))) by {
      MembersText(members, after, rest);
    }
    assert ParseValue(d + after) == Some((m.value, after)) by {
      ValueRoundTrip(m.value, after);
    }
    assert ParseMembers(tail) == Some((members[1..], rest)) by {
      MembersRoundTrip(members[1..], rest);
    }
    MemberThenMore(s, m.key, d, m.value, tail, members[1..], rest);
  }

  /** `json.loads(json.dumps(v)) == v`. */
  lemma {:induction false} RoundTrip(v: Value)
    ensures Parse(Dumps(v)) == Some(v)
  {
    ValueRoundTrip(v, []);
    assert Dumps(v) + [] == Dumps(v);
  }
}

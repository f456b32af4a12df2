/**
 * A decoder for JSON text (RFC 8259 without fractions and exponents), the
 * reader on the other side of every `json.dumps` in the pipeline: the
 * workflow engine reading the trigger's argument and the warehouse reading
 * the `top_10_words` column. Its round-trip lemma states that `Dumps` loses
 * nothing.
 */
module JsonParse {
  import opened Wrappers
  import opened Json
  import opened JsonText
  import Runs

  /** Insignificant whitespace between JSON tokens. */
  predicate IsWs(c: char) {
    c == ' ' || c == '\t' || c == '\n' || c == '\r'
  }

  predicate IsDigit(c: char) {
    '0' <= c <= '9'
  }

  /** `s` without its leading whitespace. */
  function SkipWs(s: string): (t: string)
    ensures |t| <= |s| && t == s[|s| - |t|..]
    ensures t == [] || !IsWs(t[0])
  {
    s[Runs.RunLength(s, IsWs)..]
  }

  /** Prepends a decoded character to the rest of a decoded string. */
  function Prepend(c: char, r: Option<(string, string)>): Option<(string, string)> {
    match r
    case None => None
    case Some((t, rest)) => Some(([c] + t, rest))
  }

  function HexValue(c: char): Option<nat> {
    if '0' <= c <= '9' then Some(c as int - '0' as int)
    else if 'a' <= c <= 'f' then Some(c as int - 'a' as int + 10)
    else if 'A' <= c <= 'F' then Some(c as int - 'A' as int + 10)
    else None
  }

  /** The value of two hexadecimal digits. */
  function ParseHex2(s: string): (r: Option<nat>)
    requires |s| == 2
    ensures r.Some? ==> r.value < 0x100
  {
    match (HexValue(s[0]), HexValue(s[1]))
    case (Some(h), Some(l)) => if h < 16 && l < 16 then Some(16 * h + l) else None
    case _ => None
  }

  /** The value of four hexadecimal digits. */
  function ParseHex4(s: string): (r: Option<nat>)
    requires |s| == 4
    ensures r.Some? ==> r.value < 0x10000
  {
    match (ParseHex2(s[..2]), ParseHex2(s[2..]))
    case (Some(h), Some(l)) => Some(0x100 * h + l)
    case _ => None
  }

  /** The character denoted by an escape sequence whose backslash has just
      been read, and the text after it. A lone surrogate is rejected: it is
      not a character. */
  function Unescape(s: string): (r: Option<(char, string)>)
    ensures r.Some? ==> |r.value.1| < |s|
  {
    if s == [] then None
    else if s[0] == '"' then Some(('"', s[1..]))
    else if s[0] == '\\' then Some(('\\', s[1..]))
    else if s[0] == '/' then Some(('/', s[1..]))
    else if s[0] == 'b' then Some((0x08 as char, s[1..]))
    else if s[0] == 'f' then Some((0x0C as char, s[1..]))
    else if s[0] == 'n' then Some(('\n', s[1..]))
    else if s[0] == 'r' then Some(('\r', s[1..]))
    else if s[0] == 't' then Some(('\t', s[1..]))
    else if s[0] != 'u' || |s| < 5 then None
    else match ParseHex4(s[1..5])
      case None => None
      case Some(h) =>
        if 0xD800 <= h < 0xDC00 then
          if |s| < 11 || s[5] != '\\' || s[6] != 'u' then None
          else match ParseHex4(s[7..11])
            case None => None
            case Some(l) =>
              if 0xDC00 <= l < 0xE000 then
                Some(((0x10000 + (h - 0xD800) * 0x400 + (l - 0xDC00)) as char, s[11..]))
              else None
        else if 0xDC00 <= h < 0xE000 then None
        else Some((h as char, s[5..]))
  }

  /** The body of a string literal whose opening quote has just been read:
      the decoded characters and the text after the closing quote. Raw
      control characters are rejected. */
  function ParseChars(s: string): (r: Option<(string, string)>)
    ensures r.Some? ==> |r.value.1| < |s|
    decreases |s|
  {
    if s == [] then None
    else if s[0] == '"' then Some(([], s[1..]))
    else if s[0] == '\\' then
      match Unescape(s[1..])
      case None => None
      case Some((c, rest)) => Prepend(c, ParseChars(rest))
    else if (s[0] as int) < 0x20 then None
    else Prepend(s[0], ParseChars(s[1..]))
  }

  /** The value of a string of decimal digits. */
  function DigitsValue(ds: string): nat
    requires forall i :: 0 <= i < |ds| ==> IsDigit(ds[i])
    decreases |ds|
  {
    if ds == [] then 0
    else
      assert IsDigit(ds[|ds| - 1]);
      DigitsValue(ds[..|ds| - 1]) * 10 + (ds[|ds| - 1] as int - '0' as int)
  }

  /** A natural number without leading zeros, and the text after it. */
  function ParseNatural(s: string): (r: Option<(nat, string)>)
    ensures r.Some? ==> |r.value.1| < |s|
  {
    if s == [] || !IsDigit(s[0]) then None
    else if s[0] == '0' then Some((0, s[1..]))
    else
      var n := Runs.RunLength(s, IsDigit);
      Some((DigitsValue(s[..n]), s[n..]))
  }

  /** An optionally negative integer, and the text after it. */
  function ParseNumber(s: string): (r: Option<(int, string)>)
    ensures r.Some? ==> |r.value.1| < |s|
  {
    if s != [] && s[0] == '-' then
      match ParseNatural(s[1..])
      case None => None
      case Some((n, rest)) => Some((0 - n, rest))
    else
      match ParseNatural(s)
      case None => None
      case Some((n, rest)) => Some((n, rest))
  }

  /** A keyword literal at the head of `s`. */
  function ParseLiteral(s: string, word: string, v: Value): (r: Option<(Value, string)>)
    requires word != []
    ensures r.Some? ==> |r.value.1| < |s|
  {
    if |word| <= |s| && s[..|word|] == word then Some((v, s[|word|..])) else None
  }

  /** One value after optional whitespace, and the text after it. */
  function ParseValue(s: string): (r: Option<(Value, string)>)
    ensures r.Some? ==> |r.value.1| < |s|
    decreases |s|, 0
  {
    var t := SkipWs(s);
    if t == [] then None
    else if t[0] == 'n' then ParseLiteral(t, "null", Null)
    else if t[0] == 't' then ParseLiteral(t, "true", Bool(true))
    else if t[0] == 'f' then ParseLiteral(t, "false", Bool(false))
    else if t[0] == '"' then
      match ParseChars(t[1..])
      case None => None
      case Some((str, rest)) => Some((Str(str), rest))
    else if t[0] == '[' then ParseArray(t[1..])
    else if t[0] == '{' then ParseObject(t[1..])
    else
      match ParseNumber(t)
      case None => None
      case Some((n, rest)) => Some((Num(n), rest))
  }

  /** A list whose opening bracket has just been read. */
  function ParseArray(s: string): (r: Option<(Value, string)>)
    ensures r.Some? ==> |r.value.1| < |s|
    decreases |s|, 2
  {
    var t := SkipWs(s);
    if t != [] && t[0] == ']' then Some((Arr([]), t[1..]))
    else
      match ParseItems(s)
      case None => None
      case Some((items, rest)) => Some((Arr(items), rest))
  }

  /** The items of a non-empty list up to and including its closing bracket. */
  function ParseItems(s: string): (r: Option<(seq<Value>, string)>)
    ensures r.Some? ==> |r.value.1| < |s|
    decreases |s|, 1
  {
    match ParseValue(s)
    case None => None
    case Some((v, r)) =>
      var u := SkipWs(r);
      if u == [] then None
      else if u[0] == ']' then Some(([v], u[1..]))
      else if u[0] != ',' then None
      else
        match ParseItems(u[1..])
        case None => None
        case Some((vs, rest)) => Some(([v] + vs, rest))
  }

  /** An object whose opening brace has just been read. */
  function ParseObject(s: string): (r: Option<(Value, string)>)
    ensures r.Some? ==> |r.value.1| < |s|
    decreases |s|, 2
  {
    var t := SkipWs(s);
    if t != [] && t[0] == '}' then Some((Obj([]), t[1..]))
    else
      match ParseMembers(s)
      case None => None
      case Some((members, rest)) => Some((Obj(members), rest))
  }

  /** The members of a non-empty object up to and including its closing brace. */
  function ParseMembers(s: string): (r: Option<(seq<Member>, string)>)
    ensures r.Some? ==> |r.value.1| < |s|
    decreases |s|, 1
  {
    var t := SkipWs(s);
    if t == [] || t[0] != '"' then None
    else
      match ParseChars(t[1..])
      case None => None
      case Some((key, r1)) =>
        var u := SkipWs(r1);
        if u == [] || u[0] != ':' then None
        else
          match ParseValue(u[1..])
          case None => None
          case Some((v, r2)) =>
            var w := SkipWs(r2);
            if w == [] then None
            else if w[0] == '}' then Some(([Member(key, v)], w[1..]))
            else if w[0] != ',' then None
            else
              match ParseMembers(w[1..])
              case None => None
              case Some((ms, rest)) => Some(([Member(key, v)] + ms, rest))
  }

  /** `json.loads`: a whole text holding exactly one value. */
  function Parse(s: string): Option<Value> {
    match ParseValue(s)
    case None => None
    case Some((v, rest)) => if SkipWs(rest) == [] then Some(v) else None
  }
}

/**
 * `json.dumps` with Python's default settings: `ensure_ascii=True`, item
 * separator ", ", key separator ": ", members in insertion order. Every
 * character outside printable ASCII is written as a lower-case `\uXXXX`
 * escape, and a character beyond the Basic Multilingual Plane as a UTF-16
 * surrogate pair of two such escapes.
 */
module JsonText {
  import opened Json

  /** A lower-case hexadecimal digit. */
  function HexDigit(d: nat): char
    requires d < 16
  {
    if d < 10 then ('0' as int + d) as char else ('a' as int + d - 10) as char
  }

  /** A decimal digit. */
  function DecimalDigit(d: nat): char
    requires d < 10
  {
    ('0' as int + d) as char
  }

  /** Two lower-case hexadecimal digits of a byte. */
  function Hex2(b: nat): (t: string)
    requires b < 0x100
    ensures |t| == 2
  {
    [HexDigit(b / 16), HexDigit(b % 16)]
  }

  /** Four lower-case hexadecimal digits of a UTF-16 code unit. */
  function Hex4(n: nat): (t: string)
    requires n < 0x10000
    ensures |t| == 4
  {
    Hex2(n / 0x100) + Hex2(n % 0x100)
  }

  /** The six-character escape `\uXXXX`. */
  function UEscape(n: nat): (t: string)
    requires n < 0x10000
    ensures |t| == 6
  {
    ['\\', 'u'] + Hex4(n)
  }

  /** How `json.dumps` writes one character of a string. */
  function EscapeChar(c: char): string {
    var n := c as int;
    if c == '"' then ['\\', '"']
    else if c == '\\' then ['\\', '\\']
    else if n == 0x08 then ['\\', 'b']
    else if n == 0x0C then ['\\', 'f']
    else if c == '\n' then ['\\', 'n']
    else if c == '\r' then ['\\', 'r']
    else if c == '\t' then ['\\', 't']
    else if n < 0x20 then UEscape(n)
    else if n < 0x7F then [c]
    else if n < 0x10000 then UEscape(n)
    else
      var m := n - 0x10000;
      UEscape(0xD800 + m / 0x400) + UEscape(0xDC00 + m % 0x400)
  }

  /** The escaped body of a string. */
  function Escape(s: string): string
    decreases |s|
  {
    if s == [] then [] else EscapeChar(s[0]) + Escape(s[1..])
  }

  /** A string literal: the escaped body between double quotes. */
  function Quote(s: string): string {
    ['"'] + Escape(s) + ['"']
  }

  /** Decimal digits of a natural number, most significant first, without
      leading zeros. */
  function Digits(n: nat): (t: string)
    ensures t != [] && (t[0] == '0' ==> n == 0 && |t| == 1)
    ensures forall i :: 0 <= i < |t| ==> '0' <= t[i] <= '9'
    decreases n
  {
    if n < 10 then [DecimalDigit(n)]
    else Digits(n / 10) + [DecimalDigit(n % 10)]
  }

  /** `int.__repr__`. */
  function IntText(n: int): string {
    if n < 0 then ['-'] + Digits(-n) else Digits(n)
  }

  /** The characters a JSON value's text can start with. */
  predicate IsValueStart(c: char) {
    c == 'n' || c == 't' || c == 'f' || c == '"' || c == '[' || c == '{' || c == '-' || '0' <= c <= '9'
  }

  /** The JSON text `json.dumps` produces for a value. It never starts with
      whitespace, a closing bracket or a separator. */
  function Dumps(v: Value): (t: string)
    ensures t != [] && IsValueStart(t[0])
    decreases v, 1
  {
    match v
    case Null => "null"
    case Bool(b) => if b then "true" else "false"
    case Num(n) => IntText(n)
    case Str(s) => Quote(s)
    case Arr(items) => if items == [] then "[]" else ['['] + DumpItems(items) + [']']
    case Obj(members) => if members == [] then "{}" else ['{'] + DumpMembers(members) + ['}']
  }

  /** The items of a non-empty list, separated by ", ". */
  function DumpItems(items: seq<Value>): (t: string)
    requires items != []
    ensures t != [] && IsValueStart(t[0])
    decreases items, 0
  {
    if |items| == 1 then Dumps(items[0])
    else Dumps(items[0]) + [',', ' '] + DumpItems(items[1..])
  }

  /** The members of a non-empty object, separated by ", ". */
  function DumpMembers(members: seq<Member>): (t: string)
    requires members != []
    ensures t != [] && t[0] == '"'
    decreases members, 0
  {
    var m := Quote(members[0].key) + [':', ' '] + Dumps(members[0].value);
    if |members| == 1 then m
    else m + [',', ' '] + DumpMembers(members[1..])
  }
}

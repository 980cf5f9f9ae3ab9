/**
 * `json.dumps` on a list of strings, as `broadcast_user_list` uses it for the
 * roster (server.py:51): default separators and `ensure_ascii`, so every
 * character outside printable ASCII is written as a `\uXXXX` escape (a
 * surrogate pair beyond U+FFFF) with lower-case hex digits. `Loads` is the
 * matching reader of such a list, used to show that the roster can be read
 * back exactly.
 */
module Json {

  import opened Wrappers

  /** Printable ASCII, `' '` to `'~'`: all that `ensure_ascii` output contains. */
  predicate Printable(s: string)
  {
    forall i :: 0 <= i < |s| ==> 0x20 <= s[i] as int <= 0x7E
  }

  function HexDigit(d: nat): (c: char)
    requires d < 16
    ensures 0x20 <= c as int <= 0x7E
  {
    if d < 10 then ('0' as int + d) as char else ('a' as int + d - 10) as char
  }

  /** Four lower-case hex digits, as `'{0:04x}'.format(v)`. */
  function Hex4(v: nat): (r: string)
    requires v < 0x10000
    ensures |r| == 4 && Printable(r)
  {
    [HexDigit(v / 4096), HexDigit(v / 256 % 16), HexDigit(v / 16 % 16), HexDigit(v % 16)]
  }

  /** The escape `ensure_ascii` writes for one character. */
  function EscapeChar(c: char): (r: string)
    ensures r != [] && r[0] != '"'
    ensures Printable(r)
  {
    var n := c as int;
    if c == '"' then "\\\""
    else if c == '\\' then "\\\\"
    else if c == '\n' then "\\n"
    else if c == '\r' then "\\r"
    else if c == '\t' then "\\t"
    else if c == '\U{0008}' then "\\b"
    else if c == '\U{000C}' then "\\f"
    else if 0x20 <= n <= 0x7E then [c]
    else if n < 0x10000 then "\\u" + Hex4(n)
    else SurrogateEscape(c)
  }

  /** The escape of a character beyond U+FFFF: its UTF-16 surrogate pair. */
  function SurrogateEscape(c: char): (r: string)
    requires c as int >= 0x10000
    ensures |r| == 12 && r[0] == '\\' && Printable(r)
  {
    // `0xd800 | ((m >> 10) & 0x3ff)` and `0xdc00 | (m & 0x3ff)` for `m < 2^20`
    var m := c as int - 0x10000;
    "\\u" + Hex4(0xD800 + m / 1024) + "\\u" + Hex4(0xDC00 + m % 1024)
  }

  function EscapeAll(s: string): (r: string)
    ensures Printable(r) && |r| >= |s|
  {
    if s == [] then [] else EscapeChar(s[0]) + EscapeAll(s[1..])
  }

  /** A string literal. */
  function Quote(s: string): string
  {
    "\"" + EscapeAll(s) + "\""
  }

  /** The elements of a list literal, separated by `", "`. */
  function Items(names: seq<string>): (r: string)
    ensures Printable(r)
  {
    if names == [] then []
    else if |names| == 1 then Quote(names[0])
    else Quote(names[0]) + ", " + Items(names[1..])
  }

  /** `json.dumps(names)`. */
  function Dumps(names: seq<string>): (r: string)
    ensures |r| >= 2 && r[0] == '[' && r[|r| - 1] == ']'
    ensures Printable(r)
  {
    "[" + Items(names) + "]"
  }

  // ---- reading a list of strings back ----

  function HexValue(c: char): Option<nat>
  {
    if '0' <= c <= '9' then Some(c as int - '0' as int)
    else if 'a' <= c <= 'f' then Some(c as int - 'a' as int + 10)
    else if 'A' <= c <= 'F' then Some(c as int - 'A' as int + 10)
    else None
  }

  function ParseHex4(s: string): (r: Option<nat>)
    requires |s| >= 4
    ensures r.Some? ==> r.value < 0x10000
  {
    match (HexValue(s[0]), HexValue(s[1]), HexValue(s[2]), HexValue(s[3]))
    case (Some(a), Some(b), Some(c), Some(d)) =>
      if a < 16 && b < 16 && c < 16 && d < 16 then Some(a * 4096 + b * 256 + c * 16 + d) else None
    case _ => None
  }

  /** A `\uXXXX` escape at the start of `s`, giving the code unit. */
  function UnitEscape(s: string): (r: Option<nat>)
  {
    if |s| >= 6 && s[0] == '\\' && s[1] == 'u' then ParseHex4(s[2..6]) else None
  }

  /** The character a simple two-character escape `\x` stands for. */
  function SimpleEscape(x: char): Option<char>
  {
    if x == '"' then Some('"')
    else if x == '\\' then Some('\\')
    else if x == '/' then Some('/')
    else if x == 'n' then Some('\n')
    else if x == 'r' then Some('\r')
    else if x == 't' then Some('\t')
    else if x == 'b' then Some('\U{0008}')
    else if x == 'f' then Some('\U{000C}')
    else None
  }

  /** One character of the inside of a string literal, possibly escaped, and what follows it. */
  function ParseChar(s: string): (r: Option<(char, string)>)
    requires s != [] && s[0] != '"'
    ensures r.Some? ==> |r.value.1| < |s|
  {
    if s[0] != '\\' then
      if (s[0] as int) < 0x20 then None else Some((s[0], s[1..]))
    else if |s| < 2 then None
    else if s[1] != 'u' then
      match SimpleEscape(s[1])
      case None => None
      case Some(c) => Some((c, s[2..]))
    else match UnitEscape(s)
      case None => None
      case Some(hi) =>
        if 0xD800 <= hi < 0xDC00 then
          match UnitEscape(s[6..])
          case None => None
          case Some(lo) =>
            if 0xDC00 <= lo < 0xE000 then
              Some(((0x10000 + (hi - 0xD800) * 1024 + (lo - 0xDC00)) as char, s[12..]))
            else None
        else if 0xDC00 <= hi < 0xE000 then None
        else Some((hi as char, s[6..]))
  }

  /** The inside of a string literal up to its closing quote, and what follows the quote. */
  function ParseString(s: string): (r: Option<(string, string)>)
    ensures r.Some? ==> |r.value.1| < |s|
    decreases |s|
  {
    if s == [] then None
    else if s[0] == '"' then Some(([], s[1..]))
    else match ParseChar(s)
      case None => None
      case Some((c, rest)) =>
        match ParseString(rest)
        case None => None
        case Some((t, after)) => Some(([c] + t, after))
  }

  /** The elements of a non-empty list literal, from its first element on. */
  function ParseItems(s: string): Option<seq<string>>
    decreases |s|
  {
    if s == [] || s[0] != '"' then None
    else match ParseString(s[1..])
      case None => None
      case Some((x, rest)) =>
        if rest == "]" then Some([x])
        else if |rest| >= 2 && rest[..2] == ", " then
          match ParseItems(rest[2..])
          case None => None
          case Some(xs) => Some([x] + xs)
        else None
  }

  /** `json.loads` restricted to a list of strings; `None` for anything else. */
  function Loads(s: string): Option<seq<string>>
  {
    if |s| < 2 || s[0] != '[' then None
    else if s[1..] == "]" then Some([])
    else ParseItems(s[1..])
  }

  // ---- the round trip ----

  lemma HexRoundTrip(v: nat)
    requires v < 0x10000
    ensures ParseHex4(Hex4(v)) == Some(v)
  {
    var a, b, c, d := v / 4096, v / 256 % 16, v / 16 % 16, v % 16;
    assert v / 16 == (v / 256) * 16 + c;
    assert v / 256 == a * 16 + b;
    HexDigitValue(a);
    HexDigitValue(b);
    HexDigitValue(c);
    HexDigitValue(d);
  }

  lemma HexDigitValue(d: nat)
    requires d < 16
    ensures HexValue(HexDigit(d)) == Some(d)
  {
  }

  /** A `\uXXXX` escape reads back as the code unit it was written for. */
  lemma UnitEscapeOf(v: nat, tail: string)
    requires v < 0x10000
    ensures UnitEscape("\\u" + Hex4(v) + tail) == Some(v)
  {
    var s := "\\u" + Hex4(v) + tail;
    assert s[2..6] == Hex4(v);
    HexRoundTrip(v);
  }

  /** Every escape `ensure_ascii` writes reads back as its character, leaving what follows. */
  lemma ParseEscaped(c: char, tail: string)
    ensures ParseChar(EscapeChar(c) + tail) == Some((c, tail))
  {
    var n := c as int;
    var e := EscapeChar(c);
    var s := e + tail;
    if c == '"' || c == '\\' || c == '\n' || c == '\r' || c == '\t' || c == '\U{0008}' || c == '\U{000C}' {
      assert s[2..] == tail;
    } else if 0x20 <= n <= 0x7E {
      assert s[1..] == tail;
    } else if n < 0x10000 {
      UnitEscapeOf(n, tail);
      assert s[6..] == tail;
    } else {
      ParseSurrogatePair(c, tail);
    }
  }

  /** A character beyond U+FFFF reads back from its surrogate pair. */
  lemma ParseSurrogatePair(c: char, tail: string)
    requires c as int >= 0x10000
    ensures ParseChar(EscapeChar(c) + tail) == Some((c, tail))
  {
    assert EscapeChar(c) == SurrogateEscape(c);
    ParseSurrogateEscape(c, tail);
  }

  lemma ParseSurrogateEscape(c: char, tail: string)
    requires c as int >= 0x10000
    ensures ParseChar(SurrogateEscape(c) + tail) == Some((c, tail))
  {
    var m := c as int - 0x10000;
    var hi, lo := 0xD800 + m / 1024, 0xDC00 + m % 1024;
    var pair := "\\u" + Hex4(hi) + ("\\u" + Hex4(lo) + tail);
    assert SurrogateEscape(c) == "\\u" + Hex4(hi) + "\\u" + Hex4(lo);
    PairText(Hex4(hi), Hex4(lo), tail);
    PairValue(m);
    ParsePair(hi, lo, tail, c);
    ParseCharOfEqual(SurrogateEscape(c) + tail, pair);
  }

  lemma ParseCharOfEqual(s: string, t: string)
    requires s == t && s != [] && s[0] != '"'
    ensures ParseChar(s) == ParseChar(t)
  {
  }

  lemma PairValue(m: int)
    requires 0 <= m < 0x100000
    ensures 0xD800 <= 0xD800 + m / 1024 < 0xDC00 && 0xDC00 <= 0xDC00 + m % 1024 < 0xE000
    ensures 0x10000 + ((0xD800 + m / 1024) - 0xD800) * 1024 + ((0xDC00 + m % 1024) - 0xDC00) == 0x10000 + m
  {
  }

  lemma PairText(x: string, y: string, tail: string)
    ensures "\\u" + x + "\\u" + y + tail == "\\u" + x + ("\\u" + y + tail)
  {
  }

  /** A high surrogate escape followed by a low one reads as the character they encode. */
  lemma ParsePair(hi: nat, lo: nat, tail: string, c: char)
    requires 0xD800 <= hi < 0xDC00 && 0xDC00 <= lo < 0xE000
    requires c as int == 0x10000 + (hi - 0xD800) * 1024 + (lo - 0xDC00)
    ensures ParseChar("\\u" + Hex4(hi) + ("\\u" + Hex4(lo) + tail)) == Some((c, tail))
  {
    var s := "\\u" + Hex4(hi) + ("\\u" + Hex4(lo) + tail);
    UnitEscapeOf(hi, "\\u" + Hex4(lo) + tail);
    assert s[6..] == "\\u" + Hex4(lo) + tail;
    UnitEscapeOf(lo, tail);
    assert s[6..][6..] == tail;
  }

  /** The inside of a literal reads back as the string, up to the closing quote. */
  lemma {:induction false} ParseQuoted(s: string, tail: string)
    ensures ParseString(EscapeAll(s) + "\"" + tail) == Some((s, tail))
  {
    if s == [] {
      assert EscapeAll(s) + "\"" + tail == "\"" + tail;
    } else {
      var rest := EscapeAll(s[1..]) + "\"" + tail;
      EscapeAllCons(s, tail);
      ParseEscaped(s[0], rest);
      ParseQuoted(s[1..], tail);
      assert [s[0]] + s[1..] == s;
    }
  }

  lemma EscapeAllCons(s: string, tail: string)
    requires s != []
    ensures EscapeAll(s) + "\"" + tail == EscapeChar(s[0]) + (EscapeAll(s[1..]) + "\"" + tail)
  {
    var e, rest := EscapeChar(s[0]), EscapeAll(s[1..]);
    assert EscapeAll(s) == e + rest;
    AppendAssoc(e, rest, "\"" + tail);
    AppendAssoc(e + rest, "\"", tail);
    AppendAssoc(rest, "\"", tail);
    AppendAssoc(e, rest + "\"", tail);
  }

  lemma {:induction false} ParseItemsOf(names: seq<string>)
    requires names != []
    ensures ParseItems(Items(names) + "]") == Some(names)
  {
    if |names| == 1 {
      ParseItemsOne(names[0]);
      assert names == [names[0]];
    } else {
      var more := Items(names[1..]) + "]";
      ParseItemsOf(names[1..]);
      ParseItemsCons(names[0], more, names[1..]);
      ItemsSplit(names);
      assert [names[0]] + names[1..] == names;
    }
  }

  lemma ItemsSplit(names: seq<string>)
    requires |names| >= 2
    ensures Items(names) + "]" == Quote(names[0]) + ", " + (Items(names[1..]) + "]")
  {
  }

  lemma ParseItemsOne(x: string)
    ensures ParseItems(Quote(x) + "]") == Some([x])
  {
    var u := Quote(x) + "]";
    assert u == "\"" + (EscapeAll(x) + "\"" + "]");
    ParseQuoted(x, "]");
    ParseItemsStep(u, x, "]");
  }

  lemma ParseItemsCons(x: string, more: string, xs: seq<string>)
    requires ParseItems(more) == Some(xs)
    ensures ParseItems(Quote(x) + ", " + more) == Some([x] + xs)
  {
    var u := Quote(x) + ", " + more;
    assert u == "\"" + (EscapeAll(x) + "\"" + (", " + more));
    ParseQuoted(x, ", " + more);
    assert (", " + more)[2..] == more;
    ParseItemsStep(u, x, ", " + more);
  }

  /** One element of a list literal read off, and the rest as `ParseItems` sees it. */
  lemma ParseItemsStep(s: string, x: string, rest: string)
    requires s != [] && s[0] == '"' && ParseString(s[1..]) == Some((x, rest))
    ensures ParseItems(s) ==
      if rest == "]" then Some([x])
      else if |rest| >= 2 && rest[..2] == ", " then
        match ParseItems(rest[2..])
        case None => None
        case Some(xs) => Some([x] + xs)
      else None
  {
  }

  /** `json.loads(json.dumps(names)) == names`: the roster text determines the names and their order. */
  lemma LoadsDumps(names: seq<string>)
    ensures Loads(Dumps(names)) == Some(names)
  {
    if names == [] {
      assert Dumps(names) == "[]";
    } else {
      DumpsBody(names);
      ParseItemsOf(names);
    }
  }

  /** After the `[`, a non-empty list literal is its items, which open with a quote, then `]`. */
  lemma DumpsBody(names: seq<string>)
    requires names != []
    ensures Dumps(names)[1..] == Items(names) + "]" && Dumps(names)[1] == '"'
  {
    assert Dumps(names)[1..] == Items(names) + "]";
    assert Items(names)[0] == Quote(names[0])[0];
  }

  /** Different rosters never serialise to the same text. */
  lemma DumpsInjective(a: seq<string>, b: seq<string>)
    requires Dumps(a) == Dumps(b)
    ensures a == b
  {
    LoadsDumps(a);
    LoadsDumps(b);
  }
}

/**
 * The Python string operations the broker relies on: `str.isspace`,
 * `str.strip()`, `str.startswith`, `str.split(sep)`, `str(n)` for a
 * non-negative `int`, and `int(s)` on a decimal string.
 */
module Text {

  import opened Wrappers

  /** The characters `str.isspace()` accepts and `str.strip()` discards. */
  predicate IsSpace(c: char)
  {
    || ('\U{0009}' <= c <= '\U{000D}') || ('\U{001C}' <= c <= '\U{001F}') || c == ' '
    || c == '\U{0085}' || c == '\U{00A0}' || c == '\U{1680}' || ('\U{2000}' <= c <= '\U{200A}')
    || c == '\U{2028}' || c == '\U{2029}' || c == '\U{202F}' || c == '\U{205F}' || c == '\U{3000}'
  }

  predicate AllSpace(s: string) { forall i :: 0 <= i < |s| ==> IsSpace(s[i]) }

  /**
   * The information separators U+001C to U+001F: whitespace to `str.isspace()`,
   * but `int()` skips only the ASCII whitespace of C's `isspace` and raises on them.
   */
  predicate IsInfoSeparator(c: char) { '\U{001C}' <= c <= '\U{001F}' }

  predicate HasInfoSeparator(s: string) { exists i :: 0 <= i < |s| && IsInfoSeparator(s[i]) }

  /** The number of leading whitespace characters. */
  function LeadingSpace(s: string): (k: nat)
    ensures k <= |s|
    ensures AllSpace(s[..k])
    ensures k < |s| ==> !IsSpace(s[k])
  {
    if s == [] || !IsSpace(s[0]) then 0 else 1 + LeadingSpace(s[1..])
  }

  /** The number of trailing whitespace characters. */
  function TrailingSpace(s: string): (k: nat)
    ensures k <= |s|
    ensures AllSpace(s[|s| - k..])
    ensures k < |s| ==> !IsSpace(s[|s| - k - 1])
  {
    if s == [] || !IsSpace(s[|s| - 1]) then 0 else 1 + TrailingSpace(s[..|s| - 1])
  }

  /**
   * `s.strip()`: the slice of `s` left once the whitespace at both ends is
   * removed; it is empty exactly when `s` is all whitespace, and otherwise
   * neither begins nor ends with whitespace.
   */
  function Strip(s: string): (r: string)
    ensures |r| <= |s|
    ensures r == [] <==> AllSpace(s)
    ensures r != [] ==> !IsSpace(r[0]) && !IsSpace(r[|r| - 1])
  {
    var i := LeadingSpace(s);
    var t := s[i..];
    var k := TrailingSpace(t);
    assert i == |s| ==> s[..i] == s;
    t[..|t| - k]
  }

  /** What `strip()` removes is whitespace, at the two ends of the text. */
  lemma StripIsSlice(s: string)
    ensures var r := Strip(s);
      exists i :: 0 <= i <= |s| - |r| && r == s[i..i + |r|] && AllSpace(s[..i]) && AllSpace(s[i + |r|..])
  {
    var i := LeadingSpace(s);
    var t := s[i..];
    var k := TrailingSpace(t);
    var r := t[..|t| - k];
    assert Strip(s) == r;
    assert r == s[i..i + |r|];
    assert s[i + |r|..] == t[|t| - k..];
    assert AllSpace(s[..i]) && AllSpace(s[i + |r|..]);
  }

  /** Stripping text that has no whitespace at its ends and only whitespace after it. */
  lemma StripPadded(s: string, pad: string)
    requires s != [] && !IsSpace(s[0]) && !IsSpace(s[|s| - 1])
    requires AllSpace(pad)
    ensures Strip(s + pad) == s
  {
    var u := s + pad;
    assert u[0] == s[0];
    assert u[0..] == u;
    TrailingSpacePadded(s, pad);
    assert u[..|u| - |pad|] == s;
  }

  lemma {:induction false} TrailingSpacePadded(s: string, pad: string)
    requires s != [] && !IsSpace(s[|s| - 1])
    requires AllSpace(pad)
    ensures TrailingSpace(s + pad) == |pad|
  {
    var u := s + pad;
    if pad == [] {
      assert u == s;
    } else {
      assert u[|u| - 1] == pad[|pad| - 1];
      assert u[..|u| - 1] == s + pad[..|pad| - 1];
      TrailingSpacePadded(s, pad[..|pad| - 1]);
    }
  }

  predicate StartsWith(s: string, prefix: string)
  {
    |prefix| <= |s| && s[..|prefix|] == prefix
  }

  /** `s.split(sep)` for a one-character separator: the pieces between the separators. */
  function Split(s: string, sep: char): (r: seq<string>)
    ensures |r| >= 1
    ensures forall k :: 0 <= k < |r| ==> sep !in r[k]
  {
    if s == [] then [[]]
    else if s[0] == sep then [[]] + Split(s[1..], sep)
    else
      var rest := Split(s[1..], sep);
      [[s[0]] + rest[0]] + rest[1..]
  }

  /** `sep.join(pieces)`. */
  function Join(pieces: seq<string>, sep: char): string
  {
    if pieces == [] then []
    else if |pieces| == 1 then pieces[0]
    else pieces[0] + [sep] + Join(pieces[1..], sep)
  }

  /** Splitting loses nothing: joining the pieces back gives the text. */
  lemma {:induction false} JoinSplit(s: string, sep: char)
    ensures Join(Split(s, sep), sep) == s
  {
    if s != [] {
      JoinSplit(s[1..], sep);
      var rest := Split(s[1..], sep);
      if s[0] == sep {
        assert [[]] + rest == [[]] + rest;
        assert ([[]] + rest)[1..] == rest;
      } else {
        var r := Split(s, sep);
        assert r[1..] == rest[1..];
        if |rest| == 1 {
          assert r == [[s[0]] + rest[0]];
        } else {
          assert Join(r, sep) == [s[0]] + rest[0] + [sep] + Join(rest[1..], sep);
        }
      }
    }
  }

  /** The text before the first `sep`, or all of it. */
  function TakeUntil(s: string, sep: char): (r: string)
    ensures StartsWith(s, r) && sep !in r
    ensures |r| < |s| ==> s[|r|] == sep
  {
    if s == [] || s[0] == sep then [] else [s[0]] + TakeUntil(s[1..], sep)
  }

  /** After a separator-free prefix and one separator, the pieces are those of the rest. */
  lemma {:induction false} SplitAfterSeparator(p: string, sep: char, s: string)
    requires sep !in p
    ensures Split(p + [sep] + s, sep) == [p] + Split(s, sep)
  {
    if p == [] {
      assert p + [sep] + s == [sep] + s;
      assert ([sep] + s)[1..] == s;
    } else {
      var u := p + [sep] + s;
      assert u[0] == p[0];
      assert u[1..] == p[1..] + [sep] + s;
      SplitAfterSeparator(p[1..], sep, s);
      assert [p[0]] + p[1..] == p;
    }
  }

  /** The first piece of a split is the text before the first separator. */
  lemma {:induction false} SplitFirst(s: string, sep: char)
    ensures Split(s, sep)[0] == TakeUntil(s, sep)
  {
    if s != [] && s[0] != sep {
      SplitFirst(s[1..], sep);
    }
  }

  // ---- decimal numerals ----

  predicate IsDigit(c: char) { '0' <= c <= '9' }

  predicate AllDigits(s: string) { forall i :: 0 <= i < |s| ==> IsDigit(s[i]) }

  function DigitChar(d: nat): (c: char)
    requires d < 10
    ensures IsDigit(c)
  {
    ('0' as int + d) as char
  }

  function DigitValue(c: char): (d: nat)
    requires IsDigit(c)
    ensures d < 10
  {
    c as int - '0' as int
  }

  function Pow10(k: nat): (r: nat)
    ensures r >= 1
  {
    if k == 0 then 1 else 10 * Pow10(k - 1)
  }

  /** `str(n)`: the decimal numeral of `n`, with no sign and no leading zero. */
  function Decimal(n: nat): (r: string)
    ensures r != [] && AllDigits(r)
    ensures |r| > 1 ==> r[0] != '0'
  {
    if n < 10 then [DigitChar(n)] else Decimal(n / 10) + [DigitChar(n % 10)]
  }

  /** The value of a string of digits and underscores, the underscores being ignored. */
  function Value(s: string): nat
    requires forall i :: 0 <= i < |s| ==> IsDigit(s[i]) || s[i] == '_'
  {
    if s == [] then 0
    else if s[|s| - 1] == '_' then Value(s[..|s| - 1])
    else 10 * Value(s[..|s| - 1]) + DigitValue(s[|s| - 1])
  }

  /**
   * The digit part `int()` accepts: digits, with single underscores allowed
   * between two digits.
   */
  predicate IsNumeral(s: string)
  {
    && s != [] && IsDigit(s[0]) && IsDigit(s[|s| - 1])
    && (forall i :: 0 <= i < |s| ==> IsDigit(s[i]) || s[i] == '_')
    && (forall i :: 0 <= i < |s| - 1 ==> s[i] == '_' ==> s[i + 1] != '_')
  }

  /**
   * `int(s)` for base 10: surrounding whitespace other than an information
   * separator is ignored, an optional sign is allowed, and `None` stands for
   * the ValueError anything else raises.
   */
  function ParseInt(s: string): (r: Option<int>)
    ensures r.Some? ==> !AllSpace(s) && !HasInfoSeparator(s)
  {
    if HasInfoSeparator(s) then None else
    var t := Strip(s);
    if t != [] && (t[0] == '-' || t[0] == '+') then
      if IsNumeral(t[1..]) then
        var v: int := Value(t[1..]);
        Some(if t[0] == '-' then -v else v)
      else None
    else if IsNumeral(t) then Some(Value(t))
    else None
  }

  lemma {:induction false} ValueDecimal(n: nat)
    ensures Value(Decimal(n)) == n
  {
    if n >= 10 {
      var d := Decimal(n);
      assert d[..|d| - 1] == Decimal(n / 10);
      ValueDecimal(n / 10);
    }
  }

  /** `int(str(n))` is `n`, whatever whitespace other than an information separator follows the numeral. */
  lemma ParseIntDecimal(n: nat, pad: string)
    requires AllSpace(pad) && !HasInfoSeparator(pad)
    ensures ParseInt(Decimal(n) + pad) == Some(n)
  {
    var d := Decimal(n);
    NoInfoSeparator(d, pad);
    StripPadded(d, pad);
    ValueDecimal(n);
  }

  /** Digits followed by text without an information separator have none. */
  lemma NoInfoSeparator(d: string, pad: string)
    requires AllDigits(d) && !HasInfoSeparator(pad)
    ensures !HasInfoSeparator(d + pad)
  {
    forall i | 0 <= i < |d + pad| ensures !IsInfoSeparator((d + pad)[i]) {
      if i >= |d| {
        assert (d + pad)[i] == pad[i - |d|];
      }
    }
  }

  /** `int()` of a plain string of digits is its value. */
  lemma ParseIntDigits(s: string)
    requires s != [] && AllDigits(s)
    ensures ParseInt(s) == Some(Value(s))
  {
    assert !HasInfoSeparator(s);
    StripPadded(s, []);
    assert s + [] == s;
    assert IsNumeral(s);
  }

  /** A numeral of `k` characters has fewer than `k + 1` digits' worth of value. */
  lemma {:induction false} ValueBound(s: string)
    requires AllDigits(s)
    ensures Value(s) < Pow10(|s|)
  {
    if s != [] {
      ValueBound(s[..|s| - 1]);
    }
  }

  /** `str(n)` fits in `k` characters exactly when `n < 10^k`. */
  lemma {:induction false} DecimalLength(n: nat, k: nat)
    requires k >= 1
    ensures |Decimal(n)| <= k <==> n < Pow10(k)
  {
    if n >= 10 {
      if k == 1 {
        assert Pow10(1) == 10;
      } else {
        DecimalLength(n / 10, k - 1);
      }
    } else {
      assert Pow10(k) >= Pow10(1) == 10 by { Pow10Monotone(1, k); }
    }
  }

  lemma {:induction false} Pow10Monotone(j: nat, k: nat)
    requires j <= k
    ensures Pow10(j) <= Pow10(k)
  {
    if j < k {
      Pow10Monotone(j, k - 1);
    }
  }
}

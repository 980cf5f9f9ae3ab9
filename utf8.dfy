/**
 * UTF-8, the encoding every payload and header of the chat protocol travels in
 * (`FORMAT = "utf-8"`). `Encode` is `str.encode("utf-8")` and `Decode` is the
 * strict `bytes.decode("utf-8")`: `None` stands for the UnicodeDecodeError the
 * server's `try` blocks catch.
 */
module Utf8 {

  import opened Wrappers

  type byte = b: int | 0 <= b < 256

  /** The bytes of one Unicode scalar value. */
  function EncodeChar(c: char): (r: seq<byte>)
    ensures 1 <= |r| <= 4
    ensures |r| == 1 <==> (c as int) < 0x80
  {
    var n := c as int;
    if n < 0x80 then [n]
    else if n < 0x800 then [0xC0 + n / 64, 0x80 + n % 64]
    else if n < 0x10000 then [0xE0 + n / 4096, 0x80 + (n / 64) % 64, 0x80 + n % 64]
    else [0xF0 + n / 262144, 0x80 + (n / 4096) % 64, 0x80 + (n / 64) % 64, 0x80 + n % 64]
  }

  function Encode(s: string): (r: seq<byte>)
    ensures |r| >= |s|
  {
    if s == [] then [] else EncodeChar(s[0]) + Encode(s[1..])
  }

  predicate IsContinuation(b: byte) { 0x80 <= b < 0xC0 }

  /** How many bytes a sequence starting with lead byte `b` occupies; 0 if `b` cannot lead. */
  function Width(b: byte): nat
  {
    if b < 0x80 then 1
    else if 0xC0 <= b < 0xE0 then 2
    else if 0xE0 <= b < 0xF0 then 3
    else if 0xF0 <= b < 0xF8 then 4
    else 0
  }

  /** The smallest scalar value that needs `w` bytes; anything smaller is an overlong form. */
  function MinValue(w: nat): int
  {
    if w == 1 then 0 else if w == 2 then 0x80 else if w == 3 then 0x800 else 0x10000
  }

  /** The scalar value the first `w` bytes of `bs` spell, ignoring validity. */
  function Assemble(bs: seq<byte>, w: nat): int
    requires 1 <= w <= 4 && |bs| >= w
  {
    if w == 1 then bs[0]
    else if w == 2 then (bs[0] as int - 0xC0) * 64 + (bs[1] as int - 0x80)
    else if w == 3 then (bs[0] as int - 0xE0) * 4096 + (bs[1] as int - 0x80) * 64 + (bs[2] as int - 0x80)
    else (bs[0] as int - 0xF0) * 262144 + (bs[1] as int - 0x80) * 4096 + (bs[2] as int - 0x80) * 64 + (bs[3] as int - 0x80)
  }

  predicate IsScalar(v: int) { 0 <= v < 0xD800 || 0xE000 <= v < 0x110000 }

  /**
   * The first character of a non-empty byte string and the number of bytes it
   * takes, or `None` when the bytes are not well-formed UTF-8: a byte that cannot
   * lead, a truncated or broken continuation, an overlong form, a surrogate or a
   * value past U+10FFFF.
   */
  function DecodeFirst(bs: seq<byte>): (r: Option<(char, nat)>)
    requires |bs| > 0
    ensures r.Some? ==> 1 <= r.value.1 <= |bs| && r.value.1 <= 4
  {
    var w := Width(bs[0]);
    if w == 0 || |bs| < w then None
    else if !((w < 2 || IsContinuation(bs[1])) && (w < 3 || IsContinuation(bs[2])) && (w < 4 || IsContinuation(bs[3]))) then None
    else
      var v := Assemble(bs, w);
      if v < MinValue(w) || !IsScalar(v) then None
      else Some((v as char, w))
  }

  function Decode(bs: seq<byte>): (r: Option<string>)
    decreases |bs|
  {
    if bs == [] then Some([])
    else match DecodeFirst(bs)
      case None => None
      case Some((c, w)) =>
        match Decode(bs[w..])
        case None => None
        case Some(rest) => Some([c] + rest)
  }

  predicate IsAscii(s: string) { forall i :: 0 <= i < |s| ==> (s[i] as int) < 0x80 }

  lemma {:induction false} EncodeAppend(s: string, t: string)
    ensures Encode(s + t) == Encode(s) + Encode(t)
  {
    if s == [] {
      assert s + t == t;
    } else {
      assert (s + t)[0] == s[0];
      assert (s + t)[1..] == s[1..] + t;
      EncodeAppend(s[1..], t);
      AppendAssoc(EncodeChar(s[0]), Encode(s[1..]), Encode(t));
    }
  }

  /** ASCII text is encoded byte for byte: the header digits and padding are plain ASCII. */
  lemma {:induction false} EncodeAscii(s: string)
    requires IsAscii(s)
    ensures |Encode(s)| == |s|
    ensures forall i :: 0 <= i < |s| ==> Encode(s)[i] == s[i] as int
  {
    if s != [] {
      EncodeAscii(s[1..]);
    }
  }

  /**
   * ASCII text takes one byte per character: the length half of `EncodeAscii`,
   * for proofs that do not need its quantifier over the bytes in scope.
   */
  lemma AsciiLength(s: string)
    requires IsAscii(s)
    ensures |Encode(s)| == |s|
  {
    EncodeAscii(s);
  }

  lemma DecodeFirstOfEncoded(c: char, rest: seq<byte>)
    ensures DecodeFirst(EncodeChar(c) + rest) == Some((c, |EncodeChar(c)|))
  {
    var n := c as int;
    var bs := EncodeChar(c) + rest;
    if n < 0x80 {
    } else if n < 0x800 {
      AssembleTwo(n, bs);
    } else if n < 0x10000 {
      AssembleThree(n, bs);
    } else {
      AssembleFour(n, bs);
    }
  }

  lemma AssembleTwo(n: int, bs: seq<byte>)
    requires 0x80 <= n < 0x800 && |bs| >= 2
    requires bs[0] == 0xC0 + n / 64 && bs[1] == 0x80 + n % 64
    ensures Assemble(bs, 2) == n
  {
  }

  lemma AssembleThree(n: int, bs: seq<byte>)
    requires 0x800 <= n < 0x10000 && |bs| >= 3
    requires bs[0] == 0xE0 + n / 4096 && bs[1] == 0x80 + (n / 64) % 64 && bs[2] == 0x80 + n % 64
    ensures Assemble(bs, 3) == n
  {
    assert n / 64 == (n / 4096) * 64 + (n / 64) % 64;
  }

  lemma AssembleFour(n: int, bs: seq<byte>)
    requires 0x10000 <= n < 0x110000 && |bs| >= 4
    requires bs[0] == 0xF0 + n / 262144 && bs[1] == 0x80 + (n / 4096) % 64
    requires bs[2] == 0x80 + (n / 64) % 64 && bs[3] == 0x80 + n % 64
    ensures Assemble(bs, 4) == n
  {
    assert n / 4096 == (n / 262144) * 64 + (n / 4096) % 64;
    assert n / 64 == (n / 4096) * 64 + (n / 64) % 64;
  }

  /** Decoding inverts encoding: `s.encode().decode() == s`. */
  lemma {:induction false} DecodeEncode(s: string)
    ensures Decode(Encode(s)) == Some(s)
  {
    if s != [] {
      var e := EncodeChar(s[0]);
      DecodeFirstOfEncoded(s[0], Encode(s[1..]));
      assert (e + Encode(s[1..]))[|e|..] == Encode(s[1..]);
      DecodeEncode(s[1..]);
      assert [s[0]] + s[1..] == s;
    }
  }

  /** Different texts never share an encoding. */
  lemma EncodeInjective(s: string, t: string)
    requires Encode(s) == Encode(t)
    ensures s == t
  {
    DecodeEncode(s);
    DecodeEncode(t);
  }
}

/** UTF-8, as Python's `str.encode()` and `bytes.decode()` use it by default (strict errors):
    a decoder that refuses overlong forms, surrogates, values above U+10FFFF and truncated sequences. */
module Utf8 {
  import opened Wrappers
  import opened Bytes

  /** The octets of one character. */
  function EncodeChar(c: char): (b: seq<byte>)
    ensures 1 <= |b| <= 4
  {
    var cp := c as int;
    var q1 := cp / 64;
    var q2 := q1 / 64;
    var q3 := q2 / 64;
    if cp < 0x80 then [cp]
    else if cp < 0x800 then [0xC0 + q1, 0x80 + cp % 64]
    else if cp < 0x10000 then [0xE0 + q2, 0x80 + q1 % 64, 0x80 + cp % 64]
    else [0xF0 + q3, 0x80 + q2 % 64, 0x80 + q1 % 64, 0x80 + cp % 64]
  }

  /** `s.encode()`. */
  function Encode(s: string): seq<byte>
    decreases |s|
  {
    if s == [] then [] else EncodeChar(s[0]) + Encode(s[1..])
  }

  predicate InRange(b: byte, lo: int, hi: int) { lo <= b <= hi }

  /** The length of the well-formed sequence starting with `b0` (0 if no sequence starts with it),
      and the range its second octet must fall in. */
  function LeadLength(b0: byte): nat
  {
    if b0 < 0x80 then 1
    else if 0xC2 <= b0 <= 0xDF then 2
    else if 0xE0 <= b0 <= 0xEF then 3
    else if 0xF0 <= b0 <= 0xF4 then 4
    else 0
  }

  function SecondLow(b0: byte): int
  {
    if b0 == 0xE0 then 0xA0 else if b0 == 0xF0 then 0x90 else 0x80
  }

  function SecondHigh(b0: byte): int
  {
    if b0 == 0xED then 0x9F else if b0 == 0xF4 then 0x8F else 0xBF
  }

  /** The first character of `b` and how many octets it takes, or None if `b` does not start with a
      well-formed sequence. */
  function DecodeFirst(b: seq<byte>): (r: Option<(char, nat)>)
    requires b != []
    ensures r.Some? ==> 1 <= r.value.1 <= |b|
  {
    var n := LeadLength(b[0]);
    if n == 0 || |b| < n then None
    else if n == 1 then Some((b[0] as char, 1))
    else if !InRange(b[1], SecondLow(b[0]), SecondHigh(b[0])) then None
    else if n == 2 then
      Some((((b[0] as int - 0xC0) * 64 + (b[1] as int - 0x80)) as char, 2))
    else if !InRange(b[2], 0x80, 0xBF) then None
    else if n == 3 then
      var cp := (b[0] as int - 0xE0) * 4096 + (b[1] as int - 0x80) * 64 + (b[2] as int - 0x80);
      assert cp < 0xD800 || 0xE000 <= cp < 0x10000;
      Some((cp as char, 3))
    else if !InRange(b[3], 0x80, 0xBF) then None
    else
      var cp := (b[0] as int - 0xF0) * 262144 + (b[1] as int - 0x80) * 4096 + (b[2] as int - 0x80) * 64 + (b[3] as int - 0x80);
      Some((cp as char, 4))
  }

  /** `b.decode()`, None where Python raises UnicodeDecodeError. */
  function Decode(b: seq<byte>): Option<string>
    decreases |b|
  {
    if b == [] then Some([])
    else match DecodeFirst(b)
      case None => None
      case Some((c, n)) =>
        match Decode(b[n..])
        case None => None
        case Some(rest) => Some([c] + rest)
  }

  lemma DecodeFirstTwo(c: char, rest: seq<byte>)
    requires 0x80 <= c as int < 0x800
    ensures DecodeFirst(EncodeChar(c) + rest) == Some((c, 2))
  {
    var cp := c as int;
    var q1 := cp / 64;
    assert cp == q1 * 64 + cp % 64;
    var b := EncodeChar(c) + rest;
    assert b[0] == 0xC0 + q1 && b[1] == 0x80 + cp % 64;
    assert LeadLength(b[0]) == 2;
    assert (b[0] as int - 0xC0) * 64 + (b[1] as int - 0x80) == cp;
  }

  lemma DecodeFirstThree(c: char, rest: seq<byte>)
    requires 0x800 <= c as int < 0x10000
    ensures DecodeFirst(EncodeChar(c) + rest) == Some((c, 3))
  {
    var cp := c as int;
    var q1 := cp / 64;
    var q2 := q1 / 64;
    assert cp == q1 * 64 + cp % 64;
    assert q1 == q2 * 64 + q1 % 64;
    var b := EncodeChar(c) + rest;
    assert b[0] == 0xE0 + q2 && b[1] == 0x80 + q1 % 64 && b[2] == 0x80 + cp % 64;
    assert LeadLength(b[0]) == 3;
    assert InRange(b[1], SecondLow(b[0]), SecondHigh(b[0]));
    assert (b[0] as int - 0xE0) * 4096 + (b[1] as int - 0x80) * 64 + (b[2] as int - 0x80) == cp;
  }

  lemma DecodeFirstFour(c: char, rest: seq<byte>)
    requires 0x10000 <= c as int
    ensures DecodeFirst(EncodeChar(c) + rest) == Some((c, 4))
  {
    var cp := c as int;
    var q1 := cp / 64;
    var q2 := q1 / 64;
    var q3 := q2 / 64;
    assert cp == q1 * 64 + cp % 64;
    assert q1 == q2 * 64 + q1 % 64;
    assert q2 == q3 * 64 + q2 % 64;
    var b := EncodeChar(c) + rest;
    assert b[0] == 0xF0 + q3 && b[1] == 0x80 + q2 % 64 && b[2] == 0x80 + q1 % 64 && b[3] == 0x80 + cp % 64;
    assert LeadLength(b[0]) == 4;
    assert InRange(b[1], SecondLow(b[0]), SecondHigh(b[0]));
    assert (b[0] as int - 0xF0) * 262144 + (b[1] as int - 0x80) * 4096 + (b[2] as int - 0x80) * 64
           + (b[3] as int - 0x80) == cp;
  }

  /** The sequence the encoder writes for one character is the one the decoder reads back. */
  lemma DecodeFirstEncodeChar(c: char, rest: seq<byte>)
    ensures DecodeFirst(EncodeChar(c) + rest) == Some((c, |EncodeChar(c)|))
  {
    var cp := c as int;
    if cp < 0x80 {
    } else if cp < 0x800 {
      DecodeFirstTwo(c, rest);
    } else if cp < 0x10000 {
      DecodeFirstThree(c, rest);
    } else {
      DecodeFirstFour(c, rest);
    }
  }

  /** Decoding what the encoder wrote gives back the text. */
  lemma {:induction false} DecodeEncode(s: string)
    ensures Decode(Encode(s)) == Some(s)
    decreases |s|
  {
    if s != [] {
      var e := EncodeChar(s[0]);
      DecodeFirstEncodeChar(s[0], Encode(s[1..]));
      assert (e + Encode(s[1..]))[|e|..] == Encode(s[1..]);
      DecodeEncode(s[1..]);
      assert [s[0]] + s[1..] == s;
    }
  }

  /** No sequence starts with a continuation octet, with C0 or C1 (which could only start an
      overlong two-octet form) or with F5 and above (beyond U+10FFFF); after ED the second octet must
      stay below A0, as ED A0 to ED BF would encode a surrogate; and a lead whose sequence the input
      cuts short is refused. */
  lemma DecodeRejects(b0: byte, b1: byte, b2: byte, rest: seq<byte>)
    ensures (0x80 <= b0 <= 0xC1 || b0 >= 0xF5) ==> Decode([b0] + rest) == None
    ensures b1 >= 0xA0 ==> Decode([0xED, b1, b2] + rest) == None
    ensures LeadLength(b0) >= 2 && |rest| < LeadLength(b0) - 1 ==> Decode([b0] + rest) == None
    ensures 0xC2 <= b0 <= 0xDF && !InRange(b1, 0x80, 0xBF) ==> Decode([b0, b1] + rest) == None
  {
    assert ([b0] + rest)[0] == b0;
    assert ([0xED, b1, b2] + rest)[0] == 0xED && ([0xED, b1, b2] + rest)[1] == b1;
    assert ([b0, b1] + rest)[0] == b0 && ([b0, b1] + rest)[1] == b1;
  }

  /** Concretely: a lone continuation octet, an overlong form and an encoded surrogate. */
  lemma DecodeExamples()
    ensures Decode([0x80]) == None
    ensures Decode([0xC0, 0x80]) == None
    ensures Decode([0xED, 0xA0, 0x80]) == None
  {
  }
}

/**
  UTF-8 as defined by section 3 of RFC 3629: the encoding of a code point sequence
  into octets and the strict decoder, which accepts exactly the octet sequences of the
  syntax in section 4 of RFC 3629 (no overlong forms, no surrogates, nothing above
  U+10FFFF). Python's `str.encode('utf-8')` and `bytes.decode('utf-8', 'strict')`
  behave this way. Dafny's `char` is a Unicode scalar value, so every string is encodable.
*/
module Unicode {
  import opened Wrappers

  type Byte = b: int | 0 <= b < 0x100
  type Bytes = seq<Byte>

  predicate IsContinuation(b: Byte) {
    0x80 <= b <= 0xBF
  }

  /** The one to four octets of one code point (section 3 of RFC 3629). */
  function EncodeChar(c: char): (r: Bytes)
    ensures 1 <= |r| <= 4
    ensures (|r| == 1) == (c as int < 0x80)
  {
    var n := c as int;
    if n < 0x80 then [n]
    else if n < 0x800 then [0xC0 + n / 0x40, 0x80 + n % 0x40]
    else if n < 0x10000 then [0xE0 + n / 0x1000, 0x80 + n / 0x40 % 0x40, 0x80 + n % 0x40]
    else [0xF0 + n / 0x40000, 0x80 + n / 0x1000 % 0x40, 0x80 + n / 0x40 % 0x40, 0x80 + n % 0x40]
  }

  function Encode(s: string): Bytes {
    if s == [] then [] else EncodeChar(s[0]) + Encode(s[1..])
  }

  /**
    The code point at the front of `b` and the number of octets it takes, or None when
    `b` does not start with a well-formed sequence (the table of section 4 of RFC 3629).
  */
  function DecodeFirst(b: Bytes): (r: Option<(char, nat)>)
    requires b != []
    ensures r.Some? ==> 1 <= r.value.1 <= |b| && r.value.1 <= 4
  {
    var b0: int := b[0];
    if b0 <= 0x7F then
      Some((b0 as char, 1))
    else if 0xC2 <= b0 <= 0xDF then
      if 2 <= |b| && IsContinuation(b[1]) then
        Some((((b0 - 0xC0) * 0x40 + (b[1] as int - 0x80)) as char, 2))
      else None
    else if 0xE0 <= b0 <= 0xEF then
      var lo := if b0 == 0xE0 then 0xA0 else 0x80;
      var hi := if b0 == 0xED then 0x9F else 0xBF;
      if 3 <= |b| && lo <= b[1] <= hi && IsContinuation(b[2]) then
        Some((((b0 - 0xE0) * 0x1000 + (b[1] as int - 0x80) * 0x40 + (b[2] as int - 0x80)) as char, 3))
      else None
    else if 0xF0 <= b0 <= 0xF4 then
      var lo := if b0 == 0xF0 then 0x90 else 0x80;
      var hi := if b0 == 0xF4 then 0x8F else 0xBF;
      if 4 <= |b| && lo <= b[1] <= hi && IsContinuation(b[2]) && IsContinuation(b[3]) then
        Some((((b0 - 0xF0) * 0x40000 + (b[1] as int - 0x80) * 0x1000 + (b[2] as int - 0x80) * 0x40 + (b[3] as int - 0x80)) as char, 4))
      else None
    else
      None
  }

  /** Strict decoding: None as soon as a malformed sequence is met. */
  function Decode(b: Bytes): Option<string>
    decreases |b|
  {
    if b == [] then Some([])
    else match DecodeFirst(b)
      case None => None
      case Some((c, n)) =>
        match Decode(b[n..])
        case None => None
        case Some(s) => Some([c] + s)
  }

  lemma Split2(n: int)
    requires 0x80 <= n < 0x800
    ensures 0xC2 <= 0xC0 + n / 0x40 <= 0xDF
    ensures (n / 0x40) * 0x40 + n % 0x40 == n
  {
  }

  lemma Split3(n: int)
    requires 0x800 <= n < 0x10000
    requires n < 0xD800 || 0xE000 <= n
    ensures (n / 0x1000) * 0x1000 + (n / 0x40 % 0x40) * 0x40 + n % 0x40 == n
    ensures n / 0x1000 == 0 ==> 0x20 <= n / 0x40 % 0x40
    ensures n / 0x1000 == 0xD ==> n / 0x40 % 0x40 < 0x20
  {
  }

  lemma Split4(n: int)
    requires 0x10000 <= n < 0x110000
    ensures n / 0x40000 <= 4
    ensures (n / 0x40000) * 0x40000 + (n / 0x1000 % 0x40) * 0x1000 + (n / 0x40 % 0x40) * 0x40 + n % 0x40 == n
    ensures n / 0x40000 == 0 ==> 0x10 <= n / 0x1000 % 0x40
    ensures n / 0x40000 == 4 ==> n / 0x1000 % 0x40 < 0x10
  {
  }

  lemma Join2(h: int, l: int)
    requires 0 <= l < 0x40
    ensures (h * 0x40 + l) / 0x40 == h && (h * 0x40 + l) % 0x40 == l
  {
  }

  lemma Join3(h: int, m: int, l: int)
    requires 0 <= h && 0 <= m < 0x40 && 0 <= l < 0x40
    ensures var n := h * 0x1000 + m * 0x40 + l;
      n / 0x1000 == h && n / 0x40 % 0x40 == m && n % 0x40 == l
  {
    var n := h * 0x1000 + m * 0x40 + l;
    Join2(h * 0x40 + m, l);
    assert n == (h * 0x40 + m) * 0x40 + l;
    Join2(h, m);
    assert n / 0x40 == h * 0x40 + m;
    assert n / 0x1000 == n / 0x40 / 0x40;
  }

  lemma Join4(h: int, m1: int, m2: int, l: int)
    requires 0 <= h && 0 <= m1 < 0x40 && 0 <= m2 < 0x40 && 0 <= l < 0x40
    ensures var n := h * 0x40000 + m1 * 0x1000 + m2 * 0x40 + l;
      n / 0x40000 == h && n / 0x1000 % 0x40 == m1 && n / 0x40 % 0x40 == m2 && n % 0x40 == l
  {
    var n := h * 0x40000 + m1 * 0x1000 + m2 * 0x40 + l;
    Join3(h * 0x40 + m1, m2, l);
    assert n == (h * 0x40 + m1) * 0x1000 + m2 * 0x40 + l;
    Join2(h, m1);
    assert n / 0x40000 == n / 0x1000 / 0x40;
  }

  lemma DecodeFirstOfEncodeChar(c: char, rest: Bytes)
    ensures EncodeChar(c) + rest != []
    ensures DecodeFirst(EncodeChar(c) + rest) == Some((c, |EncodeChar(c)|))
  {
    var n := c as int;
    if n < 0x80 {
    } else if n < 0x800 {
      assert EncodeChar(c) == [0xC0 + n / 0x40, 0x80 + n % 0x40];
      DecodeTwo(n, rest);
    } else if n < 0x10000 {
      assert EncodeChar(c) == [0xE0 + n / 0x1000, 0x80 + n / 0x40 % 0x40, 0x80 + n % 0x40];
      DecodeThree(n, rest);
    } else {
      assert EncodeChar(c) == [0xF0 + n / 0x40000, 0x80 + n / 0x1000 % 0x40, 0x80 + n / 0x40 % 0x40, 0x80 + n % 0x40];
      DecodeFour(n, rest);
    }
  }

  lemma DecodeTwo(n: int, rest: Bytes)
    requires 0x80 <= n < 0x800
    ensures var b: Bytes := [0xC0 + n / 0x40, 0x80 + n % 0x40] + rest;
      DecodeFirst(b) == Some((n as char, 2))
  {
    Split2(n);
    var b: Bytes := [0xC0 + n / 0x40, 0x80 + n % 0x40] + rest;
    assert b[0] == 0xC0 + n / 0x40 && b[1] == 0x80 + n % 0x40;
  }

  lemma DecodeThree(n: int, rest: Bytes)
    requires 0x800 <= n < 0x10000 && (n < 0xD800 || 0xE000 <= n)
    ensures var b: Bytes := [0xE0 + n / 0x1000, 0x80 + n / 0x40 % 0x40, 0x80 + n % 0x40] + rest;
      DecodeFirst(b) == Some((n as char, 3))
  {
    Split3(n);
    var b: Bytes := [0xE0 + n / 0x1000, 0x80 + n / 0x40 % 0x40, 0x80 + n % 0x40] + rest;
    assert b[0] == 0xE0 + n / 0x1000 && b[1] == 0x80 + n / 0x40 % 0x40 && b[2] == 0x80 + n % 0x40;
  }

  lemma DecodeFour(n: int, rest: Bytes)
    requires 0x10000 <= n < 0x110000
    ensures var b: Bytes := [0xF0 + n / 0x40000, 0x80 + n / 0x1000 % 0x40, 0x80 + n / 0x40 % 0x40, 0x80 + n % 0x40] + rest;
      DecodeFirst(b) == Some((n as char, 4))
  {
    Split4(n);
    var b: Bytes := [0xF0 + n / 0x40000, 0x80 + n / 0x1000 % 0x40, 0x80 + n / 0x40 % 0x40, 0x80 + n % 0x40] + rest;
    assert b[0] == 0xF0 + n / 0x40000 && b[1] == 0x80 + n / 0x1000 % 0x40;
    assert b[2] == 0x80 + n / 0x40 % 0x40 && b[3] == 0x80 + n % 0x40;
  }

  lemma EncodeCharOfDecodeFirst(b: Bytes)
    requires b != [] && DecodeFirst(b).Some?
    ensures EncodeChar(DecodeFirst(b).value.0) == b[..DecodeFirst(b).value.1]
  {
    var k := DecodeFirst(b).value.1;
    if k == 2 {
      EncodeTwo(b[0], b[1]);
      assert b[..2] == [b[0], b[1]];
    } else if k == 3 {
      EncodeThree(b[0], b[1], b[2]);
      assert b[..3] == [b[0], b[1], b[2]];
    } else if k == 4 {
      EncodeFour(b[0], b[1], b[2], b[3]);
      assert b[..4] == [b[0], b[1], b[2], b[3]];
    }
  }

  lemma EncodeTwo(b0: Byte, b1: Byte)
    requires 0xC2 <= b0 <= 0xDF && IsContinuation(b1)
    ensures var n := (b0 - 0xC0) * 0x40 + (b1 - 0x80);
      0x80 <= n < 0x800 && EncodeChar(n as char) == [b0, b1]
  {
    Join2(b0 - 0xC0, b1 - 0x80);
  }

  lemma EncodeThree(b0: Byte, b1: Byte, b2: Byte)
    requires 0xE0 <= b0 <= 0xEF && IsContinuation(b2)
    requires (if b0 == 0xE0 then 0xA0 else 0x80) <= b1 <= (if b0 == 0xED then 0x9F else 0xBF)
    ensures var n := (b0 - 0xE0) * 0x1000 + (b1 - 0x80) * 0x40 + (b2 - 0x80);
      0x800 <= n < 0x10000 && (n < 0xD800 || 0xE000 <= n) && EncodeChar(n as char) == [b0, b1, b2]
  {
    Join3(b0 - 0xE0, b1 - 0x80, b2 - 0x80);
  }

  lemma EncodeFour(b0: Byte, b1: Byte, b2: Byte, b3: Byte)
    requires 0xF0 <= b0 <= 0xF4 && IsContinuation(b2) && IsContinuation(b3)
    requires (if b0 == 0xF0 then 0x90 else 0x80) <= b1 <= (if b0 == 0xF4 then 0x8F else 0xBF)
    ensures var n := (b0 - 0xF0) * 0x40000 + (b1 - 0x80) * 0x1000 + (b2 - 0x80) * 0x40 + (b3 - 0x80);
      0x10000 <= n < 0x110000 && EncodeChar(n as char) == [b0, b1, b2, b3]
  {
    Join4(b0 - 0xF0, b1 - 0x80, b2 - 0x80, b3 - 0x80);
  }

  /** Round trip: strict decoding inverts encoding. */
  lemma {:induction false} DecodeEncode(s: string)
    ensures Decode(Encode(s)) == Some(s)
  {
    if s != [] {
      var e := EncodeChar(s[0]);
      DecodeFirstOfEncodeChar(s[0], Encode(s[1..]));
      assert (e + Encode(s[1..]))[|e|..] == Encode(s[1..]);
      DecodeEncode(s[1..]);
      assert [s[0]] + s[1..] == s;
    }
  }

  /** Decoding succeeds only on the encoding of the string it returns. */
  lemma {:induction false} EncodeDecode(b: Bytes)
    requires Decode(b).Some?
    ensures Encode(Decode(b).value) == b
    decreases |b|
  {
    if b != [] {
      var k := DecodeStep(b);
      EncodeDecode(b[k..]);
      EncodeCharOfDecodeFirst(b);
      EncodeCons(DecodeFirst(b).value.0, Decode(b[k..]).value);
      assert b == b[..k] + b[k..];
    }
  }

  /** One step of a successful decode: the first code point, then the decoding of the rest. */
  lemma DecodeStep(b: Bytes) returns (k: nat)
    requires b != [] && Decode(b).Some?
    ensures DecodeFirst(b).Some? && k == DecodeFirst(b).value.1 && k <= |b|
    ensures Decode(b[k..]).Some? && Decode(b).value == [DecodeFirst(b).value.0] + Decode(b[k..]).value
  {
    k := DecodeFirst(b).value.1;
  }

  lemma EncodeCons(c: char, s: string)
    ensures Encode([c] + s) == EncodeChar(c) + Encode(s)
  {
    assert ([c] + s)[0] == c && ([c] + s)[1..] == s;
  }

  /** The octet sequences the strict decoder accepts are exactly the encodings of strings. */
  lemma DecodeSucceedsIff(b: Bytes)
    ensures Decode(b).Some? <==> exists s :: Encode(s) == b
  {
    if Decode(b).Some? {
      EncodeDecode(b);
    }
    if exists s :: Encode(s) == b {
      var s :| Encode(s) == b;
      DecodeEncode(s);
    }
  }

  lemma EncodeInjective(s: string, t: string)
    ensures Encode(s) == Encode(t) ==> s == t
  {
    DecodeEncode(s);
    DecodeEncode(t);
  }

  /**
    Malformed input is refused, class by class of RFC 3629 section 4: a stray continuation
    octet or an octet that never appears (C0, C1, F5 to FF) as lead, an overlong three- or
    four-octet form, a surrogate, a code point above U+10FFFF, a bad continuation and a
    truncated sequence.
  */
  lemma DecodeRejectsMalformed(b: Bytes)
    ensures b != [] && (0x80 <= b[0] <= 0xC1 || 0xF5 <= b[0]) ==> Decode(b) == None
    ensures |b| >= 2 && b[0] == 0xE0 && b[1] < 0xA0 ==> Decode(b) == None
    ensures |b| >= 2 && b[0] == 0xF0 && b[1] < 0x90 ==> Decode(b) == None
    ensures |b| >= 2 && b[0] == 0xED && 0xA0 <= b[1] ==> Decode(b) == None
    ensures |b| >= 2 && b[0] == 0xF4 && 0x90 <= b[1] ==> Decode(b) == None
    ensures |b| >= 2 && 0xC2 <= b[0] <= 0xF4 && !IsContinuation(b[1]) ==> Decode(b) == None
    ensures b != [] && 0xC2 <= b[0] <= 0xDF && |b| < 2 ==> Decode(b) == None
    ensures b != [] && 0xE0 <= b[0] <= 0xEF && |b| < 3 ==> Decode(b) == None
    ensures b != [] && 0xF0 <= b[0] <= 0xF4 && |b| < 4 ==> Decode(b) == None
  {
  }

  predicate IsAscii(s: string) {
    forall i :: 0 <= i < |s| ==> s[i] as int < 0x80
  }

  /** An ASCII string encodes to its own code points, one octet each. */
  lemma {:induction false} EncodeAscii(s: string)
    requires IsAscii(s)
    ensures |Encode(s)| == |s|
    ensures forall i :: 0 <= i < |s| ==> Encode(s)[i] == s[i] as int
  {
    if s != [] {
      assert IsAscii(s[1..]) by {
        forall i | 0 <= i < |s[1..]| ensures s[1..][i] as int < 0x80 {
          assert s[1..][i] == s[i + 1];
        }
      }
      EncodeAscii(s[1..]);
    }
  }
}

/** Strict UTF-8, as bytes.decode('utf8') applies it to the byte strings
    PyV8 hands back: a well-formed sequence decodes, anything else (a
    stray continuation byte, a truncated sequence, an overlong form, an
    encoded surrogate or a value past U+10FFFF) raises UnicodeDecodeError. */
module Utf8 {
  import opened Wrappers
  import opened Sequences

  newtype Byte = x: int | 0 <= x < 256

  predicate IsContinuation(b: Byte) {
    0x80 <= b < 0xC0
  }

  /** The encoding of one code point, 1 to 4 bytes. */
  function EncodeChar(c: char): (r: seq<Byte>)
    ensures 1 <= |r| <= 4
  {
    var n := c as int;
    if n < 0x80 then [n as Byte]
    else if n < 0x800 then [(0xC0 + n / 0x40) as Byte, (0x80 + n % 0x40) as Byte]
    else if n < 0x10000 then
      [(0xE0 + n / 0x1000) as Byte, (0x80 + n / 0x40 % 0x40) as Byte, (0x80 + n % 0x40) as Byte]
    else
      [(0xF0 + n / 0x40000) as Byte, (0x80 + n / 0x1000 % 0x40) as Byte,
       (0x80 + n / 0x40 % 0x40) as Byte, (0x80 + n % 0x40) as Byte]
  }

  function Encode(s: string): seq<Byte> {
    if s == [] then [] else EncodeChar(s[0]) + Encode(s[1..])
  }

  /** The first code point of `b` and the number of bytes it takes; None
      when `b` does not start with a well-formed sequence. */
  function DecodeChar(b: seq<Byte>): (r: Option<(char, nat)>)
    ensures r.Some? ==> 1 <= r.value.1 <= |b| && r.value.1 <= 4
  {
    if b == [] then None
    else if b[0] < 0x80 then Some((b[0] as int as char, 1))
    else if b[0] < 0xC0 then None
    else if b[0] < 0xE0 then
      if |b| < 2 || !IsContinuation(b[1]) then None
      else
        var v := (b[0] as int - 0xC0) * 0x40 + (b[1] as int - 0x80);
        if v < 0x80 then None else Some((v as char, 2))
    else if b[0] < 0xF0 then
      if |b| < 3 || !IsContinuation(b[1]) || !IsContinuation(b[2]) then None
      else
        var v := (b[0] as int - 0xE0) * 0x1000 + (b[1] as int - 0x80) * 0x40 + (b[2] as int - 0x80);
        if v < 0x800 || (0xD800 <= v < 0xE000) then None else Some((v as char, 3))
    else if b[0] < 0xF8 then
      if |b| < 4 || !IsContinuation(b[1]) || !IsContinuation(b[2]) || !IsContinuation(b[3]) then None
      else
        var v := (b[0] as int - 0xF0) * 0x40000 + (b[1] as int - 0x80) * 0x1000
          + (b[2] as int - 0x80) * 0x40 + (b[3] as int - 0x80);
        if v < 0x10000 || v >= 0x110000 then None else Some((v as char, 4))
    else None
  }

  function Decode(b: seq<Byte>): (r: Option<string>)
    decreases |b|
  {
    if b == [] then Some([])
    else match DecodeChar(b)
      case None => None
      case Some((c, n)) =>
        match Decode(b[n..])
        case None => None
        case Some(s) => Some([c] + s)
  }

  // ---------------------------------------------------------------------------
  // Round trips

  lemma {:induction false} DecodeTwo(c: char, rest: seq<Byte>)
    requires 0x80 <= c as int < 0x800
    ensures DecodeChar(EncodeChar(c) + rest) == Some((c, 2))
  {
    var n := c as int;
    var b := EncodeChar(c) + rest;
    assert b[0] as int == 0xC0 + n / 0x40 && b[1] as int == 0x80 + n % 0x40;
  }

  lemma {:induction false} DecodeThree(c: char, rest: seq<Byte>)
    requires 0x800 <= c as int < 0x10000
    ensures DecodeChar(EncodeChar(c) + rest) == Some((c, 3))
  {
    var n := c as int;
    var b := EncodeChar(c) + rest;
    assert b[0] as int == 0xE0 + n / 0x1000;
    assert b[1] as int == 0x80 + n / 0x40 % 0x40;
    assert b[2] as int == 0x80 + n % 0x40;
    assert n == (n / 0x1000) * 0x1000 + (n / 0x40 % 0x40) * 0x40 + n % 0x40;
  }

  lemma {:induction false} DecodeFour(c: char, rest: seq<Byte>)
    requires 0x10000 <= c as int
    ensures DecodeChar(EncodeChar(c) + rest) == Some((c, 4))
  {
    var n := c as int;
    var b := EncodeChar(c) + rest;
    FourDigits(n);
    assert b[0] as int == 0xF0 + n / 0x40000;
    assert b[1] as int == 0x80 + n / 0x1000 % 0x40;
    assert b[2] as int == 0x80 + n / 0x40 % 0x40;
    assert b[3] as int == 0x80 + n % 0x40;
  }

  /** The four base-64 digits of a code point past U+FFFF. */
  lemma {:induction false} FourDigits(n: nat)
    ensures n == (n / 0x40000) * 0x40000 + (n / 0x1000 % 0x40) * 0x1000 + (n / 0x40 % 0x40) * 0x40 + n % 0x40
  {
    DivDiv64(n);
    DivDiv4096(n);
    var q1, q2, w := n / 0x40, n / 0x1000, n / 0x40000;
    assert n == q1 * 0x40 + n % 0x40;
    assert q1 == q2 * 0x40 + q1 % 0x40;
    assert q2 == w * 0x40 + q2 % 0x40;
  }

  lemma {:induction false} DivDiv64(n: nat)
    ensures n / 0x40 / 0x40 == n / 0x1000
  {
    var q, r := n / 0x1000, n % 0x1000;
    assert n == (q * 0x40 + r / 0x40) * 0x40 + r % 0x40;
    Split64(q * 0x40 + r / 0x40, r % 0x40);
    Split64(q, r / 0x40);
  }

  lemma {:induction false} DivDiv4096(n: nat)
    ensures n / 0x1000 / 0x40 == n / 0x40000
  {
    var q, r := n / 0x40000, n % 0x40000;
    assert n == (q * 0x40 + r / 0x1000) * 0x1000 + r % 0x1000;
    Split4096(q * 0x40 + r / 0x1000, r % 0x1000);
    Split64(q, r / 0x1000);
  }

  /** The encoding of a character decodes to it, whatever follows. */
  lemma {:induction false} DecodeEncodeChar(c: char, rest: seq<Byte>)
    ensures DecodeChar(EncodeChar(c) + rest) == Some((c, |EncodeChar(c)|))
  {
    var n := c as int;
    if n < 0x80 {
    } else if n < 0x800 {
      DecodeTwo(c, rest);
    } else if n < 0x10000 {
      DecodeThree(c, rest);
    } else {
      DecodeFour(c, rest);
    }
  }

  /** Decoding inverts encoding. */
  lemma {:induction false} DecodeEncode(s: string)
    ensures Decode(Encode(s)) == Some(s)
    decreases |s|
  {
    if s != [] {
      var e := EncodeChar(s[0]);
      var b := e + Encode(s[1..]);
      DecodeEncodeChar(s[0], Encode(s[1..]));
      assert b[|e|..] == Encode(s[1..]);
      DecodeEncode(s[1..]);
      assert [s[0]] + s[1..] == s;
    }
  }

  lemma {:induction false} TwoCanonical(b: seq<Byte>)
    requires DecodeChar(b).Some? && DecodeChar(b).value.1 == 2
    ensures EncodeChar(DecodeChar(b).value.0) == b[..2]
  {
    var v := (b[0] as int - 0xC0) * 0x40 + (b[1] as int - 0x80);
    assert DecodeChar(b).value.0 as int == v;
    assert v / 0x40 == b[0] as int - 0xC0 && v % 0x40 == b[1] as int - 0x80;
  }

  lemma {:induction false} Split64(q: int, r: int)
    requires 0 <= r < 0x40
    ensures (q * 0x40 + r) / 0x40 == q && (q * 0x40 + r) % 0x40 == r
  {
  }

  lemma {:induction false} Split4096(q: int, r: int)
    requires 0 <= r < 0x1000
    ensures (q * 0x1000 + r) / 0x1000 == q
  {
  }

  lemma {:induction false} Split262144(q: int, r: int)
    requires 0 <= r < 0x40000
    ensures (q * 0x40000 + r) / 0x40000 == q
  {
  }

  lemma {:induction false} ThreeCanonical(b: seq<Byte>)
    requires DecodeChar(b).Some? && DecodeChar(b).value.1 == 3
    ensures EncodeChar(DecodeChar(b).value.0) == b[..3]
  {
    var x, y, z := b[0] as int - 0xE0, b[1] as int - 0x80, b[2] as int - 0x80;
    var v := x * 0x1000 + y * 0x40 + z;
    assert DecodeChar(b).value.0 as int == v;
    var hi := x * 0x40 + y;
    assert v == hi * 0x40 + z;
    Split64(hi, z);
    Split64(x, y);
    Split4096(x, y * 0x40 + z);
  }

  lemma {:induction false} FourCanonical(b: seq<Byte>)
    requires DecodeChar(b).Some? && DecodeChar(b).value.1 == 4
    ensures EncodeChar(DecodeChar(b).value.0) == b[..4]
  {
    var w, x, y, z := b[0] as int - 0xF0, b[1] as int - 0x80, b[2] as int - 0x80, b[3] as int - 0x80;
    var v := w * 0x40000 + x * 0x1000 + y * 0x40 + z;
    assert DecodeChar(b).value.0 as int == v;
    var hi := w * 0x40 + x;
    var mid := hi * 0x40 + y;
    assert v == mid * 0x40 + z;
    Split64(mid, z);
    Split64(hi, y);
    Split64(w, x);
    assert v == hi * 0x1000 + (y * 0x40 + z);
    Split4096(hi, y * 0x40 + z);
    assert v == w * 0x40000 + (x * 0x1000 + y * 0x40 + z);
    Split262144(w, x * 0x1000 + y * 0x40 + z);
  }

  /** A decoded sequence is the encoding of its character: the decoder
      accepts only the shortest form. */
  lemma {:induction false} EncodeDecodeChar(b: seq<Byte>)
    requires DecodeChar(b).Some?
    ensures EncodeChar(DecodeChar(b).value.0) == b[..DecodeChar(b).value.1]
  {
    var n := DecodeChar(b).value.1;
    if n == 1 {
    } else if n == 2 {
      TwoCanonical(b);
    } else if n == 3 {
      ThreeCanonical(b);
    } else {
      FourCanonical(b);
    }
  }

  lemma {:induction false} DecodeCons(b: seq<Byte>)
    requires b != [] && Decode(b).Some?
    ensures DecodeChar(b).Some?
    ensures Decode(b[DecodeChar(b).value.1..]).Some?
    ensures Decode(b).value == [DecodeChar(b).value.0] + Decode(b[DecodeChar(b).value.1..]).value
  {
  }

  lemma {:induction false} EncodeCons(c: char, s: string)
    ensures Encode([c] + s) == EncodeChar(c) + Encode(s)
  {
    assert ([c] + s)[1..] == s;
  }

  /** Encoding inverts decoding: a byte string that decodes is the encoding
      of what it decodes to. */
  lemma {:induction false} EncodeDecode(b: seq<Byte>)
    requires Decode(b).Some?
    ensures Encode(Decode(b).value) == b
    decreases |b|
  {
    if b != [] {
      DecodeCons(b);
      var c := DecodeChar(b).value.0;
      var n := DecodeChar(b).value.1;
      EncodeDecodeChar(b);
      EncodeDecode(b[n..]);
      EncodeCons(c, Decode(b[n..]).value);
      SplitAt(b, n);
    }
  }
}

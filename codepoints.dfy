/** encode_unicode_codepoints (babeljs/execjs/runtime.py): every character
    outside 0x00-0x7f becomes a backslash, 'u' and its code point in
    lower-case hex, zero-padded to four digits. */
module Codepoints {
  import opened Numerals
  import opened Sequences

  predicate IsAscii(s: string) {
    forall i :: 0 <= i < |s| ==> s[i] as int < 0x80
  }

  /** What the substitution puts in place of one character. */
  function EscapeCodepoint(c: char): (r: string)
    ensures IsAscii(r)
    ensures c as int < 0x80 ==> r == [c]
    ensures c as int >= 0x80 ==>
      && |r| >= 6 && r[..2] == "\\u"
      && (forall i :: 2 <= i < |r| ==> IsLowerHexDigit(r[i]))
      && AllHex(r[2..]) && HexValue(r[2..]) == c as int
      && (|r| == 6 <==> c as int < 0x10000)
      && (|r| > 6 ==> r[2] != '0')
  {
    if c as int < 0x80 then [c]
    else
      var h := Hex04(c as int);
      Hex04Value(c as int);
      assert ("\\u" + h)[2..] == h;
      "\\u" + h
  }

  function EncodeUnicodeCodepoints(s: string): (r: string)
    ensures IsAscii(r)
    ensures |r| >= |s|
  {
    if s == [] then [] else EscapeCodepoint(s[0]) + EncodeUnicodeCodepoints(s[1..])
  }

  /** ASCII-only text is returned unchanged. */
  lemma {:induction false} AsciiUnchanged(s: string)
    requires IsAscii(s)
    ensures EncodeUnicodeCodepoints(s) == s
  {
    if s != [] {
      AsciiUnchanged(s[1..]);
      assert s == [s[0]] + s[1..];
    }
  }

  /** Characters are escaped one by one and keep their order. */
  lemma {:induction false} EncodeAppend(a: string, b: string)
    ensures EncodeUnicodeCodepoints(a + b) == EncodeUnicodeCodepoints(a) + EncodeUnicodeCodepoints(b)
  {
    if a != [] {
      TailOfAppend(a, b);
      EncodeCons(a + b);
      EncodeCons(a);
      EncodeAppend(a[1..], b);
      Assoc(EscapeCodepoint(a[0]), EncodeUnicodeCodepoints(a[1..]), EncodeUnicodeCodepoints(b));
    } else {
      assert a + b == b;
    }
  }

  /** The output is unchanged exactly for ASCII-only input. */
  lemma {:induction false} UnchangedIffAscii(s: string)
    ensures EncodeUnicodeCodepoints(s) == s <==> IsAscii(s)
  {
    if IsAscii(s) { AsciiUnchanged(s); }
  }

  /** Escaping twice is escaping once: the first pass leaves nothing to escape. */
  lemma {:induction false} Idempotent(s: string)
    ensures EncodeUnicodeCodepoints(EncodeUnicodeCodepoints(s)) == EncodeUnicodeCodepoints(s)
  {
    AsciiUnchanged(EncodeUnicodeCodepoints(s));
  }

  lemma {:induction false} EncodeCons(x: string)
    requires x != []
    ensures EncodeUnicodeCodepoints(x) == EscapeCodepoint(x[0]) + EncodeUnicodeCodepoints(x[1..])
  {
  }

  /** Output position of the escape of s[k]: the escapes of s[..k] come first. */
  lemma {:induction false} EscapeAt(s: string, k: nat)
    requires k < |s|
    ensures EncodeUnicodeCodepoints(s) ==
      EncodeUnicodeCodepoints(s[..k]) + EscapeCodepoint(s[k]) + EncodeUnicodeCodepoints(s[k + 1..])
  {
    var x, y, z := EncodeUnicodeCodepoints(s[..k]), EscapeCodepoint(s[k]), EncodeUnicodeCodepoints(s[k + 1..]);
    assert EncodeUnicodeCodepoints(s) == x + (y + z) by {
      var a, b := s[..k], s[k..];
      SplitAt(s, k);
      EncodeAppend(a, b);
      EncodeCons(b);
      assert b[0] == s[k] && b[1..] == s[k + 1..];
    }
    Assoc(x, y, z);
  }

  lemma {:induction false} EncodePair(c: char, d: char)
    ensures EncodeUnicodeCodepoints([c, d]) == EscapeCodepoint(c) + EscapeCodepoint(d)
  {
    EncodeCons([c, d]);
    assert [c, d][1..] == [d];
    EncodeCons([d]);
    assert [d][1..] == [];
    assert EscapeCodepoint(d) + [] == EscapeCodepoint(d);
  }

  lemma {:induction false} Escape4e16()
    ensures EscapeCodepoint('\U{4e16}') == "\\u4e16"
  {
    assert ToHex(0x4e) == "4e";
    assert ToHex(0x4e1) == "4e1";
    assert ToHex(0x4e16) == "4e16";
  }

  lemma {:induction false} Escape754c()
    ensures EscapeCodepoint('\U{754c}') == "\\u754c"
  {
    assert ToHex(0x75) == "75";
    assert ToHex(0x754) == "754";
    assert ToHex(0x754c) == "754c";
  }

  /** The doctest of the source: two CJK characters become two escapes. */
  lemma {:induction false} DoctestWorld()
    ensures EncodeUnicodeCodepoints("\U{4e16}\U{754c}") == "\\u4e16\\u754c"
  {
    EncodePair('\U{4e16}', '\U{754c}');
    Escape4e16();
    Escape754c();
  }
}

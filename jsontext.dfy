/** JSON texts as Python's json module writes them with its defaults
    (ensure_ascii=True, separators ", " and ": "), following section 7 of
    RFC 8259 for string literals, and a reference decoder for them. */
module JsonText {
  import opened Wrappers
  import opened Numerals
  import opened PyValues

  /** Printable ASCII, 0x20 to 0x7e: every character json.dumps writes. */
  predicate IsPrintable(s: string) {
    forall i :: 0 <= i < |s| ==> 0x20 <= s[i] as int <= 0x7e
  }

  lemma {:induction false} PrintableAppend(a: string, b: string)
    requires IsPrintable(a) && IsPrintable(b)
    ensures IsPrintable(a + b)
  {
    assert forall i :: |a| <= i < |a + b| ==> (a + b)[i] == b[i - |a|];
  }

  // ---------------------------------------------------------------------------
  // String literals

  /** The letter of the two-character escape json.dumps writes for quote,
      backslash and the five named control characters. */
  function ShortEscape(c: char): Option<char> {
    if c == '"' then Some('"')
    else if c == '\\' then Some('\\')
    else if c == '\n' then Some('n')
    else if c == '\r' then Some('r')
    else if c == '\t' then Some('t')
    else if c as int == 8 then Some('b')
    else if c as int == 12 then Some('f')
    else None
  }

  /** The escape json.dumps(..., ensure_ascii=True) writes for one character:
      a two-character escape where there is one, the character itself when it
      is printable ASCII, '\u' and four lower-case hex digits for the rest of
      the Basic Multilingual Plane, and a UTF-16 surrogate pair above it. */
  function QuoteChar(c: char): (r: string)
    ensures IsPrintable(r) && 1 <= |r| && r[0] != '"'
  {
    match ShortEscape(c)
    case Some(e) => ['\\', e]
    case None =>
      if 0x20 <= c as int <= 0x7e then [c]
      else if c as int < 0x10000 then UnicodeEscape(c as int)
      else SurrogatePair(c as int - 0x10000)
  }

  /** '\u' and the four hex digits of a code unit. */
  function UnicodeEscape(n: nat): (r: string)
    ensures IsPrintable(r) && |r| >= 6 && r[..2] == "\\u" && r[2..] == Hex04(n)
  {
    var h := Hex04(n);
    Hex04Value(n);
    assert forall i :: 2 <= i < |"\\u" + h| ==> ("\\u" + h)[i] == h[i - 2];
    "\\u" + h
  }

  /** The two escaped UTF-16 code units of a code point above 0xffff, given
      its offset n from 0x10000 (the source computes the units with shifts and
      masks, which for n < 0x100000 are this division and remainder). */
  function SurrogatePair(n: nat): (r: string)
    ensures IsPrintable(r)
    ensures r == UnicodeEscape(0xD800 + n / 0x400) + UnicodeEscape(0xDC00 + n % 0x400)
  {
    var hi, lo := UnicodeEscape(0xD800 + n / 0x400), UnicodeEscape(0xDC00 + n % 0x400);
    PrintableAppend(hi, lo);
    hi + lo
  }

  function QuoteBody(s: string): (r: string)
    ensures IsPrintable(r)
  {
    if s == [] then []
    else
      PrintableAppend(QuoteChar(s[0]), QuoteBody(s[1..]));
      QuoteChar(s[0]) + QuoteBody(s[1..])
  }

  /** json.dumps(s) of a Python string. */
  function Quote(s: string): (r: string)
    ensures IsPrintable(r) && 2 <= |r| && r[0] == '"' && r[|r| - 1] == '"'
  {
    PrintableAppend("\"", QuoteBody(s));
    PrintableAppend("\"" + QuoteBody(s), "\"");
    "\"" + QuoteBody(s) + "\""
  }

  // The decoder of string literals (section 7 of RFC 8259).

  function Hex4At(t: string): (r: Option<nat>)
    ensures r.Some? ==> |t| >= 4 && AllHex(t[..4]) && r.value == HexValue(t[..4])
    ensures r.Some? ==> r.value < 0x10000
  {
    if |t| >= 4 && AllHex(t[..4]) then
      HexValueBound(t[..4]);
      Some(HexValue(t[..4]))
    else None
  }

  lemma {:induction false} HexValueBound(s: string)
    requires AllHex(s)
    ensures HexValue(s) < Pow16(|s|)
  {
    if s != [] {
      HexValueBound(s[..|s| - 1]);
    }
  }

  /** The character of a '\u' escape whose four digits start t, with what
      follows it; a high surrogate must be followed by an escaped low one. */
  function ParseUnicodeEscape(t: string): (r: Option<(char, string)>)
    ensures r.Some? ==> |r.value.1| < |t|
  {
    match Hex4At(t)
    case None => None
    case Some(v) =>
      if 0xD800 <= v < 0xDC00 then
        if |t| >= 6 && t[4..6] == "\\u" then
          match Hex4At(t[6..])
          case Some(w) =>
            if 0xDC00 <= w < 0xE000 then
              Some(((0x10000 + (v - 0xD800) * 0x400 + (w - 0xDC00)) as char, t[10..]))
            else None
          case None => None
        else None
      else if 0xDC00 <= v < 0xE000 then None
      else Some((v as char, t[4..]))
  }

  /** The character of the escape that follows a backslash. */
  function ParseEscape(t: string): (r: Option<(char, string)>)
    ensures r.Some? ==> |r.value.1| < |t|
  {
    if t == [] then None
    else if t[0] == '"' then Some(('"', t[1..]))
    else if t[0] == '\\' then Some(('\\', t[1..]))
    else if t[0] == '/' then Some(('/', t[1..]))
    else if t[0] == 'b' then Some((8 as char, t[1..]))
    else if t[0] == 'f' then Some((12 as char, t[1..]))
    else if t[0] == 'n' then Some(('\n', t[1..]))
    else if t[0] == 'r' then Some(('\r', t[1..]))
    else if t[0] == 't' then Some(('\t', t[1..]))
    else if t[0] == 'u' then ParseUnicodeEscape(t[1..])
    else None
  }

  /** One character of a string literal body, escaped or not. */
  function NextChar(t: string): (r: Option<(char, string)>)
    ensures r.Some? ==> |r.value.1| < |t|
  {
    if t == [] then None
    else if t[0] == '\\' then ParseEscape(t[1..])
    else if t[0] == '"' || t[0] as int < 0x20 then None
    else Some((t[0], t[1..]))
  }

  /** The body of a string literal up to and including the closing quote. */
  function ParseStringBody(t: string): (r: Option<(string, string)>)
    ensures r.Some? ==> |r.value.1| < |t|
    decreases |t|
  {
    if t == [] then None
    else if t[0] == '"' then Some(([], t[1..]))
    else
      match NextChar(t)
      case None => None
      case Some((c, rest)) =>
        match ParseStringBody(rest)
        case None => None
        case Some((s, after)) => Some(([c] + s, after))
  }

  /** A string literal at the front of t: its value and what follows it. */
  function ParseString(t: string): (r: Option<(string, string)>)
    ensures r.Some? ==> |r.value.1| < |t|
  {
    if t != [] && t[0] == '"' then ParseStringBody(t[1..]) else None
  }

  lemma {:induction false} Hex04Front(n: nat, tail: string)
    requires n < 0x10000
    ensures Hex4At(Hex04(n) + tail) == Some(n)
    ensures (Hex04(n) + tail)[4..] == tail
  {
    Hex04Value(n);
    var h := Hex04(n);
    assert (h + tail)[..4] == h;
  }

  lemma {:induction false} UnicodeEscapeParses(n: nat, tail: string)
    requires n < 0x10000
    ensures (UnicodeEscape(n) + tail)[0] == '\\'
    ensures (UnicodeEscape(n) + tail)[1] == 'u'
    ensures (UnicodeEscape(n) + tail)[2..] == Hex04(n) + tail
    ensures Hex4At(Hex04(n) + tail) == Some(n) && (Hex04(n) + tail)[4..] == tail
  {
    var u := UnicodeEscape(n);
    assert u == "\\u" + Hex04(n);
    assert u + tail == "\\u" + (Hex04(n) + tail);
    Hex04Front(n, tail);
  }

  lemma {:induction false} ShortEscapeParses(c: char, tail: string)
    requires ShortEscape(c).Some?
    ensures ParseEscape([ShortEscape(c).value] + tail) == Some((c, tail))
  {
  }

  lemma {:induction false} BmpParses(c: char, tail: string)
    requires c as int < 0x10000
    ensures NextChar(UnicodeEscape(c as int) + tail) == Some((c, tail))
  {
    UnicodeEscapeParses(c as int, tail);
    var t := UnicodeEscape(c as int) + tail;
    assert t[1..][0] == 'u' && t[1..][1..] == Hex04(c as int) + tail;
  }

  lemma {:induction false} AstralParses(c: char, tail: string)
    requires c as int >= 0x10000
    ensures NextChar(SurrogatePair(c as int - 0x10000) + tail) == Some((c, tail))
  {
    var n := c as int - 0x10000;
    var hi, lo := 0xD800 + n / 0x400, 0xDC00 + n % 0x400;
    var second := UnicodeEscape(lo) + tail;
    var t := UnicodeEscape(hi) + second;
    assert SurrogatePair(n) + tail == t;
    UnicodeEscapeParses(hi, second);
    UnicodeEscapeParses(lo, tail);
    var u := t[1..][1..];
    assert u == Hex04(hi) + second;
    assert u[4..] == second;
    assert u[4..6] == "\\u";
    assert u[6..] == Hex04(lo) + tail;
    assert 0x10000 + (hi - 0xD800) * 0x400 + (lo - 0xDC00) == c as int;
  }

  /** The decoder reads back exactly the character QuoteChar escaped. */
  lemma {:induction false} QuoteCharParses(c: char, tail: string)
    ensures NextChar(QuoteChar(c) + tail) == Some((c, tail))
  {
    match ShortEscape(c)
    case Some(e) =>
      assert (QuoteChar(c) + tail)[1..] == [e] + tail;
      ShortEscapeParses(c, tail);
    case None =>
      if 0x20 <= c as int <= 0x7e {
      } else if c as int < 0x10000 {
        BmpParses(c, tail);
      } else {
        AstralParses(c, tail);
      }
  }

  lemma {:induction false} BodyStep(t: string, c: char, rest: string, s: string, after: string)
    requires t != [] && t[0] != '"' && NextChar(t) == Some((c, rest))
    requires ParseStringBody(rest) == Some((s, after))
    ensures ParseStringBody(t) == Some(([c] + s, after))
  {
  }

  lemma {:induction false} QuoteBodyParses(s: string, tail: string)
    ensures ParseStringBody(QuoteBody(s) + "\"" + tail) == Some((s, tail))
  {
    if s == [] {
      assert QuoteBody(s) + "\"" + tail == "\"" + tail;
    } else {
      var q := QuoteChar(s[0]);
      var rest := QuoteBody(s[1..]) + "\"" + tail;
      assert QuoteBody(s) + "\"" + tail == q + rest;
      QuoteCharParses(s[0], rest);
      QuoteBodyParses(s[1..], tail);
      assert (q + rest)[0] == q[0];
      BodyStep(q + rest, s[0], rest, s[1..], tail);
      assert [s[0]] + s[1..] == s;
    }
  }

  /** json.dumps of a string is read back by a JSON decoder as that string,
      whatever follows the literal. */
  lemma {:induction false} QuoteParses(s: string, tail: string)
    ensures ParseString(Quote(s) + tail) == Some((s, tail))
  {
    var body := QuoteBody(s) + "\"" + tail;
    assert Quote(s) + tail == "\"" + body;
    assert ("\"" + body)[1..] == body;
    QuoteBodyParses(s, tail);
  }
}

module JsonValues {
  import opened Wrappers
  import opened Numerals
  import opened PyValues
  import opened JsonText
  import opened Sequences

  // ---------------------------------------------------------------------------
  // json.dumps of a value

  /** json.dumps(v) with Python's defaults: ", " between items, ": " after
      keys, dict entries in insertion order. */
  function Dumps(v: Value): (r: string)
    ensures IsPrintable(r) && r != []
    ensures r[0] != ' ' && r[0] != ']' && r[0] != '}' && r[0] != ','
    decreases v
  {
    match v
    case Null => "null"
    case Bool(b) => if b then "true" else "false"
    case Int(i) => IntPrintable(i); IntToString(i)
    case Str(s) => Quote(s)
    case List(xs) =>
      PrintableAppend("[", DumpsItems(xs));
      PrintableAppend("[" + DumpsItems(xs), "]");
      "[" + DumpsItems(xs) + "]"
    case Dict(es) =>
      PrintableAppend("{", DumpsEntries(es));
      PrintableAppend("{" + DumpsEntries(es), "}");
      "{" + DumpsEntries(es) + "}"
  }

  lemma {:induction false} IntPrintable(i: int)
    ensures IsPrintable(IntToString(i))
  {
  }

  /** The items of a list, separated by ", ". */
  function DumpsItems(xs: seq<Value>): (r: string)
    ensures IsPrintable(r)
    decreases xs
  {
    if xs == [] then ""
    else if |xs| == 1 then Dumps(xs[0])
    else
      PrintableAppend(Dumps(xs[0]), ", ");
      PrintableAppend(Dumps(xs[0]) + ", ", DumpsItems(xs[1..]));
      Dumps(xs[0]) + ", " + DumpsItems(xs[1..])
  }

  function DumpsEntry(e: Entry): (r: string)
    ensures IsPrintable(r)
    decreases e
  {
    PrintableAppend(Quote(e.key), ": ");
    PrintableAppend(Quote(e.key) + ": ", Dumps(e.value));
    Quote(e.key) + ": " + Dumps(e.value)
  }

  /** The entries of a dict, separated by ", ". */
  function DumpsEntries(es: seq<Entry>): (r: string)
    ensures IsPrintable(r)
    decreases es
  {
    if es == [] then ""
    else if |es| == 1 then DumpsEntry(es[0])
    else
      PrintableAppend(DumpsEntry(es[0]), ", ");
      PrintableAppend(DumpsEntry(es[0]) + ", ", DumpsEntries(es[1..]));
      DumpsEntry(es[0]) + ", " + DumpsEntries(es[1..])
  }

  // ---------------------------------------------------------------------------
  // A reference decoder (section 2 to 7 of RFC 8259, integers only)

  predicate IsWs(c: char) {
    c == ' ' || c == '\t' || c == '\n' || c == '\r'
  }

  function SkipWs(t: string): (r: string)
    ensures |r| <= |t|
    ensures r == [] || !IsWs(r[0])
  {
    if t != [] && IsWs(t[0]) then SkipWs(t[1..]) else t
  }

  predicate IsDigit(c: char) {
    '0' <= c <= '9'
  }

  /** The number of decimal digits at the front of t. */
  function DigitRun(t: string): (n: nat)
    ensures n <= |t| && AllDecimal(t[..n])
    ensures n < |t| ==> !IsDigit(t[n])
  {
    if t != [] && IsDigit(t[0]) then
      var n := 1 + DigitRun(t[1..]);
      assert t[..n] == [t[0]] + t[1..][..n - 1];
      n
    else 0
  }

  /** The unsigned part of an integer literal: "0" or a digit run without a
      leading zero; a fraction or exponent after it makes the literal a
      float, which this decoder does not model. */
  function ParseMagnitude(d: string): (r: Option<(nat, string)>)
    ensures r.Some? ==> |r.value.1| < |d|
  {
    var n := DigitRun(d);
    if n == 0 then None
    else
      var len := if d[0] == '0' then 1 else n;
      var rest := d[len..];
      if rest != [] && (rest[0] == '.' || rest[0] == 'e' || rest[0] == 'E') then None
      else Some((DecimalValue(d[..len]), rest))
  }

  /** An integer literal at the front of t: an optional minus sign, then
      the magnitude. */
  function ParseInt(t: string): (r: Option<(Value, string)>)
    ensures r.Some? ==> |r.value.1| < |t|
  {
    if t != [] && t[0] == '-' then
      match ParseMagnitude(t[1..])
      case Some((m, rest)) => Some((Int(-(m as int)), rest))
      case None => None
    else
      match ParseMagnitude(t)
      case Some((m, rest)) => Some((Int(m), rest))
      case None => None
  }

  function StrOf(r: Option<(string, string)>): Option<(Value, string)> {
    match r
    case Some((s, rest)) => Some((Str(s), rest))
    case None => None
  }

  /** A JSON value at the front of t (after optional white space) and what
      follows it. */
  function ParseValue(t: string): (r: Option<(Value, string)>)
    ensures r.Some? ==> |r.value.1| < |t|
    decreases |t|, 0
  {
    var u := SkipWs(t);
    if u == [] then None
    else if u[0] == '"' then StrOf(ParseString(u))
    else if u[0] == '[' then ParseList(u[1..])
    else if u[0] == '{' then ParseDict(u[1..])
    else if StartsWith(u, "null") then Some((Null, u[4..]))
    else if StartsWith(u, "true") then Some((Bool(true), u[4..]))
    else if StartsWith(u, "false") then Some((Bool(false), u[5..]))
    else if u[0] == '-' || IsDigit(u[0]) then ParseInt(u)
    else None
  }

  /** What follows '[' up to and including the closing ']'. */
  function ParseList(t: string): (r: Option<(Value, string)>)
    ensures r.Some? ==> |r.value.1| < |t|
    decreases |t|, 2
  {
    var u := SkipWs(t);
    if u != [] && u[0] == ']' then Some((List([]), u[1..]))
    else ParseElements(t, [])
  }

  function ParseElements(t: string, acc: seq<Value>): (r: Option<(Value, string)>)
    ensures r.Some? ==> |r.value.1| < |t|
    decreases |t|, 1
  {
    match ParseValue(t)
    case None => None
    case Some((v, rest)) =>
      var u := SkipWs(rest);
      if u != [] && u[0] == ',' then ParseElements(u[1..], acc + [v])
      else if u != [] && u[0] == ']' then Some((List(acc + [v]), u[1..]))
      else None
  }

  /** What follows '{' up to and including the closing '}'. */
  function ParseDict(t: string): (r: Option<(Value, string)>)
    ensures r.Some? ==> |r.value.1| < |t|
    decreases |t|, 2
  {
    var u := SkipWs(t);
    if u != [] && u[0] == '}' then Some((Dict([]), u[1..]))
    else ParseMembers(t, [])
  }

  /** Members are collected as Python's dict() collects pairs: a repeated
      key keeps its first position and takes the last value. */
  function ParseMembers(t: string, acc: seq<Entry>): (r: Option<(Value, string)>)
    ensures r.Some? ==> |r.value.1| < |t|
    decreases |t|, 1
  {
    match ParseString(SkipWs(t))
    case None => None
    case Some((k, r1)) =>
      var u := SkipWs(r1);
      if u != [] && u[0] == ':' then
        match ParseValue(u[1..])
        case None => None
        case Some((v, r2)) =>
          var w := SkipWs(r2);
          if w != [] && w[0] == ',' then ParseMembers(w[1..], DictPut(acc, k, v))
          else if w != [] && w[0] == '}' then Some((Dict(DictPut(acc, k, v)), w[1..]))
          else None
      else None
  }

  /** json.loads restricted to the values modelled here. */
  function Loads(t: string): Option<Value> {
    match ParseValue(t)
    case Some((v, rest)) => if SkipWs(rest) == [] then Some(v) else None
    case None => None
  }

  // ---------------------------------------------------------------------------
  // Round trip

  /** A value Python can hold: the keys of every dict are distinct. */
  predicate WellFormed(v: Value)
    decreases v
  {
    match v
    case List(xs) => forall k :: 0 <= k < |xs| ==> WellFormed(xs[k])
    case Dict(es) => DistinctKeys(es) && forall k :: 0 <= k < |es| ==> WellFormedEntry(es[k])
    case _ => true
  }

  predicate WellFormedEntry(e: Entry)
    decreases e
  {
    WellFormed(e.value)
  }

  /** What may follow a value inside a dumped text. */
  predicate Delimited(rest: string) {
    rest == [] || rest[0] == ',' || rest[0] == ']' || rest[0] == '}'
  }

  lemma {:induction false} DecimalDigitsLeadingZero(n: nat)
    ensures DecimalDigits(n)[0] == '0' ==> n == 0 && |DecimalDigits(n)| == 1
  {
    if n >= 10 {
      DecimalDigitsLeadingZero(n / 10);
      assert DecimalDigits(n)[0] == DecimalDigits(n / 10)[0];
    }
  }

  lemma {:induction false} DigitRunAppend(s: string, rest: string)
    requires AllDecimal(s) && Delimited(rest)
    ensures DigitRun(s + rest) == |s|
  {
    if s == [] {
      assert s + rest == rest;
    } else {
      assert (s + rest)[1..] == s[1..] + rest;
      DigitRunAppend(s[1..], rest);
    }
  }

  /** The magnitude digits followed by a delimiter parse as that magnitude. */
  lemma {:induction false} MagnitudeParses(mag: nat, rest: string)
    requires Delimited(rest)
    ensures ParseMagnitude(DecimalDigits(mag) + rest) == Some((mag, rest))
  {
    var s := DecimalDigits(mag);
    var d := s + rest;
    DigitRunAppend(s, rest);
    DecimalDigitsLeadingZero(mag);
    DecimalValueOfDigits(mag);
    assert d[..|s|] == s;
    assert d[|s|..] == rest;
  }

  lemma {:induction false} IntParses(i: int, rest: string)
    requires Delimited(rest)
    ensures ParseInt(IntToString(i) + rest) == Some((Int(i), rest))
  {
    if i < 0 {
      var d := DecimalDigits(-i) + rest;
      MagnitudeParses(-i, rest);
      NegativeParses(d, -i, rest);
      Assoc("-", DecimalDigits(-i), rest);
    } else {
      var d := DecimalDigits(i) + rest;
      MagnitudeParses(i, rest);
      assert d[0] == DecimalDigits(i)[0];
      UnsignedParses(d, i, rest);
      assert IntToString(i) + rest == d;
    }
  }

  lemma {:induction false} NegativeParses(d: string, m: nat, rest: string)
    requires ParseMagnitude(d) == Some((m, rest))
    ensures ParseInt("-" + d) == Some((Int(-(m as int)), rest))
  {
    assert ("-" + d)[1..] == d;
  }

  lemma {:induction false} UnsignedParses(d: string, m: nat, rest: string)
    requires d != [] && d[0] != '-' && ParseMagnitude(d) == Some((m, rest))
    ensures ParseInt(d) == Some((Int(m), rest))
  {
  }

  lemma {:induction false} SkipNothing(t: string)
    requires t != [] && !IsWs(t[0])
    ensures SkipWs(t) == t
  {
  }

  lemma {:induction false} ElementsSkipSpace(t: string, acc: seq<Value>)
    ensures ParseElements(" " + t, acc) == ParseElements(t, acc)
  {
    assert (" " + t)[1..] == t;
    assert SkipWs(" " + t) == SkipWs(t);
    assert ParseValue(" " + t) == ParseValue(t);
  }

  lemma {:induction false} MembersSkipSpace(t: string, acc: seq<Entry>)
    ensures ParseMembers(" " + t, acc) == ParseMembers(t, acc)
  {
    assert (" " + t)[1..] == t;
    assert SkipWs(" " + t) == SkipWs(t);
  }

  lemma {:induction false} ListDispatch(t: string)
    requires t != [] && t[0] == '['
    ensures ParseValue(t) == ParseList(t[1..])
  {
    SkipNothing(t);
  }

  lemma {:induction false} DictDispatch(t: string)
    requires t != [] && t[0] == '{'
    ensures ParseValue(t) == ParseDict(t[1..])
  {
    SkipNothing(t);
  }

  lemma {:induction false} StrDispatch(t: string)
    requires t != [] && t[0] == '"'
    ensures ParseValue(t) == StrOf(ParseString(t))
  {
    SkipNothing(t);
  }

  lemma {:induction false} IntDispatch(t: string)
    requires t != [] && (t[0] == '-' || IsDigit(t[0]))
    ensures ParseValue(t) == ParseInt(t)
  {
    SkipNothing(t);
    NotLiteral(t, "null");
    NotLiteral(t, "true");
    NotLiteral(t, "false");
  }

  lemma {:induction false} NotLiteral(t: string, lit: string)
    requires t != [] && lit != [] && t[0] != lit[0]
    ensures !StartsWith(t, lit)
  {
    if |lit| <= |t| {
      assert t[..|lit|][0] == t[0];
    }
  }

  lemma {:induction false} LiteralParses(v: Value, rest: string)
    requires v.Null? || v.Bool?
    ensures ParseValue(Dumps(v) + rest) == Some((v, rest))
  {
    var t := Dumps(v) + rest;
    SkipNothing(t);
    if v.Null? {
      assert t[..4] == "null" && t[4..] == rest;
    } else if v.b {
      assert t[..4] == "true" && t[4..] == rest;
      assert t[..4] != "null";
    } else {
      assert t[..4] != "null" && t[..4] != "true";
      assert t[..5] == "false" && t[5..] == rest;
    }
  }

  /** The reference decoder reads back every well-formed value json.dumps
      wrote, whatever delimiter follows it. */
  lemma {:induction false} DumpsParses(v: Value, rest: string)
    requires WellFormed(v) && Delimited(rest)
    ensures ParseValue(Dumps(v) + rest) == Some((v, rest))
    decreases v, 2
  {
    match v
    case Null => LiteralParses(v, rest);
    case Bool(_) => LiteralParses(v, rest);
    case Int(i) => IntValueParses(i, rest);
    case Str(s) => StrValueParses(s, rest);
    case List(xs) => ListValueParses(xs, rest);
    case Dict(es) => DictValueParses(es, rest);
  }

  lemma {:induction false} IntValueParses(i: int, rest: string)
    requires Delimited(rest)
    ensures ParseValue(Dumps(Int(i)) + rest) == Some((Int(i), rest))
  {
    var t := IntToString(i) + rest;
    assert t[0] == IntToString(i)[0];
    IntDispatch(t);
    IntParses(i, rest);
  }

  lemma {:induction false} StrValueParses(s: string, rest: string)
    ensures ParseValue(Dumps(Str(s)) + rest) == Some((Str(s), rest))
  {
    var t := Quote(s) + rest;
    assert t[0] == '"';
    StrDispatch(t);
    QuoteParses(s, rest);
  }

  lemma {:induction false} ListValueParses(xs: seq<Value>, rest: string)
    requires WellFormed(List(xs)) && Delimited(rest)
    ensures ParseValue(Dumps(List(xs)) + rest) == Some((List(xs), rest))
    decreases List(xs), 1
  {
    var t := Dumps(List(xs)) + rest;
    assert t == "[" + (DumpsItems(xs) + "]" + rest);
    ListDispatch(t);
    ListParses(xs, rest);
  }

  lemma {:induction false} DictValueParses(es: seq<Entry>, rest: string)
    requires WellFormed(Dict(es)) && Delimited(rest)
    ensures ParseValue(Dumps(Dict(es)) + rest) == Some((Dict(es), rest))
    decreases Dict(es), 1
  {
    var t := Dumps(Dict(es)) + rest;
    assert t == "{" + (DumpsEntries(es) + "}" + rest);
    DictDispatch(t);
    DictParses(es, rest);
  }

  lemma {:induction false} ListParses(xs: seq<Value>, rest: string)
    requires forall k :: 0 <= k < |xs| ==> WellFormed(xs[k])
    requires Delimited(rest)
    ensures ParseList(DumpsItems(xs) + "]" + rest) == Some((List(xs), rest))
    decreases xs, 1
  {
    var u := DumpsItems(xs) + "]" + rest;
    if xs == [] {
      assert u == "]" + rest;
    } else {
      ItemsHead(xs);
      assert u[0] == Dumps(xs[0])[0];
      SkipNothing(u);
      ItemsParse(xs, [], rest);
      assert [] + xs == xs;
    }
  }

  lemma {:induction false} DictParses(es: seq<Entry>, rest: string)
    requires forall k :: 0 <= k < |es| ==> WellFormedEntry(es[k])
    requires DistinctKeys(es) && Delimited(rest)
    ensures ParseDict(DumpsEntries(es) + "}" + rest) == Some((Dict(es), rest))
    decreases es, 1
  {
    var u := DumpsEntries(es) + "}" + rest;
    if es == [] {
      assert u == "}" + rest;
    } else {
      EntriesHead(es);
      assert u[0] == '"';
      SkipNothing(u);
      assert [] + es == es;
      EntriesParse(es, [], rest);
    }
  }

  lemma {:induction false} ItemsHead(xs: seq<Value>)
    requires xs != []
    ensures DumpsItems(xs) != [] && DumpsItems(xs)[0] == Dumps(xs[0])[0]
  {
  }

  lemma {:induction false} EntriesHead(es: seq<Entry>)
    requires es != []
    ensures DumpsEntries(es) != [] && DumpsEntries(es)[0] == '"'
  {
  }

  lemma {:induction false} ElementsNext(t: string, acc: seq<Value>, v: Value, r: string)
    requires ParseValue(t).Some? && ParseValue(t).value.0 == v
    ensures ParseValue(t).value.1 == "]" + r ==> ParseElements(t, acc) == Some((List(acc + [v]), r))
    ensures ParseValue(t).value.1 == ", " + r ==> ParseElements(t, acc) == ParseElements(r, acc + [v])
  {
    var after := ParseValue(t).value.1;
    if after == "]" + r {
      assert SkipWs(after) == after && after[1..] == r;
    }
    if after == ", " + r {
      assert SkipWs(after) == after && after[1..] == " " + r;
      ElementsSkipSpace(r, acc + [v]);
    }
  }

  lemma {:induction false} ItemsParse(xs: seq<Value>, acc: seq<Value>, rest: string)
    requires xs != [] && forall k :: 0 <= k < |xs| ==> WellFormed(xs[k])
    ensures ParseElements(DumpsItems(xs) + "]" + rest, acc) == Some((List(acc + xs), rest))
    decreases xs, 0
  {
    var head := Dumps(xs[0]);
    if |xs| == 1 {
      var after := "]" + rest;
      assert DumpsItems(xs) + "]" + rest == head + after;
      DumpsParses(xs[0], after);
      ElementsNext(head + after, acc, xs[0], rest);
      assert acc + [xs[0]] == acc + xs;
    } else {
      var tail := DumpsItems(xs[1..]) + "]" + rest;
      assert DumpsItems(xs) + "]" + rest == head + (", " + tail);
      DumpsParses(xs[0], ", " + tail);
      ElementsNext(head + (", " + tail), acc, xs[0], tail);
      ItemsParse(xs[1..], acc + [xs[0]], rest);
      ItemsAcc(xs, acc);
    }
  }

  lemma {:induction false} ItemsAcc(xs: seq<Value>, acc: seq<Value>)
    requires xs != []
    ensures acc + [xs[0]] + xs[1..] == acc + xs
  {
  }

  lemma {:induction false} KeyAbsent(acc: seq<Entry>, k: string, v: Value)
    requires forall i :: 0 <= i < |acc| ==> acc[i].key != k
    ensures DictPut(acc, k, v) == acc + [Entry(k, v)]
  {
  }

  /** One member: key literal, ": ", value, then a delimiter. */
  lemma {:induction false} MembersNext(t: string, k: string, x: string, acc: seq<Entry>, v: Value, r: string)
    requires t == Quote(k) + (": " + x)
    requires ParseValue(x).Some? && ParseValue(x).value.0 == v
    ensures ParseValue(x).value.1 == "}" + r ==> ParseMembers(t, acc) == Some((Dict(DictPut(acc, k, v)), r))
    ensures ParseValue(x).value.1 == ", " + r ==> ParseMembers(t, acc) == ParseMembers(r, DictPut(acc, k, v))
  {
    var after := ParseValue(x).value.1;
    if after == "}" + r {
      MemberClose(t, k, x, acc, r);
    }
    if after == ", " + r {
      MemberComma(t, k, x, acc, r);
      MembersSkipSpace(r, DictPut(acc, k, ParseValue(x).value.0));
    }
  }

  lemma {:induction false} MemberClose(t: string, k: string, x: string, acc: seq<Entry>, r: string)
    requires t == Quote(k) + (": " + x)
    requires ParseValue(x).Some? && ParseValue(x).value.1 == "}" + r
    ensures ParseMembers(t, acc) == Some((Dict(DictPut(acc, k, ParseValue(x).value.0)), r))
  {
    var after := ParseValue(x).value.1;
    SkipNothing(after);
    assert after[0] == '}' && after[1..] == r;
    MemberStep(t, k, x, acc);
  }

  lemma {:induction false} MemberComma(t: string, k: string, x: string, acc: seq<Entry>, r: string)
    requires t == Quote(k) + (": " + x)
    requires ParseValue(x).Some? && ParseValue(x).value.1 == ", " + r
    ensures ParseMembers(t, acc) == ParseMembers(" " + r, DictPut(acc, k, ParseValue(x).value.0))
  {
    var after := ParseValue(x).value.1;
    SkipNothing(after);
    assert after[0] == ',' && after[1..] == " " + r;
    MemberStep(t, k, x, acc);
  }

  /** One unfolding of the member loop past the key, the colon and the value. */
  lemma {:induction false} MemberStep(t: string, k: string, x: string, acc: seq<Entry>)
    requires t == Quote(k) + (": " + x)
    requires ParseValue(x).Some?
    ensures var v := ParseValue(x).value.0;
            var w := SkipWs(ParseValue(x).value.1);
            ParseMembers(t, acc) ==
              if w != [] && w[0] == ',' then ParseMembers(w[1..], DictPut(acc, k, v))
              else if w != [] && w[0] == '}' then Some((Dict(DictPut(acc, k, v)), w[1..]))
              else None
  {
    MemberHead(t, k, x);
  }

  /** The key literal and the colon of a member. */
  lemma {:induction false} MemberHead(t: string, k: string, x: string)
    requires t == Quote(k) + (": " + x)
    ensures ParseString(SkipWs(t)) == Some((k, ": " + x))
    ensures SkipWs(": " + x) == ": " + x
    ensures ParseValue((": " + x)[1..]) == ParseValue(x)
  {
    assert t[0] == '"';
    SkipNothing(t);
    QuoteParses(k, ": " + x);
    var u := ": " + x;
    SkipNothing(u);
    assert u[1..] == " " + x;
    assert SkipWs(" " + x) == SkipWs(x);
  }

  lemma {:induction false} EntriesLast(es: seq<Entry>, rest: string)
    requires |es| == 1
    ensures DumpsEntries(es) + "}" + rest == Quote(es[0].key) + (": " + (Dumps(es[0].value) + ("}" + rest)))
  {
  }

  lemma {:induction false} EntriesCons(es: seq<Entry>, rest: string)
    requires |es| > 1
    ensures DumpsEntries(es) + "}" + rest
      == Quote(es[0].key) + (": " + (Dumps(es[0].value) + (", " + (DumpsEntries(es[1..]) + "}" + rest))))
  {
    var q, d, m := Quote(es[0].key), Dumps(es[0].value), DumpsEntries(es[1..]);
    assert DumpsEntry(es[0]) == q + ": " + d;
    assert DumpsEntries(es) == q + ": " + d + ", " + m;
    Regroup(q, d, m, rest);
  }

  lemma {:induction false} Regroup(q: string, d: string, m: string, rest: string)
    ensures q + ": " + d + ", " + m + "}" + rest == q + (": " + (d + (", " + (m + "}" + rest))))
  {
    var a := q + ": " + d;
    assert a + ", " + m + "}" + rest == a + (", " + (m + "}" + rest));
    assert q + ": " + d + (", " + (m + "}" + rest)) == q + (": " + (d + (", " + (m + "}" + rest))));
  }

  lemma {:induction false} EntriesParse(es: seq<Entry>, acc: seq<Entry>, rest: string)
    requires es != [] && forall k :: 0 <= k < |es| ==> WellFormedEntry(es[k])
    requires DistinctKeys(acc + es)
    ensures ParseMembers(DumpsEntries(es) + "}" + rest, acc) == Some((Dict(acc + es), rest))
    decreases es, 0
  {
    var e := es[0];
    assert WellFormedEntry(es[0]);
    EntriesAcc(es, acc);
    var t := DumpsEntries(es) + "}" + rest;
    var value := Dumps(e.value);
    if |es| == 1 {
      var after := "}" + rest;
      EntriesLast(es, rest);
      DumpsParses(e.value, after);
      MembersNext(t, e.key, value + after, acc, e.value, rest);
      assert acc + [e] == acc + es;
    } else {
      var tail := DumpsEntries(es[1..]) + "}" + rest;
      var after := ", " + tail;
      EntriesCons(es, rest);
      DumpsParses(e.value, after);
      MembersNext(t, e.key, value + after, acc, e.value, tail);
      EntriesParse(es[1..], acc + [e], rest);
    }
  }

  lemma {:induction false} EntriesAcc(es: seq<Entry>, acc: seq<Entry>)
    requires es != [] && DistinctKeys(acc + es)
    ensures DictPut(acc, es[0].key, es[0].value) == acc + [es[0]]
    ensures acc + [es[0]] + es[1..] == acc + es
    ensures DistinctKeys(acc + [es[0]] + es[1..])
  {
    var all := acc + es;
    assert acc + [es[0]] + es[1..] == all;
    forall i | 0 <= i < |acc|
      ensures acc[i].key != es[0].key
    {
      assert all[i] == acc[i] && all[|acc|] == es[0];
    }
    KeyAbsent(acc, es[0].key, es[0].value);
  }

  /** json.loads(json.dumps(v)) == v for every value Python can hold. */
  lemma {:induction false} LoadsDumps(v: Value)
    requires WellFormed(v)
    ensures Loads(Dumps(v)) == Some(v)
  {
    DumpsParses(v, []);
    assert Dumps(v) + [] == Dumps(v);
  }
}

/** Runner templates and their placeholders (Runtime.Context._compile).
    A runner template is JavaScript text holding the placeholders
    `#{source}`, `#{encoded_source}` and `#{json2_source}`; compiling it
    replaces every placeholder in one left-to-right pass, the way re.sub
    does with the alternation of the three escaped placeholder strings. */
module Templates {
  import opened Wrappers
  import opened PyValues
  import opened Codepoints
  import opened JsonText
  import opened Sequences

  /** The three placeholders. */
  datatype Slot = SourceSlot | EncodedSlot | PolyfillSlot

  function Tag(k: Slot): (r: string)
    ensures |r| >= 2 && r[0] == '#' && r[1] == '{'
    ensures forall i :: 1 <= i < |r| ==> r[i] != '#'
  {
    match k
    case SourceSlot => "#{source}"
    case EncodedSlot => "#{encoded_source}"
    case PolyfillSlot => "#{json2_source}"
  }

  /** The placeholder that starts `t`, tried in the order of the
      replacement table. */
  function MatchAt(t: string): (r: Option<Slot>)
    ensures r.Some? ==> StartsWith(t, Tag(r.value))
    ensures r.None? ==> forall k :: !StartsWith(t, Tag(k))
  {
    if StartsWith(t, Tag(SourceSlot)) then Some(SourceSlot)
    else if StartsWith(t, Tag(EncodedSlot)) then Some(EncodedSlot)
    else if StartsWith(t, Tag(PolyfillSlot)) then Some(PolyfillSlot)
    else None
  }

  /** The text `#{encoded_source}` stands for: json.dumps of the source,
      escaped to ASCII and wrapped in an immediately invoked function. */
  function EncodedSource(source: string): (r: string)
    ensures IsPrintable(r)
    ensures ParseString(r) == Some(("(function(){ " + EncodeUnicodeCodepoints(source) + " })()", ""))
  {
    var wrapped := "(function(){ " + EncodeUnicodeCodepoints(source) + " })()";
    QuoteParses(wrapped, "");
    assert Quote(wrapped) + "" == Quote(wrapped);
    Quote(wrapped)
  }

  /** What a placeholder is replaced by. */
  function Replacement(k: Slot, source: string, polyfill: string): string {
    match k
    case SourceSlot => source
    case EncodedSlot => EncodedSource(source)
    case PolyfillSlot => polyfill
  }

  /** re.sub over the template: at each position the first placeholder that
      matches is replaced and the scan resumes after it; any other character
      is copied. The replacement text is never scanned again. */
  function Compile(template: string, source: string, polyfill: string): (r: string)
    decreases |template|
  {
    if template == [] then []
    else match MatchAt(template)
      case Some(k) =>
        Replacement(k, source, polyfill) + Compile(template[|Tag(k)|..], source, polyfill)
      case None =>
        [template[0]] + Compile(template[1..], source, polyfill)
  }

  /** No placeholder starts anywhere in `t`. */
  predicate NoPlaceholder(t: string) {
    forall i :: 0 <= i < |t| ==> MatchAt(t[i..]) == None
  }

  // ---------------------------------------------------------------------------
  // Properties of Compile

  /** A placeholder is replaced by its text, and what follows is compiled on
      its own: the inserted text is not rescanned. */
  lemma {:induction false} CompilePlaceholder(k: Slot, rest: string, source: string, polyfill: string)
    ensures Compile(Tag(k) + rest, source, polyfill)
      == Replacement(k, source, polyfill) + Compile(rest, source, polyfill)
  {
    var t := Tag(k) + rest;
    assert t[..|Tag(k)|] == Tag(k);
    assert t[|Tag(k)|..] == rest;
    match k
    case SourceSlot =>
    case EncodedSlot =>
      assert t[2] != Tag(SourceSlot)[2];
    case PolyfillSlot =>
      assert t[2] != Tag(SourceSlot)[2];
      assert t[2] != Tag(EncodedSlot)[2];
  }

  /** A placeholder cannot begin inside `a` and run into text that starts
      with '#', because '#' appears in a placeholder only at its start. */
  lemma {:induction false} NoStraddle(a: string, b: string)
    requires a != [] && MatchAt(a) == None
    requires b == [] || b[0] == '#'
    ensures MatchAt(a + b) == None
  {
    forall k: Slot
      ensures !StartsWith(a + b, Tag(k))
    {
      var tag := Tag(k);
      if |tag| <= |a| {
        assert a[..|tag|] == (a + b)[..|tag|];
      } else if |a| < |a + b| {
        assert (a + b)[|a|] == b[0];
      }
    }
  }

  lemma {:induction false} NoPlaceholderTail(a: string)
    requires a != [] && NoPlaceholder(a)
    ensures MatchAt(a) == None && NoPlaceholder(a[1..])
  {
    assert a[0..] == a;
    forall i | 0 <= i < |a[1..]|
      ensures MatchAt(a[1..][i..]) == None
    {
      assert a[1..][i..] == a[i + 1..];
    }
  }

  /** A character that starts no placeholder is copied. */
  lemma {:induction false} CompileCopy(t: string, source: string, polyfill: string)
    requires t != [] && MatchAt(t) == None
    ensures Compile(t, source, polyfill) == [t[0]] + Compile(t[1..], source, polyfill)
  {
  }

  /** Text with no placeholder in it is copied unchanged, provided the text
      after it is empty or begins a placeholder or another '#'. */
  lemma {:induction false} CompileText(a: string, b: string, source: string, polyfill: string)
    requires NoPlaceholder(a)
    requires b == [] || b[0] == '#'
    ensures Compile(a + b, source, polyfill) == a + Compile(b, source, polyfill)
    decreases |a|
  {
    if a == [] {
      assert a + b == b;
    } else {
      var x, y := a[1..], Compile(b, source, polyfill);
      assert Compile(a + b, source, polyfill) == [a[0]] + (x + y) by {
        NoPlaceholderTail(a);
        NoStraddle(a, b);
        CompileCopy(a + b, source, polyfill);
        TailOfAppend(a, b);
        CompileText(x, b, source, polyfill);
      }
      Assoc([a[0]], x, y);
      assert [a[0]] + x == a;
    }
  }

  /** A template with no placeholder is returned as it is. */
  lemma {:induction false} CompileIdentity(t: string, source: string, polyfill: string)
    requires NoPlaceholder(t)
    ensures Compile(t, source, polyfill) == t
  {
    CompileText(t, [], source, polyfill);
    assert t + [] == t;
  }

  /** The source may itself contain a placeholder: it is inserted literally. */
  lemma {:induction false} SourceNotRescanned(polyfill: string)
    ensures Compile("#{source}", "#{source}", polyfill) == "#{source}"
  {
    CompilePlaceholder(SourceSlot, [], "#{source}", polyfill);
    assert Tag(SourceSlot) + [] == "#{source}";
  }

  // ---------------------------------------------------------------------------
  // Templates as pieces

  /** A template seen as literal text and placeholders. */
  datatype Piece = Text(s: string) | Placeholder(k: Slot)

  /** The template text the pieces spell. */
  function Render(ps: seq<Piece>): string {
    if ps == [] then []
    else
      match ps[0]
      case Text(s) => s + Render(ps[1..])
      case Placeholder(k) => Tag(k) + Render(ps[1..])
  }

  /** The intended output: text kept, each placeholder replaced. */
  function Fill(ps: seq<Piece>, source: string, polyfill: string): string {
    if ps == [] then []
    else
      match ps[0]
      case Text(s) => s + Fill(ps[1..], source, polyfill)
      case Placeholder(k) => Replacement(k, source, polyfill) + Fill(ps[1..], source, polyfill)
  }

  /** Every text piece holds no placeholder and is followed by a placeholder
      or ends the template. */
  predicate Separated(ps: seq<Piece>) {
    forall j :: 0 <= j < |ps| && ps[j].Text? ==>
      NoPlaceholder(ps[j].s) && (j + 1 == |ps| || ps[j + 1].Placeholder?)
  }

  lemma {:induction false} RenderStart(ps: seq<Piece>)
    requires ps != [] && ps[0].Placeholder?
    ensures Render(ps) != [] && Render(ps)[0] == '#'
  {
  }

  /** Compiling the rendered pieces gives the filled pieces: every
      placeholder is replaced by its text and everything else is kept. */
  lemma {:induction false} CompileFill(ps: seq<Piece>, source: string, polyfill: string)
    requires Separated(ps)
    ensures Compile(Render(ps), source, polyfill) == Fill(ps, source, polyfill)
    decreases |ps|
  {
    if ps != [] {
      assert Separated(ps[1..]) by {
        forall j | 0 <= j < |ps[1..]| && ps[1..][j].Text?
          ensures NoPlaceholder(ps[1..][j].s) && (j + 1 == |ps[1..]| || ps[1..][j + 1].Placeholder?)
        {
          assert ps[1..][j] == ps[j + 1];
        }
      }
      CompileFill(ps[1..], source, polyfill);
      match ps[0]
      case Text(s) =>
        if |ps| > 1 {
          RenderStart(ps[1..]);
        }
        CompileText(s, Render(ps[1..]), source, polyfill);
      case Placeholder(k) =>
        CompilePlaceholder(k, Render(ps[1..]), source, polyfill);
    }
  }

  /** A placeholder that starts `a` still starts `a + b`. */
  lemma {:induction false} MatchExtends(a: string, b: string)
    ensures MatchAt(a).Some? ==> MatchAt(a + b).Some?
  {
    if MatchAt(a).Some? {
      var tag := Tag(MatchAt(a).value);
      assert (a + b)[..|tag|] == a[..|tag|];
      assert StartsWith(a + b, tag);
    }
  }

  lemma {:induction false} NoPlaceholderCons(c: char, s: string)
    requires MatchAt([c] + s) == None && NoPlaceholder(s)
    ensures NoPlaceholder([c] + s)
  {
    var x := [c] + s;
    forall i | 0 <= i < |x| ensures MatchAt(x[i..]) == None {
      if i > 0 {
        assert x[i..] == s[i - 1..];
      }
    }
  }

  lemma {:induction false} SeparatedCons(p: Piece, ps: seq<Piece>)
    requires Separated(ps)
    requires p.Text? ==> NoPlaceholder(p.s) && (ps == [] || ps[0].Placeholder?)
    ensures Separated([p] + ps)
    ensures Render([p] + ps) == (if p.Text? then p.s else Tag(p.k)) + Render(ps)
  {
    var x := [p] + ps;
    assert x[0] == p && x[1..] == ps;
    forall j | 0 <= j < |x| && x[j].Text?
      ensures NoPlaceholder(x[j].s) && (j + 1 == |x| || x[j + 1].Placeholder?)
    {
      if j > 0 {
        assert x[j] == ps[j - 1];
        if j + 1 < |x| {
          assert x[j + 1] == ps[j];
        }
      }
    }
  }

  lemma {:induction false} SeparatedTail(ps: seq<Piece>)
    requires ps != [] && Separated(ps)
    ensures Separated(ps[1..])
  {
    forall j | 0 <= j < |ps[1..]| && ps[1..][j].Text?
      ensures NoPlaceholder(ps[1..][j].s) && (j + 1 == |ps[1..]| || ps[1..][j + 1].Placeholder?)
    {
      assert ps[1..][j] == ps[j + 1];
    }
  }

  /** Every template is literal text and placeholders: the pieces that
      CompileFill speaks about cover all templates. */
  lemma {:induction false} Decompose(t: string) returns (ps: seq<Piece>)
    ensures Separated(ps) && Render(ps) == t
    decreases |t|
  {
    if t == [] {
      ps := [];
    } else if MatchAt(t).Some? {
      var k := MatchAt(t).value;
      var rest := Decompose(t[|Tag(k)|..]);
      SeparatedCons(Placeholder(k), rest);
      ps := [Placeholder(k)] + rest;
      assert t == Tag(k) + t[|Tag(k)|..];
    } else {
      var rest := Decompose(t[1..]);
      assert t == [t[0]] + t[1..];
      if rest != [] && rest[0].Text? {
        var text := [t[0]] + rest[0].s;
        SeparatedTail(rest);
        assert Render(rest) == rest[0].s + Render(rest[1..]);
        assert t == text + Render(rest[1..]);
        MatchExtends(text, Render(rest[1..]));
        NoPlaceholderCons(t[0], rest[0].s);
        SeparatedCons(Text(text), rest[1..]);
        ps := [Text(text)] + rest[1..];
      } else {
        MatchExtends([t[0]], t[1..]);
        NoPlaceholderCons(t[0], []);
        assert [t[0]] + [] == [t[0]];
        SeparatedCons(Text([t[0]]), rest);
        ps := [Text([t[0]])] + rest;
      }
    }
  }

  /** _compile on any template: the filled pieces of its decomposition. */
  lemma {:induction false} CompileAnyTemplate(t: string, source: string, polyfill: string)
    ensures exists ps :: Separated(ps) && Render(ps) == t && Compile(t, source, polyfill) == Fill(ps, source, polyfill)
  {
    var ps := Decompose(t);
    CompileFill(ps, source, polyfill);
  }
}

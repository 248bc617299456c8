/** The JavaScript text Runtime.Context.eval and Context.call build before
    handing it to exec_, and the preamble join at the start of exec_. */
module Scripts {
  import opened Wrappers
  import opened PyValues
  import opened JsonText
  import opened JsonValues

  /** str.isspace for one character: the Unicode White_Space characters
      Python counts, including the information separators 0x1c-0x1f. */
  predicate IsPySpace(c: char) {
    || ('\t' <= c <= '\r')
    || ('\U{1c}' <= c <= '\U{20}')
    || c == '\U{85}' || c == '\U{a0}' || c == '\U{1680}'
    || ('\U{2000}' <= c <= '\U{200a}')
    || c == '\U{2028}' || c == '\U{2029}' || c == '\U{202f}' || c == '\U{205f}' || c == '\U{3000}'
  }

  /** `not source.strip()`: the source is empty or only white space. */
  predicate IsBlank(s: string) {
    forall i :: 0 <= i < |s| ==> IsPySpace(s[i])
  }

  const EvalPrefix: string := "return eval("
  const OpenParen: string := "'('+"
  const CloseParen: string := "+')'"

  /** The argument of eval in the generated code. */
  function EvalArgument(source: string): (r: string)
    ensures IsPrintable(r)
  {
    if IsBlank(source) then "''"
    else
      PrintableAppend(OpenParen, Quote(source));
      PrintableAppend(OpenParen + Quote(source), CloseParen);
      OpenParen + Quote(source) + CloseParen
  }

  /** Context.eval: the code exec_ runs for an expression. */
  function EvalCode(source: string): (r: string)
    ensures IsPrintable(r)
  {
    PrintableAppend(EvalPrefix, EvalArgument(source));
    PrintableAppend(EvalPrefix + EvalArgument(source), ")");
    EvalPrefix + EvalArgument(source) + ")"
  }

  /** What the JavaScript engine passes to eval when it runs `code`: the
      argument is '' or '(' + a JSON string literal + ')'. None for code of
      any other shape. */
  function EvaluatedText(code: string): Option<string> {
    if |code| < |EvalPrefix| + 1 || code[..|EvalPrefix|] != EvalPrefix || code[|code| - 1] != ')' then None
    else
      var arg := code[|EvalPrefix|..|code| - 1];
      if arg == "''" then Some([])
      else if |arg| >= |OpenParen| + |CloseParen| && arg[..|OpenParen|] == OpenParen
        && arg[|arg| - |CloseParen|..] == CloseParen
      then
        match ParseString(arg[|OpenParen|..|arg| - |CloseParen|])
        case Some((s, rest)) => if rest == [] then Some("(" + s + ")") else None
        case None => None
      else None
  }

  lemma {:induction false} EvalCodeArgument(source: string)
    ensures var code := EvalCode(source);
      && |code| >= |EvalPrefix| + 1
      && code[..|EvalPrefix|] == EvalPrefix
      && code[|code| - 1] == ')'
      && code[|EvalPrefix|..|code| - 1] == EvalArgument(source)
  {
    var code := EvalCode(source);
    assert code == EvalPrefix + (EvalArgument(source) + ")");
  }

  lemma {:induction false} ParenArgument(source: string)
    requires !IsBlank(source)
    ensures var arg := EvalArgument(source);
      && arg != "''"
      && |arg| >= |OpenParen| + |CloseParen|
      && arg[..|OpenParen|] == OpenParen
      && arg[|arg| - |CloseParen|..] == CloseParen
      && arg[|OpenParen|..|arg| - |CloseParen|] == Quote(source)
  {
    var arg := EvalArgument(source);
    assert arg == OpenParen + (Quote(source) + CloseParen);
    assert arg[0] != '\'' || arg[1] != '\'';
  }

  /** eval receives "" for blank source and the source in parentheses
      otherwise: the JSON string literal carries the source exactly. */
  lemma {:induction false} EvalRoundTrip(source: string)
    ensures EvaluatedText(EvalCode(source)) == Some(if IsBlank(source) then [] else "(" + source + ")")
  {
    EvalCodeArgument(source);
    if !IsBlank(source) {
      ParenArgument(source);
      QuoteParses(source, []);
      assert Quote(source) + [] == Quote(source);
    }
  }

  const ApplyText: string := ".apply(this, "

  /** Context.call: the identifier applied to the JSON array of the arguments. */
  function CallCode(identifier: string, args: seq<Value>): string {
    identifier + ApplyText + Dumps(List(args)) + ")"
  }

  /** The arguments travel as a JSON array that reads back as the arguments. */
  lemma {:induction false} CallArguments(identifier: string, args: seq<Value>)
    requires WellFormed(List(args))
    ensures var code := CallCode(identifier, args);
      var start := |identifier| + |ApplyText|;
      && start < |code|
      && code[..|identifier|] == identifier
      && code[|identifier|..start] == ApplyText
      && code[|code| - 1] == ')'
      && Loads(code[start..|code| - 1]) == Some(List(args))
  {
    var code := CallCode(identifier, args);
    var a := Dumps(List(args));
    assert code == identifier + (ApplyText + (a + ")"));
    assert code[|identifier| + |ApplyText|..|code| - 1] == a;
    LoadsDumps(List(args));
  }

  /** A call is never blank, so eval receives it in parentheses. */
  lemma {:induction false} CallEvaluated(identifier: string, args: seq<Value>)
    ensures EvaluatedText(EvalCode(CallCode(identifier, args))) == Some("(" + CallCode(identifier, args) + ")")
  {
    var code := CallCode(identifier, args);
    assert code[|identifier|] == '.';
    EvalRoundTrip(code);
  }

  /** The start of exec_: a non-empty preamble goes first, on its own line. */
  function JoinPreamble(preamble: string, source: string): string {
    if preamble != [] then preamble + "\n" + source else source
  }
}

/** How Runtime.Context.exec_ reads the output of a runner script: newline
    normalisation, the split into lines, the choice of the second-to-last
    line and Context._extract_result on that line. json.loads is the
    parameter `loads`; None stands for a JSONDecodeError. */
module ResultProtocol {
  import opened Wrappers
  import opened PyValues
  import opened Errors
  import opened JsonText
  import opened JsonValues
  import opened Sequences

  // ---------------------------------------------------------------------------
  // Newlines

  /** output.replace("\r\n", "\n"), scanning left to right. */
  function ReplaceCRLF(s: string): (r: string)
    ensures |r| <= |s|
  {
    if s == [] then []
    else if |s| >= 2 && s[0] == '\r' && s[1] == '\n' then "\n" + ReplaceCRLF(s[2..])
    else [s[0]] + ReplaceCRLF(s[1..])
  }

  /** output.replace("\r", "\n"). */
  function ReplaceCR(s: string): (r: string)
    ensures |r| == |s|
    ensures forall i :: 0 <= i < |s| ==> r[i] == if s[i] == '\r' then '\n' else s[i]
  {
    if s == [] then []
    else [if s[0] == '\r' then '\n' else s[0]] + ReplaceCR(s[1..])
  }

  predicate NoCR(s: string) {
    forall i :: 0 <= i < |s| ==> s[i] != '\r'
  }

  predicate NoNewline(s: string) {
    forall i :: 0 <= i < |s| ==> s[i] != '\n' && s[i] != '\r'
  }

  /** The two replacements of exec_, in the order the source applies them. */
  function Normalize(s: string): (r: string)
    ensures NoCR(r)
  {
    ReplaceCR(ReplaceCRLF(s))
  }

  /** Reference definition: one pass in which "\r\n", a lone "\r" and "\n"
      each count as one line break. */
  function UniversalNewlines(s: string): string {
    if s == [] then []
    else if s[0] == '\r' && |s| >= 2 && s[1] == '\n' then "\n" + UniversalNewlines(s[2..])
    else if s[0] == '\r' then "\n" + UniversalNewlines(s[1..])
    else [s[0]] + UniversalNewlines(s[1..])
  }

  lemma {:induction false} ReplaceCRCons(c: char, t: string)
    ensures ReplaceCR([c] + t) == [if c == '\r' then '\n' else c] + ReplaceCR(t)
  {
    assert ([c] + t)[1..] == t;
  }

  /** The two replacements agree with the one-pass definition. */
  lemma {:induction false} NormalizeOnePass(s: string)
    ensures Normalize(s) == UniversalNewlines(s)
    decreases |s|
  {
    if s == [] {
    } else if |s| >= 2 && s[0] == '\r' && s[1] == '\n' {
      NormalizeOnePass(s[2..]);
      ReplaceCRCons('\n', ReplaceCRLF(s[2..]));
    } else {
      NormalizeOnePass(s[1..]);
      ReplaceCRCons(s[0], ReplaceCRLF(s[1..]));
    }
  }

  /** Text without a carriage return is left as it is. */
  lemma {:induction false} NormalizeIdentity(s: string)
    requires NoCR(s)
    ensures Normalize(s) == s
    decreases |s|
  {
    if s != [] {
      assert NoCR(s[1..]) by {
        forall i | 0 <= i < |s[1..]| ensures s[1..][i] != '\r' {
          assert s[1..][i] == s[i + 1];
        }
      }
      NormalizeIdentity(s[1..]);
      ReplaceCRCons(s[0], ReplaceCRLF(s[1..]));
      assert s == [s[0]] + s[1..];
    }
  }

  /** Normalisation splits at a boundary that does not cut a "\r\n" pair. */
  lemma {:induction false} UniversalAppend(a: string, b: string)
    requires a == [] || b == [] || a[|a| - 1] != '\r' || b[0] != '\n'
    ensures UniversalNewlines(a + b) == UniversalNewlines(a) + UniversalNewlines(b)
    decreases |a|
  {
    if a == [] {
      assert a + b == b;
    } else if |a| >= 2 && a[0] == '\r' && a[1] == '\n' {
      var x, y := UniversalNewlines(a[2..]), UniversalNewlines(b);
      assert UniversalNewlines(a + b) == "\n" + UniversalNewlines(a[2..] + b) by {
        assert (a + b)[0] == '\r' && (a + b)[1] == '\n';
        assert (a + b)[2..] == a[2..] + b;
      }
      UniversalAppend(a[2..], b);
      Assoc("\n", x, y);
    } else {
      var c := if a[0] == '\r' then '\n' else a[0];
      var x, y := UniversalNewlines(a[1..]), UniversalNewlines(b);
      assert UniversalNewlines(a + b) == [c] + UniversalNewlines(a[1..] + b) by {
        TailOfAppend(a, b);
        if |a| == 1 && a[0] == '\r' {
          assert b == [] || b[0] != '\n';
        } else if |a| >= 2 {
          assert (a + b)[1] == a[1];
        }
      }
      assert a[1..] == [] || a[1..][|a[1..]| - 1] == a[|a| - 1];
      UniversalAppend(a[1..], b);
      Assoc([c], x, y);
    }
  }

  // ---------------------------------------------------------------------------
  // Lines

  /** output.split("\n"): there is always at least one line, and a text
      ending in "\n" ends with an empty line. */
  function SplitLines(s: string): (r: seq<string>)
    ensures |r| >= 1
  {
    if s == [] then [[]]
    else
      var rest := SplitLines(s[1..]);
      if s[0] == '\n' then [[]] + rest
      else [[s[0]] + rest[0]] + rest[1..]
  }

  /** "\n".join(lines). */
  function JoinLines(ls: seq<string>): string
    requires |ls| >= 1
  {
    if |ls| == 1 then ls[0] else ls[0] + "\n" + JoinLines(ls[1..])
  }

  predicate LinesWithoutBreak(ls: seq<string>) {
    forall i :: 0 <= i < |ls| ==> forall j :: 0 <= j < |ls[i]| ==> ls[i][j] != '\n'
  }

  /** Splitting loses nothing and the lines hold no "\n". */
  lemma {:induction false} JoinSplit(s: string)
    ensures JoinLines(SplitLines(s)) == s
    ensures LinesWithoutBreak(SplitLines(s))
    decreases |s|
  {
    if s != [] {
      JoinSplit(s[1..]);
      var rest := SplitLines(s[1..]);
      if s[0] == '\n' {
        assert ([[]] + rest)[1..] == rest;
        assert s == "\n" + s[1..];
      } else {
        var r := [[s[0]] + rest[0]] + rest[1..];
        if |rest| == 1 {
          assert s == [s[0]] + s[1..];
        } else {
          assert r[1..] == rest[1..];
          assert JoinLines(rest) == rest[0] + "\n" + JoinLines(rest[1..]);
          assert s == [s[0]] + s[1..];
        }
        assert LinesWithoutBreak(r) by {
          forall i | 0 <= i < |r| ensures forall j :: 0 <= j < |r[i]| ==> r[i][j] != '\n' {
            if i == 0 {
              assert forall j :: 1 <= j < |r[0]| ==> r[0][j] == rest[0][j - 1];
            } else {
              assert r[i] == rest[i];
            }
          }
        }
      }
    }
  }

  /** Joining lines that hold no "\n" and splitting again gives the lines. */
  lemma {:induction false} SplitJoin(ls: seq<string>)
    requires |ls| >= 1 && LinesWithoutBreak(ls)
    ensures SplitLines(JoinLines(ls)) == ls
    decreases |ls|
  {
    if |ls| == 1 {
      SplitNoBreak(ls[0], []);
      assert ls[0] + [] == ls[0];
    } else {
      assert LinesWithoutBreak(ls[1..]) by {
        forall i | 0 <= i < |ls[1..]| ensures forall j :: 0 <= j < |ls[1..][i]| ==> ls[1..][i][j] != '\n' {
          assert ls[1..][i] == ls[i + 1];
        }
      }
      SplitJoin(ls[1..]);
      SplitNoBreak(ls[0], "\n" + JoinLines(ls[1..]));
      SplitAtBreak(JoinLines(ls[1..]));
      assert ls[0] + "\n" + JoinLines(ls[1..]) == ls[0] + ("\n" + JoinLines(ls[1..]));
      assert [ls[0]] + ls[1..] == ls;
    }
  }

  lemma {:induction false} SplitAtBreak(t: string)
    ensures SplitLines("\n" + t) == [[]] + SplitLines(t)
  {
    assert ("\n" + t)[1..] == t;
  }

  /** A line without "\n" in front of the rest joins the first line. */
  lemma {:induction false} SplitNoBreak(a: string, b: string)
    requires forall j :: 0 <= j < |a| ==> a[j] != '\n'
    requires b == [] || b[0] == '\n'
    ensures b == [] ==> SplitLines(a + b) == [a]
    ensures b != [] ==> SplitLines(a + b) == [a] + SplitLines(b[1..])
    decreases |a|
  {
    if a == [] {
      assert a + b == b;
      if b != [] {
        assert b == "\n" + b[1..];
        SplitAtBreak(b[1..]);
      }
    } else {
      assert (a + b)[1..] == a[1..] + b;
      SplitNoBreak(a[1..], b);
      assert [a[0]] + a[1..] == a;
    }
  }

  /** output.split("\n")[-2]: a list of fewer than two lines raises IndexError. */
  function Penultimate(ls: seq<string>): (r: Result<string>)
    ensures r.Ok? <==> |ls| >= 2
    ensures r.Ok? ==> r.value == ls[|ls| - 2]
    ensures r.Err? ==> r.error == HostError(IndexError)
  {
    if |ls| >= 2 then Ok(ls[|ls| - 2]) else Err(HostError(IndexError))
  }

  // ---------------------------------------------------------------------------
  // The result line

  /** `status, value = ret`, after a 1-element ret was padded with None. The
      outcome depends on len(ret) the way Python computes it: strings unpack
      into their characters, dicts into their keys, and scalars have no len. */
  function Unpack(ret: Value): (r: Result<(Value, Value)>)
    ensures r.Ok? <==>
      || (ret.List? && 1 <= |ret.items| <= 2)
      || (ret.Str? && 1 <= |ret.s| <= 2)
      || (ret.Dict? && |ret.entries| == 2)
    ensures ret.List? && |ret.items| == 2 ==> r == Ok((ret.items[0], ret.items[1]))
    ensures ret.List? && |ret.items| == 1 ==> r == Ok((ret.items[0], Null))
    ensures ret.Str? && |ret.s| == 2 ==> r == Ok((Str([ret.s[0]]), Str([ret.s[1]])))
    ensures ret.Str? && |ret.s| == 1 ==> r == Ok((Str(ret.s), Null))
    ensures ret.Dict? && |ret.entries| == 2 ==> r == Ok((Str(ret.entries[0].key), Str(ret.entries[1].key)))
    ensures ret.Dict? && |ret.entries| == 1 ==> r == Err(HostError(KeyError))
    ensures !(ret.List? || ret.Str? || ret.Dict?) ==> r == Err(HostError(TypeError))
    ensures r.Err? ==> r.error.HostError?
  {
    match ret
    case List(xs) =>
      if |xs| == 1 then Ok((xs[0], Null))
      else if |xs| == 2 then Ok((xs[0], xs[1]))
      else Err(HostError(ValueError))
    case Str(s) =>
      if |s| == 1 then assert [s[0]] == s; Ok((Str([s[0]]), Null))
      else if |s| == 2 then Ok((Str([s[0]]), Str([s[1]])))
      else Err(HostError(ValueError))
    case Dict(es) =>
      if |es| == 1 then Err(HostError(KeyError))  // ret[0] looks up the int key 0
      else if |es| == 2 then Ok((Str(es[0].key), Str(es[1].key)))
      else Err(HostError(ValueError))
    case _ => Err(HostError(TypeError))
  }

  const SyntaxErrorPrefix: string := "SyntaxError:"

  /** The branch on status and value at the end of _extract_result. */
  function Classify(status: Value, value: Value): Result<Value> {
    if status == Str("ok") then Ok(value)
    else if !Truthy(value) then Err(ProgramError(value))
    else if !value.Str? then Err(HostError(AttributeError))  // value.startswith
    else if StartsWith(value.s, SyntaxErrorPrefix) then Err(RuntimeError(value.s))
    else Err(ProgramError(value))
  }

  /** _extract_result on one line of output. */
  function ExtractResult(line: string, loads: string -> Option<Value>): Result<Value> {
    if line == [] then Classify(Null, Null)
    else match loads(line)
      case None => Err(HostError(JsonDecodeError))
      case Some(ret) =>
        match Unpack(ret)
        case Ok((status, value)) => Classify(status, value)
        case Err(e) => Err(e)
  }

  /** Runtime._execfile after the process ended: exit status 0 hands back
      the output, any other status raises RuntimeError with the output. */
  function RunResult(exit: int, output: string): (r: Result<string>)
    ensures r.Ok? <==> exit == 0
    ensures r.Ok? ==> r.value == output
    ensures r.Err? ==> r.error == RuntimeError(output)
  {
    if exit == 0 then Ok(output) else Err(RuntimeError(output))
  }

  /** The end of exec_: normalise, split, take line -2 and extract. */
  function ReadOutput(output: string, loads: string -> Option<Value>): Result<Value> {
    match Penultimate(SplitLines(Normalize(output)))
    case Err(e) => Err(e)
    case Ok(line) => ExtractResult(line, loads)
  }

  /** Everything exec_ does once the process has ended. */
  function ExecOutput(exit: int, output: string, loads: string -> Option<Value>): Result<Value> {
    match RunResult(exit, output)
    case Err(e) => Err(e)
    case Ok(out) => ReadOutput(out, loads)
  }

  // ---------------------------------------------------------------------------
  // Properties of the result line

  /** A status other than "ok" never yields a value. */
  lemma {:induction false} ClassifyOk(status: Value, value: Value)
    ensures Classify(status, value).Ok? <==> status == Str("ok")
    ensures Classify(status, value).Ok? ==> Classify(status, value).value == value
  {
  }

  /** RuntimeError is raised exactly for a string value that starts with
      "SyntaxError:", and it carries that string. */
  lemma {:induction false} ClassifyRuntimeError(status: Value, value: Value)
    ensures (Classify(status, value).Err? && Classify(status, value).error.RuntimeError?)
      <==> (status != Str("ok") && value.Str? && StartsWith(value.s, SyntaxErrorPrefix))
    ensures Classify(status, value).Err? && Classify(status, value).error.RuntimeError? ==>
      Classify(status, value).error.message == value.s
  {
  }

  /** Every other failure of a string or a false value is a ProgramError
      carrying the value. */
  lemma {:induction false} ClassifyProgramError(status: Value, value: Value)
    ensures Classify(status, value) == Err(ProgramError(value))
      <==> (status != Str("ok") && (!Truthy(value) || (value.Str? && !StartsWith(value.s, SyntaxErrorPrefix))))
  {
  }

  /** A true value that is not a string has no startswith: AttributeError. */
  lemma {:induction false} ClassifyAttributeError(status: Value, value: Value)
    ensures Classify(status, value) == Err(HostError(AttributeError))
      <==> (status != Str("ok") && Truthy(value) && !value.Str?)
  {
  }

  /** ["ok", v] gives v and ["ok"] gives None. */
  lemma {:induction false} ExtractOk(line: string, loads: string -> Option<Value>, v: Value)
    requires line != []
    ensures loads(line) == Some(List([Str("ok"), v])) ==> ExtractResult(line, loads) == Ok(v)
    ensures loads(line) == Some(List([Str("ok")])) ==> ExtractResult(line, loads) == Ok(Null)
  {
  }

  /** An empty line is not a successful None: it raises ProgramError(None),
      as ["err"] does. */
  lemma {:induction false} ExtractEmpty(loads: string -> Option<Value>, line: string)
    requires line != [] && loads(line) == Some(List([Str("err")]))
    ensures ExtractResult([], loads) == Err(ProgramError(Null))
    ensures ExtractResult(line, loads) == Err(ProgramError(Null))
  {
  }

  /** Output without a line break has fewer than two lines: IndexError. */
  lemma {:induction false} NoLineBreakIndexError(output: string, loads: string -> Option<Value>)
    requires NoNewline(output)
    ensures ExecOutput(0, output, loads) == Err(HostError(IndexError))
  {
    NormalizeIdentity(output);
    SplitNoBreak(output, []);
    assert output + [] == output;
  }

  /** A line break as some engine prints it. */
  predicate LineBreak(e: string) {
    e == "\n" || e == "\r\n" || e == "\r"
  }

  lemma {:induction false} UniversalOneBreak(e: string)
    requires LineBreak(e)
    ensures UniversalNewlines(e) == "\n"
  {
    if e == "\r\n" {
      assert e[2..] == [];
    } else {
      assert e[1..] == [];
    }
  }

  /** A line between two line breaks, as long as the breaks do not fuse
      into one "\r\n". */
  lemma {:induction false} UniversalBreak(e1: string, line: string, e2: string)
    requires LineBreak(e1) && LineBreak(e2) && NoNewline(line)
    requires !(e1 == "\r" && line == [] && e2 == "\n")
    ensures UniversalNewlines(e1 + line + e2) == "\n" + line + "\n"
  {
    NoCRLine(line);
    NormalizeOnePass(line);
    NormalizeIdentity(line);
    UniversalAppend(e1, line);
    UniversalAppend(e1 + line, e2);
    UniversalOneBreak(e1);
    UniversalOneBreak(e2);
  }

  lemma {:induction false} NoCRLine(line: string)
    requires NoNewline(line)
    ensures NoCR(line)
  {
  }

  /** The normalised output ends with the result line between two "\n". */
  lemma {:induction false} FrameNormal(printed: string, e: string, line: string) returns (w: string)
    requires LineBreak(e) && NoNewline(line)
    ensures Normalize(printed + e + line + e) == w + "\n" + line + "\n"
  {
    NormalizeOnePass(printed + e + line + e);
    if printed != [] && printed[|printed| - 1] == '\r' && e == "\n" {
      w := FrameAfterCR(printed, line);
    } else {
      w := FramePlain(printed, e, line);
    }
  }

  lemma {:induction false} FramePlain(printed: string, e: string, line: string) returns (w: string)
    requires LineBreak(e) && NoNewline(line)
    requires !(printed != [] && printed[|printed| - 1] == '\r' && e == "\n")
    ensures UniversalNewlines(printed + e + line + e) == w + "\n" + line + "\n"
  {
    var tail := e + line + e;
    assert printed + e + line + e == printed + tail;
    UniversalBreak(e, line, e);
    UniversalAppend(printed, tail);
    w := UniversalNewlines(printed);
  }

  /** A "\r" the program left at the end fuses with the runner's "\n". */
  lemma {:induction false} FrameAfterCR(printed: string, line: string) returns (w: string)
    requires printed != [] && printed[|printed| - 1] == '\r' && NoNewline(line)
    ensures UniversalNewlines(printed + "\n" + line + "\n") == w + "\n" + line + "\n"
  {
    var p := printed[..|printed| - 1];
    var tail := "\r\n" + line + "\n";
    assert printed == p + "\r";
    assert printed + "\n" + line + "\n" == p + tail;
    UniversalBreak("\r\n", line, "\n");
    UniversalAppend(p, tail);
    w := UniversalNewlines(p);
  }

  /** The runner prints an empty line and then the result line, each ended
      by a line break. Whatever the program printed before, the line exec_
      reads is the result line. */
  lemma {:induction false} FramedLine(printed: string, e: string, line: string)
    requires LineBreak(e) && NoNewline(line)
    ensures Penultimate(SplitLines(Normalize(printed + e + line + e))) == Ok(line)
  {
    var w := FrameNormal(printed, e, line);
    LinesOfFrame(w, line);
  }

  lemma {:induction false} LinesOfFrame(w: string, line: string)
    requires NoNewline(line)
    ensures var ls := SplitLines(w + "\n" + line + "\n");
      |ls| >= 2 && ls[|ls| - 2] == line
  {
    JoinSplit(w);
    var front := SplitLines(w);
    var ls := front + [line, []];
    assert LinesWithoutBreak(ls) by {
      forall i | 0 <= i < |ls| ensures forall j :: 0 <= j < |ls[i]| ==> ls[i][j] != '\n' {
        if i < |front| { assert ls[i] == front[i]; }
      }
    }
    JoinAppend(front, line);
    SplitJoin(ls);
  }

  lemma {:induction false} JoinAppend(front: seq<string>, line: string)
    requires |front| >= 1
    ensures JoinLines(front + [line, []]) == JoinLines(front) + "\n" + line + "\n"
    decreases |front|
  {
    var ls := front + [line, []];
    assert ls[1..] == front[1..] + [line, []];
    if |front| == 1 {
      assert ls[1..] == [line, []];
      assert JoinLines([line, []]) == line + "\n" + JoinLines([[]]);
      assert [line, []][1..] == [[]];
    } else {
      JoinAppend(front[1..], line);
    }
  }

  // ---------------------------------------------------------------------------
  // The runner's side of the protocol

  /** What the wrapped program did, as the runner reports it: a value, an
      undefined result, a result JSON.stringify rejected, or an exception
      whose text the runner prints. */
  datatype Outcome =
    | Returned(value: Value)
    | ReturnedUndefined
    | Unserialisable
    | Threw(message: string)

  /** The array the runner prints, as json.loads reads it back. */
  function OutcomeJson(o: Outcome): Value {
    match o
    case Returned(v) => List([Str("ok"), v])
    case ReturnedUndefined => List([Str("ok")])
    case Unserialisable => List([Str("err")])
    case Threw(m) => List([Str("err"), Str(m)])
  }

  /** What exec_ hands back for each outcome. */
  function Expected(o: Outcome): Result<Value> {
    match o
    case Returned(v) => Ok(v)
    case ReturnedUndefined => Ok(Null)
    case Unserialisable => Err(ProgramError(Null))
    case Threw(m) =>
      if StartsWith(m, SyntaxErrorPrefix) then Err(RuntimeError(m)) else Err(ProgramError(Str(m)))
  }

  /** End to end: a zero exit, any output of the program, then the runner's
      empty line and result line, gives the outcome's value or exception. */
  lemma {:induction false} ExecOutcome(printed: string, e: string, line: string, loads: string -> Option<Value>, o: Outcome)
    requires LineBreak(e) && NoNewline(line) && line != []
    requires loads(line) == Some(OutcomeJson(o))
    ensures ExecOutput(0, printed + e + line + e, loads) == Expected(o)
  {
    FramedLine(printed, e, line);
  }

  /** A program that throws before the runner prints its empty line, and
      that printed nothing itself, leaves only the result line. */
  lemma {:induction false} BareLine(e: string, line: string)
    requires LineBreak(e) && NoNewline(line)
    ensures Penultimate(SplitLines(Normalize(line + e))) == Ok(line)
  {
    NormalizeOnePass(line + e);
    NoCRLine(line);
    NormalizeOnePass(line);
    NormalizeIdentity(line);
    UniversalAppend(line, e);
    UniversalOneBreak(e);
    assert forall j :: 0 <= j < |line| ==> line[j] != '\n';
    SplitNoBreak(line, "\n");
    assert ("\n")[1..] == [];
  }

  lemma {:induction false} ExecBareLine(e: string, line: string, loads: string -> Option<Value>, o: Outcome)
    requires LineBreak(e) && NoNewline(line) && line != []
    requires loads(line) == Some(OutcomeJson(o))
    ensures ExecOutput(0, line + e, loads) == Expected(o)
  {
    BareLine(e, line);
  }

  /** The result lines json.dumps writes are read back by the JSON decoder,
      so the protocol closes over JsonValues.Loads. */
  lemma {:induction false} ExecOutcomeDumps(printed: string, e: string, o: Outcome)
    requires LineBreak(e)
    requires o.Returned? ==> WellFormed(o.value)
    ensures ExecOutput(0, printed + e + Dumps(OutcomeJson(o)) + e, Loads) == Expected(o)
  {
    var v := OutcomeJson(o);
    assert WellFormed(v);
    LoadsDumps(v);
    var line := Dumps(v);
    assert NoNewline(line) by {
      forall i | 0 <= i < |line| ensures line[i] != '\n' && line[i] != '\r' {
        assert IsPrintable(line);
      }
    }
    ExecOutcome(printed, e, line, Loads, o);
  }
}

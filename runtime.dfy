/** Runtime and Runtime.Context (babeljs/execjs/runtime.py): an external
    JavaScript engine run as a process on a script file. The PATH search
    `which` and the process are parameters; the temporary file is reduced
    to the script text it holds. */
module Runtimes {
  import opened Wrappers
  import opened PyValues
  import opened Errors
  import opened Templates
  import opened ResultProtocol
  import opened Scripts

  /** The command a Runtime is built with: one string or a list of them. */
  datatype Command = Single(cmd: string) | Several(cmds: seq<string>)

  /** A single string is wrapped into a one-element list. */
  function CommandLine(c: Command): seq<string> {
    match c
    case Single(x) => [x]
    case Several(xs) => xs
  }

  /** `which(command)`: the resolved command line, or None. */
  type Which = seq<string> -> Option<seq<string>>

  /** Running the engine on a script: exit status and captured output
      (stdout with stderr folded in). */
  type Process = (seq<string>, string) -> (int, string)

  /** _execfile once the binary is known: `None + [filename]` is a TypeError. */
  function ExecFileSpec(binary: Option<seq<string>>, run: Process, script: string): (r: Result<string>)
    ensures binary.None? ==> r == Err(HostError(TypeError))
    ensures binary.Some? ==> r == RunResult(run(binary.value, script).0, run(binary.value, script).1)
  {
    match binary
    case None => Err(HostError(TypeError))
    case Some(b) =>
      var (exit, output) := run(b, script);
      RunResult(exit, output)
  }

  /** All of Context.exec_: the preamble join, the template, the process
      and the reading of its output. */
  function ExecSpec(runner: string, preamble: string, source: string, binary: Option<seq<string>>,
                    run: Process, polyfill: string, loads: string -> Option<Value>): Result<Value>
  {
    var script := Compile(runner, JoinPreamble(preamble, source), polyfill);
    match ExecFileSpec(binary, run, script)
    case Err(e) => Err(e)
    case Ok(output) => ReadOutput(output, loads)
  }

  /** A process that exits with status 0 and prints the runner's framing
      yields the program's outcome. */
  lemma {:induction false} ExecSpecOutcome(runner: string, preamble: string, source: string, b: seq<string>,
                        run: Process, polyfill: string, loads: string -> Option<Value>,
                        printed: string, e: string, line: string, o: Outcome)
    requires LineBreak(e) && NoNewline(line) && line != []
    requires loads(line) == Some(OutcomeJson(o))
    requires run(b, Compile(runner, JoinPreamble(preamble, source), polyfill)) == (0, printed + e + line + e)
    ensures ExecSpec(runner, preamble, source, Some(b), run, polyfill, loads) == Expected(o)
  {
    ExecOutcome(printed, e, line, loads, o);
  }

  /** A failing process raises RuntimeError with what it printed. */
  lemma {:induction false} ExecSpecFailure(runner: string, preamble: string, source: string, b: seq<string>,
                        run: Process, polyfill: string, loads: string -> Option<Value>)
    requires run(b, Compile(runner, JoinPreamble(preamble, source), polyfill)).0 != 0
    ensures ExecSpec(runner, preamble, source, Some(b), run, polyfill, loads)
      == Err(RuntimeError(run(b, Compile(runner, JoinPreamble(preamble, source), polyfill)).1))
  {
  }

  class Runtime {
    const name: string
    const command: seq<string>
    const runnerSource: string
    const encoding: string
    /** `_binary_cache`: None until _binary first runs, then what `which` said. */
    var binaryCache: Option<Option<seq<string>>>
    /** How many times `which` has been consulted. */
    ghost var lookups: nat

    ghost predicate Valid()
      reads this
    {
      lookups == if binaryCache.Some? then 1 else 0
    }

    constructor(name: string, command: Command, runnerSource: string, encoding: string)
      ensures Valid() && binaryCache == None
      ensures this.name == name && this.command == CommandLine(command)
      ensures this.runnerSource == runnerSource && this.encoding == encoding
    {
      this.name := name;
      this.command := CommandLine(command);
      this.runnerSource := runnerSource;
      this.encoding := encoding;
      binaryCache := None;
      lookups := 0;
    }

    /** _binary: `which` runs on the first call only; later calls return the
        cached answer, whatever `which` would say now. */
    method Binary(which: Which) returns (b: Option<seq<string>>)
      requires Valid()
      modifies this
      ensures Valid() && lookups <= 1
      ensures old(binaryCache).Some? ==> binaryCache == old(binaryCache) && lookups == old(lookups)
      ensures old(binaryCache).None? ==> binaryCache == Some(which(command))
      ensures binaryCache == Some(b)
    {
      if binaryCache.None? {
        binaryCache := Some(which(command));
        lookups := lookups + 1;
      }
      b := binaryCache.value;
    }

    method IsAvailable(which: Which) returns (available: bool)
      requires Valid()
      modifies this
      ensures Valid() && lookups <= 1
      ensures old(binaryCache).Some? ==> binaryCache == old(binaryCache) && lookups == old(lookups)
      ensures old(binaryCache).None? ==> binaryCache == Some(which(command))
      ensures binaryCache.Some? && (available <==> binaryCache.value.Some?)
    {
      var b := Binary(which);
      available := b.Some?;
    }

    method ExecFile(script: string, which: Which, run: Process) returns (r: Result<string>)
      requires Valid()
      modifies this
      ensures Valid()
      ensures old(binaryCache).Some? ==> binaryCache == old(binaryCache)
      ensures old(binaryCache).None? ==> binaryCache == Some(which(command))
      ensures binaryCache.Some? && r == ExecFileSpec(binaryCache.value, run, script)
    {
      var b := Binary(which);
      if b.None? {
        r := Err(HostError(TypeError));
      } else {
        var (exit, output) := run(b.value, script);
        r := RunResult(exit, output);
      }
    }

    /** exec_: RuntimeUnavailable before anything else when there is no
        binary, otherwise a fresh Context without preamble runs the source. */
    method Exec(source: string, which: Which, run: Process, polyfill: string, loads: string -> Option<Value>)
      returns (r: Result<Value>)
      requires Valid()
      modifies this
      ensures Valid() && binaryCache.Some?
      ensures old(binaryCache).Some? ==> binaryCache == old(binaryCache)
      ensures old(binaryCache).None? ==> binaryCache == Some(which(command))
      ensures binaryCache.value.None? ==> r == Err(RuntimeUnavailable([]))
      ensures binaryCache.value.Some? ==> r == ExecSpec(runnerSource, [], source, binaryCache.value, run, polyfill, loads)
    {
      var available := IsAvailable(which);
      if !available {
        return Err(RuntimeUnavailable([]));
      }
      var context := new Context(this, []);
      r := context.Exec(source, which, run, polyfill, loads);
    }

    method Eval(source: string, which: Which, run: Process, polyfill: string, loads: string -> Option<Value>)
      returns (r: Result<Value>)
      requires Valid()
      modifies this
      ensures Valid() && binaryCache.Some?
      ensures old(binaryCache).Some? ==> binaryCache == old(binaryCache)
      ensures old(binaryCache).None? ==> binaryCache == Some(which(command))
      ensures binaryCache.value.None? ==> r == Err(RuntimeUnavailable([]))
      ensures binaryCache.value.Some? ==>
        r == ExecSpec(runnerSource, [], EvalCode(source), binaryCache.value, run, polyfill, loads)
    {
      var available := IsAvailable(which);
      if !available {
        return Err(RuntimeUnavailable([]));
      }
      var context := new Context(this, []);
      r := context.Eval(source, which, run, polyfill, loads);
    }

    /** compile: a Context that keeps `source` as its preamble. */
    method Compile(source: string, which: Which) returns (r: Result<Context>)
      requires Valid()
      modifies this
      ensures Valid() && binaryCache.Some?
      ensures old(binaryCache).Some? ==> binaryCache == old(binaryCache)
      ensures old(binaryCache).None? ==> binaryCache == Some(which(command))
      ensures binaryCache.value.None? ==> r == Err(RuntimeUnavailable([]))
      ensures binaryCache.value.Some? ==>
        r.Ok? && fresh(r.value) && r.value.runtime == this && r.value.preamble == source
    {
      var available := IsAvailable(which);
      if !available {
        return Err(RuntimeUnavailable([]));
      }
      var context := new Context(this, source);
      r := Ok(context);
    }
  }

  class Context {
    const runtime: Runtime
    /** `_source`: code placed before every script this context runs. */
    const preamble: string

    constructor(runtime: Runtime, preamble: string)
      ensures this.runtime == runtime && this.preamble == preamble
    {
      this.runtime := runtime;
      this.preamble := preamble;
    }

    /** exec_: join the preamble, fill the runner template, run it, then
        read the second-to-last line of the normalised output. */
    method Exec(source: string, which: Which, run: Process, polyfill: string, loads: string -> Option<Value>)
      returns (r: Result<Value>)
      requires runtime.Valid()
      modifies runtime
      ensures runtime.Valid() && runtime.binaryCache.Some?
      ensures old(runtime.binaryCache).Some? ==> runtime.binaryCache == old(runtime.binaryCache)
      ensures old(runtime.binaryCache).None? ==> runtime.binaryCache == Some(which(runtime.command))
      ensures r == ExecSpec(runtime.runnerSource, preamble, source, runtime.binaryCache.value, run, polyfill, loads)
    {
      var text := source;
      if preamble != [] {
        text := preamble + "\n" + text;
      }
      var script := Templates.Compile(runtime.runnerSource, text, polyfill);
      var output := runtime.ExecFile(script, which, run);
      match output
      case Err(e) =>
        r := Err(e);
      case Ok(out) =>
        var normalized := Normalize(out);
        var lines := SplitLines(normalized);
        var line := Penultimate(lines);
        match line
        case Err(e) =>
          r := Err(e);
        case Ok(l) =>
          r := ExtractResult(l, loads);
    }

    method Eval(source: string, which: Which, run: Process, polyfill: string, loads: string -> Option<Value>)
      returns (r: Result<Value>)
      requires runtime.Valid()
      modifies runtime
      ensures runtime.Valid() && runtime.binaryCache.Some?
      ensures old(runtime.binaryCache).Some? ==> runtime.binaryCache == old(runtime.binaryCache)
      ensures old(runtime.binaryCache).None? ==> runtime.binaryCache == Some(which(runtime.command))
      ensures r == ExecSpec(runtime.runnerSource, preamble, EvalCode(source), runtime.binaryCache.value, run, polyfill, loads)
    {
      r := Exec(EvalCode(source), which, run, polyfill, loads);
    }

    method Call(identifier: string, args: seq<Value>, which: Which, run: Process, polyfill: string,
                loads: string -> Option<Value>)
      returns (r: Result<Value>)
      requires runtime.Valid()
      modifies runtime
      ensures runtime.Valid() && runtime.binaryCache.Some?
      ensures old(runtime.binaryCache).Some? ==> runtime.binaryCache == old(runtime.binaryCache)
      ensures old(runtime.binaryCache).None? ==> runtime.binaryCache == Some(which(runtime.command))
      ensures r == ExecSpec(runtime.runnerSource, preamble, EvalCode(CallCode(identifier, args)),
                            runtime.binaryCache.value, run, polyfill, loads)
    {
      r := Eval(CallCode(identifier, args), which, run, polyfill, loads);
    }
  }
}

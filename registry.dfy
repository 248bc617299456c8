/** The runtime registry of babeljs/execjs/__init__.py: an insertion-ordered
    map from name to runtime, lookup with its two failure messages,
    auto-detection and the population the module performs on import.
    Runtimes are named by descriptors; whether one is available is the
    parameter `avail` (for an external runtime, whether `which` finds its
    command; for PyV8, whether the PyV8 module imports). */
module Registry {
  import opened Wrappers
  import opened Errors

  /** Which runner template a runtime carries. */
  datatype Runner = NodeRunner | JscRunner | SpiderMonkeyRunner | JScriptRunner | PhantomRunner

  datatype Descriptor =
    | PyV8Engine
    | External(name: string, command: seq<string>, runner: Runner, encoding: string)

  /** The `name` property of a runtime. */
  function DisplayName(d: Descriptor): string {
    match d
    case PyV8Engine => "PyV8"
    case External(n, _, _, _) => n
  }

  type Availability = Descriptor -> bool

  // ---------------------------------------------------------------------------
  // Lookup

  function NotDefined(name: string): string {
    name + " runtime is not defined"
  }

  function NotAvailable(d: Descriptor): string {
    DisplayName(d) + " runtime is not available on this system"
  }

  /** get(name) for a given name. */
  function LookupIn(table: map<string, Descriptor>, name: string, avail: Availability): Result<Descriptor> {
    if name !in table then Err(RuntimeUnavailable(NotDefined(name)))
    else if !avail(table[name]) then Err(RuntimeUnavailable(NotAvailable(table[name])))
    else Ok(table[name])
  }

  /** get_from_environment: an unset or empty EXECJS_RUNTIME gives None;
      any other name is looked up and may raise. */
  function FromEnvironment(table: map<string, Descriptor>, env: Option<string>, avail: Availability)
    : Result<Option<Descriptor>>
  {
    if env.None? || env.value == [] then Ok(None)
    else
      match LookupIn(table, env.value, avail)
      case Err(e) => Err(e)
      case Ok(d) => Ok(Some(d))
  }

  /** The first available runtime in insertion order. */
  function FirstAvailable(ks: seq<string>, table: map<string, Descriptor>, avail: Availability): Option<Descriptor> {
    if ks == [] then None
    else if ks[0] in table && avail(table[ks[0]]) then Some(table[ks[0]])
    else FirstAvailable(ks[1..], table, avail)
  }

  const NoRuntime: string := "Could not find a JavaScript runtime."

  /** _auto_detect. */
  function AutoDetectSpec(env: Option<string>, ks: seq<string>, table: map<string, Descriptor>, avail: Availability)
    : Result<Descriptor>
  {
    match FromEnvironment(table, env, avail)
    case Err(e) => Err(e)
    case Ok(Some(d)) => Ok(d)
    case Ok(None) =>
      match FirstAvailable(ks, table, avail)
      case Some(d) => Ok(d)
      case None => Err(RuntimeUnavailable(NoRuntime))
  }

  /** Registered and in insertion order: keys hold the order, table the
      bindings; they name the same runtimes and keys has no repeats. */
  ghost predicate Ordered(ks: seq<string>, table: map<string, Descriptor>) {
    && (forall k :: k in table <==> k in ks)
    && (forall i, j :: 0 <= i < j < |ks| ==> ks[i] != ks[j])
  }

  /** The key order after `_runtimes[name] = runtime`. */
  function KeysAfter(ks: seq<string>, name: string): seq<string> {
    if name in ks then ks else ks + [name]
  }

  // ---------------------------------------------------------------------------
  // Properties of lookup and registration

  /** get(name) fails with "not defined" exactly for an unknown name, with
      "not available" exactly for a known unavailable one, and otherwise
      returns the registered runtime itself. */
  lemma {:induction false} LookupCases(table: map<string, Descriptor>, name: string, avail: Availability)
    ensures LookupIn(table, name, avail) == Err(RuntimeUnavailable(NotDefined(name))) <==> name !in table
    ensures LookupIn(table, name, avail).Ok? <==> name in table && avail(table[name])
    ensures LookupIn(table, name, avail).Ok? ==> LookupIn(table, name, avail).value == table[name]
    ensures name in table && !avail(table[name]) ==>
      LookupIn(table, name, avail) == Err(RuntimeUnavailable(NotAvailable(table[name])))
  {
    if name in table {
      NotDefinedDiffers(name, table[name]);
    }
  }

  /** The two messages cannot be confused: they end differently. */
  lemma {:induction false} NotDefinedDiffers(name: string, d: Descriptor)
    ensures NotDefined(name) != NotAvailable(d)
  {
    var a, b := NotDefined(name), NotAvailable(d);
    assert a[|a| - 1] == 'd';
    assert b[|b| - 1] == 'm';
  }

  /** After register(name, d), get(name) sees d and no other name changes. */
  lemma {:induction false} RegisterLookup(table: map<string, Descriptor>, name: string, d: Descriptor, other: string, avail: Availability)
    ensures LookupIn(table[name := d], other, avail) ==
      if other == name then (if avail(d) then Ok(d) else Err(RuntimeUnavailable(NotAvailable(d))))
      else LookupIn(table, other, avail)
  {
  }

  /** Registration keeps every existing position and the keys distinct; a
      new name goes last, a known name stays where it was. */
  lemma {:induction false} RegisterOrder(ks: seq<string>, table: map<string, Descriptor>, name: string, d: Descriptor)
    requires Ordered(ks, table)
    ensures Ordered(KeysAfter(ks, name), table[name := d])
    ensures |KeysAfter(ks, name)| == if name in table then |ks| else |ks| + 1
    ensures forall i :: 0 <= i < |ks| ==> KeysAfter(ks, name)[i] == ks[i]
    ensures name !in table ==> KeysAfter(ks, name)[|ks|] == name
  {
  }

  /** The first available runtime is available, registered, and every
      runtime before it is not; there is none exactly when no registered
      runtime is available. */
  lemma {:induction false} FirstAvailableIsFirst(ks: seq<string>, table: map<string, Descriptor>, avail: Availability)
    ensures FirstAvailable(ks, table, avail).Some? <==>
      exists i :: 0 <= i < |ks| && ks[i] in table && avail(table[ks[i]])
    ensures FirstAvailable(ks, table, avail).Some? ==>
      exists i :: 0 <= i < |ks| && ks[i] in table && avail(table[ks[i]])
        && FirstAvailable(ks, table, avail).value == table[ks[i]]
        && forall j :: 0 <= j < i ==> !(ks[j] in table && avail(table[ks[j]]))
  {
    if ks != [] {
      FirstAvailableIsFirst(ks[1..], table, avail);
      if !(ks[0] in table && avail(table[ks[0]])) {
        if exists i :: 0 <= i < |ks| && ks[i] in table && avail(table[ks[i]]) {
          var i :| 0 <= i < |ks| && ks[i] in table && avail(table[ks[i]]);
          assert ks[1..][i - 1] == ks[i];
        }
        if FirstAvailable(ks, table, avail).Some? {
          var i :| 0 <= i < |ks[1..]| && ks[1..][i] in table && avail(table[ks[1..][i]])
            && FirstAvailable(ks, table, avail).value == table[ks[1..][i]]
            && forall j :: 0 <= j < i ==> !(ks[1..][j] in table && avail(table[ks[1..][j]]));
          assert ks[i + 1] == ks[1..][i];
          forall j | 0 <= j < i + 1 ensures !(ks[j] in table && avail(table[ks[j]])) {
            if j > 0 { assert ks[j] == ks[1..][j - 1]; }
          }
        }
      }
    }
  }

  /** get(None): the environment wins when it names a runtime, otherwise
      the first available runtime; with nothing available it raises. */
  lemma {:induction false} AutoDetectCases(env: Option<string>, ks: seq<string>, table: map<string, Descriptor>, avail: Availability)
    ensures (env.None? || env == Some([])) ==>
      AutoDetectSpec(env, ks, table, avail) ==
        if FirstAvailable(ks, table, avail).Some? then Ok(FirstAvailable(ks, table, avail).value)
        else Err(RuntimeUnavailable(NoRuntime))
    ensures (env.Some? && env.value != []) ==>
      AutoDetectSpec(env, ks, table, avail) == LookupIn(table, env.value, avail)
  {
  }

  // ---------------------------------------------------------------------------
  // The runtimes registered on import

  const JscPath: string := "/System/Library/Frameworks/JavaScriptCore.framework/Versions/A/Resources/jsc"

  function NodeRuntime(command: string): Descriptor {
    External("Node.js (V8)", [command], NodeRunner, "UTF-8")
  }

  const NodeCandidates: seq<string> := ["nodejs", "node"]

  const JavaScriptCore: Descriptor := External("JavaScriptCore", [JscPath], JscRunner, "utf8")
  const SpiderMonkey: Descriptor := External("SpiderMonkey", ["js"], SpiderMonkeyRunner, "utf8")
  const JScript: Descriptor := External("JScript", ["cscript", "//E:jscript", "//Nologo"], JScriptRunner, "ascii")

  function PhantomLike(name: string, command: string): Descriptor {
    External(name, [command], PhantomRunner, "utf8")
  }

  /** What "Node" is bound to after the candidate loop. */
  function NodeChoice(avail: Availability): Descriptor {
    if avail(NodeRuntime("nodejs")) then NodeRuntime("nodejs") else NodeRuntime("node")
  }

  const StartupKeys: seq<string> :=
    ["PyV8", "Node", "JavaScriptCore", "SpiderMonkey", "Spidermonkey", "JScript", "PhantomJS", "SlimerJS"]

  /** The table once PyV8, Node and the fixed-command runtimes are in. */
  function FixedTable(avail: Availability): map<string, Descriptor> {
    map[
      "PyV8" := PyV8Engine,
      "Node" := NodeChoice(avail),
      "JavaScriptCore" := JavaScriptCore,
      "SpiderMonkey" := SpiderMonkey,
      "Spidermonkey" := SpiderMonkey,
      "JScript" := JScript
    ]
  }

  /** The table after the PhantomJS/SlimerJS loop. */
  function StartupTable(avail: Availability): map<string, Descriptor> {
    FixedTable(avail)["PhantomJS" := PhantomLike("PhantomJS", "phantomjs")]["SlimerJS" := PhantomLike("SlimerJS", "slimerjs")]
  }

  /** "Node" is the first candidate whose runtime is available, or the
      last candidate when none is. */
  lemma {:induction false} NodeIsFirstAvailable(avail: Availability)
    ensures avail(NodeChoice(avail)) <==> exists c :: c in NodeCandidates && avail(NodeRuntime(c))
    ensures avail(NodeChoice(avail)) ==>
      exists i :: 0 <= i < |NodeCandidates| && NodeChoice(avail) == NodeRuntime(NodeCandidates[i])
        && forall j :: 0 <= j < i ==> !avail(NodeRuntime(NodeCandidates[j]))
    ensures !avail(NodeChoice(avail)) ==> NodeChoice(avail) == NodeRuntime(NodeCandidates[|NodeCandidates| - 1])
  {
    assert NodeCandidates[0] == "nodejs" && NodeCandidates[1] == "node";
    if avail(NodeRuntime("nodejs")) {
      assert NodeChoice(avail) == NodeRuntime(NodeCandidates[0]);
    } else if avail(NodeRuntime("node")) {
      assert NodeChoice(avail) == NodeRuntime(NodeCandidates[1]);
    }
  }

  /** With no environment override, auto-detection on the startup registry
      tries PyV8, then Node, then the rest in order. */
  lemma {:induction false} StartupAutoDetect(avail: Availability)
    ensures AutoDetectSpec(None, StartupKeys, StartupTable(avail), avail) ==
      if avail(PyV8Engine) then Ok(PyV8Engine)
      else if avail(NodeChoice(avail)) then Ok(NodeChoice(avail))
      else match FirstAvailable(StartupKeys[2..], StartupTable(avail), avail)
        case Some(d) => Ok(d)
        case None => Err(RuntimeUnavailable(NoRuntime))
  {
    var t := StartupTable(avail);
    assert StartupKeys[0] == "PyV8" && t["PyV8"] == PyV8Engine;
    assert StartupKeys[1..][0] == "Node" && t["Node"] == NodeChoice(avail);
    assert StartupKeys[1..][1..] == StartupKeys[2..];
    assert FirstAvailable(StartupKeys, t, avail) ==
      if avail(PyV8Engine) then Some(PyV8Engine) else FirstAvailable(StartupKeys[1..], t, avail);
    assert FirstAvailable(StartupKeys[1..], t, avail) ==
      if avail(NodeChoice(avail)) then Some(NodeChoice(avail)) else FirstAvailable(StartupKeys[2..], t, avail);
  }

  // ---------------------------------------------------------------------------
  // The registry

  class RuntimeTable {
    /** Insertion order of `_runtimes`. */
    var keys: seq<string>
    /** The bindings of `_runtimes`. */
    var table: map<string, Descriptor>

    ghost predicate Valid()
      reads this
    {
      Ordered(keys, table)
    }

    constructor()
      ensures Valid() && keys == [] && table == map[]
    {
      keys := [];
      table := map[];
    }

    /** register: `_runtimes[name] = runtime`. */
    method Register(name: string, d: Descriptor)
      requires Valid()
      modifies this
      ensures Valid()
      ensures table == old(table)[name := d]
      ensures name in old(table) ==> keys == old(keys)
      ensures name !in old(table) ==> keys == old(keys) + [name]
    {
      RegisterOrder(keys, table, name, d);
      keys := KeysAfter(keys, name);
      table := table[name := d];
    }

    /** runtimes(): a copy of the registry, in insertion order. */
    function Snapshot(): (r: seq<(string, Descriptor)>)
      requires Valid()
      reads this
      ensures |r| == |keys|
      ensures forall i :: 0 <= i < |r| ==> r[i].0 == keys[i] && r[i].1 == table[keys[i]]
    {
      Pairs(keys, table)
    }

    /** available_runtimes(): the entries whose runtime is available. */
    function Available(avail: Availability): (r: seq<(string, Descriptor)>)
      requires Valid()
      reads this
      ensures forall p :: p in r <==> p.0 in table && p.1 == table[p.0] && avail(p.1)
    {
      SnapshotMembers(keys, table);
      FilterAvailable(Pairs(keys, table), avail)
    }

    /** get(name). */
    method Get(name: Option<string>, env: Option<string>, avail: Availability) returns (r: Result<Descriptor>)
      requires Valid()
      ensures name.None? ==> r == AutoDetectSpec(env, keys, table, avail)
      ensures name.Some? ==> r == LookupIn(table, name.value, avail)
    {
      if name.None? {
        r := AutoDetect(env, avail);
      } else {
        r := LookupIn(table, name.value, avail);
      }
    }

    /** _auto_detect: the environment first, then a scan in insertion order
        that returns at the first available runtime. */
    method AutoDetect(env: Option<string>, avail: Availability) returns (r: Result<Descriptor>)
      requires Valid()
      ensures r == AutoDetectSpec(env, keys, table, avail)
    {
      var fromEnv := FromEnvironment(table, env, avail);
      if fromEnv.Err? {
        return Err(fromEnv.error);
      }
      if fromEnv.value.Some? {
        return Ok(fromEnv.value.value);
      }
      var i := 0;
      while i < |keys|
        invariant 0 <= i <= |keys|
        invariant FirstAvailable(keys, table, avail) == FirstAvailable(keys[i..], table, avail)
      {
        assert keys[i] in table;
        assert keys[i..][1..] == keys[i + 1..];
        var d := table[keys[i]];
        if avail(d) {
          return Ok(d);
        }
        i := i + 1;
      }
      return Err(RuntimeUnavailable(NoRuntime));
    }

    /** The Node candidate loop: each candidate is registered under "Node"
        in turn until one is available. */
    method RegisterNode(avail: Availability)
      requires Valid() && keys == ["PyV8"] && table == map["PyV8" := PyV8Engine]
      modifies this
      ensures Valid()
      ensures keys == ["PyV8", "Node"] && table == map["PyV8" := PyV8Engine, "Node" := NodeChoice(avail)]
    {
      var i := 0;
      while i < |NodeCandidates|
        invariant 0 <= i <= |NodeCandidates|
        invariant Valid()
        invariant i == 0 ==> keys == ["PyV8"] && table == map["PyV8" := PyV8Engine]
        invariant i > 0 ==>
          keys == ["PyV8", "Node"] && table == map["PyV8" := PyV8Engine, "Node" := NodeRuntime(NodeCandidates[i - 1])]
        invariant i > 0 ==> !avail(NodeRuntime(NodeCandidates[0]))
      {
        var runtime := NodeRuntime(NodeCandidates[i]);
        Register("Node", runtime);
        if avail(runtime) {
          assert NodeCandidates[0] == "nodejs" && NodeCandidates[1] == "node";
          assert NodeChoice(avail) == runtime;
          assert table == map["PyV8" := PyV8Engine, "Node" := NodeChoice(avail)];
          break;
        }
        i := i + 1;
      }
      if i == |NodeCandidates| {
        assert NodeCandidates[0] == "nodejs" && NodeCandidates[i - 1] == "node";
        assert NodeChoice(avail) == NodeRuntime(NodeCandidates[i - 1]);
      }
    }

    /** The PhantomJS/SlimerJS loop. */
    method RegisterPhantoms(avail: Availability)
      requires Valid() && keys == StartupKeys[..6] && table == FixedTable(avail)
      modifies this
      ensures Valid()
      ensures keys == StartupKeys && table == StartupTable(avail)
    {
      var others := [("PhantomJS", "phantomjs"), ("SlimerJS", "slimerjs")];
      var k := 0;
      while k < |others|
        invariant 0 <= k <= |others|
        invariant Valid()
        invariant keys == StartupKeys[..6 + k]
        invariant k == 0 ==> table == FixedTable(avail)
        invariant k == 1 ==> table == FixedTable(avail)["PhantomJS" := PhantomLike("PhantomJS", "phantomjs")]
        invariant k == 2 ==> table == StartupTable(avail)
      {
        assert StartupKeys[6 + k] == others[k].0;
        assert StartupKeys[..6 + k + 1] == StartupKeys[..6 + k] + [others[k].0];
        Register(others[k].0, PhantomLike(others[k].0, others[k].1));
        k := k + 1;
      }
    }

    /** JavaScriptCore, then one SpiderMonkey runtime under both spellings. */
    method RegisterJscAndSpiderMonkey(avail: Availability)
      requires Valid() && keys == ["PyV8", "Node"] && table == map["PyV8" := PyV8Engine, "Node" := NodeChoice(avail)]
      modifies this
      ensures Valid()
      ensures keys == ["PyV8", "Node", "JavaScriptCore", "SpiderMonkey", "Spidermonkey"]
      ensures table == map["PyV8" := PyV8Engine, "Node" := NodeChoice(avail), "JavaScriptCore" := JavaScriptCore,
                           "SpiderMonkey" := SpiderMonkey, "Spidermonkey" := SpiderMonkey]
    {
      Register("JavaScriptCore", JavaScriptCore);
      assert keys == ["PyV8", "Node", "JavaScriptCore"];
      var spiderMonkey := SpiderMonkey;
      Register("SpiderMonkey", spiderMonkey);
      assert keys == ["PyV8", "Node", "JavaScriptCore", "SpiderMonkey"];
      Register("Spidermonkey", spiderMonkey);
    }

    /** The registrations the module performs on import, in source order. */
    method Populate(avail: Availability)
      requires Valid() && keys == [] && table == map[]
      modifies this
      ensures Valid()
      ensures keys == StartupKeys && table == StartupTable(avail)
    {
      Register("PyV8", PyV8Engine);
      assert keys == ["PyV8"];
      RegisterNode(avail);
      RegisterJscAndSpiderMonkey(avail);
      Register("JScript", JScript);
      assert keys == StartupKeys[..6];
      assert table == FixedTable(avail);
      RegisterPhantoms(avail);
    }
  }

  function Pairs(ks: seq<string>, table: map<string, Descriptor>): (r: seq<(string, Descriptor)>)
    requires forall k :: k in ks ==> k in table
    ensures |r| == |ks|
    ensures forall i :: 0 <= i < |r| ==> r[i].0 == ks[i] && r[i].1 == table[ks[i]]
  {
    if ks == [] then [] else [(ks[0], table[ks[0]])] + Pairs(ks[1..], table)
  }

  lemma {:induction false} SnapshotMembers(ks: seq<string>, table: map<string, Descriptor>)
    requires forall k :: k in table <==> k in ks
    ensures forall p :: p in Pairs(ks, table) <==> p.0 in table && p.1 == table[p.0]
  {
    var ps := Pairs(ks, table);
    forall p: (string, Descriptor) | p.0 in table && p.1 == table[p.0] ensures p in ps {
      var i :| 0 <= i < |ks| && ks[i] == p.0;
      assert ps[i] == p;
    }
  }

  /** The dict comprehension's filter, keeping the order. */
  function FilterAvailable(ps: seq<(string, Descriptor)>, avail: Availability): (r: seq<(string, Descriptor)>)
    ensures forall p :: p in r <==> p in ps && avail(p.1)
  {
    if ps == [] then []
    else if avail(ps[0].1) then [ps[0]] + FilterAvailable(ps[1..], avail)
    else FilterAvailable(ps[1..], avail)
  }
}

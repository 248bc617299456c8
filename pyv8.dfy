/** PyV8Runtime (babeljs/execjs/runtime.py): the engine runs in process.
    The engine is a parameter from script text to its outcome; what it
    hands back is a tree of JavaScript values that convert turns into
    Python values. */
module PyV8 {
  import opened Wrappers
  import opened PyValues
  import opened Errors
  import opened Codepoints
  import opened Scripts
  import opened JsonValues
  import Utf8

  /** A property name as PyV8 lists it: a byte string or a text string. */
  datatype JsKey = KeyBytes(bytes: seq<Utf8.Byte>) | KeyText(text: string)

  /** What PyV8 returns: byte strings, arrays, functions, objects and any
      other value, which convert passes through. */
  datatype JsValue =
    | JsBytes(bytes: seq<Utf8.Byte>)
    | JsArray(items: seq<JsValue>)
    | JsFunction
    | JsObject(props: seq<JsProp>)
    | JsOther(value: Value)

  datatype JsProp = JsProp(key: JsKey, value: JsValue)

  /** obj.decode('utf8'). */
  function DecodeBytes(b: seq<Utf8.Byte>): (r: Result<string>)
    ensures r.Err? ==> r.error == HostError(UnicodeDecodeError)
    ensures r.Ok? <==> Utf8.Decode(b).Some?
    ensures r.Ok? ==> r.value == Utf8.Decode(b).value
  {
    match Utf8.Decode(b)
    case None => Err(HostError(UnicodeDecodeError))
    case Some(s) => Ok(s)
  }

  function ConvertKey(k: JsKey): Result<string> {
    match k
    case KeyBytes(b) => DecodeBytes(b)
    case KeyText(s) => Ok(s)
  }

  /** PyV8Runtime.Context.convert. */
  function Convert(x: JsValue): Result<Value>
    decreases x
  {
    match x
    case JsBytes(b) =>
      (match DecodeBytes(b)
       case Err(e) => Err(e)
       case Ok(s) => Ok(Str(s)))
    case JsArray(xs) =>
      (match ConvertItems(xs)
       case Err(e) => Err(e)
       case Ok(vs) => Ok(List(vs)))
    case JsFunction => Ok(Null)
    case JsObject(ps) =>
      (match ConvertProps(ps, [])
       case Err(e) => Err(e)
       case Ok(es) => Ok(Dict(es)))
    case JsOther(v) => Ok(v)
  }

  /** The list comprehension over an array, left to right. */
  function ConvertItems(xs: seq<JsValue>): Result<seq<Value>>
    decreases xs
  {
    if xs == [] then Ok([])
    else
      match Convert(xs[0])
      case Err(e) => Err(e)
      case Ok(v) =>
        match ConvertItems(xs[1..])
        case Err(e) => Err(e)
        case Ok(vs) => Ok([v] + vs)
  }

  function ConvertValue(p: JsProp): Result<Value>
    decreases p
  {
    Convert(p.value)
  }

  /** The loop over obj.keys(): the value is converted first; a None value
      skips the property, otherwise the key is converted and stored. */
  function ConvertProps(ps: seq<JsProp>, acc: seq<Entry>): Result<seq<Entry>>
    decreases ps
  {
    if ps == [] then Ok(acc)
    else
      match ConvertValue(ps[0])
      case Err(e) => Err(e)
      case Ok(v) =>
        if v == Null then ConvertProps(ps[1..], acc)
        else
          match ConvertKey(ps[0].key)
          case Err(e) => Err(e)
          case Ok(k) => ConvertProps(ps[1..], DictPut(acc, k, v))
  }

  /** The object branch of convert as the loop the source runs. */
  method ConvertObject(ps: seq<JsProp>) returns (r: Result<Value>)
    ensures r == Convert(JsObject(ps))
  {
    var ret: seq<Entry> := [];
    var i := 0;
    while i < |ps|
      invariant 0 <= i <= |ps|
      invariant ConvertProps(ps, []) == ConvertProps(ps[i..], ret)
    {
      assert ps[i..][1..] == ps[i + 1..];
      var v := Convert(ps[i].value);
      if v.Err? {
        return Err(v.error);
      }
      if v.value != Null {
        var k := ConvertKey(ps[i].key);
        if k.Err? {
          return Err(k.error);
        }
        ret := DictPut(ret, k.value, v.value);
      }
      i := i + 1;
    }
    assert ps[i..] == [];
    r := Ok(Dict(ret));
  }

  // ---------------------------------------------------------------------------
  // Properties of convert

  /** Arrays keep their length and order, element by element. */
  lemma {:induction false} ConvertItemsPointwise(xs: seq<JsValue>)
    ensures ConvertItems(xs).Ok? <==> forall k :: 0 <= k < |xs| ==> Convert(xs[k]).Ok?
    ensures ConvertItems(xs).Ok? ==>
      |ConvertItems(xs).value| == |xs| &&
      forall k :: 0 <= k < |xs| ==> ConvertItems(xs).value[k] == Convert(xs[k]).value
    decreases xs
  {
    if xs != [] {
      ConvertItemsPointwise(xs[1..]);
      assert forall k :: 1 <= k < |xs| ==> xs[1..][k - 1] == xs[k];
    }
  }

  /** No value of a converted object is None, and its keys are distinct. */
  lemma {:induction false} ConvertPropsNoNone(ps: seq<JsProp>, acc: seq<Entry>)
    requires DistinctKeys(acc) && forall k :: 0 <= k < |acc| ==> acc[k].value != Null
    ensures ConvertProps(ps, acc).Ok? ==>
      var es := ConvertProps(ps, acc).value;
      DistinctKeys(es) && forall k :: 0 <= k < |es| ==> es[k].value != Null
    decreases ps
  {
    if ps != [] {
      match ConvertValue(ps[0])
      case Err(_) =>
      case Ok(v) =>
        if v == Null {
          ConvertPropsNoNone(ps[1..], acc);
        } else {
          match ConvertKey(ps[0].key)
          case Err(_) =>
          case Ok(k) =>
            PutNoNone(acc, k, v);
            ConvertPropsNoNone(ps[1..], DictPut(acc, k, v));
        }
    }
  }

  lemma {:induction false} PutNoNone(acc: seq<Entry>, k: string, v: Value)
    requires v != Null && forall j :: 0 <= j < |acc| ==> acc[j].value != Null
    ensures forall j :: 0 <= j < |DictPut(acc, k, v)| ==> DictPut(acc, k, v)[j].value != Null
  {
  }

  lemma {:induction false} ConvertObjectNoNone(ps: seq<JsProp>)
    ensures Convert(JsObject(ps)).Ok? ==>
      var d := Convert(JsObject(ps)).value;
      d.Dict? && DistinctKeys(d.entries) && forall k :: 0 <= k < |d.entries| ==> d.entries[k].value != Null
  {
    ConvertPropsNoNone(ps, []);
  }

  /** A property whose value converts to None is skipped before its key
      is looked at, so a bad key there raises nothing. */
  lemma {:induction false} SkippedKeyNotDecoded(bad: seq<Utf8.Byte>, rest: seq<JsProp>, acc: seq<Entry>)
    requires Utf8.Decode(bad).None?
    ensures ConvertProps([JsProp(KeyBytes(bad), JsFunction)] + rest, acc) == ConvertProps(rest, acc)
    ensures ConvertProps([JsProp(KeyBytes(bad), JsOther(Str("x")))] + rest, acc) == Err(HostError(UnicodeDecodeError))
  {
    var skipped := [JsProp(KeyBytes(bad), JsFunction)] + rest;
    assert skipped[0] == JsProp(KeyBytes(bad), JsFunction) && skipped[1..] == rest;
    assert ConvertValue(skipped[0]) == Ok(Null);
    var kept := [JsProp(KeyBytes(bad), JsOther(Str("x")))] + rest;
    assert kept[0] == JsProp(KeyBytes(bad), JsOther(Str("x")));
    assert ConvertValue(kept[0]) == Ok(Str("x"));
    assert ConvertKey(kept[0].key) == Err(HostError(UnicodeDecodeError));
  }

  /** A function inside an array becomes None and keeps its place. */
  lemma {:induction false} FunctionInArrayKept(xs: seq<JsValue>, k: nat)
    requires k < |xs| && xs[k] == JsFunction
    ensures Convert(JsArray(xs)).Ok? ==>
      |Convert(JsArray(xs)).value.items| == |xs| && Convert(JsArray(xs)).value.items[k] == Null
  {
    ConvertItemsPointwise(xs);
  }

  /** A function-valued property is left out of the object, wherever it
      sits among the properties. */
  lemma {:induction false} FunctionPropertyDropped(front: seq<JsProp>, key: JsKey, back: seq<JsProp>, acc: seq<Entry>)
    ensures ConvertProps(front + [JsProp(key, JsFunction)] + back, acc) == ConvertProps(front + back, acc)
    decreases |front|
  {
    var f := JsProp(key, JsFunction);
    var ps := front + [f] + back;
    if front == [] {
      assert ps == [f] + back && ps[1..] == back && front + back == back;
      assert ConvertValue(ps[0]) == Ok(Null);
    } else {
      var qs := front + back;
      assert ps[0] == front[0] && qs[0] == front[0];
      assert ps[1..] == front[1..] + [f] + back;
      assert qs[1..] == front[1..] + back;
      match ConvertValue(front[0])
      case Err(_) =>
      case Ok(v) =>
        if v == Null {
          FunctionPropertyDropped(front[1..], key, back, acc);
        } else {
          match ConvertKey(front[0].key)
          case Err(_) =>
          case Ok(k) => FunctionPropertyDropped(front[1..], key, back, DictPut(acc, k, v));
        }
    }
  }

  /** convert of an object ignores its function-valued properties. */
  lemma {:induction false} FunctionPropertyIgnored(front: seq<JsProp>, key: JsKey, back: seq<JsProp>)
    ensures Convert(JsObject(front + [JsProp(key, JsFunction)] + back)) == Convert(JsObject(front + back))
  {
    FunctionPropertyDropped(front, key, back, []);
  }

  // ---------------------------------------------------------------------------
  // Round trip

  /** A Python value that convert can give back: dict keys distinct and no
      dict value None. */
  predicate Convertible(v: Value) decreases v {
    match v
    case List(xs) => forall k :: 0 <= k < |xs| ==> Convertible(xs[k])
    case Dict(es) => DistinctKeys(es) && forall k :: 0 <= k < |es| ==> ConvertibleEntry(es[k])
    case _ => true
  }

  predicate ConvertibleEntry(e: Entry) decreases e {
    e.value != Null && Convertible(e.value)
  }

  /** The JavaScript value PyV8 would hand back for a Python value: text as
      UTF-8 bytes, lists as arrays, dicts as objects with byte-string keys. */
  function Embed(v: Value): JsValue decreases v {
    match v
    case Str(s) => JsBytes(Utf8.Encode(s))
    case List(xs) => JsArray(EmbedItems(xs))
    case Dict(es) => JsObject(EmbedEntries(es))
    case _ => JsOther(v)
  }

  function EmbedItems(xs: seq<Value>): (r: seq<JsValue>)
    ensures |r| == |xs|
    decreases xs
  {
    if xs == [] then [] else [Embed(xs[0])] + EmbedItems(xs[1..])
  }

  function EmbedEntries(es: seq<Entry>): (r: seq<JsProp>)
    decreases es
  {
    if es == [] then []
    else [JsProp(KeyBytes(Utf8.Encode(es[0].key)), Embed(es[0].value))] + EmbedEntries(es[1..])
  }

  /** convert undoes Embed. */
  lemma {:induction false} ConvertEmbed(v: Value)
    requires Convertible(v)
    ensures Convert(Embed(v)) == Ok(v)
    decreases v, 1
  {
    match v
    case Str(s) => Utf8.DecodeEncode(s);
    case List(xs) => ConvertEmbedItems(xs);
    case Dict(es) =>
      ConvertEmbedEntries(es, []);
      assert [] + es == es;
    case _ =>
  }

  lemma {:induction false} ConvertEmbedItems(xs: seq<Value>)
    requires forall k :: 0 <= k < |xs| ==> Convertible(xs[k])
    ensures ConvertItems(EmbedItems(xs)) == Ok(xs)
    decreases xs, 0
  {
    if xs != [] {
      ConvertEmbed(xs[0]);
      ConvertEmbedItems(xs[1..]);
      assert EmbedItems(xs)[1..] == EmbedItems(xs[1..]);
      assert [xs[0]] + xs[1..] == xs;
    }
  }

  lemma {:induction false} ConvertEmbedEntries(es: seq<Entry>, acc: seq<Entry>)
    requires forall k :: 0 <= k < |es| ==> ConvertibleEntry(es[k])
    requires DistinctKeys(acc + es)
    ensures ConvertProps(EmbedEntries(es), acc) == Ok(acc + es)
    decreases es, 0
  {
    if es == [] {
      assert acc + es == acc;
    } else {
      var e := es[0];
      assert ConvertibleEntry(es[0]);
      ConvertEmbed(e.value);
      Utf8.DecodeEncode(e.key);
      EntriesAcc(es, acc);
      var ps := EmbedEntries(es);
      assert ps[1..] == EmbedEntries(es[1..]);
      ConvertEmbedEntries(es[1..], acc + [e]);
    }
  }

  // ---------------------------------------------------------------------------
  // The engine

  /** How the engine handled a script: it did not compile, it threw while
      running, or it completed with a value. */
  datatype EngineOutcome =
    | CompileFailed(message: string)
    | RunFailed(message: string)
    | Completed(result: JsValue)

  /** The script PyV8Runtime.Context.exec_ hands to the engine: both parts
      escaped to ASCII inside an immediately invoked function. */
  function ScriptText(preamble: string, source: string): (r: string)
    ensures IsAscii(r)
  {
    var s := "            (function() {\n                " + EncodeUnicodeCodepoints(preamble)
      + ";\n                " + EncodeUnicodeCodepoints(source) + ";\n            })()";
    var a, b := EncodeUnicodeCodepoints(preamble), EncodeUnicodeCodepoints(source);
    AsciiAppend("            (function() {\n                ", a);
    AsciiAppend("            (function() {\n                " + a, ";\n                ");
    AsciiAppend("            (function() {\n                " + a + ";\n                ", b);
    AsciiAppend("            (function() {\n                " + a + ";\n                " + b, ";\n            })()");
    s
  }

  lemma {:induction false} AsciiAppend(a: string, b: string)
    requires IsAscii(a) && IsAscii(b)
    ensures IsAscii(a + b)
  {
    forall i | 0 <= i < |a + b| ensures (a + b)[i] as int < 0x80 {
      if i >= |a| { assert (a + b)[i] == b[i - |a|]; }
    }
  }

  /** PyV8Runtime.Context.exec_: without PyV8 the import raises; a compile
      failure raises RuntimeError, a failure while running raises
      ProgramError, and a completed run converts its value. */
  function PyV8Exec(importable: bool, preamble: string, source: string,
                    engine: string -> EngineOutcome): Result<Value>
  {
    if !importable then Err(HostError(ImportError))
    else
      match engine(ScriptText(preamble, source))
      case CompileFailed(m) => Err(RuntimeError(m))
      case RunFailed(m) => Err(ProgramError(Str(m)))
      case Completed(x) => Convert(x)
  }

  /** PyV8Runtime.Context.eval. */
  function PyV8Eval(importable: bool, preamble: string, source: string,
                    engine: string -> EngineOutcome): Result<Value>
  {
    PyV8Exec(importable, preamble, "return " + EncodeUnicodeCodepoints(source), engine)
  }

  /** PyV8Runtime.Context.call. */
  function PyV8Call(importable: bool, preamble: string, identifier: string, args: seq<Value>,
                    engine: string -> EngineOutcome): Result<Value>
  {
    PyV8Eval(importable, preamble, CallCode(identifier, args), engine)
  }

  /** The error split depends only on where the engine failed. */
  lemma {:induction false} PyV8Errors(importable: bool, preamble: string, source: string, engine: string -> EngineOutcome)
    requires importable
    ensures var r := PyV8Exec(importable, preamble, source, engine);
      && (r.Err? && r.error.RuntimeError? <==> engine(ScriptText(preamble, source)).CompileFailed?)
      && (r.Err? && r.error.ProgramError? <==> engine(ScriptText(preamble, source)).RunFailed?)
  {
    var x := engine(ScriptText(preamble, source));
    if x.Completed? {
      ConvertErrorKind(x.result);
    }
  }

  /** convert raises nothing but UnicodeDecodeError. */
  lemma {:induction false} ConvertErrorKind(x: JsValue)
    ensures Convert(x).Err? ==> Convert(x).error == HostError(UnicodeDecodeError)
    decreases x, 1
  {
    match x
    case JsArray(xs) => ItemsErrorKind(xs);
    case JsObject(ps) => PropsErrorKind(ps, []);
    case _ =>
  }

  lemma {:induction false} ItemsErrorKind(xs: seq<JsValue>)
    ensures ConvertItems(xs).Err? ==> ConvertItems(xs).error == HostError(UnicodeDecodeError)
    decreases xs, 0
  {
    if xs != [] {
      ConvertErrorKind(xs[0]);
      ItemsErrorKind(xs[1..]);
    }
  }

  lemma {:induction false} ConvertValueErrorKind(p: JsProp)
    ensures ConvertValue(p).Err? ==> ConvertValue(p).error == HostError(UnicodeDecodeError)
    decreases p, 2
  {
    ConvertErrorKind(p.value);
  }

  lemma {:induction false} PropsErrorKind(ps: seq<JsProp>, acc: seq<Entry>)
    ensures ConvertProps(ps, acc).Err? ==> ConvertProps(ps, acc).error == HostError(UnicodeDecodeError)
    decreases ps, 0
  {
    if ps != [] {
      ConvertValueErrorKind(ps[0]);
      match ConvertValue(ps[0])
      case Err(_) =>
      case Ok(v) =>
        if v == Null {
          PropsErrorKind(ps[1..], acc);
        } else {
          match ConvertKey(ps[0].key)
          case Err(_) =>
          case Ok(k) => PropsErrorKind(ps[1..], DictPut(acc, k, v));
        }
    }
  }

  /** eval escapes the source before exec_ escapes it again; the second pass
      changes nothing. */
  lemma {:induction false} PyV8EvalScript(preamble: string, source: string)
    ensures ScriptText(preamble, "return " + EncodeUnicodeCodepoints(source))
      == ScriptText(preamble, EncodeUnicodeCodepoints("return " + source))
  {
    var e := EncodeUnicodeCodepoints(source);
    assert EncodeUnicodeCodepoints("return " + e) == EncodeUnicodeCodepoints(EncodeUnicodeCodepoints("return " + source)) by {
      EncodeAppend("return ", source);
      AsciiUnchanged("return ");
      Idempotent(source);
      EncodeAppend("return ", e);
      Idempotent("return " + source);
    }
  }
}

/** Python values as they cross the runtime layer: what json.loads produces
    from a result line, what PyV8Runtime.Context.convert produces, and what
    Context.call serialises as arguments. Floats are not modelled. */
module PyValues {

  /** A Python value. `Null` is Python's None; `Dict` keeps the insertion order
      of a Python dict and its keys are strings. */
  datatype Value =
    | Null
    | Bool(b: bool)
    | Int(i: int)
    | Str(s: string)
    | List(items: seq<Value>)
    | Dict(entries: seq<Entry>)

  /** One key/value pair of a dict. */
  datatype Entry = Entry(key: string, value: Value)

  /** Python truthiness: None, False, 0 and empty containers are false. */
  predicate Truthy(v: Value) {
    match v
    case Null => false
    case Bool(b) => b
    case Int(i) => i != 0
    case Str(s) => s != []
    case List(xs) => xs != []
    case Dict(es) => es != []
  }

  predicate StartsWith(s: string, prefix: string) {
    |prefix| <= |s| && s[..|prefix|] == prefix
  }

  /** Keys of a Python dict are distinct. */
  predicate DistinctKeys(es: seq<Entry>) {
    forall i, j :: 0 <= i < j < |es| ==> es[i].key != es[j].key
  }

  /** Position of the first entry with key `k`, or |es| when there is none. */
  function KeyIndex(es: seq<Entry>, k: string): (i: nat)
    ensures i <= |es|
    ensures i < |es| ==> es[i].key == k
    ensures forall j :: 0 <= j < i ==> es[j].key != k
  {
    if es == [] then 0
    else if es[0].key == k then 0
    else 1 + KeyIndex(es[1..], k)
  }

  /** `d[k] = v` on a Python dict: an existing key keeps its position and gets
      the new value, a new key is appended. */
  function DictPut(es: seq<Entry>, k: string, v: Value): (r: seq<Entry>)
    ensures var i := KeyIndex(es, k);
      r == if i < |es| then es[i := Entry(k, v)] else es + [Entry(k, v)]
    ensures DistinctKeys(es) ==> DistinctKeys(r)
  {
    if es == [] then [Entry(k, v)]
    else if es[0].key == k then [Entry(k, v)] + es[1..]
    else
      var r := DictPut(es[1..], k, v);
      PutCons(es, k, v, r);
      [es[0]] + r
  }

  /** The recursive case of DictPut: the first entry, whose key differs,
      goes in front of the update of the rest. */
  lemma {:induction false} PutCons(es: seq<Entry>, k: string, v: Value, r: seq<Entry>)
    requires es != [] && es[0].key != k
    requires var i := KeyIndex(es[1..], k);
      r == if i < |es[1..]| then es[1..][i := Entry(k, v)] else es[1..] + [Entry(k, v)]
    requires DistinctKeys(es[1..]) ==> DistinctKeys(r)
    ensures var i := KeyIndex(es, k);
      [es[0]] + r == if i < |es| then es[i := Entry(k, v)] else es + [Entry(k, v)]
    ensures DistinctKeys(es) ==> DistinctKeys([es[0]] + r)
  {
    PutShape(es[0], es[1..], k, v, r);
    assert es == [es[0]] + es[1..];
    if DistinctKeys(es) {
      DistinctTail(es);
      PutKeys(es[0], es[1..], k, v, r);
      DistinctCons(es[0], r);
    }
  }

  lemma {:induction false} PutShape(e: Entry, t: seq<Entry>, k: string, v: Value, r: seq<Entry>)
    requires e.key != k
    requires var i := KeyIndex(t, k);
      r == if i < |t| then t[i := Entry(k, v)] else t + [Entry(k, v)]
    ensures var i := KeyIndex([e] + t, k);
      [e] + r == if i < |[e] + t| then ([e] + t)[i := Entry(k, v)] else [e] + t + [Entry(k, v)]
  {
    assert ([e] + t)[1..] == t;
    var i := KeyIndex(t, k);
    if i < |t| {
      assert [e] + t[i := Entry(k, v)] == ([e] + t)[i + 1 := Entry(k, v)];
    } else {
      assert [e] + (t + [Entry(k, v)]) == [e] + t + [Entry(k, v)];
    }
  }

  /** Updating a dict whose keys all differ from `e`'s keeps them so. */
  lemma {:induction false} PutKeys(e: Entry, t: seq<Entry>, k: string, v: Value, r: seq<Entry>)
    requires e.key != k && forall j :: 0 <= j < |t| ==> t[j].key != e.key
    requires var i := KeyIndex(t, k);
      r == if i < |t| then t[i := Entry(k, v)] else t + [Entry(k, v)]
    ensures forall j :: 0 <= j < |r| ==> r[j].key != e.key
  {
    forall j | 0 <= j < |r| ensures r[j].key != e.key {
      if j < |t| {
        assert r[j] == t[j] || r[j] == Entry(k, v);
      }
    }
  }

  lemma {:induction false} DistinctTail(es: seq<Entry>)
    requires es != [] && DistinctKeys(es)
    ensures DistinctKeys(es[1..])
  {
    var t := es[1..];
    forall a, b | 0 <= a < b < |t| ensures t[a].key != t[b].key {
      assert t[a] == es[a + 1] && t[b] == es[b + 1];
    }
  }

  lemma {:induction false} DistinctCons(e: Entry, r: seq<Entry>)
    requires DistinctKeys(r)
    requires forall j :: 0 <= j < |r| ==> r[j].key != e.key
    ensures DistinctKeys([e] + r)
  {
    var x := [e] + r;
    forall a, b | 0 <= a < b < |x| ensures x[a].key != x[b].key {
      assert x[b] == r[b - 1];
      if a > 0 {
        assert x[a] == r[a - 1];
      }
    }
  }
}

/**
 * JSON-shaped values as the Python code sees them: message records,
 * prompt sets and model replies are `dict`s whose keys keep their
 * insertion order. A dict is an association list; `Put` is Python's
 * `d[k] = v` / `{**d, k: v}`, `Get` is `d.get(k)`, `Truthy` is Python's
 * truth test and `ToStr` is `str(v)`.
 */
module Json {
  import opened Wrappers
  import Text

  datatype Value =
    | Null
    | Bool(b: bool)
    | Int(i: int)
    | Str(s: string)
    | List(items: seq<Value>)
    | Dict(fields: seq<Field>)

  datatype Field = Field(key: string, value: Value)

  /** A Python dict with string keys, in insertion order. */
  type Record = seq<Field>

  /** The set of keys of a dict. */
  function Keys(d: Record): set<string>
    decreases |d|
  {
    if |d| == 0 then {} else {d[0].key} + Keys(d[1..])
  }

  /** The keys of a dict with one more field in front. */
  lemma KeysCons(f: Field, d: Record)
    ensures Keys([f] + d) == {f.key} + Keys(d)
  {
    assert ([f] + d)[1..] == d;
  }

  /** A two-field dict literal `{k1: v1, k2: v2}` has exactly those keys,
      and each looks up its own value. */
  lemma PairLookup(k1: string, v1: Value, k2: string, v2: Value)
    requires k1 != k2
    ensures Keys([Field(k1, v1), Field(k2, v2)]) == {k1, k2}
    ensures Get([Field(k1, v1), Field(k2, v2)], k1) == Some(v1)
    ensures Get([Field(k1, v1), Field(k2, v2)], k2) == Some(v2)
  {
    KeysCons(Field(k2, v2), []);
    KeysCons(Field(k1, v1), [Field(k2, v2)]);
    assert [Field(k1, v1), Field(k2, v2)] == [Field(k1, v1)] + [Field(k2, v2)];
  }

  /** Every key appears once, as in a real Python dict. */
  predicate UniqueKeys(d: Record)
    decreases |d|
  {
    |d| == 0 || (d[0].key !in Keys(d[1..]) && UniqueKeys(d[1..]))
  }

  /** `d.get(k)`, with the absent case kept apart from a stored `None`. */
  function Get(d: Record, k: string): (r: Option<Value>)
    ensures r.Some? <==> k in Keys(d)
    ensures r.Some? ==> Field(k, r.value) in d
    decreases |d|
  {
    if |d| == 0 then None
    else if d[0].key == k then Some(d[0].value)
    else
      KeysCons(d[0], d[1..]);
      assert d == [d[0]] + d[1..];
      var r := Get(d[1..], k);
      r
  }

  /** `d.get(k)` reads the first field with key `k`. */
  lemma {:induction false} GetFirst(d: Record, k: string, i: int)
    requires 0 <= i < |d| && d[i].key == k
    requires forall j :: 0 <= j < i ==> d[j].key != k
    ensures Get(d, k) == Some(d[i].value)
    decreases i
  {
    if i > 0 {
      GetFirst(d[1..], k, i - 1);
    }
  }

  /** `d.get(k, default)`. */
  function GetOr(d: Record, k: string, default: Value): Value {
    match Get(d, k)
    case Some(v) => v
    case None => default
  }

  /** `d[k] = v` on a copy: `k` now maps to `v` and every other key keeps
      its value. */
  function Put(d: Record, k: string, v: Value): (r: Record)
    ensures Get(r, k) == Some(v)
    ensures forall j :: j != k ==> Get(r, j) == Get(d, j)
    ensures Keys(r) == Keys(d) + {k}
    decreases |d|
  {
    if |d| == 0 then [Field(k, v)]
    else if d[0].key == k then
      var r := [Field(k, v)] + d[1..];
      KeysCons(Field(k, v), d[1..]);
      KeysCons(d[0], d[1..]);
      assert d == [d[0]] + d[1..];
      assert r[1..] == d[1..];
      r
    else
      var tail := Put(d[1..], k, v);
      var r := [d[0]] + tail;
      KeysCons(d[0], d[1..]);
      assert d == [d[0]] + d[1..];
      KeysCons(d[0], tail);
      assert r[1..] == tail;
      r
  }

  /** A new key goes last: `Put` appends a field for a key not yet
      present. */
  lemma {:induction false} PutAppends(d: Record, k: string, v: Value)
    requires k !in Keys(d)
    ensures Put(d, k, v) == d + [Field(k, v)]
    decreases |d|
  {
    if |d| > 0 {
      KeysCons(d[0], d[1..]);
      assert d == [d[0]] + d[1..];
      PutAppends(d[1..], k, v);
      assert [d[0]] + (d[1..] + [Field(k, v)]) == d + [Field(k, v)];
    }
  }

  /** An existing key keeps its slot: `Put` on a present key overwrites in
      place, and in every case the keys already there keep their
      positions. */
  lemma {:induction false} PutKeepsSlots(d: Record, k: string, v: Value)
    ensures k in Keys(d) ==> |Put(d, k, v)| == |d|
    ensures |Put(d, k, v)| >= |d|
    ensures forall i :: 0 <= i < |d| ==> Put(d, k, v)[i].key == d[i].key
    decreases |d|
  {
    if |d| > 0 && d[0].key != k {
      PutKeepsSlots(d[1..], k, v);
      KeysCons(d[0], d[1..]);
      assert d == [d[0]] + d[1..];
      var tail := Put(d[1..], k, v);
      var r := Put(d, k, v);
      assert r == [d[0]] + tail;
      forall i | 1 <= i < |d|
        ensures r[i].key == d[i].key
      {
        assert r[i] == tail[i - 1] && d[i] == d[1..][i - 1];
      }
    }
  }

  /** `Put` keeps a dict free of duplicate keys. */
  lemma {:induction false} PutUnique(d: Record, k: string, v: Value)
    requires UniqueKeys(d)
    ensures UniqueKeys(Put(d, k, v))
    decreases |d|
  {
    var r := Put(d, k, v);
    if |d| == 0 {
    } else if d[0].key == k {
      assert r[1..] == d[1..];
    } else {
      var tail := Put(d[1..], k, v);
      PutUnique(d[1..], k, v);
      assert r == [d[0]] + tail;
      assert r[1..] == tail;
    }
  }

  /** Python's truth test: `None`, `False`, `0`, `""`, `[]` and `{}` are
      false, everything else is true. */
  predicate Truthy(v: Value) {
    match v
    case Null => false
    case Bool(b) => b
    case Int(i) => i != 0
    case Str(s) => s != ""
    case List(xs) => xs != []
    case Dict(fs) => fs != []
  }

  /** Python's `v or alternative`. */
  function Or(v: Value, alternative: Value): (r: Value)
    ensures Truthy(v) ==> r == v
    ensures !Truthy(v) ==> r == alternative
  {
    if Truthy(v) then v else alternative
  }

  /** Python's `or` picks one of its operands: the result is truthy
      exactly when one of them is, and `or` chains associate. */
  lemma OrLaws(v: Value, a: Value, b: Value)
    ensures Or(v, a) == v || Or(v, a) == a
    ensures Truthy(Or(v, a)) <==> Truthy(v) || Truthy(a)
    ensures Or(Or(v, a), b) == Or(v, Or(a, b))
  {
  }

  /** `type(v).__name__`. */
  function TypeName(v: Value): string {
    match v
    case Null => "NoneType"
    case Bool(_) => "bool"
    case Int(_) => "int"
    case Str(_) => "str"
    case List(_) => "list"
    case Dict(_) => "dict"
  }

  /** Values a Python `set` can hold: lists and dicts are unhashable. */
  predicate Hashable(v: Value) {
    !v.List? && !v.Dict?
  }

  /** `str(v)`: a string is itself, anything else is its `repr`. */
  function ToStr(v: Value): (r: string)
    ensures v.Str? ==> r == v.s
    ensures v == Null ==> r == "None"
  {
    match v
    case Str(s) => s
    case _ => Repr(v)
  }

  /** `repr(v)`; strings are shown between single quotes. */
  function Repr(v: Value): string
    decreases v, 0
  {
    match v
    case Null => "None"
    case Bool(b) => if b then "True" else "False"
    case Int(i) => Text.IntToString(i)
    case Str(s) => "'" + s + "'"
    case List(xs) => "[" + ReprItems(xs) + "]"
    case Dict(fs) => "{" + ReprFields(fs) + "}"
  }

  function ReprItems(xs: seq<Value>): string
    decreases xs, 1
  {
    if |xs| == 0 then ""
    else if |xs| == 1 then Repr(xs[0])
    else Repr(xs[0]) + ", " + ReprItems(xs[1..])
  }

  function ReprFields(fs: seq<Field>): string
    decreases fs, 1
  {
    if |fs| == 0 then ""
    else
      var entry := "'" + fs[0].key + "': " + Repr(fs[0].value);
      if |fs| == 1 then entry else entry + ", " + ReprFields(fs[1..])
  }
}

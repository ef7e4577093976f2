/**
 * JavaScript values as the validator handles them, and the object operations
 * it performs on them (property lookup, `{...o, [k]: v}`, `{...a, ...b}`).
 */
module Json {
  import opened Wrappers

  /**
   * A JavaScript value. `Undefined` is part of the domain: the validator is
   * called on absent properties, stores `undefined` into the objects and
   * arrays it rebuilds, and treats `const`/`default` as absent when they are
   * `undefined`. Objects keep their own keys in enumeration order.
   */
  datatype Value =
    | Undefined
    | Null
    | Bool(b: bool)
    | Num(n: real)
    | Str(s: string)
    | Arr(elems: seq<Value>)
    | Obj(fields: seq<(string, Value)>)

  /** The keys of an ordered key/value list, in order (`Object.keys`). */
  function Keys<V>(kvs: seq<(string, V)>): seq<string>
  {
    if |kvs| == 0 then [] else [kvs[0].0] + Keys(kvs[1..])
  }

  /** No key occurs twice, as in every JavaScript object. */
  predicate DistinctKeys<V>(kvs: seq<(string, V)>)
  {
    forall i, j :: 0 <= i < j < |kvs| ==> kvs[i].0 != kvs[j].0
  }

  /** The value stored under `k`, if any. */
  function Find<V>(kvs: seq<(string, V)>, k: string): (r: Option<V>)
    ensures r.Some? <==> k in Keys(kvs)
  {
    if |kvs| == 0 then None
    else if kvs[0].0 == k then Some(kvs[0].1)
    else Find(kvs[1..], k)
  }

  /** Property access `o[k]` on an object's own fields: `undefined` when absent. */
  function Get(fields: seq<(string, Value)>, k: string): Value
  {
    match Find(fields, k)
    case Some(v) => v
    case None => Undefined
  }

  /**
   * `{...kvs, [k]: v}`: an existing key keeps its position and takes the new
   * value; a new key is appended.
   */
  function Put<V>(kvs: seq<(string, V)>, k: string, v: V): (r: seq<(string, V)>)
    ensures Find(r, k) == Some(v)
    ensures forall x :: x != k ==> Find(r, x) == Find(kvs, x)
    ensures forall x :: x in Keys(r) <==> x in Keys(kvs) || x == k
    ensures DistinctKeys(kvs) ==> DistinctKeys(r)
  {
    if |kvs| == 0 then
      Cons((k, v), []);
      [(k, v)]
    else if kvs[0].0 == k then
      Cons((k, v), kvs[1..]);
      Cons(kvs[0], kvs[1..]);
      assert kvs == [kvs[0]] + kvs[1..];
      [(k, v)] + kvs[1..]
    else
      var rest := Put(kvs[1..], k, v);
      Cons(kvs[0], rest);
      Cons(kvs[0], kvs[1..]);
      assert kvs == [kvs[0]] + kvs[1..];
      [kvs[0]] + rest
  }

  /** How `Keys`, `Find` and `DistinctKeys` see an entry in front of a list. */
  lemma Cons<V>(e: (string, V), rest: seq<(string, V)>)
    ensures Keys([e] + rest) == [e.0] + Keys(rest)
    ensures forall x :: Find([e] + rest, x) == if e.0 == x then Some(e.1) else Find(rest, x)
    ensures DistinctKeys([e] + rest) <==> e.0 !in Keys(rest) && DistinctKeys(rest)
  {
    assert ([e] + rest)[1..] == rest;
    KeysAt(rest);
    if DistinctKeys([e] + rest) {
      forall i, j | 0 <= i < j < |rest| ensures rest[i].0 != rest[j].0 {
        assert rest[i] == ([e] + rest)[i + 1] && rest[j] == ([e] + rest)[j + 1];
      }
    }
    if e.0 !in Keys(rest) && DistinctKeys(rest) {
      forall i, j | 0 <= i < j < |[e] + rest| ensures ([e] + rest)[i].0 != ([e] + rest)[j].0 {
        if i == 0 {
          assert ([e] + rest)[j].0 == Keys(rest)[j - 1];
        } else {
          assert ([e] + rest)[i] == rest[i - 1] && ([e] + rest)[j] == rest[j - 1];
        }
      }
    }
  }

  /** `{...a, ...b}`: the entries of `b` put into `a`, in `b`'s order. */
  function Merge<V>(a: seq<(string, V)>, b: seq<(string, V)>): (r: seq<(string, V)>)
    ensures DistinctKeys(b) ==> forall x :: Find(r, x) == if Find(b, x).Some? then Find(b, x) else Find(a, x)
    ensures forall x :: x in Keys(r) <==> x in Keys(a) || x in Keys(b)
    ensures DistinctKeys(a) ==> DistinctKeys(r)
    decreases |b|
  {
    if |b| == 0 then a
    else
      Cons(b[0], b[1..]);
      assert b == [b[0]] + b[1..];
      Merge(Put(a, b[0].0, b[0].1), b[1..])
  }

  lemma KeysAt<V>(kvs: seq<(string, V)>)
    ensures |Keys(kvs)| == |kvs|
    ensures forall i :: 0 <= i < |kvs| ==> Keys(kvs)[i] == kvs[i].0
  {
    if |kvs| > 0 { KeysAt(kvs[1..]); }
  }

  /** JavaScript falsiness (`!v`); NaN is not modelled. */
  predicate Falsy(v: Value)
  {
    v == Undefined || v == Null || v == Bool(false) || v == Num(0.0) || v == Str("")
  }

  /** The `typeof` operator. */
  function TypeOf(v: Value): string
  {
    match v
    case Undefined => "undefined"
    case Null => "object"
    case Bool(_) => "boolean"
    case Num(_) => "number"
    case Str(_) => "string"
    case Arr(_) => "object"
    case Obj(_) => "object"
  }

  /** `Math.floor(x) === x`. */
  predicate IsIntegral(x: real)
  {
    x.Floor as real == x
  }
}

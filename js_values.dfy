/**
 * The JavaScript values that cross the core's boundary: the interpolated
 * values of a query, the records given to `insert` and to a prepared
 * callable, and the decoded JSON of the holiday service.
 */
module JsValues {
  import opened Wrappers

  /**
   * A JavaScript value. `Obj` lists an object's own enumerable properties in
   * their enumeration order (the order `Object.keys` reports).
   */
  datatype JsValue =
    | Undefined
    | Null
    | Bool(b: bool)
    | Num(n: int)
    | Str(s: string)
    | Arr(items: seq<JsValue>)
    | Obj(props: seq<(string, JsValue)>)

  /** What reading a property can throw. */
  datatype JsError = TypeError

  /** `undefined` and `null`: the values whose properties cannot be read. */
  predicate Nullish(v: JsValue)
  {
    v.Undefined? || v.Null?
  }

  /** A well-formed object: no property name occurs twice. */
  predicate DistinctKeys(props: seq<(string, JsValue)>)
  {
    forall i, j :: 0 <= i < j < |props| ==> props[i].0 != props[j].0
  }

  /** The object has no property called `key`. */
  predicate Absent(props: seq<(string, JsValue)>, key: string)
  {
    forall j :: 0 <= j < |props| ==> props[j].0 != key
  }

  /** The value of own property `key`, `undefined` when there is none. */
  function Get(props: seq<(string, JsValue)>, key: string): (v: JsValue)
    ensures DistinctKeys(props) ==>
      forall j :: 0 <= j < |props| && props[j].0 == key ==> v == props[j].1
    ensures Absent(props, key) ==> v == Undefined
    decreases |props|
  {
    if |props| == 0 then Undefined
    else if props[0].0 == key then props[0].1
    else Get(props[1..], key)
  }

  /**
   * `v[key]`: a TypeError on `undefined` and `null`, the own property of an
   * object, and `undefined` on every other value.
   */
  function Property(v: JsValue, key: string): (r: Result<JsValue, JsError>)
    ensures r.Failure? <==> Nullish(v)
  {
    match v
    case Undefined => Failure(TypeError)
    case Null => Failure(TypeError)
    case Obj(props) => Success(Get(props, key))
    case _ => Success(Undefined)
  }

  /** Two well-formed objects with the same properties answer every read alike, whatever their order. */
  lemma GetIgnoresOrder(p: seq<(string, JsValue)>, q: seq<(string, JsValue)>, key: string)
    requires DistinctKeys(p) && DistinctKeys(q)
    requires forall e :: e in p <==> e in q
    ensures Get(p, key) == Get(q, key)
  {
    if !Absent(p, key) {
      var j :| 0 <= j < |p| && p[j].0 == key;
      assert p[j] in q;
      var k :| 0 <= k < |q| && q[k] == p[j];
    } else {
      forall k | 0 <= k < |q|
        ensures q[k].0 != key
      {
        assert q[k] in p;
      }
    }
  }
}

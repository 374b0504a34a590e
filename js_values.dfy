/**
 * JavaScript values as the helpers of the suite see them: primitives, arrays and plain objects
 * whose own properties are kept in order.
 */
module JsValues {
  import opened Wrappers

  datatype JsValue =
    | Undefined
    | Null
    | Bool(b: bool)
    | Number(n: int)
    | Str(s: string)
    | Array(elements: seq<JsValue>)
    | Object(properties: seq<Property>)

  datatype Property = Property(key: string, value: JsValue)

  /** `Object.keys`, in property order. */
  function Keys(ps: seq<Property>): (ks: seq<string>)
    ensures |ks| == |ps| && forall i :: 0 <= i < |ps| ==> ks[i] == ps[i].key
  {
    seq(|ps|, i requires 0 <= i < |ps| => ps[i].key)
  }

  /** No key occurs twice, as in every object JavaScript builds. */
  predicate DistinctKeys(ps: seq<Property>) {
    forall i, j :: 0 <= i < j < |ps| ==> ps[i].key != ps[j].key
  }

  /** Every object inside the value, at any depth, has distinct keys. */
  predicate WellFormed(v: JsValue) {
    match v
    case Array(es) => forall i :: 0 <= i < |es| ==> WellFormed(es[i])
    case Object(ps) => DistinctKeys(ps) && forall i :: 0 <= i < |ps| ==> WellFormed(ps[i].value)
    case _ => true
  }

  /** `obj[key]`: the value of the property named `key`, or absent. */
  function Get(ps: seq<Property>, key: string): (r: Option<JsValue>)
    ensures r.Some? <==> key in Keys(ps)
  {
    if ps == [] then None
    else if ps[0].key == key then Some(ps[0].value)
    else Get(ps[1..], key)
  }

  /**
   * `obj[key] = value`: an existing property keeps its place and takes the new value; a new key
   * goes last.
   */
  function Set(ps: seq<Property>, key: string, value: JsValue): seq<Property> {
    if ps == [] then [Property(key, value)]
    else if ps[0].key == key then [Property(key, value)] + ps[1..]
    else [ps[0]] + Set(ps[1..], key, value)
  }

  /** The keys of a non-empty object: its first key, then the keys of the rest. */
  lemma KeysCons(ps: seq<Property>)
    requires ps != []
    ensures Keys(ps) == [ps[0].key] + Keys(ps[1..])
  {
  }

  /** Assigning a key keeps the key list, or adds the key at its end when it is new. */
  lemma {:induction false} SetKeys(ps: seq<Property>, key: string, value: JsValue)
    ensures Keys(Set(ps, key, value)) == if key in Keys(ps) then Keys(ps) else Keys(ps) + [key]
  {
    if ps != [] {
      KeysCons(ps);
      var r := Set(ps, key, value);
      KeysCons(r);
      if ps[0].key != key {
        assert r[1..] == Set(ps[1..], key, value);
        SetKeys(ps[1..], key, value);
      } else {
        assert r[1..] == ps[1..];
      }
    }
  }

  /** After `obj[key] = value`, the key reads `value` and every other key reads as before. */
  lemma {:induction false} SetGet(ps: seq<Property>, key: string, value: JsValue)
    ensures Get(Set(ps, key, value), key) == Some(value)
    ensures forall k :: k != key ==> Get(Set(ps, key, value), k) == Get(ps, k)
  {
    if ps != [] && ps[0].key != key {
      var rest := Set(ps[1..], key, value);
      var r := Set(ps, key, value);
      assert r[0] == ps[0] && r[1..] == rest;
      SetGet(ps[1..], key, value);
    } else if ps != [] {
      assert Set(ps, key, value)[1..] == ps[1..];
    }
  }

  /** Setting a key to the value it was just set to changes nothing. */
  lemma {:induction false} SetIdempotent(ps: seq<Property>, key: string, value: JsValue)
    ensures Set(Set(ps, key, value), key, value) == Set(ps, key, value)
  {
    if ps != [] && ps[0].key != key {
      SetIdempotent(ps[1..], key, value);
    }
  }

  /** Setting the key at index `j` of an object with distinct keys replaces exactly that entry. */
  lemma {:induction false} SetAt(ps: seq<Property>, j: int, value: JsValue)
    requires DistinctKeys(ps) && 0 <= j < |ps|
    ensures Set(ps, ps[j].key, value) == ps[j := Property(ps[j].key, value)]
  {
    var key, p := ps[j].key, Property(ps[j].key, value);
    if j > 0 {
      var tail := ps[1..];
      assert DistinctKeys(tail) by {
        forall a, b | 0 <= a < b < |tail| ensures tail[a].key != tail[b].key {
          assert tail[a] == ps[a + 1] && tail[b] == ps[b + 1];
        }
      }
      assert tail[j - 1] == ps[j];
      SetAt(tail, j - 1, value);
      assert ps[0].key != key;
      assert Set(ps, key, value) == [ps[0]] + Set(tail, key, value);
      assert [ps[0]] + tail[j - 1 := p] == ps[j := p];
    }
  }

  /** JavaScript truthiness: `undefined`, `null`, `false`, `0` and `''` are falsy. */
  predicate IsTruthy(v: JsValue) {
    match v
    case Undefined => false
    case Null => false
    case Bool(b) => b
    case Number(n) => n != 0
    case Str(s) => s != ""
    case _ => true
  }

  /** `typeof v === 'object'`: null, arrays and objects. */
  predicate IsObjectType(v: JsValue) {
    v.Null? || v.Array? || v.Object?
  }
}

/**
 * `redactSecrets` of the provider-configuration logger: a copy of a JSON value in which every
 * property whose key names a secret is masked, at any depth.
 */
module LogProviders {
  import opened Wrappers
  import opened JsValues
  import Text

  /** The field names whose presence in a key, ignoring case, marks the key as secret. */
  const SensitiveFields: seq<string> :=
    ["password", "token", "secret", "api_key", "apiKey", "guest_vm_linux_password", "guest_vm_win_password"]

  const RedactedMarker := "***REDACTED***"

  /** `fields.some((field) => lowerKey.includes(field.toLowerCase()))`. */
  function MatchesAnyField(lowerKey: string, fields: seq<string>): (b: bool)
    ensures b <==> exists i :: 0 <= i < |fields| && Text.Contains(lowerKey, Text.ToLower(fields[i]))
  {
    if fields == [] then false
    else
      var rest := MatchesAnyField(lowerKey, fields[1..]);
      assert rest <==> exists i :: 1 <= i < |fields| && Text.Contains(lowerKey, Text.ToLower(fields[i])) by {
        forall i | 1 <= i < |fields| ensures fields[1..][i - 1] == fields[i] { }
        if rest {
          var i :| 0 <= i < |fields| - 1 && Text.Contains(lowerKey, Text.ToLower(fields[1..][i]));
          assert Text.Contains(lowerKey, Text.ToLower(fields[i + 1]));
        }
      }
      Text.Contains(lowerKey, Text.ToLower(fields[0])) || rest
  }

  /** A key is secret when its lower-case form contains one of the lower-cased field names. */
  predicate IsSensitiveKey(key: string) {
    MatchesAnyField(Text.ToLower(key), SensitiveFields)
  }

  /**
   * The two guest-VM password fields are redundant: a key is secret exactly when, lower-cased,
   * it contains one of the first five field names (with `apiKey` lower-cased).
   */
  lemma SensitiveKeyByFirstFields(key: string)
    ensures IsSensitiveKey(key) <==> exists i :: 0 <= i < 5 && Text.Contains(Text.ToLower(key), Text.ToLower(SensitiveFields[i]))
  {
    var lower := Text.ToLower(key);
    forall i | 5 <= i < 7 && Text.Contains(lower, Text.ToLower(SensitiveFields[i]))
      ensures Text.Contains(lower, Text.ToLower(SensitiveFields[0]))
    {
      var field := Text.ToLower(SensitiveFields[i]);
      assert Text.ToLower(SensitiveFields[0]) == "password";
      var at := if i == 5 then 15 else 13;
      assert field[at..at + 8] == "password";
      assert Text.OccursAt(field, "password", at);
      Text.ContainsTransitive(lower, field, "password");
    }
  }

  /** The new value of one property: masked when its key is secret, else redacted if an object. */
  function RedactProperty(key: string, value: JsValue): (r: JsValue)
    decreases value, 3, 0
    ensures IsSensitiveKey(key) ==> r == (if IsTruthy(value) then Str(RedactedMarker) else Str(""))
    ensures !IsSensitiveKey(key) && !IsObjectType(value) ==> r == value
    ensures !IsSensitiveKey(key) && IsObjectType(value) ==> r == RedactSecrets(value)
    ensures !IsSensitiveKey(key) ==> (IsObjectType(r) <==> IsObjectType(value))
  {
    if IsSensitiveKey(key) then
      if IsTruthy(value) then Str(RedactedMarker) else Str("")
    else if IsObjectType(value) then RedactSecrets(value)
    else value
  }

  /**
   * The loop over `Object.keys(redacted)`: visiting the keys of `ps` from index `i` on, each
   * assignment `redacted[key] = ...` sets that key of the copy `redacted`. The value it reads is
   * the spread copy's, not yet overwritten because the keys of an object are distinct.
   */
  function RedactLoop(ps: seq<Property>, redacted: seq<Property>, i: nat): (r: seq<Property>)
    requires i <= |ps| && Keys(redacted) == Keys(ps)
    decreases Object(ps), 1, |ps| - i
    ensures Keys(r) == Keys(ps)
  {
    if i == |ps| then redacted
    else
      var key := ps[i].key;
      assert key in Keys(redacted) by { assert Keys(ps)[i] == key; }
      SetKeys(redacted, key, RedactProperty(key, ps[i].value));
      RedactLoop(ps, Set(redacted, key, RedactProperty(key, ps[i].value)), i + 1)
  }

  /**
   * `redactSecrets`: values other than objects, and null, come back as they are; an array is
   * redacted element by element; an object is copied and its keys visited in order.
   */
  function RedactSecrets(v: JsValue): (r: JsValue)
    decreases v, 2, 0
    ensures !IsObjectType(v) || v.Null? ==> r == v
    ensures v.Array? ==> r.Array? && |r.elements| == |v.elements|
    ensures v.Array? ==> forall i :: 0 <= i < |v.elements| ==> r.elements[i] == RedactSecrets(v.elements[i])
    ensures v.Object? ==> r.Object? && Keys(r.properties) == Keys(v.properties)
  {
    match v
    case Array(es) => Array(seq(|es|, i requires 0 <= i < |es| => RedactSecrets(es[i])))
    case Object(ps) => Object(RedactLoop(ps, ps, 0))
    case _ => v
  }

  /** The properties of `ps` with the first `i` already rewritten and the rest as copied. */
  function PartlyRedacted(ps: seq<Property>, i: nat): (r: seq<Property>)
    ensures |r| == |ps| && Keys(r) == Keys(ps)
  {
    seq(|ps|, j requires 0 <= j < |ps| =>
      if j < i then Property(ps[j].key, RedactProperty(ps[j].key, ps[j].value)) else ps[j])
  }

  /** Keys held by both of two entry lists with the same key list. */
  lemma SameKeysDistinct(ps: seq<Property>, qs: seq<Property>)
    requires Keys(ps) == Keys(qs) && DistinctKeys(ps)
    ensures DistinctKeys(qs)
  {
    forall a, b | 0 <= a < b < |qs| ensures qs[a].key != qs[b].key {
      assert Keys(qs)[a] == ps[a].key && Keys(qs)[b] == ps[b].key;
    }
  }

  /** On an object with distinct keys, the loop rewrites each property where it stands. */
  lemma {:induction false} RedactLoopRewritesInPlace(ps: seq<Property>, i: nat)
    requires DistinctKeys(ps) && i <= |ps|
    decreases |ps| - i
    ensures RedactLoop(ps, PartlyRedacted(ps, i), i) == PartlyRedacted(ps, |ps|)
  {
    if i < |ps| {
      var now := PartlyRedacted(ps, i);
      SameKeysDistinct(ps, now);
      assert now[i].key == ps[i].key;
      SetAt(now, i, RedactProperty(ps[i].key, ps[i].value));
      assert Set(now, ps[i].key, RedactProperty(ps[i].key, ps[i].value)) == PartlyRedacted(ps, i + 1);
      RedactLoopRewritesInPlace(ps, i + 1);
    }
  }

  /** What `redactSecrets` makes of an object with distinct keys, property by property. */
  lemma RedactObject(ps: seq<Property>)
    requires DistinctKeys(ps)
    ensures RedactSecrets(Object(ps)) == Object(PartlyRedacted(ps, |ps|))
  {
    assert PartlyRedacted(ps, 0) == ps;
    RedactLoopRewritesInPlace(ps, 0);
  }

  /**
   * Every property of a redacted object: a secret key holds the marker when its value was
   * truthy and `''` otherwise; any other key holds its value redacted if an object, else as is.
   */
  lemma RedactedProperty(ps: seq<Property>, key: string, value: JsValue)
    requires DistinctKeys(ps) && Get(ps, key) == Some(value)
    ensures Get(RedactSecrets(Object(ps)).properties, key) == Some(RedactProperty(key, value))
  {
    RedactObject(ps);
    GetIndex(ps, key);
    var j :| 0 <= j < |ps| && ps[j].key == key && ps[j].value == value;
    var rs := PartlyRedacted(ps, |ps|);
    SameKeysDistinct(ps, rs);
    assert rs[j] == Property(key, RedactProperty(key, value));
    GetUnique(rs, j);
  }

  /** A present key names some entry holding the value `Get` returns. */
  lemma {:induction false} GetIndex(ps: seq<Property>, key: string)
    requires Get(ps, key).Some?
    ensures exists j :: 0 <= j < |ps| && ps[j].key == key && ps[j].value == Get(ps, key).value
  {
    if ps[0].key != key {
      GetIndex(ps[1..], key);
      var j :| 0 <= j < |ps| - 1 && ps[1..][j].key == key && ps[1..][j].value == Get(ps, key).value;
      assert ps[j + 1] == ps[1..][j];
    } else {
      assert ps[0].key == key && ps[0].value == Get(ps, key).value;
    }
  }

  /** With distinct keys, the value `Get` finds for an entry's key is that entry's. */
  lemma {:induction false} GetUnique(ps: seq<Property>, j: int)
    requires DistinctKeys(ps) && 0 <= j < |ps|
    ensures Get(ps, ps[j].key) == Some(ps[j].value)
  {
    if j > 0 {
      var tail := ps[1..];
      assert DistinctKeys(tail) by {
        forall a, b | 0 <= a < b < |tail| ensures tail[a].key != tail[b].key {
          assert tail[a] == ps[a + 1] && tail[b] == ps[b + 1];
        }
      }
      assert tail[j - 1] == ps[j];
      GetUnique(tail, j - 1);
    }
  }

  /** Redaction keeps every object's keys distinct. */
  lemma {:induction false} RedactPreservesWellFormed(v: JsValue)
    requires WellFormed(v)
    ensures WellFormed(RedactSecrets(v))
  {
    match v
    case Array(es) =>
      forall i | 0 <= i < |es| ensures WellFormed(RedactSecrets(v).elements[i]) {
        RedactPreservesWellFormed(es[i]);
      }
    case Object(ps) =>
      RedactObject(ps);
      var rs := PartlyRedacted(ps, |ps|);
      SameKeysDistinct(ps, rs);
      forall i | 0 <= i < |rs| ensures WellFormed(rs[i].value) {
        if !IsSensitiveKey(ps[i].key) && IsObjectType(ps[i].value) {
          RedactPreservesWellFormed(ps[i].value);
        }
      }
    case _ =>
  }

  /** Redacting a property's new value again leaves it as it is. */
  lemma {:induction false} RedactPropertyIdempotent(key: string, value: JsValue)
    requires WellFormed(value)
    decreases value, 2
    ensures RedactProperty(key, RedactProperty(key, value)) == RedactProperty(key, value)
  {
    if !IsSensitiveKey(key) && IsObjectType(value) {
      RedactIdempotent(value);
    }
  }

  /** `redactSecrets(redactSecrets(x))` is `redactSecrets(x)`. */
  lemma {:induction false} RedactIdempotent(v: JsValue)
    requires WellFormed(v)
    decreases v, 1
    ensures RedactSecrets(RedactSecrets(v)) == RedactSecrets(v)
  {
    match v
    case Array(es) =>
      var once := RedactSecrets(v).elements;
      forall i | 0 <= i < |es| ensures RedactSecrets(once[i]) == once[i] {
        RedactIdempotent(es[i]);
      }
    case Object(ps) =>
      RedactObject(ps);
      var rs := PartlyRedacted(ps, |ps|);
      SameKeysDistinct(ps, rs);
      RedactObject(rs);
      forall i | 0 <= i < |rs| ensures PartlyRedacted(rs, |rs|)[i] == rs[i] {
        RedactPropertyIdempotent(ps[i].key, ps[i].value);
      }
    case _ =>
  }

  /**
   * Nothing secret is left: at every depth, a property whose key is secret holds the marker or
   * `''`, and every other property, and every array element, holds a value with no secret left.
   */
  predicate NoSecrets(v: JsValue) {
    match v
    case Array(es) => forall i :: 0 <= i < |es| ==> NoSecrets(es[i])
    case Object(ps) =>
      forall i :: 0 <= i < |ps| ==>
        if IsSensitiveKey(ps[i].key) then ps[i].value in {Str(RedactedMarker), Str("")}
        else NoSecrets(ps[i].value)
    case _ => true
  }

  /** `redactSecrets` leaves no secret in place, however deep. */
  lemma {:induction false} RedactRemovesSecrets(v: JsValue)
    requires WellFormed(v)
    ensures NoSecrets(RedactSecrets(v))
  {
    match v
    case Array(es) =>
      forall i | 0 <= i < |es| ensures NoSecrets(RedactSecrets(v).elements[i]) {
        RedactRemovesSecrets(es[i]);
      }
    case Object(ps) =>
      RedactObject(ps);
      var rs := PartlyRedacted(ps, |ps|);
      forall i | 0 <= i < |rs|
        ensures if IsSensitiveKey(rs[i].key) then rs[i].value in {Str(RedactedMarker), Str("")}
                else NoSecrets(rs[i].value)
      {
        assert rs[i] == Property(ps[i].key, RedactProperty(ps[i].key, ps[i].value));
        if !IsSensitiveKey(ps[i].key) && IsObjectType(ps[i].value) {
          RedactRemovesSecrets(ps[i].value);
        }
      }
    case _ =>
  }
}

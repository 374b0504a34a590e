/** The value helpers of `utils.ts`: `isEmpty` and the settings written by `disableGuidedTour`. */
module Utils {
  import opened Wrappers
  import opened JsValues
  import Text

  /**
   * `isEmpty`: null and undefined are empty; an array or string is empty when it has no
   * elements; any other object when it has no own keys; a boolean or number never is.
   */
  function IsEmpty(value: JsValue): (r: bool)
    ensures value.Undefined? || value.Null? ==> r
    ensures value.Array? ==> (r <==> |value.elements| == 0)
    ensures value.Str? ==> (r <==> |value.s| == 0)
    ensures value.Object? ==> (r <==> Keys(value.properties) == [])
    ensures value.Bool? || value.Number? ==> !r
  {
    match value
    case Undefined => true
    case Null => true
    case Array(es) => |es| == 0
    case Str(s) => |s| == 0
    case Object(ps) => |Keys(ps)| == 0
    case _ => false
  }

  /**
   * Where `isEmpty` and falsiness part: an empty array or object is empty yet truthy, and
   * `false` and `0` are falsy yet not empty; on every other value the two agree.
   */
  lemma IsEmptyVersusFalsy(value: JsValue)
    ensures IsEmpty(value) && IsTruthy(value) <==> value == Array([]) || value == Object([])
    ensures !IsEmpty(value) && !IsTruthy(value) <==> value == Bool(false) || value == Number(0)
  {
  }

  /** The array-like own properties `{...}` copies from an array or string: keys "0", "1", ... */
  function IndexedProperties(values: seq<JsValue>): (ps: seq<Property>)
    ensures |ps| == |values| && forall i :: 0 <= i < |ps| ==> ps[i] == Property(Text.NatToString(i), values[i])
  {
    seq(|values|, i requires 0 <= i < |values| => Property(Text.NatToString(i), values[i]))
  }

  /** The own enumerable properties object spread `{...v}` copies. */
  function SpreadProperties(v: JsValue): seq<Property> {
    match v
    case Object(ps) => ps
    case Array(es) => IndexedProperties(es)
    case Str(s) => IndexedProperties(seq(|s|, i requires 0 <= i < |s| => Str([s[i]])))
    case _ => []
  }

  const GuidedTourKey := "console.guidedTour"

  /** `{admin: {completed: true}}`. */
  const CompletedTour := Object([Property("admin", Object([Property("completed", Bool(true))]))])

  /**
   * The `console-user-settings` object `disableGuidedTour` stores, given the parsed stored
   * value (None: no stored item, or an empty one, read as `{}`): the stored properties with
   * `console.guidedTour` set to the completed tour, in its place if present, else last.
   */
  function DisableGuidedTourSettings(stored: Option<JsValue>): (r: seq<Property>)
    ensures Get(r, GuidedTourKey) == Some(CompletedTour)
    ensures stored.None? ==> r == [Property(GuidedTourKey, CompletedTour)]
    ensures stored.Some? ==> forall k :: k != GuidedTourKey ==> Get(r, k) == Get(SpreadProperties(stored.value), k)
    ensures stored.Some? ==> var before := Keys(SpreadProperties(stored.value));
              Keys(r) == if GuidedTourKey in before then before else before + [GuidedTourKey]
  {
    var settings := if stored.Some? then stored.value else Object([]);
    SetKeys(SpreadProperties(settings), GuidedTourKey, CompletedTour);
    SetGet(SpreadProperties(settings), GuidedTourKey, CompletedTour);
    Set(SpreadProperties(settings), GuidedTourKey, CompletedTour)
  }

  /** Writing the settings twice stores the same object as writing them once. */
  lemma {:induction false} DisableGuidedTourIdempotent(stored: Option<JsValue>)
    ensures DisableGuidedTourSettings(Some(Object(DisableGuidedTourSettings(stored)))) == DisableGuidedTourSettings(stored)
  {
    SetIdempotent(SpreadProperties(if stored.Some? then stored.value else Object([])), GuidedTourKey, CompletedTour);
  }
}

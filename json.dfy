/**
 * The parsed exchange-format tree, as a rapidjson document holds it, and the
 * member lookup that `operator[](const char*)` performs on an object.
 */
module JsonTree {
  import opened Results

  datatype Json =
    | JNull
    | JBool(b: bool)
    | JInt(n: int)               // an integral number; rapidjson's Int flag marks the 32-bit ones
    | JStr(s: string)
    | JArr(items: seq<Json>)
    | JObj(members: seq<Entry>)  // members in document order; keys may repeat

  datatype Entry = Entry(key: string, val: Json)

  /**
   * The position of the first member whose key is exactly `key`, as rapidjson's
   * FindMember scans an object from its first member.
   */
  function FindIndex(ms: seq<Entry>, key: string): (r: Option<nat>)
    ensures r.Some? ==> r.value < |ms| && ms[r.value].key == key
    ensures r.Some? ==> forall k :: 0 <= k < r.value ==> ms[k].key != key
    ensures r.None? ==> forall k :: 0 <= k < |ms| ==> ms[k].key != key
  {
    if ms == [] then None
    else if ms[0].key == key then Some(0)
    else
      match FindIndex(ms[1..], key)
      case None => None
      case Some(k) => Some(k + 1)
  }

  /** The value of the first member named `key`, or None when the object has no such member. */
  function Lookup(ms: seq<Entry>, key: string): Option<Json> {
    match FindIndex(ms, key)
    case None => None
    case Some(k) => Some(ms[k].val)
  }

  /** The keys of an object, in document order. */
  function Keys(ms: seq<Entry>): (ks: seq<string>)
    // the element-by-element view, kept for the solver
    ensures |ks| == |ms|
    ensures forall k :: 0 <= k < |ms| ==> ks[k] == ms[k].key
  {
    seq(|ms|, k requires 0 <= k < |ms| => ms[k].key)
  }

  /** With distinct keys the member at position `k` is the one found under its key. */
  lemma LookupDistinct(ms: seq<Entry>, k: nat)
    requires k < |ms|
    requires forall a, b :: 0 <= a < b < |ms| ==> ms[a].key != ms[b].key
    ensures Lookup(ms, ms[k].key) == Some(ms[k].val)
  {
    assert FindIndex(ms, ms[k].key).Some?;
  }
}

/**
 * The decoder: `parseValue`, one overload per shape of C++ type, turning a
 * parsed rapidjson value into an object of the expected type.
 *
 * The C++ code performs no checks of its own. Where the tree does not fit the
 * type, the rapidjson accessor it calls (`GetInt`, `GetString`, `Size`,
 * `operator[]`) fails an assertion; each `Err` below stands for that
 * assertion, at the place the accessor is reached.
 */
module Decoder {
  import opened Results
  import opened Descriptors
  import opened JsonTree

  datatype DecodeError =
    | TypeMismatch                // the accessor met a node of the wrong kind
    | MissingField(name: string)  // `operator[]` met an object without the key

  /** The pure meaning of `parseValue` at descriptor `ty`. */
  function Decode(j: Json, ty: Ty): (r: Result<V, DecodeError>)
    ensures r.Ok? ==> WellTyped(r.value, ty)
    decreases ty, 1
  {
    match ty
    case TInt =>
      // GetInt holds only for numbers that fit an `int`
      if j.JInt? && IsInt32(j.n) then Ok(VInt(j.n)) else Err(TypeMismatch)
    case TStr =>
      // the std::string is built from GetString's `const char*`
      if j.JStr? then Ok(VStr(CStr(j.s))) else Err(TypeMismatch)
    case TSeq(e) =>
      // Size() is called even for an empty result, so a non-array always fails
      if !j.JArr? then Err(TypeMismatch)
      else
        (match DecodeItems(j.items, e, 0)
         case Err(x) => Err(x)
         case Ok(vs) => Ok(VSeq(vs)))
    case TRec(fs) =>
      // operator[] is first reached at the first field; a struct without
      // fields never touches the node
      if fs == [] then Ok(VRec([]))
      else if !j.JObj? then Err(TypeMismatch)
      else
        match DecodeFields(j.members, fs, 0)
        case Err(x) => Err(x)
        case Ok(vs) => Ok(VRec(vs))
  }

  /** Decodes `items[k..]` at element type `e`, front to back, stopping at the first failure. */
  function DecodeItems(items: seq<Json>, e: Ty, k: nat): (r: Result<seq<V>, DecodeError>)
    requires k <= |items|
    ensures r.Ok? ==> |r.value| == |items| - k
    ensures r.Ok? ==> forall i :: 0 <= i < |r.value| ==> WellTyped(r.value[i], e)
    decreases e, 2, |items| - k
  {
    if k == |items| then Ok([])
    else
      match Decode(items[k], e)
      case Err(x) => Err(x)
      case Ok(v) =>
        match DecodeItems(items, e, k + 1)
        case Err(x) => Err(x)
        case Ok(vs) => Ok([v] + vs)
  }

  /** Decodes fields `fs[k..]` from the members `ms` of an object, in declaration order. */
  function DecodeFields(ms: seq<Entry>, fs: seq<Field>, k: nat): (r: Result<seq<V>, DecodeError>)
    requires k <= |fs|
    ensures r.Ok? ==> FieldsWellTyped(r.value, fs[k..])
    decreases TRec(fs), 0, |fs| - k
  {
    if k == |fs| then Ok([])
    else
      // operator[](const char*) measures the key with strlen, as the writer's Key does
      match Lookup(ms, CStr(fs[k].name))
      case None => Err(MissingField(fs[k].name))
      case Some(x) =>
        match Decode(x, fs[k].ty)
        case Err(err) => Err(err)
        case Ok(v) =>
          match DecodeFields(ms, fs, k + 1)
          case Err(err) => Err(err)
          case Ok(vs) => Ok([v] + vs)
  }

  /** `vs` are values for the fields `fs`, position by position. */
  predicate FieldsWellTyped(vs: seq<V>, fs: seq<Field>) {
    |vs| == |fs| && forall i :: 0 <= i < |fs| ==> WellTyped(vs[i], fs[i].ty)
  }

  /** `done` followed by the values of `r`, or the error of `r`. */
  function Prepend(done: seq<V>, r: Result<seq<V>, DecodeError>): Result<seq<V>, DecodeError> {
    match r
    case Ok(vs) => Ok(done + vs)
    case Err(x) => Err(x)
  }

  /** One decoded element in front of the decoded rest of an array. */
  lemma DecodeItemsCons(items: seq<Json>, e: Ty, k: nat, v: V, vs: seq<V>)
    requires k < |items|
    requires Decode(items[k], e) == Ok(v)
    requires DecodeItems(items, e, k + 1) == Ok(vs)
    ensures DecodeItems(items, e, k) == Ok([v] + vs)
  {
  }

  /** One found and decoded field in front of the decoded remaining fields. */
  lemma DecodeFieldsCons(ms: seq<Entry>, fs: seq<Field>, k: nat, x: Json, v: V, vs: seq<V>)
    requires k < |fs|
    requires Lookup(ms, CStr(fs[k].name)) == Some(x)
    requires Decode(x, fs[k].ty) == Ok(v)
    requires DecodeFields(ms, fs, k + 1) == Ok(vs)
    ensures DecodeFields(ms, fs, k) == Ok([v] + vs)
  {
  }

  lemma PrependNil(r: Result<seq<V>, DecodeError>)
    ensures Prepend([], r) == r
  {
    if r.Ok? {
      assert [] + r.value == r.value;
    }
  }

  lemma PrependSnoc(done: seq<V>, v: V, r: Result<seq<V>, DecodeError>)
    ensures Prepend(done, Prepend([v], r)) == Prepend(done + [v], r)
  {
    if r.Ok? {
      assert done + ([v] + r.value) == (done + [v]) + r.value;
    }
  }

  /**
   * `parseValue` as the C++ code runs it: the vector overload push_backs each
   * decoded element onto a local vector, the struct overload assigns the
   * members of a default-constructed object one at a time.
   */
  method ParseValue(j: Json, ty: Ty) returns (r: Result<V, DecodeError>)
    ensures r == Decode(j, ty)
    decreases ty
  {
    match ty
    case TInt =>
      if j.JInt? && IsInt32(j.n) {
        r := Ok(VInt(j.n));
      } else {
        r := Err(TypeMismatch);
      }
    case TStr =>
      if j.JStr? {
        r := Ok(VStr(CStr(j.s)));
      } else {
        r := Err(TypeMismatch);
      }
    case TSeq(e) =>
      if !j.JArr? {
        return Err(TypeMismatch);
      }
      var objects: seq<V> := [];
      var i := 0;
      PrependNil(DecodeItems(j.items, e, 0));
      while i < |j.items|
        invariant 0 <= i <= |j.items|
        invariant DecodeItems(j.items, e, 0) == Prepend(objects, DecodeItems(j.items, e, i))
      {
        var x := ParseValue(j.items[i], e);
        if x.Err? {
          return Err(x.error);
        }
        PrependSnoc(objects, x.value, DecodeItems(j.items, e, i + 1));
        objects := objects + [x.value];
        i := i + 1;
      }
      assert objects + [] == objects;
      r := Ok(VSeq(objects));
    case TRec(fs) =>
      if fs == [] {
        return Ok(VRec([]));
      }
      if !j.JObj? {
        return Err(TypeMismatch);
      }
      var t: seq<V> := [];
      var i := 0;
      PrependNil(DecodeFields(j.members, fs, 0));
      while i < |fs|
        invariant 0 <= i <= |fs|
        invariant DecodeFields(j.members, fs, 0) == Prepend(t, DecodeFields(j.members, fs, i))
      {
        var member := Lookup(j.members, CStr(fs[i].name));
        if member.None? {
          return Err(MissingField(fs[i].name));
        }
        var x := ParseValue(member.value, fs[i].ty);
        if x.Err? {
          return Err(x.error);
        }
        PrependSnoc(t, x.value, DecodeFields(j.members, fs, i + 1));
        t := t + [x.value];
        i := i + 1;
      }
      assert t + [] == t;
      r := Ok(VRec(t));
  }
}

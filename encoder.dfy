/**
 * The encoder: `packValue`, one overload per shape of C++ type, sending
 * SAX-style events to a rapidjson Writer, and `toJson`, which runs it on a
 * fresh writer. The writer's buffer is modelled as the list of events it
 * has received; turning events into characters is the writer's business and
 * is not modelled.
 */
module Encoder {
  import opened Descriptors
  import opened JsonTree
  import opened EventStream

  /** The events `packValue` sends to the writer for a value `v` of type `ty`. */
  function Encoding(v: V, ty: Ty): seq<Event>
    requires WellTyped(v, ty)
    decreases ty, 1
  {
    match ty
    case TInt => [Int(v.i)]
    case TStr => [String(CStr(v.s))]
    case TSeq(e) => [StartArray] + ItemEncodings(v.elems, e, 0) + [EndArray]
    case TRec(fs) => [StartObject] + FieldEncodings(v.vals, fs, 0) + [EndObject]
  }

  /** The encodings of `es[k..]`, one after the other. */
  function ItemEncodings(es: seq<V>, e: Ty, k: nat): seq<Event>
    requires k <= |es|
    requires forall i :: 0 <= i < |es| ==> WellTyped(es[i], e)
    decreases e, 2, |es| - k
  {
    if k == |es| then [] else Encoding(es[k], e) + ItemEncodings(es, e, k + 1)
  }

  /** For each field from `k` on, its key followed by the encoding of its value. */
  function FieldEncodings(vs: seq<V>, fs: seq<Field>, k: nat): seq<Event>
    requires k <= |fs| == |vs|
    requires forall i :: 0 <= i < |fs| ==> WellTyped(vs[i], fs[i].ty)
    decreases TRec(fs), 0, |fs| - k
  {
    if k == |fs| then []
    else [Key(CStr(fs[k].name))] + Encoding(vs[k], fs[k].ty) + FieldEncodings(vs, fs, k + 1)
  }

  /** rapidjson's Writer, reduced to the events it has been sent. */
  class JsonWriter {
    var events: seq<Event>

    constructor ()
      ensures events == []
    {
      events := [];
    }

    method StartObject()
      modifies this
      ensures events == old(events) + [Event.StartObject]
    {
      events := events + [Event.StartObject];
    }

    method EndObject()
      modifies this
      ensures events == old(events) + [Event.EndObject]
    {
      events := events + [Event.EndObject];
    }

    method StartArray()
      modifies this
      ensures events == old(events) + [Event.StartArray]
    {
      events := events + [Event.StartArray];
    }

    method EndArray()
      modifies this
      ensures events == old(events) + [Event.EndArray]
    {
      events := events + [Event.EndArray];
    }

    /** Key(const Ch*): the key is read up to its first NUL. */
    method Key(name: string)
      modifies this
      ensures events == old(events) + [Event.Key(CStr(name))]
    {
      events := events + [Event.Key(CStr(name))];
    }

    /** String(const Ch*): the text is read up to its first NUL. */
    method String(s: string)
      modifies this
      ensures events == old(events) + [Event.String(CStr(s))]
    {
      events := events + [Event.String(CStr(s))];
    }

    method Int(i: int)
      modifies this
      ensures events == old(events) + [Event.Int(i)]
    {
      events := events + [Event.Int(i)];
    }
  }

  /** `packValue`: appends the encoding of `v` to whatever the writer already holds. */
  method PackValue(w: JsonWriter, v: V, ty: Ty)
    requires WellTyped(v, ty)
    modifies w
    ensures w.events == old(w.events) + Encoding(v, ty)
    decreases ty, 1
  {
    match ty
    case TInt => w.Int(v.i);
    case TStr => w.String(v.s);
    case TSeq(e) => PackSequence(w, v.elems, e);
    case TRec(fs) => PackRecord(w, v.vals, fs);
  }

  /** The `std::vector` overload: the elements in list order between StartArray and EndArray. */
  method PackSequence(w: JsonWriter, es: seq<V>, e: Ty)
    requires forall i :: 0 <= i < |es| ==> WellTyped(es[i], e)
    modifies w
    ensures w.events == old(w.events) + [Event.StartArray] + ItemEncodings(es, e, 0) + [Event.EndArray]
    decreases e, 2
  {
    w.StartArray();
    var k := 0;
    while k < |es|
      invariant 0 <= k <= |es|
      invariant w.events + ItemEncodings(es, e, k)
                == old(w.events) + [Event.StartArray] + ItemEncodings(es, e, 0)
    {
      PackValue(w, es[k], e);
      k := k + 1;
    }
    assert w.events + [] == w.events;
    w.EndArray();
  }

  /** The struct overload: each field's key and value in declaration order between StartObject and EndObject. */
  method PackRecord(w: JsonWriter, vs: seq<V>, fs: seq<Field>)
    requires |vs| == |fs|
    requires forall i :: 0 <= i < |fs| ==> WellTyped(vs[i], fs[i].ty)
    modifies w
    ensures w.events == old(w.events) + [Event.StartObject] + FieldEncodings(vs, fs, 0) + [Event.EndObject]
    decreases TRec(fs), 0
  {
    w.StartObject();
    ghost var target := w.events + FieldEncodings(vs, fs, 0);
    var k := 0;
    while k < |fs|
      invariant 0 <= k <= |fs|
      invariant w.events + FieldEncodings(vs, fs, k) == target
    {
      ghost var before := w.events;
      ghost var field := [Event.Key(CStr(fs[k].name))] + Encoding(vs[k], fs[k].ty);
      assert FieldEncodings(vs, fs, k) == field + FieldEncodings(vs, fs, k + 1);
      w.Key(fs[k].name);
      PackValue(w, vs[k], fs[k].ty);
      assert w.events == before + field;
      k := k + 1;
    }
    assert w.events + [] == w.events;
    w.EndObject();
  }

  /** `toJson`: encodes `v` into a writer of its own, which starts empty. */
  method ToJson(v: V, ty: Ty) returns (out: seq<Event>)
    requires WellTyped(v, ty)
    ensures out == Encoding(v, ty)
  {
    var w := new JsonWriter();
    PackValue(w, v, ty);
    out := w.events;
  }
}

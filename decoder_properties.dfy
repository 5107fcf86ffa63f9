/** What the decoder promises, stated against the tree it reads. */
module DecoderProperties {
  import opened Results
  import opened Descriptors
  import opened JsonTree
  import opened Decoder

  /**
   * Scalars: a leaf of the right kind decodes to its own payload (a string up
   * to its first NUL), any other node is refused.
   */
  lemma DecodeLeaves(j: Json)
    ensures Decode(j, TInt).Ok? <==> j.JInt? && IsInt32(j.n)
    ensures Decode(j, TInt).Ok? ==> Decode(j, TInt).value == VInt(j.n)
    ensures Decode(j, TStr).Ok? <==> j.JStr?
    ensures Decode(j, TStr).Ok? ==> Decode(j, TStr).value == VStr(CStr(j.s))
  {
  }

  /** Step results taken front to back from `k` on: all values if every step succeeds, else the first error. */
  function Collect(rs: seq<Result<V, DecodeError>>, k: nat): Result<seq<V>, DecodeError>
    requires k <= |rs|
    decreases |rs| - k
  {
    if k == |rs| then Ok([])
    else
      match rs[k]
      case Err(x) => Err(x)
      case Ok(v) => Prepend([v], Collect(rs, k + 1))
  }

  lemma {:induction false} CollectOk(rs: seq<Result<V, DecodeError>>, k: nat)
    requires k <= |rs|
    ensures Collect(rs, k).Ok? <==> forall i :: k <= i < |rs| ==> rs[i].Ok?
    ensures Collect(rs, k).Ok? ==>
              |Collect(rs, k).value| == |rs| - k &&
              forall i :: k <= i < |rs| ==> Collect(rs, k).value[i - k] == rs[i].value
    decreases |rs| - k
  {
    if k < |rs| {
      CollectOk(rs, k + 1);
      var r, rest := Collect(rs, k), Collect(rs, k + 1);
      if r.Ok? {
        assert rs[k].Ok? && rest.Ok? && r.value == [rs[k].value] + rest.value;
        forall i | k <= i < |rs| ensures rs[i].Ok? && r.value[i - k] == rs[i].value {
          if i > k {
            assert r.value[i - k] == rest.value[i - (k + 1)];
          }
        }
      }
    }
  }

  lemma {:induction false} CollectErr(rs: seq<Result<V, DecodeError>>, k: nat)
    requires k <= |rs|
    requires Collect(rs, k).Err?
    ensures exists i :: k <= i < |rs| && rs[i] == Err(Collect(rs, k).error) &&
              forall i' :: k <= i' < i ==> rs[i'].Ok?
    decreases |rs| - k
  {
    if rs[k].Err? {
      assert rs[k] == Err(Collect(rs, k).error);
    } else {
      CollectErr(rs, k + 1);
    }
  }

  /** The per-element results of decoding `items` at type `e`. */
  function ItemResults(items: seq<Json>, e: Ty): (rs: seq<Result<V, DecodeError>>)
    // the element-by-element view, kept for the solver
    ensures |rs| == |items|
    ensures forall i :: 0 <= i < |items| ==> rs[i] == Decode(items[i], e)
  {
    seq(|items|, i requires 0 <= i < |items| => Decode(items[i], e))
  }

  lemma {:induction false} DecodeItemsCollect(items: seq<Json>, e: Ty, k: nat)
    requires k <= |items|
    ensures DecodeItems(items, e, k) == Collect(ItemResults(items, e), k)
    decreases |items| - k
  {
    if k < |items| {
      DecodeItemsCollect(items, e, k + 1);
      assert ItemResults(items, e)[k] == Decode(items[k], e);
    }
  }

  /**
   * Sequences: the array decodes exactly when every element does; the list
   * has one entry per element, element i being the decoding of array element
   * i; otherwise the error is that of the first element that fails.
   */
  lemma DecodeSequence(items: seq<Json>, e: Ty)
    ensures Decode(JArr(items), TSeq(e)).Ok? <==>
              forall i :: 0 <= i < |items| ==> Decode(items[i], e).Ok?
    ensures Decode(JArr(items), TSeq(e)).Ok? ==>
              var elems := Decode(JArr(items), TSeq(e)).value.elems;
              |elems| == |items| &&
              forall i :: 0 <= i < |items| ==> elems[i] == Decode(items[i], e).value
    ensures Decode(JArr(items), TSeq(e)).Err? ==>
              exists i :: 0 <= i < |items| && Decode(items[i], e) == Err(Decode(JArr(items), TSeq(e)).error) &&
                forall i' :: 0 <= i' < i ==> Decode(items[i'], e).Ok?
  {
    var rs := ItemResults(items, e);
    SequenceCollect(items, e);
    CollectOk(rs, 0);
    if Collect(rs, 0).Err? {
      CollectErr(rs, 0);
    }
  }

  /** An array decodes to the collected element decodes. */
  lemma SequenceCollect(items: seq<Json>, e: Ty)
    ensures Decode(JArr(items), TSeq(e)).Ok? == Collect(ItemResults(items, e), 0).Ok?
    ensures Decode(JArr(items), TSeq(e)).Ok? ==>
              Decode(JArr(items), TSeq(e)).value == VSeq(Collect(ItemResults(items, e), 0).value)
    ensures Decode(JArr(items), TSeq(e)).Err? ==>
              Decode(JArr(items), TSeq(e)).error == Collect(ItemResults(items, e), 0).error
  {
    DecodeItemsCollect(items, e, 0);
  }

  /** What decoding one field consults: the first member under its name up to any NUL, and nothing else. */
  function FieldResult(ms: seq<Entry>, f: Field): Result<V, DecodeError> {
    match Lookup(ms, CStr(f.name))
    case None => Err(MissingField(f.name))
    case Some(x) => Decode(x, f.ty)
  }

  /** The per-field results of decoding the fields `fs` from the members `ms`. */
  function FieldResults(ms: seq<Entry>, fs: seq<Field>): (rs: seq<Result<V, DecodeError>>)
    // the element-by-element view, kept for the solver
    ensures |rs| == |fs|
    ensures forall i :: 0 <= i < |fs| ==> rs[i] == FieldResult(ms, fs[i])
  {
    seq(|fs|, i requires 0 <= i < |fs| => FieldResult(ms, fs[i]))
  }

  /** One step of the field loop, told through FieldResult. */
  lemma DecodeFieldsStep(ms: seq<Entry>, fs: seq<Field>, k: nat)
    requires k < |fs|
    ensures DecodeFields(ms, fs, k) ==
              match FieldResult(ms, fs[k])
              case Err(x) => Err(x)
              case Ok(v) => Prepend([v], DecodeFields(ms, fs, k + 1))
  {
  }

  lemma {:induction false} DecodeFieldsCollect(ms: seq<Entry>, fs: seq<Field>, k: nat)
    requires k <= |fs|
    ensures DecodeFields(ms, fs, k) == Collect(FieldResults(ms, fs), k)
    decreases |fs| - k
  {
    if k < |fs| {
      DecodeFieldsStep(ms, fs, k);
      DecodeFieldsCollect(ms, fs, k + 1);
      assert FieldResults(ms, fs)[k] == FieldResult(ms, fs[k]);
    }
  }

  /**
   * Records: every field is set exactly once, in declaration order, from the
   * member whose key equals the field's name; the first field that is missing
   * or fails decides the error.
   */
  lemma DecodeRecord(ms: seq<Entry>, fs: seq<Field>)
    ensures Decode(JObj(ms), TRec(fs)).Ok? <==>
              forall i :: 0 <= i < |fs| ==> FieldResult(ms, fs[i]).Ok?
    ensures Decode(JObj(ms), TRec(fs)).Ok? ==>
              var vals := Decode(JObj(ms), TRec(fs)).value.vals;
              |vals| == |fs| &&
              forall i :: 0 <= i < |fs| ==> vals[i] == FieldResult(ms, fs[i]).value
    ensures Decode(JObj(ms), TRec(fs)).Err? ==>
              exists i :: 0 <= i < |fs| && FieldResult(ms, fs[i]) == Err(Decode(JObj(ms), TRec(fs)).error) &&
                forall i' :: 0 <= i' < i ==> FieldResult(ms, fs[i']).Ok?
  {
    var rs := FieldResults(ms, fs);
    DecodeFieldsCollect(ms, fs, 0);
    CollectOk(rs, 0);
    if DecodeFields(ms, fs, 0).Err? {
      CollectErr(rs, 0);
    }
  }

  lemma {:induction false} DecodeFieldsLocal(ms1: seq<Entry>, ms2: seq<Entry>, fs: seq<Field>, k: nat)
    requires k <= |fs|
    requires forall i :: 0 <= i < |fs| ==> Lookup(ms1, CStr(fs[i].name)) == Lookup(ms2, CStr(fs[i].name))
    ensures DecodeFields(ms1, fs, k) == DecodeFields(ms2, fs, k)
    decreases |fs| - k
  {
    if k < |fs| {
      DecodeFieldsLocal(ms1, ms2, fs, k + 1);
      DecodeFieldsStep(ms1, fs, k);
      DecodeFieldsStep(ms2, fs, k);
      assert FieldResult(ms1, fs[k]) == FieldResult(ms2, fs[k]);
    }
  }

  /**
   * Record decode consults no member other than the ones named by the
   * fields: two objects that agree on those lookups decode alike.
   */
  lemma DecodeRecordLocal(ms1: seq<Entry>, ms2: seq<Entry>, fs: seq<Field>)
    requires forall i :: 0 <= i < |fs| ==> Lookup(ms1, CStr(fs[i].name)) == Lookup(ms2, CStr(fs[i].name))
    ensures Decode(JObj(ms1), TRec(fs)) == Decode(JObj(ms2), TRec(fs))
  {
    DecodeFieldsLocal(ms1, ms2, fs, 0);
  }

  /**
   * An object holding an int under the first field's name and a string under
   * the second's, and nothing under the third's, fails on the third field.
   */
  lemma ThirdFieldMissing(ms: seq<Entry>, fs: seq<Field>)
    requires |ms| == 2 && |fs| >= 3
    requires fs[0].ty == TInt && fs[1].ty == TStr
    requires forall i :: 0 <= i < 3 ==> '\0' !in fs[i].name
    requires ms[0].key == fs[0].name && ms[1].key == fs[1].name
    requires fs[0].name != fs[1].name && fs[2].name != fs[0].name && fs[2].name != fs[1].name
    requires ms[0].val.JInt? && IsInt32(ms[0].val.n) && ms[1].val.JStr?
    ensures Decode(JObj(ms), TRec(fs)) == Err(MissingField(fs[2].name))
  {
    CStrExact(fs[0].name);
    CStrExact(fs[1].name);
    CStrExact(fs[2].name);
    assert FindIndex(ms, fs[0].name) == Some(0);
    assert FindIndex(ms, fs[1].name) == Some(1);
    assert FieldResult(ms, fs[0]).Ok? && FieldResult(ms, fs[1]).Ok?;
    assert FieldResult(ms, fs[2]) == Err(MissingField(fs[2].name));
    DecodeRecord(ms, fs);
  }

  /** Decoding `{"groupid":1,"group_name":"X"}` as a Group stops at the missing `location`. */
  lemma GroupMissingLocation()
    ensures Decode(JObj([Entry("groupid", JInt(1)), Entry("group_name", JStr("X"))]), GroupTy)
            == Err(MissingField("location"))
  {
    GroupWellFormed();
    ThirdFieldMissing([Entry("groupid", JInt(1)), Entry("group_name", JStr("X"))], GroupTy.fields);
  }

  /** Decoding `{"id":"not-a-number","name":"Jens"}` as a Member fails on `id`. */
  lemma MemberIdNotANumber()
    ensures Decode(JObj([Entry("id", JStr("not-a-number")), Entry("name", JStr("Jens"))]), MemberTy)
            == Err(TypeMismatch)
  {
    var ms := [Entry("id", JStr("not-a-number")), Entry("name", JStr("Jens"))];
    assert Lookup(ms, "id") == Some(JStr("not-a-number"));
    DecodeFieldsStep(ms, MemberTy.fields, 0);
  }

  /** A record of an int field and a string field decodes from an object holding both under their names. */
  lemma IntStringRecord(fs: seq<Field>, n: int, s: string)
    requires |fs| == 2 && fs[0].ty == TInt && fs[1].ty == TStr
    requires '\0' !in fs[0].name && '\0' !in fs[1].name && fs[0].name != fs[1].name
    requires IsInt32(n) && '\0' !in s
    ensures Decode(JObj([Entry(fs[0].name, JInt(n)), Entry(fs[1].name, JStr(s))]), TRec(fs))
            == Ok(VRec([VInt(n), VStr(s)]))
  {
    var ms := [Entry(fs[0].name, JInt(n)), Entry(fs[1].name, JStr(s))];
    CStrExact(fs[0].name);
    CStrExact(fs[1].name);
    CStrExact(s);
    assert FindIndex(ms, fs[1].name) == Some(1);
    assert FieldResult(ms, fs[0]) == Ok(VInt(n));
    assert FieldResult(ms, fs[1]) == Ok(VStr(s));
    DecodeRecord(ms, fs);
    var vals := Decode(JObj(ms), TRec(fs)).value.vals;
    assert vals == [VInt(n), VStr(s)];
  }

  /** `{"id":id,"name":name}` decodes as the Member with that id and name. */
  lemma DecodeMemberObject(id: int, name: string)
    requires IsInt32(id) && '\0' !in name
    ensures Decode(JObj([Entry("id", JInt(id)), Entry("name", JStr(name))]), MemberTy)
            == Ok(MemberValue(id, name))
  {
    MemberAndLocationWellFormed();
    IntStringRecord(MemberTy.fields, id, name);
  }

  /** A one-element array of members decodes to a one-element list; an empty array to an empty list. */
  lemma MemberListExamples()
    ensures Decode(JArr([JObj([Entry("id", JInt(0)), Entry("name", JStr("Jens"))])]), TSeq(MemberTy))
            == Ok(VSeq([MemberValue(0, "Jens")]))
    ensures Decode(JArr([]), TSeq(MemberTy)) == Ok(VSeq([]))
  {
    var item := JObj([Entry("id", JInt(0)), Entry("name", JStr("Jens"))]);
    DecodeMemberObject(0, "Jens");
    DecodeSequence([item], MemberTy);
    var elems := Decode(JArr([item]), TSeq(MemberTy)).value.elems;
    assert elems == [MemberValue(0, "Jens")];
  }
}

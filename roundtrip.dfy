/**
 * What the encoder and the decoder promise together: the events `toJson`
 * produces are one well-nested value, the tree they describe is `Tree(v, ty)`,
 * and `parseValue` turns that tree back into `v`.
 */
module RoundTrip {
  import opened Results
  import opened Descriptors
  import opened JsonTree
  import opened EventStream
  import opened Decoder
  import opened Encoder
  import opened Seqs

  /** The tree a reader rebuilds from the writer's output for `v`. */
  function Tree(v: V, ty: Ty): Json
    requires WellTyped(v, ty)
    decreases ty, 1
  {
    match ty
    case TInt => JInt(v.i)
    case TStr => JStr(CStr(v.s))
    case TSeq(e) => JArr(ItemTrees(v.elems, e))
    case TRec(fs) => JObj(FieldTrees(v.vals, fs))
  }

  function ItemTrees(es: seq<V>, e: Ty): seq<Json>
    requires forall i :: 0 <= i < |es| ==> WellTyped(es[i], e)
    decreases e, 2
  {
    seq(|es|, i requires 0 <= i < |es| => Tree(es[i], e))
  }

  function FieldTrees(vs: seq<V>, fs: seq<Field>): seq<Entry>
    requires |vs| == |fs|
    requires forall i :: 0 <= i < |fs| ==> WellTyped(vs[i], fs[i].ty)
    decreases TRec(fs), 0
  {
    seq(|fs|, i requires 0 <= i < |fs| => Entry(CStr(fs[i].name), Tree(vs[i], fs[i].ty)))
  }

  /** Reading the encoding of `v` yields its tree and leaves whatever follows untouched. */
  lemma {:induction false} ReadEncoding(v: V, ty: Ty, rest: seq<Event>)
    requires WellTyped(v, ty)
    ensures ReadValue(Encoding(v, ty) + rest) == Ok((Tree(v, ty), rest))
    decreases ty, 1
  {
    var evs := Encoding(v, ty) + rest;
    match ty
    case TInt =>
      assert evs[1..] == rest;
    case TStr =>
      assert evs[1..] == rest;
    case TSeq(e) =>
      var body := ItemEncodings(v.elems, e, 0);
      assert evs == [StartArray] + (body + [EndArray] + rest);
      assert evs[1..] == body + [EndArray] + rest;
      ReadItemsEncoding(v.elems, e, 0, rest);
      assert ItemTrees(v.elems, e)[0..] == ItemTrees(v.elems, e);
    case TRec(fs) =>
      var body := FieldEncodings(v.vals, fs, 0);
      assert evs == [StartObject] + (body + [EndObject] + rest);
      assert evs[1..] == body + [EndObject] + rest;
      ReadMembersEncoding(v.vals, fs, 0, rest);
      assert FieldTrees(v.vals, fs)[0..] == FieldTrees(v.vals, fs);
  }

  lemma {:induction false} ReadItemsEncoding(es: seq<V>, e: Ty, k: nat, rest: seq<Event>)
    requires k <= |es|
    requires forall i :: 0 <= i < |es| ==> WellTyped(es[i], e)
    ensures ReadItems(ItemEncodings(es, e, k) + [EndArray] + rest) == Ok((ItemTrees(es, e)[k..], rest))
    decreases e, 2, |es| - k
  {
    var evs := ItemEncodings(es, e, k) + [EndArray] + rest;
    if k == |es| {
      assert evs == [EndArray] + rest;
      assert evs[1..] == rest;
      assert ItemTrees(es, e)[k..] == [];
    } else {
      var head := Encoding(es[k], e);
      var after := ItemEncodings(es, e, k + 1) + [EndArray] + rest;
      assert evs == head + after;
      EncodingHead(es[k], e);
      ReadEncoding(es[k], e, after);
      ReadItemsEncoding(es, e, k + 1, rest);
      ReadItemsCons(head, after, Tree(es[k], e), ItemTrees(es, e)[k + 1..], rest);
      SliceCons(ItemTrees(es, e), k);
    }
  }

  /** An encoding is never empty and never starts with a closing event. */
  lemma EncodingHead(v: V, ty: Ty)
    requires WellTyped(v, ty)
    ensures |Encoding(v, ty)| > 0
    ensures !Encoding(v, ty)[0].EndArray? && !Encoding(v, ty)[0].EndObject?
  {
  }

  lemma {:induction false} ReadMembersEncoding(vs: seq<V>, fs: seq<Field>, k: nat, rest: seq<Event>)
    requires k <= |fs| == |vs|
    requires forall i :: 0 <= i < |fs| ==> WellTyped(vs[i], fs[i].ty)
    ensures ReadMembers(FieldEncodings(vs, fs, k) + [EndObject] + rest) == Ok((FieldTrees(vs, fs)[k..], rest))
    decreases TRec(fs), 0, |fs| - k
  {
    var evs := FieldEncodings(vs, fs, k) + [EndObject] + rest;
    if k == |fs| {
      assert evs == [EndObject] + rest;
      assert evs[1..] == rest;
      assert FieldTrees(vs, fs)[k..] == [];
    } else {
      var head := Encoding(vs[k], fs[k].ty);
      var after := FieldEncodings(vs, fs, k + 1) + [EndObject] + rest;
      assert evs == [Key(CStr(fs[k].name))] + (head + after);
      ReadEncoding(vs[k], fs[k].ty, after);
      ReadMembersEncoding(vs, fs, k + 1, rest);
      var ms := FieldTrees(vs, fs);
      ReadMembersCons(CStr(fs[k].name), head, after, Tree(vs[k], fs[k].ty), ms[k + 1..], rest);
      SliceCons(ms, k);
    }
  }

  /**
   * The events for any well-typed value form exactly one well-nested value:
   * the reader accepts them as a whole, so every Start meets its End and
   * every Key inside an object is followed by one complete value; and
   * openings and closings balance.
   */
  lemma EncodingWellNested(v: V, ty: Ty)
    requires WellTyped(v, ty)
    ensures ReadJson(Encoding(v, ty)) == Ok(Tree(v, ty))
    ensures Depth(Encoding(v, ty)) == 0
  {
    ReadEncoding(v, ty, []);
    assert Encoding(v, ty) + [] == Encoding(v, ty);
    ReadJsonBalanced(Encoding(v, ty));
  }

  /** The decoder reads back every value from its tree, provided its strings hold no NUL. */
  lemma {:induction false} DecodeTree(v: V, ty: Ty)
    requires WellFormedTy(ty) && WellTyped(v, ty) && NulFree(v, ty)
    ensures Decode(Tree(v, ty), ty) == Ok(v)
    decreases ty, 1
  {
    match ty
    case TInt =>
    case TStr =>
      CStrExact(v.s);
    case TSeq(e) =>
      DecodeItemsTree(v.elems, e, 0);
      assert v.elems[0..] == v.elems;
    case TRec(fs) =>
      if fs != [] {
        DecodeFieldsTree(v.vals, fs, 0);
        assert v.vals[0..] == v.vals;
      }
  }

  lemma {:induction false} DecodeItemsTree(es: seq<V>, e: Ty, k: nat)
    requires k <= |es|
    requires WellFormedTy(e)
    requires forall i :: 0 <= i < |es| ==> WellTyped(es[i], e) && NulFree(es[i], e)
    ensures DecodeItems(ItemTrees(es, e), e, k) == Ok(es[k..])
    decreases e, 2, |es| - k
  {
    if k < |es| {
      var items := ItemTrees(es, e);
      DecodeTree(es[k], e);
      DecodeItemsTree(es, e, k + 1);
      DecodeItemsCons(items, e, k, es[k], es[k + 1..]);
      SliceCons(es, k);
    } else {
      assert |ItemTrees(es, e)| == k && es[k..] == [];
    }
  }

  /** In the tree of a record, each field's name finds that field's own subtree. */
  lemma FieldTreeLookup(vs: seq<V>, fs: seq<Field>, k: nat)
    requires k < |fs| == |vs|
    requires WellFormedTy(TRec(fs))
    requires forall i :: 0 <= i < |fs| ==> WellTyped(vs[i], fs[i].ty)
    ensures Lookup(FieldTrees(vs, fs), CStr(fs[k].name)) == Some(Tree(vs[k], fs[k].ty))
  {
    var ms := FieldTrees(vs, fs);
    forall i | 0 <= i < |fs| ensures ms[i].key == fs[i].name {
      CStrExact(fs[i].name);
    }
    LookupDistinct(ms, k);
  }

  lemma {:induction false} DecodeFieldsTree(vs: seq<V>, fs: seq<Field>, k: nat)
    requires k <= |fs| == |vs|
    requires WellFormedTy(TRec(fs))
    requires forall i :: 0 <= i < |fs| ==> WellTyped(vs[i], fs[i].ty) && NulFree(vs[i], fs[i].ty)
    ensures DecodeFields(FieldTrees(vs, fs), fs, k) == Ok(vs[k..])
    decreases TRec(fs), 0, |fs| - k
  {
    if k < |fs| {
      DecodeFieldsTree(vs, fs, k + 1);
      DecodeFieldTree(vs, fs, k);
    } else {
      assert vs[k..] == [];
    }
  }

  /** Field k of a record's tree decodes, and puts its value in front of the fields after it. */
  lemma DecodeFieldTree(vs: seq<V>, fs: seq<Field>, k: nat)
    requires k < |fs| == |vs|
    requires WellFormedTy(TRec(fs))
    requires forall i :: 0 <= i < |fs| ==> WellTyped(vs[i], fs[i].ty) && NulFree(vs[i], fs[i].ty)
    requires DecodeFields(FieldTrees(vs, fs), fs, k + 1) == Ok(vs[k + 1..])
    ensures DecodeFields(FieldTrees(vs, fs), fs, k) == Ok(vs[k..])
    decreases TRec(fs), 0, 0
  {
    var ms := FieldTrees(vs, fs);
    FieldTreeLookup(vs, fs, k);
    DecodeTree(vs[k], fs[k].ty);
    DecodeFieldsCons(ms, fs, k, Tree(vs[k], fs[k].ty), vs[k], vs[k + 1..]);
    SliceCons(vs, k);
  }

  /**
   * Round trip: for every well-typed value whose strings hold no NUL, the
   * events `toJson` produces describe one tree, and decoding that tree at the
   * same type gives the value back. Ints are 32-bit by WellTyped.
   */
  lemma RoundTripValue(v: V, ty: Ty)
    requires WellFormedTy(ty) && WellTyped(v, ty) && NulFree(v, ty)
    ensures ReadJson(Encoding(v, ty)).Ok?
    ensures Decode(ReadJson(Encoding(v, ty)).value, ty) == Ok(v)
  {
    EncodingWellNested(v, ty);
    DecodeTree(v, ty);
  }

  /** A string holding a NUL comes back cut at that NUL: the NUL-free premise above is needed. */
  lemma NulTruncates(s: string)
    requires '\0' in s
    ensures ReadJson(Encoding(VStr(s), TStr)).Ok?
    ensures Decode(ReadJson(Encoding(VStr(s), TStr)).value, TStr) == Ok(VStr(CStr(s)))
    ensures CStr(s) != s
  {
    EncodingWellNested(VStr(s), TStr);
    CStrExact(s);
    CStrExact(CStr(s));
  }

  /**
   * The program's own sequence: `toJson` the value, parse the text back and
   * `fromJson` it at the same type. The reader stands for rapidjson's parse.
   */
  method EncodeThenDecode(v: V, ty: Ty) returns (r: Result<V, DecodeError>)
    requires WellFormedTy(ty) && WellTyped(v, ty) && NulFree(v, ty)
    ensures r == Ok(v)
  {
    var text := ToJson(v, ty);
    RoundTripValue(v, ty);
    var doc := ReadJson(text).value;
    r := ParseValue(doc, ty);
  }

  /** A record's keys come out in declaration order, one per field. */
  lemma EncodedKeyOrder(v: V, fs: seq<Field>)
    requires WellFormedTy(TRec(fs)) && WellTyped(v, TRec(fs))
    ensures ReadJson(Encoding(v, TRec(fs))).Ok?
    ensures ReadJson(Encoding(v, TRec(fs))).value.JObj?
    ensures Keys(ReadJson(Encoding(v, TRec(fs))).value.members) == Names(fs)
  {
    EncodingWellNested(v, TRec(fs));
    var ms := FieldTrees(v.vals, fs);
    forall i | 0 <= i < |fs| ensures ms[i].key == fs[i].name {
      CStrExact(fs[i].name);
    }
  }

  /** Member i of an encoded record is the encoding of field i's value. */
  lemma EncodedMember(v: V, fs: seq<Field>, i: nat)
    requires WellTyped(v, TRec(fs)) && i < |fs|
    ensures ReadJson(Encoding(v, TRec(fs))).Ok?
    ensures ReadJson(Encoding(v, TRec(fs))).value.JObj?
    ensures |ReadJson(Encoding(v, TRec(fs))).value.members| == |fs|
    ensures ReadJson(Encoding(v, TRec(fs))).value.members[i].val == Tree(v.vals[i], fs[i].ty)
  {
    EncodingWellNested(v, TRec(fs));
  }

  /**
   * Every Group encodes with top-level keys groupid, group_name, location,
   * members, in that order; the sample group the program builds is one of them.
   */
  lemma GroupKeyOrder(g: V)
    requires WellTyped(g, GroupTy)
    ensures ReadJson(Encoding(g, GroupTy)).Ok?
    ensures var j := ReadJson(Encoding(g, GroupTy)).value;
            j.JObj? && Keys(j.members) == ["groupid", "group_name", "location", "members"]
  {
    GroupWellFormed();
    EncodedKeyOrder(g, GroupTy.fields);
    FieldNamesInDeclarationOrder();
  }

  /** The `location` object inside every encoded Group has keys longitude, latitude, address, in that order. */
  lemma GroupLocationKeyOrder(g: V)
    requires WellTyped(g, GroupTy)
    ensures ReadJson(Encoding(g, GroupTy)).Ok?
    ensures var j := ReadJson(Encoding(g, GroupTy)).value;
            j.JObj? && |j.members| == 4 && j.members[2].val.JObj? &&
            Keys(j.members[2].val.members) == ["longitude", "latitude", "address"]
  {
    var loc := g.vals[2];
    assert WellTyped(loc, LocationTy);
    EncodedMember(g, GroupTy.fields, 2);
    MemberAndLocationWellFormed();
    EncodedKeyOrder(loc, LocationTy.fields);
    EncodingWellNested(loc, LocationTy);
    FieldNamesInDeclarationOrder();
  }
}

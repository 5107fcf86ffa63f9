/**
 * Record descriptors and the values they describe.
 *
 * The C++ program reflects over its structs at compile time: each struct is an
 * ordered list of (name, type) fields, and a field's type is `int`,
 * `std::string`, another such struct, or `std::vector` of any of these. Here
 * that reflection is an explicit descriptor `Ty`, and a struct instance is a
 * `V` whose shape `WellTyped` ties to a descriptor.
 */
module Descriptors {

  /** The type of one field. */
  datatype Ty =
    | TInt                       // C++ `int`
    | TStr                       // C++ `std::string`
    | TSeq(elem: Ty)             // C++ `std::vector<elem>`
    | TRec(fields: seq<Field>)   // a reflected struct, fields in declaration order

  datatype Field = Field(name: string, ty: Ty)

  /** A value; a record holds its field values positionally, names live in the descriptor. */
  datatype V =
    | VInt(i: int)
    | VStr(s: string)
    | VSeq(elems: seq<V>)
    | VRec(vals: seq<V>)

  const IntMin: int := -0x8000_0000
  const IntMax: int := 0x7fff_ffff

  /** The range of a C++ `int` on the platforms the program targets (32 bits). */
  predicate IsInt32(i: int) {
    IntMin <= i <= IntMax
  }

  /** `v` is a value of a C++ object of type `ty`. */
  predicate WellTyped(v: V, ty: Ty)
    decreases ty
  {
    match ty
    case TInt => v.VInt? && IsInt32(v.i)
    case TStr => v.VStr?
    case TSeq(e) =>
      v.VSeq? && forall k :: 0 <= k < |v.elems| ==> WellTyped(v.elems[k], e)
    case TRec(fs) =>
      v.VRec? && |v.vals| == |fs| &&
      forall k :: 0 <= k < |fs| ==> WellTyped(v.vals[k], fs[k].ty)
  }

  /** The names of a field list, in declaration order. */
  function Names(fs: seq<Field>): (ns: seq<string>)
    // the element-by-element view, kept for the solver
    ensures |ns| == |fs|
    ensures forall k :: 0 <= k < |fs| ==> ns[k] == fs[k].name
  {
    seq(|fs|, k requires 0 <= k < |fs| => fs[k].name)
  }

  predicate DistinctNames(fs: seq<Field>) {
    forall a, b :: 0 <= a < b < |fs| ==> fs[a].name != fs[b].name
  }

  /**
   * A descriptor a C++ struct can have: every member name is an identifier,
   * so it holds no NUL, and within a struct the names are distinct (the
   * compiler rejects a repeated member name).
   */
  predicate WellFormedTy(ty: Ty)
    decreases ty
  {
    match ty
    case TInt => true
    case TStr => true
    case TSeq(e) => WellFormedTy(e)
    case TRec(fs) =>
      DistinctNames(fs) &&
      forall k :: 0 <= k < |fs| ==> '\0' !in fs[k].name && WellFormedTy(fs[k].ty)
  }

  /** Every string inside `v` is free of the NUL character. */
  predicate NulFree(v: V, ty: Ty)
    requires WellTyped(v, ty)
    decreases ty
  {
    match ty
    case TInt => true
    case TStr => '\0' !in v.s
    case TSeq(e) => forall k :: 0 <= k < |v.elems| ==> NulFree(v.elems[k], e)
    case TRec(fs) => forall k :: 0 <= k < |fs| ==> NulFree(v.vals[k], fs[k].ty)
  }

  /**
   * The string a `const char*` denotes: the characters before the first NUL.
   * Writer::String(const Ch*) and Writer::Key(const Ch*) measure their
   * argument with strlen, so this is what they receive from `c_str()`; and
   * a `std::string` built from the `const char*` that GetString returns
   * holds the same.
   */
  function CStr(s: string): (r: string)
    ensures |r| <= |s| && r == s[..|r|]
    ensures '\0' !in r
    ensures |r| < |s| ==> s[|r|] == '\0'
  {
    if s == [] || s[0] == '\0' then [] else [s[0]] + CStr(s[1..])
  }

  /** A string without NUL passes through `c_str()` unchanged; one with a NUL loses its tail. */
  lemma CStrExact(s: string)
    ensures CStr(s) == s <==> '\0' !in s
  {
  }

  // The four structs of the program, as descriptors.

  const MemberTy: Ty := TRec([Field("id", TInt), Field("name", TStr)])

  const LocationTy: Ty :=
    TRec([Field("longitude", TInt), Field("latitude", TInt), Field("address", TStr)])

  const GroupTy: Ty :=
    TRec([Field("groupid", TInt), Field("group_name", TStr),
          Field("location", LocationTy), Field("members", TSeq(MemberTy))])

  const SearchOptionsTy: Ty :=
    TRec([Field("start_date", TStr), Field("end_date", TStr),
          Field("start_time", TStr), Field("end_time", TStr),
          Field("radius", TInt), Field("center_longitude", TInt),
          Field("center_latitude", TInt), Field("mode", TStr)])

  function MemberValue(id: int, name: string): V {
    VRec([VInt(id), VStr(name)])
  }

  /** The group the program builds, encodes and decodes. */
  const SampleGroup: V :=
    VRec([VInt(1), VStr("Best group"),
          VRec([VInt(1), VInt(1), VStr("sinsenveien 7")]),
          VSeq([MemberValue(0, "Jens"), MemberValue(1, "Harald")])])

  /** Names with no NUL in them, no two alike: what a struct's member names are. */
  predicate DistinctPlainNames(ns: seq<string>) {
    (forall k :: 0 <= k < |ns| ==> '\0' !in ns[k]) &&
    forall a, b :: 0 <= a < b < |ns| ==> ns[a] != ns[b]
  }

  /** A record is well formed when its names are and its field types are. */
  lemma RecordWellFormed(fs: seq<Field>)
    requires DistinctPlainNames(Names(fs))
    requires forall k :: 0 <= k < |fs| ==> WellFormedTy(fs[k].ty)
    ensures WellFormedTy(TRec(fs))
  {
    var ns := Names(fs);
    forall k | 0 <= k < |fs| ensures '\0' !in fs[k].name {
      assert ns[k] == fs[k].name;
    }
  }

  /** The member names of the four structs, in declaration order. */
  lemma FieldNamesInDeclarationOrder()
    ensures Names(MemberTy.fields) == ["id", "name"]
    ensures Names(LocationTy.fields) == ["longitude", "latitude", "address"]
    ensures Names(GroupTy.fields) == ["groupid", "group_name", "location", "members"]
    ensures Names(SearchOptionsTy.fields) ==
              ["start_date", "end_date", "start_time", "end_time",
               "radius", "center_longitude", "center_latitude", "mode"]
  {
  }

  lemma MemberAndLocationNamesPlain()
    ensures DistinctPlainNames(["id", "name"])
    ensures DistinctPlainNames(["longitude", "latitude", "address"])
  {
    assert '\0' !in "id" && '\0' !in "name";
    assert '\0' !in "longitude" && '\0' !in "latitude" && '\0' !in "address";
  }

  lemma GroupNamesPlain()
    ensures DistinctPlainNames(["groupid", "group_name", "location", "members"])
  {
    assert '\0' !in "groupid" && '\0' !in "group_name" && '\0' !in "location" && '\0' !in "members";
  }

  lemma SearchOptionsNamesPlain()
    ensures DistinctPlainNames(["start_date", "end_date", "start_time", "end_time",
                                "radius", "center_longitude", "center_latitude", "mode"])
  {
    assert '\0' !in "start_date" && '\0' !in "end_date" && '\0' !in "start_time" && '\0' !in "end_time";
    assert '\0' !in "radius" && '\0' !in "center_longitude" && '\0' !in "center_latitude" && '\0' !in "mode";
  }

  /** The four descriptors are well formed. */
  lemma MemberAndLocationWellFormed()
    ensures WellFormedTy(MemberTy) && WellFormedTy(LocationTy)
  {
    FieldNamesInDeclarationOrder();
    MemberAndLocationNamesPlain();
    RecordWellFormed(MemberTy.fields);
    RecordWellFormed(LocationTy.fields);
  }

  lemma GroupWellFormed()
    ensures WellFormedTy(GroupTy)
  {
    FieldNamesInDeclarationOrder();
    GroupNamesPlain();
    MemberAndLocationWellFormed();
    var fs := GroupTy.fields;
    assert fs[2].ty == LocationTy && fs[3].ty == TSeq(MemberTy);
    RecordWellFormed(fs);
  }

  lemma SearchOptionsWellFormed()
    ensures WellFormedTy(SearchOptionsTy)
  {
    FieldNamesInDeclarationOrder();
    SearchOptionsNamesPlain();
    RecordWellFormed(SearchOptionsTy.fields);
  }

  /** Any id in range and any name make a Member. */
  lemma MemberValueWellTyped(id: int, name: string)
    requires IsInt32(id)
    ensures WellTyped(MemberValue(id, name), MemberTy)
  {
    var fs := MemberTy.fields;
    assert fs[0].ty == TInt && fs[1].ty == TStr;
  }

  /** The sample group fits its descriptor. */
  lemma SampleGroupWellTyped()
    ensures WellTyped(SampleGroup, GroupTy)
  {
    var fs := GroupTy.fields;
    var vs := SampleGroup.vals;
    MemberValueWellTyped(0, "Jens");
    MemberValueWellTyped(1, "Harald");
    assert WellTyped(vs[2], LocationTy);
    assert WellTyped(vs[3], TSeq(MemberTy));
    assert fs[2].ty == LocationTy && fs[3].ty == TSeq(MemberTy);
  }
}

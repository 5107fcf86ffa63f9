# hana-experiments: reflection-driven JSON codec and query flattener, in Dafny

The C++ program reflects over four plain structs (`Member`, `Location`,
`Group`, `SearchOptions`) with Boost.Hana and, from that reflection alone,
decodes a rapidjson document into a struct (`parseValue`, `fromJson`),
encodes a struct as SAX events sent to a rapidjson `Writer` (`packValue`,
`toJson`), and flattens a struct into the positional parameters of a
prepared statement (`runQuery`).

This project models that core:

- `descriptors.dfy` (module `Descriptors`): the compile-time reflection
  becomes an explicit descriptor `Ty` (`TInt`, `TStr`, `TSeq`, `TRec` with
  ordered named fields), a struct instance becomes a value `V`, and
  `WellTyped(v, ty)` says that `v` is an object of that C++ type (an `int`
  field holds a 32-bit value). The four structs and the program's sample
  group are given as constants.
- `json.dfy` (module `JsonTree`): the parsed rapidjson tree and the
  first-match member lookup that `operator[](const char*)` performs.
- `events.dfy` (module `EventStream`): the writer events (`StartObject`,
  `Key`, `EndObject`, `StartArray`, `EndArray`, `String`, `Int`) and a pure
  reader that rebuilds a tree from an event list. The reader stands in for
  parsing the writer's text.
- `decoder.dfy` (module `Decoder`): `Decode`, the meaning of `parseValue`,
  and `ParseValue`, the same decoder written the way the C++ runs it
  (push_back loop for vectors, one assignment per field for structs) and
  proved equal to `Decode`. The C++ code does no checking. Each `Err` marks
  the place where a rapidjson accessor (`GetInt`, `GetString`, `Size`,
  `operator[]`) would fail its assertion.
- `decoder_properties.dfy` (module `DecoderProperties`): what the decoder
  promises for scalars, sequences and records. The element loop and the
  field loop are both a front-to-back collection of step results
  (`Collect`), so decoding stops at the first failure. A record consults
  only the members its fields name.
- `encoder.dfy` (module `Encoder`): the `JsonWriter` class (the writer's
  buffer as a list of events), `PackValue` and its vector and struct
  overloads as methods with loops, and `ToJson` on a fresh writer. All are
  proved against the pure function `Encoding`.
- `roundtrip.dfy` (module `RoundTrip`): the events of every well-typed value
  form exactly one well-nested value. Keys come out in declaration order.
  Decoding what was encoded gives the value back when no string holds a NUL,
  and a string with a NUL comes back truncated.
- `seqs.dfy` (module `Seqs`): one fact about sequence suffixes that the
  proofs use at several element types.
- `flattener.dfy` (module `Flattener`): `Flatten` (field values in
  declaration order, names dropped), a `Transaction` that records the
  prepared statements executed through it, `RunQuery`, and the program's
  loop that stores each member of a group.

The model follows the code as written, including where a reader might expect otherwise:

- `runQuery` ignores its `query` argument and always executes `"add_user"`
  (main.cpp:182).
- A struct decode touches the document only through `operator[]` on its
  fields. A struct with no fields therefore decodes from any node (no such
  struct exists in the program). The only premise the round trip needs is
  that strings hold no NUL. `c_str()` is measured with strlen when it is
  written (main.cpp:117), and so is `GetString()` when it is read back
  (main.cpp:79). Field names are measured the same way on both sides: as a
  key when written (main.cpp:144-145) and as the argument of `operator[]`
  when looked up (main.cpp:107). Quoting and escaping are the writer's own business.
- `fromJson` never checks for a parse error (main.cpp:156-157).
- Integers decode only when rapidjson has flagged them as `int`, that is
  when they fit in 32 bits. Other numbers fail like a wrong leaf type.

## Model

| member | source | states |
|---|---|---|
| `Descriptors.MemberAndLocationWellFormed` | main.cpp:16-29 | the Member and Location descriptors have distinct, NUL-free field names |
| `Descriptors.GroupWellFormed` | main.cpp:31-38 | the Group descriptor, with its nested Location and vector of Member, is well formed |
| `Descriptors.SearchOptionsWellFormed` | main.cpp:40-51 | the eight SearchOptions fields have distinct, NUL-free names |
| `Descriptors.FieldNamesInDeclarationOrder` | main.cpp:16-51 | the field names of Member, Location, Group and SearchOptions, each list in declaration order |
| `Descriptors.MemberValueWellTyped` | main.cpp:16-21 | any 32-bit id with any name makes a Member |
| `Descriptors.SampleGroupWellTyped` | main.cpp:187 | the group built by the program is a well-typed Group |
| `JsonTree.FindIndex` | main.cpp:107 | `Lookup`, the meaning of `operator[]`, returns the value at this index; the member found for a key is the first whose key equals it exactly; None only when no member has that key |
| `JsonTree.LookupDistinct` | main.cpp:107 | when an object's keys are distinct, looking up member k's key yields member k's value |
| `Decoder.Decode` | main.cpp:69-111 | whenever decoding succeeds, the result is a well-typed value of the expected type |
| `Decoder.DecodeItems` | main.cpp:85-95 | a successful element decode has one value per remaining array element, each of the element type |
| `Decoder.DecodeFields` | main.cpp:100-111 | a successful field decode has one value per remaining field, each of that field's type |
| `Decoder.ParseValue` | main.cpp:69-111 | the loop-based decoder (push_back per element, one assignment per field, stop at the first failing accessor) returns exactly `Decode` |
| `DecoderProperties.DecodeLeaves` | main.cpp:69-80 | an int decodes exactly from a 32-bit integer leaf, to its value; a string exactly from a string leaf, to its text up to the first NUL (the `std::string` is built from a `const char*`) |
| `DecoderProperties.CollectOk` | main.cpp:85-111 | step results collected front to back succeed iff every step does, and then hold each step's value in order |
| `DecoderProperties.CollectErr` | main.cpp:85-111 | a failed collection carries the error of the first failing step, every earlier step having succeeded |
| `DecoderProperties.DecodeItemsCollect` | main.cpp:85-95 | decoding the array elements from position k on is collecting the per-element decodes |
| `DecoderProperties.DecodeFieldsCollect` | main.cpp:100-111 | decoding the fields from position k on is collecting the per-field lookups and decodes |
| `DecoderProperties.DecodeSequence` | main.cpp:85-95 | an array decodes iff every element does; the list has the array's length with element i decoded from array element i; otherwise the error is that of the first failing element |
| `DecoderProperties.DecodeRecord` | main.cpp:100-111 | an object decodes iff every field is found under its name as strlen reads it, and decodes; field i's value comes from that member; otherwise the first missing or failing field decides the error |
| `DecoderProperties.DecodeRecordLocal` | main.cpp:103-108 | two objects that agree on the lookups of the field names decode identically, so no other member is consulted |
| `DecoderProperties.GroupMissingLocation` | main.cpp:100-111 | `{"groupid":1,"group_name":"X"}` as a Group fails with the `location` field missing |
| `DecoderProperties.ThirdFieldMissing` | main.cpp:100-111 | an object holding a 32-bit int and a string under the names of a record's first two fields (an int and a string field) and nothing under the third's fails with that third field missing |
| `DecoderProperties.IntStringRecord` | main.cpp:100-111 | any record of an int field and a string field decodes from an object holding a 32-bit int and a NUL-free string under their names |
| `DecoderProperties.MemberIdNotANumber` | main.cpp:69-72 | `{"id":"not-a-number","name":"Jens"}` as a Member fails with a type mismatch |
| `DecoderProperties.DecodeMemberObject` | main.cpp:100-111 | every object `{"id":n,"name":s}` with a 32-bit n and a NUL-free s decodes to the Member with that id and name |
| `DecoderProperties.MemberListExamples` | main.cpp:85-95 | a one-element array of members decodes to a one-element list and an empty array to an empty list |
| `Descriptors.CStr` | main.cpp:115-118 | what strlen sees of a string: its longest NUL-free prefix, cut exactly at the first NUL |
| `Encoder.JsonWriter.constructor` | main.cpp:163-164 | a new writer holds no events |
| `Encoder.JsonWriter.StartObject` | main.cpp:139 | appends one StartObject event and nothing else |
| `Encoder.JsonWriter.EndObject` | main.cpp:149 | appends one EndObject event and nothing else |
| `Encoder.JsonWriter.StartArray` | main.cpp:128 | appends one StartArray event and nothing else |
| `Encoder.JsonWriter.EndArray` | main.cpp:133 | appends one EndArray event and nothing else |
| `Encoder.JsonWriter.Key` | main.cpp:144-145 | appends one Key event holding the key up to its first NUL |
| `Encoder.JsonWriter.String` | main.cpp:115-118 | appends one String event holding the text up to its first NUL |
| `Encoder.JsonWriter.Int` | main.cpp:120-123 | appends one Int event holding the value |
| `Encoder.PackValue` | main.cpp:115-150 | appends `Encoding(v, ty)`, the pure meaning of `packValue` that every encoder property is stated about, after whatever the writer already held, leaving the earlier events intact |
| `Encoder.PackSequence` | main.cpp:125-134 | appends StartArray, the element encodings in list order, then EndArray |
| `Encoder.PackRecord` | main.cpp:136-150 | appends StartObject, then Key(name) and the value's encoding for each field in declaration order, then EndObject |
| `Encoder.ToJson` | main.cpp:160-168 | the output is exactly the value's encoding, because the writer starts empty |
| `EventStream.ReadJsonBalanced` | main.cpp:125-150 | any event list read as one complete value opens as many objects and arrays as it closes |
| `RoundTrip.ReadEncoding` | main.cpp:125-150 | reading a value's encoding followed by any further events yields the value's tree and leaves those further events unread |
| `RoundTrip.EncodingWellNested` | main.cpp:125-150 | every well-typed value's events read back as exactly one tree with nothing left over, and they are balanced |
| `Descriptors.CStrExact` | main.cpp:117 | a string passes through `c_str()` unchanged iff it holds no NUL |
| `RoundTrip.DecodeTree` | main.cpp:69-111 | decoding the tree of a well-typed, NUL-free value at its own type returns the value |
| `RoundTrip.RoundTripValue` | main.cpp:152-168 | for every well-typed value without NUL in its strings, the encoding reads as one tree and decoding that tree gives the value back |
| `RoundTrip.NulTruncates` | main.cpp:115-118 | a string holding a NUL round-trips to its prefix before the NUL, which differs from it |
| `RoundTrip.EncodeThenDecode` | main.cpp:189-192 | encoding then decoding a well-typed, NUL-free value at the same type gives it back |
| `RoundTrip.EncodedKeyOrder` | main.cpp:136-150 | an encoded record is an object whose keys are exactly the field names in declaration order |
| `RoundTrip.EncodedMember` | main.cpp:141-146 | member i of an encoded record is the tree of field i's value |
| `RoundTrip.GroupKeyOrder` | main.cpp:31-38 | every encoded Group has top-level keys groupid, group_name, location, members in that order |
| `RoundTrip.GroupLocationKeyOrder` | main.cpp:23-29 | the location object inside every encoded Group has keys longitude, latitude, address in that order |
| `Flattener.Flatten` | main.cpp:181 | one parameter per field in declaration order; each is an int exactly where the field is `int`, and it holds that field's value |
| `Flattener.ScalarFields` | main.cpp:181 | in a record of int and string fields, each value is an int exactly where the field is declared `int` |
| `Flattener.UnflattenFlatten` | main.cpp:181 | dropping the names loses nothing: the descriptor's positions rebuild the record from its parameters |
| `Flattener.FlattenMember` | main.cpp:178-183 | a Member flattens to (id, name), e.g. Member{7,"Harald"} to (7, "Harald") |
| `Flattener.Transaction.constructor` | main.cpp:197 | a fresh transaction has executed nothing |
| `Flattener.Transaction.ExecPrepared` | main.cpp:174 | records one call of the named statement with the given parameters and nothing else |
| `Flattener.Invoke` | main.cpp:170-176 | the executor runs its bound statement once with the parameters it is given |
| `Flattener.RunQuery` | main.cpp:178-183 | exactly one call is added, always of "add_user" whatever `query` says, with the record's flattened fields |
| `Flattener.StoreMembers` | main.cpp:199-202 | one "add_user" call per member, in list order, each with that member's (id, name), after the earlier calls |

## Left out

- Text: rapidjson's `doc.Parse` (main.cpp:156) and the Writer's characters, escaping and `StringBuffer` (main.cpp:163-167) belong to the library. The model stops at the tree and the event list. `EventStream.ReadJson` stands in for parsing the writer's own output.
- `fromJson` (main.cpp:152-158) is `Decoder.ParseValue` applied to the parsed document. Since parsing is left out it has no member of its own, and a malformed text (which the code never checks) is not modelled.
- The rapidjson Writer's internal nesting assertions are not modelled. `RoundTrip.EncodingWellNested` shows the encoder never produces an ill-nested stream.
- A rapidjson assertion failure is modelled as an `Err` value. In a release build with assertions disabled the accessors return unspecified data instead; that behaviour is not modelled.
- JSON numbers are unbounded integers in the tree. Doubles and the 64-bit number kinds are not distinguished, except that `GetInt` accepts only 32-bit values.
- Flattener.Flatten: defined only for structs whose fields are all `int` or `std::string`. The program flattens only `Member` (main.cpp:199-202), and binding a nested struct or a vector as a pqxx parameter is not defined here.
- The pqxx connection, `prepare`, the `work` transaction's lifecycle and `commit` (main.cpp:194-203) are external database I/O. A transaction is reduced to the list of prepared-statement calls made through it.
- The `get<T>` helper (main.cpp:53-57) is a wrapper over pqxx and is not part of this model.
- Boost.Hana's compile-time machinery (`keys`, `at_key`, `to_tuple`, `transform`, `unpack`) is replaced by explicit descriptors, so template instantiation is not modelled.
- Printing to `std::cout` and the rest of `main` (main.cpp:185-204) are not modelled, except the encode/decode sequence (`RoundTrip.EncodeThenDecode`) and the storage loop (`Flattener.StoreMembers`).

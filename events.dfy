/**
 * The SAX-style events a rapidjson Writer receives, and a reader that rebuilds
 * the tree those events describe. The reader stands for rapidjson's parse of
 * the text the Writer produced; it is what lets the round trip be stated
 * without modelling characters.
 */
module EventStream {
  import opened Results
  import opened JsonTree

  datatype Event =
    | StartObject
    | Key(name: string)
    | EndObject
    | StartArray
    | EndArray
    | String(s: string)
    | Int(i: int)

  datatype ReadError = UnexpectedEnd | UnexpectedEvent(at: Event) | TrailingEvents

  /** Reads one complete value from the front of `evs`; returns it and the events after it. */
  function ReadValue(evs: seq<Event>): (r: Result<(Json, seq<Event>), ReadError>)
    ensures r.Ok? ==> |r.value.1| < |evs|
    decreases |evs|, 0
  {
    if evs == [] then Err(UnexpectedEnd)
    else
      match evs[0]
      case Int(i) => Ok((JInt(i), evs[1..]))
      case String(s) => Ok((JStr(s), evs[1..]))
      case StartArray =>
        (match ReadItems(evs[1..])
         case Err(e) => Err(e)
         case Ok((js, rest)) => Ok((JArr(js), rest)))
      case StartObject =>
        (match ReadMembers(evs[1..])
         case Err(e) => Err(e)
         case Ok((ms, rest)) => Ok((JObj(ms), rest)))
      case _ => Err(UnexpectedEvent(evs[0]))
  }

  /** Reads array elements up to and including the closing EndArray. */
  function ReadItems(evs: seq<Event>): (r: Result<(seq<Json>, seq<Event>), ReadError>)
    ensures r.Ok? ==> |r.value.1| < |evs|
    decreases |evs|, 1
  {
    if evs == [] then Err(UnexpectedEnd)
    else if evs[0] == EndArray then Ok(([], evs[1..]))
    else
      match ReadValue(evs)
      case Err(e) => Err(e)
      case Ok((j, rest)) =>
        match ReadItems(rest)
        case Err(e) => Err(e)
        case Ok((js, rest')) => Ok(([j] + js, rest'))
  }

  /** Reads `Key` + value pairs up to and including the closing EndObject. */
  function ReadMembers(evs: seq<Event>): (r: Result<(seq<Entry>, seq<Event>), ReadError>)
    ensures r.Ok? ==> |r.value.1| < |evs|
    decreases |evs|, 1
  {
    if evs == [] then Err(UnexpectedEnd)
    else if evs[0] == EndObject then Ok(([], evs[1..]))
    else if !evs[0].Key? then Err(UnexpectedEvent(evs[0]))
    else
      match ReadValue(evs[1..])
      case Err(e) => Err(e)
      case Ok((j, rest)) =>
        match ReadMembers(rest)
        case Err(e) => Err(e)
        case Ok((ms, rest')) => Ok(([Entry(evs[0].name, j)] + ms, rest'))
  }

  /** The tree described by a whole event stream: exactly one value and nothing after it. */
  function ReadJson(evs: seq<Event>): Result<Json, ReadError> {
    match ReadValue(evs)
    case Err(e) => Err(e)
    case Ok((j, rest)) => if rest == [] then Ok(j) else Err(TrailingEvents)
  }

  /** Opening events minus closing events. */
  function Depth(evs: seq<Event>): int {
    if evs == [] then 0
    else
      var d := match evs[0]
        case StartObject => 1
        case StartArray => 1
        case EndObject => -1
        case EndArray => -1
        case _ => 0;
      d + Depth(evs[1..])
  }

  /** A value read off the front of an array's events is followed by the array's other elements. */
  lemma ReadItemsCons(head: seq<Event>, after: seq<Event>, j: Json, js: seq<Json>, rest: seq<Event>)
    requires head != [] && head[0] != EndArray
    requires ReadValue(head + after) == Ok((j, after))
    requires ReadItems(after) == Ok((js, rest))
    ensures ReadItems(head + after) == Ok(([j] + js, rest))
  {
    assert (head + after)[0] == head[0];
  }

  /** A key and its value read off the front of an object's events are followed by its other members. */
  lemma ReadMembersCons(name: string, head: seq<Event>, after: seq<Event>, j: Json, ms: seq<Entry>, rest: seq<Event>)
    requires ReadValue(head + after) == Ok((j, after))
    requires ReadMembers(after) == Ok((ms, rest))
    ensures ReadMembers([Key(name)] + (head + after)) == Ok(([Entry(name, j)] + ms, rest))
  {
    assert ([Key(name)] + (head + after))[1..] == head + after;
  }

  /**
   * Whatever the reader accepts is balanced: the events it consumes for one
   * value open exactly as many objects and arrays as they close.
   */
  lemma {:induction false} ReadValueBalanced(evs: seq<Event>)
    requires ReadValue(evs).Ok?
    ensures Depth(evs) == Depth(ReadValue(evs).value.1)
    decreases |evs|, 0
  {
    match evs[0]
    case Int(_) =>
    case String(_) =>
    case StartArray => ReadItemsBalanced(evs[1..]);
    case StartObject => ReadMembersBalanced(evs[1..]);
  }

  lemma {:induction false} ReadItemsBalanced(evs: seq<Event>)
    requires ReadItems(evs).Ok?
    ensures Depth(evs) == Depth(ReadItems(evs).value.1) - 1
    decreases |evs|, 1
  {
    if evs[0] != EndArray {
      var rest := ReadValue(evs).value.1;
      ReadValueBalanced(evs);
      ReadItemsBalanced(rest);
    }
  }

  lemma {:induction false} ReadMembersBalanced(evs: seq<Event>)
    requires ReadMembers(evs).Ok?
    ensures Depth(evs) == Depth(ReadMembers(evs).value.1) - 1
    decreases |evs|, 1
  {
    if evs[0] != EndObject {
      var rest := ReadValue(evs[1..]).value.1;
      ReadValueBalanced(evs[1..]);
      ReadMembersBalanced(rest);
    }
  }

  /** A stream the reader accepts as one tree is balanced. */
  lemma ReadJsonBalanced(evs: seq<Event>)
    requires ReadJson(evs).Ok?
    ensures Depth(evs) == 0
  {
    ReadValueBalanced(evs);
  }
}

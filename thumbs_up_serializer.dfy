/**
 * The string-manifest serializer of the multi-data-center thumbs-up
 * counter. The protobuf wire format is kept abstract: a message on the
 * wire is a list of fields, each a field number and a string value.
 * Parsing follows the protobuf rules for string fields (a singular field
 * takes the last value seen and defaults to the empty string, a repeated
 * field collects every value in order), and a field number of zero or
 * less is the one malformation modelled.
 */
module ThumbsUpSerializer {
  import opened Wrappers
  import Counter = MultiDcThumbsUpCounter

  datatype Field = Field(number: int, value: string)

  type Bytes = seq<Field>

  /** What `toBinary` may be handed: one of the counter's messages, or anything else (by class name). */
  datatype Object =
    | StateObject(state: Counter.State)
    | CommandObject(cmd: Counter.Command)
    | EventObject(event: Counter.Event)
    | OtherObject(className: string)
  {
    predicate IsCounterMessage() { !OtherObject? }
  }

  datatype Exception = IllegalArgument(message: string) | NotSerializable(message: string)

  const Identifier := 100

  const StateManifest := "a"
  const GiveThumbsUpManifest := "b"
  const GetCountManifest := "c"
  const GetUsersManifest := "d"
  const GaveThumbsUpManifest := "e"

  const ClassName := "sample.persistence.multidc.ThumbsUpSerializer"

  /** `manifest(o)`: one letter per message type; anything else is refused. */
  function Manifest(o: Object): (r: Result<string, Exception>)
    ensures r.Ok? <==> o.IsCounterMessage()
    ensures r.Ok? ==> r.value in {StateManifest, GiveThumbsUpManifest, GetCountManifest,
                                  GetUsersManifest, GaveThumbsUpManifest}
    ensures r.Err? ==> r.error.IllegalArgument?
  {
    match o
    case CommandObject(GiveThumbsUp(_, _)) => Ok(GiveThumbsUpManifest)
    case EventObject(_) => Ok(GaveThumbsUpManifest)
    case StateObject(_) => Ok(StateManifest)
    case CommandObject(GetCount(_)) => Ok(GetCountManifest)
    case CommandObject(GetUsers(_)) => Ok(GetUsersManifest)
    case OtherObject(name) =>
      Err(IllegalArgument("Can't serialize object of type class " + name + " in " + ClassName))
  }

  /** Different message types get different manifests. */
  lemma ManifestsAreDistinct(o1: Object, o2: Object)
    requires o1.IsCounterMessage() && o2.IsCounterMessage()
    requires Manifest(o1) == Manifest(o2)
    ensures o1.StateObject? <==> o2.StateObject?
    ensures o1.EventObject? <==> o2.EventObject?
    ensures o1.CommandObject? ==>
      && o2.CommandObject?
      && (o1.cmd.GiveThumbsUp? <==> o2.cmd.GiveThumbsUp?)
      && (o1.cmd.GetCount? <==> o2.cmd.GetCount?)
      && (o1.cmd.GetUsers? <==> o2.cmd.GetUsers?)
  {
  }

  /** The users of a State in some order: the iteration order of a HashSet is not specified. */
  ghost function Enumerate(users: set<string>): (r: seq<string>)
    ensures |r| == |users|
    ensures forall x :: x in r <==> x in users
    decreases |users|
  {
    if users == {} then []
    else
      var x :| x in users;
      [x] + Enumerate(users - {x})
  }

  /** `toBinary(o)`: the fields of the matching protobuf message. */
  ghost function ToBinary(o: Object): (r: Result<Bytes, Exception>)
    ensures r.Ok? <==> Manifest(o).Ok?
    ensures r.Ok? ==> forall i :: 0 <= i < |r.value| ==> r.value[i].number > 0
    ensures r.Err? ==> r.error.IllegalArgument?
  {
    match o
    case CommandObject(GiveThumbsUp(resourceId, userId)) => Ok([Field(1, resourceId), Field(2, userId)])
    case EventObject(GaveThumbsUp(userId)) => Ok([Field(1, userId)])
    case StateObject(state) => Ok(UsersToFields(Enumerate(state.users)))
    case CommandObject(GetCount(resourceId)) => Ok([Field(1, resourceId)])
    case CommandObject(GetUsers(resourceId)) => Ok([Field(1, resourceId)])
    case OtherObject(name) => Err(IllegalArgument("Cannot serialize object of type " + name))
  }

  /** The repeated `users` field, one entry per user. */
  function UsersToFields(users: seq<string>): (r: Bytes)
    ensures |r| == |users|
    ensures forall i :: 0 <= i < |r| ==> r[i] == Field(1, users[i])
  {
    if users == [] then [] else [Field(1, users[0])] + UsersToFields(users[1..])
  }

  /** `parseFrom`: refuses a field number that is not positive. */
  function Validate(bytes: Bytes): (r: Option<string>)
    ensures r.Some? <==> exists i :: 0 <= i < |bytes| && bytes[i].number <= 0
  {
    if exists i :: 0 <= i < |bytes| && bytes[i].number <= 0
    then Some("Protocol message contained an invalid tag (zero).")
    else None
  }

  /** A singular string field: the last occurrence wins, absent means "". */
  function StringField(bytes: Bytes, number: int): (v: string)
    ensures (forall i :: 0 <= i < |bytes| ==> bytes[i].number != number) ==> v == ""
    ensures bytes != [] && bytes[|bytes| - 1].number == number ==> v == bytes[|bytes| - 1].value
  {
    if bytes == [] then ""
    else if bytes[|bytes| - 1].number == number then bytes[|bytes| - 1].value
    else StringField(bytes[..|bytes| - 1], number)
  }

  /** A repeated string field: every occurrence, in order. */
  function RepeatedField(bytes: Bytes, number: int): (vs: seq<string>)
    ensures forall v :: v in vs <==> exists i :: 0 <= i < |bytes| && bytes[i] == Field(number, v)
  {
    if bytes == [] then []
    else
      var rest := RepeatedField(bytes[..|bytes| - 1], number);
      var last := bytes[|bytes| - 1];
      assert forall i :: 0 <= i < |bytes| - 1 ==> bytes[..|bytes| - 1][i] == bytes[i];
      if last.number == number then rest + [last.value] else rest
  }

  /**
   * `fromBinary(bytes, manifest)`: the manifest picks the message type before
   * anything is parsed; an unknown manifest and a parse failure are both
   * NotSerializableException.
   */
  function FromBinary(bytes: Bytes, manifest: string): (r: Result<Object, Exception>)
    ensures manifest !in {StateManifest, GiveThumbsUpManifest, GetCountManifest,
                          GetUsersManifest, GaveThumbsUpManifest} ==>
      r == Err(NotSerializable("Unimplemented deserialization of message with manifest [" + manifest + "] in " + ClassName))
    ensures Validate(bytes).Some? ==> r.Err? && r.error.NotSerializable?
    ensures r.Ok? ==> r.value.IsCounterMessage() && Manifest(r.value) == Ok(manifest)
  {
    if manifest !in {StateManifest, GiveThumbsUpManifest, GetCountManifest, GetUsersManifest, GaveThumbsUpManifest} then
      Err(NotSerializable("Unimplemented deserialization of message with manifest [" + manifest + "] in " + ClassName))
    else if Validate(bytes).Some? then
      Err(NotSerializable(Validate(bytes).value))
    else if manifest == GiveThumbsUpManifest then
      Ok(CommandObject(Counter.GiveThumbsUp(StringField(bytes, 1), StringField(bytes, 2))))
    else if manifest == GaveThumbsUpManifest then
      Ok(EventObject(Counter.GaveThumbsUp(StringField(bytes, 1))))
    else if manifest == StateManifest then
      Ok(StateObject(Counter.State(set u | u in RepeatedField(bytes, 1))))
    else if manifest == GetCountManifest then
      Ok(CommandObject(Counter.GetCount(StringField(bytes, 1))))
    else
      Ok(CommandObject(Counter.GetUsers(StringField(bytes, 1))))
  }

  lemma StringFieldOfDistinct(bytes: Bytes, i: nat)
    requires i < |bytes|
    requires forall j :: 0 <= j < |bytes| && j != i ==> bytes[j].number != bytes[i].number
    ensures StringField(bytes, bytes[i].number) == bytes[i].value
  {
    var n := bytes[i].number;
    if i < |bytes| - 1 {
      var p := bytes[..|bytes| - 1];
      StringFieldOfDistinct(p, i);
    }
  }

  /**
   * Every counter message survives the trip: decoding its bytes under its
   * own manifest gives back an equal object (for State, the same set of users).
   */
  lemma RoundTrip(o: Object)
    requires o.IsCounterMessage()
    ensures ToBinary(o).Ok? && Manifest(o).Ok?
    ensures FromBinary(ToBinary(o).value, Manifest(o).value) == Ok(o)
  {
    var bytes := ToBinary(o).value;
    assert Validate(bytes).None?;
    match o {
      case StateObject(state) =>
        var us := set u | u in RepeatedField(bytes, 1);
        forall u ensures u in us <==> u in state.users {
          var e := Enumerate(state.users);
          if u in state.users {
            var k :| 0 <= k < |e| && e[k] == u;
            assert bytes[k] == Field(1, u);
          }
        }
        assert us == state.users;
      case CommandObject(cmd) =>
        if cmd.GiveThumbsUp? {
          StringFieldOfDistinct(bytes, 0);
          StringFieldOfDistinct(bytes, 1);
        } else {
          StringFieldOfDistinct(bytes, 0);
        }
      case EventObject(_) =>
        StringFieldOfDistinct(bytes, 0);
    }
  }
}

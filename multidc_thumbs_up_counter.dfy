/**
 * The multi-data-center thumbs-up counter and its sharding message
 * extractor. The counter answers the sender of each command; the
 * extractor picks the entity id and the shard (one of 1000) from a
 * message. `null` results are `None`.
 */
module MultiDcThumbsUpCounter {
  import opened Wrappers
  import JavaLang

  datatype State = State(users: set<string>)
  {
    /** `add`: a fresh set holding the old users and the new one. */
    function Add(userId: string): (r: State)
      ensures r.users == users + {userId}
      ensures userId in users ==> r == this
    {
      State(users + {userId})
    }
  }

  /** `initialState()`: no users. */
  const InitialState := State({})

  datatype Command =
    | GiveThumbsUp(resourceId: string, userId: string)
    | GetCount(resourceId: string)
    | GetUsers(resourceId: string)

  datatype Event = GaveThumbsUp(userId: string)

  /** What is told to the sender. */
  datatype Reply = Count(count: nat) | Users(state: State)

  datatype Effect = Effect(event: Option<Event>, reply: Reply)

  function Apply(s: State, e: Event): State
  {
    s.Add(e.userId)
  }

  /** The command handler; GiveThumbsUp answers after its event with the new size. */
  function HandleCommand(s: State, cmd: Command): (r: Effect)
    ensures cmd.GiveThumbsUp? ==>
      r.event == Some(GaveThumbsUp(cmd.userId)) && r.reply == Count(|s.users + {cmd.userId}|)
    ensures cmd.GetCount? ==> r == Effect(None, Count(|s.users|))
    ensures cmd.GetUsers? ==> r == Effect(None, Users(s))
  {
    match cmd
    case GiveThumbsUp(_, userId) =>
      var e := GaveThumbsUp(userId);
      Effect(Some(e), Count(|Apply(s, e).users|))
    case GetCount(_) => Effect(None, Count(|s.users|))
    case GetUsers(_) => Effect(None, Users(s))
  }

  /** Giving a thumbs-up twice counts once. */
  lemma GiveThumbsUpIsIdempotent(s: State, resourceId: string, userId: string)
    ensures var e := HandleCommand(s, GiveThumbsUp(resourceId, userId)).event.value;
      Apply(Apply(s, e), e) == Apply(s, e)
      && HandleCommand(Apply(s, e), GiveThumbsUp(resourceId, userId)).reply
         == HandleCommand(s, GiveThumbsUp(resourceId, userId)).reply
  {
  }

  /** What the shard region hands the extractor. */
  datatype Message =
    | CommandMessage(cmd: Command)
    | StartEntity(entityId: string)
    | SpeculativeReplicatedEvent(entityId: string)
    | OtherMessage

  /** `entityId(message)`: a StartEntity is not recognised here and gets null. */
  function EntityId(m: Message): (id: Option<string>)
    ensures m.CommandMessage? ==> id == Some(m.cmd.resourceId)
    ensures m.SpeculativeReplicatedEvent? ==> id == Some(m.entityId)
    ensures m.StartEntity? || m.OtherMessage? ==> id == None
  {
    match m
    case CommandMessage(cmd) => Some(cmd.resourceId)
    case SpeculativeReplicatedEvent(entityId) => Some(entityId)
    case _ => None
  }

  const MaxNumberOfShards := 1000

  /** `shardId(entityId)` as written: `Integer.toString(Math.abs(hashCode) % 1000)`. */
  function ShardId(entityId: string): string
  {
    var h := JavaLang.HashCode(entityId);
    JavaLang.IntToString(JavaLang.Rem(JavaLang.Abs32(h), MaxNumberOfShards))
  }

  /** For every hash code but Integer.MIN_VALUE the shard is one of "0" to "999". */
  lemma ShardIdInRange(entityId: string)
    requires JavaLang.HashCode(entityId) != JavaLang.INT_MIN
    ensures exists n :: 0 <= n < MaxNumberOfShards && ShardId(entityId) == JavaLang.NatToString(n)
  {
    var n := JavaLang.Rem(JavaLang.Abs32(JavaLang.HashCode(entityId)), MaxNumberOfShards);
    assert 0 <= n < MaxNumberOfShards && ShardId(entityId) == JavaLang.NatToString(n);
  }

  /** `Math.abs(Integer.MIN_VALUE)` stays negative, and the shard id comes out as "-648". */
  lemma ShardIdOfMinValueHash(entityId: string)
    requires JavaLang.HashCode(entityId) == JavaLang.INT_MIN
    ensures ShardId(entityId) == "-648"
  {
    assert JavaLang.Rem(JavaLang.INT_MIN, 1000) == -648;
    assert JavaLang.NatToString(648) == "648" by {
      assert JavaLang.NatToString(64) == "64" by {
        assert JavaLang.NatToString(6) == "6";
      }
    }
  }

  /** "polygenelubricants" is such an entity id: its String.hashCode is Integer.MIN_VALUE. */
  lemma PolygenelubricantsHashesToMinValue()
    ensures JavaLang.HashCode("polygenelubricants") == JavaLang.INT_MIN
    ensures ShardId("polygenelubricants") == "-648"
  {
    var s := "polygenelubricants";
    JavaLang.CodeUnitsBmp(s);
    HashIsMinValue(JavaLang.CodeUnits(s));
    ShardIdOfMinValueHash(s);
  }

  /** The hash loop over the code units of "polygenelubricants", nine steps at a time. */
  lemma HashIsMinValue(u: seq<int>)
    requires |u| == 18
    requires u[0] == 112 && u[1] == 111 && u[2] == 108 && u[3] == 121 && u[4] == 103 && u[5] == 101
    requires u[6] == 110 && u[7] == 101 && u[8] == 108 && u[9] == 117 && u[10] == 98 && u[11] == 114
    requires u[12] == 105 && u[13] == 99 && u[14] == 97 && u[15] == 110 && u[16] == 116 && u[17] == 115
    ensures JavaLang.HashLoop(u) == JavaLang.INT_MIN
  {
    HashFirstNine(u);
    HashLastNine(u);
    assert u[..18] == u;
  }

  /** "polygene": the hash after the first nine code units. */
  lemma HashFirstNine(u: seq<int>)
    requires |u| == 18
    requires u[0] == 112 && u[1] == 111 && u[2] == 108 && u[3] == 121 && u[4] == 103 && u[5] == 101
    requires u[6] == 110 && u[7] == 101 && u[8] == 108
    ensures JavaLang.HashLoop(u[..9]) == 235499435
  {
    assert u[..0] == [];
    HashThree(u, 0, 0, 112, 111, 108, 112, 3583, 111181);
    HashThree(u, 3, 111181, 121, 103, 101, 3446732, 106848795, -982654550);
    HashThree(u, 6, -982654550, 110, 101, 108, -397519868, 561786081, 235499435);
  }

  /** "ubricants": the last nine code units, from the hash after the first nine. */
  lemma HashLastNine(u: seq<int>)
    requires |u| == 18 && JavaLang.HashLoop(u[..9]) == 235499435
    requires u[9] == 117 && u[10] == 98 && u[11] == 114
    requires u[12] == 105 && u[13] == 99 && u[14] == 97 && u[15] == 110 && u[16] == 116 && u[17] == 115
    ensures JavaLang.HashLoop(u[..18]) == JavaLang.INT_MIN
  {
    HashThree(u, 9, 235499435, 117, 98, 114, -1289451990, -1318305928, 2082189306);
    HashThree(u, 12, 2082189306, 105, 99, 97, 123359151, -470833516, -1710937011);
    HashThree(u, 15, -1710937011, 110, 116, 115, -1499439679, 762010323, JavaLang.INT_MIN);
  }

  /** Three code units of a prefix, with the hash after each. */
  lemma HashThree(u: seq<int>, k: nat, h: int, c0: int, c1: int, c2: int, h1: int, h2: int, h3: int)
    requires k + 3 <= |u| && u[k] == c0 && u[k + 1] == c1 && u[k + 2] == c2
    requires JavaLang.HashLoop(u[..k]) == h
    requires JavaLang.Wrap32(31 * h + c0) == h1
    requires JavaLang.Wrap32(31 * h1 + c1) == h2
    requires JavaLang.Wrap32(31 * h2 + c2) == h3
    ensures JavaLang.HashLoop(u[..k + 3]) == h3
  {
    HashUnit(u, k, h, c0, h1);
    HashUnit(u, k + 1, h1, c1, h2);
    HashUnit(u, k + 2, h2, c2, h3);
  }

  /** One more code unit of a prefix. */
  lemma HashUnit(u: seq<int>, k: nat, h: int, c: int, next: int)
    requires k < |u| && u[k] == c && JavaLang.HashLoop(u[..k]) == h
    requires JavaLang.Wrap32(31 * h + c) == next
    ensures JavaLang.HashLoop(u[..k + 1]) == next
  {
    assert u[..k] + [u[k]] == u[..k + 1];
    JavaLang.HashStep(u[..k], u[k], h);
  }

  /** The shard id with the remainder taken before the absolute value, as the CQRS sample's `init` does. */
  function ShardIdIntended(entityId: string): (shard: string)
    ensures exists n :: 0 <= n < MaxNumberOfShards && shard == JavaLang.NatToString(n)
  {
    var n := JavaLang.Abs32(JavaLang.Rem(JavaLang.HashCode(entityId), MaxNumberOfShards));
    assert 0 <= n < MaxNumberOfShards;
    JavaLang.IntToString(n)
  }

  /** Both agree wherever the written form is in range. */
  lemma ShardIdIntendedAgrees(entityId: string)
    requires JavaLang.HashCode(entityId) != JavaLang.INT_MIN
    ensures ShardIdIntended(entityId) == ShardId(entityId)
  {
    var h := JavaLang.HashCode(entityId);
    if h < 0 {
      assert JavaLang.Rem(-h, 1000) == -JavaLang.Rem(h, 1000);
    }
  }

  /** `shardId(message)`: the three kinds of entity messages go by their entity id; anything else gets null. */
  function ShardOf(m: Message): (shard: Option<string>)
    ensures m.OtherMessage? <==> shard.None?
    ensures m.CommandMessage? ==> shard == Some(ShardId(m.cmd.resourceId))
    ensures m.StartEntity? || m.SpeculativeReplicatedEvent? ==> shard == Some(ShardId(m.entityId))
  {
    match m
    case CommandMessage(cmd) => Some(ShardId(cmd.resourceId))
    case StartEntity(entityId) => Some(ShardId(entityId))
    case SpeculativeReplicatedEvent(entityId) => Some(ShardId(entityId))
    case OtherMessage => None
  }

  /** Messages for the same entity land on the same shard. */
  lemma SameEntitySameShard(m1: Message, m2: Message)
    requires EntityId(m1).Some? && EntityId(m1) == EntityId(m2)
    ensures ShardOf(m1) == ShardOf(m2) && ShardOf(m1).Some?
  {
  }
}

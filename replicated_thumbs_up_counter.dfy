/**
 * The replicated thumbs-up counter: a set of user ids that only grows.
 * GiveThumbsUp persists GaveThumbsUp and answers with the number of users
 * once the event is applied; GetCount and GetUsers answer from the current
 * state and persist nothing.
 */
module ReplicatedThumbsUpCounter {
  import opened Wrappers

  /** The immutable `State`: `add` builds a fresh set and a new state. */
  datatype State = State(users: set<string>)
  {
    function Add(userId: string): (r: State)
      ensures r.users == users + {userId}
      ensures userId in users ==> r == this
      ensures |r.users| == |users| + (if userId in users then 0 else 1)
    {
      State(users + {userId})
    }
  }

  /** `emptyState()`: nobody has given a thumbs-up. */
  const EmptyState := State({})

  datatype Command =
    | GiveThumbsUp(resourceId: string, userId: string)
    | GetCount(resourceId: string)
    | GetUsers(resourceId: string)

  datatype Event = GaveThumbsUp(userId: string)

  datatype Reply = Count(count: nat) | Users(state: State)

  datatype Effect = Effect(event: Option<Event>, reply: Reply)

  function Apply(s: State, e: Event): State
  {
    s.Add(e.userId)
  }

  /** The command handler; GiveThumbsUp's reply is read from the state after its event. */
  function HandleCommand(s: State, cmd: Command): (r: Effect)
    ensures cmd.GiveThumbsUp? ==>
      r.event == Some(GaveThumbsUp(cmd.userId))
      && r.reply == Count(|s.users + {cmd.userId}|)
    ensures cmd.GetCount? ==> r == Effect(None, Count(|s.users|))
    ensures cmd.GetUsers? ==> r == Effect(None, Users(s))
  {
    match cmd
    case GiveThumbsUp(_, userId) =>
      var e := GaveThumbsUp(userId);
      Effect(Some(e), Count(|Apply(s, e).users|))
    case GetCount(_) => Effect(None, Count(|s.users|))
    case GetUsers(_) => Effect(None, Users(s))
  }

  function Replay(s: State, events: seq<Event>): State
    decreases |events|
  {
    if events == [] then s else Replay(Apply(s, events[0]), events[1..])
  }

  function UserIds(events: seq<Event>): (ids: set<string>)
    ensures forall i :: 0 <= i < |events| ==> events[i].userId in ids
    ensures forall u :: u in ids ==> exists i :: 0 <= i < |events| && events[i].userId == u
  {
    set i | 0 <= i < |events| :: events[i].userId
  }

  /**
   * Replaying events gives the starting users plus every user named in
   * them, whatever their order or repetition: replicas that have seen the
   * same events agree.
   */
  lemma {:induction false} ReplayIsUnion(s: State, events: seq<Event>)
    ensures Replay(s, events).users == s.users + UserIds(events)
    decreases |events|
  {
    if events != [] {
      ReplayIsUnion(Apply(s, events[0]), events[1..]);
      assert UserIds(events) == {events[0].userId} + UserIds(events[1..]) by {
        forall u | u in UserIds(events) ensures u in {events[0].userId} + UserIds(events[1..]) {
          var i :| 0 <= i < |events| && events[i].userId == u;
          if i > 0 { assert events[1..][i - 1].userId == u; }
        }
      }
    }
  }

  /** The count never goes down, whatever events are applied. */
  lemma CountNeverDecreases(s: State, events: seq<Event>)
    ensures |Replay(s, events).users| >= |s.users|
    ensures s.users <= Replay(s, events).users
  {
    ReplayIsUnion(s, events);
    SubsetSize(s.users, s.users + UserIds(events));
  }

  lemma {:induction false} SubsetSize(a: set<string>, b: set<string>)
    requires a <= b
    ensures |a| <= |b|
    decreases |a|
  {
    if a != {} {
      var x :| x in a;
      SubsetSize(a - {x}, b - {x});
    }
  }
}

/**
 * The classic persistent actor: its state is a mutable list of event data
 * strings; a command persists an event numbered by the current count and
 * appends it, recovery replays events or installs a snapshot, and "snap"
 * saves an independent copy of the state.
 */
module PersistentActorExample {
  import opened Wrappers
  import JavaLang

  datatype Evt = Evt(data: string)

  /** `ExampleState`: owns its list of event data (the `ArrayList` is never shared). */
  class ExampleState {
    var events: seq<string>

    /** `new ExampleState()`: no events. */
    constructor ()
      ensures events == []
    {
      events := [];
    }

    /** `copy()`: a new object holding the same events in a list of its own. */
    method Copy() returns (c: ExampleState)
      ensures fresh(c)
      ensures c.events == events
    {
      c := new ExampleState();
      c.events := events;
    }

    /** `update(evt)`: the event's data goes at the end. */
    method Update(evt: Evt)
      modifies this
      ensures events == old(events) + [evt.data]
    {
      events := events + [evt.data];
    }

    function Size(): (n: nat)
      reads this
      ensures n == |events|
    {
      |events|
    }
  }

  /** The data of the event a command with data d yields when n events are stored. */
  function EventData(d: string, n: nat): (r: string)
    ensures |r| > |d| + 1
    ensures r[..|d|] == d && r[|d|] == '-'
    ensures r[|d| + 1..] == JavaLang.NatToString(n)
  {
    d + "-" + JavaLang.NatToString(n)
  }

  /** The events stored after the given commands' data, starting from no events. */
  function RunCommands(datas: seq<string>): (events: seq<string>)
    ensures |events| == |datas|
    decreases |datas|
  {
    if datas == [] then []
    else
      var prev := RunCommands(datas[..|datas| - 1]);
      prev + [EventData(datas[|datas| - 1], |prev|)]
  }

  /** The k-th command (from 0) of a fresh actor yields data followed by "-k". */
  lemma {:induction false} KthEventIsNumberedK(datas: seq<string>, k: nat)
    requires k < |datas|
    ensures RunCommands(datas)[k] == datas[k] + "-" + JavaLang.NatToString(k)
    decreases |datas|
  {
    var prefix := datas[..|datas| - 1];
    if k < |datas| - 1 {
      KthEventIsNumberedK(prefix, k);
      assert prefix[k] == datas[k];
    }
  }

  /** The messages the actor handles once running; anything else is unhandled. */
  datatype Message = Cmd(data: string) | Text(s: string) | OtherMessage

  /** The messages replayed during recovery. */
  datatype RecoveryMessage = RecoveredEvt(evt: Evt) | SnapshotOffer(snapshot: ExampleState) | OtherRecovery

  /** What handling one message did besides changing the state. */
  datatype Effect =
    | Published(evt: Evt)
    | SavedSnapshot(snapshot: ExampleState)
    | Printed(events: seq<string>)
    | Unhandled

  class ExamplePersistentActor {
    var state: ExampleState

    const PersistenceId: string := "sample-id-1"

    constructor ()
      ensures fresh(state)
      ensures state.events == []
    {
      state := new ExampleState();
    }

    /** `getNumEvents()`. */
    function NumEvents(): (n: nat)
      reads this, state
      ensures n == |state.events|
    {
      state.Size()
    }

    /**
     * `createReceiveRecover`: a replayed event is appended to the current
     * state; a snapshot offer makes the offered object the state.
     */
    method ReceiveRecover(m: RecoveryMessage)
      modifies state
      modifies this
      ensures m.RecoveredEvt? ==> state == old(state) && state.events == old(state.events) + [m.evt.data]
      ensures m.SnapshotOffer? ==> state == m.snapshot && state.events == old(m.snapshot.events)
      ensures m.OtherRecovery? ==> state == old(state) && state.events == old(state.events)
    {
      match m {
        case RecoveredEvt(e) => state.Update(e);
        case SnapshotOffer(snapshot) => state := snapshot;
        case OtherRecovery =>
      }
    }

    /**
     * `createReceive`: a command persists and applies the event numbered by
     * the current count, then publishes it; "snap" saves a fresh copy of the
     * state; "print" shows the events. Neither of the last two changes the
     * state, and any other message is unhandled.
     */
    method Receive(m: Message) returns (effect: Effect)
      modifies state
      ensures state == old(state)
      ensures m.Cmd? ==> state.events == old(state.events) + [EventData(m.data, |old(state.events)|)]
      ensures m.Cmd? ==> effect == Published(Evt(EventData(m.data, |old(state.events)|)))
      ensures !m.Cmd? ==> state.events == old(state.events)
      ensures m == Text("snap") ==>
        effect.SavedSnapshot? && fresh(effect.snapshot) && effect.snapshot.events == state.events
      ensures m == Text("print") ==> effect == Printed(state.events)
      ensures m.OtherMessage? || (m.Text? && m.s != "snap" && m.s != "print") ==> effect == Unhandled
    {
      match m {
        case Cmd(data) =>
          var evt := Evt(EventData(data, NumEvents()));
          state.Update(evt);
          effect := Published(evt);
        case Text(s) =>
          if s == "snap" {
            var copy := state.Copy();
            effect := SavedSnapshot(copy);
          } else if s == "print" {
            effect := Printed(state.events);
          } else {
            effect := Unhandled;
          }
        case OtherMessage =>
          effect := Unhandled;
      }
    }
  }

  /**
   * A snapshot taken by "snap" is not touched by the commands that follow:
   * the actor's state moves on, the saved copy keeps the events it had.
   */
  method SnapshotIsIndependent(actor: ExamplePersistentActor, d: string) returns (snapshot: ExampleState)
    modifies actor.state
    ensures snapshot.events == old(actor.state.events)
    ensures actor.state.events == old(actor.state.events) + [EventData(d, |old(actor.state.events)|)]
  {
    var saved := actor.Receive(Text("snap"));
    snapshot := saved.snapshot;
    var published := actor.Receive(Cmd(d));
  }
}

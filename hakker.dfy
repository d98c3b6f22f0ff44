/**
 * A dining hakker. Its behaviours are states; handling a message gives the
 * next state, the messages told to chopsticks and the message scheduled to
 * itself (with its delay in milliseconds). A message the behaviour has no
 * case for is unhandled and changes nothing.
 */
module Hakker {
  import opened Wrappers
  import opened Chopstick

  datatype HakkerMessage = Eat | Think | Answer(answer: ChopstickAnswer)

  /** The fixed part of a hakker: its name, its two chopsticks and its answer adapter. */
  datatype Hakker = Hakker(name: string, left: ChopstickRef, right: ChopstickRef, self: HakkerRef)

  datatype HakkerState =
    | Waiting
    | Thinking
    | Hungry
    | WaitForOtherChopstick(chopstickToWaitFor: ChopstickRef, takenChopstick: ChopstickRef)
    | Eating
    | FirstChopstickDenied

  datatype Order = Order(to: ChopstickRef, message: ChopstickMessage)

  datatype Scheduled = Scheduled(delayMillis: nat, message: HakkerMessage)

  datatype Reaction = Reaction(next: HakkerState, tells: seq<Order>, scheduled: Option<Scheduled>, handled: bool)

  const ThinkMillis := 5000
  const EatMillis := 5000
  const RetryMillis := 10

  /** `startThinking(d)`: Eat is scheduled after d and the hakker thinks. */
  function StartThinking(tells: seq<Order>, delayMillis: nat): Reaction
  {
    Reaction(Thinking, tells, Some(Scheduled(delayMillis, Eat)), true)
  }

  function Unhandled(s: HakkerState): Reaction
  {
    Reaction(s, [], None, false)
  }

  /**
   * The behaviours. In `hungry`, `waitForOtherChopstick` and
   * `firstChopstickDenied` the cases are tried in the order written, the
   * first matching guard winning.
   */
  function Receive(h: Hakker, s: HakkerState, m: HakkerMessage): (o: Reaction)
    ensures s.Waiting? && m.Think? ==> o == StartThinking([], ThinkMillis)
    ensures s.Thinking? && m.Eat? ==>
      o == Reaction(Hungry, [Order(h.left, Take(h.self)), Order(h.right, Take(h.self))], None, true)
    ensures s.Hungry? && m.Answer? ==>
      && (m.answer.IsTakenByChopstick(h.left) ==> o.next == WaitForOtherChopstick(h.right, h.left))
      && (m.answer.IsTakenByChopstick(h.right) && !m.answer.IsTakenByChopstick(h.left) ==>
            o.next == WaitForOtherChopstick(h.left, h.right))
      && (m.answer.IsBusy() ==> o.next == FirstChopstickDenied)
      && (!m.answer.IsBusy() && !m.answer.IsTakenByChopstick(h.left) && !m.answer.IsTakenByChopstick(h.right) ==>
            o == Unhandled(s))
      && o.tells == [] && o.scheduled.None?
    ensures s.WaitForOtherChopstick? && m.Answer? ==>
      && (m.answer.IsTakenByChopstick(s.chopstickToWaitFor) ==> o == Reaction(Eating, [], Some(Scheduled(EatMillis, Think)), true))
      && (m.answer.IsBusyChopstick(s.chopstickToWaitFor) ==>
            o == StartThinking([Order(s.takenChopstick, Put(h.self))], RetryMillis))
      && (m.answer.chopstick != s.chopstickToWaitFor ==> o == Unhandled(s))
    ensures s.Eating? && m.Think? ==>
      o == StartThinking([Order(h.left, Put(h.self)), Order(h.right, Put(h.self))], ThinkMillis)
    ensures s.FirstChopstickDenied? && m.Answer? ==>
      && (m.answer.IsTakenBy() ==> o == StartThinking([Order(m.answer.GetChopstick(), Put(h.self))], RetryMillis))
      && (m.answer.IsBusy() ==> o == StartThinking([], RetryMillis))
    ensures !o.handled ==> o == Unhandled(s)
  {
    match s
    case Waiting =>
      if m.Think? then StartThinking([], ThinkMillis) else Unhandled(s)
    case Thinking =>
      if m.Eat? then Reaction(Hungry, [Order(h.left, Take(h.self)), Order(h.right, Take(h.self))], None, true)
      else Unhandled(s)
    case Hungry =>
      if !m.Answer? then Unhandled(s)
      else if m.answer.IsTakenByChopstick(h.left) then Reaction(WaitForOtherChopstick(h.right, h.left), [], None, true)
      else if m.answer.IsTakenByChopstick(h.right) then Reaction(WaitForOtherChopstick(h.left, h.right), [], None, true)
      else if m.answer.IsBusy() then Reaction(FirstChopstickDenied, [], None, true)
      else Unhandled(s)
    case WaitForOtherChopstick(w, t) =>
      if !m.Answer? then Unhandled(s)
      else if m.answer.IsTakenByChopstick(w) then Reaction(Eating, [], Some(Scheduled(EatMillis, Think)), true)
      else if m.answer.IsBusyChopstick(w) then StartThinking([Order(t, Put(h.self))], RetryMillis)
      else Unhandled(s)
    case Eating =>
      if m.Think? then StartThinking([Order(h.left, Put(h.self)), Order(h.right, Put(h.self))], ThinkMillis)
      else Unhandled(s)
    case FirstChopstickDenied =>
      if !m.Answer? then Unhandled(s)
      else if m.answer.IsTakenBy() then StartThinking([Order(m.answer.GetChopstick(), Put(h.self))], RetryMillis)
      else if m.answer.IsBusy() then StartThinking([], RetryMillis)
      else Unhandled(s)
  }

  /** The chopsticks an outcome puts back. */
  function PutsBack(tells: seq<Order>): set<ChopstickRef>
  {
    set i | 0 <= i < |tells| && tells[i].message.Put? :: tells[i].to
  }

  /** The chopsticks held after a message: those answered Taken and handled, less those put back. */
  function NextHeld(held: set<ChopstickRef>, m: HakkerMessage, o: Reaction): set<ChopstickRef>
  {
    (if o.handled && m.Answer? && m.answer.Taken? then held + {m.answer.chopstick} else held) - PutsBack(o.tells)
  }

  /** The state and the chopsticks held after a sequence of messages. */
  function Run(h: Hakker, s: HakkerState, held: set<ChopstickRef>, ms: seq<HakkerMessage>): (HakkerState, set<ChopstickRef>)
    decreases |ms|
  {
    if ms == [] then (s, held)
    else
      var (prev, prevHeld) := Run(h, s, held, ms[..|ms| - 1]);
      var o := Receive(h, prev, ms[|ms| - 1]);
      (o.next, NextHeld(prevHeld, ms[|ms| - 1], o))
  }

  /** What a hakker holds in each of its states. */
  predicate Holding(h: Hakker, s: HakkerState, held: set<ChopstickRef>)
  {
    match s
    case WaitForOtherChopstick(w, t) => held == {t} && {w, t} == {h.left, h.right}
    case Eating => held == {h.left, h.right}
    case _ => held == {}
  }

  lemma ReceiveKeepsHolding(h: Hakker, s: HakkerState, held: set<ChopstickRef>, m: HakkerMessage)
    requires h.left != h.right
    requires Holding(h, s, held)
    ensures var o := Receive(h, s, m); Holding(h, o.next, NextHeld(held, m, o))
  {
    var o := Receive(h, s, m);
    if s.Eating? && m.Think? {
      assert o.tells[0].message.Put? && o.tells[1].message.Put?;
      assert PutsBack(o.tells) == {h.left, h.right};
    } else if o.handled && |o.tells| == 1 {
      assert o.tells[0].message.Put?;
      assert PutsBack(o.tells) == {o.tells[0].to};
    } else if s.Thinking? && m.Eat? {
      assert PutsBack(o.tells) == {};
    }
  }

  /**
   * A hakker with two different chopsticks eats only while it holds both:
   * from the waiting state, whatever the messages, eating means both
   * chopsticks were answered Taken and neither was put back since; waiting
   * for the other chopstick means holding exactly the first one.
   */
  lemma {:induction false} EatsOnlyWithBothChopsticks(h: Hakker, ms: seq<HakkerMessage>)
    requires h.left != h.right
    ensures var (s, held) := Run(h, Waiting, {}, ms); Holding(h, s, held)
    ensures Run(h, Waiting, {}, ms).0.Eating? ==> Run(h, Waiting, {}, ms).1 == {h.left, h.right}
    decreases |ms|
  {
    if ms != [] {
      EatsOnlyWithBothChopsticks(h, ms[..|ms| - 1]);
      var (prev, prevHeld) := Run(h, Waiting, {}, ms[..|ms| - 1]);
      ReceiveKeepsHolding(h, prev, prevHeld, ms[|ms| - 1]);
    }
  }

  /** Eating is entered only from waiting for the other chopstick, on that chopstick's Taken. */
  lemma EatingOnlyAfterOtherTaken(h: Hakker, s: HakkerState, m: HakkerMessage)
    requires !s.Eating? && Receive(h, s, m).next.Eating?
    ensures s.WaitForOtherChopstick? && m == Answer(Taken(s.chopstickToWaitFor))
  {
  }

  /** Waiting for the other chopstick is entered only from hungry, on a Taken of one's own chopstick. */
  lemma WaitingOnlyAfterFirstTaken(h: Hakker, s: HakkerState, m: HakkerMessage)
    requires !s.WaitForOtherChopstick? && Receive(h, s, m).next.WaitForOtherChopstick?
    ensures s.Hungry? && m.Answer? && m.answer.Taken?
    ensures Receive(h, s, m).next.takenChopstick == m.answer.chopstick
    ensures m.answer.chopstick == h.left || m.answer.chopstick == h.right
  {
  }
}

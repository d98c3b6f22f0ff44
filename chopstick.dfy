/**
 * A chopstick of the dining hakkers, the answers it gives and the
 * predicates hakkers ask of those answers. A behaviour is a state, and
 * handling a message gives the next state and the answer told, if any; a
 * message the behaviour has no case for is unhandled and changes nothing.
 */
module Chopstick {
  import opened Wrappers

  /** A chopstick actor; the five of a table are told apart by their index. */
  datatype ChopstickRef = ChopstickRef(id: nat)

  /**
   * The reference a hakker hands out in Take and Put: its message adapter
   * for chopstick answers, one per hakker actor.
   */
  datatype HakkerRef = HakkerRef(id: nat)

  datatype ChopstickMessage = Take(hakker: HakkerRef) | Put(hakker: HakkerRef)

  datatype ChopstickAnswer = Taken(chopstick: ChopstickRef) | Busy(chopstick: ChopstickRef)
  {
    /** `getChopstick()`. */
    function GetChopstick(): (c: ChopstickRef)
      ensures c == chopstick
    {
      match this
      case Taken(c) => c
      case Busy(c) => c
    }

    /** `isTakenBy()`: only a Taken overrides the default false. */
    predicate IsTakenBy() { Taken? }

    /** `isTakenBy(c)`. */
    predicate IsTakenByChopstick(c: ChopstickRef) { Taken? && chopstick == c }

    /** `isBusy()`: only a Busy overrides the default false. */
    predicate IsBusy() { Busy? }

    /** `isBusy(c)`. */
    predicate IsBusyChopstick(c: ChopstickRef) { Busy? && chopstick == c }
  }

  /** The four predicates: an answer is either taken or busy, and names exactly its own chopstick. */
  lemma AnswerPredicates(a: ChopstickAnswer, c: ChopstickRef)
    ensures a.IsTakenBy() != a.IsBusy()
    ensures a.IsTakenByChopstick(c) <==> a.IsTakenBy() && a.GetChopstick() == c
    ensures a.IsBusyChopstick(c) <==> a.IsBusy() && a.GetChopstick() == c
    ensures !(a.IsTakenByChopstick(c) && a.IsBusyChopstick(c))
  {
  }

  datatype ChopstickState = Available | TakenBy(hakker: HakkerRef)

  /** `create()`: a chopstick starts available. */
  const Initial := Available

  /** The answer told to a hakker. */
  datatype Tell = Tell(to: HakkerRef, answer: ChopstickAnswer)

  datatype Outcome = Outcome(next: ChopstickState, tell: Option<Tell>, handled: bool)

  /**
   * `available()` and `takenBy(h)`. An available chopstick answers Taken and
   * becomes the taker's; a taken one answers Busy to everyone, its holder
   * included, and becomes available again only on its holder's Put.
   */
  function Receive(self: ChopstickRef, s: ChopstickState, m: ChopstickMessage): (o: Outcome)
    ensures m.Take? && s.Available? ==> o == Outcome(TakenBy(m.hakker), Some(Tell(m.hakker, Taken(self))), true)
    ensures m.Take? && s.TakenBy? ==> o == Outcome(s, Some(Tell(m.hakker, Busy(self))), true)
    ensures m.Put? ==> o.tell.None?
    ensures m.Put? && s.TakenBy? && m.hakker == s.hakker ==> o == Outcome(Available, None, true)
    ensures m.Put? && !(s.TakenBy? && m.hakker == s.hakker) ==> o == Outcome(s, None, false)
  {
    match (s, m)
    case (Available, Take(h)) => Outcome(TakenBy(h), Some(Tell(h, Taken(self))), true)
    case (TakenBy(_), Take(h)) => Outcome(s, Some(Tell(h, Busy(self))), true)
    case (TakenBy(holder), Put(h)) =>
      if h == holder then Outcome(Available, None, true) else Outcome(s, None, false)
    case (Available, Put(_)) => Outcome(s, None, false)
  }

  /** The state after a sequence of messages, with how many Taken answers and accepted Puts it produced. */
  function Run(self: ChopstickRef, s: ChopstickState, ms: seq<ChopstickMessage>): (r: (ChopstickState, nat, nat))
    decreases |ms|
  {
    if ms == [] then (s, 0, 0)
    else
      var (prev, taken, put) := Run(self, s, ms[..|ms| - 1]);
      var m := ms[|ms| - 1];
      var o := Receive(self, prev, m);
      (o.next,
       taken + (if o.tell.Some? && o.tell.value.answer.Taken? then 1 else 0),
       put + (if m.Put? && o.handled then 1 else 0))
  }

  /**
   * At most one holder: from the initial state, Taken answers and accepted
   * Puts alternate, so there is never more than one Taken outstanding, and
   * the chopstick is taken exactly when one is.
   */
  lemma {:induction false} TakenAndPutAlternate(self: ChopstickRef, ms: seq<ChopstickMessage>)
    ensures var (s, taken, put) := Run(self, Initial, ms);
      taken == put + (if s.TakenBy? then 1 else 0)
    decreases |ms|
  {
    if ms != [] {
      TakenAndPutAlternate(self, ms[..|ms| - 1]);
    }
  }

  /** The hakker a Taken answer goes to is the one that then holds the chopstick. */
  lemma TakenGoesToHolder(self: ChopstickRef, s: ChopstickState, m: ChopstickMessage)
    requires Receive(self, s, m).tell.Some? && Receive(self, s, m).tell.value.answer.Taken?
    ensures s.Available? && m.Take?
    ensures Receive(self, s, m).next == TakenBy(Receive(self, s, m).tell.value.to)
  {
  }
}

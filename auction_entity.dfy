/**
 * The replicated auction entity. Bids are registered as events on any
 * replica; the event handler keeps the highest bid under the `isHigherBid`
 * order (offer, then earlier timestamp, then replica id), and the auction
 * finishes once every replica has recorded AuctionFinished, after which
 * the responsible replica decides the winner.
 *
 * The replication context (own replica id, all replica ids, clock,
 * recovery flag) is an input; instants are epoch milliseconds and replica
 * ids are their id strings. Messages the entity tells itself are outputs.
 */
module AuctionEntity {
  import JavaLang

  type Instant = int

  const R1: string := "R1"
  const R2: string := "R2"
  const AllReplicas: set<string> := {R1, R2}

  datatype Bid = Bid(bidder: string, offer: int, timestamp: Instant, originReplica: string)

  /**
   * `isHigherBid(first, second)`: a larger offer wins; for equal offers the
   * earlier bid wins; for equal offers and timestamps the smaller replica id
   * (String.compareTo) wins.
   */
  predicate IsHigherBid(first: Bid, second: Bid)
  {
    first.offer > second.offer
    || (first.offer == second.offer && first.timestamp < second.timestamp)
    || (first.offer == second.offer && first.timestamp == second.timestamp
        && JavaLang.Less(first.originReplica, second.originReplica))
  }

  /** The part of a bid the order looks at; the bidder's name plays no part. */
  predicate SameRank(a: Bid, b: Bid)
  {
    a.offer == b.offer && a.timestamp == b.timestamp && a.originReplica == b.originReplica
  }

  lemma IsHigherBidIrreflexive(a: Bid)
    ensures !IsHigherBid(a, a)
  {
    JavaLang.LessIrreflexive(a.originReplica);
  }

  lemma IsHigherBidAsymmetric(a: Bid, b: Bid)
    requires IsHigherBid(a, b)
    ensures !IsHigherBid(b, a)
  {
    if a.offer == b.offer && a.timestamp == b.timestamp {
      JavaLang.LessAsymmetric(a.originReplica, b.originReplica);
    }
  }

  lemma IsHigherBidTransitive(a: Bid, b: Bid, c: Bid)
    requires IsHigherBid(a, b) && IsHigherBid(b, c)
    ensures IsHigherBid(a, c)
  {
    if a.offer == b.offer == c.offer && a.timestamp == b.timestamp == c.timestamp {
      JavaLang.LessTransitive(a.originReplica, b.originReplica, c.originReplica);
    }
  }

  /** Two bids that differ in offer, timestamp or replica are ordered one way, and only one way. */
  lemma IsHigherBidTrichotomy(a: Bid, b: Bid)
    ensures SameRank(a, b) ==> !IsHigherBid(a, b) && !IsHigherBid(b, a)
    ensures !SameRank(a, b) ==> (IsHigherBid(a, b) <==> !IsHigherBid(b, a))
  {
    if SameRank(a, b) {
      JavaLang.LessIrreflexive(a.originReplica);
    } else {
      if a.offer == b.offer && a.timestamp == b.timestamp {
        JavaLang.LessTotal(a.originReplica, b.originReplica);
      }
      if IsHigherBid(a, b) { IsHigherBidAsymmetric(a, b); }
    }
  }

  datatype AuctionState = AuctionState(
    stillRunning: bool,
    highestBid: Bid,
    highestCounterOffer: int,
    finishedAtDc: set<string>)
  {
    /** The bid becomes the highest; the previous highest offer is kept as the counter-offer. */
    function WithNewHighestBid(bid: Bid): AuctionState
    {
      AuctionState(stillRunning, bid, highestBid.offer, finishedAtDc)
    }

    /** The highest bid stays; the counter-offer rises to the bid's offer if that is larger. */
    function WithTooLowBid(bid: Bid): AuctionState
    {
      AuctionState(stillRunning, highestBid, Max(highestCounterOffer, bid.offer), finishedAtDc)
    }

    function AddFinishedAtReplica(replica: string): AuctionState
    {
      AuctionState(false, highestBid, highestCounterOffer, finishedAtDc + {replica})
    }

    function Close(): AuctionState
    {
      AuctionState(false, highestBid, highestCounterOffer, {})
    }

    predicate IsClosed()
    {
      !stillRunning && finishedAtDc == {}
    }
  }

  function Max(a: int, b: int): int { if a < b then b else a }

  /** `emptyState()`: running, the initial bid highest, its offer the counter-offer, no replica finished. */
  function EmptyState(initialBid: Bid): (s: AuctionState)
    ensures s.stillRunning && !s.IsClosed()
    ensures s.highestBid == initialBid && s.highestCounterOffer == initialBid.offer
    ensures s.finishedAtDc == {}
  {
    AuctionState(true, initialBid, initialBid.offer, {})
  }

  /** What the state transformers promise. */
  lemma StateTransformers(s: AuctionState, bid: Bid, replica: string)
    ensures var t := s.WithNewHighestBid(bid);
      t.highestBid == bid && t.highestCounterOffer == s.highestBid.offer
      && t.stillRunning == s.stillRunning && t.finishedAtDc == s.finishedAtDc
    ensures var t := s.WithTooLowBid(bid);
      t.highestBid == s.highestBid && t.highestCounterOffer >= s.highestCounterOffer
      && t.highestCounterOffer >= bid.offer
      && (t.highestCounterOffer == s.highestCounterOffer || t.highestCounterOffer == bid.offer)
      && t.stillRunning == s.stillRunning && t.finishedAtDc == s.finishedAtDc
    ensures var t := s.AddFinishedAtReplica(replica);
      !t.stillRunning && t.finishedAtDc == s.finishedAtDc + {replica} && !t.IsClosed()
      && t.highestBid == s.highestBid
    ensures s.Close().IsClosed() && s.Close().highestBid == s.highestBid
    ensures s.IsClosed() <==> !s.stillRunning && |s.finishedAtDc| == 0
  {
  }

  datatype Command = Finish | OfferBid(bidder: string, offer: int) | GetHighestBid | IsClosed | Close

  datatype Event =
    | BidRegistered(bid: Bid)
    | AuctionFinished(atReplica: string)
    | WinnerDecided(atReplica: string, winningBid: Bid, amount: int)

  /** The replication context the handlers read. */
  datatype Replication = Replication(
    replicaId: string,
    allReplicas: set<string>,
    currentTimeMillis: Instant,
    recoveryRunning: bool)

  datatype Answer = HighestBid(bid: Bid) | Closed(closed: bool)

  /** Persist one event, answer the sender with no event, or leave the command unhandled. */
  datatype Effect = Persist(event: Event) | Reply(answer: Answer) | Unhandled

  /** The command handler: a running auction, then every other state. */
  function HandleCommand(ctx: Replication, s: AuctionState, cmd: Command): (r: Effect)
    ensures cmd.GetHighestBid? ==> r == Reply(HighestBid(s.highestBid))
    ensures cmd.Finish? ==> r == Persist(AuctionFinished(ctx.replicaId))
    ensures cmd.OfferBid? && s.stillRunning ==>
      r == Persist(BidRegistered(Bid(cmd.bidder, cmd.offer, ctx.currentTimeMillis, ctx.replicaId)))
    ensures cmd.OfferBid? && !s.stillRunning ==> r == Unhandled
    ensures cmd.Close? && s.stillRunning ==> r == Unhandled
    ensures cmd.Close? && !s.stillRunning ==>
      r == Persist(WinnerDecided(ctx.replicaId, s.highestBid, s.highestCounterOffer))
    ensures r.Unhandled? <==> (cmd.OfferBid? && !s.stillRunning) || (cmd.Close? && s.stillRunning)
    ensures cmd.IsClosed? ==> r == Reply(Closed(s.IsClosed()))
  {
    if s.stillRunning then
      match cmd
      case OfferBid(bidder, offer) =>
        Persist(BidRegistered(Bid(bidder, offer, ctx.currentTimeMillis, ctx.replicaId)))
      case GetHighestBid => Reply(HighestBid(s.highestBid))
      case Finish => Persist(AuctionFinished(ctx.replicaId))
      case Close => Unhandled
      case IsClosed => Reply(Closed(false))
    else
      match cmd
      case OfferBid(_, _) => Unhandled
      case GetHighestBid => Reply(HighestBid(s.highestBid))
      case Finish => Persist(AuctionFinished(ctx.replicaId))
      case Close => Persist(WinnerDecided(ctx.replicaId, s.highestBid, s.highestCounterOffer))
      case IsClosed => Reply(Closed(s.IsClosed()))
  }

  /** The state the event handler returns. */
  function Apply(s: AuctionState, e: Event): AuctionState
  {
    match e
    case BidRegistered(bid) =>
      if IsHigherBid(bid, s.highestBid) then s.WithNewHighestBid(bid) else s.WithTooLowBid(bid)
    case AuctionFinished(atReplica) =>
      if s.IsClosed() then s else s.AddFinishedAtReplica(atReplica)
    case WinnerDecided(_, _, _) => s.Close()
  }

  /**
   * `shouldClose`: this replica is the one responsible for closing, the
   * auction is not closed yet, and every replica has recorded its finish.
   */
  predicate ShouldClose(ctx: Replication, responsibleForClosing: bool, s: AuctionState)
  {
    responsibleForClosing && !s.IsClosed() && ctx.allReplicas == s.finishedAtDc
  }

  /**
   * `eventTriggers`: once this replica's own finish is recorded, ask for
   * Close if this replica should close; before that, finish here too.
   */
  function EventTriggers(ctx: Replication, responsibleForClosing: bool, newState: AuctionState): (out: seq<Command>)
    ensures |out| <= 1
    ensures ctx.replicaId !in newState.finishedAtDc ==> out == [Finish]
    ensures out == [Close] <==> ctx.replicaId in newState.finishedAtDc && ShouldClose(ctx, responsibleForClosing, newState)
    ensures ctx.replicaId in newState.finishedAtDc && !ShouldClose(ctx, responsibleForClosing, newState) ==> out == []
  {
    if ctx.replicaId in newState.finishedAtDc then
      if ShouldClose(ctx, responsibleForClosing, newState) then [Close] else []
    else [Finish]
  }

  /** The commands the event handler tells its own entity while applying `e`. */
  function SelfMessages(ctx: Replication, responsibleForClosing: bool, s: AuctionState, e: Event): (out: seq<Command>)
    ensures out != [] ==> e.AuctionFinished? && !s.IsClosed() && !ctx.recoveryRunning
    ensures e.AuctionFinished? && !s.IsClosed() && !ctx.recoveryRunning ==>
      out == EventTriggers(ctx, responsibleForClosing, Apply(s, e))
  {
    match e
    case AuctionFinished(_) =>
      if s.IsClosed() || ctx.recoveryRunning then []
      else EventTriggers(ctx, responsibleForClosing, Apply(s, e))
    case _ => []
  }

  /**
   * `onRecoveryCompleted`: tell Close at once if this replica should close,
   * and start the Finish timer for the time left until `closingAt`.
   */
  function OnRecoveryCompleted(ctx: Replication, responsibleForClosing: bool, closingAt: Instant, s: AuctionState)
    : (r: (seq<Command>, int))
    ensures r.0 == [Close] <==> ShouldClose(ctx, responsibleForClosing, s)
    ensures r.0 == [] <==> !ShouldClose(ctx, responsibleForClosing, s)
    ensures r.1 + ctx.currentTimeMillis == closingAt
  {
    (if ShouldClose(ctx, responsibleForClosing, s) then [Close] else [], closingAt - ctx.currentTimeMillis)
  }

  /**
   * BidRegistered never lowers the highest bid, and the registered bid is
   * never higher than the highest bid afterwards.
   */
  lemma BidRegisteredKeepsMaximum(s: AuctionState, bid: Bid)
    ensures var t := Apply(s, BidRegistered(bid));
      !IsHigherBid(s.highestBid, t.highestBid) && !IsHigherBid(bid, t.highestBid)
      && (t.highestBid == s.highestBid || t.highestBid == bid)
  {
    var t := Apply(s, BidRegistered(bid));
    IsHigherBidIrreflexive(s.highestBid);
    IsHigherBidIrreflexive(bid);
    if IsHigherBid(bid, s.highestBid) {
      IsHigherBidAsymmetric(bid, s.highestBid);
    }
  }

  /** AuctionFinished on a closed auction changes nothing; WinnerDecided always closes. */
  lemma FinishAndDecideRules(s: AuctionState, replica: string, winner: Bid, amount: int)
    ensures s.IsClosed() ==> Apply(s, AuctionFinished(replica)) == s
    ensures !s.IsClosed() ==>
      Apply(s, AuctionFinished(replica)).finishedAtDc == s.finishedAtDc + {replica}
      && !Apply(s, AuctionFinished(replica)).stillRunning
    ensures Apply(s, WinnerDecided(replica, winner, amount)).IsClosed()
  {
  }

  /** The state after a sequence of events. */
  function Replay(s: AuctionState, events: seq<Event>): AuctionState
    decreases |events|
  {
    if events == [] then s else Replay(Apply(s, events[0]), events[1..])
  }

  /** Whether `b` was registered by one of the events. */
  predicate Registered(events: seq<Event>, b: Bid)
  {
    exists i :: 0 <= i < |events| && events[i] == BidRegistered(b)
  }

  /**
   * After any sequence of events the highest bid is a maximum: no bid
   * registered along the way, and not the bid held at the start, is higher.
   */
  lemma {:induction false} HighestBidIsMaximum(s: AuctionState, events: seq<Event>, b: Bid)
    requires Registered(events, b) || b == s.highestBid
    ensures !IsHigherBid(b, Replay(s, events).highestBid)
    decreases |events|
  {
    if events == [] {
      IsHigherBidIrreflexive(b);
    } else {
      var t := Apply(s, events[0]);
      var rest := events[1..];
      if b == s.highestBid || events[0] == BidRegistered(b) {
        assert !IsHigherBid(b, t.highestBid) by {
          if events[0].BidRegistered? {
            BidRegisteredKeepsMaximum(s, events[0].bid);
          } else {
            IsHigherBidIrreflexive(b);
          }
        }
        HighestBidIsMaximum(t, rest, t.highestBid);
        NotHigherTransitive(b, t.highestBid, Replay(t, rest).highestBid);
      } else {
        var i :| 0 <= i < |events| && events[i] == BidRegistered(b);
        assert rest[i - 1] == BidRegistered(b);
        HighestBidIsMaximum(t, rest, b);
      }
    }
  }

  /** "Not higher than" is transitive: the bids form a total preorder. */
  lemma NotHigherTransitive(a: Bid, b: Bid, c: Bid)
    requires !IsHigherBid(a, b) && !IsHigherBid(b, c)
    ensures !IsHigherBid(a, c)
  {
    if IsHigherBid(a, c) {
      IsHigherBidTrichotomy(a, b);
      if !SameRank(a, b) {
        IsHigherBidTransitive(b, a, c);
      }
    }
  }

  /** The counter-offer never exceeds the highest offer, whatever events arrive. */
  lemma {:induction false} CounterOfferBelowHighest(s: AuctionState, events: seq<Event>)
    requires s.highestCounterOffer <= s.highestBid.offer
    ensures Replay(s, events).highestCounterOffer <= Replay(s, events).highestBid.offer
    decreases |events|
  {
    if events != [] {
      CounterOfferBelowHighest(Apply(s, events[0]), events[1..]);
    }
  }

  /** A finished auction never runs again, and a closed one stays closed. */
  lemma {:induction false} FinishIsPermanent(s: AuctionState, events: seq<Event>)
    ensures !s.stillRunning ==> !Replay(s, events).stillRunning
    ensures s.IsClosed() ==> Replay(s, events).IsClosed()
    decreases |events|
  {
    if events != [] {
      FinishIsPermanent(Apply(s, events[0]), events[1..]);
    }
  }
}

/**
 * The minion of the maze-runner samples (the same `Minion` in the vavr and
 * the javaslang sample, each over its own maze). It walks by sending itself
 * the next command: a Move to a legal cell records the previous position
 * and asks the maze for a next cell; anything else makes it Stuck, and
 * Stuck reports the walk to the parent and stops the minion. The shuffled
 * direction order the maze uses for a step is an input.
 */
module Minion {
  import opened Wrappers
  import opened MazeTranslation
  import opened Maze

  datatype Command = Move(to: Option<Coords>) | Stuck

  /** The report to the parent: where the minion ended and where it had been. */
  datatype Stopped = Stopped(at: Option<Coords>, visited: seq<Coords>)

  /** The command sent to self and the report told to the parent, or the exception thrown. */
  datatype Reaction = Reaction(next: Option<Command>, toParent: Option<Stopped>) | Failed(error: string)

  /** `pos` (null until the first legal move), `visited`, and whether the actor was stopped. */
  datatype MinionState = MinionState(pos: Option<Coords>, visited: seq<Coords>, stopped: bool)

  const Fresh := MinionState(None, [], false)

  /** The cells walked so far, the current one last. */
  function Path(s: MinionState): seq<Coords>
  {
    s.visited + (if s.pos.Some? then [s.pos.value] else [])
  }

  /** A move the maze can test: `isLegal` on a cell outside the layout throws. */
  predicate Testable(maze: Maze, m: Command)
  {
    m.Move? && m.to.Some? ==> maze.InBounds(m.to.value)
  }

  /**
   * `onReceive`, on values. The cases are tried in order: a Move to a legal
   * cell, a Move to a visited cell, any other Move to a cell, a Move to
   * nowhere, Stuck. The three Stuck-making Move cases are one here. A
   * stopped minion no longer processes messages. On a legal cell the inner
   * match's second case is an argument of `of`, so `legalFrom` runs before
   * the finish test, and its exception escapes even at the finish.
   */
  function Step(maze: Maze, s: MinionState, m: Command, order: seq<Translation>): (r: (Reaction, MinionState))
    requires maze.Walled() && Testable(maze, m)
    ensures s.stopped ==> r == (Reaction(None, None), s)
    ensures !s.stopped && m.Move? && m.to.Some? && maze.IsLegal(m.to.value) ==>
      && maze.Interior(m.to.value)
      && r.1 == MinionState(Some(m.to.value), Path(s), false)
      && (r.0.Reaction? ==> r.0.toParent.None? && r.0.next.Some?)
    ensures !s.stopped && m.Move? && m.to.Some? && maze.IsLegal(m.to.value) && maze.LegalFrom(m.to.value, order).Err? ==>
      r.0 == Failed(maze.LegalFrom(m.to.value, order).error)
    ensures !s.stopped && m.Move? && m.to.Some? && maze.IsLegal(m.to.value) && maze.LegalFrom(m.to.value, order).Ok? ==>
      r.0 == Reaction(Some(if maze.IsFinish(m.to.value) then Stuck else Move(maze.LegalFrom(m.to.value, order).value)), None)
    ensures !s.stopped && m.Move? && !(m.to.Some? && maze.IsLegal(m.to.value)) ==>
      r == (Reaction(Some(Stuck), None), s)
    ensures !s.stopped && m.Stuck? ==>
      r == (Reaction(None, Some(Stopped(s.pos, s.visited))), s.(stopped := true))
  {
    if s.stopped then (Reaction(None, None), s)
    else
      match m
      case Move(Some(c)) =>
        if maze.IsLegal(c) then
          var s' := MinionState(Some(c), Path(s), false);
          match maze.LegalFrom(c, order)
          case Err(e) => (Failed(e), s')
          case Ok(next) =>
            if maze.IsFinish(c) then (Reaction(Some(Stuck), None), s')
            else (Reaction(Some(Move(next)), None), s')
        else (Reaction(Some(Stuck), None), s)
      case Move(None) => (Reaction(Some(Stuck), None), s)
      case Stuck => (Reaction(None, Some(Stopped(s.pos, s.visited))), s.(stopped := true))
  }

  /** Whatever the minion sends itself is again a move the maze can test. */
  lemma NextIsTestable(maze: Maze, s: MinionState, m: Command, order: seq<Translation>)
    requires maze.Walled() && Testable(maze, m)
    ensures var (r, _) := Step(maze, s, m, order);
      r.Reaction? && r.next.Some? ==> Testable(maze, r.next.value)
  {
  }

  /**
   * The walk a minion makes on its own: each command it sends itself is
   * handled next, with the next shuffled order, until it sends nothing.
   */
  function Walk(maze: Maze, s: MinionState, m: Command, orders: seq<seq<Translation>>): MinionState
    requires maze.Walled() && Testable(maze, m)
    decreases |orders|
  {
    if orders == [] then s
    else
      var (r, s') := Step(maze, s, m, orders[0]);
      NextIsTestable(maze, s, m, orders[0]);
      if r.Reaction? && r.next.Some? then Walk(maze, s', r.next.value, orders[1..]) else s'
  }

  predicate Adjacent(a: Coords, b: Coords)
  {
    exists t :: b == Translate(a, t)
  }

  /** A path of legal cells, each a neighbour of the one before. */
  predicate IsPath(maze: Maze, p: seq<Coords>)
  {
    && (forall i :: 0 <= i < |p| ==> maze.InBounds(p[i]) && maze.IsLegal(p[i]))
    && (forall i :: 0 <= i < |p| - 1 ==> Adjacent(p[i], p[i + 1]))
  }

  /** The next move of a walk continues from where the minion stands. */
  predicate Continues(s: MinionState, m: Command)
  {
    m.Move? && m.to.Some? && s.pos.Some? ==> Adjacent(s.pos.value, m.to.value)
  }

  lemma StepExtendsPath(maze: Maze, s: MinionState, m: Command, order: seq<Translation>)
    requires maze.Walled() && Testable(maze, m)
    requires IsPath(maze, Path(s)) && Continues(s, m) && (s.pos.None? ==> s.visited == [])
    ensures var (r, s') := Step(maze, s, m, order);
      && IsPath(maze, Path(s')) && (s'.pos.None? ==> s'.visited == [])
      && (r.Reaction? && r.next.Some? ==> Continues(s', r.next.value))
  {
    var (r, s') := Step(maze, s, m, order);
    if !s.stopped && m.Move? && m.to.Some? && maze.IsLegal(m.to.value) {
      var c := m.to.value;
      assert Path(s') == Path(s) + [c];
      if s.pos.Some? {
        assert Path(s)[|Path(s)| - 1] == s.pos.value;
      }
      if !maze.IsFinish(c) {
        var found := maze.LegalFrom(c, order);
        if found.Ok? && found.value.Some? {
          var t :| t in order && found.value.value == Translate(c, t) && maze.IsLegal(Translate(c, t));
          assert Adjacent(c, found.value.value);
        }
      }
    }
  }

  /**
   * A minion started with a Move to a cell of the maze walks a path: every
   * cell it has stood on is legal, and each is a neighbour of the previous.
   */
  lemma {:induction false} WalkIsAPath(maze: Maze, s: MinionState, m: Command, orders: seq<seq<Translation>>)
    requires maze.Walled() && Testable(maze, m)
    requires IsPath(maze, Path(s)) && Continues(s, m) && (s.pos.None? ==> s.visited == [])
    ensures IsPath(maze, Path(Walk(maze, s, m, orders)))
    decreases |orders|
  {
    if orders != [] {
      var (r, s') := Step(maze, s, m, orders[0]);
      StepExtendsPath(maze, s, m, orders[0]);
      NextIsTestable(maze, s, m, orders[0]);
      if r.Reaction? && r.next.Some? {
        WalkIsAPath(maze, s', r.next.value, orders[1..]);
      }
    }
  }

  /**
   * In the javaslang sample's stub maze a Move to a cell throws: the eager
   * `legalFrom` always fails, so no Stuck is sent and nothing is reported.
   */
  lemma StubMoveFails(s: MinionState, c: Coords, order: seq<Translation>)
    requires IsOrder(order) && !s.stopped
    ensures Stub.Walled()
    ensures Step(Stub, s, Move(Some(c)), order).0.Failed?
  {
    StubLegalFromAlwaysThrows(c, order);
  }

  /**
   * So a javaslang minion's walk ends after its first move, on that cell,
   * without ever being stopped: it never sends its report to the master.
   */
  lemma StubWalkNeverReports(c: Coords, orders: seq<seq<Translation>>)
    requires |orders| >= 1 && forall i :: 0 <= i < |orders| ==> IsOrder(orders[i])
    ensures Stub.Walled()
    ensures Walk(Stub, Fresh, Move(Some(c)), orders) == MinionState(Some(c), [], false)
  {
    StubMoveFails(Fresh, c, orders[0]);
  }

  class MinionActor {
    const maze: Maze
    var pos: Option<Coords>
    var visited: seq<Coords>
    var stopped: bool

    function Value(): MinionState
      reads this
    {
      MinionState(pos, visited, stopped)
    }

    constructor (maze: Maze)
      ensures this.maze == maze && Value() == Fresh
    {
      this.maze := maze;
      pos := None;
      visited := [];
      stopped := false;
    }

    /** `onReceive`: the fields change as `Step` says. */
    method OnReceive(m: Command, order: seq<Translation>) returns (r: Reaction)
      requires maze.Walled() && Testable(maze, m)
      modifies this
      ensures (r, Value()) == Step(maze, old(Value()), m, order)
    {
      if stopped {
        r := Reaction(None, None);
        return;
      }
      match m {
        case Move(Some(c)) =>
          if maze.IsLegal(c) {
            ghost var before := Value();
            if pos.Some? {
              visited := visited + [pos.value];
            }
            pos := Some(c);
            assert Value() == MinionState(Some(c), Path(before), false);
            var next := maze.LegalFrom(c, order);
            if next.Err? {
              r := Failed(next.error);
            } else if maze.IsFinish(c) {
              r := Reaction(Some(Stuck), None);
            } else {
              r := Reaction(Some(Move(next.value)), None);
            }
          } else {
            r := Reaction(Some(Stuck), None);
          }
        case Move(None) =>
          r := Reaction(Some(Stuck), None);
        case Stuck =>
          r := Reaction(None, Some(Stopped(pos, visited)));
          stopped := true;
      }
    }
  }
}

/**
 * The master of the maze-runner samples (the same `Master` in the vavr and
 * the javaslang sample): Start spawns minions, each sent a first Move to
 * cell (1, 1); every Stopped report is put in front of `results`; and
 * GetResults answers the current results.
 */
module Master {
  import opened Wrappers
  import opened MazeTranslation
  import opened Minion

  const StartCell := Coords(1, 1)

  datatype Message = Start(count: int) | StoppedReport(report: Stopped) | GetResults

  class MasterActor {
    var results: seq<Stopped>

    constructor ()
      ensures results == []
    {
      results := [];
    }

    /** Start(n): `Stream.range(0, n)` spawns n minions (none if n <= 0), each told Move(Some(Coords(1, 1))). */
    method OnStart(count: int) returns (firstMoves: seq<Command>)
      ensures |firstMoves| == (if count > 0 then count else 0)
      ensures forall i :: 0 <= i < |firstMoves| ==> firstMoves[i] == Move(Some(StartCell))
    {
      firstMoves := [];
      var c := 0;
      while c < count
        invariant 0 <= c && (count > 0 ==> c <= count) && (count <= 0 ==> c == 0) && |firstMoves| == c
        invariant forall i :: 0 <= i < c ==> firstMoves[i] == Move(Some(StartCell))
        decreases count - c
      {
        firstMoves := firstMoves + [Move(Some(StartCell))];
        c := c + 1;
      }
    }

    /** Stopped: the report goes in front. */
    method OnStopped(report: Stopped)
      modifies this
      ensures results == [report] + old(results)
    {
      results := [report] + results;
    }

    /** GetResults: the results, unchanged, told to the sender. */
    method OnGetResults() returns (reply: seq<Stopped>)
      ensures reply == results
    {
      reply := results;
    }

    /** `onReceive`: the minions' first moves, the reply to the sender, or neither. */
    method OnReceive(m: Message) returns (firstMoves: seq<Command>, reply: Option<seq<Stopped>>)
      modifies this
      ensures m.Start? ==>
        results == old(results) && reply.None? && |firstMoves| == (if m.count > 0 then m.count else 0)
        && forall i :: 0 <= i < |firstMoves| ==> firstMoves[i] == Move(Some(StartCell))
      ensures m.StoppedReport? ==> results == [m.report] + old(results) && firstMoves == [] && reply.None?
      ensures m.GetResults? ==> results == old(results) && firstMoves == [] && reply == Some(results)
    {
      match m {
        case Start(count) =>
          firstMoves := OnStart(count);
          reply := None;
        case StoppedReport(report) =>
          OnStopped(report);
          firstMoves := [];
          reply := None;
        case GetResults =>
          var r := OnGetResults();
          firstMoves := [];
          reply := Some(r);
      }
    }
  }
}

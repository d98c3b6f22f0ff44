/**
 * The table of the typed dining hakkers: five chopsticks in an array, five
 * named hakkers, hakker i between chopsticks i and (i + 1) % 5, and one
 * Think told to each hakker to start. Spawning is modelled by references
 * that carry the index they were created under.
 */
module DiningHakkersTyped {
  import opened Chopstick
  import opened Hakker

  const Seats := 5

  const Names: seq<string> := ["Ghosh", "Boner", "Klang", "Krasser", "Manie"]

  /** A `tell` of the start signal to a hakker. */
  datatype Start = Start(to: HakkerRef, message: HakkerMessage)

  function LeftOf(i: nat): nat { i }

  function RightOf(i: nat): nat { (i + 1) % Seats }

  /** `mainBehavior`: fill the chopstick array, seat the hakkers, then tell each of them Think. */
  method MainBehavior() returns (chopsticks: array<ChopstickRef>, hakkers: seq<Hakker>, starts: seq<Start>)
    ensures fresh(chopsticks) && chopsticks.Length == Seats
    ensures forall i :: 0 <= i < Seats ==> chopsticks[i] == ChopstickRef(i)
    ensures |hakkers| == Seats
    ensures forall i :: 0 <= i < Seats ==>
      hakkers[i] == Hakker(Names[i], chopsticks[LeftOf(i)], chopsticks[RightOf(i)], HakkerRef(i))
    ensures |starts| == Seats
    ensures forall i :: 0 <= i < Seats ==> starts[i] == Start(hakkers[i].self, Think)
  {
    chopsticks := new ChopstickRef[Seats];
    for i := 0 to Seats
      invariant forall j :: 0 <= j < i ==> chopsticks[j] == ChopstickRef(j)
    {
      chopsticks[i] := ChopstickRef(i);
    }
    hakkers := [];
    var i := 0;
    for k := 0 to |Names|
      invariant i == k && |hakkers| == k
      invariant forall j :: 0 <= j < k ==>
        hakkers[j] == Hakker(Names[j], chopsticks[LeftOf(j)], chopsticks[RightOf(j)], HakkerRef(j))
    {
      var hakker := Hakker(Names[k], chopsticks[i], chopsticks[(i + 1) % Seats], HakkerRef(i));
      hakkers := hakkers + [hakker];
      i := i + 1;
    }
    starts := [];
    for k := 0 to |hakkers|
      invariant |starts| == k
      invariant forall j :: 0 <= j < k ==> starts[j] == Start(hakkers[j].self, Think)
    {
      starts := starts + [Start(hakkers[k].self, Think)];
    }
  }

  /**
   * The ring: every hakker has two different chopsticks, and every chopstick
   * is the left one of exactly one hakker and the right one of exactly one.
   */
  lemma RingAssignment(c: nat)
    requires c < Seats
    ensures exists i :: 0 <= i < Seats && LeftOf(i) == c
    ensures exists i :: 0 <= i < Seats && RightOf(i) == c
    ensures forall i, j :: 0 <= i < Seats && 0 <= j < Seats && LeftOf(i) == c && LeftOf(j) == c ==> i == j
    ensures forall i, j :: 0 <= i < Seats && 0 <= j < Seats && RightOf(i) == c && RightOf(j) == c ==> i == j
    ensures forall i :: 0 <= i < Seats ==> LeftOf(i) != RightOf(i)
  {
    assert LeftOf(c) == c;
    var r := (c + Seats - 1) % Seats;
    assert RightOf(r) == c;
  }

  /** Neighbours share exactly one chopstick: the right one of hakker i is the left one of hakker i + 1. */
  lemma NeighboursShare(i: nat)
    requires i < Seats
    ensures RightOf(i) == LeftOf((i + 1) % Seats)
    ensures LeftOf(i) != LeftOf((i + 1) % Seats) && RightOf(i) != RightOf((i + 1) % Seats)
  {
  }

  /** Each of the five hakkers is told Think exactly once at the start. */
  lemma OneThinkEach(hakkers: seq<Hakker>, starts: seq<Start>, i: nat)
    requires |hakkers| == Seats && |starts| == Seats
    requires forall j :: 0 <= j < Seats ==> hakkers[j].self == HakkerRef(j)
    requires forall j :: 0 <= j < Seats ==> starts[j] == Start(hakkers[j].self, Think)
    requires i < Seats
    ensures exists j :: 0 <= j < Seats && starts[j].to == hakkers[i].self
    ensures forall j, k ::
      0 <= j < Seats && 0 <= k < Seats && starts[j].to == hakkers[i].self && starts[k].to == hakkers[i].self
      ==> j == k
    ensures forall j :: 0 <= j < Seats ==> starts[j].message == Think
  {
    assert starts[i].to == hakkers[i].self;
  }
}

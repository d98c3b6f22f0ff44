/**
 * Coordinates of a maze cell and the four moves between cells, shared by
 * the two maze-runner samples: the `Maze.Translation` enum, its shuffled
 * order, and the four-way `translate` of a coordinate.
 */
module MazeTranslation {

  /** A cell: column x, row y (row 0 at the top). */
  datatype Coords = Coords(x: int, y: int)

  datatype Translation = TOP | RIGHT | DOWN | LEFT

  /** `values()`, in declaration order. */
  const AllTranslations: seq<Translation> := [TOP, RIGHT, DOWN, LEFT]

  /** An order of the four translations, each exactly once. */
  predicate IsOrder(order: seq<Translation>)
  {
    multiset(order) == multiset(AllTranslations)
  }

  lemma OrderHasAll(order: seq<Translation>, t: Translation)
    requires IsOrder(order)
    ensures t in order && |order| == 4
  {
    assert t in multiset(AllTranslations);
    assert |multiset(order)| == |multiset(AllTranslations)|;
  }

  /**
   * `randomOrder()`: `Collections.shuffle` over the four values, which swaps
   * position i - 1 with a random position below i for i from 4 down to 2.
   * The random draws are the input: `picks[k]` is `nextInt(4 - k)`.
   */
  method RandomOrder(picks: seq<int>) returns (order: seq<Translation>)
    requires |picks| == 3
    requires forall k :: 0 <= k < 3 ==> 0 <= picks[k] < 4 - k
    ensures IsOrder(order) && |order| == 4
  {
    var a := new Translation[4];
    a[0], a[1], a[2], a[3] := TOP, RIGHT, DOWN, LEFT;
    assert a[..] == AllTranslations;
    var i := 4;
    while i > 1
      invariant 1 <= i <= 4
      invariant multiset(a[..]) == multiset(AllTranslations)
      decreases i
    {
      var j := picks[4 - i];
      ghost var before := a[..];
      a[i - 1], a[j] := a[j], a[i - 1];
      assert a[..] == before[i - 1 := before[j]][j := before[i - 1]];
      SwapKeepsElements(before, i - 1, j);
      i := i - 1;
    }
    order := a[..];
  }

  lemma SwapKeepsElements<T>(s: seq<T>, i: nat, j: nat)
    requires i < |s| && j < |s|
    ensures multiset(s[i := s[j]][j := s[i]]) == multiset(s)
  {
    if i != j {
      var t := s[i := s[j]];
      assert multiset(t) == multiset(s) - multiset{s[i]} + multiset{s[j]};
      assert multiset(t[j := s[i]]) == multiset(t) - multiset{t[j]} + multiset{s[i]};
    }
  }

  /** The four-way translate: one step up, right, down or left. */
  function Translate(c: Coords, t: Translation): (r: Coords)
    ensures r != c
    ensures (r.x - c.x) * (r.x - c.x) + (r.y - c.y) * (r.y - c.y) == 1
  {
    match t
    case TOP => Coords(c.x, c.y - 1)
    case RIGHT => Coords(c.x + 1, c.y)
    case DOWN => Coords(c.x, c.y + 1)
    case LEFT => Coords(c.x - 1, c.y)
  }

  function Opposite(t: Translation): Translation
  {
    match t
    case TOP => DOWN
    case DOWN => TOP
    case LEFT => RIGHT
    case RIGHT => LEFT
  }

  /**
   * Each move is undone by the opposite one, and the four moves lead to
   * four different cells.
   */
  lemma TranslateInverse(c: Coords, t: Translation, u: Translation)
    ensures Translate(Translate(c, t), Opposite(t)) == c
    ensures Translate(c, t) == Translate(c, u) ==> t == u
  {
  }
}

/**
 * The maze of the maze-runner samples. The vavr sample's maze reads its
 * layout, one string per row; the javaslang sample's maze is a stub that
 * ignores its layout, calls every cell legal and every cell the finish,
 * and translates with that sample's own `Coords.translate`.
 */
module Maze {
  import opened Wrappers
  import opened MazeTranslation
  import JavaLang
  import JavaslangCoords

  const FinishFlag: char := '\U{2691}'

  datatype Maze = Layout(rows: seq<string>) | Stub
  {
    /** Where `layout.get(y).charAt(x)` does not throw. */
    predicate InBounds(c: Coords)
    {
      Layout? ==> 0 <= c.y < |rows| && 0 <= c.x < |rows[c.y]|
    }

    /** A cell all four of whose neighbours are in bounds. */
    predicate Interior(c: Coords)
    {
      forall t :: InBounds(Translate(c, t))
    }

    /** `isFinish(c)`: the cell holds the finish flag. */
    predicate IsFinish(c: Coords)
      requires InBounds(c)
    {
      Layout? ==> rows[c.y][c.x] == FinishFlag
    }

    /** `isLegal(c)`: the cell is blank (Java whitespace) or the finish. */
    predicate IsLegal(c: Coords)
      requires InBounds(c)
    {
      Layout? ==> JavaLang.IsWhitespace(rows[c.y][c.x]) || IsFinish(c)
    }

    /** Every legal cell is surrounded by in-bounds cells: the border is wall. */
    ghost predicate Walled()
    {
      forall c :: InBounds(c) && IsLegal(c) ==> Interior(c)
    }

    /** `coords.translate(t)` of this maze's sample: four-way for vavr, as written for javaslang. */
    function Step(c: Coords, t: Translation): (r: Result<Coords, string>)
      ensures r.Ok? ==> r.value == Translate(c, t)
      ensures r.Err? <==> Stub? && t == RIGHT
    {
      if Layout? then Ok(Translate(c, t)) else JavaslangCoords.Translate(c, t)
    }

    /** `order.map(coords::translate)`: the whole order is translated, the first failure thrown. */
    function TranslateAll(c: Coords, order: seq<Translation>): (r: Result<seq<Coords>, string>)
      ensures r.Err? <==> exists i :: 0 <= i < |order| && Step(c, order[i]).Err?
      ensures r.Ok? ==> |r.value| == |order| && forall i :: 0 <= i < |order| ==> r.value[i] == Translate(c, order[i])
      decreases |order|
    {
      if order == [] then Ok([])
      else
        var first := Step(c, order[0]);
        var rest := TranslateAll(c, order[1..]);
        if first.Err? then Err(first.error)
        else if rest.Err? then Err(rest.error)
        else Ok([first.value] + rest.value)
    }

    /** `.filter(this::isLegal).toOption()`: the first legal cell. */
    function FirstLegal(cells: seq<Coords>): (r: Option<Coords>)
      requires forall i :: 0 <= i < |cells| ==> InBounds(cells[i])
      ensures r.Some? ==> r.value in cells && IsLegal(r.value)
      ensures r.Some? ==>
        exists k :: 0 <= k < |cells| && cells[k] == r.value && forall j :: 0 <= j < k ==> !IsLegal(cells[j])
      ensures r.None? ==> forall i :: 0 <= i < |cells| ==> !IsLegal(cells[i])
      decreases |cells|
    {
      if cells == [] then None
      else if IsLegal(cells[0]) then Some(cells[0])
      else
        var r := FirstLegal(cells[1..]);
        if r.Some? then
          var k :| 0 <= k < |cells[1..]| && cells[1..][k] == r.value
            && forall j :: 0 <= j < k ==> !IsLegal(cells[1..][j]);
          assert cells[k + 1] == r.value;
          assert forall j :: 0 <= j < k + 1 ==> !IsLegal(cells[j]) by {
            forall j | 0 <= j < k + 1 ensures !IsLegal(cells[j]) {
              if j > 0 { assert cells[j] == cells[1..][j - 1]; }
            }
          }
          r
        else r
    }

    /**
     * `legalFrom(c)`: translate c in every direction of the order, keep the
     * legal cells and take the first.
     */
    function LegalFrom(c: Coords, order: seq<Translation>): (r: Result<Option<Coords>, string>)
      requires Interior(c)
      ensures r.Ok? && r.value.Some? ==>
        exists t :: t in order && r.value.value == Translate(c, t) && IsLegal(Translate(c, t))
      ensures r.Ok? && r.value.None? ==> forall t :: t in order ==> !IsLegal(Translate(c, t))
      ensures r.Ok? && r.value.Some? ==>
        exists k :: 0 <= k < |order| && r.value.value == Translate(c, order[k])
          && forall j :: 0 <= j < k ==> !IsLegal(Translate(c, order[j]))
    {
      var cells := TranslateAll(c, order);
      if cells.Err? then Err(cells.error)
      else
        var r := FirstLegal(cells.value);
        if r.Some? then
          var k :| 0 <= k < |cells.value| && cells.value[k] == r.value
            && forall j :: 0 <= j < k ==> !IsLegal(cells.value[j]);
          assert order[k] in order;
          assert forall j :: 0 <= j < k ==> !IsLegal(Translate(c, order[j])) by {
            forall j | 0 <= j < k ensures !IsLegal(Translate(c, order[j])) {
              assert cells.value[j] == Translate(c, order[j]);
            }
          }
          Ok(r)
        else
          assert forall t :: t in order ==> exists k :: 0 <= k < |order| && order[k] == t;
          Ok(r)
    }
  }

  lemma FinishIsLegal(m: Maze, c: Coords)
    requires m.InBounds(c) && m.IsFinish(c)
    ensures m.IsLegal(c)
  {
  }

  /**
   * Over a shuffled order of the four directions, the vavr maze finds no
   * next cell exactly when none of the four neighbours is legal.
   */
  lemma LegalFromFindsAnyLegalNeighbour(rows: seq<string>, c: Coords, order: seq<Translation>)
    requires Layout(rows).Interior(c) && IsOrder(order)
    ensures var r := Layout(rows).LegalFrom(c, order);
      r.Ok? && (r.value.None? <==> forall t :: !Layout(rows).IsLegal(Translate(c, t)))
  {
    assert Layout(rows).TranslateAll(c, order).Ok?;
    forall t ensures t in order { OrderHasAll(order, t); }
  }

  /** The stub maze cannot compute a next cell: every shuffled order contains RIGHT. */
  lemma StubLegalFromAlwaysThrows(c: Coords, order: seq<Translation>)
    requires IsOrder(order)
    ensures Stub.LegalFrom(c, order).Err?
  {
    OrderHasAll(order, RIGHT);
    var i :| 0 <= i < |order| && order[i] == RIGHT;
    assert Stub.Step(c, order[i]).Err?;
  }
}

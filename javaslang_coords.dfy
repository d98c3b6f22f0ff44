/**
 * `Coords.translate` of the javaslang maze runner, as written: its fourth
 * case tests DOWN a second time where RIGHT was meant, so RIGHT matches no
 * case and the match throws a MatchError.
 */
module JavaslangCoords {
  import opened Wrappers
  import opened MazeTranslation

  /** The match: TOP, DOWN, LEFT, then DOWN again; no case matches RIGHT. */
  function Translate(c: Coords, t: Translation): (r: Result<Coords, string>)
    ensures r.Err? <==> t == RIGHT
    ensures r.Ok? ==> r.value == MazeTranslation.Translate(c, t)
  {
    if t == TOP then Ok(Coords(c.x, c.y - 1))
    else if t == DOWN then Ok(Coords(c.x, c.y + 1))
    else if t == LEFT then Ok(Coords(c.x - 1, c.y))
    else if t == DOWN then Ok(Coords(c.x + 1, c.y))
    else
      assert t == RIGHT;
      Err("MatchError")
  }

  /** The step to the right exists in the code but no input reaches it. */
  lemma RightIsUnreachable(c: Coords)
    ensures Translate(c, RIGHT).Err?
    ensures forall t :: Translate(c, t) != Ok(Coords(c.x + 1, c.y))
  {
  }
}

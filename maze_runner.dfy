/**
 * The pure parts of the vavr maze runner's console: reading the spawn
 * count typed by the user, and the heat map drawn from the minions'
 * reports (how often each cell was visited, shaded in four tiles, laid
 * over the maze).
 */
module MazeRunner {
  import opened Wrappers
  import opened MazeTranslation
  import Minion
  import JavaLang

  /** The maze the runner starts its master with. */
  const MazeLayout: seq<string> := [
    "+--+--+--+--+--+--+--+--+--+--+",
    "|           |        |     |  |",
    "+  +--+--+  +  +--+  +  +  +  +",
    "|     |     |  |     |  |  |  |",
    "+--+  +  +--+  +  +--+--+  +  +",
    "|  |  |     |  |              |",
    "+  +  +--+  +  +--+  +--+  +--+",
    "|  |  |        |     |     |  |",
    "+  +  +  +--+--+  +--+--+  +  +",
    "|     |  |        |  |     |  |",
    "+--+--+--+  +--+--+  +  +--+  +",
    "|                 |  |  |     |",
    "+  +--+--+--+--+  +  +  +  +--+",
    "|  |     |     |  |     |     |",
    "+  +  +  +--+  +  +--+--+--+  +",
    "|     |  |     |           |  |",
    "+--+--+  +  +--+--+--+  +--+  +",
    "|           |     |     |     |",
    "+  +--+  +--+--+  +  +--+  +--+",
    "|     |           |          \U{2691}|",
    "+--+--+--+--+--+--+--+--+--+--+"
  ]

  // ---------------------------------------------------------------------
  // tryParseInt

  /** `String.replace(target, replacement)`: every occurrence, left to right, without overlaps. */
  function ReplaceAll(s: string, target: string, replacement: string): string
    requires target != []
    decreases |s|
  {
    if |s| < |target| then s
    else if s[..|target|] == target then replacement + ReplaceAll(s[|target|..], target, replacement)
    else [s[0]] + ReplaceAll(s[1..], target, replacement)
  }

  /** `tryParseInt(s)`: drop every "spawn " and read what is left as an int. */
  function TryParseInt(s: string): (r: Option<int>)
    ensures r.Some? ==> JavaLang.IsInt32(r.value)
  {
    JavaLang.ParseInt(ReplaceAll(s, "spawn ", ""))
  }

  lemma {:induction false} ReplaceAllWithoutMatch(s: string, target: string, replacement: string)
    requires target != [] && target[0] !in s
    ensures ReplaceAll(s, target, replacement) == s
    decreases |s|
  {
    if |s| >= |target| {
      assert s[..|target|][0] == s[0];
      ReplaceAllWithoutMatch(s[1..], target, replacement);
    }
  }

  /** Typing "spawn " and a number gives that number; a bare number works as well. */
  lemma TryParseIntReadsCount(n: int)
    requires JavaLang.IsInt32(n)
    ensures TryParseInt("spawn " + JavaLang.IntToString(n)) == Some(n)
    ensures TryParseInt(JavaLang.IntToString(n)) == Some(n)
  {
    var d := JavaLang.IntToString(n);
    assert 's' !in d by {
      if n < 0 {
        var digits := JavaLang.NatToString(-n);
        assert d == "-" + digits;
        assert forall i :: 0 <= i < |digits| ==> digits[i] != 's';
      } else {
        assert forall i :: 0 <= i < |d| ==> d[i] != 's';
      }
    }
    ReplaceAllWithoutMatch(d, "spawn ", "");
    var s := "spawn " + d;
    assert s[..6] == "spawn " && s[6..] == d;
    assert |s| >= |"spawn "|;
    assert ReplaceAll(s, "spawn ", "") == "" + ReplaceAll(d, "spawn ", "");
    assert ReplaceAll(s, "spawn ", "") == d;
    JavaLang.ParseIntToString(n);
    assert TryParseInt(s) == JavaLang.ParseInt(d);
  }

  /** Whatever is left after removing "spawn " must be a sign and digits only. */
  lemma TryParseIntRejectsNonDigit(s: string, i: nat)
    requires var rest := ReplaceAll(s, "spawn ", ""); 0 < i < |rest| && !JavaLang.IsDigit(rest[i])
    ensures TryParseInt(s) == None
  {
    JavaLang.ParseIntRejectsNonDigit(ReplaceAll(s, "spawn ", ""), i);
  }

  // ---------------------------------------------------------------------
  // getHeatMapValues

  /** `minionResults.flatMap(stopped -> stopped.visited)`. */
  function AllVisited(results: seq<Minion.Stopped>): seq<Coords>
  {
    if results == [] then [] else results[0].visited + AllVisited(results[1..])
  }

  /** The fold: each cell adds one to its count, starting from 0. */
  function CountInto(heat: map<Coords, int>, cells: seq<Coords>): (r: map<Coords, int>)
    ensures forall c :: c in r <==> c in heat || c in cells
    ensures forall c :: c in r ==> r[c] == (if c in heat then heat[c] else 0) + multiset(cells)[c]
    decreases |cells|
  {
    if cells == [] then heat
    else
      var c := cells[0];
      assert cells == [c] + cells[1..];
      CountInto(heat[c := (if c in heat then heat[c] else 0) + 1], cells[1..])
  }

  /** `getHeatMapValues`: every visited cell, with the number of times it was visited. */
  function HeatMapValues(results: seq<Minion.Stopped>): (heat: map<Coords, int>)
    ensures heat.Keys == set c | c in AllVisited(results)
    ensures forall c :: c in heat ==> heat[c] == multiset(AllVisited(results))[c] && heat[c] >= 1
  {
    CountInto(map[], AllVisited(results))
  }

  /** The sum of the values of m over some of its keys. */
  ghost function SumOver(m: map<Coords, int>, keys: set<Coords>): int
    requires keys <= m.Keys
  {
    if keys == {} then 0
    else
      var k :| k in keys;
      m[k] + SumOver(m, keys - {k})
  }

  lemma {:induction false} SumOverPick(m: map<Coords, int>, keys: set<Coords>, k: Coords)
    requires keys <= m.Keys && k in keys
    ensures SumOver(m, keys) == m[k] + SumOver(m, keys - {k})
    decreases |keys|
  {
    var j :| j in keys && SumOver(m, keys) == m[j] + SumOver(m, keys - {j});
    if j != k {
      SumOverPick(m, keys - {j}, k);
      SumOverPick(m, keys - {k}, j);
      assert keys - {j} - {k} == keys - {k} - {j};
    }
  }

  lemma {:induction false} SumOverAgree(m1: map<Coords, int>, m2: map<Coords, int>, keys: set<Coords>)
    requires keys <= m1.Keys && keys <= m2.Keys
    requires forall k :: k in keys ==> m1[k] == m2[k]
    ensures SumOver(m1, keys) == SumOver(m2, keys)
    decreases |keys|
  {
    if keys != {} {
      var k :| k in keys && SumOver(m1, keys) == m1[k] + SumOver(m1, keys - {k});
      SumOverPick(m2, keys, k);
      SumOverAgree(m1, m2, keys - {k});
    }
  }

  /** One more visit of c raises the total by one. */
  lemma CountOneMore(heat: map<Coords, int>, c: Coords)
    ensures var h := heat[c := (if c in heat then heat[c] else 0) + 1];
      SumOver(h, h.Keys) == SumOver(heat, heat.Keys) + 1
  {
    var h := heat[c := (if c in heat then heat[c] else 0) + 1];
    SumOverPick(h, h.Keys, c);
    assert h.Keys - {c} == heat.Keys - {c};
    SumOverAgree(h, heat, heat.Keys - {c});
    if c in heat {
      SumOverPick(heat, heat.Keys, c);
    } else {
      assert heat.Keys - {c} == heat.Keys;
    }
  }

  lemma {:induction false} CountIntoSum(heat: map<Coords, int>, cells: seq<Coords>)
    ensures var r := CountInto(heat, cells); SumOver(r, r.Keys) == SumOver(heat, heat.Keys) + |cells|
    decreases |cells|
  {
    if cells != [] {
      var c := cells[0];
      var next := heat[c := (if c in heat then heat[c] else 0) + 1];
      assert CountInto(heat, cells) == CountInto(next, cells[1..]);
      CountOneMore(heat, c);
      CountIntoSum(next, cells[1..]);
      var r := CountInto(next, cells[1..]);
      assert SumOver(r, r.Keys) == SumOver(next, next.Keys) + |cells[1..]|;
    }
  }

  /** The heat values add up to the number of visits reported by all minions together. */
  lemma HeatAddsUpToVisits(results: seq<Minion.Stopped>)
    ensures var heat := HeatMapValues(results); SumOver(heat, heat.Keys) == |AllVisited(results)|
  {
    CountIntoSum(map[], AllVisited(results));
    assert SumOver(map[], {}) == 0;
  }

  // ---------------------------------------------------------------------
  // getHeatMapTiles

  /** '█', '▓', '▒', '░': coldest to hottest. */
  const Tiles: seq<char> := ['\U{2588}', '\U{2593}', '\U{2592}', '\U{2591}']

  /** `heatMap.values().max().getOrElse(0)`. */
  ghost function Hottest(heat: map<Coords, int>, keys: set<Coords>): (h: int)
    requires keys <= heat.Keys
    ensures forall c :: c in keys ==> heat[c] <= h
    ensures keys != {} ==> exists c :: c in keys && heat[c] == h
    ensures keys == {} ==> h == 0
  {
    if keys == {} then 0
    else
      var k :| k in keys;
      var rest := Hottest(heat, keys - {k});
      if keys - {k} == {} || heat[k] >= rest then heat[k] else rest
  }

  /** The tile a heat gets: `(heat * 4 - 1) / hottest`, with Java's (here non-negative) division. */
  function TileIndex(heat: int, hottest: int): (i: int)
    requires 1 <= heat <= hottest
    ensures 0 <= i < |Tiles|
    ensures heat == hottest ==> i == |Tiles| - 1
  {
    (heat * |Tiles| - 1) / hottest
  }

  /** Hotter cells never get a colder tile. */
  lemma TileIndexMonotone(h1: int, h2: int, hottest: int)
    requires 1 <= h1 <= h2 <= hottest
    ensures TileIndex(h1, hottest) <= TileIndex(h2, hottest)
  {
  }

  /**
   * `getHeatMapTiles`: the same cells, each with the tile of its heat.
   * Heats are at least 1, as `getHeatMapValues` gives them.
   */
  ghost function HeatMapTiles(heat: map<Coords, int>): (tiles: map<Coords, char>)
    requires forall c :: c in heat ==> heat[c] >= 1
    ensures tiles.Keys == heat.Keys
    ensures forall c :: c in heat ==> tiles[c] == Tiles[TileIndex(heat[c], Hottest(heat, heat.Keys))]
    ensures forall c :: c in heat && heat[c] == Hottest(heat, heat.Keys) ==> tiles[c] == Tiles[3]
  {
    var hottest := Hottest(heat, heat.Keys);
    map c | c in heat :: Tiles[TileIndex(heat[c], hottest)]
  }

  // ---------------------------------------------------------------------
  // getHeatMap

  /**
   * `getHeatMap`: the runner's maze redrawn, each visited cell with its
   * tile and every other cell as '█'.
   */
  function HeatMap(tiles: map<Coords, char>): (r: seq<string>)
    ensures |r| == |MazeLayout|
    ensures forall y :: 0 <= y < |MazeLayout| ==> |r[y]| == |MazeLayout[y]|
    ensures forall y, x :: 0 <= y < |MazeLayout| && 0 <= x < |MazeLayout[y]| ==>
      r[y][x] == (if Coords(x, y) in tiles then tiles[Coords(x, y)] else Tiles[0])
  {
    seq(|MazeLayout|, y requires 0 <= y < |MazeLayout| =>
      seq(|MazeLayout[y]|, x requires 0 <= x < |MazeLayout[y]| =>
        if Coords(x, y) in tiles then tiles[Coords(x, y)] else Tiles[0]))
  }
}

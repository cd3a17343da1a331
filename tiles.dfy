/**
 * The tile catalog and the tile grid of tiles.py: indexing, neighbours,
 * tile/screen coordinate conversion and the named highlight table.
 * The grid read from a map image is given to the constructor as its width,
 * height and the palette index of each cell, row by row.
 */
module Tiles {
  import opened Helper
  import opened Wrappers

  /** The `type` names used in the catalog. */
  datatype Terrain = Plains | Wall | Water | Sand | Road | Mountain | Forest

  /** A catalog entry (the `Tile` namedtuple). */
  datatype Tile = Tile(terrain: Terrain, spriteId: int, passable: bool, defenseBonus: int, rangeBonus: int)

  /** `tile_types`: the tile ids and their data. */
  const TileTypes: map<int, Tile> := map[
    0 := Tile(Plains, 0, true, 0, 0),
    1 := Tile(Wall, 1, false, 0, 0),
    2 := Tile(Water, 2, false, 0, 0),
    3 := Tile(Sand, 3, true, 0, 0),
    4 := Tile(Road, 4, true, 0, 0),
    5 := Tile(Mountain, 5, false, 1, 2),
    6 := Tile(Forest, 6, true, 2, 0)
  ]

  /** The catalog id of each terrain. */
  function TerrainId(t: Terrain): int
  {
    match t
    case Plains => 0 case Wall => 1 case Water => 2 case Sand => 3
    case Road => 4 case Mountain => 5 case Forest => 6
  }

  /** The catalog has ids 0 to 6, each naming its own sprite, and one entry per terrain. */
  lemma CatalogShape()
    ensures forall id :: id in TileTypes <==> 0 <= id <= 6
    ensures forall id :: id in TileTypes ==> TileTypes[id].spriteId == id
    ensures forall t :: TerrainId(t) in TileTypes && TileTypes[TerrainId(t)].terrain == t
  {
  }

  /** An RGBA colour. */
  datatype Color = Color(r: int, g: int, b: int, a: int)

  /** A highlight entry: the cells and the two colours it waves between. */
  datatype Highlight = Highlight(tiles: set<Pos>, colorA: Color, colorB: Color)

  class TileMap {
    const tileWidth: int
    const tileHeight: int
    const mapWidth: int
    const mapHeight: int
    /** Palette index of each cell, row by row. */
    const tiles: seq<int>
    /** Screen position of the map's top-left corner (`rect.x`, `rect.y`). */
    const left: int
    const top: int
    /** The named highlights (`_highlights`). */
    var highlights: map<string, Highlight>

    /** A loaded map: positive sizes, one catalog id per cell. */
    predicate Valid()
    {
      tileWidth > 0 && tileHeight > 0 && mapWidth > 0 && mapHeight > 0 &&
      |tiles| == mapWidth * mapHeight &&
      forall i :: 0 <= i < |tiles| ==> tiles[i] in TileTypes
    }

    constructor (tileWidth: int, tileHeight: int, mapWidth: int, mapHeight: int,
                 tiles: seq<int>, left: int, top: int)
      requires tileWidth > 0 && tileHeight > 0 && mapWidth > 0 && mapHeight > 0
      requires |tiles| == mapWidth * mapHeight
      requires forall i :: 0 <= i < |tiles| ==> tiles[i] in TileTypes
      ensures Valid()
      ensures this.tileWidth == tileWidth && this.tileHeight == tileHeight
      ensures this.mapWidth == mapWidth && this.mapHeight == mapHeight
      ensures this.tiles == tiles && this.left == left && this.top == top
      ensures highlights == map[]
    {
      this.tileWidth, this.tileHeight := tileWidth, tileHeight;
      this.mapWidth, this.mapHeight := mapWidth, mapHeight;
      this.tiles := tiles;
      this.left, this.top := left, top;
      highlights := map[];
    }

    /** `_tile_exists`. */
    predicate TileExists(c: Pos)
      ensures TileExists(c) ==> mapWidth > 0 && mapHeight > 0
    {
      !(c.0 < 0 || c.0 >= mapWidth || c.1 < 0 || c.1 >= mapHeight)
    }

    /** Every cell of the map. */
    function Cells(): (cs: set<Pos>)
      ensures forall c :: c in cs <==> TileExists(c)
    {
      set x, y | 0 <= x < mapWidth && 0 <= y < mapHeight :: (x, y)
    }

    /** `_tile_position`: the coordinates of the cell with the given list index. */
    function TilePosition(index: int): (p: Pos)
      requires mapWidth > 0
      ensures 0 <= p.0 < mapWidth && p.1 * mapWidth + p.0 == index
      ensures 0 <= index < mapWidth * mapHeight ==> 0 <= p.1 < mapHeight
    {
      (index % mapWidth, index / mapWidth)
    }

    /** `_tile_index`: the list index of a cell, or -1 when there is none. */
    function TileIndex(c: Pos): (i: int)
      ensures i == -1 <==> !TileExists(c)
      ensures TileExists(c) ==> 0 <= i < mapWidth * mapHeight
    {
      if !TileExists(c) then -1
      else
        RowMajorBounds(c.0, c.1, mapWidth, mapHeight);
        c.1 * mapWidth + c.0
    }

    /** `tile_data`: the catalog entry of a cell; None (Python's False) off the map. */
    function TileData(c: Pos): (t: Option<Tile>)
      requires Valid()
      ensures t.Some? <==> TileExists(c)
      ensures t.Some? ==> exists i :: 0 <= i < |tiles| && TilePosition(i) == c && t.value == TileTypes[tiles[i]]
    {
      if !TileExists(c) then None
      else
        IndexPositionRoundTrip(c);
        Some(TileTypes[tiles[TileIndex(c)]])
    }

    /** The cell at list index i reads back the catalog entry of the id stored at i. */
    lemma TileDataOfIndex()
      requires Valid()
      ensures forall i :: 0 <= i < |tiles| ==> TileData(TilePosition(i)) == Some(TileTypes[tiles[i]])
    {
      forall i | 0 <= i < |tiles|
        ensures TileData(TilePosition(i)) == Some(TileTypes[tiles[i]])
      {
        PositionIndexRoundTrip(i);
      }
    }

    /** The four candidate neighbours: up, right, left, down. */
    function Candidates(c: Pos): seq<Pos>
    {
      [(c.0, c.1 - 1), (c.0 + 1, c.1), (c.0 - 1, c.1), (c.0, c.1 + 1)]
    }

    /** `neighbours`: the candidates that exist, in candidate order. */
    function Neighbours(c: Pos): (ns: seq<Pos>)
      ensures forall n :: n in ns <==> n in Candidates(c) && TileExists(n)
    {
      Existing(Candidates(c))
    }

    /** The cells of cs that exist, in the order of cs. */
    function Existing(cs: seq<Pos>): (ns: seq<Pos>)
      ensures forall n :: n in ns <==> n in cs && TileExists(n)
    {
      if |cs| == 0 then []
      else if TileExists(cs[0]) then [cs[0]] + Existing(cs[1..])
      else Existing(cs[1..])
    }

    /** A sequence of existing cells is kept whole. */
    lemma {:induction false} ExistingAll(cs: seq<Pos>)
      requires forall i :: 0 <= i < |cs| ==> TileExists(cs[i])
      ensures Existing(cs) == cs
    {
      if |cs| > 0 {
        assert forall i :: 0 <= i < |cs| - 1 ==> cs[1..][i] == cs[i + 1];
        ExistingAll(cs[1..]);
        assert [cs[0]] + cs[1..] == cs;
      }
    }

    /** One step of the filter. */
    lemma ExistingCons(c: Pos, rest: seq<Pos>)
      ensures Existing([c] + rest) == if TileExists(c) then [c] + Existing(rest) else Existing(rest)
    {
      assert ([c] + rest)[1..] == rest;
    }

    /** `tile_coords`: the cell that a screen point falls into. */
    function TileCoords(s: (int, int)): (c: Pos)
      requires Valid()
      ensures c.0 * tileWidth + left <= s.0 < c.0 * tileWidth + left + tileWidth
      ensures c.1 * tileHeight + top <= s.1 < c.1 * tileHeight + top + tileHeight
    {
      DivBox(s.0 - left, tileWidth);
      DivBox(s.1 - top, tileHeight);
      ((s.0 - left) / tileWidth, (s.1 - top) / tileHeight)
    }

    /** `screen_coords`: the screen point of a cell's top-left corner. */
    function ScreenCoords(t: Pos): (s: (int, int))
      ensures Valid() ==> TileCoords(s) == t
    {
      var s := (t.0 * tileWidth + left, t.1 * tileHeight + top);
      if Valid() then
        MulDivCancel(t.0, tileWidth);
        MulDivCancel(t.1, tileHeight);
        s
      else s
    }

    /** `set_highlight`: stores the entry under its name. */
    method SetHighlight(name: string, colorA: Color, colorB: Color, cells: set<Pos>)
      modifies this
      ensures highlights == old(highlights)[name := Highlight(cells, colorA, colorB)]
    {
      highlights := highlights[name := Highlight(cells, colorA, colorB)];
    }

    /** `remove_highlight`: drops the entry; an absent name changes nothing. */
    method RemoveHighlight(name: string)
      modifies this
      ensures highlights == old(highlights) - {name}
      ensures name !in old(highlights) ==> highlights == old(highlights)
    {
      if name in highlights {
        highlights := highlights - {name};
      }
    }

    /** `clear_highlights`. */
    method ClearHighlights()
      modifies this
      ensures highlights == map[]
    {
      highlights := map[];
    }

    // ---- properties ----

    /** The neighbours of c are exactly the cells of the map one grid step away. */
    lemma NeighboursAdjacent(c: Pos, n: Pos)
      ensures n in Neighbours(c) <==> TileExists(n) && Adjacent(c, n)
    {
    }

    /** The neighbours come in the order up, right, left, down. */
    lemma NeighboursInOrder(c: Pos)
      ensures forall i, j :: 0 <= i < j < |Neighbours(c)| ==> Rank(c, Neighbours(c)[i]) < Rank(c, Neighbours(c)[j])
    {
      var cs := Candidates(c);
      assert Rank(c, cs[0]) == 0 && Rank(c, cs[1]) == 1 && Rank(c, cs[2]) == 2 && Rank(c, cs[3]) == 3;
      ExistingKeepsOrder(c, cs);
    }

    /** Dropping the cells that do not exist keeps the others in order. */
    lemma {:induction false} ExistingKeepsOrder(c: Pos, cs: seq<Pos>)
      requires forall i, j :: 0 <= i < j < |cs| ==> Rank(c, cs[i]) < Rank(c, cs[j])
      ensures forall i, j :: 0 <= i < j < |Existing(cs)| ==> Rank(c, Existing(cs)[i]) < Rank(c, Existing(cs)[j])
    {
      if |cs| > 0 {
        var rest := cs[1..];
        ExistingKeepsOrder(c, rest);
        if TileExists(cs[0]) {
          var ns := Existing(cs);
          assert ns == [cs[0]] + Existing(rest);
          forall j | 0 < j < |ns|
            ensures Rank(c, ns[0]) < Rank(c, ns[j])
          {
            assert ns[j] in rest;
            var k :| 0 <= k < |rest| && rest[k] == ns[j];
            assert cs[k + 1] == ns[j];
          }
        }
      }
    }

    /** Index and position are inverse on the cells of the map. */
    lemma IndexPositionRoundTrip(c: Pos)
      requires Valid() && TileExists(c)
      ensures TilePosition(TileIndex(c)) == c
    {
      RowMajorDecode(c.0, c.1, mapWidth);
    }

    /** Every list index names an existing cell, and indexing it gives it back. */
    lemma PositionIndexRoundTrip(i: int)
      requires Valid() && 0 <= i < mapWidth * mapHeight
      ensures TileExists(TilePosition(i))
      ensures TileIndex(TilePosition(i)) == i
    {
      RowMajorEncode(i, mapWidth, mapHeight);
    }

    /** A cell's screen corner lies in that cell. */
    lemma ScreenTileRoundTrip(t: Pos)
      requires Valid()
      ensures TileCoords(ScreenCoords(t)) == t
    {
      MulDivCancel(t.0, tileWidth);
      MulDivCancel(t.1, tileHeight);
    }

    /** A screen point lies within the tile-sized box at its cell's corner. */
    lemma TileScreenBox(s: (int, int))
      requires Valid()
      ensures var c := ScreenCoords(TileCoords(s));
              c.0 <= s.0 < c.0 + tileWidth && c.1 <= s.1 < c.1 + tileHeight
    {
      DivBox(s.0 - left, tileWidth);
      DivBox(s.1 - top, tileHeight);
    }
  }

  /** The palette indices of the 5 by 5 test map of the doctests. */
  const TestMap1: seq<int> := [0, 1, 2, 3, 4, 5, 6, 0, 0, 0, 0, 0, 0, 0, 0, 0, 0, 0, 0, 0, 0, 0, 0, 0, 0]

  /** The 5 by 5 test map with 20-pixel tiles at the origin. */
  predicate IsTestMap1(t: TileMap)
  {
    t.mapWidth == 5 && t.mapHeight == 5 && t.tileWidth == 20 && t.tileHeight == 20 &&
    t.left == 0 && t.top == 0 && t.tiles == TestMap1
  }

  /** Doctests of `_tile_position`, `_tile_index`, `_tile_exists`, `tile_coords`, `screen_coords`. */
  lemma CoordinateExamples(t: TileMap)
    requires IsTestMap1(t)
    ensures t.TilePosition(12) == (2, 2) && t.TileIndex((2, 2)) == 12
    ensures t.TileExists((2, 2)) && !t.TileExists((-2, -1)) && !t.TileExists((6, 7))
    ensures t.TileCoords((45, 22)) == (2, 1) && t.ScreenCoords((3, 4)) == (60, 80)
  {
    assert t.Valid();
  }

  /** Doctests of `tile_data`. */
  lemma TileDataExamples(t: TileMap)
    requires IsTestMap1(t)
    ensures t.Valid()
    ensures t.TileData((0, 0)) == Some(TileTypes[0]) && t.TileData((1, 1)) == Some(TileTypes[6])
  {
    assert t.tiles[0] == 0 && t.tiles[6] == 6;
  }

  /** Doctest of `neighbours` at a corner. */
  lemma CornerNeighbourExample(t: TileMap)
    requires IsTestMap1(t)
    ensures t.Neighbours((0, 0)) == [(1, 0), (0, 1)]
  {
    t.ExistingCons((0, 1), []);
    t.ExistingCons((-1, 0), [(0, 1)]);
    t.ExistingCons((1, 0), [(-1, 0), (0, 1)]);
    t.ExistingCons((0, -1), [(1, 0), (-1, 0), (0, 1)]);
  }

  /** Doctest of `neighbours` at the opposite corner. */
  lemma FarCornerNeighbourExample(t: TileMap)
    requires IsTestMap1(t)
    ensures t.Neighbours((4, 4)) == [(4, 3), (3, 4)]
  {
    t.ExistingCons((4, 5), []);
    t.ExistingCons((3, 4), [(4, 5)]);
    t.ExistingCons((5, 4), [(3, 4), (4, 5)]);
    t.ExistingCons((4, 3), [(5, 4), (3, 4), (4, 5)]);
  }

  /** Doctest of `neighbours` inside the grid. */
  lemma InnerNeighbourExample(t: TileMap)
    requires IsTestMap1(t)
    ensures t.Neighbours((1, 1)) == [(1, 0), (2, 1), (0, 1), (1, 2)]
  {
    t.ExistingAll([(1, 0), (2, 1), (0, 1), (1, 2)]);
  }

  /** n is one grid step from c (up, right, left or down). */
  predicate Adjacent(c: Pos, n: Pos)
  {
    (n.0 == c.0 && (n.1 == c.1 - 1 || n.1 == c.1 + 1)) ||
    (n.1 == c.1 && (n.0 == c.0 + 1 || n.0 == c.0 - 1))
  }

  /** The position of a neighbour in the order up, right, left, down. */
  function Rank(c: Pos, n: Pos): int
  {
    if n == (c.0, c.1 - 1) then 0
    else if n == (c.0 + 1, c.1) then 1
    else if n == (c.0 - 1, c.1) then 2
    else 3
  }

  lemma RowMajorBounds(x: int, y: int, w: int, h: int)
    requires 0 <= x < w && 0 <= y < h
    ensures 0 <= y * w + x < w * h
  {
    assert y * w <= (h - 1) * w;
  }

  lemma RowMajorDecode(x: int, y: int, w: int)
    requires 0 <= x < w
    ensures (y * w + x) % w == x && (y * w + x) / w == y
  {
    LemmaDivModUnique(y * w + x, w, y, x);
  }

  lemma RowMajorEncode(i: int, w: int, h: int)
    requires w > 0 && 0 <= i < w * h
    ensures 0 <= i % w < w && 0 <= i / w < h
    ensures (i / w) * w + i % w == i
  {
  }

  lemma MulDivCancel(t: int, w: int)
    requires w > 0
    ensures (t * w) / w == t
  {
    LemmaDivModUnique(t * w, w, t, 0);
  }

  lemma DivBox(v: int, w: int)
    requires w > 0
    ensures (v / w) * w <= v < (v / w) * w + w
  {
  }

  /** Euclidean division is determined by its defining equation. */
  lemma LemmaDivModUnique(n: int, w: int, q: int, r: int)
    requires w > 0 && 0 <= r < w && n == q * w + r
    ensures n / w == q && n % w == r
  {
    ZeroMultiple(n / w - q, w, r - n % w);
  }

  /** The only multiple of w strictly between -w and w is 0. */
  lemma ZeroMultiple(a: int, w: int, d: int)
    requires w > 0 && a * w == d && -w < d < w
    ensures a == 0
  {
  }
}

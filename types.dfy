/** The `Tile` coordinate of types.hpp and its equality from types.cpp. */
module Types {

  const U32_MOD: int := 0x1_0000_0000

  /** C++ `u32`. */
  type u32 = x: int | 0 <= x < U32_MOD

  /** A tile coordinate with a sub-tile offset. */
  datatype Tile = Tile(x: u32, y: u32, subX: u32, subY: u32)

  /** `Tile(x, y)`: the sub-tile offset starts at zero. */
  function MakeTile(x: u32, y: u32): (t: Tile)
    ensures t.x == x && t.y == y
    ensures t.subX == 0 && t.subY == 0
  {
    Tile(x, y, 0, 0)
  }

  /** `Tile(x, y, subX, subY)`: equal to `Tile(x, y)`, though a different
      structure when the sub-tile offset is not zero. */
  function MakeSubTile(x: u32, y: u32, subX: u32, subY: u32): (t: Tile)
    ensures TileEq(t, MakeTile(x, y))
    ensures (subX, subY) != (0, 0) ==> t != MakeTile(x, y)
  {
    Tile(x, y, subX, subY)
  }

  /** `operator==(lhs, rhs)`: compares the tile coordinates only. */
  predicate TileEq(lhs: Tile, rhs: Tile)
  {
    lhs.x == rhs.x && lhs.y == rhs.y
  }

  /** Equality ignores the sub-tile offset: it holds exactly when the
      coordinates agree, whatever the two offsets are. */
  lemma TileEqIgnoresSub(lhs: Tile, rhs: Tile)
    ensures TileEq(lhs, rhs) <==> (lhs.x == rhs.x && lhs.y == rhs.y)
    ensures TileEq(lhs, rhs) <==> TileEq(lhs.(subX := 0, subY := 0), rhs.(subX := 0, subY := 0))
  {
  }

  /** `Tile(x, y) == Tile(x, y, sx, sy)` for every sub-tile offset. */
  lemma TileEqSubOffset(x: u32, y: u32, sx: u32, sy: u32)
    ensures TileEq(MakeTile(x, y), MakeSubTile(x, y, sx, sy))
    ensures sx != 0 ==> MakeTile(x, y) != MakeSubTile(x, y, sx, sy)
  {
  }

  /** Tile equality is an equivalence relation. */
  lemma TileEqEquivalence(a: Tile, b: Tile, c: Tile)
    ensures TileEq(a, a)
    ensures TileEq(a, b) ==> TileEq(b, a)
    ensures TileEq(a, b) && TileEq(b, c) ==> TileEq(a, c)
  {
  }
}

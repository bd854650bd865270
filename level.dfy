/** The bounds-checked row-major tile grid `Level` of level.cpp, whose
    `Init`, `Idx`, `Set` and `Get` pang.cpp repeats word for word except
    for the number of random blocks `Init` stamps. */
module Levels {
  import opened Wrappers
  import opened Types
  import Arith
  import Utils

  /** C++ `u8`. */
  type u8 = x: int | 0 <= x < 0x100

  /** What `Get` answers for a position outside the grid. */
  const OUT_OF_RANGE: u8 := 0xff
  /** The value of a blocked cell. */
  const BLOCK: u8 := 1
  /** Blocks stamped by level.cpp's `Init`. */
  const LEVEL_BLOCKS: nat := 10
  /** Blocks stamped by pang.cpp's copy of `Init`. */
  const PANG_BLOCKS: nat := 100

  /** The two `rand()` results one block is drawn from (x first, then y). */
  datatype BlockRoll = BlockRoll(rx: Utils.RandValue, ry: Utils.RandValue)

  /** The index `Idx` computes for (x, y) on a `width` x `height` grid: the
      row-major position `y * width + x`, or nothing when (x, y) is outside.
      The product is taken modulo 2^32 as in the source's `u32` arithmetic;
      on a grid whose cell count fits in 32 bits it never wraps. */
  function CellIndex(width: u32, height: u32, x: u32, y: u32): (r: Option<u32>)
    requires width * height < U32_MOD
    ensures r.Some? <==> x < width && y < height
    ensures r.Some? ==> r.value == y * width + x && r.value < width * height
  {
    if x >= width || y >= height then None
    else
      Arith.RowMajorBound(width, height, x, y);
      Some((y * width + x) % U32_MOD)
  }

  /** An index is decoded by `% width` and `/ width`, so it names exactly
      one in-range position. */
  lemma CellIndexRoundTrip(width: u32, height: u32, x: u32, y: u32)
    requires width * height < U32_MOD && x < width && y < height
    ensures CellIndex(width, height, x, y).Some?
    ensures CellIndex(width, height, x, y).value % width == x
    ensures CellIndex(width, height, x, y).value / width == y
  {
    Arith.RowMajorDecode(width, x, y);
  }

  /** Distinct in-range positions have distinct indices. */
  lemma CellIndexInjective(width: u32, height: u32, x: u32, y: u32, x': u32, y': u32)
    requires width * height < U32_MOD
    requires CellIndex(width, height, x, y).Some? && CellIndex(width, height, x', y').Some?
    requires CellIndex(width, height, x, y) == CellIndex(width, height, x', y')
    ensures x == x' && y == y'
  {
    CellIndexRoundTrip(width, height, x, y);
    CellIndexRoundTrip(width, height, x', y');
  }

  /** Distinct in-range positions name distinct cells of the buffer. */
  lemma CellIndexDistinct(width: u32, height: u32, x: u32, y: u32, x': u32, y': u32)
    requires width * height < U32_MOD
    requires x < width && y < height && x' < width && y' < height
    requires x != x' || y != y'
    ensures y * width + x != y' * width + x'
  {
    if y * width + x == y' * width + x' {
      CellIndexInjective(width, height, x, y, x', y');
    }
  }

  /** `std::vector::resize(n, 0)`: keeps the first `n` cells and pads with zeros. */
  function Resized(cells: seq<u8>, n: nat): (r: seq<u8>)
    ensures |r| == n
    ensures forall i :: 0 <= i < n ==> r[i] == if i < |cells| then cells[i] else 0
  {
    if n <= |cells| then cells[..n] else cells + seq(n - |cells|, _ => 0)
  }

  /** The cell a block roll lands on: x is `rand() % width`, y is `rand() % height`. */
  function RollIndex(width: u32, height: u32, roll: BlockRoll): (i: nat)
    requires 0 < width && 0 < height && width * height < U32_MOD
    ensures i < width * height
  {
    CellIndex(width, height, roll.rx % width, roll.ry % height).value
  }

  /** The cells after stamping a block for each roll, in order. */
  function Stamped(cells: seq<u8>, width: u32, height: u32, rolls: seq<BlockRoll>): (r: seq<u8>)
    requires 0 < width && 0 < height && width * height < U32_MOD && |cells| == width * height
    ensures |r| == |cells|
    decreases |rolls|
  {
    if rolls == [] then cells
    else
      var last := rolls[|rolls| - 1];
      Stamped(cells, width, height, rolls[..|rolls| - 1])[RollIndex(width, height, last) := BLOCK]
  }

  /** The cells whose value is `BLOCK`. */
  function Blocks(cells: seq<u8>): set<nat>
  {
    set i | 0 <= i < |cells| && cells[i] == BLOCK
  }

  /** The cells the rolls land on. */
  function RollCells(width: u32, height: u32, rolls: seq<BlockRoll>): set<nat>
    requires 0 < width && 0 < height && width * height < U32_MOD
  {
    set r | r in rolls :: RollIndex(width, height, r)
  }

  /** Stamping changes exactly the cells the rolls land on, each to `BLOCK`. */
  lemma {:induction false} StampedCells(cells: seq<u8>, width: u32, height: u32, rolls: seq<BlockRoll>, i: nat)
    requires 0 < width && 0 < height && width * height < U32_MOD && |cells| == width * height
    requires i < |cells|
    ensures Stamped(cells, width, height, rolls)[i] ==
      if i in RollCells(width, height, rolls) then BLOCK else cells[i]
    decreases |rolls|
  {
    if rolls != [] {
      var init, last := rolls[..|rolls| - 1], rolls[|rolls| - 1];
      StampedCells(cells, width, height, init, i);
      assert rolls == init + [last];
      assert RollCells(width, height, rolls) == RollCells(width, height, init) + {RollIndex(width, height, last)};
    }
  }

  /** At most one cell per roll. */
  lemma {:induction false} RollCellsSize(width: u32, height: u32, rolls: seq<BlockRoll>)
    requires 0 < width && 0 < height && width * height < U32_MOD
    ensures |RollCells(width, height, rolls)| <= |rolls|
    decreases |rolls|
  {
    if rolls != [] {
      var init, last := rolls[..|rolls| - 1], rolls[|rolls| - 1];
      RollCellsSize(width, height, init);
      assert rolls == init + [last];
      assert RollCells(width, height, rolls) == RollCells(width, height, init) + {RollIndex(width, height, last)};
    }
  }

  /** On an all-empty grid, stamping leaves every cell empty or blocked
      and blocks at most one cell per roll. */
  lemma StampedFresh(n: nat, width: u32, height: u32, rolls: seq<BlockRoll>)
    requires 0 < width && 0 < height && width * height < U32_MOD && n == width * height
    ensures var r := Stamped(seq(n, _ => 0), width, height, rolls);
      && (forall i :: 0 <= i < |r| ==> r[i] == 0 || r[i] == BLOCK)
      && |Blocks(r)| <= |rolls|
  {
    var cells: seq<u8> := seq(n, _ => 0);
    var r := Stamped(cells, width, height, rolls);
    forall i | 0 <= i < |r|
      ensures r[i] == 0 || r[i] == BLOCK
    {
      StampedCells(cells, width, height, rolls, i);
    }
    assert Blocks(r) <= RollCells(width, height, rolls) by {
      forall i | i in Blocks(r)
        ensures i in RollCells(width, height, rolls)
      {
        StampedCells(cells, width, height, rolls, i);
      }
    }
    RollCellsSize(width, height, rolls);
    Arith.SubsetSize(Blocks(r), RollCells(width, height, rolls));
  }

  /** The tile grid: `width` x `height` cells of one byte, row-major in `data`. */
  class Level {
    var width: u32
    var height: u32
    var data: seq<u8>

    /** The buffer holds one cell per position, and the cell count fits in
        the `u32` the source computes it in. */
    ghost predicate Valid()
      reads this
    {
      |data| == width * height && width * height < U32_MOD
    }

    /** `Level()`: an empty grid. */
    constructor ()
      ensures Valid()
      ensures width == 0 && height == 0 && data == []
    {
      width, height, data := 0, 0, [];
    }

    /** `Idx(x, y, &idx)`: the cell index of (x, y), or nothing out of range. */
    function Idx(x: u32, y: u32): (r: Option<u32>)
      reads this
      requires Valid()
      ensures r.Some? <==> x < width && y < height
      ensures r.Some? ==> r.value == y * width + x && r.value < |data|
    {
      CellIndex(width, height, x, y)
    }

    /** `Get(x, y)`: the cell at (x, y), or `0xff` out of range. */
    function Get(x: u32, y: u32): (v: u8)
      reads this
      requires Valid()
      ensures x < width && y < height ==> y * width + x < |data| && v == data[y * width + x]
      ensures !(x < width && y < height) ==> v == OUT_OF_RANGE
    {
      var idx := Idx(x, y);
      if idx.Some? then
        Arith.RowMajorBound(width, height, x, y);
        data[idx.value]
      else
        OUT_OF_RANGE
    }

    /** `Set(x, y, v)`: writes the one cell at (x, y) if it is in range,
        and otherwise does nothing. */
    method Set(x: u32, y: u32, v: u8)
      requires Valid()
      modifies this
      ensures Valid() && width == old(width) && height == old(height)
      ensures x < width && y < height ==>
        y * width + x < |old(data)| && data == old(data)[y * width + x := v] && Get(x, y) == v
      ensures !(x < width && y < height) ==> data == old(data)
      ensures forall x': u32, y': u32 :: (x' != x || y' != y) ==> Get(x', y') == old(Get(x', y'))
    {
      var idx := Idx(x, y);
      if idx.Some? {
        ghost var i := y * width + x;
        assert idx.value == i < |data|;
        data := data[idx.value := v];
        forall x': u32, y': u32 | x' != x || y' != y
          ensures Get(x', y') == old(Get(x', y'))
        {
          if x' < width && y' < height {
            CellIndexDistinct(width, height, x, y, x', y');
          }
        }
      }
    }

    /** `Init(width, height)` of level.cpp: sizes the buffer to
        `width * height` cells and stamps `LEVEL_BLOCKS` random blocks. */
    method Init(w: u32, h: u32, rolls: seq<BlockRoll>)
      requires Valid()
      requires 0 < w && 0 < h && w * h < U32_MOD
      requires |rolls| == LEVEL_BLOCKS
      modifies this
      ensures Valid() && width == w && height == h
      ensures data == Stamped(Resized(old(data), w * h), w, h, rolls)
      ensures old(data) == [] ==>
        (forall i :: 0 <= i < |data| ==> data[i] == 0 || data[i] == BLOCK) && |Blocks(data)| <= LEVEL_BLOCKS
    {
      width := w;
      height := h;
      data := Resized(data, width * height);
      StampBlocks(rolls);
      if old(data) == [] {
        assert Resized(old(data), w * h) == seq(w * h, _ => 0);
        StampedFresh(w * h, w, h, rolls);
      }
    }

    /** `Level::Init(width, height)` of pang.cpp: the same, with
        `PANG_BLOCKS` random blocks. */
    method InitPang(w: u32, h: u32, rolls: seq<BlockRoll>)
      requires Valid()
      requires 0 < w && 0 < h && w * h < U32_MOD
      requires |rolls| == PANG_BLOCKS
      modifies this
      ensures Valid() && width == w && height == h
      ensures data == Stamped(Resized(old(data), w * h), w, h, rolls)
      ensures old(data) == [] ==>
        (forall i :: 0 <= i < |data| ==> data[i] == 0 || data[i] == BLOCK) && |Blocks(data)| <= PANG_BLOCKS
    {
      width := w;
      height := h;
      data := Resized(data, width * height);
      StampBlocks(rolls);
      if old(data) == [] {
        assert Resized(old(data), w * h) == seq(w * h, _ => 0);
        StampedFresh(w * h, w, h, rolls);
      }
    }

    /** The block loop of `Init`: for each roll, `Set(rand() % width, rand() % height, 1)`. */
    method StampBlocks(rolls: seq<BlockRoll>)
      requires Valid() && 0 < width && 0 < height
      modifies this
      ensures Valid() && width == old(width) && height == old(height)
      ensures data == Stamped(old(data), width, height, rolls)
    {
      var i := 0;
      while i < |rolls|
        invariant 0 <= i <= |rolls|
        invariant Valid() && width == old(width) && height == old(height)
        invariant data == Stamped(old(data), width, height, rolls[..i])
      {
        var x := rolls[i].rx % width;
        var y := rolls[i].ry % height;
        Set(x, y, BLOCK);
        assert rolls[..i + 1][..i] == rolls[..i];
        i := i + 1;
      }
      assert rolls[..|rolls|] == rolls;
    }
  }
}

/** The Bresenham rasteriser `Line` of math_utils.cpp. */
module MathUtils {
  import opened Utils
  import Arith

  /** An integer grid point (`sf::Vector2i`). */
  datatype Vector2i = Vector2i(x: int, y: int)

  /** The coordinate reached after `k` unit steps from `from` in the
      direction Line uses for `to` (`sx`, `sy`: +1 when `from < to`, else -1). */
  function Toward(from: int, to: int, k: int): int
  {
    if from < to then from + k else from - k
  }

  /** How many steps the minor axis has taken after `k` steps along the
      major axis: `k * minor / major` rounded to the nearest integer,
      halves rounded up. */
  function MinorSteps(major: int, minor: int, k: int): int
    requires major > 0
  {
    (2 * minor * k + major) / (2 * major)
  }

  /** The `k`-th point of the line from (x0, y0) to (x1, y1): the axis with
      the larger extent advances one step per point, the other follows
      `MinorSteps`. When both extents are equal the y axis leads. */
  function LinePoint(x0: int, y0: int, x1: int, y1: int, k: int): Vector2i
  {
    var dx, dy := Abs(x1 - x0), Abs(y1 - y0);
    if dx > dy then
      Vector2i(Toward(x0, x1, k), Toward(y0, y1, MinorSteps(dx, dy, k)))
    else if dy == 0 then
      Vector2i(x0, y0)
    else
      Vector2i(Toward(x0, x1, MinorSteps(dy, dx, k)), Toward(y0, y1, k))
  }

  /** The number of steps along the major axis. */
  function MajorExtent(x0: int, y0: int, x1: int, y1: int): nat
  {
    Max(Abs(x1 - x0), Abs(y1 - y0))
  }

  /** The tile path from (x0, y0) to (x1, y1), one point per major step. */
  function LinePoints(x0: int, y0: int, x1: int, y1: int): seq<Vector2i>
  {
    seq(MajorExtent(x0, y0, x1, y1) + 1, k => LinePoint(x0, y0, x1, y1, k))
  }

  /** The `int` arithmetic of Line does not overflow: both differences and
      their absolute values fit, and so do the largest values `ofs` and
      `threshold` reach, `major + 2 * major * minor`. */
  predicate LineInRange(x0: int32, y0: int32, x1: int32, y1: int32)
  {
    && -INT_MAX <= x1 - x0 <= INT_MAX
    && -INT_MAX <= y1 - y0 <= INT_MAX
    && var dx, dy := Abs(x1 - x0), Abs(y1 - y0);
       Max(dx, dy) + 2 * Max(dx, dy) * Min(dx, dy) <= INT_MAX
  }

  /** `Line(x0, y0, x1, y1, line)`: clears `line` and fills it with the
      Bresenham path between the two points, both included. */
  method Line(x0: int32, y0: int32, x1: int32, y1: int32) returns (line: seq<Vector2i>)
    requires LineInRange(x0, y0, x1, y1)
    ensures line == LinePoints(x0, y0, x1, y1)
  {
    var dx: int32 := Abs(x1 - x0);
    var sx: int32 := if x0 < x1 then 1 else -1;
    var dy: int32 := Abs(y1 - y0);
    var sy: int32 := if y0 < y1 then 1 else -1;

    if dx > dy {
      line := WalkXMajor(x0, y0, x1, y1, dx, sx, dy, sy);
    } else {
      line := WalkYMajor(x0, y0, x1, y1, dx, sx, dy, sy);
    }
  }

  /** The first loop of Line, taken when the x extent is the larger one. */
  method WalkXMajor(x0: int32, y0: int32, x1: int32, y1: int32,
                    dx: int32, sx: int32, dy: int32, sy: int32) returns (line: seq<Vector2i>)
    requires LineInRange(x0, y0, x1, y1)
    requires dx == Abs(x1 - x0) && dy == Abs(y1 - y0) && dx > dy
    requires sx == (if x0 < x1 then 1 else -1) && sy == (if y0 < y1 then 1 else -1)
    ensures line == LinePoints(x0, y0, x1, y1)
  {
    line := [];
    var x: int32, y: int32 := x0, y0;
    var ofs: int32 := 0;
    var threshold: int32 := dx;
    ghost var k: int := 0;
    ghost var m: int := 0;
    while true
      invariant 0 <= k <= dx && 0 <= m <= dy
      invariant x == Toward(x0, x1, k) && y == Toward(y0, y1, m)
      invariant ofs == 2 * dy * k && threshold == dx + 2 * dx * m
      invariant 2 * dx * m <= 2 * dy * k + dx < 2 * dx * m + 2 * dx
      invariant |line| == k
      invariant forall j :: 0 <= j < k ==> line[j] == LinePoint(x0, y0, x1, y1, j)
      decreases dx - k
    {
      PointAt(x0, y0, x1, y1, k, m);
      line := line + [Vector2i(x, y)];
      if x == x1 {
        break;
      }
      Step(dx, dy, k, m);
      ofs := ofs + 2 * dy;
      if ofs >= threshold {
        y := y + sy;
        threshold := threshold + 2 * dx;
        m := m + 1;
      }
      x := x + sx;
      k := k + 1;
    }
  }

  /** The second loop of Line, taken when the y extent is at least the x extent. */
  method WalkYMajor(x0: int32, y0: int32, x1: int32, y1: int32,
                    dx: int32, sx: int32, dy: int32, sy: int32) returns (line: seq<Vector2i>)
    requires LineInRange(x0, y0, x1, y1)
    requires dx == Abs(x1 - x0) && dy == Abs(y1 - y0) && dx <= dy
    requires sx == (if x0 < x1 then 1 else -1) && sy == (if y0 < y1 then 1 else -1)
    ensures line == LinePoints(x0, y0, x1, y1)
  {
    line := [];
    var x: int32, y: int32 := x0, y0;
    var ofs: int32 := 0;
    var threshold: int32 := dy;
    ghost var k: int := 0;
    ghost var m: int := 0;
    while true
      invariant 0 <= k <= dy && 0 <= m <= dx
      invariant y == Toward(y0, y1, k) && x == Toward(x0, x1, m)
      invariant ofs == 2 * dx * k && threshold == dy + 2 * dy * m
      invariant dy > 0 ==> 2 * dy * m <= 2 * dx * k + dy < 2 * dy * m + 2 * dy
      invariant dy == 0 ==> k == 0 && m == 0
      invariant |line| == k
      invariant forall j :: 0 <= j < k ==> line[j] == LinePoint(x0, y0, x1, y1, j)
      decreases dy - k
    {
      PointAt(x0, y0, x1, y1, k, m);
      line := line + [Vector2i(x, y)];
      if y == y1 {
        break;
      }
      Step(dy, dx, k, m);
      ofs := ofs + 2 * dx;
      if ofs >= threshold {
        x := x + sx;
        threshold := threshold + 2 * dy;
        m := m + 1;
      }
      y := y + sy;
      k := k + 1;
    }
  }

  /** The `k`-th point once the minor axis is known to have taken `m` steps. */
  lemma PointAt(x0: int, y0: int, x1: int, y1: int, k: int, m: int)
    requires Abs(x1 - x0) > Abs(y1 - y0) ==> 2 * Abs(x1 - x0) * m <= 2 * Abs(y1 - y0) * k + Abs(x1 - x0) < 2 * Abs(x1 - x0) * m + 2 * Abs(x1 - x0)
    requires Abs(x1 - x0) <= Abs(y1 - y0) && Abs(y1 - y0) > 0 ==> 2 * Abs(y1 - y0) * m <= 2 * Abs(x1 - x0) * k + Abs(y1 - y0) < 2 * Abs(y1 - y0) * m + 2 * Abs(y1 - y0)
    requires Abs(x1 - x0) <= Abs(y1 - y0) && Abs(y1 - y0) == 0 ==> k == 0 && m == 0
    ensures LinePoint(x0, y0, x1, y1, k) ==
      if Abs(x1 - x0) > Abs(y1 - y0) then Vector2i(Toward(x0, x1, k), Toward(y0, y1, m))
      else Vector2i(Toward(x0, x1, m), Toward(y0, y1, k))
  {
    var dx, dy := Abs(x1 - x0), Abs(y1 - y0);
    if dx > dy {
      Arith.DivFromBounds(2 * dy * k + dx, 2 * dx, m);
    } else if dy > 0 {
      Arith.DivFromBounds(2 * dx * k + dy, 2 * dy, m);
    }
  }

  /** The error band of one loop step, over `ofs == 2 * minor * k` and
      `band == 2 * major * m`: `ofs + major` stays in `[band, band + 2 * major)`
      once `band` grows by `2 * major` exactly when `ofs` reaches the threshold. */
  lemma StepBand(major: int, minor: int, ofs: int, band: int)
    requires 0 <= minor <= major
    requires band <= ofs + major < band + 2 * major
    ensures ofs + 2 * minor >= major + band ==>
      band + 2 * major <= ofs + 2 * minor + major < band + 4 * major
    ensures ofs + 2 * minor < major + band ==>
      band <= ofs + 2 * minor + major < band + 2 * major
  {
  }

  /** One iteration of either loop of Line, stated over its major extent
      `major`, minor extent `minor`, major steps `k` and minor steps `m`,
      with `ofs == 2 * minor * k` and `threshold == major + 2 * major * m`:
      after `ofs` grows by `2 * minor`, it stays below `2 * major * minor`,
      and if it reaches `threshold` the minor axis has a step left. */
  lemma Step(major: int, minor: int, k: int, m: int)
    requires 0 <= minor <= major && 0 <= k < major && 0 <= m
    requires 2 * major * m <= 2 * minor * k + major
    ensures 2 * minor * (k + 1) == 2 * minor * k + 2 * minor <= 2 * major * minor
    ensures 2 * major * (m + 1) == 2 * major * m + 2 * major
    ensures 2 * minor * k + 2 * minor >= major + 2 * major * m ==>
      m + 1 <= minor && 2 * major * m + 2 * major <= 2 * major * minor
  {
    var ofs := 2 * minor * k;
    assert 2 * minor * (k + 1) == ofs + 2 * minor;
    assert 2 * major * (m + 1) == 2 * major * m + 2 * major;
    Arith.MulMonoLe(2 * minor, k + 1, major);
    assert 2 * minor * major == 2 * major * minor;
    if ofs + 2 * minor >= major + 2 * major * m {
      if m + 1 > minor {
        Arith.MulMonoLe(2 * major, minor, m);
        assert false;
      }
      Arith.MulMonoLe(2 * major, m + 1, minor);
    }
  }

  /** One iteration keeps the loops' error term in its band: with `m`
      advanced exactly when `ofs` reaches `threshold`, `2 * minor * k + major`
      lies in `[2 * major * m, 2 * major * m + 2 * major)` again for `k + 1`. */
  lemma StepKeepsBand(major: int, minor: int, k: int, m: int)
    requires 0 <= minor <= major
    requires 2 * major * m <= 2 * minor * k + major < 2 * major * m + 2 * major
    ensures var m' := if 2 * minor * k + 2 * minor >= major + 2 * major * m then m + 1 else m;
      2 * major * m' <= 2 * minor * (k + 1) + major < 2 * major * m' + 2 * major
  {
    assert 2 * minor * (k + 1) == 2 * minor * k + 2 * minor;
    assert 2 * major * (m + 1) == 2 * major * m + 2 * major;
    StepBand(major, minor, 2 * minor * k, 2 * major * m);
  }

  /** The path has one point per step along the major axis plus one, and
      starts at (x0, y0). */
  lemma LineStart(x0: int, y0: int, x1: int, y1: int)
    ensures |LinePoints(x0, y0, x1, y1)| == Max(Abs(x1 - x0), Abs(y1 - y0)) + 1
    ensures LinePoints(x0, y0, x1, y1)[0] == Vector2i(x0, y0)
  {
    var dx, dy := Abs(x1 - x0), Abs(y1 - y0);
    if dx > dy {
      Arith.DivFromBounds(dx, 2 * dx, 0);
    } else if dy > 0 {
      Arith.DivFromBounds(dy, 2 * dy, 0);
    }
  }

  /** After all its major steps the minor axis has taken all its steps. */
  lemma MinorStepsAll(major: nat, minor: nat)
    requires major > 0
    ensures MinorSteps(major, minor, major) == minor
  {
    assert 2 * minor * major + major == (2 * major) * minor + major;
    Arith.DivFromBounds(2 * minor * major + major, 2 * major, minor);
  }

  /** The path ends at (x1, y1): the minor axis has taken exactly its
      extent in steps when the major axis reaches its target. */
  lemma LineEnd(x0: int, y0: int, x1: int, y1: int)
    ensures LinePoints(x0, y0, x1, y1)[MajorExtent(x0, y0, x1, y1)] == Vector2i(x1, y1)
  {
    var dx, dy := Abs(x1 - x0), Abs(y1 - y0);
    var n := MajorExtent(x0, y0, x1, y1);
    assert LinePoints(x0, y0, x1, y1)[n] == LinePoint(x0, y0, x1, y1, n);
    if dx > dy {
      MinorStepsAll(dx, dy);
      assert Toward(x0, x1, dx) == x1 && Toward(y0, y1, dy) == y1;
    } else if dy > 0 {
      MinorStepsAll(dy, dx);
      assert Toward(x0, x1, dx) == x1 && Toward(y0, y1, dy) == y1;
    }
  }

  /** Between consecutive points the major coordinate moves exactly one step
      towards its target and the minor coordinate moves zero or one step
      towards its target; so each step goes to one of the eight neighbours. */
  lemma {:induction false} LineSteps(x0: int, y0: int, x1: int, y1: int, k: nat)
    requires k < MajorExtent(x0, y0, x1, y1)
    ensures var p, q := LinePoints(x0, y0, x1, y1)[k], LinePoints(x0, y0, x1, y1)[k + 1];
      var sx, sy := (if x0 < x1 then 1 else -1), (if y0 < y1 then 1 else -1);
      if Abs(x1 - x0) > Abs(y1 - y0) then
        q.x - p.x == sx && (q.y - p.y == 0 || q.y - p.y == sy)
      else
        q.y - p.y == sy && (q.x - p.x == 0 || q.x - p.x == sx)
    ensures var p, q := LinePoints(x0, y0, x1, y1)[k], LinePoints(x0, y0, x1, y1)[k + 1];
      p != q && -1 <= q.x - p.x <= 1 && -1 <= q.y - p.y <= 1
  {
    var dx, dy := Abs(x1 - x0), Abs(y1 - y0);
    if dx > dy {
      MinorStepsStep(dx, dy, k);
    } else {
      MinorStepsStep(dy, dx, k);
    }
  }

  /** The minor axis advances by zero or one from one major step to the next. */
  lemma MinorStepsStep(major: int, minor: int, k: int)
    requires 0 <= minor <= major && major > 0
    ensures MinorSteps(major, minor, k + 1) - MinorSteps(major, minor, k) in {0, 1}
  {
    var a, d := 2 * minor * k + major, 2 * major;
    var q := a / d;
    assert d * q <= a < d * q + d;
    assert 2 * minor * (k + 1) + major == a + 2 * minor;
    if a + 2 * minor < d * q + d {
      Arith.DivFromBounds(a + 2 * minor, d, q);
    } else {
      Arith.DivFromBounds(a + 2 * minor, d, q + 1);
    }
  }

  /** Identical endpoints give exactly one point. */
  lemma LineSinglePoint(x: int, y: int)
    ensures LinePoints(x, y, x, y) == [Vector2i(x, y)]
  {
    LineStart(x, y, x, y);
  }

  /** When both extents are equal and non-zero every step changes both
      coordinates: the path is a pure diagonal. */
  lemma {:induction false} LineDiagonal(x0: int, y0: int, x1: int, y1: int, k: nat)
    requires Abs(x1 - x0) == Abs(y1 - y0) > 0 && k <= Abs(x1 - x0)
    ensures LinePoints(x0, y0, x1, y1)[k] == Vector2i(Toward(x0, x1, k), Toward(y0, y1, k))
  {
    var d := Abs(x1 - x0);
    Arith.DivFromBounds(2 * d * k + d, 2 * d, k);
  }

  /** From (0, 0) to (2, 1) the path passes (1, 1). */
  lemma LineForwardExample()
    ensures LinePoints(0, 0, 2, 1) == [Vector2i(0, 0), Vector2i(1, 1), Vector2i(2, 1)]
  {
    assert LinePoint(0, 0, 2, 1, 0) == Vector2i(0, 0);
    assert LinePoint(0, 0, 2, 1, 1) == Vector2i(1, 1);
    assert LinePoint(0, 0, 2, 1, 2) == Vector2i(2, 1);
  }

  /** From (2, 1) to (0, 0) the path passes (1, 0). */
  lemma LineBackwardExample()
    ensures LinePoints(2, 1, 0, 0) == [Vector2i(2, 1), Vector2i(1, 0), Vector2i(0, 0)]
  {
    assert LinePoint(2, 1, 0, 0, 0) == Vector2i(2, 1);
    assert LinePoint(2, 1, 0, 0, 1) == Vector2i(1, 0);
    assert LinePoint(2, 1, 0, 0, 2) == Vector2i(0, 0);
  }

  /** The path depends on the direction it is drawn in: the two paths
      between (0, 0) and (2, 1) have three tiles each but different middle
      tiles, so reversing the endpoints does not give the same tile set. */
  lemma LineNotReversible()
    ensures |LinePoints(0, 0, 2, 1)| == |LinePoints(2, 1, 0, 0)| == 3
    ensures LinePoints(0, 0, 2, 1)[1] != LinePoints(2, 1, 0, 0)[1]
  {
    LineForwardExample();
    LineBackwardExample();
  }
}

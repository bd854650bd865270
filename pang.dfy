/** The action scheduling of `Game` in pang.cpp: a pending queue of move
    and bullet actions, a list of moves in progress, and the per-player
    entities the moves drive. */
module Pang {
  import opened Wrappers
  import opened Types

  /** `Vector2f`, with exact reals for the floats. */
  datatype Vec2 = Vec2(x: real, y: real)

  /** `ActionMove` and `ActionBullet`; times are microseconds. */
  datatype Action =
    | MoveAction(playerId: u32, from: Vec2, to: Vec2, startTime: int, endTime: int)
    | BulletAction(playerId: u32, pos: Vec2, dir: Vec2)

  /** A bullet in flight. */
  datatype Bullet = Bullet(pos: Vec2, dir: Vec2, playerId: u32)

  /** The fields of `Entity` the actions touch. */
  datatype Entity = Entity(pos: Vec2, rot: real, vel: real)

  /** `Entity()`: at the origin, not rotated, not moving. */
  const DEFAULT_ENTITY := Entity(Vec2(0.0, 0.0), 0.0, 0.0)
  /** A move lasts `milliseconds(500)`. */
  const MOVE_DURATION: int := 500000
  /** `_gridSize`. */
  const GRID_SIZE: real := 25.0

  /** C++ float-to-int conversion: truncation toward zero. */
  function Trunc(r: real): (n: int)
    ensures 0.0 <= r ==> n as real <= r < n as real + 1.0
    ensures r < 0.0 ==> n as real - 1.0 < r <= n as real
  {
    if r >= 0.0 then r.Floor else -((-r).Floor)
  }

  /** The coordinate of grid line `i`. */
  function GridCoord(i: int): real
  {
    i as real * GRID_SIZE
  }

  /** `SnappedPos`: the grid corner nearest to `pos`, rounding halves up
      for non-negative coordinates (the conversion truncates toward zero).
      The result lies on the grid. */
  function SnappedPos(pos: Vec2): (r: Vec2)
    ensures exists i: int, j: int :: r == Vec2(GridCoord(i), GridCoord(j))
  {
    var i, j := Trunc((pos.x + GRID_SIZE / 2.0) / GRID_SIZE), Trunc((pos.y + GRID_SIZE / 2.0) / GRID_SIZE);
    var r := Vec2(GridCoord(i), GridCoord(j));
    assert r == Vec2(GridCoord(i), GridCoord(j));  // witness for the grid lines
    r
  }

  /** A whole number plus a half truncates to the whole number. */
  lemma TruncHalf(n: nat)
    ensures Trunc(n as real + 0.5) == n
  {
    assert (n as real + 0.5).Floor == n;
  }

  /** Snapping a grid corner with non-negative coordinates leaves it where it is. */
  lemma SnapGridCorner(i: nat, j: nat)
    ensures SnappedPos(Vec2(i as real * GRID_SIZE, j as real * GRID_SIZE)) ==
      Vec2(i as real * GRID_SIZE, j as real * GRID_SIZE)
  {
    assert (i as real * GRID_SIZE + GRID_SIZE / 2.0) / GRID_SIZE == i as real + 0.5;
    assert (j as real * GRID_SIZE + GRID_SIZE / 2.0) / GRID_SIZE == j as real + 0.5;
    TruncHalf(i);
    TruncHalf(j);
  }

  /** A non-negative position snaps to the grid corner within half a cell of it. */
  lemma SnappedPosNearest(pos: Vec2)
    requires 0.0 <= pos.x && 0.0 <= pos.y
    ensures var r := SnappedPos(pos);
      && pos.x - GRID_SIZE / 2.0 < r.x <= pos.x + GRID_SIZE / 2.0
      && pos.y - GRID_SIZE / 2.0 < r.y <= pos.y + GRID_SIZE / 2.0
  {
  }

  /** `total_milliseconds()` of a duration in microseconds (truncating). */
  function Millis(us: int): (ms: int)
    ensures 0 <= us ==> 1000 * ms <= us < 1000 * ms + 1000
    ensures us < 0 ==> 1000 * ms - 1000 < us <= 1000 * ms
  {
    if us >= 0 then us / 1000 else -((-us) / 1000)
  }

  /** The position a move puts its entity at, `now` microseconds into the
      clock: `from + delta * (to - from)` with `delta` the elapsed whole
      milliseconds over the move's whole milliseconds. */
  function Interpolated(m: Action, now: int): (r: Vec2)
    requires m.MoveAction? && m.endTime == m.startTime + MOVE_DURATION
    ensures now == m.startTime ==> r == m.from
    ensures now == m.endTime ==> r == m.to
  {
    assert Millis(0) == 0 && Millis(MOVE_DURATION) == 500;
    var delta := Millis(now - m.startTime) as real / Millis(m.endTime - m.startTime) as real;
    Vec2(m.from.x + delta * (m.to.x - m.from.x), m.from.y + delta * (m.to.y - m.from.y))
  }

  /** `_entities[id]`: `operator[]` yields a default entity for a new id. */
  function EntityAt(entities: map<u32, Entity>, id: u32): Entity
  {
    if id in entities then entities[id] else DEFAULT_ENTITY
  }

  predicate IsMoveOf(a: Action, p: u32)
  {
    a.MoveAction? && a.playerId == p
  }

  /** The moves of player `p` in `s`, in order. */
  function MovesOf(s: seq<Action>, p: u32): (r: seq<Action>)
    ensures |r| <= |s|
    ensures forall i :: 0 <= i < |r| ==> IsMoveOf(r[i], p) && r[i] in s
  {
    if s == [] then []
    else (if IsMoveOf(s[0], p) then [s[0]] else []) + MovesOf(s[1..], p)
  }

  /** `s` without the moves of player `p`, in order. */
  function WithoutMoves(s: seq<Action>, p: u32): (r: seq<Action>)
    ensures |r| <= |s|
  {
    if s == [] then []
    else (if IsMoveOf(s[0], p) then [] else [s[0]]) + WithoutMoves(s[1..], p)
  }

  /** At most one move per player. */
  ghost predicate UniqueMoves(s: seq<Action>)
  {
    forall p: u32 :: |MovesOf(s, p)| <= 1
  }

  /** Only moves. */
  ghost predicate OnlyMoves(s: seq<Action>)
  {
    forall a :: a in s ==> a.MoveAction?
  }

  /** Every move lasts `MOVE_DURATION`. */
  ghost predicate WellTimed(s: seq<Action>)
  {
    forall a :: a in s && a.MoveAction? ==> a.endTime == a.startTime + MOVE_DURATION
  }

  /** `MovesOf` keeps exactly the moves of `p`. */
  lemma {:induction false} MovesOfMember(s: seq<Action>, p: u32)
    ensures forall a :: a in MovesOf(s, p) <==> a in s && IsMoveOf(a, p)
  {
    if s != [] {
      MovesOfMember(s[1..], p);
      assert s == [s[0]] + s[1..];
    }
  }

  /** `WithoutMoves` keeps exactly the actions that are not moves of `p`. */
  lemma {:induction false} WithoutMovesMember(s: seq<Action>, p: u32)
    ensures forall a :: a in WithoutMoves(s, p) <==> a in s && !IsMoveOf(a, p)
  {
    if s != [] {
      WithoutMovesMember(s[1..], p);
      assert s == [s[0]] + s[1..];
    }
  }

  lemma {:induction false} MovesOfConcat(s: seq<Action>, t: seq<Action>, p: u32)
    ensures MovesOf(s + t, p) == MovesOf(s, p) + MovesOf(t, p)
  {
    if s != [] {
      MovesOfConcat(s[1..], t, p);
      assert (s + t)[0] == s[0];
      assert (s + t)[1..] == s[1..] + t;
    } else {
      assert s + t == t;
    }
  }

  /** One more element at the end of `s` through `MovesOf`. */
  lemma MovesOfSnoc(s: seq<Action>, p: u32)
    requires s != []
    ensures var last := s[|s| - 1];
      MovesOf(s, p) == MovesOf(s[..|s| - 1], p) + if IsMoveOf(last, p) then [last] else []
  {
    var last := s[|s| - 1];
    assert s == s[..|s| - 1] + [last];
    MovesOfConcat(s[..|s| - 1], [last], p);
    assert MovesOf([last], p) == if IsMoveOf(last, p) then [last] else [];
  }

  /** Erasing the moves of `p` removes exactly as many actions as `p` has
      moves: the list splits into the moves of `p` and the rest. */
  lemma {:induction false} WithoutMovesCount(s: seq<Action>, p: u32)
    ensures |WithoutMoves(s, p)| + |MovesOf(s, p)| == |s|
  {
    if s != [] {
      WithoutMovesCount(s[1..], p);
    }
  }

  lemma {:induction false} WithoutMovesConcat(s: seq<Action>, t: seq<Action>, p: u32)
    ensures WithoutMoves(s + t, p) == WithoutMoves(s, p) + WithoutMoves(t, p)
  {
    if s != [] {
      WithoutMovesConcat(s[1..], t, p);
      assert (s + t)[0] == s[0];
      assert (s + t)[1..] == s[1..] + t;
      assert WithoutMoves(s + t, p) ==
        (if IsMoveOf(s[0], p) then [] else [s[0]]) + WithoutMoves(s[1..] + t, p);
    } else {
      assert s + t == t;
    }
  }

  /** Removing `p`'s moves removes all of them and no one else's. */
  lemma {:induction false} MovesOfWithout(s: seq<Action>, p: u32, q: u32)
    ensures MovesOf(WithoutMoves(s, p), q) == if p == q then [] else MovesOf(s, q)
  {
    if s != [] {
      MovesOfWithout(s[1..], p, q);
      MovesOfConcat(if IsMoveOf(s[0], p) then [] else [s[0]], WithoutMoves(s[1..], p), q);
    }
  }

  /** The pending queue after queueing move `m` of player `p`: the first
      queued move of `p` is overwritten in place, or else `m` is appended. */
  function QueueMove(queue: seq<Action>, p: u32, m: Action): (r: seq<Action>)
    requires IsMoveOf(m, p)
    ensures |r| == |queue| || |r| == |queue| + 1
    ensures m in r
    ensures forall a :: a in r ==> a in queue || a == m
  {
    if queue == [] then [m]
    else if IsMoveOf(queue[0], p) then [m] + queue[1..]
    else [queue[0]] + QueueMove(queue[1..], p, m)
  }

  /** Queueing a move of `p` leaves `p` with `m` in front of its queued moves
      bar the first, and every other player's moves as they were. */
  lemma {:induction false} QueueMoveMoves(queue: seq<Action>, p: u32, m: Action, q: u32)
    requires IsMoveOf(m, p)
    ensures MovesOf(QueueMove(queue, p, m), q) ==
      if q != p then MovesOf(queue, q)
      else if MovesOf(queue, p) == [] then [m]
      else [m] + MovesOf(queue, p)[1..]
  {
    if queue == [] {
    } else if IsMoveOf(queue[0], p) {
      MovesOfConcat([m], queue[1..], q);
      assert MovesOf(queue, q) == (if IsMoveOf(queue[0], q) then [queue[0]] else []) + MovesOf(queue[1..], q);
      if q == p {
        assert MovesOf(queue, p)[1..] == MovesOf(queue[1..], p);
      }
    } else {
      var rest := QueueMove(queue[1..], p, m);
      QueueMoveMoves(queue[1..], p, m, q);
      MovesOfConcat([queue[0]], rest, q);
      assert MovesOf(queue, q) == (if IsMoveOf(queue[0], q) then [queue[0]] else []) + MovesOf(queue[1..], q);
      if q == p {
        assert MovesOf(queue, p) == MovesOf(queue[1..], p);
      }
    }
  }

  /** Queueing a move of `p` leaves every action other than `p`'s moves in place and in order. */
  lemma {:induction false} QueueMoveOthers(queue: seq<Action>, p: u32, m: Action)
    requires IsMoveOf(m, p)
    ensures WithoutMoves(QueueMove(queue, p, m), p) == WithoutMoves(queue, p)
  {
    if queue == [] {
    } else if IsMoveOf(queue[0], p) {
      WithoutMovesConcat([m], queue[1..], p);
    } else {
      QueueMoveOthers(queue[1..], p, m);
      WithoutMovesConcat([queue[0]], QueueMove(queue[1..], p, m), p);
    }
  }

  /** A queue with at most one move per player keeps that property, and
      then `m` is the one queued move of `p`. */
  lemma QueueMoveUnique(queue: seq<Action>, p: u32, m: Action)
    requires IsMoveOf(m, p) && UniqueMoves(queue)
    ensures UniqueMoves(QueueMove(queue, p, m))
    ensures MovesOf(QueueMove(queue, p, m), p) == [m]
  {
    forall q: u32
      ensures |MovesOf(QueueMove(queue, p, m), q)| <= 1
    {
      QueueMoveMoves(queue, p, m, q);
      assert |MovesOf(queue, q)| <= 1;
      if q == p && MovesOf(queue, p) != [] {
        assert |MovesOf(queue, p)[1..]| == 0;
      }
    }
    QueueMoveMoves(queue, p, m, p);
    assert |MovesOf(queue, p)| <= 1;
  }

  /** The index form of `QueueMove`: overwrite the first move of `p` at `i`. */
  lemma {:induction false} QueueMoveReplace(queue: seq<Action>, p: u32, m: Action, i: nat)
    requires IsMoveOf(m, p) && i < |queue| && IsMoveOf(queue[i], p)
    requires forall k :: 0 <= k < i ==> !IsMoveOf(queue[k], p)
    ensures QueueMove(queue, p, m) == queue[i := m]
  {
    if i > 0 {
      QueueMoveReplace(queue[1..], p, m, i - 1);
    }
  }

  /** The index form of `QueueMove`: no move of `p` queued, so append. */
  lemma {:induction false} QueueMoveAppend(queue: seq<Action>, p: u32, m: Action)
    requires IsMoveOf(m, p)
    requires forall k :: 0 <= k < |queue| ==> !IsMoveOf(queue[k], p)
    ensures QueueMove(queue, p, m) == queue + [m]
  {
    if queue != [] {
      QueueMoveAppend(queue[1..], p, m);
    }
  }

  /** The in-progress list after the transfer phase of `HandleActions`
      has moved the whole `queue` over, front to back: a queued move first
      erases the in-progress moves of its player and is then appended; a
      bullet does not enter the list. */
  function Transferred(inprogress: seq<Action>, queue: seq<Action>): (r: seq<Action>)
    ensures OnlyMoves(inprogress) ==> OnlyMoves(r)
    ensures WellTimed(inprogress) && WellTimed(queue) ==> WellTimed(r)
    decreases |queue|
  {
    if queue == [] then inprogress
    else
      var init, a := queue[..|queue| - 1], queue[|queue| - 1];
      assert forall x :: x in init ==> x in queue;
      var before := Transferred(inprogress, init);
      if a.MoveAction? then
        WithoutMovesMember(before, a.playerId);
        WithoutMoves(before, a.playerId) + [a]
      else before
  }

  /** One transfer step of a move `a` leaves its player with that move alone
      and every other player's in-progress moves as they were. */
  lemma TransferStepMoves(inprogress: seq<Action>, a: Action, p: u32)
    requires a.MoveAction?
    ensures MovesOf(WithoutMoves(inprogress, a.playerId) + [a], p) ==
      if IsMoveOf(a, p) then [a] else MovesOf(inprogress, p)
  {
    MovesOfConcat(WithoutMoves(inprogress, a.playerId), [a], p);
    MovesOfWithout(inprogress, a.playerId, p);
  }

  /** After the transfer a player's in-progress moves are its last queued
      move alone, or, if it queued none, its earlier in-progress moves. */
  lemma {:induction false} TransferredMoves(inprogress: seq<Action>, queue: seq<Action>, p: u32)
    ensures var queued := MovesOf(queue, p);
      MovesOf(Transferred(inprogress, queue), p) ==
        if queued == [] then MovesOf(inprogress, p) else [queued[|queued| - 1]]
    decreases |queue|
  {
    if queue != [] {
      var init, a := queue[..|queue| - 1], queue[|queue| - 1];
      var before := Transferred(inprogress, init);
      TransferredMoves(inprogress, init, p);
      MovesOfSnoc(queue, p);
      if a.MoveAction? {
        TransferStepMoves(before, a, p);
      }
    }
  }

  /** So the transfer keeps at most one in-progress move per player. */
  lemma TransferredUnique(inprogress: seq<Action>, queue: seq<Action>)
    requires UniqueMoves(inprogress)
    ensures UniqueMoves(Transferred(inprogress, queue))
  {
    forall p: u32
      ensures |MovesOf(Transferred(inprogress, queue), p)| <= 1
    {
      TransferredMoves(inprogress, queue, p);
    }
  }

  /** The bullets the transfer phase fires, one per bullet action, in queue order. */
  function BulletsOf(queue: seq<Action>): (r: seq<Bullet>)
    ensures |r| <= |queue|
    ensures forall b :: b in r ==> BulletAction(b.playerId, b.pos, b.dir) in queue
    decreases |queue|
  {
    if queue == [] then []
    else
      var init, a := queue[..|queue| - 1], queue[|queue| - 1];
      assert forall x :: x in init ==> x in queue;
      BulletsOf(init) + if a.BulletAction? then [Bullet(a.pos, a.dir, a.playerId)] else []
  }

  /** One more queued action through the transfer: a move is one more
      erase-and-append step, a bullet one more bullet at the end. */
  lemma TransferSnoc(inprogress: seq<Action>, queue: seq<Action>, i: nat)
    requires i < |queue|
    ensures var before, a := Transferred(inprogress, queue[..i]), queue[i];
      Transferred(inprogress, queue[..i + 1]) ==
        if a.MoveAction? then WithoutMoves(before, a.playerId) + [a] else before
    ensures var a := queue[i];
      BulletsOf(queue[..i + 1]) ==
        BulletsOf(queue[..i]) + if a.BulletAction? then [Bullet(a.pos, a.dir, a.playerId)] else []
  {
    assert queue[..i + 1][..i] == queue[..i];
  }

  /** Every bullet action becomes a bullet with its position, direction and player. */
  lemma {:induction false} BulletsOfComplete(queue: seq<Action>, a: Action)
    requires a in queue && a.BulletAction?
    ensures Bullet(a.pos, a.dir, a.playerId) in BulletsOf(queue)
    decreases |queue|
  {
    var init := queue[..|queue| - 1];
    if a != queue[|queue| - 1] {
      assert queue == init + [queue[|queue| - 1]];
      BulletsOfComplete(init, a);
    }
  }

  lemma {:induction false} BulletsOfConcat(s: seq<Action>, t: seq<Action>)
    ensures BulletsOf(s + t) == BulletsOf(s) + BulletsOf(t)
    decreases |t|
  {
    if t != [] {
      var init, a := t[..|t| - 1], t[|t| - 1];
      assert (s + t)[..|s + t| - 1] == s + init;
      assert (s + t)[|s + t| - 1] == a;
      BulletsOfConcat(s, init);
    } else {
      assert s + t == s;
    }
  }

  /** A move is due once the clock has reached its end time. */
  function IsDue(a: Action, now: int): (due: bool)
    ensures due ==> a.MoveAction?
    ensures a.MoveAction? && a.endTime == a.startTime + MOVE_DURATION ==>
      (due <==> now - a.startTime >= MOVE_DURATION)
  {
    a.MoveAction? && now >= a.endTime
  }

  /** A 500 ms move is due exactly when the whole milliseconds elapsed since
      its start, as `total_milliseconds` counts them, reach its length. */
  lemma IsDueMillis(a: Action, now: int)
    requires a.MoveAction? && a.endTime == a.startTime + MOVE_DURATION
    ensures IsDue(a, now) <==> Millis(now - a.startTime) >= Millis(a.endTime - a.startTime)
  {
    assert Millis(MOVE_DURATION) == 500;
  }

  /** The in-progress list once the due moves are retired, in order. */
  function Retired(s: seq<Action>, now: int): (r: seq<Action>)
    ensures |r| <= |s|
  {
    if s == [] then []
    else (if IsDue(s[0], now) then [] else [s[0]]) + Retired(s[1..], now)
  }

  /** `Retired` keeps exactly the actions that are not due moves. */
  lemma {:induction false} RetiredMember(s: seq<Action>, now: int)
    ensures forall a :: a in Retired(s, now) <==> a in s && !IsDue(a, now)
  {
    if s != [] {
      RetiredMember(s[1..], now);
      assert s == [s[0]] + s[1..];
    }
  }

  lemma {:induction false} RetiredConcat(s: seq<Action>, t: seq<Action>, now: int)
    ensures Retired(s + t, now) == Retired(s, now) + Retired(t, now)
  {
    if s != [] {
      RetiredConcat(s[1..], t, now);
      assert (s + t)[0] == s[0];
      assert (s + t)[1..] == s[1..] + t;
    } else {
      assert s + t == t;
    }
  }

  /** One more element of `s` through `WithoutMoves`. */
  lemma WithoutMovesSnoc(s: seq<Action>, k: nat, p: u32)
    requires k < |s|
    ensures WithoutMoves(s[..k + 1], p) ==
      WithoutMoves(s[..k], p) + if IsMoveOf(s[k], p) then [] else [s[k]]
  {
    assert s[..k + 1] == s[..k] + [s[k]];
    WithoutMovesConcat(s[..k], [s[k]], p);
    assert WithoutMoves([s[k]], p) == if IsMoveOf(s[k], p) then [] else [s[k]];
  }

  /** One more element of `s` through `Retired`. */
  lemma RetiredSnoc(s: seq<Action>, k: nat, now: int)
    requires k < |s|
    ensures Retired(s[..k + 1], now) ==
      Retired(s[..k], now) + if IsDue(s[k], now) then [] else [s[k]]
  {
    assert s[..k + 1] == s[..k] + [s[k]];
    RetiredConcat(s[..k], [s[k]], now);
    assert Retired([s[k]], now) == if IsDue(s[k], now) then [] else [s[k]];
  }

  /** Erasing element `|done|` of `done + rest` leaves `done + rest[1..]`. */
  lemma EraseAt(done: seq<Action>, rest: seq<Action>)
    requires rest != []
    ensures var cur := done + rest;
      |done| < |cur| && cur[|done|] == rest[0] && cur[..|done|] + cur[|done| + 1..] == done + rest[1..]
  {
    var cur := done + rest;
    assert cur[..|done|] == done;
    assert cur[|done| + 1..] == rest[1..];
  }

  /** One iteration of the erase loop, as a list operation, in the manner
      of `RetireStep`. */
  lemma EraseStep(orig: seq<Action>, j: nat, p: u32)
    requires j < |orig|
    ensures var cur, i := WithoutMoves(orig[..j], p) + orig[j..], |WithoutMoves(orig[..j], p)|;
      && i < |cur| && cur[i] == orig[j]
      && (IsMoveOf(orig[j], p) ==>
            cur[..i] + cur[i + 1..] == WithoutMoves(orig[..j + 1], p) + orig[j + 1..]
            && |WithoutMoves(orig[..j + 1], p)| == i)
      && (!IsMoveOf(orig[j], p) ==>
            cur == WithoutMoves(orig[..j + 1], p) + orig[j + 1..]
            && |WithoutMoves(orig[..j + 1], p)| == i + 1)
  {
    var done := WithoutMoves(orig[..j], p);
    EraseAt(done, orig[j..]);
    WithoutMovesSnoc(orig, j, p);
    assert orig[j..][1..] == orig[j + 1..];
    if !IsMoveOf(orig[j], p) {
      assert orig[j..] == [orig[j]] + orig[j + 1..];
      assert done + orig[j..] == (done + [orig[j]]) + orig[j + 1..];
    }
  }

  /** One iteration of the retire loop, as a list operation: the element
      under the cursor is `moved[j]`; erasing it (when due) or stepping past
      it (when not) re-establishes the loop's shape one element further. */
  lemma RetireStep(moved: seq<Action>, j: nat, now: int)
    requires j < |moved|
    ensures var cur, k := Retired(moved[..j], now) + moved[j..], |Retired(moved[..j], now)|;
      && k < |cur| && cur[k] == moved[j]
      && (IsDue(moved[j], now) ==>
            cur[..k] + cur[k + 1..] == Retired(moved[..j + 1], now) + moved[j + 1..]
            && |Retired(moved[..j + 1], now)| == k)
      && (!IsDue(moved[j], now) ==>
            cur == Retired(moved[..j + 1], now) + moved[j + 1..]
            && |Retired(moved[..j + 1], now)| == k + 1)
  {
    var done := Retired(moved[..j], now);
    EraseAt(done, moved[j..]);
    RetiredSnoc(moved, j, now);
    assert moved[j..][1..] == moved[j + 1..];
    if !IsDue(moved[j], now) {
      assert moved[j..] == [moved[j]] + moved[j + 1..];
      assert done + moved[j..] == (done + [moved[j]]) + moved[j + 1..];
    }
  }

  /** Retiring picks a player's moves out of its moves. */
  lemma {:induction false} MovesOfRetired(s: seq<Action>, now: int, p: u32)
    ensures MovesOf(Retired(s, now), p) == Retired(MovesOf(s, p), now)
  {
    if s != [] {
      MovesOfRetired(s[1..], now, p);
      MovesOfConcat(if IsDue(s[0], now) then [] else [s[0]], Retired(s[1..], now), p);
      RetiredConcat(if IsMoveOf(s[0], p) then [s[0]] else [], MovesOf(s[1..], p), now);
    }
  }

  /** What one in-progress move does to its entity: it is placed along its
      path, and when the move is due it lands on the destination and stops. */
  function MoveEffect(e: Entity, m: Action, now: int): (r: Entity)
    requires m.MoveAction? && m.endTime == m.startTime + MOVE_DURATION
    ensures r.rot == e.rot
    ensures IsDue(m, now) ==> r.pos == m.to && r.vel == 0.0
    ensures !IsDue(m, now) ==> r.pos == Interpolated(m, now) && r.vel == e.vel
  {
    var moved := e.(pos := Interpolated(m, now));
    if now >= m.endTime then moved.(vel := 0.0, pos := m.to) else moved
  }

  /** The entities after every in-progress move of `s` has acted, front to back. */
  function Advanced(entities: map<u32, Entity>, s: seq<Action>, now: int): (r: map<u32, Entity>)
    requires WellTimed(s)
    ensures entities.Keys <= r.Keys
    decreases |s|
  {
    if s == [] then entities
    else
      var init, a := s[..|s| - 1], s[|s| - 1];
      assert forall x :: x in init ==> x in s;
      var before := Advanced(entities, init, now);
      if a.MoveAction? then before[a.playerId := MoveEffect(EntityAt(before, a.playerId), a, now)]
      else before
  }

  /** One more element of `s` through `Advanced`. */
  lemma AdvancedSnoc(entities: map<u32, Entity>, s: seq<Action>, k: nat, now: int)
    requires WellTimed(s) && k < |s|
    ensures WellTimed(s[..k]) && WellTimed(s[..k + 1])
    ensures var before := Advanced(entities, s[..k], now);
      Advanced(entities, s[..k + 1], now) ==
        if s[k].MoveAction? then before[s[k].playerId := MoveEffect(EntityAt(before, s[k].playerId), s[k], now)]
        else before
  {
    assert forall a :: a in s[..k + 1] ==> a in s;
    assert forall a :: a in s[..k] ==> a in s;
    assert s[..k + 1][..k] == s[..k];
    assert s[..k + 1][k] == s[k];
  }

  /** With at most one move per player, a player's entity is driven by its
      own move alone, and is left as it was when it has none. */
  lemma {:induction false} AdvancedEntity(entities: map<u32, Entity>, s: seq<Action>, now: int, p: u32)
    requires WellTimed(s) && |MovesOf(s, p)| <= 1
    ensures EntityAt(Advanced(entities, s, now), p) ==
      if MovesOf(s, p) == [] then EntityAt(entities, p)
      else MoveEffect(EntityAt(entities, p), MovesOf(s, p)[0], now)
    decreases |s|
  {
    if s != [] {
      var init, a := s[..|s| - 1], s[|s| - 1];
      assert s == init + [a];
      MovesOfConcat(init, [a], p);
      AdvancedEntity(entities, init, now, p);
    }
  }

  /** A due move is retired and leaves its entity exactly at the destination,
      stopped; a move not yet due stays in progress. */
  lemma RetireMove(entities: map<u32, Entity>, s: seq<Action>, now: int, m: Action)
    requires WellTimed(s) && UniqueMoves(s) && m in s && m.MoveAction?
    ensures m in Retired(s, now) <==> now < m.endTime
    ensures now >= m.endTime ==>
      EntityAt(Advanced(entities, s, now), m.playerId) ==
        EntityAt(entities, m.playerId).(pos := m.to, vel := 0.0)
  {
    MovesOfMember(s, m.playerId);
    RetiredMember(s, now);
    assert m in MovesOf(s, m.playerId);
    assert |MovesOf(s, m.playerId)| <= 1;
    AdvancedEntity(entities, s, now, m.playerId);
  }

  /** `MoveInProgressTo(s, p, to)`: an in-progress move of `p` is already
      heading for the grid cell of `to`. */
  ghost predicate MoveInProgressTo(s: seq<Action>, p: u32, to: Vec2)
  {
    exists a :: a in s && IsMoveOf(a, p) && SnappedPos(a.to) == SnappedPos(to)
  }

  /** The game's action state. Positions are validated by `isValidPos`,
      which the source answers from the level's tiles. */
  class Game {
    const isValidPos: Vec2 -> bool
    var now: int
    var actionQueue: seq<Action>
    var inprogressActions: seq<Action>
    var entities: map<u32, Entity>
    var bullets: seq<Bullet>

    /** One queued and one in-progress move at most per player, only moves
        in progress, and every move lasting `MOVE_DURATION`. */
    ghost predicate Valid()
      reads this
    {
      && UniqueMoves(actionQueue) && WellTimed(actionQueue)
      && UniqueMoves(inprogressActions) && OnlyMoves(inprogressActions)
      && WellTimed(inprogressActions)
    }

    constructor (isValidPos: Vec2 -> bool, now: int)
      ensures Valid()
      ensures this.isValidPos == isValidPos && this.now == now
      ensures actionQueue == [] && inprogressActions == [] && entities == map[] && bullets == []
    {
      this.isValidPos := isValidPos;
      this.now := now;
      actionQueue, inprogressActions, entities, bullets := [], [], map[], [];
    }

    /** `_now = microsec_clock::local_time()`, with the clock reading as a parameter. */
    method SetNow(t: int)
      modifies this
      ensures now == t
      ensures actionQueue == old(actionQueue) && inprogressActions == old(inprogressActions)
      ensures entities == old(entities) && bullets == old(bullets)
    {
      now := t;
    }

    /** `AddMoveAction(playerId, from, to)`. */
    method AddMoveAction(playerId: u32, from: Vec2, to: Vec2)
      requires Valid()
      modifies this
      ensures Valid() && now == old(now) && bullets == old(bullets)
      ensures inprogressActions == old(inprogressActions)
      ensures !(isValidPos(from) && isValidPos(to)) ==>
        && actionQueue == old(actionQueue)
        && entities == old(entities)[playerId := EntityAt(old(entities), playerId).(vel := 0.0)]
      ensures isValidPos(from) && isValidPos(to) ==> entities == old(entities)
      ensures isValidPos(from) && isValidPos(to) && MoveInProgressTo(old(inprogressActions), playerId, to) ==>
        actionQueue == old(actionQueue)
      ensures isValidPos(from) && isValidPos(to) && !MoveInProgressTo(old(inprogressActions), playerId, to) ==>
        actionQueue == QueueMove(old(actionQueue), playerId, MoveAction(playerId, from, to, now, now + MOVE_DURATION))
    {
      if !isValidPos(from) || !isValidPos(to) {
        entities := entities[playerId := EntityAt(entities, playerId).(vel := 0.0)];
        return;
      }

      var i := 0;
      while i < |inprogressActions|
        invariant 0 <= i <= |inprogressActions|
        invariant forall k :: 0 <= k < i ==>
          !(IsMoveOf(inprogressActions[k], playerId) && SnappedPos(inprogressActions[k].to) == SnappedPos(to))
      {
        var a := inprogressActions[i];
        if a.MoveAction? && a.playerId == playerId {
          if SnappedPos(a.to) == SnappedPos(to) {
            return;
          }
        }
        i := i + 1;
      }

      var m := MoveAction(playerId, from, to, now, now + MOVE_DURATION);
      var j := 0;
      while j < |actionQueue| && !IsMoveOf(actionQueue[j], playerId)
        invariant 0 <= j <= |actionQueue|
        invariant forall k :: 0 <= k < j ==> !IsMoveOf(actionQueue[k], playerId)
      {
        j := j + 1;
      }
      if j < |actionQueue| {
        QueueMoveReplace(actionQueue, playerId, m, j);
        actionQueue := actionQueue[j := m];
      } else {
        QueueMoveAppend(actionQueue, playerId, m);
        actionQueue := actionQueue + [m];
      }
      QueueMoveUnique(old(actionQueue), playerId, m);
    }

    /** The `Space` key's bullet action: queued only at a valid position. */
    method AddBulletAction(playerId: u32, pos: Vec2, dir: Vec2)
      requires Valid()
      modifies this
      ensures Valid()
      ensures actionQueue ==
        if isValidPos(pos) then old(actionQueue) + [BulletAction(playerId, pos, dir)] else old(actionQueue)
      ensures inprogressActions == old(inprogressActions) && entities == old(entities)
      ensures bullets == old(bullets) && now == old(now)
    {
      if isValidPos(pos) {
        var b := BulletAction(playerId, pos, dir);
        forall p: u32
          ensures |MovesOf(actionQueue + [b], p)| <= 1
        {
          MovesOfConcat(actionQueue, [b], p);
        }
        actionQueue := actionQueue + [b];
      }
    }

    /** `EraseMoveActions(playerId)`: erases the player's moves from the
        in-progress list while walking it. */
    method EraseMoveActions(playerId: u32)
      modifies this
      ensures inprogressActions == WithoutMoves(old(inprogressActions), playerId)
      ensures actionQueue == old(actionQueue) && entities == old(entities)
      ensures bullets == old(bullets) && now == old(now)
    {
      ghost var orig := inprogressActions;
      ghost var j := 0;
      var i := 0;
      while i < |inprogressActions|
        invariant 0 <= j <= |orig|
        invariant inprogressActions == WithoutMoves(orig[..j], playerId) + orig[j..]
        invariant i == |WithoutMoves(orig[..j], playerId)|
        invariant actionQueue == old(actionQueue) && entities == old(entities)
        invariant bullets == old(bullets) && now == old(now)
        decreases |orig| - j
      {
        EraseStep(orig, j, playerId);
        var a := inprogressActions[i];
        assert a == orig[j];
        if a.MoveAction? && a.playerId == playerId {
          inprogressActions := inprogressActions[..i] + inprogressActions[i + 1..];
        } else {
          i := i + 1;
        }
        j := j + 1;
        assert inprogressActions == WithoutMoves(orig[..j], playerId) + orig[j..];
      }
      assert j == |orig|;
      assert orig[..|orig|] == orig;
    }

    /** `HandleActions()`: moves every queued action over, then lets the
        in-progress moves act and retires the due ones. */
    method HandleActions()
      requires Valid()
      modifies this
      ensures Valid() && now == old(now)
      ensures actionQueue == []
      ensures bullets == old(bullets) + BulletsOf(old(actionQueue))
      ensures inprogressActions == Retired(Transferred(old(inprogressActions), old(actionQueue)), now)
      ensures entities == Advanced(old(entities), Transferred(old(inprogressActions), old(actionQueue)), now)
    {
      TransferQueue();
      TransferredUnique(old(inprogressActions), old(actionQueue));
      ghost var moved := inprogressActions;
      RetireMoves();
      RetiredMember(moved, now);
      forall p: u32
        ensures |MovesOf(inprogressActions, p)| <= 1
      {
        MovesOfRetired(moved, now, p);
        assert |MovesOf(moved, p)| <= 1;
      }
    }

    /** The first loop of `HandleActions`: each queued move erases its
        player's in-progress moves and joins them; each bullet action fires
        a bullet; then the queue is cleared. */
    method TransferQueue()
      modifies this
      ensures actionQueue == []
      ensures inprogressActions == Transferred(old(inprogressActions), old(actionQueue))
      ensures bullets == old(bullets) + BulletsOf(old(actionQueue))
      ensures entities == old(entities) && now == old(now)
    {
      var i := 0;
      while i < |actionQueue|
        invariant 0 <= i <= |actionQueue|
        invariant actionQueue == old(actionQueue) && entities == old(entities) && now == old(now)
        invariant inprogressActions == Transferred(old(inprogressActions), actionQueue[..i])
        invariant bullets == old(bullets) + BulletsOf(actionQueue[..i])
      {
        var action := actionQueue[i];
        TransferSnoc(old(inprogressActions), actionQueue, i);
        if action.MoveAction? {
          EraseMoveActions(action.playerId);
          inprogressActions := inprogressActions + [action];
        } else {
          bullets := bullets + [Bullet(action.pos, action.dir, action.playerId)];
        }
        i := i + 1;
      }
      assert actionQueue[..|actionQueue|] == actionQueue;
      actionQueue := [];
    }

    /** The second loop of `HandleActions`: every in-progress move places its
        entity, and the due ones put it on the destination, stop it and are
        erased from the list. */
    method RetireMoves()
      requires WellTimed(inprogressActions)
      modifies this
      ensures inprogressActions == Retired(old(inprogressActions), now)
      ensures entities == Advanced(old(entities), old(inprogressActions), now)
      ensures actionQueue == old(actionQueue) && bullets == old(bullets) && now == old(now)
    {
      ghost var moved := inprogressActions;
      ghost var j := 0;
      var k := 0;
      assert moved[..0] == [];
      while k < |inprogressActions|
        invariant 0 <= j <= |moved|
        invariant inprogressActions == Retired(moved[..j], now) + moved[j..]
        invariant k == |Retired(moved[..j], now)|
        invariant entities == Advanced(old(entities), moved[..j], now)
        invariant actionQueue == old(actionQueue) && bullets == old(bullets) && now == old(now)
        decreases |moved| - j
      {
        RetireStep(moved, j, now);
        AdvancedSnoc(old(entities), moved, j, now);
        var action := inprogressActions[k];
        var deleteAction := false;
        if action.MoveAction? {
          var e := EntityAt(entities, action.playerId);
          e := e.(pos := Interpolated(action, now));
          if now >= action.endTime {
            deleteAction := true;
            e := e.(vel := 0.0, pos := action.to);
          }
          entities := entities[action.playerId := e];
        }
        if deleteAction {
          inprogressActions := inprogressActions[..k] + inprogressActions[k + 1..];
        } else {
          k := k + 1;
        }
        j := j + 1;
      }
      assert moved[..|moved|] == moved;
    }
  }
}

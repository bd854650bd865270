/** The AI bookkeeping of behavior.cpp: the `Coordinator` mailbox
    singleton and the per-entity state of the wander steering behaviour. */
module Behavior {
  import opened Wrappers
  import opened Types
  import opened Utils

  /** The kinds of AI message. */
  datatype AiMessageType = PlayerSpotted

  /** An AI message, known here by its kind. */
  datatype AiMessage = AiMessage(kind: AiMessageType)

  /** The AI mailbox. */
  class Coordinator {
    var messageQueue: seq<AiMessage>

    constructor ()
      ensures messageQueue == []
    {
      messageQueue := [];
    }

    /** `Create()`: there must be no instance yet; afterwards `slot` holds a
        new one with an empty mailbox. */
    static method Create(slot: Ptr<Coordinator>)
      requires slot.target.None?
      modifies slot
      ensures slot.target.Some? && fresh(slot.target.value)
      ensures slot.target.value.messageQueue == []
    {
      var c := new Coordinator();
      slot.target := Some(c);
    }

    /** `Destroy()`: there must be an instance; afterwards there is none. */
    static method Destroy(slot: Ptr<Coordinator>)
      requires slot.target.Some?
      modifies slot
      ensures slot.target.None?
    {
      var _ := ExchNull(slot);
    }

    /** `Instance()`: the instance `Create` made. */
    static method Instance(slot: Ptr<Coordinator>) returns (c: Coordinator)
      requires slot.target.Some?
      ensures c == slot.target.value
    {
      c := slot.target.value;
    }

    /** `SendMessage(msg)`: posts `msg` behind the earlier ones. */
    method SendMessage(msg: AiMessage)
      modifies this
      ensures messageQueue == old(messageQueue) + [msg]
    {
      messageQueue := messageQueue + [msg];
    }

    /** `Update()`: handles the posted messages (a `PlayerSpotted` message
        has no effect) and empties the mailbox. */
    method Update()
      modifies this
      ensures messageQueue == []
    {
      messageQueue := [];
    }
  }

  /** `EntityId`: a `u16`. */
  const U16_MOD: int := 0x1_0000
  type EntityId = x: int | 0 <= x < U16_MOD

  const PI: real := 3.14159265358979
  const ANGLE_JITTER: real := 0.01
  /** The circle offset and radius a fresh wander state is given. */
  const CIRCLE_SIZE: real := 10.0
  const MIN_TICKS: nat := 500
  const MAX_TICKS: nat := 1000

  /** `randf(500, 1000)` stored in an integer: the conversion truncates. */
  function RandTicks(r: RandValue): (t: u32)
    ensures MIN_TICKS <= t <= MAX_TICKS
  {
    RandF(MIN_TICKS as real, MAX_TICKS as real, r).Floor
  }

  /** `rand() % 2 ? -1 : 1`: an odd draw turns one way, an even one the other. */
  function RandDir(r: RandValue): (d: int)
    ensures d == -1 || d == 1
    ensures d == -1 <==> r % 2 == 1
  {
    if r % 2 == 1 then -1 else 1
  }

  /** `WanderState`; a new one is all zeros. */
  datatype WanderState = WanderState(circleOffset: real, circleRadius: real, curAngle: real, ticks: u32, dir: int)

  const ZERO_STATE := WanderState(0.0, 0.0, 0.0, 0, 0)

  /** The `rand()` draws one call of `BehaviorWander` may make, named by use. */
  datatype WanderRolls = WanderRolls(
    initAngle: RandValue, initTicks: RandValue, initDir: RandValue,
    jitter: RandValue, resetTicks: RandValue, resetDir: RandValue)

  /** A state past its first wander call. */
  predicate Initialised(s: WanderState)
  {
    && s.circleOffset == CIRCLE_SIZE && s.circleRadius == CIRCLE_SIZE
    && 1 <= s.ticks <= MAX_TICKS && (s.dir == -1 || s.dir == 1)
  }

  /** The lazy initialisation. The first call, on a state whose circle
      offset is 0, sets offset and radius to 10, the countdown to between 500
      and 1000, the turning direction to -1 or +1 and the angle to between
      -PI and PI; a later call leaves the state alone. */
  function Initialise(s: WanderState, r: WanderRolls): (t: WanderState)
    ensures s.circleOffset == 0.0 ==>
      Initialised(t) && MIN_TICKS <= t.ticks && -PI <= t.curAngle <= PI
    ensures s.circleOffset != 0.0 ==> t == s
  {
    if s.circleOffset == 0.0 then
      WanderState(CIRCLE_SIZE, CIRCLE_SIZE, RandF(-PI, PI, r.initAngle), RandTicks(r.initTicks), RandDir(r.initDir))
    else s
  }

  /** The per-call update. The angle moves by at most the jitter in the
      turning direction. The countdown goes down by exactly one, starting
      over between 500 and 1000 with a new turning direction when it reaches
      0; it is a `u32`, so a countdown already at 0 wraps to the largest
      value. The circle is left as it is, and an initialised state stays
      initialised. */
  function Tick(s: WanderState, r: WanderRolls): (t: WanderState)
    ensures t.circleOffset == s.circleOffset && t.circleRadius == s.circleRadius
    ensures s.ticks > 1 ==> t.ticks == s.ticks - 1 && t.dir == s.dir
    ensures s.ticks == 1 ==> MIN_TICKS <= t.ticks <= MAX_TICKS && t.dir == RandDir(r.resetDir)
    ensures s.ticks == 0 ==> t.ticks == U32_MOD - 1 && t.dir == s.dir
    ensures s.dir == 1 ==> s.curAngle <= t.curAngle <= s.curAngle + ANGLE_JITTER
    ensures s.dir == -1 ==> s.curAngle - ANGLE_JITTER <= t.curAngle <= s.curAngle
    ensures Initialised(s) ==> Initialised(t)
  {
    var angle := s.curAngle + s.dir as real * RandF(0.0, ANGLE_JITTER, r.jitter);
    var ticks: u32 := (s.ticks - 1) % U32_MOD;
    if ticks == 0 then s.(curAngle := angle, ticks := RandTicks(r.resetTicks), dir := RandDir(r.resetDir))
    else s.(curAngle := angle, ticks := ticks)
  }

  /** The state changes of one call of `BehaviorWander`: every call leaves
      a fresh or initialised state initialised. */
  function WanderStep(s: WanderState, r: WanderRolls): (t: WanderState)
    ensures s.circleOffset == 0.0 || Initialised(s) ==> Initialised(t)
  {
    Tick(Initialise(s, r), r)
  }

  /** `s_wanderState`: the wander state of each entity. */
  class WanderTable {
    var states: map<EntityId, WanderState>

    /** Every entity's state has been through a wander call. */
    ghost predicate Valid()
      reads this
    {
      forall id :: id in states ==> Initialised(states[id])
    }

    constructor ()
      ensures Valid() && states == map[]
    {
      states := map[];
    }

    /** The wander state bookkeeping of `BehaviorWander(e)` for the entity
        whose id is `entityId`: the `u32` id is narrowed to an `EntityId`,
        `operator[]` makes a zeroed state for a new one, and only that
        entity's state changes. */
    method Wander(entityId: u32, r: WanderRolls)
      requires Valid()
      modifies this
      ensures Valid()
      ensures var id := entityId % U16_MOD;
        var before := if id in old(states) then old(states)[id] else ZERO_STATE;
        states == old(states)[id := WanderStep(before, r)]
      ensures forall other :: other != entityId % U16_MOD ==>
        (other in states <==> other in old(states)) && (other in states ==> states[other] == old(states)[other])
    {
      var id: EntityId := entityId % U16_MOD;
      var s := if id in states then states[id] else ZERO_STATE;
      states := states[id := WanderStep(s, r)];
    }
  }
}

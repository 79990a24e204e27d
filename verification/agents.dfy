/** The `agent_shader`: one invocation moves one agent of the `Agents`
    buffer, reading the trail image and depositing into the output image.

    `cos`, `sin` and the float-to-uint conversion of the seed are supplied
    by a `Platform`: the model does not fix their values, only where the
    shader uses them. Agent arithmetic is on exact reals. */
module Agents {
  import opened Hashing
  import opened Field

  const Pi: real := 3.1415926535897932384626433832795
  /** Angle between the forward sensor and each side sensor. */
  const SensorAngleSpacing: real := Pi / 2.0
  /** Half the side of the square a sensor sums over. */
  const SensorRadius: nat := 2
  const SensorCentreDistance: real := 1.0
  /** How far inside the far edges a bounced agent is put. */
  const EdgeHoldout: real := 0.01

  datatype Vec2 = Vec2(x: real, y: real)

  datatype Agent = Agent(pos: Vec2, angle: real)

  datatype PushConstants = PushConstants(agentSpeed: real, agentTurnSpeed: real, deltaTime: real)

  /** Pixels per second, radians per second, seconds per frame. */
  const DefaultPushConstants := PushConstants(50.0, 0.1, 0.016667)

  datatype Platform = Platform(cos: real -> real, sin: real -> real, toUint: real -> uint32)

  /** GLSL `int(r)` and `ivec2(v)`: truncation toward zero. */
  function Trunc(r: real): (t: int)
    ensures r >= 0.0 ==> 0 <= t && t as real <= r < t as real + 1.0
    ensures r < 0.0 ==> t <= 0 && t as real - 1.0 < r <= t as real
  {
    if r >= 0.0 then r.Floor else -((-r).Floor)
  }

  /** The cell a sensor at `offset` from the heading is centred on. */
  function SensorCentre(a: Agent, offset: real, plat: Platform): Cell {
    var angle := a.angle + offset;
    Cell(Trunc(a.pos.x + plat.cos(angle) * SensorCentreDistance),
         Trunc(a.pos.y + plat.sin(angle) * SensorCentreDistance))
  }

  /** The shader's `sense`: the x channel of the trail summed over the
      in-image cells of the 5 x 5 square around the sensor centre. */
  function Sense(trail: Image, a: Agent, offset: real, plat: Platform): real
    requires trail.Valid()
  {
    var c := SensorCentre(a, offset, plat);
    WindowSum(trail, 0, c.x - SensorRadius, c.y - SensorRadius, 2 * SensorRadius + 1, 2 * SensorRadius + 1)
  }

  /** `sense` as the shader writes it: x outer from -2 to 2, y inner, adding
      the x channel of every in-bounds sample. */
  method SenseLoop(trail: Image, a: Agent, offset: real, plat: Platform) returns (sum: real)
    requires trail.Valid()
    ensures sum == Sense(trail, a, offset, plat)
  {
    var r: int := SensorRadius;
    var centre := SensorCentre(a, offset, plat);
    sum := 0.0;
    var x := -r;
    while x <= r
      invariant -r <= x <= r + 1
      invariant sum == WindowSum(trail, 0, centre.x - r, centre.y - r, x + r, 2 * r + 1)
    {
      var y := -r;
      while y <= r
        invariant -r <= y <= r + 1
        invariant sum == WindowSum(trail, 0, centre.x - r, centre.y - r, x + r, 2 * r + 1)
                         + ColumnSum(trail, 0, centre.x + x, centre.y - r, y + r)
      {
        var sample := Cell(centre.x + x, centre.y + y);
        if sample.x >= 0 && sample.x < trail.width && sample.y >= 0 && sample.y < trail.height {
          sum := sum + trail.px[sample].x;
        }
        y := y + 1;
      }
      x := x + 1;
    }
  }

  /** On a trail whose x channel lies in [0, 1] a sensor reads a value in
      [0, 25]: at most 5 x 5 cells, each contributing at most 1. */
  lemma SenseBounds(trail: Image, a: Agent, offset: real, plat: Platform)
    requires trail.Valid()
    requires ChannelWithin(trail, 0, 0.0, 1.0)
    ensures 0.0 <= Sense(trail, a, offset, plat) <= 25.0
  {
    var c := SensorCentre(a, offset, plat);
    WindowBounds(trail, 0, c.x - 2, c.y - 2, 5, 5, 1.0);
    CountInsideAtMost(c.x - 2, 5, trail.width);
    CountInsideAtMost(c.y - 2, 5, trail.height);
    var kx := CountInside(c.x - 2, 5, trail.width) as real;
    var ky := CountInside(c.y - 2, 5, trail.height) as real;
    assert kx * ky <= 5.0 * ky <= 25.0;
  }

  /** A sensor reads nothing but the x channel of the trail inside its
      5 x 5 square: two trails that agree there read alike. */
  lemma SenseLocal(t1: Image, t2: Image, a: Agent, offset: real, plat: Platform)
    requires t1.Valid() && t2.Valid() && t1.SameSize(t2)
    requires forall c :: t1.Contains(c) && Distance(c, SensorCentre(a, offset, plat)) <= SensorRadius
                         ==> t1.px[c].x == t2.px[c].x
    ensures Sense(t1, a, offset, plat) == Sense(t2, a, offset, plat)
  {
    var s := SensorCentre(a, offset, plat);
    WindowFrame(t1, t2, 0, s.x - 2, s.y - 2, 5, 5);
  }

  /** Chebyshev distance between two cells. */
  function Distance(c: Cell, d: Cell): nat {
    var dx := if c.x >= d.x then c.x - d.x else d.x - c.x;
    var dy := if c.y >= d.y then c.y - d.y else d.y - c.y;
    if dx >= dy then dx else dy
  }

  /** Which branch of the steering decision an agent takes. */
  datatype Turn = Straight | Wander | GoLeft | GoRight | Hold

  /** The steering decision on the forward, left and right readings. */
  function Decide(forward: real, left: real, right: real): (t: Turn)
    ensures t == Straight <==> forward > left && forward > right
    ensures t == Wander <==> forward < left && forward < right
    ensures t == GoLeft <==> right <= forward <= left && right < left
    ensures t == GoRight <==> left <= forward <= right && left < right
    ensures t == Hold <==> forward == left == right
  {
    if forward > left && forward > right then Straight
    else if forward < left && forward < right then Wander
    else if left > right then GoLeft
    else if left < right then GoRight
    else Hold
  }

  /** The largest turn in one frame, agent_turn_speed * delta_time; the
      shader's left-to-right products are regrouped around it, which is
      exact on reals. */
  function TurnStep(pc: PushConstants): real {
    pc.agentTurnSpeed * pc.deltaTime
  }

  /** The heading after steering with strength s. */
  function Steer(angle: real, t: Turn, s: real, step: real): (r: real)
    ensures t == Straight || t == Hold ==> r == angle
  {
    match t
    case Straight => angle
    case Hold => angle
    case Wander => angle + (s - 0.5) * 2.0 * step
    case GoLeft => angle - s * step
    case GoRight => angle + s * step
  }

  /** With strength in [0, 1] and a non-negative step, GoLeft never raises
      the heading, GoRight never lowers it, and no branch moves it by more
      than one step. */
  lemma SteerBounded(angle: real, t: Turn, s: real, step: real)
    requires 0.0 <= s <= 1.0 && step >= 0.0
    ensures t == GoLeft ==> Steer(angle, t, s, step) <= angle
    ensures t == GoRight ==> Steer(angle, t, s, step) >= angle
    ensures -step <= Steer(angle, t, s, step) - angle <= step
  {
    assert 0.0 <= s * step <= step;
  }

  /** With a positive step every turning branch really turns: GoLeft down
      and GoRight up for a positive strength, Wander up for a strength
      above one half and down below it. */
  lemma SteerStrict(angle: real, t: Turn, s: real, step: real)
    requires 0.0 < step
    ensures t == GoLeft && s > 0.0 ==> Steer(angle, t, s, step) < angle
    ensures t == GoRight && s > 0.0 ==> Steer(angle, t, s, step) > angle
    ensures t == Wander && s > 0.5 ==> Steer(angle, t, s, step) > angle
    ensures t == Wander && s < 0.5 ==> Steer(angle, t, s, step) < angle
  {
    if t == Wander {
      var d := (s - 0.5) * 2.0;
      assert Steer(angle, t, s, step) == angle + d * step;
      assert s > 0.5 ==> d * step > 0.0;
      assert s < 0.5 ==> d * step < 0.0;
    } else if s > 0.0 {
      assert s * step > 0.0;
    }
  }

  /** When the sensor at +pi/2 reads more than the one at -pi/2 and forward
      lies between them, the heading strictly falls: with a positive
      strength and step the agent turns away from the stronger side sensor. */
  lemma GoLeftTurnsAwayFromLeftSensor(angle: real, forward: real, left: real, right: real, s: real, step: real)
    requires right <= forward <= left && right < left
    requires 0.0 < s && 0.0 < step
    ensures Steer(angle, Decide(forward, left, right), s, step) < angle
  {
    assert Decide(forward, left, right) == GoLeft;
    assert s * step > 0.0;
  }

  /** The pseudo-random value an agent draws: the hash of its position
      folded into one number with the hash of its id. */
  function Random(a: Agent, id: uint32, width: nat, plat: Platform): uint32 {
    Hash(plat.toUint(a.pos.y * width as real + a.pos.x + Hash(id) as real))
  }

  /** Where the agent heads before the edge test: the old position moved
      along the old heading. */
  function Advance(a: Agent, pc: PushConstants, plat: Platform): Vec2 {
    Vec2(a.pos.x + plat.cos(a.angle) * pc.agentSpeed * pc.deltaTime,
         a.pos.y + plat.sin(a.angle) * pc.agentSpeed * pc.deltaTime)
  }

  predicate InField(p: Vec2, width: nat, height: nat) {
    0.0 <= p.x < width as real && 0.0 <= p.y < height as real
  }

  /** `min(size - 0.01, max(0, v))`: the coordinate pulled into
      [0, size - 0.01], to the nearer end when it lies outside. */
  function Clamp(v: real, size: nat): (r: real)
    ensures size >= 1 ==> 0.0 <= r <= size as real - EdgeHoldout
    ensures 0.0 <= v <= size as real - EdgeHoldout ==> r == v
    ensures size >= 1 && v < 0.0 ==> r == 0.0
    ensures v > size as real - EdgeHoldout ==> r == size as real - EdgeHoldout
  {
    var lo := if v > 0.0 then v else 0.0;
    if size as real - EdgeHoldout < lo then size as real - EdgeHoldout else lo
  }

  /** The heading a bounced agent leaves with: the random value spread
      over the full circle [0, 2 pi]. */
  function BounceAngle(random: uint32): (r: real)
    ensures 0.0 <= r <= 2.0 * Pi
    ensures r == 0.0 <==> random == 0
    ensures r == 2.0 * Pi <==> random == MaxUint
  {
    var u := NormalizeFromHash(random);
    assert u * 2.0 * Pi <= 2.0 * Pi;
    u * 2.0 * Pi
  }

  /** A larger random value gives a strictly larger bounce heading, so the
      draws spread over the whole circle from 0 up to 2 pi. */
  lemma BounceAngleStrictlyIncreasing(a: uint32, b: uint32)
    requires a < b
    ensures BounceAngle(a) < BounceAngle(b)
  {
    NormalizeStrictlyIncreasing(a, b);
  }

  /** The heading the three sensors steer the agent to. */
  function SteeredAngle(trail: Image, a: Agent, random: uint32, pc: PushConstants, plat: Platform): real
    requires trail.Valid()
  {
    var forward := Sense(trail, a, 0.0, plat);
    var left := Sense(trail, a, SensorAngleSpacing, plat);
    var right := Sense(trail, a, -SensorAngleSpacing, plat);
    Steer(a.angle, Decide(forward, left, right), NormalizeFromHash(random), TurnStep(pc))
  }

  /** What one invocation produces: the agent written back to the buffer
      and the cell it stores `vec4(1.0)` at. */
  datatype Step = Step(agent: Agent, deposit: Cell)

  /** The agent shader's `main` for one agent with a valid id. */
  function Update(trail: Image, a: Agent, id: uint32, pc: PushConstants, plat: Platform): (r: Step)
    requires trail.Valid()
    ensures r.deposit == Cell(Trunc(a.pos.x), Trunc(a.pos.y))
    ensures trail.width >= 1 && trail.height >= 1 ==> InField(r.agent.pos, trail.width, trail.height)
    ensures InField(Advance(a, pc, plat), trail.width, trail.height) ==> r.agent.pos == Advance(a, pc, plat)
    ensures !InField(Advance(a, pc, plat), trail.width, trail.height) ==>
              0.0 <= r.agent.angle <= 2.0 * Pi
    ensures var moved := Advance(a, pc, plat);
            !InField(moved, trail.width, trail.height) ==>
              r.agent.pos == Vec2(Clamp(moved.x, trail.width), Clamp(moved.y, trail.height))
              && r.agent.angle == BounceAngle(Random(a, id, trail.width, plat))
  {
    var random := Random(a, id, trail.width, plat);
    var moved := Advance(a, pc, plat);
    var next :=
      if InField(moved, trail.width, trail.height) then Agent(moved, SteeredAngle(trail, a, random, pc, plat))
      else Agent(Vec2(Clamp(moved.x, trail.width), Clamp(moved.y, trail.height)), BounceAngle(random));
    Step(next, Cell(Trunc(a.pos.x), Trunc(a.pos.y)))
  }

  /** Steering changes only the heading: the new position depends on the
      old position and heading, never on the trail. */
  lemma PositionIgnoresTrail(t1: Image, t2: Image, a: Agent, id: uint32, pc: PushConstants, plat: Platform)
    requires t1.Valid() && t2.Valid() && t1.SameSize(t2)
    ensures Update(t1, a, id, pc, plat).agent.pos == Update(t2, a, id, pc, plat).agent.pos
    ensures Update(t1, a, id, pc, plat).deposit == Update(t2, a, id, pc, plat).deposit
  {
  }

  /** The step bounds the size of every turn. A forward reading above both
      side readings, or equal side readings with forward not below them,
      keep the heading; otherwise,
      unless forward reads below both, the heading falls when the +pi/2
      sensor reads more and rises when the -pi/2 sensor does. */
  lemma SteeredAngleBounded(trail: Image, a: Agent, random: uint32, pc: PushConstants, plat: Platform)
    requires trail.Valid()
    requires TurnStep(pc) >= 0.0
    ensures var d := SteeredAngle(trail, a, random, pc, plat) - a.angle;
            -TurnStep(pc) <= d <= TurnStep(pc)
    ensures var f := Sense(trail, a, 0.0, plat);
            var l := Sense(trail, a, SensorAngleSpacing, plat);
            var r := Sense(trail, a, -SensorAngleSpacing, plat);
            var angle := SteeredAngle(trail, a, random, pc, plat);
            (f > l && f > r ==> angle == a.angle)
            && (l == r && f >= l ==> angle == a.angle)
            && (r <= f <= l && r < l ==> angle <= a.angle)
            && (l <= f <= r && l < r ==> angle >= a.angle)
  {
    var f := Sense(trail, a, 0.0, plat);
    var l := Sense(trail, a, SensorAngleSpacing, plat);
    var r := Sense(trail, a, -SensorAngleSpacing, plat);
    SteerBounded(a.angle, Decide(f, l, r), NormalizeFromHash(random), TurnStep(pc));
  }

  /** The sensors' decision strictly changes the heading whenever the random
      strength lets it: down when the +pi/2 sensor wins, up when the -pi/2
      sensor wins, and, when forward reads below both, up or down as the
      strength lies above or below one half. */
  lemma SteeredAngleTurns(trail: Image, a: Agent, random: uint32, pc: PushConstants, plat: Platform)
    requires trail.Valid()
    requires TurnStep(pc) > 0.0
    ensures var f := Sense(trail, a, 0.0, plat);
            var l := Sense(trail, a, SensorAngleSpacing, plat);
            var r := Sense(trail, a, -SensorAngleSpacing, plat);
            var s := NormalizeFromHash(random);
            var angle := SteeredAngle(trail, a, random, pc, plat);
            (r <= f <= l && r < l && s > 0.0 ==> angle < a.angle)
            && (l <= f <= r && l < r && s > 0.0 ==> angle > a.angle)
            && (f < l && f < r && s > 0.5 ==> angle > a.angle)
            && (f < l && f < r && s < 0.5 ==> angle < a.angle)
  {
    var f := Sense(trail, a, 0.0, plat);
    var l := Sense(trail, a, SensorAngleSpacing, plat);
    var r := Sense(trail, a, -SensorAngleSpacing, plat);
    SteerStrict(a.angle, Decide(f, l, r), NormalizeFromHash(random), TurnStep(pc));
  }

  /** An agent that stays inside turns as its sensors decide: by at most
      one step, not at all when forward reads above both sides or the sides
      read alike and forward is not below them, down when the +pi/2 sensor
      wins and up when the -pi/2 sensor does. */
  lemma UpdateSteers(trail: Image, a: Agent, id: uint32, pc: PushConstants, plat: Platform)
    requires trail.Valid()
    requires TurnStep(pc) >= 0.0
    ensures var angle := Update(trail, a, id, pc, plat).agent.angle;
            InField(Advance(a, pc, plat), trail.width, trail.height) ==>
              -TurnStep(pc) <= angle - a.angle <= TurnStep(pc)
    ensures var f := Sense(trail, a, 0.0, plat);
            var l := Sense(trail, a, SensorAngleSpacing, plat);
            var r := Sense(trail, a, -SensorAngleSpacing, plat);
            var angle := Update(trail, a, id, pc, plat).agent.angle;
            InField(Advance(a, pc, plat), trail.width, trail.height) ==>
              (f > l && f > r ==> angle == a.angle)
              && (l == r && f >= l ==> angle == a.angle)
              && (r <= f <= l && r < l ==> angle <= a.angle)
              && (l <= f <= r && l < r ==> angle >= a.angle)
  {
    SteeredAngleBounded(trail, a, Random(a, id, trail.width, plat), pc, plat);
  }

  /** An agent that stays inside strictly turns as its sensors decide,
      whenever its random strength is not zero (and, for the Wander branch,
      not one half). */
  lemma UpdateTurns(trail: Image, a: Agent, id: uint32, pc: PushConstants, plat: Platform)
    requires trail.Valid()
    requires TurnStep(pc) > 0.0
    ensures var f := Sense(trail, a, 0.0, plat);
            var l := Sense(trail, a, SensorAngleSpacing, plat);
            var r := Sense(trail, a, -SensorAngleSpacing, plat);
            var s := NormalizeFromHash(Random(a, id, trail.width, plat));
            var angle := Update(trail, a, id, pc, plat).agent.angle;
            InField(Advance(a, pc, plat), trail.width, trail.height) ==>
              (r <= f <= l && r < l && s > 0.0 ==> angle < a.angle)
              && (l <= f <= r && l < r && s > 0.0 ==> angle > a.angle)
              && (f < l && f < r && s > 0.5 ==> angle > a.angle)
              && (f < l && f < r && s < 0.5 ==> angle < a.angle)
  {
    SteeredAngleTurns(trail, a, Random(a, id, trail.width, plat), pc, plat);
  }

  /** A bouncing agent's steering is discarded: its new heading, in
      [0, 2 pi], is the same whatever trail it sensed. */
  lemma BounceIgnoresTrail(t1: Image, t2: Image, a: Agent, id: uint32, pc: PushConstants, plat: Platform)
    requires t1.Valid() && t2.Valid() && t1.SameSize(t2)
    ensures var angle := Update(t1, a, id, pc, plat).agent.angle;
            !InField(Advance(a, pc, plat), t1.width, t1.height) ==>
              angle == Update(t2, a, id, pc, plat).agent.angle && 0.0 <= angle <= 2.0 * Pi
  {
  }

  /** An agent standing inside the image deposits inside it. */
  lemma DepositInField(trail: Image, a: Agent, id: uint32, pc: PushConstants, plat: Platform)
    requires trail.Valid()
    requires InField(a.pos, trail.width, trail.height)
    ensures trail.Contains(Update(trail, a, id, pc, plat).deposit)
  {
  }
}

# Slime simulation core in Dafny

This project models the simulation core of a GPU "slime mould" program. A
fixed population of agents walks over a 1024 x 1024 four-channel trail
image. Each agent senses the trail ahead and to either side, steers, moves,
bounces off the edges and leaves a mark. The trail is then blurred and
faded. All of this happens in two GLSL compute shaders embedded in
`src/simulation.rs`. A third piece, the command sequence `build_commands`,
runs one frame: it copies `result_image` into `agent_sim_image`, dispatches
the agent shader, then dispatches the blur shader.

Modules:

- `Hashing` (hash.dfy): the agent shader's `hash` and `normalize_from_hash`.
  GLSL `uint` arithmetic is written out on integers in [0, 2^32):
  - multiplication is taken modulo 2^32;
  - `>> 16` is division by 2^16;
  - `^` is a bit-by-bit exclusive or (`Xor`).

  `Unhash` undoes the steps in reverse. It uses the multiplicative inverse
  0x144CBC89 of 2654435769 modulo 2^32, and uses the fact that
  `s ^ (s >> 16)` undoes itself.
- `Field` (field.dfy): images as a width, a height and a map from in-image
  cells to four-channel pixels. It also holds the clipped rectangular sums
  both shaders take, where cells outside the image add nothing.
- `Agents` (agents.dfy): the agent shader. This covers sensing, the five-way
  steering decision, movement along the old heading, the edge bounce and the
  deposit cell. `cos`, `sin` and the float-to-uint conversion of the seed
  are fields of a `Platform` value, so they are parameters rather than
  fixed functions.
- `BlurFade` (blur.dfy): the blur shader. It covers one invocation, the
  whole pass, and the 128 x 128 by 8 x 8 dispatch grid.
- `Pipeline` (pipeline.dfy): one frame (`Tick`) and the initial state
  (`Init`). The agent dispatch is a fold over invocation ids; the GPU runs
  them in no fixed order. The fold is proved equal to a description that
  does not depend on order (`Expected`), so every order of the invocations
  gives the same agents and the same image.

The agent shader's bindings are set at `src/simulation.rs:109-113`:
- it reads `result_image` (binding 0, readonly);
- it writes `agent_sim_image` (binding 1).

The blur shader's bindings are at `src/simulation.rs:135-137`:
- it reads `agent_sim_image`;
- it writes `result_image`.

So the image the agents sense is never written while they run.

### Behaviour worth noting

- `normalize_from_hash` divides by 4294967295, so 1.0 is reached. The range
  is [0, 1], both ends included.
- A bounced agent gets a heading anywhere in [0, 2 pi], not one facing
  into the field. Its position is the moved position clamped per coordinate
  into [0, size - 0.01].
- The blur always divides by 9 and then multiplies by 0.99. No evaporation
  amount is subtracted, and the border is not averaged over fewer cells. On
  a uniform field the border therefore ends strictly below the interior
  (`BlurUniformBorder`).
- The two images are never swapped. The agents sense `result_image` and
  deposit into the copy in `agent_sim_image`. The blur then writes the new
  `result_image` from that copy.
- The sensors read only the x channel.
- Initial image contents are not zeroed by the code, so `Init` takes
  arbitrary images.
- The left sensor is the one at +pi/2. When it reads more than the right
  one and forward lies between them, the heading decreases
  (`GoLeftTurnsAwayFromLeftSensor`). That turns the agent away from the
  stronger side.
- When forward reads below both side sensors, the random `Wander` branch
  applies even if left and right differ. `SteeredAngleBounded` states the
  exact conditions for each direction.

## Model

| member | source | states |
|---|---|---|
| Hashing.Hash | src/simulation.rs:233-241 | the six wrapping uint32 steps of `hash`; `UnhashHash` and `HashUnhash` prove it a bijection |
| Hashing.XorConstInvolution | src/simulation.rs:234 | xor with 2747636419 undoes itself |
| Hashing.MixInverse | src/simulation.rs:235 | wrapping multiplication by 2654435769 is undone by multiplying by 0x144CBC89, in both orders |
| Hashing.XorShiftInvolution | src/simulation.rs:236 | `state ^= state >> 16` applied twice gives back the state |
| Hashing.UnhashHash | src/simulation.rs:233-241 | the hash has a left inverse, so distinct seeds give distinct hashes |
| Hashing.HashUnhash | src/simulation.rs:233-241 | the hash has a right inverse, so every uint32 is some seed's hash |
| Hashing.HashBijective | src/simulation.rs:233-241 | the hash is a bijection of uint32: injective and onto |
| Hashing.NormalizeFromHash | src/simulation.rs:243-245 | the result lies in [0, 1]; it is 0 exactly for 0 and 1 exactly for 4294967295 |
| Hashing.NormalizeStrictlyIncreasing | src/simulation.rs:244 | a larger hash gives a strictly larger value |
| Field.WindowBounds | src/simulation.rs:257-265 | a clipped window over values in [0, m] sums to between 0 and m times the number of its cells inside the image |
| Field.WindowUniform | src/simulation.rs:343-351 | on a field of constant v a clipped window sums to v times its in-image cell count |
| Field.WindowFrame | src/simulation.rs:259-262 | a window sum depends only on the one channel inside the window; cells outside the image and other channels are never read |
| Agents.Trunc | src/simulation.rs:254 | the integer conversion truncates toward zero on both sides of zero |
| Agents.Sense | src/simulation.rs:248-268 | the clipped 5 x 5 sum of the x channel around the sensor centre; `SenseLoop` proves the shader's loops compute it, `SenseBounds` and `SenseLocal` bound it and say what it reads |
| Agents.SenseLoop | src/simulation.rs:248-268 | the shader's nested loops compute the clipped 5 x 5 window sum of the x channel around the truncated sensor centre |
| Agents.SenseBounds | src/simulation.rs:256-267 | with x channel values in [0, 1] a sensor reads a value in [0, 25] |
| Agents.SenseLocal | src/simulation.rs:257-265 | a sensor's reading depends only on the x channel within Chebyshev distance 2 of its centre |
| Agents.Decide | src/simulation.rs:290-301 | the five branches as exact conditions: straight iff forward beats both sides, random iff forward is below both, GoLeft iff right <= forward <= left with right < left, GoRight mirrored, hold iff all three readings are equal |
| Agents.Steer | src/simulation.rs:292-301 | Straight and Hold keep the heading; `SteerBounded` bounds the three turning branches and `SteerStrict` shows each of them really turns |
| Agents.SteerBounded | src/simulation.rs:294-300 | with strength in [0, 1] each branch turns by at most agent_turn_speed * delta_time; GoLeft never raises the heading and GoRight never lowers it |
| Agents.SteerStrict | src/simulation.rs:294-300 | with a positive step, GoLeft strictly lowers and GoRight strictly raises the heading for a positive strength; Wander strictly raises it for a strength above one half and strictly lowers it below one half |
| Agents.GoLeftTurnsAwayFromLeftSensor | src/simulation.rs:295-297 | when the +pi/2 reading beats the -pi/2 one and forward lies between them, the heading strictly falls, away from the stronger sensor |
| Agents.SteeredAngle | src/simulation.rs:284-301 | the heading after the three sensors and the normalised random strength steer it; `SteeredAngleBounded` gives its one-step bound and keep conditions, `SteeredAngleTurns` its strict turns |
| Agents.SteeredAngleBounded | src/simulation.rs:284-301 | the heading is kept when forward beats both sides or when the sides are equal and forward is not below them; otherwise it moves by at most one turn step, never up when the +pi/2 sensor wins and never down when the -pi/2 sensor does |
| Agents.SteeredAngleTurns | src/simulation.rs:284-301 | with a positive turn step the heading strictly falls when the +pi/2 sensor wins and strictly rises when the -pi/2 sensor wins, for a nonzero strength; when forward reads below both it strictly rises for a strength above one half and strictly falls below one half |
| Agents.Random | src/simulation.rs:281 | the hash of the position folded with the hash of the id; it feeds the steering strength and `BounceAngle` |
| Agents.Advance | src/simulation.rs:304-305 | the old position moved along the pre-steering heading; `Update` keeps it when it is inside and `PositionIgnoresTrail` shows it never depends on the trail |
| Agents.Clamp | src/simulation.rs:309-310 | the clamped coordinate lies in [0, size - 0.01]: a coordinate already there is unchanged, a negative one goes to 0, one above size - 0.01 goes to size - 0.01 |
| Agents.BounceAngle | src/simulation.rs:312 | the bounce heading lies in [0, 2 pi]; it is 0 exactly for a zero random value and 2 pi exactly for 4294967295 |
| Agents.BounceAngleStrictlyIncreasing | src/simulation.rs:312 | a larger random value gives a strictly larger bounce heading, so the draws run through the circle from 0 to 2 pi |
| Agents.Update | src/simulation.rs:271-320 | the new position is inside the image; it is the old position advanced along the old heading when that stays inside; on a bounce it is that moved position clamped per coordinate and the heading is the normalised random value times 2 pi, in [0, 2 pi]; the deposit is at the truncated old position |
| Agents.UpdateSteers | src/simulation.rs:284-301 | an agent that stays inside turns by at most agent_turn_speed * delta_time; it keeps its heading when forward beats both sides or the sides are equal and forward is not below them; it never turns up when the +pi/2 sensor wins nor down when the -pi/2 sensor does |
| Agents.UpdateTurns | src/simulation.rs:284-301 | an agent that stays inside strictly turns down when the +pi/2 sensor wins and up when the -pi/2 sensor wins, for a nonzero random strength; when forward reads below both it strictly turns up for a strength above one half and down below it |
| Agents.BounceIgnoresTrail | src/simulation.rs:308-313 | a bouncing agent's heading is in [0, 2 pi] and the same for any trail, so that frame's steering is discarded |
| Agents.PositionIgnoresTrail | src/simulation.rs:303-305 | the new position and deposit cell do not depend on the trail, because the move uses the heading from before steering |
| Agents.DepositInField | src/simulation.rs:319 | an agent inside the image deposits at a cell inside it |
| BlurFade.Blur | src/simulation.rs:337-358 | the whole pass keeps the image size and gives every cell 0.99 times the clipped 3 x 3 sum divided by 9; `BlurInvocation` proves the shader's loops compute that value |
| BlurFade.BlurInvocation | src/simulation.rs:337-358 | the shader's loops store 0.99 times the clipped 3 x 3 sum divided by 9 in every channel |
| BlurFade.BlurBounds | src/simulation.rs:353-356 | values in [0, m] blur to values in [0, 0.99 m] |
| BlurFade.BlurZeroFixedPoint | src/simulation.rs:342-358 | an all-zero image blurs to itself |
| BlurFade.BlurUniformInterior | src/simulation.rs:353-356 | on a uniform field of v an interior cell becomes 0.99 v |
| BlurFade.BlurUniformBorder | src/simulation.rs:343-356 | on a uniform positive field a border cell becomes strictly less than 0.99 v, since the divisor stays 9 |
| BlurFade.DispatchAxisBijective | src/simulation.rs:191-192 | along each axis group * 8 + local, for 128 groups of 8, hits every coordinate in [0, 1024) exactly once |
| BlurFade.DispatchCoversImage | src/simulation.rs:191-192 | the cells the blur dispatch visits are exactly the cells of the 1024 x 1024 image |
| BlurFade.BlurDispatch | src/simulation.rs:191-196 | the 128 x 128 group dispatch keeps the image size; `BlurDispatchIsBlur` shows it equals `Blur` |
| BlurFade.BlurDispatchIsBlur | src/simulation.rs:191-196 | the dispatch overwrites every cell of `result_image`, so its old contents do not matter |
| Pipeline.Store | src/simulation.rs:319 | a store changes at most the one cell and writes `vec4(1.0)` there; a store outside the image changes nothing |
| Pipeline.Invoke | src/simulation.rs:272-275 | an id at or past the buffer length leaves buffer and image unchanged |
| Pipeline.RunInvocations | src/simulation.rs:177-189 | invocations in sequence keep the image size and the agent count; `RunIsExpected` gives their result |
| Pipeline.RunIsExpected | src/simulation.rs:177-189 | running distinct ids one after another updates exactly those agents from their own old values and marks exactly their deposit cells |
| Pipeline.OrderIndependent | src/simulation.rs:177-189 | two orders of the same distinct invocation ids give the same agents and the same image |
| Pipeline.AgentStage | src/simulation.rs:177-189 | the agent dispatch of agent_amount groups of 64 keeps the image size and the agent count; `AgentStageUpdatesAll` gives its result |
| Pipeline.AgentStageUpdatesAll | src/simulation.rs:177-189 | the dispatch of agent_amount groups of 64 updates every agent once and marks exactly the agents' deposit cells on the copied trail |
| Pipeline.Tick | src/simulation.rs:157-197 | a frame keeps the image sizes and the agent count, and leaves every agent inside the image |
| Pipeline.TickStages | src/simulation.rs:157-197 | copy, agents, blur: agents read the pre-frame `result_image`; `agent_sim_image` ends as that copy plus deposits; `result_image` ends as its blur |
| Pipeline.TickTurnLimit | src/simulation.rs:181-188 | with the recorded push constants an agent that stays inside turns by at most 0.0016667 radians in a frame |
| Pipeline.TickIgnoresAgentSim | src/simulation.rs:160-175 | what `agent_sim_image` held before the frame is overwritten by the copy and never affects the frame |
| Pipeline.TickBounds | src/simulation.rs:157-197 | a trail in [0, 1] gives `agent_sim_image` in [0, 1] and a new `result_image` in [0, 0.99] |
| Pipeline.TickDeposits | src/simulation.rs:319 | every agent inside the image leaves `vec4(1.0)` at its truncated old position in `agent_sim_image` |
| Pipeline.Init | src/simulation.rs:76-88 | 100 agents at integer positions in [0, 1024) with headings in [0, 2 pi), and two 1024 x 1024 images |

## Left out

- Floating point: positions, headings, trail values and the push constants
  are exact reals. Single-precision rounding, infinities and NaN are not
  modelled.
- Hashing.NormalizeFromHash: `float(hash_val)` is taken as the exact value.
  Single precision keeps 24 significant bits, so on the GPU every hash from
  4294967168 up gives 1.0 and the map only never decreases. The strictness
  stated by `NormalizeStrictlyIncreasing`, `BounceAngle` and
  `BounceAngleStrictlyIncreasing` holds for the exact-real model.
- rgba8 storage: the images are `R8G8B8A8Unorm`, so every store rounds to a
  multiple of 1/255. The model stores exact reals.
- `cos`, `sin` and the float-to-uint conversion in
  `uint(agent.pos.y * width + agent.pos.x + hash(id))` are unspecified
  functions, given by `Platform`. Their values are not modelled; only where
  they are used is.
- GPU concurrency: the invocations of a dispatch run in sequence, in any
  order. Simultaneous writes are not modelled separately. Two agents that
  deposit at one cell write the same constant, and no agent reads what
  another writes.
- Agents.Update: the shader takes `width` and `height` from `out_img`; the
  model takes them from the trail image. Both images are 1024 x 1024.
- Vulkan setup in `Simulation::init` and `src/system.rs`: device,
  pipelines, descriptor sets, command buffers and frame pacing. This is
  resource plumbing with no simulation logic. `src/main.rs` is not part of
  this model.
- The random draws of `Simulation::init`: `rand::thread_rng` is replaced by
  the draws as parameters.
- Agents.SteerBounded: the product
  `random_steer_strength * agent_turn_speed * delta_time` is regrouped
  around agent_turn_speed * delta_time. This is exact on reals but not in
  single precision.

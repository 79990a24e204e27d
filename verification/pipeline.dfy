/** One frame of the simulation as `build_commands` records it: copy
    `result_image` into `agent_sim_image`, run the agent shader over the
    agent buffer (reading `result_image`, writing `agent_sim_image`), then
    run the blur shader from `agent_sim_image` into `result_image`.

    The GPU runs the invocations of one dispatch in no fixed order. The
    model runs them one after another in a given order and shows that the
    outcome is the same for every order. */
module Pipeline {
  import opened Hashing
  import opened Field
  import opened Agents
  import opened BlurFade

  /** `agent_amount` in `Simulation::init`. */
  const AgentAmount: nat := 100
  /** `local_size_x` of the agent shader. */
  const AgentLocalSize: nat := 64

  /** `imageStore(out_img, c, vec4(1.0))`: a store outside the image does
      nothing. */
  function Store(img: Image, c: Cell): (r: Image)
    requires img.Valid()
    ensures r.Valid() && r.SameSize(img)
    ensures forall d :: img.Contains(d) ==> r.px[d] == if d == c then Ink else img.px[d]
  {
    if img.Contains(c) then img.(px := img.px[c := Ink]) else img
  }

  /** What the agent dispatch writes: the agent buffer and `agent_sim_image`. */
  datatype StageState = StageState(agents: seq<Agent>, out: Image)

  /** One agent-shader invocation with global id `id`, reading `trail`. An
      id past the end of the buffer returns at once. */
  function Invoke(trail: Image, st: StageState, id: uint32, pc: PushConstants, plat: Platform): (r: StageState)
    requires trail.Valid() && st.out.Valid()
    ensures r.out.Valid() && r.out.SameSize(st.out) && |r.agents| == |st.agents|
    ensures id >= |st.agents| ==> r == st
  {
    if id >= |st.agents| then st
    else
      var step := Update(trail, st.agents[id], id, pc, plat);
      StageState(st.agents[id := step.agent], Store(st.out, step.deposit))
  }

  /** The invocations `ids` run one after another, the last one last. */
  function RunInvocations(trail: Image, st: StageState, ids: seq<uint32>, pc: PushConstants, plat: Platform): (r: StageState)
    requires trail.Valid() && st.out.Valid()
    ensures r.out.Valid() && r.out.SameSize(st.out) && |r.agents| == |st.agents|
  {
    if |ids| == 0 then st
    else Invoke(trail, RunInvocations(trail, st, ids[..|ids| - 1], pc, plat), ids[|ids| - 1], pc, plat)
  }

  predicate Distinct(ids: seq<uint32>) {
    forall i, j :: 0 <= i < j < |ids| ==> ids[i] != ids[j]
  }

  function IdSet(ids: seq<uint32>): set<uint32> {
    set i | i in ids
  }

  /** The agent buffer once every invocation in S has run: exactly the
      agents whose index is in S are updated, each from its own old value. */
  function ExpectedAgents(trail: Image, agents: seq<Agent>, s: set<uint32>, pc: PushConstants, plat: Platform): (r: seq<Agent>)
    requires trail.Valid() && |agents| <= Modulus
    ensures |r| == |agents|
  {
    seq(|agents|, i requires 0 <= i < |agents| => Slot(trail, agents, s, i, pc, plat))
  }

  /** Agent i once the invocations in S have run. */
  function Slot(trail: Image, agents: seq<Agent>, s: set<uint32>, i: nat, pc: PushConstants, plat: Platform): Agent
    requires trail.Valid() && i < |agents| <= Modulus
  {
    if i as uint32 in s then Update(trail, agents[i], i as uint32, pc, plat).agent else agents[i]
  }

  /** The cells the invocations in S deposit at. */
  function Deposits(trail: Image, agents: seq<Agent>, s: set<uint32>, pc: PushConstants, plat: Platform): set<Cell>
    requires trail.Valid()
  {
    set i | i in s && i < |agents| :: Update(trail, agents[i], i, pc, plat).deposit
  }

  /** The image with `Ink` at every one of `cells` inside it. */
  function Mark(img: Image, cells: set<Cell>): (r: Image)
    requires img.Valid()
    ensures r.Valid() && r.SameSize(img)
  {
    Image(img.width, img.height, map c | c in img.px :: if c in cells then Ink else img.px[c])
  }

  /** Storing at one more cell marks one more cell. */
  lemma MarkStore(img: Image, cells: set<Cell>, d: Cell)
    requires img.Valid()
    ensures Store(Mark(img, cells), d) == Mark(img, cells + {d})
  {
    assert Store(Mark(img, cells), d).px == Mark(img, cells + {d}).px;
  }

  lemma MarkNothing(img: Image)
    requires img.Valid()
    ensures Mark(img, {}) == img
  {
    assert Mark(img, {}).px == img.px;
  }

  /** The outcome of running the invocations in S, in any order. */
  function Expected(trail: Image, st: StageState, s: set<uint32>, pc: PushConstants, plat: Platform): (r: StageState)
    requires trail.Valid() && st.out.Valid() && |st.agents| <= Modulus
    ensures r.out.Valid() && r.out.SameSize(st.out)
  {
    StageState(ExpectedAgents(trail, st.agents, s, pc, plat), Mark(st.out, Deposits(trail, st.agents, s, pc, plat)))
  }

  lemma ExpectedEmpty(trail: Image, st: StageState, pc: PushConstants, plat: Platform)
    requires trail.Valid() && st.out.Valid() && |st.agents| <= Modulus
    ensures Expected(trail, st, {}, pc, plat) == st
  {
    var e := Expected(trail, st, {}, pc, plat);
    assert e.agents == st.agents;
    assert Deposits(trail, st.agents, {}, pc, plat) == {};
    MarkNothing(st.out);
  }

  lemma DepositsAdd(trail: Image, agents: seq<Agent>, s: set<uint32>, id: uint32, pc: PushConstants, plat: Platform)
    requires trail.Valid()
    ensures id >= |agents| ==> Deposits(trail, agents, s + {id}, pc, plat) == Deposits(trail, agents, s, pc, plat)
    ensures id < |agents| ==> Deposits(trail, agents, s + {id}, pc, plat)
                              == Deposits(trail, agents, s, pc, plat) + {Update(trail, agents[id], id, pc, plat).deposit}
  {
  }

  lemma ExpectedAgentsAdd(trail: Image, agents: seq<Agent>, s: set<uint32>, id: uint32, pc: PushConstants, plat: Platform)
    requires trail.Valid() && |agents| <= Modulus
    requires id !in s
    ensures id >= |agents| ==> ExpectedAgents(trail, agents, s + {id}, pc, plat) == ExpectedAgents(trail, agents, s, pc, plat)
    ensures id < |agents| ==>
              ExpectedAgents(trail, agents, s, pc, plat)[id] == agents[id]
              && ExpectedAgents(trail, agents, s + {id}, pc, plat)
                 == ExpectedAgents(trail, agents, s, pc, plat)[id := Update(trail, agents[id], id, pc, plat).agent]
  {
    var before := ExpectedAgents(trail, agents, s, pc, plat);
    var after := ExpectedAgents(trail, agents, s + {id}, pc, plat);
    forall k | 0 <= k < |agents| && k != id
      ensures after[k] == before[k]
    {
      assert Slot(trail, agents, s + {id}, k, pc, plat) == Slot(trail, agents, s, k, pc, plat);
    }
    if id < |agents| {
      assert after[id] == Slot(trail, agents, s + {id}, id, pc, plat);
      assert after == before[id := after[id]];
    } else {
      assert after == before;
    }
  }

  /** Running one more invocation, whose id has not run yet, extends S. */
  lemma ExpectedInvoke(trail: Image, st: StageState, s: set<uint32>, id: uint32, pc: PushConstants, plat: Platform)
    requires trail.Valid() && st.out.Valid() && |st.agents| <= Modulus
    requires id !in s
    ensures Invoke(trail, Expected(trail, st, s, pc, plat), id, pc, plat) == Expected(trail, st, s + {id}, pc, plat)
  {
    DepositsAdd(trail, st.agents, s, id, pc, plat);
    ExpectedAgentsAdd(trail, st.agents, s, id, pc, plat);
    if id < |st.agents| {
      var d := Update(trail, st.agents[id], id, pc, plat).deposit;
      MarkStore(st.out, Deposits(trail, st.agents, s, pc, plat), d);
    }
  }

  /** Running distinct ids one after another gives the set characterisation. */
  lemma {:induction false} RunIsExpected(trail: Image, st: StageState, ids: seq<uint32>, pc: PushConstants, plat: Platform)
    requires trail.Valid() && st.out.Valid() && |st.agents| <= Modulus
    requires Distinct(ids)
    ensures RunInvocations(trail, st, ids, pc, plat) == Expected(trail, st, IdSet(ids), pc, plat)
  {
    if |ids| == 0 {
      assert IdSet(ids) == {};
      ExpectedEmpty(trail, st, pc, plat);
    } else {
      var front, last := ids[..|ids| - 1], ids[|ids| - 1];
      RunIsExpected(trail, st, front, pc, plat);
      assert last !in IdSet(front);
      assert IdSet(ids) == IdSet(front) + {last};
      ExpectedInvoke(trail, st, IdSet(front), last, pc, plat);
    }
  }

  /** The invocations of a dispatch may run in any order: two orderings of
      the same distinct ids give the same agents and the same image. */
  lemma OrderIndependent(trail: Image, st: StageState, ids1: seq<uint32>, ids2: seq<uint32>, pc: PushConstants, plat: Platform)
    requires trail.Valid() && st.out.Valid() && |st.agents| <= Modulus
    requires Distinct(ids1) && Distinct(ids2) && IdSet(ids1) == IdSet(ids2)
    ensures RunInvocations(trail, st, ids1, pc, plat) == RunInvocations(trail, st, ids2, pc, plat)
  {
    RunIsExpected(trail, st, ids1, pc, plat);
    RunIsExpected(trail, st, ids2, pc, plat);
  }

  /** The ids 0, ..., n - 1 in increasing order. */
  function Iota(n: nat): (ids: seq<uint32>)
    requires n <= Modulus
    ensures |ids| == n
    ensures forall k :: 0 <= k < |ids| ==> ids[k] == k
    ensures Distinct(ids)
  {
    seq(n, k requires 0 <= k < n => k as uint32)
  }

  /** The global ids of a dispatch of `groups` work groups of 64. */
  function DispatchIds(groups: nat): (ids: seq<uint32>)
    requires groups * AgentLocalSize <= Modulus
  {
    Iota(groups * AgentLocalSize)
  }

  /** The agent dispatch of `[agent_amount, 1, 1]` work groups. */
  function AgentStage(trail: Image, st: StageState, pc: PushConstants, plat: Platform): (r: StageState)
    requires trail.Valid() && st.out.Valid() && |st.agents| * AgentLocalSize <= Modulus
    ensures r.out.Valid() && r.out.SameSize(st.out) && |r.agents| == |st.agents|
  {
    RunInvocations(trail, st, DispatchIds(|st.agents|), pc, plat)
  }

  /** The ids of all agents of a buffer of n. */
  function Indices(n: nat): set<uint32>
    requires n <= Modulus
  {
    IdSet(Iota(n))
  }

  /** Ids past the end of the buffer do not matter to the outcome. */
  lemma ExpectedRestrict(trail: Image, st: StageState, s1: set<uint32>, s2: set<uint32>, pc: PushConstants, plat: Platform)
    requires trail.Valid() && st.out.Valid() && |st.agents| <= Modulus
    requires forall i: uint32 :: i < |st.agents| ==> (i in s1 <==> i in s2)
    ensures Expected(trail, st, s1, pc, plat) == Expected(trail, st, s2, pc, plat)
  {
    assert Deposits(trail, st.agents, s1, pc, plat) == Deposits(trail, st.agents, s2, pc, plat);
    assert ExpectedAgents(trail, st.agents, s1, pc, plat) == ExpectedAgents(trail, st.agents, s2, pc, plat);
  }

  lemma IndicesContain(n: nat, i: uint32)
    requires n <= Modulus
    ensures i in Indices(n) <==> i < n
  {
    if i < n {
      assert Iota(n)[i] == i;
    }
  }

  /** The dispatch runs the invocations of all agents, plus ids past the
      buffer, which change nothing. */
  lemma AgentStageIsExpected(trail: Image, st: StageState, pc: PushConstants, plat: Platform)
    requires trail.Valid() && st.out.Valid() && |st.agents| * AgentLocalSize <= Modulus
    ensures AgentStage(trail, st, pc, plat) == Expected(trail, st, Indices(|st.agents|), pc, plat)
  {
    var n := |st.agents|;
    var ids := DispatchIds(n);
    RunIsExpected(trail, st, ids, pc, plat);
    forall i: uint32 | i < n
      ensures i in IdSet(ids) && i in Indices(n)
    {
      assert ids[i] == i;
      IndicesContain(n, i);
    }
    ExpectedRestrict(trail, st, IdSet(ids), Indices(n), pc, plat);
  }

  /** The agent dispatch updates every agent exactly once from its own old
      value and marks exactly the cells the agents stood on, whatever order
      the invocations run in. */
  lemma AgentStageUpdatesAll(trail: Image, st: StageState, pc: PushConstants, plat: Platform)
    requires trail.Valid() && st.out.Valid() && |st.agents| * AgentLocalSize <= Modulus
    ensures var r := AgentStage(trail, st, pc, plat);
            forall i :: 0 <= i < |st.agents| ==> r.agents[i] == Update(trail, st.agents[i], i, pc, plat).agent
    ensures AgentStage(trail, st, pc, plat).out == Mark(st.out, Deposits(trail, st.agents, Indices(|st.agents|), pc, plat))
  {
    var n := |st.agents|;
    AgentStageIsExpected(trail, st, pc, plat);
    var r := AgentStage(trail, st, pc, plat);
    forall i | 0 <= i < n
      ensures r.agents[i] == Update(trail, st.agents[i], i, pc, plat).agent
    {
      IndicesContain(n, i);
    }
  }

  /** The two storage images and the agent buffer. */
  datatype Simulation = Simulation(result: Image, agentSim: Image, agents: seq<Agent>) {
    ghost predicate Valid() {
      && result.Valid() && agentSim.Valid()
      && result.width == ImageSize && result.height == ImageSize
      && agentSim.SameSize(result)
      && |agents| == AgentAmount
    }
  }

  predicate AgentsInField(agents: seq<Agent>) {
    forall i :: 0 <= i < |agents| ==> InField(agents[i].pos, ImageSize, ImageSize)
  }

  /** One frame: copy, agents, blur. */
  function Tick(sim: Simulation, pc: PushConstants, plat: Platform): (r: Simulation)
    requires sim.Valid()
    ensures r.Valid()
    ensures AgentsInField(r.agents)
  {
    var copied := sim.result;
    var stage := AgentStage(sim.result, StageState(sim.agents, copied), pc, plat);
    assert forall i :: 0 <= i < |sim.agents| ==> stage.agents[i] == Update(sim.result, sim.agents[i], i, pc, plat).agent
      by { AgentStageUpdatesAll(sim.result, StageState(sim.agents, copied), pc, plat); }
    Simulation(BlurDispatch(stage.out, sim.result, GroupCount), stage.out, stage.agents)
  }

  /** The frame in three stages: the agents read the trail as it was before
      the frame and move from their own old values; `agent_sim_image` ends
      as the copied trail with `Ink` at every cell an agent stood on; and
      `result_image` ends as the blur of that. What `agent_sim_image` held
      before the frame is overwritten by the copy and never read. */
  lemma TickStages(sim: Simulation, pc: PushConstants, plat: Platform)
    requires sim.Valid()
    ensures var r := Tick(sim, pc, plat);
            forall i :: 0 <= i < |sim.agents| ==> r.agents[i] == Update(sim.result, sim.agents[i], i, pc, plat).agent
    ensures Tick(sim, pc, plat).agentSim == Mark(sim.result, Deposits(sim.result, sim.agents, Indices(|sim.agents|), pc, plat))
    ensures Tick(sim, pc, plat).result == Blur(Tick(sim, pc, plat).agentSim)
  {
    var st := StageState(sim.agents, sim.result);
    AgentStageUpdatesAll(sim.result, st, pc, plat);
    BlurDispatchIsBlur(AgentStage(sim.result, st, pc, plat).out, sim.result);
  }

  /** With the push constants `build_commands` records (turn speed 0.1 rad/s
      at 0.016667 s per frame), an agent that stays inside turns by at most
      0.0016667 radians in a frame. */
  lemma TickTurnLimit(sim: Simulation, plat: Platform, i: nat)
    requires sim.Valid() && i < |sim.agents|
    ensures var a := sim.agents[i];
            var angle := Tick(sim, DefaultPushConstants, plat).agents[i].angle;
            InField(Advance(a, DefaultPushConstants, plat), ImageSize, ImageSize) ==>
              -0.0016667 <= angle - a.angle <= 0.0016667
  {
    var pc := DefaultPushConstants;
    assert TurnStep(pc) == 0.0016667;
    TickStages(sim, pc, plat);
    UpdateSteers(sim.result, sim.agents[i], i, pc, plat);
  }

  /** The old contents of `agent_sim_image` do not affect the frame. */
  lemma TickIgnoresAgentSim(sim: Simulation, other: Image, pc: PushConstants, plat: Platform)
    requires sim.Valid() && other.Valid() && other.SameSize(sim.result)
    ensures Tick(sim.(agentSim := other), pc, plat) == Tick(sim, pc, plat)
  {
    TickStages(sim, pc, plat);
    TickStages(sim.(agentSim := other), pc, plat);
  }

  /** Marking keeps channel values in [0, 1], since `Ink` is 1 in every channel. */
  lemma MarkWithin(img: Image, cells: set<Cell>)
    requires img.Valid()
    requires AllWithin(img, 0.0, 1.0)
    ensures AllWithin(Mark(img, cells), 0.0, 1.0)
  {
    var m := Mark(img, cells);
    forall ch | 0 <= ch < 4
      ensures ChannelWithin(m, ch, 0.0, 1.0)
    {
      assert ChannelWithin(img, ch, 0.0, 1.0);
    }
  }

  /** A trail whose channels lie in [0, 1] (the range of an rgba8 unorm
      image) stays so after deposits, and after the blur lies in [0, 0.99]. */
  lemma TickBounds(sim: Simulation, pc: PushConstants, plat: Platform)
    requires sim.Valid()
    requires AllWithin(sim.result, 0.0, 1.0)
    ensures AllWithin(Tick(sim, pc, plat).agentSim, 0.0, 1.0)
    ensures AllWithin(Tick(sim, pc, plat).result, 0.0, FadeFactor)
  {
    TickStages(sim, pc, plat);
    MarkWithin(sim.result, Deposits(sim.result, sim.agents, Indices(|sim.agents|), pc, plat));
    BlurBounds(Tick(sim, pc, plat).agentSim, 1.0);
  }

  /** Every agent standing inside the image leaves `Ink` at the cell of its
      old position, truncated toward zero. */
  lemma TickDeposits(sim: Simulation, pc: PushConstants, plat: Platform, i: nat)
    requires sim.Valid()
    requires i < |sim.agents| && InField(sim.agents[i].pos, ImageSize, ImageSize)
    ensures Tick(sim, pc, plat).agentSim.px[Cell(Trunc(sim.agents[i].pos.x), Trunc(sim.agents[i].pos.y))] == Ink
  {
    TickStages(sim, pc, plat);
    var c := Cell(Trunc(sim.agents[i].pos.x), Trunc(sim.agents[i].pos.y));
    DepositInField(sim.result, sim.agents[i], i, pc, plat);
    IndicesContain(|sim.agents|, i);
    assert c in Deposits(sim.result, sim.agents, Indices(|sim.agents|), pc, plat);
  }

  /** `Simulation::init` given its random draws: x and y from
      `gen_range(0..1024)` and heading fractions from `gen::<f32>()`. The
      images are created with unspecified contents, passed in here. */
  function Init(xs: seq<nat>, ys: seq<nat>, fractions: seq<real>, result: Image, agentSim: Image): (r: Simulation)
    requires |xs| == AgentAmount && |ys| == AgentAmount && |fractions| == AgentAmount
    requires forall i :: 0 <= i < AgentAmount ==> xs[i] < ImageSize && ys[i] < ImageSize
    requires forall i :: 0 <= i < AgentAmount ==> 0.0 <= fractions[i] < 1.0
    requires result.Valid() && result.width == ImageSize && result.height == ImageSize
    requires agentSim.Valid() && agentSim.SameSize(result)
    ensures r.Valid()
    ensures AgentsInField(r.agents)
    ensures forall i :: 0 <= i < |r.agents| ==> 0.0 <= r.agents[i].angle < 2.0 * Pi
    ensures forall i :: 0 <= i < |r.agents| ==> r.agents[i].pos == Vec2(xs[i] as real, ys[i] as real)
  {
    var agents := seq(AgentAmount, i requires 0 <= i < AgentAmount =>
      Agent(Vec2(xs[i] as real, ys[i] as real), fractions[i] * 2.0 * Pi));
    assert forall i :: 0 <= i < AgentAmount ==> fractions[i] * 2.0 * Pi < 2.0 * Pi;
    Simulation(result, agentSim, agents)
  }
}

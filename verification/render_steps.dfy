/**
 The binding steps of BeginRenderPass. Each step reads what the device holds
 now, compares it with what the pipeline state asks for, and issues its one set
 call only on a mismatch. A pass runs the steps in a fixed order, each against
 the device as the earlier steps left it.
 */
module RenderSteps {
  import opened Options
  import opened RhiDevice
  import opened RhiResources

  /** The slots a pass sets with a plain "set if different" comparison. */
  datatype FixedSlot =
    | InputLayoutSlot | VertexShaderSlot | PixelShaderSlot | ComputeShaderSlot
    | DepthStencilSlot | RasterizerSlot

  function SlotField(s: FixedSlot): Field {
    match s
    case InputLayoutSlot => InputLayoutField
    case VertexShaderSlot => VertexShaderField
    case PixelShaderSlot => PixelShaderField
    case ComputeShaderSlot => ComputeShaderField
    case DepthStencilSlot => DepthStencilField
    case RasterizerSlot => RasterizerField
  }

  /** What the device holds in a slot; for depth-stencil this is the state, not its reference value. */
  function Held(d: Device, s: FixedSlot): Ref {
    match s
    case InputLayoutSlot => d.inputLayout
    case VertexShaderSlot => d.vertexShader
    case PixelShaderSlot => d.pixelShader
    case ComputeShaderSlot => d.computeShader
    case DepthStencilSlot => d.depthStencilState
    case RasterizerSlot => d.rasterizerState
  }

  /** Devices that agree on a slot's field hold the same thing in that slot. */
  lemma HeldSameOn(a: Device, b: Device, s: FixedSlot)
    requires SameOn(a, b, SlotField(s))
    ensures Held(a, s) == Held(b, s)
  {
  }

  /**
   What a pass asks for in a slot. The input layout comes from the vertex
   shader, so a pass without a vertex shader asks for no input layout.
   */
  function Requested(ps: PipelineState, s: FixedSlot): Ref {
    match s
    case InputLayoutSlot => if ps.vertexShader.Some? then ps.vertexShader.value.inputLayout else Null
    case VertexShaderSlot => if ps.vertexShader.Some? then ps.vertexShader.value.resource else Null
    case PixelShaderSlot => ps.pixelShader
    case ComputeShaderSlot => ps.computeShader
    case DepthStencilSlot => ps.depthStencilState
    case RasterizerSlot => ps.rasterizerState
  }

  /** The set call of a slot; the depth-stencil state is always set with reference value 1. */
  function SetCall(s: FixedSlot, h: Ref): Call {
    match s
    case InputLayoutSlot => SetInputLayout(h)
    case VertexShaderSlot => SetVertexShader(h)
    case PixelShaderSlot => SetPixelShader(h)
    case ComputeShaderSlot => SetComputeShader(h)
    case DepthStencilSlot => SetDepthStencilState(h, 1)
    case RasterizerSlot => SetRasterizerState(h)
  }

  /** Set-if-different for one slot: a call iff the held handle differs, and the slot holds h afterwards. */
  function SetIfDifferent(d: Device, s: FixedSlot, h: Ref): (r: seq<Call>)
    ensures r == [] <==> Held(d, s) == h
    ensures r != [] ==> r == [SetCall(s, h)]
    ensures Held(Run(d, r), s) == h
  {
    if Held(d, s) != h then [SetCall(s, h)] else []
  }

  /** The blend state and factor a pass asks for; no blend state asks for null and factor 0. */
  function BlendRequest(ps: PipelineState): (Ref, Color) {
    if ps.blendState.Some? then (ps.blendState.value.resource, ps.blendState.value.factor) else (Null, 0)
  }

  /**
   The blend step compares the held sample mask with 0 but sets the mask to
   all ones, so a device it has set never compares equal again.
   */
  function BlendCalls(d: Device, ps: PipelineState): (r: seq<Call>)
    ensures var (state, factor) := BlendRequest(ps);
      && (r == [] <==> d.blendState == state && d.blendFactor == factor && d.blendMask == 0)
      && (r != [] ==> r == [SetBlendState(state, factor, BLEND_MASK_ALL)])
      && Run(d, r).blendState == state && Run(d, r).blendFactor == factor
  {
    var (state, factor) := BlendRequest(ps);
    if d.blendState != state || d.blendFactor != factor || d.blendMask != 0 then
      [SetBlendState(state, factor, BLEND_MASK_ALL)]
    else []
  }

  /** Topology: an unknown topology is left alone; otherwise set if different. */
  function TopologyCalls(d: Device, ps: PipelineState): (r: seq<Call>)
    ensures r == [] <==> ps.topology.TopologyUnknown? || d.topology == ps.topology.code
    ensures r != [] ==> r == [SetPrimitiveTopology(ps.topology.code)]
    ensures ps.topology.TopologyMode? ==> Run(d, r).topology == ps.topology.code
  {
    if ps.topology.TopologyMode? && d.topology != ps.topology.code then
      [SetPrimitiveTopology(ps.topology.code)]
    else []
  }

  /** The depth-stencil view: read-only or writable view of the depth texture's slice, or null. */
  function DepthStencilTarget(ps: PipelineState): Ref {
    if ps.depthTexture.None? then Null
    else if ps.depthReadOnly then At(ps.depthTexture.value.depthStencilReadOnlyViews, ps.depthArrayIndex)
    else At(ps.depthTexture.value.depthStencilViews, ps.depthArrayIndex)
  }

  /** The view colour texture i contributes, or null when slot i has none. */
  function TextureTarget(ps: PipelineState, i: nat): Ref
    requires Shaped(ps) && i < MAX_RENDER_TARGETS
  {
    if ps.colorTextures[i].Some? then At(ps.colorTextures[i].value.renderTargetViews, ps.colorArrayIndex) else Null
  }

  /** The eight colour views a pass asks for; a swapchain fills slot 0 alone and hides the textures. */
  function ColorTargets(ps: PipelineState): (r: seq<Ref>)
    requires Shaped(ps)
    ensures |r| == MAX_RENDER_TARGETS
  {
    if ps.swapchain.Some? then
      seq(MAX_RENDER_TARGETS, (i: nat) => if i == 0 then ps.swapchain.value.renderTargetView else Null)
    else
      seq(MAX_RENDER_TARGETS, (i: nat) requires i < MAX_RENDER_TARGETS => TextureTarget(ps, i))
  }

  /** Number of non-null views. */
  function NonNullCount(views: seq<Ref>): (n: nat)
    ensures n <= |views|
    decreases |views|
  {
    if views == [] then 0 else (if views[0] != Null then 1 else 0) + NonNullCount(views[1..])
  }

  /** No null view comes before a non-null one. */
  predicate Packed(views: seq<Ref>) {
    forall i, j :: 0 <= i < j < |views| && views[i] == Null ==> views[j] == Null
  }

  /** The render-target step: one set of all views and the depth view iff either differs. */
  function RenderTargetCalls(d: Device, ps: PipelineState): (r: seq<Call>)
    requires Shaped(ps)
    ensures var views := ColorTargets(ps);
      && (r == [] <==> BoundRenderTargets(d) == views && d.depthStencilView == DepthStencilTarget(ps))
      && (r != [] ==> r == [SetRenderTargets(NonNullCount(views), views, DepthStencilTarget(ps))])
      && Run(d, r).depthStencilView == DepthStencilTarget(ps)
  {
    var views := ColorTargets(ps);
    var depthStencil := DepthStencilTarget(ps);
    if BoundRenderTargets(d) != views || d.depthStencilView != depthStencil then
      [SetRenderTargets(NonNullCount(views), views, depthStencil)]
    else []
  }

  /** The viewport is set unconditionally when the pass defines one. */
  function ViewportCalls(ps: PipelineState): (r: seq<Call>)
    ensures r != [] <==> ps.viewport.Some?
    ensures r != [] ==> r == [SetViewport(ps.viewport.value)]
  {
    if ps.viewport.Some? then [SetViewport(ps.viewport.value)] else []
  }

  /** One binding step of a pass. */
  datatype Step = Fixed(slot: FixedSlot) | Blend | PrimitiveTopology | RenderTargets | ViewportStep

  /** The one field a step may write. */
  function StepField(s: Step): Field {
    match s
    case Fixed(slot) => SlotField(slot)
    case Blend => BlendField
    case PrimitiveTopology => TopologyField
    case RenderTargets => RenderTargetField
    case ViewportStep => ViewportField
  }

  /** The profiler counter a step bumps per issued set; only the shaders and the render targets have one. */
  function StepCounter(s: Step): Option<Counter> {
    match s
    case Fixed(VertexShaderSlot) => Some(ShaderVertexBindings)
    case Fixed(PixelShaderSlot) => Some(ShaderPixelBindings)
    case Fixed(ComputeShaderSlot) => Some(ShaderComputeBindings)
    case RenderTargets => Some(RenderTargetBindings)
    case _ => None
  }

  /** The calls of one step against the device d; at most one, writing only the step's field. */
  function StepCalls(d: Device, ps: PipelineState, s: Step): (r: seq<Call>)
    requires Shaped(ps)
    ensures |r| <= 1
    ensures forall c :: c in r ==> Binds(c)
    ensures forall f :: f != StepField(s) ==> Leaves(r, f)
  {
    match s
    case Fixed(slot) => SetIfDifferent(d, slot, Requested(ps, slot))
    case Blend => BlendCalls(d, ps)
    case PrimitiveTopology => TopologyCalls(d, ps)
    case RenderTargets => RenderTargetCalls(d, ps)
    case ViewportStep => ViewportCalls(ps)
  }

  /** A step looks only at its own field of the device. */
  lemma StepReadsOwnField(a: Device, b: Device, ps: PipelineState, s: Step)
    requires Shaped(ps) && SameOn(a, b, StepField(s))
    ensures StepCalls(a, ps, s) == StepCalls(b, ps, s)
  {
    if s.Fixed? {
      HeldSameOn(a, b, s.slot);
    }
  }

  /** The counters after a step that issued `calls`. */
  function CountStep(prof: Counters, s: Step, calls: seq<Call>): Counters {
    if StepCounter(s).Some? then Bump(prof, StepCounter(s).value, |calls|) else prof
  }

  /** Runs the steps in order, each against the device the earlier ones left. */
  function RunSteps(d: Device, prof: Counters, ps: PipelineState, steps: seq<Step>): (r: Issued)
    requires Shaped(ps)
    ensures forall c :: c in r.calls ==> Binds(c)
    decreases |steps|
  {
    if steps == [] then Issued([], prof)
    else
      var first := StepCalls(d, ps, steps[0]);
      var rest := RunSteps(Run(d, first), CountStep(prof, steps[0], first), ps, steps[1..]);
      Issued(first + rest.calls, rest.prof)
  }

  /** Step i is the only step of the list that writes its field. */
  predicate Owns(steps: seq<Step>, i: nat)
    requires i < |steps|
  {
    forall j :: 0 <= j < |steps| && j != i ==> StepField(steps[j]) != StepField(steps[i])
  }

  /**
   The calls `own` govern field f within the trace `calls`: they all appear
   in it, they are the only calls of it writing f, and f ends as they alone
   would leave it.
   */
  predicate Governs(d: Device, calls: seq<Call>, own: seq<Call>, f: Field) {
    && (forall c :: c in own ==> c in calls)
    && (forall c :: c in calls && Writes(c, f) ==> c in own)
    && SameOn(Run(d, calls), Run(d, own), f)
  }

  /** Steps that do not own field f leave it alone. */
  lemma {:induction false} RunStepsFrame(d: Device, prof: Counters, ps: PipelineState, steps: seq<Step>, f: Field)
    requires Shaped(ps)
    requires forall j :: 0 <= j < |steps| ==> StepField(steps[j]) != f
    ensures Leaves(RunSteps(d, prof, ps, steps).calls, f)
    decreases |steps|
  {
    if steps != [] {
      var first := StepCalls(d, ps, steps[0]);
      var prof1 := CountStep(prof, steps[0], first);
      assert StepField(steps[0]) != f;
      assert forall j :: 0 <= j < |steps[1..]| ==> StepField(steps[1..][j]) != f by {
        forall j | 0 <= j < |steps[1..]| ensures StepField(steps[1..][j]) != f {
          assert steps[1..][j] == steps[j + 1];
        }
      }
      RunStepsFrame(Run(d, first), prof1, ps, steps[1..], f);
      LeavesAppend(first, RunSteps(Run(d, first), prof1, ps, steps[1..]).calls, f);
    }
  }

  /**
   The step that owns a field governs it: its own calls (computed against the
   device the pass started from) all appear in the pass, every call of the
   pass that writes the field is one of them, and the field ends as those
   calls alone would leave it.
   */
  lemma {:induction false} RunStepsOwner(d: Device, prof: Counters, ps: PipelineState, steps: seq<Step>, i: nat)
    requires Shaped(ps) && i < |steps| && Owns(steps, i)
    ensures Governs(d, RunSteps(d, prof, ps, steps).calls, StepCalls(d, ps, steps[i]), StepField(steps[i]))
    decreases |steps|
  {
    var f := StepField(steps[i]);
    var first := StepCalls(d, ps, steps[0]);
    var d1 := Run(d, first);
    var prof1 := CountStep(prof, steps[0], first);
    var rest := RunSteps(d1, prof1, ps, steps[1..]).calls;
    RunAppend(d, first, rest);
    if i == 0 {
      forall j | 0 <= j < |steps[1..]| ensures StepField(steps[1..][j]) != f {
        assert steps[1..][j] == steps[j + 1];
      }
      RunStepsFrame(d1, prof1, ps, steps[1..], f);
      RunFrame(d1, rest, f);
      forall c | c in rest ensures !Writes(c, f) {
        var k :| 0 <= k < |rest| && rest[k] == c;
      }
    } else {
      assert StepField(steps[0]) != f;
      RunFrame(d, first, f);
      StepReadsOwnField(d1, d, ps, steps[i]);
      assert Owns(steps[1..], i - 1) by {
        forall j | 0 <= j < |steps[1..]| && j != i - 1 ensures StepField(steps[1..][j]) != StepField(steps[1..][i - 1]) {
          assert steps[1..][j] == steps[j + 1];
        }
      }
      RunStepsOwner(d1, prof1, ps, steps[1..], i - 1);
      assert steps[1..][i - 1] == steps[i];
      var own := StepCalls(d, ps, steps[i]);
      RunCongruent(d1, d, own, f);
      SameOnTrans(Run(d1, rest), Run(d1, own), Run(d, own), f);
      forall c | c in first ensures !Writes(c, f) {
        var k :| 0 <= k < |first| && first[k] == c;
      }
    }
  }

  /** A counter no step bumps is unchanged by the steps. */
  lemma {:induction false} RunStepsCountUntouched(d: Device, prof: Counters, ps: PipelineState, steps: seq<Step>, k: Counter)
    requires Shaped(ps)
    requires forall j :: 0 <= j < |steps| ==> StepCounter(steps[j]) != Some(k)
    ensures RunSteps(d, prof, ps, steps).prof.Get(k) == prof.Get(k)
    decreases |steps|
  {
    if steps != [] {
      var first := StepCalls(d, ps, steps[0]);
      assert StepCounter(steps[0]) != Some(k);
      forall j | 0 <= j < |steps[1..]| ensures StepCounter(steps[1..][j]) != Some(k) {
        assert steps[1..][j] == steps[j + 1];
      }
      RunStepsCountUntouched(Run(d, first), CountStep(prof, steps[0], first), ps, steps[1..], k);
    }
  }

  /**
   A counter bumped by exactly one step, which owns its field, grows by the
   number of calls that step issues against the device the pass started from.
   */
  lemma {:induction false} RunStepsCountOwner(d: Device, prof: Counters, ps: PipelineState, steps: seq<Step>, i: nat, k: Counter)
    requires Shaped(ps) && i < |steps| && Owns(steps, i)
    requires StepCounter(steps[i]) == Some(k)
    requires forall j :: 0 <= j < |steps| && j != i ==> StepCounter(steps[j]) != Some(k)
    ensures RunSteps(d, prof, ps, steps).prof.Get(k) == prof.Get(k) + |StepCalls(d, ps, steps[i])|
    decreases |steps|
  {
    var f := StepField(steps[i]);
    var first := StepCalls(d, ps, steps[0]);
    var d1 := Run(d, first);
    var prof1 := CountStep(prof, steps[0], first);
    if i == 0 {
      forall j | 0 <= j < |steps[1..]| ensures StepCounter(steps[1..][j]) != Some(k) {
        assert steps[1..][j] == steps[j + 1];
      }
      RunStepsCountUntouched(d1, prof1, ps, steps[1..], k);
    } else {
      assert StepField(steps[0]) != f;
      RunFrame(d, first, f);
      StepReadsOwnField(d1, d, ps, steps[i]);
      assert Owns(steps[1..], i - 1) by {
        forall j | 0 <= j < |steps[1..]| && j != i - 1 ensures StepField(steps[1..][j]) != StepField(steps[1..][i - 1]) {
          assert steps[1..][j] == steps[j + 1];
        }
      }
      forall j | 0 <= j < |steps[1..]| && j != i - 1 ensures StepCounter(steps[1..][j]) != Some(k) {
        assert steps[1..][j] == steps[j + 1];
      }
      assert steps[1..][i - 1] == steps[i];
      RunStepsCountOwner(d1, prof1, ps, steps[1..], i - 1, k);
    }
  }

  /** A governed slot: set iff it differed, by the one set call only, and held afterwards. */
  lemma GovernedSlot(d: Device, calls: seq<Call>, s: FixedSlot, want: Ref)
    requires Governs(d, calls, SetIfDifferent(d, s, want), SlotField(s))
    ensures SetCall(s, want) in calls <==> Held(d, s) != want
    ensures forall c :: c in calls && Writes(c, SlotField(s)) ==> c == SetCall(s, want)
    ensures Held(Run(d, calls), s) == want
  {
    HeldSameOn(Run(d, calls), Run(d, SetIfDifferent(d, s, want)), s);
    if SetCall(s, want) in calls {
      assert Writes(SetCall(s, want), SlotField(s));
    }
  }

  /** A governed blend state: set iff it differed from the request with mask 0, always with the all-ones mask. */
  lemma GovernedBlend(d: Device, calls: seq<Call>, ps: PipelineState)
    requires Governs(d, calls, BlendCalls(d, ps), BlendField)
    ensures var (state, factor) := BlendRequest(ps);
      var blendSet := SetBlendState(state, factor, BLEND_MASK_ALL);
      var after := Run(d, calls);
      && (blendSet in calls <==> d.blendState != state || d.blendFactor != factor || d.blendMask != 0)
      && (forall c :: c in calls && Writes(c, BlendField) ==> c == blendSet)
      && after.blendState == state && after.blendFactor == factor
      && after.blendMask == (if blendSet in calls then BLEND_MASK_ALL else d.blendMask)
  {
    var (state, factor) := BlendRequest(ps);
    var blendSet := SetBlendState(state, factor, BLEND_MASK_ALL);
    var own := BlendCalls(d, ps);
    if blendSet in calls {
      assert Writes(blendSet, BlendField);
      assert own == [blendSet];
      assert Run(d, own) == Exec(d, blendSet);
    }
  }

  /** A governed topology: a known one is set iff it differed and is held afterwards; an unknown one is left alone. */
  lemma GovernedTopology(d: Device, calls: seq<Call>, ps: PipelineState)
    requires Governs(d, calls, TopologyCalls(d, ps), TopologyField)
    ensures ps.topology.TopologyUnknown? ==>
      (forall c :: c in calls ==> !Writes(c, TopologyField)) && Run(d, calls).topology == d.topology
    ensures ps.topology.TopologyMode? ==>
      && (SetPrimitiveTopology(ps.topology.code) in calls <==> d.topology != ps.topology.code)
      && (forall c :: c in calls && Writes(c, TopologyField) ==> c == SetPrimitiveTopology(ps.topology.code))
      && Run(d, calls).topology == ps.topology.code
  {
    if ps.topology.TopologyMode? && SetPrimitiveTopology(ps.topology.code) in calls {
      assert Writes(SetPrimitiveTopology(ps.topology.code), TopologyField);
    }
  }

  /** A governed viewport: set whenever the pass defines one, left alone otherwise. */
  lemma GovernedViewport(d: Device, calls: seq<Call>, ps: PipelineState)
    requires Governs(d, calls, ViewportCalls(ps), ViewportField)
    ensures ps.viewport.Some? ==> SetViewport(ps.viewport.value) in calls && Run(d, calls).viewport == ps.viewport
    ensures ps.viewport.None? ==> Run(d, calls).viewport == d.viewport
  {
    var own := ViewportCalls(ps);
    if ps.viewport.Some? {
      assert own[0] in own;
      assert Run(d, own) == Exec(d, own[0]);
    }
  }
}

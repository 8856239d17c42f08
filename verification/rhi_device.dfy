/**
 The device side of the D3D11 command list: opaque handles, the snapshot of
 state bound to the device, the calls the command list issues against it and
 the profiler counters those calls bump.

 The command list never writes the snapshot itself; it only issues calls.
 `Run` is the device's own semantics for those calls, so "after the bind the
 device holds X" is a statement about `Run`, independent of how the command
 list decided which calls to issue.
 */
module RhiDevice {
  import opened Options

  /** An opaque backend pointer: null or some object. */
  datatype Ref = Null | Obj(id: nat)

  /** Shader stages a slot table belongs to. */
  datatype Stage = Vertex | Pixel | Compute

  /** A binding slot of a stage: (stage, slot index). */
  type Slot = (Stage, nat)

  /** Element i of a view table, or null when the table has no element i. */
  function At(views: seq<Ref>, i: nat): (r: Ref)
    ensures i < |views| ==> r == views[i]
    ensures i >= |views| ==> r == Null
  {
    if i < |views| then views[i] else Null
  }

  /** The handle a slot table holds; an absent slot holds null. */
  function Lookup(table: map<Slot, Ref>, k: Slot): (r: Ref)
    ensures k in table ==> r == table[k]
    ensures k !in table ==> r == Null
  {
    if k in table then table[k] else Null
  }

  /** Binds `views` to slots start .. start + |views| - 1 of one stage, one slot at a time. */
  function BindRange(table: map<Slot, Ref>, stage: Stage, start: nat, views: seq<Ref>): (r: map<Slot, Ref>)
    ensures forall k: Slot {:trigger Lookup(r, k)} :: Lookup(r, k) ==
              (if k.0 == stage && start <= k.1 < start + |views| then views[k.1 - start] else Lookup(table, k))
    decreases |views|
  {
    if views == [] then table
    else BindRange(table[(stage, start) := views[0]], stage, start + 1, views[1..])
  }

  /** Opaque stand-ins for floating-point payloads (viewport, colours, depth). */
  type Color = int

  /**
   A clear value: the two sentinels that suppress a clear (keep the contents,
   or contents may be discarded) or an explicit value to clear to.
   */
  datatype Clear<T> = Load | DontCare | Value(v: T) {
    predicate Explicit() { Value? }
  }
  datatype Viewport = Viewport(token: int)

  /** Index buffer element format. */
  datatype IndexFormat = FormatUnknown | R16Uint | R32Uint

  /** What the device currently holds in slot 0 of the input assembler. */
  datatype VertexBinding = VertexBinding(buffer: Ref, stride: nat, offset: nat)
  datatype IndexBinding = IndexBinding(buffer: Ref, format: IndexFormat, offset: nat)

  /** Largest value of an unsigned 32-bit integer plus one. */
  const UINT32: nat := 0x1_0000_0000

  /** The mask the blend set call always passes. */
  const BLEND_MASK_ALL: nat := 0xffff_ffff

  /** Number of colour render-target slots of the device. */
  const MAX_RENDER_TARGETS: nat := 8

  /** Snapshot of everything the command list can bind. */
  datatype Device = Device(
    inputLayout: Ref,
    vertexShader: Ref,
    pixelShader: Ref,
    computeShader: Ref,
    blendState: Ref,
    blendFactor: Color,
    blendMask: nat,
    depthStencilState: Ref,
    stencilRef: nat,
    rasterizerState: Ref,
    topology: nat,
    renderTargets: seq<Ref>,
    depthStencilView: Ref,
    viewport: Option<Viewport>,
    vertexBuffer: VertexBinding,
    indexBuffer: IndexBinding,
    constantBuffers: map<Slot, Ref>,
    samplers: map<Slot, Ref>,
    shaderResources: map<Slot, Ref>,
    unorderedAccess: map<Slot, Ref>)

  /** The eight render-target views the device reports when asked for all of them. */
  function BoundRenderTargets(d: Device): (r: seq<Ref>)
    ensures |r| == MAX_RENDER_TARGETS
    ensures forall i :: 0 <= i < MAX_RENDER_TARGETS ==> r[i] == At(d.renderTargets, i)
  {
    seq(MAX_RENDER_TARGETS, (i: nat) => At(d.renderTargets, i))
  }

  datatype TimeBlockKind = Cpu | Gpu

  /** One call the command list issues: a device call or a profiler/annotation call. */
  datatype Call =
    | SetInputLayout(layout: Ref)
    | SetVertexShader(shader: Ref)
    | SetPixelShader(shader: Ref)
    | SetComputeShader(shader: Ref)
    | SetBlendState(state: Ref, factor: Color, mask: nat)
    | SetDepthStencilState(state: Ref, stencilRef: nat)
    | SetRasterizerState(state: Ref)
    | SetPrimitiveTopology(topology: nat)
    | SetRenderTargets(count: nat, views: seq<Ref>, depthStencil: Ref)
    | SetViewport(viewport: Viewport)
    | SetVertexBuffer(buffer: Ref, stride: nat, offset: nat)
    | SetIndexBuffer(buffer: Ref, format: IndexFormat, offset: nat)
    | SetConstantBuffer(stage: Stage, slot: nat, buffer: Ref)
    | SetSampler(stage: Stage, slot: nat, sampler: Ref)
    | SetShaderResources(stage: Stage, start: nat, views: seq<Ref>)
    | SetUnorderedAccessViews(start: nat, views: seq<Ref>)
    | ClearRenderTargetView(view: Ref, color: Color)
    | ClearDepthStencilView(view: Ref, clearDepth: bool, clearStencil: bool, depth: Clear<int>, stencil: Clear<nat>)
    | ClearUnorderedAccessViewFloat(view: Ref, color: Color)
    | Draw(vertexCount: nat)
    | DrawIndexed(indexCount: nat, indexOffset: nat, vertexOffset: int)
    | Dispatch(x: nat, y: nat, z: nat)
    | CopyResource(destination: Ref, source: Ref)
    | QueryBegin(query: Ref)
    | QueryEnd(query: Ref)
    | QueryRelease(query: Ref)
    | BeginEvent(name: string)
    | EndEvent
    | TimeBlockStart(name: string, kind: TimeBlockKind)
    | TimeBlockEnd

  /** The colour slots after binding `views` with a count of n: slots from n on are unbound. */
  function TargetSlots(n: nat, views: seq<Ref>): (r: seq<Ref>)
    ensures |r| == MAX_RENDER_TARGETS
    ensures forall i :: 0 <= i < MAX_RENDER_TARGETS ==> r[i] == if i < n then At(views, i) else Null
  {
    seq(MAX_RENDER_TARGETS, (i: nat) => if i < n then At(views, i) else Null)
  }

  /** How the device reacts to one call. Calls that bind nothing leave it unchanged. */
  function Exec(d: Device, c: Call): Device {
    match c
    case SetInputLayout(l) => d.(inputLayout := l)
    case SetVertexShader(s) => d.(vertexShader := s)
    case SetPixelShader(s) => d.(pixelShader := s)
    case SetComputeShader(s) => d.(computeShader := s)
    case SetBlendState(s, f, m) => d.(blendState := s, blendFactor := f, blendMask := m)
    case SetDepthStencilState(s, r) => d.(depthStencilState := s, stencilRef := r)
    case SetRasterizerState(s) => d.(rasterizerState := s)
    case SetPrimitiveTopology(t) => d.(topology := t)
    // Slots from `count` on are unbound by the set call.
    case SetRenderTargets(n, views, ds) => d.(renderTargets := TargetSlots(n, views), depthStencilView := ds)
    case SetViewport(v) => d.(viewport := Some(v))
    case SetVertexBuffer(b, s, o) => d.(vertexBuffer := VertexBinding(b, s, o))
    case SetIndexBuffer(b, f, o) => d.(indexBuffer := IndexBinding(b, f, o))
    case SetConstantBuffer(st, s, b) => d.(constantBuffers := d.constantBuffers[(st, s) := b])
    case SetSampler(st, s, b) => d.(samplers := d.samplers[(st, s) := b])
    case SetShaderResources(st, start, views) =>
      d.(shaderResources := BindRange(d.shaderResources, st, start, views))
    case SetUnorderedAccessViews(start, views) =>
      d.(unorderedAccess := BindRange(d.unorderedAccess, Compute, start, views))
    case _ => d
  }

  /** The device after executing a trace of calls in order. */
  function Run(d: Device, calls: seq<Call>): Device
    decreases |calls|
  {
    if calls == [] then d else Run(Exec(d, calls[0]), calls[1..])
  }

  lemma {:induction false} RunAppend(d: Device, a: seq<Call>, b: seq<Call>)
    ensures Run(d, a + b) == Run(Run(d, a), b)
    decreases |a|
  {
    if a == [] {
      assert a + b == b;
    } else {
      assert (a + b)[1..] == a[1..] + b;
      RunAppend(Exec(d, a[0]), a[1..], b);
    }
  }

  /** One piece of bound state, for stating what a call may change. */
  datatype Field =
    | InputLayoutField | VertexShaderField | PixelShaderField | ComputeShaderField
    | BlendField | DepthStencilField | RasterizerField | TopologyField
    | RenderTargetField | ViewportField | VertexBufferField | IndexBufferField
    | ConstantBufferField(slot: Slot) | SamplerField(slot: Slot)
    | ShaderResourceField(slot: Slot) | UnorderedAccessField(slot: Slot)

  /** Two devices agree on field f. */
  predicate SameOn(a: Device, b: Device, f: Field) {
    match f
    case InputLayoutField => a.inputLayout == b.inputLayout
    case VertexShaderField => a.vertexShader == b.vertexShader
    case PixelShaderField => a.pixelShader == b.pixelShader
    case ComputeShaderField => a.computeShader == b.computeShader
    case BlendField => a.blendState == b.blendState && a.blendFactor == b.blendFactor && a.blendMask == b.blendMask
    case DepthStencilField => a.depthStencilState == b.depthStencilState && a.stencilRef == b.stencilRef
    case RasterizerField => a.rasterizerState == b.rasterizerState
    case TopologyField => a.topology == b.topology
    case RenderTargetField =>
      BoundRenderTargets(a) == BoundRenderTargets(b) && a.depthStencilView == b.depthStencilView
    case ViewportField => a.viewport == b.viewport
    case VertexBufferField => a.vertexBuffer == b.vertexBuffer
    case IndexBufferField => a.indexBuffer == b.indexBuffer
    case ConstantBufferField(k) => Lookup(a.constantBuffers, k) == Lookup(b.constantBuffers, k)
    case SamplerField(k) => Lookup(a.samplers, k) == Lookup(b.samplers, k)
    case ShaderResourceField(k) => Lookup(a.shaderResources, k) == Lookup(b.shaderResources, k)
    case UnorderedAccessField(k) => Lookup(a.unorderedAccess, k) == Lookup(b.unorderedAccess, k)
  }

  /** Whether executing call c may change field f. */
  predicate Writes(c: Call, f: Field) {
    match c
    case SetInputLayout(_) => f == InputLayoutField
    case SetVertexShader(_) => f == VertexShaderField
    case SetPixelShader(_) => f == PixelShaderField
    case SetComputeShader(_) => f == ComputeShaderField
    case SetBlendState(_, _, _) => f == BlendField
    case SetDepthStencilState(_, _) => f == DepthStencilField
    case SetRasterizerState(_) => f == RasterizerField
    case SetPrimitiveTopology(_) => f == TopologyField
    case SetRenderTargets(_, _, _) => f == RenderTargetField
    case SetViewport(_) => f == ViewportField
    case SetVertexBuffer(_, _, _) => f == VertexBufferField
    case SetIndexBuffer(_, _, _) => f == IndexBufferField
    case SetConstantBuffer(st, s, _) => f == ConstantBufferField((st, s))
    case SetSampler(st, s, _) => f == SamplerField((st, s))
    case SetShaderResources(st, start, views) =>
      f.ShaderResourceField? && f.slot.0 == st && start <= f.slot.1 < start + |views|
    case SetUnorderedAccessViews(start, views) =>
      f.UnorderedAccessField? && f.slot.0 == Compute && start <= f.slot.1 < start + |views|
    case _ => false
  }

  lemma SameOnTrans(a: Device, b: Device, c: Device, f: Field)
    requires SameOn(a, b, f) && SameOn(b, c, f)
    ensures SameOn(a, c, f)
  {
  }

  /** Each field after a call depends only on the call and on that field before it. */
  lemma ExecCongruent(a: Device, b: Device, c: Call, f: Field)
    requires SameOn(a, b, f)
    ensures SameOn(Exec(a, c), Exec(b, c), f)
  {
    if Writes(c, f) {
      WrittenCongruent(a, b, c, f);
    } else {
      ExecFrame(a, c, f);
      ExecFrame(b, c, f);
    }
  }

  /** A call that writes f sets it from the call alone, whatever the device held. */
  lemma WrittenCongruent(a: Device, b: Device, c: Call, f: Field)
    requires SameOn(a, b, f) && Writes(c, f)
    ensures SameOn(Exec(a, c), Exec(b, c), f)
  {
    match c {
      case SetShaderResources(st, start, views) =>
        assert Lookup(Exec(a, c).shaderResources, f.slot) == views[f.slot.1 - start];
        assert Lookup(Exec(b, c).shaderResources, f.slot) == views[f.slot.1 - start];
      case SetUnorderedAccessViews(start, views) =>
        assert Lookup(Exec(a, c).unorderedAccess, f.slot) == views[f.slot.1 - start];
        assert Lookup(Exec(b, c).unorderedAccess, f.slot) == views[f.slot.1 - start];
      case _ =>
    }
  }

  lemma {:induction false} RunCongruent(a: Device, b: Device, calls: seq<Call>, f: Field)
    requires SameOn(a, b, f)
    ensures SameOn(Run(a, calls), Run(b, calls), f)
    decreases |calls|
  {
    if calls != [] {
      ExecCongruent(a, b, calls[0], f);
      RunCongruent(Exec(a, calls[0]), Exec(b, calls[0]), calls[1..], f);
    }
  }

  /** Whether c is a call that binds state; clears, draws, queries and markers bind nothing. */
  predicate Binds(c: Call) {
    match c
    case SetInputLayout(_) => true
    case SetVertexShader(_) => true
    case SetPixelShader(_) => true
    case SetComputeShader(_) => true
    case SetBlendState(_, _, _) => true
    case SetDepthStencilState(_, _) => true
    case SetRasterizerState(_) => true
    case SetPrimitiveTopology(_) => true
    case SetRenderTargets(_, _, _) => true
    case SetViewport(_) => true
    case SetVertexBuffer(_, _, _) => true
    case SetIndexBuffer(_, _, _) => true
    case SetConstantBuffer(_, _, _) => true
    case SetSampler(_, _, _) => true
    case SetShaderResources(_, _, _) => true
    case SetUnorderedAccessViews(_, _) => true
    case _ => false
  }

  /** A trace that binds nothing. */
  predicate Inert(calls: seq<Call>) {
    forall i :: 0 <= i < |calls| ==> !Binds(calls[i])
  }

  /** No call of the trace may change field f. */
  predicate Leaves(calls: seq<Call>, f: Field) {
    forall i :: 0 <= i < |calls| ==> !Writes(calls[i], f)
  }

  /** A call that does not write f leaves f as it was. */
  lemma ExecFrame(d: Device, c: Call, f: Field)
    requires !Writes(c, f)
    ensures SameOn(Exec(d, c), d, f)
  {
    match f {
      case ConstantBufferField(k) => ExecFrameConstantBuffer(d, c, k);
      case SamplerField(k) => ExecFrameSampler(d, c, k);
      case ShaderResourceField(k) => ExecFrameShaderResource(d, c, k);
      case UnorderedAccessField(k) => ExecFrameUnorderedAccess(d, c, k);
      case _ => ExecFrameFixed(d, c, f);
    }
  }

  /** The frame of ExecFrame for the fields that are not slot tables. */
  lemma ExecFrameFixed(d: Device, c: Call, f: Field)
    requires !Writes(c, f)
    requires !f.ConstantBufferField? && !f.SamplerField? && !f.ShaderResourceField? && !f.UnorderedAccessField?
    ensures SameOn(Exec(d, c), d, f)
  {
    match f {
      case InputLayoutField => KeepsInputLayout(d, c);
      case VertexShaderField => KeepsVertexShader(d, c);
      case PixelShaderField => KeepsPixelShader(d, c);
      case ComputeShaderField => KeepsComputeShader(d, c);
      case BlendField => KeepsBlend(d, c);
      case DepthStencilField => KeepsDepthStencil(d, c);
      case RasterizerField => KeepsRasterizer(d, c);
      case TopologyField => KeepsTopology(d, c);
      case RenderTargetField => KeepsRenderTargets(d, c);
      case ViewportField => KeepsViewport(d, c);
      case VertexBufferField => KeepsVertexBuffer(d, c);
      case IndexBufferField => KeepsIndexBuffer(d, c);
    }
  }

  lemma KeepsInputLayout(d: Device, c: Call)
    requires !c.SetInputLayout?
    ensures Exec(d, c).inputLayout == d.inputLayout
  {
  }

  lemma KeepsVertexShader(d: Device, c: Call)
    requires !c.SetVertexShader?
    ensures Exec(d, c).vertexShader == d.vertexShader
  {
  }

  lemma KeepsPixelShader(d: Device, c: Call)
    requires !c.SetPixelShader?
    ensures Exec(d, c).pixelShader == d.pixelShader
  {
  }

  lemma KeepsComputeShader(d: Device, c: Call)
    requires !c.SetComputeShader?
    ensures Exec(d, c).computeShader == d.computeShader
  {
  }

  lemma KeepsBlend(d: Device, c: Call)
    requires !c.SetBlendState?
    ensures SameOn(Exec(d, c), d, BlendField)
  {
  }

  lemma KeepsDepthStencil(d: Device, c: Call)
    requires !c.SetDepthStencilState?
    ensures SameOn(Exec(d, c), d, DepthStencilField)
  {
  }

  lemma KeepsRasterizer(d: Device, c: Call)
    requires !c.SetRasterizerState?
    ensures Exec(d, c).rasterizerState == d.rasterizerState
  {
  }

  lemma KeepsTopology(d: Device, c: Call)
    requires !c.SetPrimitiveTopology?
    ensures Exec(d, c).topology == d.topology
  {
  }

  lemma KeepsRenderTargets(d: Device, c: Call)
    requires !c.SetRenderTargets?
    ensures Exec(d, c).renderTargets == d.renderTargets && Exec(d, c).depthStencilView == d.depthStencilView
  {
  }

  lemma KeepsViewport(d: Device, c: Call)
    requires !c.SetViewport?
    ensures Exec(d, c).viewport == d.viewport
  {
  }

  lemma KeepsVertexBuffer(d: Device, c: Call)
    requires !c.SetVertexBuffer?
    ensures Exec(d, c).vertexBuffer == d.vertexBuffer
  {
  }

  lemma KeepsIndexBuffer(d: Device, c: Call)
    requires !c.SetIndexBuffer?
    ensures Exec(d, c).indexBuffer == d.indexBuffer
  {
  }

  lemma ExecFrameConstantBuffer(d: Device, c: Call, k: Slot)
    requires !Writes(c, ConstantBufferField(k))
    ensures Lookup(Exec(d, c).constantBuffers, k) == Lookup(d.constantBuffers, k)
  {
    if !c.SetConstantBuffer? {
      assert Exec(d, c).constantBuffers == d.constantBuffers;
    }
  }

  lemma ExecFrameSampler(d: Device, c: Call, k: Slot)
    requires !Writes(c, SamplerField(k))
    ensures Lookup(Exec(d, c).samplers, k) == Lookup(d.samplers, k)
  {
    if !c.SetSampler? {
      assert Exec(d, c).samplers == d.samplers;
    }
  }

  lemma ExecFrameShaderResource(d: Device, c: Call, k: Slot)
    requires !Writes(c, ShaderResourceField(k))
    ensures Lookup(Exec(d, c).shaderResources, k) == Lookup(d.shaderResources, k)
  {
    if !c.SetShaderResources? {
      assert Exec(d, c).shaderResources == d.shaderResources;
    }
  }

  lemma ExecFrameUnorderedAccess(d: Device, c: Call, k: Slot)
    requires !Writes(c, UnorderedAccessField(k))
    ensures Lookup(Exec(d, c).unorderedAccess, k) == Lookup(d.unorderedAccess, k)
  {
    if !c.SetUnorderedAccessViews? {
      assert Exec(d, c).unorderedAccess == d.unorderedAccess;
    }
  }

  /** A trace none of whose calls writes f leaves f as it was. */
  lemma {:induction false} RunFrame(d: Device, calls: seq<Call>, f: Field)
    requires Leaves(calls, f)
    ensures SameOn(Run(d, calls), d, f)
    decreases |calls|
  {
    if calls != [] {
      ExecFrame(d, calls[0], f);
      assert Leaves(calls[1..], f) by {
        forall i | 0 <= i < |calls[1..]| ensures !Writes(calls[1..][i], f) {
          assert calls[1..][i] == calls[i + 1];
        }
      }
      RunFrame(Exec(d, calls[0]), calls[1..], f);
    }
  }

  /** A trace that binds nothing leaves the device exactly as it was. */
  lemma {:induction false} InertRun(d: Device, calls: seq<Call>)
    requires Inert(calls)
    ensures Run(d, calls) == d
    decreases |calls|
  {
    if calls != [] {
      assert !Binds(calls[0]);
      assert Inert(calls[1..]) by {
        forall i | 0 <= i < |calls[1..]| ensures !Binds(calls[1..][i]) {
          assert calls[1..][i] == calls[i + 1];
        }
      }
      InertRun(d, calls[1..]);
    }
  }

  /**
   Inert calls around a trace change nothing: the device ends as the trace
   alone leaves it, and every binding call of the whole is one of the trace's.
   */
  lemma InertAround(d: Device, before: seq<Call>, calls: seq<Call>, after: seq<Call>)
    requires Inert(before) && Inert(after)
    ensures Run(d, before + (calls + after)) == Run(d, calls)
    ensures forall c :: c in calls ==> c in before + (calls + after)
    ensures forall c :: c in before + (calls + after) && Binds(c) ==> c in calls
  {
    InertRun(d, before);
    RunAppend(d, before, calls + after);
    RunAppend(d, calls, after);
    InertRun(Run(d, calls), after);
    forall c | c in before + (calls + after) && Binds(c) ensures c in calls {
      var k :| 0 <= k < |before + (calls + after)| && (before + (calls + after))[k] == c;
      if |before| <= k < |before| + |calls| {
        assert calls[k - |before|] == c;
      }
    }
  }

  /** A trace that binds nothing leaves every field as it was. */
  lemma InertLeaves(calls: seq<Call>, f: Field)
    requires Inert(calls)
    ensures Leaves(calls, f)
  {
    forall i | 0 <= i < |calls| ensures !Writes(calls[i], f) {
      assert !Binds(calls[i]);
    }
  }

  lemma LeavesAppend(a: seq<Call>, b: seq<Call>, f: Field)
    ensures Leaves(a + b, f) <==> Leaves(a, f) && Leaves(b, f)
  {
    if Leaves(a, f) && Leaves(b, f) {
      forall i | 0 <= i < |a + b| ensures !Writes((a + b)[i], f) {
        if i >= |a| { assert (a + b)[i] == b[i - |a|]; }
      }
    }
    if Leaves(a + b, f) {
      forall i | 0 <= i < |a| ensures !Writes(a[i], f) {
        assert (a + b)[i] == a[i];
      }
      forall i | 0 <= i < |b| ensures !Writes(b[i], f) {
        assert (a + b)[|a| + i] == b[i];
      }
    }
  }

  /** The named profiler counters the command list bumps. */
  datatype Counter =
    | ShaderVertexBindings | ShaderPixelBindings | ShaderComputeBindings
    | RenderTargetBindings | PipelineBindings
    | VertexBufferBindings | IndexBufferBindings | ConstantBufferBindings | StructuredBufferBindings
    | SamplerBindings | SampledTextureBindings | StorageTextureBindings
    | DrawCalls | DispatchCalls

  /** The profiler's counters; a total map from counter name to its value. */
  datatype Counters = Counters(values: map<Counter, nat>) {
    function Get(k: Counter): nat {
      if k in values then values[k] else 0
    }
  }

  /** Adds n to one counter and leaves every other counter as it was. */
  function Bump(c: Counters, k: Counter, n: nat): (r: Counters)
    ensures r.Get(k) == c.Get(k) + n
    ensures forall k' :: k' != k ==> r.Get(k') == c.Get(k')
  {
    Counters(c.values[k := c.Get(k) + n])
  }

  /** What one command-list operation produces: the calls it issued, in order, and the new counters. */
  datatype Issued = Issued(calls: seq<Call>, prof: Counters)
}

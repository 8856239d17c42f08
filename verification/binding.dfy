/**
 The per-resource binds of the D3D11 command list: vertex and index buffers,
 constant buffers, samplers, textures and structured buffers. Each reads what
 the device holds, issues the set call only on a mismatch and counts every
 set it issues.
 */
module Binding {
  import opened Options
  import opened RhiDevice
  import opened RhiResources

  /** Issues `call` and bumps counter k when `changed`; otherwise issues nothing. */
  function SetIf(prof: Counters, k: Counter, changed: bool, call: Call): (r: Issued)
    ensures r.calls == [] <==> !changed
    ensures r.calls != [] ==> r.calls == [call]
    ensures r.prof.Get(k) == prof.Get(k) + |r.calls|
    ensures forall k' :: k' != k ==> r.prof.Get(k') == prof.Get(k')
  {
    if changed then Issued([call], Bump(prof, k, 1)) else Issued([], prof)
  }

  /** Largest value of an unsigned 64-bit integer plus one. */
  const UINT64: nat := 0x1_0000_0000_0000_0000

  /**
   SetBufferVertex. The bound buffer and offset are compared with the request;
   the stride is not. The 64-bit offset is compared as is but handed to the
   device truncated to 32 bits.
   */
  function SetBufferVertex(d: Device, prof: Counters, buffer: Ref, stride: nat, offset: nat): (r: Issued)
    requires buffer != Null && offset < UINT64
    ensures r.calls == [] <==> d.vertexBuffer.buffer == buffer && d.vertexBuffer.offset == offset
    ensures r.calls != [] ==> r.calls == [SetVertexBuffer(buffer, stride, offset % UINT32)]
    ensures r.prof.Get(VertexBufferBindings) == prof.Get(VertexBufferBindings) + |r.calls|
    ensures forall k :: k != VertexBufferBindings ==> r.prof.Get(k) == prof.Get(k)
    ensures Run(d, r.calls).vertexBuffer.buffer == buffer
    ensures offset < UINT32 ==> Run(d, r.calls).vertexBuffer.offset == offset
    ensures forall f :: f != VertexBufferField ==> Leaves(r.calls, f)
  {
    var held := d.vertexBuffer;
    SetIf(prof, VertexBufferBindings, !(held.buffer == buffer && held.offset == offset),
          SetVertexBuffer(buffer, stride, offset % UINT32))
  }

  /** The index format a buffer asks for: 16-bit or 32-bit indices. */
  function IndexFormatOf(is16Bit: bool): IndexFormat {
    if is16Bit then R16Uint else R32Uint
  }

  /** SetBufferIndex: buffer and offset are compared, the format is not. */
  function SetBufferIndex(d: Device, prof: Counters, buffer: Ref, is16Bit: bool, offset: nat): (r: Issued)
    requires buffer != Null && offset < UINT64
    ensures r.calls == [] <==> d.indexBuffer.buffer == buffer && d.indexBuffer.offset == offset
    ensures r.calls != [] ==> r.calls == [SetIndexBuffer(buffer, IndexFormatOf(is16Bit), offset % UINT32)]
    ensures r.prof.Get(IndexBufferBindings) == prof.Get(IndexBufferBindings) + |r.calls|
    ensures forall k :: k != IndexBufferBindings ==> r.prof.Get(k) == prof.Get(k)
    ensures Run(d, r.calls).indexBuffer.buffer == buffer
    ensures offset < UINT32 ==> Run(d, r.calls).indexBuffer.offset == offset
    ensures forall f :: f != IndexBufferField ==> Leaves(r.calls, f)
  {
    var held := d.indexBuffer;
    SetIf(prof, IndexBufferBindings, !(held.buffer == buffer && held.offset == offset),
          SetIndexBuffer(buffer, IndexFormatOf(is16Bit), offset % UINT32))
  }

  /** Binding the same vertex buffer again with a 32-bit offset issues nothing. */
  lemma VertexRebindIsQuiet(d: Device, prof: Counters, buffer: Ref, stride: nat, offset: nat)
    requires buffer != Null && offset < UINT32
    ensures var first := SetBufferVertex(d, prof, buffer, stride, offset);
      SetBufferVertex(Run(d, first.calls), first.prof, buffer, stride, offset).calls == []
  {
  }

  /**
   An offset that does not fit in 32 bits never matches the 32-bit offset the
   device holds, so every such bind is issued, again and again.
   */
  lemma WideOffsetAlwaysRebinds(d: Device, prof: Counters, buffer: Ref, stride: nat, offset: nat)
    requires buffer != Null && UINT32 <= offset < UINT64
    requires d.vertexBuffer.offset < UINT32
    ensures var first := SetBufferVertex(d, prof, buffer, stride, offset);
      SetBufferVertex(Run(d, first.calls), first.prof, buffer, stride, offset).calls
        == [SetVertexBuffer(buffer, stride, offset % UINT32)]
  {
  }

  /** A different stride alone does not rebind: the device keeps the old stride. */
  lemma StrideNotCompared(d: Device, prof: Counters, buffer: Ref, stride: nat, offset: nat)
    requires buffer != Null && offset < UINT64
    requires d.vertexBuffer == VertexBinding(buffer, stride + 1, offset)
    ensures var r := SetBufferVertex(d, prof, buffer, stride, offset);
      r.calls == [] && Run(d, r.calls).vertexBuffer.stride != stride
  {
  }

  /** A different index format alone does not rebind: the device keeps the old format. */
  lemma FormatNotCompared(d: Device, prof: Counters, buffer: Ref, is16Bit: bool, offset: nat)
    requires buffer != Null && offset < UINT64
    requires d.indexBuffer == IndexBinding(buffer, IndexFormatOf(!is16Bit), offset)
    ensures var r := SetBufferIndex(d, prof, buffer, is16Bit, offset);
      r.calls == [] && Run(d, r.calls).indexBuffer.format != IndexFormatOf(is16Bit)
  {
  }

  /** The shader stages a constant buffer is bound for (the scope flags). */
  datatype Scope = Scope(vertex: bool, pixel: bool, compute: bool) {
    predicate Has(st: Stage) {
      match st
      case Vertex => vertex
      case Pixel => pixel
      case Compute => compute
    }
  }

  /** The handle a possibly absent object binds: its resource, or null. */
  function ResourceOf(obj: Option<Ref>): Ref {
    if obj.Some? then obj.value else Null
  }

  /** The set call of one stage, issued when that stage is in scope and holds another buffer. */
  function StageConstantBuffer(d: Device, scope: Scope, st: Stage, slot: nat, buffer: Ref): (r: seq<Call>)
    ensures r == [] <==> !scope.Has(st) || Lookup(d.constantBuffers, (st, slot)) == buffer
    ensures r != [] ==> r == [Call.SetConstantBuffer(st, slot, buffer)]
  {
    if scope.Has(st) && Lookup(d.constantBuffers, (st, slot)) != buffer then [Call.SetConstantBuffer(st, slot, buffer)] else []
  }

  /** The stages in scope whose slot holds something other than the buffer. */
  function ChangedStages(d: Device, scope: Scope, slot: nat, buffer: Ref): set<Stage> {
    set st: Stage | st in {Vertex, Pixel, Compute} && scope.Has(st) && Lookup(d.constantBuffers, (st, slot)) != buffer
  }

  /**
   SetConstantBuffer: the vertex, pixel and compute stages are checked in that
   order, each independently, and each set issued is counted once.
   */
  function SetConstantBuffer(d: Device, prof: Counters, slot: nat, scope: Scope, constantBuffer: Option<Ref>): (r: Issued)
    ensures var buffer := ResourceOf(constantBuffer);
      && (forall st :: Call.SetConstantBuffer(st, slot, buffer) in r.calls <==> st in ChangedStages(d, scope, slot, buffer))
      && (forall c :: c in r.calls ==> c.SetConstantBuffer? && c.slot == slot && c.buffer == buffer)
      && |r.calls| <= 3
    ensures r.prof.Get(ConstantBufferBindings) == prof.Get(ConstantBufferBindings) + |r.calls|
    ensures forall k :: k != ConstantBufferBindings ==> r.prof.Get(k) == prof.Get(k)
  {
    var buffer := ResourceOf(constantBuffer);
    var calls := StageConstantBuffer(d, scope, Vertex, slot, buffer)
               + StageConstantBuffer(d, scope, Pixel, slot, buffer)
               + StageConstantBuffer(d, scope, Compute, slot, buffer);
    Issued(calls, Bump(prof, ConstantBufferBindings, |calls|))
  }

  /** A set of stages has one element per stage it contains. */
  lemma StageCount(s: set<Stage>)
    ensures |s| == (if Vertex in s then 1 else 0) + (if Pixel in s then 1 else 0) + (if Compute in s then 1 else 0)
  {
    var v := if Vertex in s then {Vertex} else {};
    var p := if Pixel in s then {Pixel} else {};
    var c := if Compute in s then {Compute} else {};
    forall st | st in s ensures st in v + p + c {
      match st {
        case Vertex =>
        case Pixel =>
        case Compute =>
      }
    }
    assert s == v + p + c;
  }

  /** The number of sets, and of counter bumps, is the number of stages that changed: 0 to 3. */
  lemma ConstantBufferCountsChangedStages(d: Device, prof: Counters, slot: nat, scope: Scope, constantBuffer: Option<Ref>)
    ensures var r := SetConstantBuffer(d, prof, slot, scope, constantBuffer);
      |r.calls| == |ChangedStages(d, scope, slot, ResourceOf(constantBuffer))|
  {
    var buffer := ResourceOf(constantBuffer);
    StageCount(ChangedStages(d, scope, slot, buffer));
  }

  /**
   A trace of sets of one buffer into one constant-buffer slot, with a set for
   every stage in scope that held something else: afterwards every stage in
   scope holds the buffer there, and nothing else of the device has changed.
   */
  lemma ScopedSetsBind(d: Device, calls: seq<Call>, slot: nat, scope: Scope, buffer: Ref)
    requires forall c :: c in calls ==> c.SetConstantBuffer? && c.slot == slot && c.buffer == buffer
    requires forall st :: scope.Has(st) && Lookup(d.constantBuffers, (st, slot)) != buffer ==>
      Call.SetConstantBuffer(st, slot, buffer) in calls
    ensures forall st :: scope.Has(st) ==> Lookup(Run(d, calls).constantBuffers, (st, slot)) == buffer
    ensures forall f: Field :: !(f.ConstantBufferField? && f.slot.1 == slot) ==> SameOn(Run(d, calls), d, f)
  {
    forall st | scope.Has(st) ensures Lookup(Run(d, calls).constantBuffers, (st, slot)) == buffer {
      LastWriterWins(d, calls, st, slot, buffer);
    }
    forall f: Field | !(f.ConstantBufferField? && f.slot.1 == slot) ensures SameOn(Run(d, calls), d, f) {
      forall i | 0 <= i < |calls| ensures !Writes(calls[i], f) {
        assert calls[i] in calls;
      }
      RunFrame(d, calls, f);
    }
  }

  /**
   After SetConstantBuffer every stage in scope holds the buffer in that slot,
   and no other slot of any stage changes.
   */
  lemma ConstantBufferBound(d: Device, prof: Counters, slot: nat, scope: Scope, constantBuffer: Option<Ref>)
    ensures var r := SetConstantBuffer(d, prof, slot, scope, constantBuffer);
      var after := Run(d, r.calls);
      && (forall st :: scope.Has(st) ==> Lookup(after.constantBuffers, (st, slot)) == ResourceOf(constantBuffer))
      && (forall f: Field :: !(f.ConstantBufferField? && f.slot.1 == slot) ==> SameOn(after, d, f))
  {
    var buffer := ResourceOf(constantBuffer);
    var r := SetConstantBuffer(d, prof, slot, scope, constantBuffer);
    ScopedSetsBind(d, r.calls, slot, scope, buffer);
  }

  /**
   A trace of constant-buffer sets that all bind one buffer to one slot: the
   slot of each stage ends holding that buffer if any call set it, and keeps
   its contents otherwise.
   */
  lemma {:induction false} LastWriterWins(d: Device, calls: seq<Call>, st: Stage, slot: nat, buffer: Ref)
    requires forall c :: c in calls ==> c.SetConstantBuffer? && c.slot == slot && c.buffer == buffer
    ensures Lookup(Run(d, calls).constantBuffers, (st, slot)) ==
      (if Call.SetConstantBuffer(st, slot, buffer) in calls then buffer else Lookup(d.constantBuffers, (st, slot)))
    decreases |calls|
  {
    if calls != [] {
      assert calls[0] in calls;
      assert forall c :: c in calls[1..] ==> c in calls;
      LastWriterWins(Exec(d, calls[0]), calls[1..], st, slot, buffer);
      assert Call.SetConstantBuffer(st, slot, buffer) in calls <==>
        calls[0] == Call.SetConstantBuffer(st, slot, buffer) || Call.SetConstantBuffer(st, slot, buffer) in calls[1..];
    }
  }

  /** Binding the same constant buffer again with the same scope issues nothing. */
  lemma ConstantBufferRebindIsQuiet(d: Device, prof: Counters, slot: nat, scope: Scope, constantBuffer: Option<Ref>)
    ensures var first := SetConstantBuffer(d, prof, slot, scope, constantBuffer);
      SetConstantBuffer(Run(d, first.calls), first.prof, slot, scope, constantBuffer).calls == []
  {
    var first := SetConstantBuffer(d, prof, slot, scope, constantBuffer);
    var after := Run(d, first.calls);
    ConstantBufferBound(d, prof, slot, scope, constantBuffer);
    ConstantBufferCountsChangedStages(after, first.prof, slot, scope, constantBuffer);
    assert ChangedStages(after, scope, slot, ResourceOf(constantBuffer)) == {};
  }

  /** The stage a sampler or sampled texture binds to: compute for a compute pipeline, else pixel. */
  function ShaderStage(compute: bool): (st: Stage)
    ensures st == Compute <==> compute
    ensures st != Compute ==> st == Pixel
  {
    if compute then Compute else Pixel
  }

  /** SetSampler: one sampler to one slot of the pipeline's stage, if it is not already there. */
  function SetSampler(d: Device, prof: Counters, compute: bool, slot: nat, sampler: Option<Ref>): (r: Issued)
    ensures var st := ShaderStage(compute);
      && (r.calls == [] <==> Lookup(d.samplers, (st, slot)) == ResourceOf(sampler))
      && (r.calls != [] ==> r.calls == [Call.SetSampler(st, slot, ResourceOf(sampler))])
      && Lookup(Run(d, r.calls).samplers, (st, slot)) == ResourceOf(sampler)
      && (forall f :: f != SamplerField((st, slot)) ==> Leaves(r.calls, f))
    ensures r.prof.Get(SamplerBindings) == prof.Get(SamplerBindings) + |r.calls|
    ensures forall k :: k != SamplerBindings ==> r.prof.Get(k) == prof.Get(k)
  {
    var st := ShaderStage(compute);
    var handle := ResourceOf(sampler);
    SetIf(prof, SamplerBindings, Lookup(d.samplers, (st, slot)) != handle, Call.SetSampler(st, slot, handle))
  }

  /** SetStructuredBuffer: one compute UAV slot, if it does not already hold the buffer. */
  function SetStructuredBuffer(d: Device, prof: Counters, slot: nat, structuredBuffer: Option<Ref>): (r: Issued)
    ensures r.calls == [] <==> Lookup(d.unorderedAccess, (Compute, slot)) == ResourceOf(structuredBuffer)
    ensures r.calls != [] ==> r.calls == [SetUnorderedAccessViews(slot, [ResourceOf(structuredBuffer)])]
    ensures Lookup(Run(d, r.calls).unorderedAccess, (Compute, slot)) == ResourceOf(structuredBuffer)
    ensures forall f :: f != UnorderedAccessField((Compute, slot)) ==> Leaves(r.calls, f)
    ensures r.prof.Get(StructuredBufferBindings) == prof.Get(StructuredBufferBindings) + |r.calls|
    ensures forall k :: k != StructuredBufferBindings ==> r.prof.Get(k) == prof.Get(k)
  {
    var handle := ResourceOf(structuredBuffer);
    SetIf(prof, StructuredBufferBindings, Lookup(d.unorderedAccess, (Compute, slot)) != handle,
          SetUnorderedAccessViews(slot, [handle]))
  }

  /** Number of entries of the view array SetTexture fills. */
  const RANGE_MAX: nat := 12

  /** Whether a mip was asked for: every value but the default -1 is a request. */
  predicate MipRequested(mip: int) { mip != -1 }

  /** A signed 32-bit value reinterpreted as unsigned. */
  function Unsigned(x: int): (r: nat)
    ensures r < UINT32
    ensures 0 <= x < UINT32 ==> r == x
  {
    x % UINT32
  }

  /**
   The number of views SetTexture binds: the mips from the requested one (or
   from 0) to the last when ranged, else one. The subtraction is unsigned
   32-bit arithmetic and wraps.
   */
  function TextureRange(texture: Option<Texture>, mip: int, ranged: bool): (n: nat)
    requires ranged ==> texture.Some?
    ensures !ranged ==> n == 1
    ensures ranged && 0 <= (if MipRequested(mip) then mip else 0) <= texture.value.mipCount < UINT32 ==>
      n == texture.value.mipCount - (if MipRequested(mip) then mip else 0)
  {
    if !ranged then 1
    else Unsigned(texture.value.mipCount - (if MipRequested(mip) then mip else 0))
  }

  /** A texture's per-mip table of unordered-access or shader-resource views. */
  function MipViews(tex: Texture, uav: bool): seq<Ref> {
    if uav then tex.uavMips else tex.srvMips
  }

  /** The single view bound when not ranged: the view of the requested mip, or the whole-texture view. */
  function SingleView(tex: Texture, mip: int, uav: bool): Ref {
    if MipRequested(mip) then At(MipViews(tex, uav), Unsigned(mip))
    else if uav then tex.uav else tex.srv
  }

  /**
   The view array as written: entry i of a ranged bind is mip `mip + i` in
   unsigned arithmetic, even when no mip was requested and `mip` is -1.
   */
  function WrittenViews(texture: Option<Texture>, mip: int, ranged: bool, uav: bool, range: nat): (r: seq<Ref>)
    requires texture.Some? && ranged ==> range <= RANGE_MAX
    ensures |r| == RANGE_MAX
  {
    if texture.None? then seq(RANGE_MAX, _ => Null)
    else if !ranged then [SingleView(texture.value, mip, uav)] + seq(RANGE_MAX - 1, _ => Null)
    else seq(RANGE_MAX, (i: nat) => if i < range then At(MipViews(texture.value, uav), Unsigned(mip + i)) else Null)
  }

  /**
   The view array as evidently intended: a ranged bind starts at the
   requested mip, or at mip 0 when none was requested.
   */
  function IntendedViews(texture: Option<Texture>, mip: int, ranged: bool, uav: bool, range: nat): (r: seq<Ref>)
    requires texture.Some? && ranged ==> range <= RANGE_MAX
    ensures |r| == RANGE_MAX
  {
    if texture.None? then seq(RANGE_MAX, _ => Null)
    else if !ranged then [SingleView(texture.value, mip, uav)] + seq(RANGE_MAX - 1, _ => Null)
    else
      var first := if MipRequested(mip) then mip else 0;
      seq(RANGE_MAX, (i: nat) => if i < range then At(MipViews(texture.value, uav), Unsigned(first + i)) else Null)
  }

  /**
   What the device reports for the first of `range` slots starting at slot:
   a query for no slots leaves the answer null.
   */
  function HeldFirst(table: map<Slot, Ref>, st: Stage, slot: nat, range: nat): Ref {
    if range == 0 then Null else Lookup(table, (st, slot))
  }

  /**
   Binds the first `range` entries of a view array to `range` slots from slot:
   as unordered-access views of the compute stage, or as shader resources of
   the pipeline's stage. Only the first slot is compared with the request.
   */
  function BindViews(d: Device, prof: Counters, compute: bool, slot: nat, uav: bool, range: nat, views: seq<Ref>): (r: Issued)
    requires range <= |views| == RANGE_MAX
    ensures var st := if uav then Compute else ShaderStage(compute);
      var table := if uav then d.unorderedAccess else d.shaderResources;
      && (r.calls == [] <==> HeldFirst(table, st, slot, range) == views[0])
      && (r.calls != [] && uav ==> r.calls == [SetUnorderedAccessViews(slot, views[..range])])
      && (r.calls != [] && !uav ==> r.calls == [SetShaderResources(st, slot, views[..range])])
    ensures var k := if uav then StorageTextureBindings else SampledTextureBindings;
      && r.prof.Get(k) == prof.Get(k) + |r.calls|
      && forall k' :: k' != k ==> r.prof.Get(k') == prof.Get(k')
  {
    if uav then
      SetIf(prof, StorageTextureBindings, HeldFirst(d.unorderedAccess, Compute, slot, range) != views[0],
            SetUnorderedAccessViews(slot, views[..range]))
    else
      var st := ShaderStage(compute);
      SetIf(prof, SampledTextureBindings, HeldFirst(d.shaderResources, st, slot, range) != views[0],
            SetShaderResources(st, slot, views[..range]))
  }

  /**
   SetTexture as written. A ranged bind dereferences the texture, and the
   range must fit the twelve-entry view array.
   */
  function SetTextureAsWritten(d: Device, prof: Counters, compute: bool, slot: nat, texture: Option<Texture>,
                               mip: int, ranged: bool, uav: bool): (r: Issued)
    requires ranged ==> texture.Some? && TextureRange(texture, mip, ranged) <= RANGE_MAX
    ensures var range := TextureRange(texture, mip, ranged);
      var views := WrittenViews(texture, mip, ranged, uav, range);
      var st := if uav then Compute else ShaderStage(compute);
      && (r.calls == [] <==> HeldFirst(ViewTable(d, uav), st, slot, range) == views[0])
      && (r.calls != [] ==> |r.calls| == 1 && Binds(r.calls[0]))
      && (r.calls != [] && uav ==> r.calls == [SetUnorderedAccessViews(slot, views[..range])])
      && (r.calls != [] && !uav ==> r.calls == [SetShaderResources(st, slot, views[..range])])
  {
    var range := TextureRange(texture, mip, ranged);
    BindViews(d, prof, compute, slot, uav, range, WrittenViews(texture, mip, ranged, uav, range))
  }

  /**
   SetTexture as evidently intended: binds one view, or the views of a run of
   mips starting at the requested mip or at mip 0, to consecutive slots; the
   stage of a shader-resource bind is compute iff the pipeline is.
   */
  function SetTextureIntended(d: Device, prof: Counters, compute: bool, slot: nat, texture: Option<Texture>,
                      mip: int, ranged: bool, uav: bool): (r: Issued)
    requires ranged ==> texture.Some? && TextureRange(texture, mip, ranged) <= RANGE_MAX
    ensures var range := TextureRange(texture, mip, ranged);
      var views := IntendedViews(texture, mip, ranged, uav, range);
      var st := if uav then Compute else ShaderStage(compute);
      var table := if uav then d.unorderedAccess else d.shaderResources;
      && (r.calls == [] <==> HeldFirst(table, st, slot, range) == views[0])
      && (r.calls != [] ==> |r.calls| == 1 && Binds(r.calls[0]))
      && (r.calls != [] && uav ==> r.calls == [SetUnorderedAccessViews(slot, views[..range])])
      && (r.calls != [] && !uav ==> r.calls == [SetShaderResources(st, slot, views[..range])])
  {
    var range := TextureRange(texture, mip, ranged);
    BindViews(d, prof, compute, slot, uav, range, IntendedViews(texture, mip, ranged, uav, range))
  }

  /** The device's table of the kind of view a texture bind uses. */
  function ViewTable(d: Device, uav: bool): map<Slot, Ref> {
    if uav then d.unorderedAccess else d.shaderResources
  }

  /**
   After a view bind that issues its call, the `range` slots from slot hold
   the first `range` views; after one that does not, the first slot already
   held the first view. Other slots and the other view table do not change.
   */
  lemma BindViewsResult(d: Device, prof: Counters, compute: bool, slot: nat, uav: bool, range: nat, views: seq<Ref>)
    requires 1 <= range <= |views| == RANGE_MAX
    ensures var r := BindViews(d, prof, compute, slot, uav, range, views);
      var st := if uav then Compute else ShaderStage(compute);
      var after := ViewTable(Run(d, r.calls), uav);
      && Lookup(after, (st, slot)) == views[0]
      && (r.calls != [] ==> forall i :: 0 <= i < range ==> Lookup(after, (st, slot + i)) == views[i])
      && (forall k: Slot :: !(k.0 == st && slot <= k.1 < slot + range) ==> Lookup(after, k) == Lookup(ViewTable(d, uav), k))
      && ViewTable(Run(d, r.calls), !uav) == ViewTable(d, !uav)
  {
    var r := BindViews(d, prof, compute, slot, uav, range, views);
    if r.calls != [] {
      assert Run(d, r.calls) == Exec(d, r.calls[0]);
    }
  }

  /** Binding the same texture the same way again issues nothing. */
  lemma TextureRebindIsQuiet(d: Device, prof: Counters, compute: bool, slot: nat, texture: Option<Texture>,
                             mip: int, ranged: bool, uav: bool)
    requires ranged ==> texture.Some? && TextureRange(texture, mip, ranged) <= RANGE_MAX
    ensures var first := SetTextureAsWritten(d, prof, compute, slot, texture, mip, ranged, uav);
      SetTextureAsWritten(Run(d, first.calls), first.prof, compute, slot, texture, mip, ranged, uav).calls == []
  {
    var range := TextureRange(texture, mip, ranged);
    if range > 0 {
      BindViewsResult(d, prof, compute, slot, uav, range, WrittenViews(texture, mip, ranged, uav, range));
    }
  }

  /**
   Only the first slot is compared: when it already holds the first view, a
   later slot holding something else keeps it.
   */
  lemma TextureDirtyCheckIsFirstSlotOnly(d: Device, prof: Counters, compute: bool, slot: nat, texture: Option<Texture>,
                                         mip: int, ranged: bool, uav: bool, i: nat)
    requires ranged ==> texture.Some? && TextureRange(texture, mip, ranged) <= RANGE_MAX
    requires var range := TextureRange(texture, mip, ranged);
      var st := if uav then Compute else ShaderStage(compute);
      var views := WrittenViews(texture, mip, ranged, uav, range);
      && 0 < i < range
      && Lookup(ViewTable(d, uav), (st, slot)) == views[0]
      && Lookup(ViewTable(d, uav), (st, slot + i)) != views[i]
    ensures var r := SetTextureAsWritten(d, prof, compute, slot, texture, mip, ranged, uav);
      var st := if uav then Compute else ShaderStage(compute);
      && r.calls == []
      && Lookup(ViewTable(Run(d, r.calls), uav), (st, slot + i)) != WrittenViews(texture, mip, ranged, uav, TextureRange(texture, mip, ranged))[i]
  {
  }

  /**
   A ranged bind covers mips mip .. mip + range - 1 in unsigned arithmetic;
   for a requested mip that is the run from the requested mip. Once issued,
   slot + i holds view i.
   */
  lemma RangedTextureBindsMips(d: Device, prof: Counters, compute: bool, slot: nat, tex: Texture,
                               mip: int, uav: bool)
    requires TextureRange(Some(tex), mip, true) <= RANGE_MAX
    ensures var range := TextureRange(Some(tex), mip, true);
      var views := WrittenViews(Some(tex), mip, true, uav, range);
      var r := SetTextureAsWritten(d, prof, compute, slot, Some(tex), mip, true, uav);
      var st := if uav then Compute else ShaderStage(compute);
      && (forall i :: 0 <= i < range ==> views[i] == At(MipViews(tex, uav), Unsigned(mip + i)))
      && (MipRequested(mip) && 0 <= mip ==>
            forall i :: 0 <= i < range && mip + i < UINT32 ==> views[i] == At(MipViews(tex, uav), mip + i))
      && (r.calls != [] ==> forall i :: 0 <= i < range ==> Lookup(ViewTable(Run(d, r.calls), uav), (st, slot + i)) == views[i])
  {
    var range := TextureRange(Some(tex), mip, true);
    var views := WrittenViews(Some(tex), mip, true, uav, range);
    forall i | 0 <= i < range ensures views[i] == At(MipViews(tex, uav), Unsigned(mip + i)) {
      assert views[i] == seq(RANGE_MAX, (k: nat) => if k < range then At(MipViews(tex, uav), Unsigned(mip + k)) else Null)[i];
    }
    if range > 0 {
      BindViewsResult(d, prof, compute, slot, uav, range, views);
    }
  }

  /**
   The bind as written and as intended differ only for a ranged bind with no
   mip requested: whenever a mip is requested, or the bind is not ranged,
   they issue the same calls and bump the same counters.
   */
  lemma WrittenAgreesWithIntended(d: Device, prof: Counters, compute: bool, slot: nat, texture: Option<Texture>,
                                  mip: int, ranged: bool, uav: bool)
    requires ranged ==> texture.Some? && TextureRange(texture, mip, ranged) <= RANGE_MAX
    requires !ranged || MipRequested(mip)
    ensures SetTextureAsWritten(d, prof, compute, slot, texture, mip, ranged, uav)
         == SetTextureIntended(d, prof, compute, slot, texture, mip, ranged, uav)
  {
    var range := TextureRange(texture, mip, ranged);
    assert WrittenViews(texture, mip, ranged, uav, range) == IntendedViews(texture, mip, ranged, uav, range);
  }

  /** As intended too, binding the same texture the same way again issues nothing. */
  lemma IntendedTextureRebindIsQuiet(d: Device, prof: Counters, compute: bool, slot: nat, texture: Option<Texture>,
                             mip: int, ranged: bool, uav: bool)
    requires ranged ==> texture.Some? && TextureRange(texture, mip, ranged) <= RANGE_MAX
    ensures var first := SetTextureIntended(d, prof, compute, slot, texture, mip, ranged, uav);
      SetTextureIntended(Run(d, first.calls), first.prof, compute, slot, texture, mip, ranged, uav).calls == []
  {
    var range := TextureRange(texture, mip, ranged);
    if range > 0 {
      BindViewsResult(d, prof, compute, slot, uav, range, IntendedViews(texture, mip, ranged, uav, range));
    }
  }

  /**
   As intended too, only the first slot is compared: when it already holds
   the first view, a later slot holding something else keeps it.
   */
  lemma IntendedDirtyCheckIsFirstSlotOnly(d: Device, prof: Counters, compute: bool, slot: nat, texture: Option<Texture>,
                                         mip: int, ranged: bool, uav: bool, i: nat)
    requires ranged ==> texture.Some? && TextureRange(texture, mip, ranged) <= RANGE_MAX
    requires var range := TextureRange(texture, mip, ranged);
      var st := if uav then Compute else ShaderStage(compute);
      var views := IntendedViews(texture, mip, ranged, uav, range);
      && 0 < i < range
      && Lookup(ViewTable(d, uav), (st, slot)) == views[0]
      && Lookup(ViewTable(d, uav), (st, slot + i)) != views[i]
    ensures var r := SetTextureIntended(d, prof, compute, slot, texture, mip, ranged, uav);
      var st := if uav then Compute else ShaderStage(compute);
      && r.calls == []
      && Lookup(ViewTable(Run(d, r.calls), uav), (st, slot + i)) != IntendedViews(texture, mip, ranged, uav, TextureRange(texture, mip, ranged))[i]
  {
  }

  /**
   As intended, a ranged bind covers mips first .. first + range - 1 in order,
   where first is the requested mip or 0; once issued, slot + i holds mip
   first + i.
   */
  lemma IntendedRangedTextureBindsMips(d: Device, prof: Counters, compute: bool, slot: nat, tex: Texture,
                               mip: int, uav: bool)
    requires TextureRange(Some(tex), mip, true) <= RANGE_MAX
    requires MipRequested(mip) ==> 0 <= mip
    ensures var range := TextureRange(Some(tex), mip, true);
      var first := if MipRequested(mip) then mip else 0;
      var views := IntendedViews(Some(tex), mip, true, uav, range);
      var r := SetTextureIntended(d, prof, compute, slot, Some(tex), mip, true, uav);
      var st := if uav then Compute else ShaderStage(compute);
      && (forall i :: 0 <= i < range && first + i < UINT32 ==> views[i] == At(MipViews(tex, uav), first + i))
      && (r.calls != [] ==> forall i :: 0 <= i < range ==> Lookup(ViewTable(Run(d, r.calls), uav), (st, slot + i)) == views[i])
  {
    var range := TextureRange(Some(tex), mip, true);
    var first := if MipRequested(mip) then mip else 0;
    var views := IntendedViews(Some(tex), mip, true, uav, range);
    forall i | 0 <= i < range && first + i < UINT32 ensures views[i] == At(MipViews(tex, uav), first + i) {
      assert views[i] == At(MipViews(tex, uav), Unsigned(first + i));
    }
    if range > 0 {
      BindViewsResult(d, prof, compute, slot, uav, range, views);
    }
  }

  /**
   As written, a ranged bind with no mip requested starts at mip 2^32 - 1,
   which no texture has: the first view is null and view i is mip i - 1, so
   the last mip is never bound.
   */
  lemma WrittenRangedViewsAreShifted(tex: Texture, uav: bool)
    requires 1 <= tex.mipCount <= RANGE_MAX && |MipViews(tex, uav)| < UINT32 - 1
    ensures var range := TextureRange(Some(tex), -1, true);
      var written := WrittenViews(Some(tex), -1, true, uav, range);
      && range == tex.mipCount
      && written[0] == Null
      && (forall i :: 1 <= i < range ==> written[i] == At(MipViews(tex, uav), i - 1))
  {
  }

  /**
   The same bind as intended: view i is mip i, for every mip of the texture.
   */
  lemma IntendedRangedViewsStartAtMipZero(tex: Texture, uav: bool)
    requires 1 <= tex.mipCount <= RANGE_MAX
    ensures var range := TextureRange(Some(tex), -1, true);
      var views := IntendedViews(Some(tex), -1, true, uav, range);
      && range == tex.mipCount
      && forall i :: 0 <= i < range ==> views[i] == At(MipViews(tex, uav), i)
  {
    var range := TextureRange(Some(tex), -1, true);
    var views := IntendedViews(Some(tex), -1, true, uav, range);
    forall i | 0 <= i < range ensures views[i] == At(MipViews(tex, uav), i) {
      assert views[i] == At(MipViews(tex, uav), Unsigned(i));
    }
  }

  /**
   Consequence as written: when the first slot holds null, a ranged bind with
   no mip requested issues nothing at all, whereas the intended bind issues
   its call whenever mip 0 has a view.
   */
  lemma WrittenRangedBindIsDropped(d: Device, prof: Counters, compute: bool, slot: nat, tex: Texture, uav: bool)
    requires 1 <= tex.mipCount <= RANGE_MAX && |MipViews(tex, uav)| < UINT32 - 1
    requires Lookup(ViewTable(d, uav), (if uav then Compute else ShaderStage(compute), slot)) == Null
    requires At(MipViews(tex, uav), 0) != Null
    ensures SetTextureAsWritten(d, prof, compute, slot, Some(tex), -1, true, uav).calls == []
    ensures SetTextureIntended(d, prof, compute, slot, Some(tex), -1, true, uav).calls != []
  {
    WrittenRangedViewsAreShifted(tex, uav);
    IntendedRangedViewsStartAtMipZero(tex, uav);
  }

  /** Binding the same sampler again issues nothing. */
  lemma SamplerRebindIsQuiet(d: Device, prof: Counters, compute: bool, slot: nat, sampler: Option<Ref>)
    ensures var first := SetSampler(d, prof, compute, slot, sampler);
      SetSampler(Run(d, first.calls), first.prof, compute, slot, sampler).calls == []
  {
  }

  /** Binding the same structured buffer again issues nothing. */
  lemma StructuredBufferRebindIsQuiet(d: Device, prof: Counters, slot: nat, structuredBuffer: Option<Ref>)
    ensures var first := SetStructuredBuffer(d, prof, slot, structuredBuffer);
      SetStructuredBuffer(Run(d, first.calls), first.prof, slot, structuredBuffer).calls == []
  {
  }
}

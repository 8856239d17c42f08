/**
 Work submission on the D3D11 command list: draws, compute dispatches and
 whole-resource copies (Blit).
 */
module Submission {
  import opened Options
  import opened RhiDevice
  import opened RhiResources

  const INT32_MAX: int := 0x7fff_ffff
  const INT32_MIN: int := -0x8000_0000

  /** An unsigned 32-bit value cast to a signed 32-bit one: values above INT32_MAX become negative. */
  function Signed(x: nat): (r: int)
    requires x < UINT32
    ensures INT32_MIN <= r <= INT32_MAX
    ensures r % UINT32 == x
    ensures x <= INT32_MAX ==> r == x
  {
    if x <= INT32_MAX then x else x - UINT32
  }

  /** Draw: one non-indexed draw, counted as one draw call. */
  function Draw(prof: Counters, vertexCount: nat): (r: Issued)
    ensures r.calls == [Call.Draw(vertexCount)]
    ensures r.prof.Get(DrawCalls) == prof.Get(DrawCalls) + 1
    ensures forall k :: k != DrawCalls ==> r.prof.Get(k) == prof.Get(k)
    ensures Inert(r.calls)
  {
    Issued([Call.Draw(vertexCount)], Bump(prof, DrawCalls, 1))
  }

  /**
   DrawIndexed: one indexed draw, counted as one draw call. The unsigned
   vertex offset reaches the device as a signed value.
   */
  function DrawIndexed(prof: Counters, indexCount: nat, indexOffset: nat, vertexOffset: nat): (r: Issued)
    requires vertexOffset < UINT32
    ensures |r.calls| == 1 && r.calls[0].DrawIndexed?
    ensures r.calls[0].indexCount == indexCount && r.calls[0].indexOffset == indexOffset
    ensures r.calls[0].vertexOffset % UINT32 == vertexOffset
    ensures vertexOffset > INT32_MAX <==> r.calls[0].vertexOffset < 0
    ensures r.prof.Get(DrawCalls) == prof.Get(DrawCalls) + 1
    ensures forall k :: k != DrawCalls ==> r.prof.Get(k) == prof.Get(k)
    ensures Inert(r.calls)
  {
    Issued([Call.DrawIndexed(indexCount, indexOffset, Signed(vertexOffset))], Bump(prof, DrawCalls, 1))
  }

  /** One draw the renderer asks for: non-indexed, or indexed with its offsets. */
  datatype DrawJob = NonIndexed(vertexCount: nat) | Indexed(indexCount: nat, indexOffset: nat, vertexOffset: nat)

  /** The vertex offset of an indexed draw is an unsigned 32-bit value. */
  predicate ValidJobs(jobs: seq<DrawJob>) {
    forall i :: 0 <= i < |jobs| ==> jobs[i].Indexed? ==> jobs[i].vertexOffset < UINT32
  }

  /** Issues the jobs in order, each through Draw or DrawIndexed. */
  function DrawAll(prof: Counters, jobs: seq<DrawJob>): Issued
    requires ValidJobs(jobs)
    decreases |jobs|
  {
    if jobs == [] then Issued([], prof)
    else
      var first := DrawOne(prof, jobs[0]);
      var rest := DrawAll(first.prof, jobs[1..]);
      Issued(first.calls + rest.calls, rest.prof)
  }

  /** One job through Draw or DrawIndexed: one matching call, one more draw counted, nothing bound. */
  function DrawOne(prof: Counters, job: DrawJob): (r: Issued)
    requires job.Indexed? ==> job.vertexOffset < UINT32
    ensures |r.calls| == 1 && DrawMatches(job, r.calls[0]) && Inert(r.calls)
    ensures r.prof.Get(DrawCalls) == prof.Get(DrawCalls) + 1
    ensures forall k :: k != DrawCalls ==> r.prof.Get(k) == prof.Get(k)
  {
    match job
    case NonIndexed(n) => Draw(prof, n)
    case Indexed(c, o, v) => DrawIndexed(prof, c, o, v)
  }

  /**
   A series of draws issues one call per job, of the job's kind and with its
   counts, raises the draw counter by the number of jobs, leaves every other
   counter alone and binds nothing.
   */
  lemma {:induction false} DrawsCountAndBindNothing(d: Device, prof: Counters, jobs: seq<DrawJob>)
    requires ValidJobs(jobs)
    ensures var r := DrawAll(prof, jobs);
      && |r.calls| == |jobs|
      && (forall i :: 0 <= i < |jobs| ==> DrawMatches(jobs[i], r.calls[i]))
      && r.prof.Get(DrawCalls) == prof.Get(DrawCalls) + |jobs|
      && (forall k :: k != DrawCalls ==> r.prof.Get(k) == prof.Get(k))
      && Run(d, r.calls) == d
    decreases |jobs|
  {
    if jobs != [] {
      var first := DrawOne(prof, jobs[0]);
      assert ValidJobs(jobs[1..]) by {
        forall i | 0 <= i < |jobs[1..]| ensures jobs[1..][i].Indexed? ==> jobs[1..][i].vertexOffset < UINT32 {
          assert jobs[1..][i] == jobs[i + 1];
        }
      }
      DrawsCountAndBindNothing(d, first.prof, jobs[1..]);
      var rest := DrawAll(first.prof, jobs[1..]);
      var r := DrawAll(prof, jobs);
      assert r.calls == first.calls + rest.calls;
      forall i | 0 <= i < |jobs| ensures DrawMatches(jobs[i], r.calls[i]) {
        if i > 0 {
          assert r.calls[i] == rest.calls[i - 1];
          assert jobs[i] == jobs[1..][i - 1];
        }
      }
      RunAppend(d, first.calls, rest.calls);
      InertRun(d, first.calls);
    }
  }

  /** The call a job leads to: the same kind of draw, with the job's counts and its offset as the device sees it. */
  predicate DrawMatches(job: DrawJob, c: Call) {
    match job
    case NonIndexed(n) => c == Call.Draw(n)
    case Indexed(count, offset, v) =>
      c.DrawIndexed? && c.indexCount == count && c.indexOffset == offset && c.vertexOffset % UINT32 == v
  }

  /** Number of compute UAV slots a dispatch unbinds afterwards. */
  const DISPATCH_UAV_SLOTS: nat := 8

  /**
   Dispatch: one dispatch, counted, followed by unbinding compute UAV slots
   0 to 7 so their resources can be read as shader resources again.
   */
  function Dispatch(prof: Counters, x: nat, y: nat, z: nat): (r: Issued)
    ensures |r.calls| == 2 && r.calls[0] == Call.Dispatch(x, y, z)
    ensures r.prof.Get(DispatchCalls) == prof.Get(DispatchCalls) + 1
    ensures forall k :: k != DispatchCalls ==> r.prof.Get(k) == prof.Get(k)
  {
    Issued([Call.Dispatch(x, y, z), SetUnorderedAccessViews(0, seq(DISPATCH_UAV_SLOTS, _ => Null))],
           Bump(prof, DispatchCalls, 1))
  }

  /**
   After a dispatch compute UAV slots 0 to 7 hold nothing, and every other
   binding of the device is as it was.
   */
  lemma DispatchUnbindsUavs(d: Device, prof: Counters, x: nat, y: nat, z: nat)
    ensures var after := Run(d, Dispatch(prof, x, y, z).calls);
      && (forall i :: 0 <= i < DISPATCH_UAV_SLOTS ==> Lookup(after.unorderedAccess, (Compute, i)) == Null)
      && (forall k: Slot :: !(k.0 == Compute && k.1 < DISPATCH_UAV_SLOTS) ==>
            Lookup(after.unorderedAccess, k) == Lookup(d.unorderedAccess, k))
      && after == d.(unorderedAccess := after.unorderedAccess)
  {
    var calls := Dispatch(prof, x, y, z).calls;
    assert Exec(d, calls[0]) == d;
    assert calls[1..] == [calls[1]];
    assert [calls[1]][1..] == [];
    assert Run(d, [calls[1]]) == Exec(d, calls[1]);
  }

  /**
   What Blit demands of its caller: both textures present and backed by a
   resource, distinct objects, and the same format, size, array length and
   mip count.
   */
  predicate BlitAllowed(source: Option<Texture>, destination: Option<Texture>) {
    && source.Some? && destination.Some?
    && source.value.resource != Null && destination.value.resource != Null
    && source.value.objectId != destination.value.objectId
    && source.value.format == destination.value.format
    && source.value.width == destination.value.width
    && source.value.height == destination.value.height
    && source.value.arrayLength == destination.value.arrayLength
    && source.value.mipCount == destination.value.mipCount
  }

  /** Blit: copies the whole source resource over the destination's, in one call. */
  function Blit(source: Option<Texture>, destination: Option<Texture>): (r: seq<Call>)
    requires BlitAllowed(source, destination)
    ensures |r| == 1 && r[0].CopyResource?
    ensures r[0].destination == destination.value.resource && r[0].source == source.value.resource
    ensures r[0].destination != Null && r[0].source != Null
    ensures Inert(r)
  {
    [CopyResource(destination.value.resource, source.value.resource)]
  }

  /**
   The Blit conditions are symmetric in source and destination, and never
   admit a texture copied onto itself.
   */
  lemma BlitAllowedSymmetric(source: Option<Texture>, destination: Option<Texture>)
    ensures BlitAllowed(source, destination) <==> BlitAllowed(destination, source)
    ensures BlitAllowed(source, destination) ==> source != destination
  {
  }

  /** A blit binds nothing: the device's bindings are the same afterwards. */
  lemma BlitLeavesBindings(d: Device, source: Option<Texture>, destination: Option<Texture>)
    requires BlitAllowed(source, destination)
    ensures Run(d, Blit(source, destination)) == d
  {
    InertRun(d, Blit(source, destination));
  }
}

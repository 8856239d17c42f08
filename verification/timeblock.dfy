/**
 Profiler scopes and debug markers that bracket a render pass
 (Timeblock_Start / Timeblock_End of the D3D11 command list).
 */
module Timeblock {
  import opened Options
  import opened RhiDevice
  import opened RhiResources

  /**
   The global switches: the device context's profiling and marker flags, and
   whether the command list holds a profiler at all.
   */
  datatype Context = Context(profiling: bool, markers: bool, hasProfiler: bool)

  predicate Profiles(ctx: Context, ps: PipelineState) {
    ctx.profiling && ps.profile && ctx.hasProfiler
  }

  predicate Marks(ctx: Context, ps: PipelineState) {
    ctx.markers && ps.mark
  }

  /** The four kinds of bracketing call. */
  datatype Bracket = BlockOpen | BlockClose | EventOpen | EventClose

  predicate IsBracket(c: Call, b: Bracket) {
    match b
    case BlockOpen => c.TimeBlockStart?
    case BlockClose => c.TimeBlockEnd?
    case EventOpen => c.BeginEvent?
    case EventClose => c.EndEvent?
  }

  /** Number of calls of a trace that are brackets of kind p. */
  function CountIf(calls: seq<Call>, p: Bracket): nat
    decreases |calls|
  {
    if calls == [] then 0 else (if IsBracket(calls[0], p) then 1 else 0) + CountIf(calls[1..], p)
  }

  lemma {:induction false} CountIfAppend(a: seq<Call>, b: seq<Call>, p: Bracket)
    ensures CountIf(a + b, p) == CountIf(a, p) + CountIf(b, p)
    decreases |a|
  {
    if a == [] {
      assert a + b == b;
    } else {
      assert (a + b)[1..] == a[1..] + b;
      CountIfAppend(a[1..], b, p);
    }
  }

  /** Profiler scope and annotation calls. */
  predicate Marker(c: Call) {
    c.TimeBlockStart? || c.TimeBlockEnd? || c.BeginEvent? || c.EndEvent?
  }

  /** A trace without markers has no brackets of any kind. */
  lemma {:induction false} CountIfNoMarkers(calls: seq<Call>, p: Bracket)
    requires forall c :: c in calls ==> !Marker(c)
    ensures CountIf(calls, p) == 0
    decreases |calls|
  {
    if calls != [] {
      assert calls[0] in calls;
      assert forall c :: c in calls[1..] ==> c in calls;
      CountIfNoMarkers(calls[1..], p);
    }
  }

  /** Appending calls without markers changes no bracket count. */
  lemma CountIfQuietTail(a: seq<Call>, b: seq<Call>, p: Bracket)
    requires forall c :: c in b ==> !Marker(c)
    ensures CountIf(a + b, p) == CountIf(a, p)
  {
    CountIfAppend(a, b, p);
    CountIfNoMarkers(b, p);
  }

  function Opens(calls: seq<Call>): nat { CountIf(calls, BlockOpen) }
  function Closes(calls: seq<Call>): nat { CountIf(calls, BlockClose) }
  function EventBegins(calls: seq<Call>): nat { CountIf(calls, EventOpen) }
  function EventEnds(calls: seq<Call>): nat { CountIf(calls, EventClose) }

  /**
   Opens a CPU then a GPU time block when profiling is allowed, then a named
   annotation when marking is allowed; a missing pipeline state or pass name
   suppresses both.
   */
  function Start(ctx: Context, ps: Option<PipelineState>): (r: seq<Call>)
    ensures ps.None? || ps.value.passName.None? ==> r == []
    ensures ps.Some? && ps.value.passName.Some? ==>
      var name := ps.value.passName.value;
      && (Profiles(ctx, ps.value) <==> TimeBlockStart(name, Cpu) in r)
      && (Profiles(ctx, ps.value) <==> TimeBlockStart(name, Gpu) in r)
      && (Marks(ctx, ps.value) <==> BeginEvent(name) in r)
      && (Profiles(ctx, ps.value) ==> r[0] == TimeBlockStart(name, Cpu) && r[1] == TimeBlockStart(name, Gpu))
    ensures Inert(r)
  {
    if ps.None? || ps.value.passName.None? then []
    else
      var name := ps.value.passName.value;
      (if Profiles(ctx, ps.value) then [TimeBlockStart(name, Cpu), TimeBlockStart(name, Gpu)] else [])
      + (if Marks(ctx, ps.value) then [BeginEvent(name)] else [])
  }

  /**
   Closes the annotation, then the two time blocks. Only a missing pipeline
   state suppresses this: the pass name is not checked.
   */
  function End(ctx: Context, ps: Option<PipelineState>): (r: seq<Call>)
    ensures ps.None? ==> r == []
    ensures ps.Some? ==>
      && (Marks(ctx, ps.value) <==> EndEvent in r)
      && (Profiles(ctx, ps.value) <==> TimeBlockEnd in r)
      && (Marks(ctx, ps.value) ==> r[0] == EndEvent)
    ensures Inert(r)
  {
    if ps.None? then []
    else
      (if Marks(ctx, ps.value) then [EndEvent] else [])
      + (if Profiles(ctx, ps.value) then [TimeBlockEnd, TimeBlockEnd] else [])
  }

  /** For a named pass every scope Start opens is closed by End, exactly once. */
  lemma NamedPassBalanced(ctx: Context, ps: PipelineState)
    requires ps.passName.Some?
    ensures Opens(Start(ctx, Some(ps))) == Closes(End(ctx, Some(ps)))
    ensures EventBegins(Start(ctx, Some(ps))) == EventEnds(End(ctx, Some(ps)))
  {
    var name := ps.passName.value;
    var p1 := if Profiles(ctx, ps) then [TimeBlockStart(name, Cpu), TimeBlockStart(name, Gpu)] else [];
    var m1 := if Marks(ctx, ps) then [BeginEvent(name)] else [];
    var m2 := if Marks(ctx, ps) then [EndEvent] else [];
    var p2 := if Profiles(ctx, ps) then [TimeBlockEnd, TimeBlockEnd] else [];
    CountIfAppend(p1, m1, BlockOpen);
    CountIfAppend(p1, m1, EventOpen);
    CountIfAppend(m2, p2, BlockClose);
    CountIfAppend(m2, p2, EventClose);
  }

  /**
   Because End does not check the pass name, an unnamed pass with profiling
   allowed closes two time blocks that Start never opened.
   */
  lemma UnnamedPassClosesUnopenedBlocks(ctx: Context, ps: PipelineState)
    requires ps.passName.None? && Profiles(ctx, ps)
    ensures Opens(Start(ctx, Some(ps))) == 0
    ensures Closes(End(ctx, Some(ps))) == 2
  {
    var m2 := if Marks(ctx, ps) then [EndEvent] else [];
    CountIfAppend(m2, [TimeBlockEnd, TimeBlockEnd], BlockClose);
  }
}

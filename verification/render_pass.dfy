/**
 BeginRenderPass and EndRenderPass of the D3D11 command list. A valid pass
 opens its profiler scope, runs the binding steps in source order, clears its
 targets and counts one pipeline binding; an invalid one does nothing at all.
 */
module RenderPass {
  import opened Options
  import opened RhiDevice
  import opened RhiResources
  import opened RenderSteps
  import Clears
  import Timeblock

  /** The binding steps of a pass, in the order the command list performs them. */
  const PASS_STEPS: seq<Step> := [
    Fixed(InputLayoutSlot), Fixed(VertexShaderSlot), Fixed(PixelShaderSlot), Fixed(ComputeShaderSlot),
    Blend, Fixed(DepthStencilSlot), Fixed(RasterizerSlot), PrimitiveTopology, RenderTargets, ViewportStep]

  /** Whether the pass began, the command list's current pipeline state, the calls issued and the counters. */
  datatype PassResult = PassResult(ok: bool, current: Option<PipelineState>, calls: seq<Call>, prof: Counters)

  function BeginRenderPass(ctx: Timeblock.Context, d: Device, prof: Counters, current: Option<PipelineState>,
                           ps: PipelineState): (r: PassResult)
    requires Shaped(ps)
    ensures !ps.valid ==> r == PassResult(false, current, [], prof)
    ensures ps.valid ==> r.ok && r.current == Some(ps)
  {
    if !ps.valid then PassResult(false, current, [], prof)
    else
      var markers := Timeblock.Start(ctx, Some(ps));
      var body := PassBody(Run(d, markers), prof, ps);
      PassResult(true, Some(ps), markers + body.calls, body.prof)
  }

  /**
   What a valid pass does after opening its markers: the binding steps
   against the device d, the clears, and one more pipeline binding.
   */
  function PassBody(d: Device, prof: Counters, ps: PipelineState): (r: Issued)
    requires Shaped(ps)
  {
    var steps := RunSteps(d, prof, ps, PASS_STEPS);
    Issued(steps.calls + Clears.ClearPipelineStateRenderTargets(ps), Bump(steps.prof, PipelineBindings, 1))
  }

  /** Closes the markers and profiler scope of the current pipeline state. */
  function EndRenderPass(ctx: Timeblock.Context, current: Option<PipelineState>): (r: seq<Call>)
    ensures Inert(r)
    ensures current.None? ==> r == []
  {
    Timeblock.End(ctx, current)
  }

  /** Every step of a pass owns its field. */
  lemma PassStepsOwn()
    ensures forall i :: 0 <= i < |PASS_STEPS| ==> Owns(PASS_STEPS, i)
  {
  }

  /** The later steps of a pass, by position. */
  lemma PassStepsAt()
    ensures PASS_STEPS[1] == Fixed(VertexShaderSlot) && PASS_STEPS[2] == Fixed(PixelShaderSlot)
    ensures PASS_STEPS[3] == Fixed(ComputeShaderSlot)
    ensures PASS_STEPS[4] == Blend && PASS_STEPS[7] == PrimitiveTopology
    ensures PASS_STEPS[8] == RenderTargets && PASS_STEPS[9] == ViewportStep
  {
  }

  /** A call that writes a field binds something. */
  lemma WritesBinds(c: Call, f: Field)
    requires Writes(c, f)
    ensures Binds(c)
  {
  }

  lemma StepsQuiet(d: Device, prof: Counters, ps: PipelineState)
    requires Shaped(ps)
    ensures forall c :: c in RunSteps(d, prof, ps, PASS_STEPS).calls ==> !Timeblock.Marker(c)
  {
  }

  lemma ClearsQuiet(ps: PipelineState)
    requires Shaped(ps)
    ensures forall c :: c in Clears.ClearPipelineStateRenderTargets(ps) ==> !Timeblock.Marker(c)
  {
  }

  /** The body of a pass holds no markers. */
  lemma BodyQuiet(d: Device, prof: Counters, ps: PipelineState)
    requires Shaped(ps)
    ensures forall c :: c in PassBody(d, prof, ps).calls ==> !Timeblock.Marker(c)
  {
    StepsQuiet(d, prof, ps);
    ClearsQuiet(ps);
  }

  /** A valid pass's counters are the binding steps' counters plus one pipeline binding. */
  lemma PassProf(ctx: Timeblock.Context, d: Device, prof: Counters, current: Option<PipelineState>, ps: PipelineState)
    requires Shaped(ps) && ps.valid
    ensures BeginRenderPass(ctx, d, prof, current, ps).prof == Bump(RunSteps(d, prof, ps, PASS_STEPS).prof, PipelineBindings, 1)
  {
    InertRun(d, Timeblock.Start(ctx, Some(ps)));
  }

  /**
   A valid pass acts on the device exactly as its binding steps do: the
   markers before them and the clears after them bind nothing.
   */
  lemma PassIsSteps(ctx: Timeblock.Context, d: Device, prof: Counters, current: Option<PipelineState>, ps: PipelineState)
    requires Shaped(ps) && ps.valid
    ensures var r := BeginRenderPass(ctx, d, prof, current, ps);
      var steps := RunSteps(d, prof, ps, PASS_STEPS);
      && Run(d, r.calls) == Run(d, steps.calls)
      && (forall c :: c in steps.calls ==> c in r.calls)
      && (forall c :: c in r.calls && Binds(c) ==> c in steps.calls)
  {
    PassCalls(ctx, d, prof, current, ps);
    InertAround(d, Timeblock.Start(ctx, Some(ps)), RunSteps(d, prof, ps, PASS_STEPS).calls,
                Clears.ClearPipelineStateRenderTargets(ps));
  }

  /** The calls of a valid pass: its markers, then its binding steps, then its clears. */
  lemma PassCalls(ctx: Timeblock.Context, d: Device, prof: Counters, current: Option<PipelineState>, ps: PipelineState)
    requires Shaped(ps) && ps.valid
    ensures BeginRenderPass(ctx, d, prof, current, ps).calls
         == Timeblock.Start(ctx, Some(ps)) + (RunSteps(d, prof, ps, PASS_STEPS).calls + Clears.ClearPipelineStateRenderTargets(ps))
  {
    var markers := Timeblock.Start(ctx, Some(ps));
    InertRun(d, markers);
    var d1 := Run(d, markers);
    assert d1 == d;
    var body := PassBody(d1, prof, ps);
    assert body == PassBody(d, prof, ps);
    assert BeginRenderPass(ctx, d, prof, current, ps).calls == markers + body.calls;
    var steps := RunSteps(d, prof, ps, PASS_STEPS).calls;
    var clears := Clears.ClearPipelineStateRenderTargets(ps);
    assert body.calls == steps + clears;
  }

  /**
   Step i of a valid pass governs its field: the calls the step issues against
   the starting device all appear, they are the only calls writing the field,
   and the field ends as they alone would leave it.
   */
  lemma PassStep(ctx: Timeblock.Context, d: Device, prof: Counters, current: Option<PipelineState>, ps: PipelineState, i: nat)
    requires Shaped(ps) && ps.valid && i < |PASS_STEPS|
    ensures Governs(d, BeginRenderPass(ctx, d, prof, current, ps).calls, StepCalls(d, ps, PASS_STEPS[i]), StepField(PASS_STEPS[i]))
  {
    PassIsSteps(ctx, d, prof, current, ps);
    PassStepsOwn();
    RunStepsOwner(d, prof, ps, PASS_STEPS, i);
    forall c, f: Field | Writes(c, f) ensures Binds(c) {
      WritesBinds(c, f);
    }
  }

  /** Where a fixed slot's step sits in the pass. */
  function SlotStep(s: FixedSlot): (i: nat)
    ensures i < |PASS_STEPS| && PASS_STEPS[i] == Fixed(s)
  {
    match s
    case InputLayoutSlot => 0
    case VertexShaderSlot => 1
    case PixelShaderSlot => 2
    case ComputeShaderSlot => 3
    case DepthStencilSlot => 5
    case RasterizerSlot => 6
  }


  /** The step of fixed slot s governs the slot within a valid pass. */
  lemma PassGovernsSlot(ctx: Timeblock.Context, d: Device, prof: Counters, current: Option<PipelineState>,
                        ps: PipelineState, s: FixedSlot)
    requires Shaped(ps) && ps.valid
    ensures Governs(d, BeginRenderPass(ctx, d, prof, current, ps).calls,
                    SetIfDifferent(d, s, Requested(ps, s)), SlotField(s))
  {
    PassStep(ctx, d, prof, current, ps, SlotStep(s));
  }

  lemma PassGovernsBlend(ctx: Timeblock.Context, d: Device, prof: Counters, current: Option<PipelineState>, ps: PipelineState)
    requires Shaped(ps) && ps.valid
    ensures Governs(d, BeginRenderPass(ctx, d, prof, current, ps).calls, BlendCalls(d, ps), BlendField)
  {
    PassStepsAt();
    PassStep(ctx, d, prof, current, ps, 4);
  }

  lemma PassGovernsTopology(ctx: Timeblock.Context, d: Device, prof: Counters, current: Option<PipelineState>, ps: PipelineState)
    requires Shaped(ps) && ps.valid
    ensures Governs(d, BeginRenderPass(ctx, d, prof, current, ps).calls, TopologyCalls(d, ps), TopologyField)
  {
    PassStepsAt();
    PassStep(ctx, d, prof, current, ps, 7);
  }

  lemma PassGovernsTargets(ctx: Timeblock.Context, d: Device, prof: Counters, current: Option<PipelineState>, ps: PipelineState)
    requires Shaped(ps) && ps.valid
    ensures Governs(d, BeginRenderPass(ctx, d, prof, current, ps).calls, RenderTargetCalls(d, ps), RenderTargetField)
  {
    PassStepsAt();
    PassStep(ctx, d, prof, current, ps, 8);
  }

  lemma PassGovernsViewport(ctx: Timeblock.Context, d: Device, prof: Counters, current: Option<PipelineState>, ps: PipelineState)
    requires Shaped(ps) && ps.valid
    ensures Governs(d, BeginRenderPass(ctx, d, prof, current, ps).calls, ViewportCalls(ps), ViewportField)
  {
    PassStepsAt();
    PassStep(ctx, d, prof, current, ps, 9);
  }

  /**
   Input layout, shaders, depth-stencil and rasterizer state: the set call is
   issued iff the device holds something else, it is the only call writing
   the slot, and afterwards the device holds what the pass asked for.
   */
  lemma PassSetsIfDifferent(ctx: Timeblock.Context, d: Device, prof: Counters, current: Option<PipelineState>,
                            ps: PipelineState, s: FixedSlot)
    requires Shaped(ps) && ps.valid
    ensures var r := BeginRenderPass(ctx, d, prof, current, ps);
      var want := Requested(ps, s);
      && (SetCall(s, want) in r.calls <==> Held(d, s) != want)
      && (forall c :: c in r.calls && Writes(c, SlotField(s)) ==> c == SetCall(s, want))
      && Held(Run(d, r.calls), s) == want
  {
    PassGovernsSlot(ctx, d, prof, current, ps, s);
    GovernedSlot(d, BeginRenderPass(ctx, d, prof, current, ps).calls, s, Requested(ps, s));
  }

  /**
   The blend step: a set (always with the all-ones mask) is issued iff the
   held state, factor or mask differs from the request with mask 0; the
   device ends with the requested state and factor.
   */
  lemma PassBlend(ctx: Timeblock.Context, d: Device, prof: Counters, current: Option<PipelineState>, ps: PipelineState)
    requires Shaped(ps) && ps.valid
    ensures var r := BeginRenderPass(ctx, d, prof, current, ps);
      var (state, factor) := BlendRequest(ps);
      var blendSet := SetBlendState(state, factor, BLEND_MASK_ALL);
      var after := Run(d, r.calls);
      && (blendSet in r.calls <==> d.blendState != state || d.blendFactor != factor || d.blendMask != 0)
      && (forall c :: c in r.calls && Writes(c, BlendField) ==> c == blendSet)
      && after.blendState == state && after.blendFactor == factor
      && after.blendMask == (if blendSet in r.calls then BLEND_MASK_ALL else d.blendMask)
  {
    PassGovernsBlend(ctx, d, prof, current, ps);
    GovernedBlend(d, BeginRenderPass(ctx, d, prof, current, ps).calls, ps);
  }

  /** The topology step: a known topology is set iff the device holds another one, and is held afterwards. */
  lemma PassTopology(ctx: Timeblock.Context, d: Device, prof: Counters, current: Option<PipelineState>, ps: PipelineState)
    requires Shaped(ps) && ps.valid
    ensures var r := BeginRenderPass(ctx, d, prof, current, ps);
      && (ps.topology.TopologyUnknown? ==>
            (forall c :: c in r.calls ==> !Writes(c, TopologyField)) && Run(d, r.calls).topology == d.topology)
      && (ps.topology.TopologyMode? ==>
            && (SetPrimitiveTopology(ps.topology.code) in r.calls <==> d.topology != ps.topology.code)
            && (forall c :: c in r.calls && Writes(c, TopologyField) ==> c == SetPrimitiveTopology(ps.topology.code))
            && Run(d, r.calls).topology == ps.topology.code)
  {
    PassGovernsTopology(ctx, d, prof, current, ps);
    GovernedTopology(d, BeginRenderPass(ctx, d, prof, current, ps).calls, ps);
  }

  lemma {:induction false} NonNullCountAppend(a: seq<Ref>, b: seq<Ref>)
    ensures NonNullCount(a + b) == NonNullCount(a) + NonNullCount(b)
    decreases |a|
  {
    if a == [] {
      assert a + b == b;
    } else {
      assert (a + b)[1..] == a[1..] + b;
      NonNullCountAppend(a[1..], b);
    }
  }

  /** The count is the length exactly when no view is null. */
  lemma {:induction false} NonNullCountFull(views: seq<Ref>)
    ensures NonNullCount(views) == |views| <==> forall i :: 0 <= i < |views| ==> views[i] != Null
    decreases |views|
  {
    if views != [] {
      NonNullCountFull(views[1..]);
      if forall i :: 0 <= i < |views| ==> views[i] != Null {
        forall i | 0 <= i < |views[1..]| ensures views[1..][i] != Null {
          assert views[1..][i] == views[i + 1];
        }
      } else if views[0] != Null {
        var k :| 0 <= k < |views| && views[k] == Null;
        assert views[1..][k - 1] == Null;
      }
    }
  }

  /** The count is zero exactly when every view is null. */
  lemma {:induction false} NonNullCountZero(views: seq<Ref>)
    ensures NonNullCount(views) == 0 <==> forall i :: 0 <= i < |views| ==> views[i] == Null
    decreases |views|
  {
    if views != [] {
      NonNullCountZero(views[1..]);
      if forall i :: 0 <= i < |views| ==> views[i] == Null {
        forall i | 0 <= i < |views[1..]| ensures views[1..][i] == Null {
          assert views[1..][i] == views[i + 1];
        }
      } else if views[0] == Null {
        var k :| 0 <= k < |views| && views[k] != Null;
        assert views[1..][k - 1] != Null;
      }
    }
  }

  /** In packed views the non-null ones are exactly the first NonNullCount. */
  lemma {:induction false} PackedPrefix(views: seq<Ref>)
    requires Packed(views)
    ensures forall i :: 0 <= i < |views| ==> (views[i] != Null <==> i < NonNullCount(views))
    decreases |views|
  {
    if views != [] {
      if views[0] == Null {
        NonNullCountZero(views);
      } else {
        var tail := views[1..];
        assert Packed(tail) by {
          forall i, j | 0 <= i < j < |tail| && tail[i] == Null ensures tail[j] == Null {
            assert tail[i] == views[i + 1] && tail[j] == views[j + 1];
          }
        }
        PackedPrefix(tail);
        forall i | 1 <= i < |views| ensures views[i] != Null <==> i < NonNullCount(views) {
          assert views[i] == tail[i - 1];
        }
      }
    }
  }

  /**
   Setting the views with a count equal to the number of non-null views binds
   slot i to view i below that count and unbinds every slot from the count on.
   */
  lemma SetTargetsSlots(d: Device, views: seq<Ref>, ds: Ref)
    requires |views| == MAX_RENDER_TARGETS
    ensures var bound := BoundRenderTargets(Exec(d, SetRenderTargets(NonNullCount(views), views, ds)));
      forall i :: 0 <= i < MAX_RENDER_TARGETS ==> bound[i] == (if i < NonNullCount(views) then views[i] else Null)
  {
  }

  /**
   Views that are not packed have a non-null view at or beyond their
   non-null count: a null view before a non-null one pushes one past it.
   */
  lemma {:induction false} UnpackedDropsView(views: seq<Ref>)
    requires !Packed(views)
    ensures exists i :: NonNullCount(views) <= i < |views| && views[i] != Null
  {
    var n := NonNullCount(views);
    var i, j :| 0 <= i < j < |views| && views[i] == Null && views[j] != Null;
    if j < n {
      var front, back := views[..n], views[n..];
      assert front + back == views;
      NonNullCountAppend(front, back);
      assert front[i] == Null;
      NonNullCountFull(front);
      NonNullCountZero(back);
      var k :| 0 <= k < |back| && back[k] != Null;
      assert views[n + k] == back[k];
    }
  }

  /**
   Setting the views with a count equal to the number of non-null views
   leaves the device holding exactly those views iff they are packed: a null
   view before a non-null one unbinds the last non-null one.
   */
  lemma TargetsAfterSet(d: Device, views: seq<Ref>, ds: Ref)
    requires |views| == MAX_RENDER_TARGETS
    ensures BoundRenderTargets(Exec(d, SetRenderTargets(NonNullCount(views), views, ds))) == views <==> Packed(views)
  {
    var n := NonNullCount(views);
    var bound := BoundRenderTargets(Exec(d, SetRenderTargets(n, views, ds)));
    SetTargetsSlots(d, views, ds);
    if Packed(views) {
      PackedPrefix(views);
    }
    if bound == views {
      NonNullCountAppend(views[..n], views[n..]);
      assert views[..n] + views[n..] == views;
      assert forall i :: 0 <= i < |views[n..]| ==> views[n..][i] == Null by {
        forall i | 0 <= i < |views[n..]| ensures views[n..][i] == Null {
          assert views[n..][i] == views[n + i] == bound[n + i];
        }
      }
      NonNullCountZero(views[n..]);
      NonNullCountFull(views[..n]);
      forall i | 0 <= i < n ensures views[i] != Null {
        assert views[..n][i] == views[i];
      }
    }
  }

  /**
   Governed render targets: one set of all eight views and the depth view iff
   either differs from what the device holds, with a count equal to the number
   of non-null views. Afterwards the device holds the depth view, and holds the
   colour views iff they are packed or were already held.
   */
  lemma GovernedTargets(d: Device, calls: seq<Call>, ps: PipelineState)
    requires Shaped(ps) && Governs(d, calls, RenderTargetCalls(d, ps), RenderTargetField)
    ensures var views := ColorTargets(ps);
      var ds := DepthStencilTarget(ps);
      var targetSet := SetRenderTargets(NonNullCount(views), views, ds);
      var after := Run(d, calls);
      && (targetSet in calls <==> BoundRenderTargets(d) != views || d.depthStencilView != ds)
      && (forall c :: c in calls && Writes(c, RenderTargetField) ==> c == targetSet)
      && after.depthStencilView == ds
      && (BoundRenderTargets(after) == views <==> Packed(views) || targetSet !in calls)
      && (targetSet in calls ==> forall i :: 0 <= i < MAX_RENDER_TARGETS ==>
            BoundRenderTargets(after)[i] == (if i < NonNullCount(views) then views[i] else Null))
  {
    var views := ColorTargets(ps);
    var ds := DepthStencilTarget(ps);
    var targetSet := SetRenderTargets(NonNullCount(views), views, ds);
    var own := RenderTargetCalls(d, ps);
    if targetSet in calls {
      assert Writes(targetSet, RenderTargetField);
      assert own == [targetSet];
      assert Run(d, own) == Exec(d, targetSet);
      TargetsAfterSet(d, views, ds);
      SetTargetsSlots(d, views, ds);
    }
  }

  /** The render-target step of a valid pass behaves as GovernedTargets states. */
  lemma PassRenderTargets(ctx: Timeblock.Context, d: Device, prof: Counters, current: Option<PipelineState>, ps: PipelineState)
    requires Shaped(ps) && ps.valid
    ensures var r := BeginRenderPass(ctx, d, prof, current, ps);
      var views := ColorTargets(ps);
      var ds := DepthStencilTarget(ps);
      var targetSet := SetRenderTargets(NonNullCount(views), views, ds);
      var after := Run(d, r.calls);
      && (targetSet in r.calls <==> BoundRenderTargets(d) != views || d.depthStencilView != ds)
      && (forall c :: c in r.calls && Writes(c, RenderTargetField) ==> c == targetSet)
      && after.depthStencilView == ds
      && (BoundRenderTargets(after) == views <==> Packed(views) || targetSet !in r.calls)
      && (targetSet in r.calls ==> forall i :: 0 <= i < MAX_RENDER_TARGETS ==>
            BoundRenderTargets(after)[i] == (if i < NonNullCount(views) then views[i] else Null))
  {
    PassGovernsTargets(ctx, d, prof, current, ps);
    GovernedTargets(d, BeginRenderPass(ctx, d, prof, current, ps).calls, ps);
  }

  /** Views from a swapchain are packed: slot 0 is its view and every other slot is null. */
  lemma SwapchainTargets(ps: PipelineState)
    requires Shaped(ps) && ps.swapchain.Some?
    ensures ColorTargets(ps)[0] == ps.swapchain.value.renderTargetView
    ensures forall i :: 1 <= i < MAX_RENDER_TARGETS ==> ColorTargets(ps)[i] == Null
    ensures Packed(ColorTargets(ps))
  {
  }

  /** Without a swapchain, slot i of the requested views is texture i's view. */
  lemma TextureTargets(ps: PipelineState)
    requires Shaped(ps) && ps.swapchain.None?
    ensures forall i :: 0 <= i < MAX_RENDER_TARGETS ==> ColorTargets(ps)[i] == TextureTarget(ps, i)
  {
  }

  /**
   A pass with a swapchain leaves the swapchain's view in slot 0 and nothing
   in the other slots, whatever colour textures it also names.
   */
  lemma PassSwapchainFillsSlotZero(ctx: Timeblock.Context, d: Device, prof: Counters, current: Option<PipelineState>,
                                   ps: PipelineState)
    requires Shaped(ps) && ps.valid && ps.swapchain.Some?
    ensures var after := BoundRenderTargets(Run(d, BeginRenderPass(ctx, d, prof, current, ps).calls));
      && after[0] == ps.swapchain.value.renderTargetView
      && forall i :: 1 <= i < MAX_RENDER_TARGETS ==> after[i] == Null
  {
    SwapchainTargets(ps);
    PassRenderTargets(ctx, d, prof, current, ps);
  }

  /** Without a swapchain, a pass with packed texture views leaves slot i holding texture i's view. */
  lemma PassTexturesFillSlots(ctx: Timeblock.Context, d: Device, prof: Counters, current: Option<PipelineState>,
                              ps: PipelineState)
    requires Shaped(ps) && ps.valid && ps.swapchain.None? && Packed(ColorTargets(ps))
    ensures var after := BoundRenderTargets(Run(d, BeginRenderPass(ctx, d, prof, current, ps).calls));
      forall i :: 0 <= i < MAX_RENDER_TARGETS ==> after[i] == TextureTarget(ps, i)
  {
    PassRenderTargets(ctx, d, prof, current, ps);
  }

  /**
   A pass whose colour views differ from those bound sets them with their
   non-null count: slot i holds view i below the count and nothing from it on.
   */
  lemma PassTargetSlots(ctx: Timeblock.Context, d: Device, prof: Counters, current: Option<PipelineState>,
                        ps: PipelineState)
    requires Shaped(ps) && ps.valid
    requires BoundRenderTargets(d) != ColorTargets(ps)
    ensures var views := ColorTargets(ps);
      var after := BoundRenderTargets(Run(d, BeginRenderPass(ctx, d, prof, current, ps).calls));
      forall i :: 0 <= i < MAX_RENDER_TARGETS ==> after[i] == (if i < NonNullCount(views) then views[i] else Null)
  {
    PassRenderTargets(ctx, d, prof, current, ps);
  }

  /**
   Views with a gap at slot 1 between non-null slots 0 and 2, set with their
   non-null count: slot 0 keeps its view, slot 1 and every slot from the count
   on are unbound, and some non-null view lies at or beyond the count.
   */
  lemma GapSlots(views: seq<Ref>, after: seq<Ref>)
    requires |views| == |after| == MAX_RENDER_TARGETS
    requires views[0] != Null && views[1] == Null && views[2] != Null
    requires forall i :: 0 <= i < MAX_RENDER_TARGETS ==> after[i] == (if i < NonNullCount(views) then views[i] else Null)
    ensures var n := NonNullCount(views);
      && after != views
      && after[0] == views[0]
      && after[1] == Null
      && (forall i :: n <= i < MAX_RENDER_TARGETS ==> after[i] == Null)
      && (exists i :: n <= i < MAX_RENDER_TARGETS && views[i] != Null)
  {
    assert !Packed(views);
    UnpackedDropsView(views);
    var k :| NonNullCount(views) <= k < MAX_RENDER_TARGETS && views[k] != Null;
    assert after[k] != views[k];
    if NonNullCount(views) == 0 {
      NonNullCountZero(views);
    }
  }

  /** GapSlots with nothing beyond slot 2: only slot 0 stays bound. */
  lemma GapSlotTwo(views: seq<Ref>, after: seq<Ref>)
    requires |views| == |after| == MAX_RENDER_TARGETS
    requires views[0] != Null && views[1] == Null && views[2] != Null
    requires forall i :: 3 <= i < MAX_RENDER_TARGETS ==> views[i] == Null
    requires forall i :: 0 <= i < MAX_RENDER_TARGETS ==> after[i] == (if i < NonNullCount(views) then views[i] else Null)
    ensures after[0] == views[0]
    ensures forall i :: 1 <= i < MAX_RENDER_TARGETS ==> after[i] == Null
  {
    GapSlots(views, after);
    var k :| NonNullCount(views) <= k < MAX_RENDER_TARGETS && views[k] != Null;
    assert k <= 2;
  }

  /**
   A gap in the colour textures drops a view: with textures in slots 0 and 2
   and none in slot 1, a pass that sets its targets passes the number of
   non-null views as the count, so slot 1 and every slot from the count on are
   unbound, and some requested texture view lies at or beyond the count.
   */
  lemma PassGapDropsView(ctx: Timeblock.Context, d: Device, prof: Counters, current: Option<PipelineState>,
                         ps: PipelineState)
    requires Shaped(ps) && ps.valid && ps.swapchain.None?
    requires TextureTarget(ps, 0) != Null && TextureTarget(ps, 1) == Null && TextureTarget(ps, 2) != Null
    requires BoundRenderTargets(d) != ColorTargets(ps)
    ensures var after := BoundRenderTargets(Run(d, BeginRenderPass(ctx, d, prof, current, ps).calls));
      var n := NonNullCount(ColorTargets(ps));
      && after != ColorTargets(ps)
      && after[0] == TextureTarget(ps, 0)
      && after[1] == Null
      && (forall i :: n <= i < MAX_RENDER_TARGETS ==> after[i] == Null)
      && (exists i :: n <= i < MAX_RENDER_TARGETS && TextureTarget(ps, i) != Null)
  {
    var views := ColorTargets(ps);
    var after := BoundRenderTargets(Run(d, BeginRenderPass(ctx, d, prof, current, ps).calls));
    PassTargetSlots(ctx, d, prof, current, ps);
    TextureTargets(ps);
    GapSlots(views, after);
    var k :| NonNullCount(views) <= k < MAX_RENDER_TARGETS && views[k] != Null;
    assert TextureTarget(ps, k) != Null;
  }

  /**
   With textures in slots 0 and 2 only, a pass that sets its targets binds
   slot 0's view and leaves every other slot, slot 2 included, unbound.
   */
  lemma PassGapDropsSlotTwo(ctx: Timeblock.Context, d: Device, prof: Counters, current: Option<PipelineState>,
                            ps: PipelineState)
    requires Shaped(ps) && ps.valid && ps.swapchain.None?
    requires TextureTarget(ps, 0) != Null && TextureTarget(ps, 1) == Null && TextureTarget(ps, 2) != Null
    requires forall i :: 3 <= i < MAX_RENDER_TARGETS ==> TextureTarget(ps, i) == Null
    requires BoundRenderTargets(d) != ColorTargets(ps)
    ensures var after := BoundRenderTargets(Run(d, BeginRenderPass(ctx, d, prof, current, ps).calls));
      && after[0] == TextureTarget(ps, 0)
      && forall i :: 1 <= i < MAX_RENDER_TARGETS ==> after[i] == Null
  {
    var views := ColorTargets(ps);
    var after := BoundRenderTargets(Run(d, BeginRenderPass(ctx, d, prof, current, ps).calls));
    PassTargetSlots(ctx, d, prof, current, ps);
    TextureTargets(ps);
    GapSlotTwo(views, after);
  }


  /** The viewport is set on every pass that defines one, and left alone otherwise. */
  lemma PassViewport(ctx: Timeblock.Context, d: Device, prof: Counters, current: Option<PipelineState>, ps: PipelineState)
    requires Shaped(ps) && ps.valid
    ensures var r := BeginRenderPass(ctx, d, prof, current, ps);
      && (ps.viewport.Some? ==> SetViewport(ps.viewport.value) in r.calls && Run(d, r.calls).viewport == ps.viewport)
      && (ps.viewport.None? ==> Run(d, r.calls).viewport == d.viewport)
  {
    PassGovernsViewport(ctx, d, prof, current, ps);
    GovernedViewport(d, BeginRenderPass(ctx, d, prof, current, ps).calls, ps);
  }

  /** At most one step of a pass bumps any given counter. */
  lemma PassCountersUnique()
    ensures forall i, j :: 0 <= i < |PASS_STEPS| && 0 <= j < |PASS_STEPS| && i != j && StepCounter(PASS_STEPS[i]).Some? ==>
      StepCounter(PASS_STEPS[i]) != StepCounter(PASS_STEPS[j])
  {
  }

  /** A counter bumped by step i of a pass grows by the number of calls that step issues. */
  lemma StepsCount(d: Device, prof: Counters, ps: PipelineState, i: nat, k: Counter)
    requires Shaped(ps) && i < |PASS_STEPS| && StepCounter(PASS_STEPS[i]) == Some(k)
    ensures RunSteps(d, prof, ps, PASS_STEPS).prof.Get(k) == prof.Get(k) + |StepCalls(d, ps, PASS_STEPS[i])|
  {
    PassStepsOwn();
    PassCountersUnique();
    RunStepsCountOwner(d, prof, ps, PASS_STEPS, i, k);
  }

  /** Counters no step of a pass bumps are left alone by the steps. */
  lemma StepsCountUntouched(d: Device, prof: Counters, ps: PipelineState)
    requires Shaped(ps)
    ensures forall k :: !StepsCounter(k) ==> RunSteps(d, prof, ps, PASS_STEPS).prof.Get(k) == prof.Get(k)
  {
    forall k | !StepsCounter(k) ensures RunSteps(d, prof, ps, PASS_STEPS).prof.Get(k) == prof.Get(k) {
      RunStepsCountUntouched(d, prof, ps, PASS_STEPS, k);
    }
  }

  /** The counters the binding steps may bump. */
  predicate StepsCounter(k: Counter) {
    k == ShaderVertexBindings || k == ShaderPixelBindings || k == ShaderComputeBindings || k == RenderTargetBindings
  }

  /** A shader counter grows by one iff the steps set that shader. */
  lemma StepsCountShader(d: Device, prof: Counters, ps: PipelineState, s: FixedSlot)
    requires Shaped(ps) && StepCounter(Fixed(s)).Some?
    ensures var k := StepCounter(Fixed(s)).value;
      RunSteps(d, prof, ps, PASS_STEPS).prof.Get(k) == prof.Get(k) + (if Held(d, s) != Requested(ps, s) then 1 else 0)
  {
    StepsCount(d, prof, ps, SlotStep(s), StepCounter(Fixed(s)).value);
  }

  /** The render-target counter grows by one iff the colour views or the depth view differed. */
  lemma StepsCountTargets(d: Device, prof: Counters, ps: PipelineState)
    requires Shaped(ps)
    ensures RunSteps(d, prof, ps, PASS_STEPS).prof.Get(RenderTargetBindings) == prof.Get(RenderTargetBindings)
      + (if BoundRenderTargets(d) != ColorTargets(ps) || d.depthStencilView != DepthStencilTarget(ps) then 1 else 0)
  {
    PassStepsAt();
    StepsCount(d, prof, ps, 8, RenderTargetBindings);
  }

  /** Bumping the pipeline counter keeps every other counter the steps left alone. */
  lemma PipelineBump(prof: Counters, steps: Counters)
    requires forall k :: !StepsCounter(k) ==> steps.Get(k) == prof.Get(k)
    ensures Bump(steps, PipelineBindings, 1).Get(PipelineBindings) == prof.Get(PipelineBindings) + 1
    ensures forall k :: !StepsCounter(k) && k != PipelineBindings ==> Bump(steps, PipelineBindings, 1).Get(k) == prof.Get(k)
  {
  }

  /** A valid pass bumps a shader's counter by one iff the device held a different shader. */
  lemma PassShaderCounter(ctx: Timeblock.Context, d: Device, prof: Counters, current: Option<PipelineState>,
                          ps: PipelineState, s: FixedSlot)
    requires Shaped(ps) && ps.valid && StepCounter(Fixed(s)).Some?
    ensures var k := StepCounter(Fixed(s)).value;
      BeginRenderPass(ctx, d, prof, current, ps).prof.Get(k) == prof.Get(k) + (if Held(d, s) != Requested(ps, s) then 1 else 0)
  {
    PassProf(ctx, d, prof, current, ps);
    StepsCountShader(d, prof, ps, s);
  }

  /** A valid pass bumps the render-target counter by one iff the colour views or the depth view differed. */
  lemma PassTargetCounter(ctx: Timeblock.Context, d: Device, prof: Counters, current: Option<PipelineState>, ps: PipelineState)
    requires Shaped(ps) && ps.valid
    ensures BeginRenderPass(ctx, d, prof, current, ps).prof.Get(RenderTargetBindings) == prof.Get(RenderTargetBindings)
      + (if BoundRenderTargets(d) != ColorTargets(ps) || d.depthStencilView != DepthStencilTarget(ps) then 1 else 0)
  {
    PassProf(ctx, d, prof, current, ps);
    StepsCountTargets(d, prof, ps);
  }

  /**
   A valid pass bumps the pipeline counter by exactly one and leaves every
   counter other than the shader and render-target ones alone: the input
   layout, blend, depth-stencil, rasterizer, topology and viewport sets are not
   counted.
   */
  lemma PassOtherCounters(ctx: Timeblock.Context, d: Device, prof: Counters, current: Option<PipelineState>, ps: PipelineState)
    requires Shaped(ps) && ps.valid
    ensures var r := BeginRenderPass(ctx, d, prof, current, ps);
      && r.prof.Get(PipelineBindings) == prof.Get(PipelineBindings) + 1
      && forall k :: !StepsCounter(k) && k != PipelineBindings ==> r.prof.Get(k) == prof.Get(k)
  {
    PassProf(ctx, d, prof, current, ps);
    StepsCountUntouched(d, prof, ps);
    PipelineBump(prof, RunSteps(d, prof, ps, PASS_STEPS).prof);
  }

  /**
   Repeating a valid pass on the device it left issues no input-layout,
   shader, depth-stencil, rasterizer or topology set and, when its colour
   views are packed, sets no render targets.
   */
  lemma RepeatPassQuiet(ctx: Timeblock.Context, d: Device, prof: Counters, current: Option<PipelineState>, ps: PipelineState)
    requires Shaped(ps) && ps.valid
    ensures var r1 := BeginRenderPass(ctx, d, prof, current, ps);
      var r2 := BeginRenderPass(ctx, Run(d, r1.calls), r1.prof, r1.current, ps);
      && (forall s: FixedSlot, c :: c in r2.calls ==> !Writes(c, SlotField(s)))
      && (forall c :: c in r2.calls ==> !Writes(c, TopologyField))
      && (Packed(ColorTargets(ps)) ==> forall c :: c in r2.calls ==> !Writes(c, RenderTargetField))
  {
    var r1 := BeginRenderPass(ctx, d, prof, current, ps);
    var d1 := Run(d, r1.calls);
    var r2 := BeginRenderPass(ctx, d1, r1.prof, r1.current, ps);
    forall s: FixedSlot, c | c in r2.calls ensures !Writes(c, SlotField(s)) {
      PassSetsIfDifferent(ctx, d, prof, current, ps, s);
      PassSetsIfDifferent(ctx, d1, r1.prof, r1.current, ps, s);
      PassStep(ctx, d1, r1.prof, r1.current, ps, SlotStep(s));
    }
    PassTopology(ctx, d, prof, current, ps);
    PassTopology(ctx, d1, r1.prof, r1.current, ps);
    if Packed(ColorTargets(ps)) {
      PassRenderTargets(ctx, d, prof, current, ps);
      PassRenderTargets(ctx, d1, r1.prof, r1.current, ps);
    }
  }

  /** Repeating a valid pass on the device it left bumps no shader counter. */
  lemma RepeatPassCountsNoShader(ctx: Timeblock.Context, d: Device, prof: Counters, current: Option<PipelineState>,
                                 ps: PipelineState, s: FixedSlot)
    requires Shaped(ps) && ps.valid && StepCounter(Fixed(s)).Some?
    ensures var r1 := BeginRenderPass(ctx, d, prof, current, ps);
      var r2 := BeginRenderPass(ctx, Run(d, r1.calls), r1.prof, r1.current, ps);
      var k := StepCounter(Fixed(s)).value;
      r2.prof.Get(k) == r1.prof.Get(k)
  {
    var r1 := BeginRenderPass(ctx, d, prof, current, ps);
    PassSetsIfDifferent(ctx, d, prof, current, ps, s);
    PassShaderCounter(ctx, Run(d, r1.calls), r1.prof, r1.current, ps, s);
  }

  /**
   The blend state is never settled: once a pass has set it, the device holds
   the all-ones mask, which differs from the 0 the next pass compares with, so
   every later pass sets it again.
   */
  lemma BlendReissuedEveryPass(ctx: Timeblock.Context, d: Device, prof: Counters, current: Option<PipelineState>,
                               ps: PipelineState)
    requires Shaped(ps) && ps.valid
    ensures var r1 := BeginRenderPass(ctx, d, prof, current, ps);
      var r2 := BeginRenderPass(ctx, Run(d, r1.calls), r1.prof, r1.current, ps);
      var (state, factor) := BlendRequest(ps);
      var blendSet := SetBlendState(state, factor, BLEND_MASK_ALL);
      blendSet in r1.calls ==> blendSet in r2.calls
  {
    var r1 := BeginRenderPass(ctx, d, prof, current, ps);
    PassBlend(ctx, d, prof, current, ps);
    PassBlend(ctx, Run(d, r1.calls), r1.prof, r1.current, ps);
  }

  /** For a named pass, EndRenderPass closes exactly the scopes and markers BeginRenderPass opened. */
  lemma BeginEndBalanced(ctx: Timeblock.Context, d: Device, prof: Counters, current: Option<PipelineState>, ps: PipelineState)
    requires Shaped(ps) && ps.valid && ps.passName.Some?
    ensures var r := BeginRenderPass(ctx, d, prof, current, ps);
      var ended := EndRenderPass(ctx, r.current);
      && Timeblock.Opens(r.calls) == Timeblock.Closes(ended)
      && Timeblock.EventBegins(r.calls) == Timeblock.EventEnds(ended)
  {
    var markers := Timeblock.Start(ctx, Some(ps));
    var body := PassBody(Run(d, markers), prof, ps).calls;
    BodyQuiet(Run(d, markers), prof, ps);
    Timeblock.NamedPassBalanced(ctx, ps);
    Timeblock.CountIfQuietTail(markers, body, Timeblock.BlockOpen);
    Timeblock.CountIfQuietTail(markers, body, Timeblock.EventOpen);
  }
}

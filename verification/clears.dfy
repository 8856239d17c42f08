/**
 Clearing render targets: the clears a render pass performs on entry
 (ClearPipelineStateRenderTargets) and the explicit ClearRenderTarget call.
 Load and DontCare suppress a clear; depth and stencil are flagged
 independently and share one call.
 */
module Clears {
  import opened Options
  import opened RhiDevice
  import opened RhiResources

  /** Whether colour slot i has something to clear: the swapchain, or colour texture i. */
  predicate HasColorTarget(ps: PipelineState, i: nat)
    requires Shaped(ps) && i < MAX_RENDER_TARGETS
  {
    ps.swapchain.Some? || ps.colorTextures[i].Some?
  }

  /** The view slot i is cleared through; the swapchain takes precedence over texture i. */
  function ColorClearView(ps: PipelineState, i: nat): Ref
    requires Shaped(ps) && i < MAX_RENDER_TARGETS && HasColorTarget(ps, i)
  {
    if ps.swapchain.Some? then ps.swapchain.value.renderTargetView
    else At(ps.colorTextures[i].value.renderTargetViews, ps.colorArrayIndex)
  }

  /** Slot i is cleared exactly when its clear colour is explicit and it has a target. */
  predicate ClearsSlot(ps: PipelineState, i: nat)
    requires Shaped(ps) && i < MAX_RENDER_TARGETS
  {
    ps.clearColors[i].Explicit() && HasColorTarget(ps, i)
  }

  /** The clear call for colour slot i. */
  function SlotClearCall(ps: PipelineState, i: nat): Call
    requires Shaped(ps) && i < MAX_RENDER_TARGETS && ClearsSlot(ps, i)
  {
    ClearRenderTargetView(ColorClearView(ps, i), ps.clearColors[i].v)
  }

  /**
   The colour slots from .. 7 that are cleared, in ascending order: exactly
   the slots that satisfy ClearsSlot, each once.
   */
  function ClearedSlots(ps: PipelineState, from: nat): (r: seq<nat>)
    requires Shaped(ps) && from <= MAX_RENDER_TARGETS
    ensures OnlyClearedSlots(ps, from, r)
    ensures Ascending(r)
    ensures EveryClearedSlot(ps, from, r)
    decreases MAX_RENDER_TARGETS - from
  {
    if from == MAX_RENDER_TARGETS then []
    else
      var rest := ClearedSlots(ps, from + 1);
      if ClearsSlot(ps, from) then PrependSlot(ps, from, rest); [from] + rest else rest
  }

  /** Every element of `slots` is a cleared slot from `from` on. */
  predicate OnlyClearedSlots(ps: PipelineState, from: nat, slots: seq<nat>)
    requires Shaped(ps)
  {
    forall j :: 0 <= j < |slots| ==> from <= slots[j] < MAX_RENDER_TARGETS && ClearsSlot(ps, slots[j])
  }

  /** Every cleared slot from `from` on is in `slots`. */
  predicate EveryClearedSlot(ps: PipelineState, from: nat, slots: seq<nat>)
    requires Shaped(ps)
  {
    forall i :: from <= i < MAX_RENDER_TARGETS && ClearsSlot(ps, i) ==> i in slots
  }

  predicate Ascending(s: seq<nat>) {
    forall j, k :: 0 <= j < k < |s| ==> s[j] < s[k]
  }

  /** Putting a cleared slot in front of the later cleared slots keeps the three properties. */
  lemma PrependSlot(ps: PipelineState, from: nat, rest: seq<nat>)
    requires Shaped(ps) && from < MAX_RENDER_TARGETS && ClearsSlot(ps, from)
    requires OnlyClearedSlots(ps, from + 1, rest) && Ascending(rest) && EveryClearedSlot(ps, from + 1, rest)
    ensures OnlyClearedSlots(ps, from, [from] + rest) && Ascending([from] + rest) && EveryClearedSlot(ps, from, [from] + rest)
  {
    var r := [from] + rest;
    forall j, k | 0 <= j < k < |r| ensures r[j] < r[k] {
      assert r[k] == rest[k - 1];
      if j > 0 {
        assert r[j] == rest[j - 1];
      }
    }
    forall i | from <= i < MAX_RENDER_TARGETS && ClearsSlot(ps, i) ensures i in r {
      if i > from {
        assert i in rest;
      }
    }
  }

  /**
   `calls` are the clears of `slots`: one call per slot, in the same order,
   and every slot is one that is cleared.
   */
  predicate IssuesSlotClears(ps: PipelineState, slots: seq<nat>, calls: seq<Call>)
    requires Shaped(ps)
  {
    && |calls| == |slots|
    && forall j :: 0 <= j < |slots| ==>
         slots[j] < MAX_RENDER_TARGETS && ClearsSlot(ps, slots[j]) && calls[j] == SlotClearCall(ps, slots[j])
  }

  /**
   Colour clears of slots from .. 7: one clear per cleared slot, in slot
   order, and nothing else.
   */
  function ColorClears(ps: PipelineState, from: nat): (r: seq<Call>)
    requires Shaped(ps) && from <= MAX_RENDER_TARGETS
    ensures IssuesSlotClears(ps, ClearedSlots(ps, from), r)
    decreases MAX_RENDER_TARGETS - from
  {
    if from == MAX_RENDER_TARGETS then []
    else
      var rest := ColorClears(ps, from + 1);
      if ClearsSlot(ps, from) then PrependClear(ps, from, rest); [SlotClearCall(ps, from)] + rest
      else rest
  }

  /** The clear of a cleared slot in front of the clears of the later slots are the clears from that slot on. */
  lemma PrependClear(ps: PipelineState, from: nat, rest: seq<Call>)
    requires Shaped(ps) && from < MAX_RENDER_TARGETS && ClearsSlot(ps, from)
    requires IssuesSlotClears(ps, ClearedSlots(ps, from + 1), rest)
    ensures IssuesSlotClears(ps, ClearedSlots(ps, from), [SlotClearCall(ps, from)] + rest)
  {
    var later := ClearedSlots(ps, from + 1);
    assert ClearedSlots(ps, from) == [from] + later;
    var r := [SlotClearCall(ps, from)] + rest;
    forall j | 0 <= j < |r| ensures r[j] == SlotClearCall(ps, ([from] + later)[j]) {
      if j > 0 {
        assert r[j] == rest[j - 1];
      }
    }
  }

  /** Colour clears number at most one per slot from `from` on. */
  lemma ColorClearsBounded(ps: PipelineState, from: nat)
    requires Shaped(ps) && from <= MAX_RENDER_TARGETS
    ensures |ColorClears(ps, from)| <= MAX_RENDER_TARGETS - from
  {
    SlotsBounded(ps, from);
  }

  /** Colour clears are only render-target clears, so they bind nothing. */
  lemma ColorClearsInert(ps: PipelineState, from: nat)
    requires Shaped(ps) && from <= MAX_RENDER_TARGETS
    ensures forall c :: c in ColorClears(ps, from) ==> c.ClearRenderTargetView?
    ensures Inert(ColorClears(ps, from))
  {
    var r := ColorClears(ps, from);
    var slots := ClearedSlots(ps, from);
    forall j | 0 <= j < |r| ensures r[j].ClearRenderTargetView? {
      assert r[j] == SlotClearCall(ps, slots[j]);
    }
  }

  /** A pass whose colours from `from` on are all Load or DontCare issues no colour clear. */
  lemma ColorClearsNoneExplicit(ps: PipelineState, from: nat)
    requires Shaped(ps) && from <= MAX_RENDER_TARGETS
    requires forall i :: from <= i < MAX_RENDER_TARGETS ==> !ps.clearColors[i].Explicit()
    ensures ColorClears(ps, from) == []
  {
    NoClearedSlots(ps, from);
  }

  /** With no explicit colour from `from` on, no slot from there on is cleared. */
  lemma {:induction false} NoClearedSlots(ps: PipelineState, from: nat)
    requires Shaped(ps) && from <= MAX_RENDER_TARGETS
    requires forall i :: from <= i < MAX_RENDER_TARGETS ==> !ps.clearColors[i].Explicit()
    ensures ClearedSlots(ps, from) == []
    decreases MAX_RENDER_TARGETS - from
  {
    if from < MAX_RENDER_TARGETS {
      NoClearedSlots(ps, from + 1);
    }
  }

  /** A call is among the colour clears exactly when it is the clear of some cleared slot. */
  lemma ColorClearsMembership(ps: PipelineState, from: nat)
    requires Shaped(ps) && from <= MAX_RENDER_TARGETS
    ensures forall i :: from <= i < MAX_RENDER_TARGETS && ClearsSlot(ps, i) ==> SlotClearCall(ps, i) in ColorClears(ps, from)
    ensures forall c :: c in ColorClears(ps, from) ==>
      exists i :: from <= i < MAX_RENDER_TARGETS && ClearsSlot(ps, i) && c == SlotClearCall(ps, i)
  {
    var r := ColorClears(ps, from);
    var slots := ClearedSlots(ps, from);
    forall i | from <= i < MAX_RENDER_TARGETS && ClearsSlot(ps, i)
      ensures SlotClearCall(ps, i) in r
    {
      assert i in slots;
      var j :| 0 <= j < |slots| && slots[j] == i;
      assert r[j] == SlotClearCall(ps, i);
    }
    forall c | c in r
      ensures exists i :: from <= i < MAX_RENDER_TARGETS && ClearsSlot(ps, i) && c == SlotClearCall(ps, i)
    {
      var j :| 0 <= j < |r| && r[j] == c;
      assert c == SlotClearCall(ps, slots[j]);
    }
  }

  /** Slots that start at `from` and stay below 8 number at most 8 - from. */
  lemma {:induction false} SlotsBounded(ps: PipelineState, from: nat)
    requires Shaped(ps) && from <= MAX_RENDER_TARGETS
    ensures |ClearedSlots(ps, from)| <= MAX_RENDER_TARGETS - from
    decreases MAX_RENDER_TARGETS - from
  {
    if from < MAX_RENDER_TARGETS {
      SlotsBounded(ps, from + 1);
    }
  }

  /** The depth-stencil clear, if the pass has a depth texture and either value is explicit. */
  function DepthStencilClear(ps: PipelineState): (r: seq<Call>)
    ensures Inert(r)
    ensures r != [] <==> ps.depthTexture.Some? && (ps.clearDepth.Explicit() || ps.clearStencil.Explicit())
    ensures r != [] ==> r == [ClearDepthStencilView(
      At(ps.depthTexture.value.depthStencilViews, ps.depthArrayIndex),
      ps.clearDepth.Explicit(), ps.clearStencil.Explicit(), ps.clearDepth, StencilByte(ps.clearStencil))]
  {
    if ps.depthTexture.None? then []
    else
      var depth := ps.clearDepth.Explicit();
      var stencil := ps.clearStencil.Explicit();
      if depth || stencil then
        [ClearDepthStencilView(At(ps.depthTexture.value.depthStencilViews, ps.depthArrayIndex),
                               depth, stencil, ps.clearDepth, StencilByte(ps.clearStencil))]
      else []
  }

  /**
   The stencil value as the device receives it: an explicit value is cut to
   its low eight bits; the sentinels pass through unchanged.
   */
  function StencilByte(c: Clear<nat>): (r: Clear<nat>)
    ensures r.Explicit() <==> c.Explicit()
    ensures !c.Explicit() ==> r == c
    ensures c.Explicit() ==> r.v < 256 && (c.v < 256 ==> r.v == c.v) && (r.v - c.v) % 256 == 0
  {
    if c.Explicit() then Value(c.v % 256) else c
  }

  /**
   The clears a render pass performs on entry: one colour clear per cleared
   slot in slot order, then the depth-stencil clear. Clears bind nothing, so
   no binding of the device changes.
   */
  function ClearPipelineStateRenderTargets(ps: PipelineState): (r: seq<Call>)
    requires Shaped(ps)
    ensures |ClearedSlots(ps, 0)| <= |r|
    ensures IssuesSlotClears(ps, ClearedSlots(ps, 0), r[..|ClearedSlots(ps, 0)|])
    ensures r[|ClearedSlots(ps, 0)|..] == DepthStencilClear(ps)
    ensures forall i :: 0 <= i < MAX_RENDER_TARGETS && ClearsSlot(ps, i) ==> SlotClearCall(ps, i) in r
    ensures forall c :: c in r ==> c.ClearRenderTargetView? || c.ClearDepthStencilView?
    ensures Inert(r)
  {
    PassClearsShape(ps);
    ColorClears(ps, 0) + DepthStencilClear(ps)
  }

  /** The colour clears followed by the depth-stencil clear split back into their parts and bind nothing. */
  lemma PassClearsShape(ps: PipelineState)
    requires Shaped(ps)
    ensures var colors := ColorClears(ps, 0);
      var r := colors + DepthStencilClear(ps);
      && r[..|colors|] == colors
      && r[|colors|..] == DepthStencilClear(ps)
      && (forall i :: 0 <= i < MAX_RENDER_TARGETS && ClearsSlot(ps, i) ==> SlotClearCall(ps, i) in r)
      && (forall c :: c in r ==> c.ClearRenderTargetView? || c.ClearDepthStencilView?)
      && Inert(r)
  {
    var colors := ColorClears(ps, 0);
    var depth := DepthStencilClear(ps);
    var r := colors + depth;
    ColorClearsInert(ps, 0);
    ColorClearsMembership(ps, 0);
    assert r[..|colors|] == colors;
    assert r[|colors|..] == depth;
    forall i | 0 <= i < |r| ensures !Binds(r[i]) && (r[i] in colors || r[i] in depth) {
      if i < |colors| {
        assert r[i] == colors[i];
      } else {
        assert r[i] == depth[i - |colors|];
      }
    }
  }

  /** Every colour, the depth and the stencil clear value is Load or DontCare. */
  predicate NothingExplicit(ps: PipelineState)
    requires Shaped(ps)
  {
    && (forall i :: 0 <= i < MAX_RENDER_TARGETS ==> !ps.clearColors[i].Explicit())
    && !ps.clearDepth.Explicit()
    && !ps.clearStencil.Explicit()
  }

  /** The slots a pass clears are exactly those whose value is explicit and that have a target. */
  lemma PassClearsExactlyClearedSlots(ps: PipelineState)
    requires Shaped(ps)
    ensures forall i :: 0 <= i < MAX_RENDER_TARGETS ==> (ClearsSlot(ps, i) <==> i in ClearedSlots(ps, 0))
  {
    var slots := ClearedSlots(ps, 0);
    forall i | 0 <= i < MAX_RENDER_TARGETS && i in slots ensures ClearsSlot(ps, i) {
      var j :| 0 <= j < |slots| && slots[j] == i;
    }
  }

  /** The colour clears of a pass come first, one per cleared slot, and nothing after them is a colour clear. */
  lemma PassColourClearsFirst(ps: PipelineState)
    requires Shaped(ps)
    ensures var r := ClearPipelineStateRenderTargets(ps);
      forall j :: 0 <= j < |r| ==> (r[j].ClearRenderTargetView? <==> j < |ClearedSlots(ps, 0)|)
  {
    var r := ClearPipelineStateRenderTargets(ps);
    var slots := ClearedSlots(ps, 0);
    var colors := r[..|slots|];
    var depth := DepthStencilClear(ps);
    forall j | 0 <= j < |r| ensures r[j].ClearRenderTargetView? <==> j < |slots| {
      if j < |slots| {
        assert r[j] == colors[j] == SlotClearCall(ps, slots[j]);
      } else {
        assert r[j] == r[|slots|..][j - |slots|] == depth[j - |slots|];
      }
    }
  }

  /** After the colour clears comes at most one call, the depth-stencil clear. */
  lemma PassTail(ps: PipelineState)
    requires Shaped(ps)
    ensures var r := ClearPipelineStateRenderTargets(ps);
      var n := |ClearedSlots(ps, 0)|;
      && n <= |r| <= n + 1
      && (|r| == n + 1 <==> DepthStencilClear(ps) != [])
      && (|r| == n + 1 ==> r[n] == DepthStencilClear(ps)[0] && r[n].ClearDepthStencilView?)
  {
    var r := ClearPipelineStateRenderTargets(ps);
    var n := |ClearedSlots(ps, 0)|;
    assert r[n..] == DepthStencilClear(ps);
    if |r| == n + 1 {
      assert r[n] == r[n..][0];
    }
  }

  /** The depth-stencil clear, when there is one, is the last call. */
  lemma PassDepthClearLast(ps: PipelineState)
    requires Shaped(ps)
    ensures var r := ClearPipelineStateRenderTargets(ps);
      forall c :: c in r && c.ClearDepthStencilView? ==> r[|r| - 1] == c && [c] == DepthStencilClear(ps)
  {
    var r := ClearPipelineStateRenderTargets(ps);
    var n := |ClearedSlots(ps, 0)|;
    PassColourClearsFirst(ps);
    PassTail(ps);
    forall c | c in r && c.ClearDepthStencilView? ensures r[|r| - 1] == c && [c] == DepthStencilClear(ps) {
      var j :| 0 <= j < |r| && r[j] == c;
      assert !(j < n);
    }
  }

  /** The pass issues a depth-stencil clear exactly when DepthStencilClear has one. */
  lemma PassDepthClearIssued(ps: PipelineState)
    requires Shaped(ps)
    ensures var r := ClearPipelineStateRenderTargets(ps);
      (exists c :: c in r && c.ClearDepthStencilView?) <==> DepthStencilClear(ps) != []
  {
    var r := ClearPipelineStateRenderTargets(ps);
    var n := |ClearedSlots(ps, 0)|;
    PassColourClearsFirst(ps);
    PassTail(ps);
    if DepthStencilClear(ps) != [] {
      assert r[n] in r;
    }
  }

  /** A pass with nothing explicit clears nothing. */
  lemma PassNothingExplicitClearsNothing(ps: PipelineState)
    requires Shaped(ps) && NothingExplicit(ps)
    ensures ClearPipelineStateRenderTargets(ps) == []
  {
    ColorClearsNoneExplicit(ps, 0);
  }

  /**
   The clear policy of a pass: the colour clears come first, one per cleared
   slot, and a slot is cleared exactly when its value is explicit and it has a
   target; the depth-stencil clear comes last, carries independent depth and
   stencil flags, and is issued iff either value is explicit; a pass with
   nothing explicit clears nothing.
   */
  lemma PassClearPolicy(ps: PipelineState)
    requires Shaped(ps)
    ensures var r := ClearPipelineStateRenderTargets(ps);
      var slots := ClearedSlots(ps, 0);
      && (forall i :: 0 <= i < MAX_RENDER_TARGETS ==> (ClearsSlot(ps, i) <==> i in slots))
      && (forall j :: 0 <= j < |r| ==> (r[j].ClearRenderTargetView? <==> j < |slots|))
      && (forall c :: c in r && c.ClearDepthStencilView? ==> r[|r| - 1] == c && [c] == DepthStencilClear(ps))
      && ((exists c :: c in r && c.ClearDepthStencilView?) <==> DepthStencilClear(ps) != [])
      && (NothingExplicit(ps) ==> r == [])
  {
    PassClearsExactlyClearedSlots(ps);
    PassColourClearsFirst(ps);
    PassDepthClearLast(ps);
    PassDepthClearIssued(ps);
    if NothingExplicit(ps) {
      PassNothingExplicitClearsNothing(ps);
    }
  }

  /** Under a swapchain the highest explicit slot is the last slot cleared. */
  lemma HighestSlotClearedLast(ps: PipelineState, k: nat)
    requires Shaped(ps) && ps.swapchain.Some? && k < MAX_RENDER_TARGETS
    requires ps.clearColors[k].Explicit()
    requires forall i :: k < i < MAX_RENDER_TARGETS ==> !ps.clearColors[i].Explicit()
    ensures ClearedSlots(ps, 0) != [] && ClearedSlots(ps, 0)[|ClearedSlots(ps, 0)| - 1] == k
  {
    var slots := ClearedSlots(ps, 0);
    assert ClearsSlot(ps, k);
    assert k in slots;
    var m :| 0 <= m < |slots| && slots[m] == k;
    var n := |slots|;
    assert ClearsSlot(ps, slots[n - 1]);
    assert slots[n - 1] <= k;
    assert slots[m] <= slots[n - 1];
  }

  /**
   With a swapchain every colour clear targets the swapchain's view, so the
   colour that remains is the one of the highest explicit slot: its clear is
   the last colour clear issued.
   */
  lemma SwapchainKeepsLastColour(ps: PipelineState, k: nat)
    requires Shaped(ps) && ps.swapchain.Some? && k < MAX_RENDER_TARGETS
    requires ps.clearColors[k].Explicit()
    requires forall i :: k < i < MAX_RENDER_TARGETS ==> !ps.clearColors[i].Explicit()
    ensures var r := ClearPipelineStateRenderTargets(ps);
      var n := |ClearedSlots(ps, 0)|;
      && 0 < n
      && (forall j :: 0 <= j < n ==> r[j].ClearRenderTargetView? && r[j].view == ps.swapchain.value.renderTargetView)
      && r[n - 1] == ClearRenderTargetView(ps.swapchain.value.renderTargetView, ps.clearColors[k].v)
  {
    var r := ClearPipelineStateRenderTargets(ps);
    var slots := ClearedSlots(ps, 0);
    var n := |slots|;
    HighestSlotClearedLast(ps, k);
    forall j | 0 <= j < n
      ensures r[j].ClearRenderTargetView? && r[j].view == ps.swapchain.value.renderTargetView
    {
      PassSlotCall(ps, j);
    }
    PassSlotCall(ps, n - 1);
  }

  /** Call `j` of a pass's clears, for `j` below the number of cleared slots, clears slot `j` of the list. */
  lemma PassSlotCall(ps: PipelineState, j: nat)
    requires Shaped(ps) && j < |ClearedSlots(ps, 0)|
    ensures var slot := ClearedSlots(ps, 0)[j];
      && slot < MAX_RENDER_TARGETS && ClearsSlot(ps, slot)
      && ClearPipelineStateRenderTargets(ps)[j] == SlotClearCall(ps, slot)
  {
    var r := ClearPipelineStateRenderTargets(ps);
    var n := |ClearedSlots(ps, 0)|;
    assert r[j] == r[..n][j];
  }

  /** With exactly one explicit colour slot that has a target, exactly one colour clear is issued. */
  lemma {:induction false} SingleExplicitSlotClearedOnce(ps: PipelineState, k: nat, from: nat)
    requires Shaped(ps) && k < MAX_RENDER_TARGETS && from <= MAX_RENDER_TARGETS
    requires ClearsSlot(ps, k)
    requires forall i :: 0 <= i < MAX_RENDER_TARGETS && i != k ==> !ps.clearColors[i].Explicit()
    ensures ColorClears(ps, from) == (if from <= k then [SlotClearCall(ps, k)] else [])
    decreases MAX_RENDER_TARGETS - from
  {
    if from < MAX_RENDER_TARGETS {
      SingleExplicitSlotClearedOnce(ps, k, from + 1);
    }
  }

  /** Storage clears: the UAV itself, then one clear per mip when the texture has per-mip views. */
  function MipUavClears(tex: Texture, color: Color, from: nat): (r: seq<Call>)
    requires from <= tex.mipCount
    ensures |r| == tex.mipCount - from
    ensures forall j :: 0 <= j < |r| ==> r[j] == ClearUnorderedAccessViewFloat(At(tex.uavMips, from + j), color)
    decreases tex.mipCount - from
  {
    if from == tex.mipCount then []
    else [ClearUnorderedAccessViewFloat(At(tex.uavMips, from), color)] + MipUavClears(tex, color, from + 1)
  }

  /**
   ClearRenderTarget. The texture is dereferenced unless it is a storage clear
   suppressed by a Load/DontCare colour, so only that case may pass none.
   */
  function ClearRenderTarget(texture: Option<Texture>, colorIndex: nat, depthStencilIndex: nat, storage: bool,
                             color: Clear<Color>, depth: Clear<int>, stencil: Clear<nat>): (r: seq<Call>)
    requires texture.None? ==> storage && !color.Explicit()
    // storage: 1 + mip count float clears of the given colour, or none
    ensures storage && !color.Explicit() ==> r == []
    ensures storage && color.Explicit() ==>
      && |r| == 1 + (if texture.value.perMipView then texture.value.mipCount else 0)
      && r[0] == ClearUnorderedAccessViewFloat(texture.value.uav, color.v)
      && forall j :: 0 <= j < |r| ==> r[j].ClearUnorderedAccessViewFloat? && r[j].color == color.v
    // colour render target: one clear iff the colour is explicit
    ensures !storage && texture.value.isRenderTarget && texture.value.isColorFormat ==>
      (r != [] <==> color.Explicit())
      && (r != [] ==> r == [ClearRenderTargetView(At(texture.value.renderTargetViews, colorIndex), color.v)])
    // depth-stencil render target: one clear iff either value is explicit, flags set independently
    ensures !storage && texture.value.isRenderTarget && !texture.value.isColorFormat && texture.value.isDepthStencilFormat ==>
      (r != [] <==> depth.Explicit() || stencil.Explicit())
      && (r != [] ==> r == [ClearDepthStencilView(At(texture.value.depthStencilViews, depthStencilIndex),
                                                  depth.Explicit(), stencil.Explicit(), depth, StencilByte(stencil))])
    ensures !storage && !texture.value.isRenderTarget ==> r == []
    ensures Inert(r)
  {
    if storage then
      if !color.Explicit() then []
      else
        var tex := texture.value;
        [ClearUnorderedAccessViewFloat(tex.uav, color.v)]
        + (if tex.perMipView then MipUavClears(tex, color.v, 0) else [])
    else
      var tex := texture.value;
      if !tex.isRenderTarget then []
      else if tex.isColorFormat then
        if !color.Explicit() then []
        else [ClearRenderTargetView(At(tex.renderTargetViews, colorIndex), color.v)]
      else if tex.isDepthStencilFormat then
        if !depth.Explicit() && !stencil.Explicit() then []
        else
          var flagDepth := depth.Explicit();
          var flagStencil := stencil.Explicit();
          if flagDepth || flagStencil then
            [ClearDepthStencilView(At(tex.depthStencilViews, depthStencilIndex), flagDepth, flagStencil, depth, StencilByte(stencil))]
          else []
      else []
  }

  /**
   What ClearRenderTarget issues, counted: UAV clears happen exactly for a
   storage clear with an explicit colour, and then number one plus one per mip
   when the texture has per-mip views, the UAV first and mip m after it, all
   with the given colour; any other clear is at most one call; and the device
   keeps every binding.
   */
  lemma ClearRenderTargetCounts(d: Device, texture: Option<Texture>, colorIndex: nat, depthStencilIndex: nat, storage: bool,
                                color: Clear<Color>, depth: Clear<int>, stencil: Clear<nat>)
    requires texture.None? ==> storage && !color.Explicit()
    ensures var r := ClearRenderTarget(texture, colorIndex, depthStencilIndex, storage, color, depth, stencil);
      && Run(d, r) == d
      && ((exists c :: c in r && c.ClearUnorderedAccessViewFloat?) <==> storage && color.Explicit())
      && (!storage ==> |r| <= 1)
      && (storage && color.Explicit() ==>
            forall j :: 0 <= j < |r| ==>
              r[j] == ClearUnorderedAccessViewFloat(if j == 0 then texture.value.uav else At(texture.value.uavMips, j - 1), color.v))
      && (texture.Some? && texture.value.mipCount > 0 ==>
            (|r| == 1 + texture.value.mipCount <==> storage && color.Explicit() && texture.value.perMipView))
  {
    var r := ClearRenderTarget(texture, colorIndex, depthStencilIndex, storage, color, depth, stencil);
    InertRun(d, r);
    if storage && color.Explicit() {
      var tex := texture.value;
      var mips := if tex.perMipView then MipUavClears(tex, color.v, 0) else [];
      assert r == [ClearUnorderedAccessViewFloat(tex.uav, color.v)] + mips;
      forall j | 0 <= j < |r|
        ensures r[j] == ClearUnorderedAccessViewFloat(if j == 0 then tex.uav else At(tex.uavMips, j - 1), color.v)
      {
        if j > 0 {
          assert r[j] == mips[j - 1];
        }
      }
      assert r[0] in r;
    }
  }
}

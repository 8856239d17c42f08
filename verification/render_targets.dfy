/**
 The sizing logic of the renderer's render targets (CreateRenderTextures):
 how many mips the frame and bloom chains get, which resolution group each
 target belongs to and is recreated with, the blur and TAA-history sizes and
 the TAA-history recreate rule. Formats, usage flags and the GPU objects
 themselves are not modelled; a target is its extent.
 */
module RenderTargets {

  /** Largest value of an unsigned 32-bit integer plus one. */
  const UINT32: nat := 0x1_0000_0000

  /** Size the mip chains are scaled down towards. */
  const MIP_TARGET_PX: nat := 16

  /** x halved n times with integer division, as the mip loop does it. */
  function Halve(x: nat, n: nat): nat {
    if n == 0 then x else Halve(x, n - 1) / 2
  }

  /** Whether one more halving keeps both dimensions above 16 pixels. */
  predicate CanHalve(width: nat, height: nat) {
    width / 2 > MIP_TARGET_PX && height / 2 > MIP_TARGET_PX
  }

  /**
   Reference definition of the mip count: one for the full size, plus one
   per halving that keeps both dimensions above 16 pixels.
   */
  function MipsTo16(width: nat, height: nat): (n: nat)
    ensures n >= 1
    decreases width
  {
    if CanHalve(width, height) then 1 + MipsTo16(width / 2, height / 2) else 1
  }

  /**
   The loop that counts mips down to 16 pixels. It stops at the first size
   whose halves are not both above 16 pixels; every size before it could be
   halved.
   */
  method MipCountTo16px(widthRender: nat, heightRender: nat) returns (count: nat)
    requires widthRender < UINT32 && heightRender < UINT32
    ensures count >= 1
    ensures !CanHalve(Halve(widthRender, count - 1), Halve(heightRender, count - 1))
    ensures forall j :: 0 <= j < count - 1 ==> CanHalve(Halve(widthRender, j), Halve(heightRender, j))
    ensures count == MipsTo16(widthRender, heightRender)
  {
    count := 1;
    var width := widthRender;
    var height := heightRender;
    while width / 2 > MIP_TARGET_PX && height / 2 > MIP_TARGET_PX
      invariant count >= 1
      invariant width == Halve(widthRender, count - 1) && height == Halve(heightRender, count - 1)
      invariant forall j :: 0 <= j < count - 1 ==> CanHalve(Halve(widthRender, j), Halve(heightRender, j))
      invariant MipsTo16(widthRender, heightRender) == count - 1 + MipsTo16(width, height)
      decreases width
    {
      width := width / 2;
      height := height / 2;
      count := count + 1;
    }
  }

  /** The 32-pixel chain is one mip shorter; it never underflows since the 16-pixel count is at least one. */
  function MipsTo32(width: nat, height: nat): (n: nat)
    ensures n + 1 == MipsTo16(width, height)
  {
    MipsTo16(width, height) - 1
  }

  /**
   Every halving keeps both sides above 16 pixels, so the smallest mip of a
   chain that halves at least once has both sides above 16 and one at most 33.
   */
  lemma {:induction false} SmallestMipNear16px(width: nat, height: nat)
    requires CanHalve(width, height)
    ensures var n := MipsTo16(width, height) - 1;
      && Halve(width, n) > MIP_TARGET_PX && Halve(height, n) > MIP_TARGET_PX
      && (Halve(width, n) <= 2 * MIP_TARGET_PX + 1 || Halve(height, n) <= 2 * MIP_TARGET_PX + 1)
    decreases width
  {
    var m := MipsTo16(width / 2, height / 2) - 1;
    assert MipsTo16(width, height) - 1 == m + 1;
    HalveShift(width, m);
    HalveShift(height, m);
    if CanHalve(width / 2, height / 2) {
      SmallestMipNear16px(width / 2, height / 2);
    } else {
      assert m == 0;
    }
  }

  /** Halving n + 1 times is halving once, then n times. */
  lemma {:induction false} HalveShift(x: nat, n: nat)
    ensures Halve(x, n + 1) == Halve(x / 2, n)
    decreases n
  {
    if n > 0 {
      HalveShift(x, n - 1);
    }
  }

  /** The render targets the renderer owns. */
  datatype Rt =
    | FrameRender | FrameRender2
    | GbufferAlbedo | GbufferNormal | GbufferMaterial | GbufferVelocity | GbufferDepth
    | LightDiffuse | LightDiffuseTransparent | LightSpecular | LightSpecularTransparent | LightVolumetric
    | Ssao | Ssr | DofHalf | DofHalf2
    | FrameOutput | FrameOutput2 | Bloom
    | BrdfSpecularLut
    | Blur | TaaHistory

  /** The four groups CreateRenderTextures can recreate independently. */
  datatype Group = RenderGroup | OutputGroup | FixedGroup | DynamicGroup

  function GroupOf(rt: Rt): Group {
    match rt
    case FrameOutput | FrameOutput2 | Bloom => OutputGroup
    case BrdfSpecularLut => FixedGroup
    case Blur | TaaHistory => DynamicGroup
    case _ => RenderGroup
  }

  datatype Extent = Extent(width: nat, height: nat, mips: nat)

  /** Render and output resolutions, already truncated to unsigned integers. */
  datatype Resolution = Resolution(renderWidth: nat, renderHeight: nat, outputWidth: nat, outputHeight: nat)

  datatype Flags = Flags(render: bool, output: bool, fixed: bool, dynamic: bool) {
    predicate Enabled(g: Group) {
      match g
      case RenderGroup => render
      case OutputGroup => output
      case FixedGroup => fixed
      case DynamicGroup => dynamic
    }
  }

  /** The renderer's targets and whether the BRDF lookup table has been rendered into. */
  datatype Targets = Targets(rts: map<Rt, Extent>, brdfRendered: bool)

  /** Side of the fixed-size BRDF lookup table. */
  const BRDF_LUT_SIZE: nat := 400

  /** The blur target takes the output size only when the output is strictly larger in both dimensions. */
  function BlurExtent(res: Resolution): (e: Extent)
    ensures e.mips == 1
    ensures res.outputWidth > res.renderWidth && res.outputHeight > res.renderHeight ==>
      e.width == res.outputWidth && e.height == res.outputHeight
    ensures !(res.outputWidth > res.renderWidth && res.outputHeight > res.renderHeight) ==>
      e.width == res.renderWidth && e.height == res.renderHeight
  {
    var larger := res.outputWidth > res.renderWidth && res.outputHeight > res.renderHeight;
    Extent(if larger then res.outputWidth else res.renderWidth, if larger then res.outputHeight else res.renderHeight, 1)
  }

  /** The TAA history follows the output size when TAA upsampling is on, else the render size. */
  function TaaExtent(res: Resolution, upsampleTaa: bool): Extent {
    if upsampleTaa then Extent(res.outputWidth, res.outputHeight, 1) else Extent(res.renderWidth, res.renderHeight, 1)
  }

  /** The TAA history is recreated when it is absent or its width or height differs from the wanted one. */
  predicate TaaNeedsRecreate(t: Targets, res: Resolution, upsampleTaa: bool) {
    var want := TaaExtent(res, upsampleTaa);
    TaaHistory !in t.rts || t.rts[TaaHistory].width != want.width || t.rts[TaaHistory].height != want.height
  }

  /**
   The extent each target is created with. The frame chain and bloom get
   the 16-pixel mip count of the render resolution, even bloom, which has the
   output size; SSR gets the 32-pixel count; depth of field is half size.
   */
  function Wanted(rt: Rt, res: Resolution, upsampleTaa: bool): Extent {
    var mips16 := MipsTo16(res.renderWidth, res.renderHeight);
    var render := Extent(res.renderWidth, res.renderHeight, 1);
    var output := Extent(res.outputWidth, res.outputHeight, 1);
    match rt
    case FrameRender | FrameRender2 => render.(mips := mips16)
    case Ssr => render.(mips := MipsTo32(res.renderWidth, res.renderHeight))
    case DofHalf | DofHalf2 => Extent(res.renderWidth / 2, res.renderHeight / 2, 1)
    case FrameOutput | FrameOutput2 => output
    case Bloom => output.(mips := mips16)
    case BrdfSpecularLut => Extent(BRDF_LUT_SIZE, BRDF_LUT_SIZE, 1)
    case Blur => BlurExtent(res)
    case TaaHistory => TaaExtent(res, upsampleTaa)
    case _ => render
  }

  /** The targets one call recreates: every target of an enabled group, the TAA history only when it needs it. */
  function Recreated(t: Targets, flags: Flags, res: Resolution, upsampleTaa: bool): set<Rt> {
    set rt: Rt | flags.Enabled(GroupOf(rt)) && (rt == TaaHistory ==> TaaNeedsRecreate(t, res, upsampleTaa))
  }

  /**
   CreateRenderTextures: recreates the targets of the enabled groups at their
   wanted size and leaves every other target as it was; recreating the fixed
   group marks the BRDF lookup table as not yet rendered.
   */
  function CreateRenderTextures(t: Targets, flags: Flags, res: Resolution, upsampleTaa: bool): (r: Targets)
    ensures forall rt :: rt in Recreated(t, flags, res, upsampleTaa) ==>
      rt in r.rts && r.rts[rt] == Wanted(rt, res, upsampleTaa)
    ensures forall rt :: rt !in Recreated(t, flags, res, upsampleTaa) ==>
      (rt in r.rts <==> rt in t.rts) && (rt in t.rts ==> r.rts[rt] == t.rts[rt])
    ensures r.brdfRendered == (t.brdfRendered && !flags.fixed)
  {
    var made := Recreated(t, flags, res, upsampleTaa);
    Targets(
      map rt | rt in t.rts.Keys + made :: if rt in made then Wanted(rt, res, upsampleTaa) else t.rts[rt],
      if flags.fixed then false else t.brdfRendered)
  }

  /** A target is recreated only if its group's flag is set; with the flag set only the TAA history may be kept. */
  lemma GroupGating(t: Targets, flags: Flags, res: Resolution, upsampleTaa: bool, rt: Rt)
    ensures rt in Recreated(t, flags, res, upsampleTaa) ==> flags.Enabled(GroupOf(rt))
    ensures flags.Enabled(GroupOf(rt)) && rt != TaaHistory ==> rt in Recreated(t, flags, res, upsampleTaa)
  {
  }

  /**
   With the dynamic group enabled, the TAA history is recreated exactly when
   it is absent or has the wrong width or height, and afterwards it has the
   wanted size either way.
   */
  lemma TaaRecreateRule(t: Targets, flags: Flags, res: Resolution, upsampleTaa: bool)
    requires flags.dynamic
    ensures TaaHistory in Recreated(t, flags, res, upsampleTaa) <==>
      TaaHistory !in t.rts || t.rts[TaaHistory].width != TaaExtent(res, upsampleTaa).width
                           || t.rts[TaaHistory].height != TaaExtent(res, upsampleTaa).height
    ensures var r := CreateRenderTextures(t, flags, res, upsampleTaa);
      TaaHistory in r.rts && r.rts[TaaHistory].width == TaaExtent(res, upsampleTaa).width
                          && r.rts[TaaHistory].height == TaaExtent(res, upsampleTaa).height
  {
    assert GroupOf(TaaHistory) == DynamicGroup;
  }

  /** A second call with the same resolution and options does not recreate the TAA history. */
  lemma TaaStableOnRepeat(t: Targets, flags: Flags, res: Resolution, upsampleTaa: bool)
    requires flags.dynamic
    ensures var r := CreateRenderTextures(t, flags, res, upsampleTaa);
      TaaHistory !in Recreated(r, flags, res, upsampleTaa)
  {
    TaaRecreateRule(t, flags, res, upsampleTaa);
  }

  /** The depth-of-field targets are half the render size, rounded down. */
  lemma DofIsHalfSize(t: Targets, flags: Flags, res: Resolution, upsampleTaa: bool)
    requires flags.render
    ensures var r := CreateRenderTextures(t, flags, res, upsampleTaa);
      && DofHalf in r.rts && 2 * r.rts[DofHalf].width <= res.renderWidth < 2 * r.rts[DofHalf].width + 2
      && 2 * r.rts[DofHalf].height <= res.renderHeight < 2 * r.rts[DofHalf].height + 2
  {
    assert DofHalf in Recreated(t, flags, res, upsampleTaa);
  }

  /** The SSR chain is one mip shorter than the frame chain. */
  lemma SsrOneMipShorter(t: Targets, flags: Flags, res: Resolution, upsampleTaa: bool)
    requires flags.render
    ensures var r := CreateRenderTextures(t, flags, res, upsampleTaa);
      Ssr in r.rts && FrameRender in r.rts && r.rts[Ssr].mips + 1 == r.rts[FrameRender].mips
  {
    assert Ssr in Recreated(t, flags, res, upsampleTaa);
    assert FrameRender in Recreated(t, flags, res, upsampleTaa);
  }
}

/**
 The resource objects and the pipeline state the command list consumes. The
 command list only reads them: a texture is its backend handle, its views and
 its descriptive metadata; a pipeline state is what the renderer asks one
 render pass to bind.
 */
module RhiResources {
  import opened Options
  import opened RhiDevice

  /**
   A texture as the command list sees it. Views indexed by array slice or by
   mip are tables; asking for an index the table does not have yields null.
   */
  datatype Texture = Texture(
    objectId: nat,
    resource: Ref,
    format: nat,
    width: nat,
    height: nat,
    arrayLength: nat,
    mipCount: nat,
    renderTargetViews: seq<Ref>,          // per array slice
    depthStencilViews: seq<Ref>,          // per array slice
    depthStencilReadOnlyViews: seq<Ref>,  // per array slice
    srv: Ref,
    uav: Ref,
    srvMips: seq<Ref>,                    // per mip
    uavMips: seq<Ref>,                    // per mip
    perMipView: bool,
    isRenderTarget: bool,
    isColorFormat: bool,
    isDepthStencilFormat: bool)

  datatype Swapchain = Swapchain(renderTargetView: Ref)

  /** A vertex shader carries the input layout it was compiled against. */
  datatype VertexShader = VertexShader(resource: Ref, inputLayout: Ref)

  datatype BlendState = BlendState(resource: Ref, factor: Color)

  /**
   The engine's primitive topology. The engine-to-backend topology table is
   taken to be injective, so the device is modelled as holding the engine code.
   */
  datatype Topology = TopologyUnknown | TopologyMode(code: nat)

  /**
   Everything one render pass asks for. `valid` and `compute` are the
   pipeline state's own IsValid() and IsCompute() answers.
   */
  datatype PipelineState = PipelineState(
    valid: bool,
    compute: bool,
    vertexShader: Option<VertexShader>,
    pixelShader: Ref,
    computeShader: Ref,
    blendState: Option<BlendState>,
    depthStencilState: Ref,
    rasterizerState: Ref,
    topology: Topology,
    colorTextures: seq<Option<Texture>>,
    colorArrayIndex: nat,
    depthTexture: Option<Texture>,
    depthReadOnly: bool,
    depthArrayIndex: nat,
    swapchain: Option<Swapchain>,
    clearColors: seq<Clear<Color>>,
    clearDepth: Clear<int>,
    clearStencil: Clear<nat>,
    viewport: Option<Viewport>,
    passName: Option<string>,
    profile: bool,
    mark: bool)

  /** The colour-target and clear-colour arrays have one entry per render-target slot. */
  predicate Shaped(ps: PipelineState) {
    |ps.colorTextures| == MAX_RENDER_TARGETS && |ps.clearColors| == MAX_RENDER_TARGETS
  }
}

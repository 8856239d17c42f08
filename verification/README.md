# SpartanEngine rendering core in Dafny

This project models the part of SpartanEngine that turns a render pass into
Direct3D 11 calls. It also models a few small pieces of engine logic around it.

- **D3D11 command list** (`RHI_CommandList`). This covers:
  - the recording lifecycle (Begin, End, Submit, Reset);
  - `BeginRenderPass`, with its binding steps in source order: input layout, the three shaders, blend, depth-stencil, rasterizer, primitive topology, render targets, viewport, the entry clears, and the pipeline counter;
  - `EndRenderPass` and the explicit `ClearRenderTarget`;
  - draws, dispatches and `Blit`;
  - every per-resource bind: vertex and index buffers, constant buffers, samplers, textures and structured buffers;
  - timestamp queries, the video-memory query, query release, and the profiler and marker scopes.
- **Renderer** (`CreateRenderTextures`). This covers:
  - the 16-pixel and 32-pixel mip counts;
  - which resolution group each render target belongs to;
  - the blur size and the TAA-history size;
  - the TAA-history recreate rule.
- **Image importer**. This covers `Load`, `GetBitsFromFIBITMAP` and `GenerateMipmaps`: the rescale decision, how mip 0 is filled, the halving mip chain, and which mip each rescale job writes.
- **Editor title bar**. This covers how the contributor list is normalised and split into table cells.
- **Entity**. This covers the active and visibility flags, the 13-slot component table (add, get, remove), and the parent / child hierarchy queries, including `GetRoot`.
- **RHI descriptor**. This covers the two constructors, the memoised hash, and the kind queries.

The Direct3D 11 device context is modelled as a value (`RhiDevice.Device`):
- It holds the bound state that the command list reads back: `IAGet…`, `VSGet…`, `OMGet…`, `CSGet…` and so on.
- An operation returns the calls it issues (`RhiDevice.Call`) together with the profiler counters.
- `RhiDevice.Run` gives the device after a trace of calls.
- Frame lemmas (`RhiDevice.RunFrame`, `InertRun`, `Leaves`) say which calls touch which piece of bound state.

Every "set if dirty" property below is stated against this model. Each one says:
- when the call is issued;
- that it is the only call writing that state;
- what the device holds afterwards;
- which counter moves.

Other engine and third-party code enters as parameters:
- FreeImage decoding and rescaling;
- `rhi_hash_combine` and the numeric values of the descriptor-type enumeration;
- the renderer's resolution and options.

## Model

| member | source | states |
|---|---|---|
| Lifecycle.Apply | Runtime/RHI/D3D11/D3D11_CommandList.cpp:67-89 | Begin, End, Submit and Reset always report success and set their own state, whatever the state before |
| Lifecycle.LastOpDecides | Runtime/RHI/D3D11/D3D11_CommandList.cpp:67-89 | after any non-empty series of operations the state is the one the last operation sets |
| Lifecycle.Strict | Runtime/RHI/D3D11/D3D11_CommandList.cpp:67-89 | the intended order (Begin from idle, End while recording, Submit once ended, Reset from any state) allows an operation exactly when it is expected, and then leads to the state the operation sets |
| Lifecycle.ResetFromAnyState | Runtime/RHI/D3D11/D3D11_CommandList.cpp:85-89 | Reset is allowed in every state, and both the intended order and the backend return the list to idle |
| Lifecycle.PermissiveRefinesStrict | Runtime/RHI/D3D11/D3D11_CommandList.cpp:67-89 | wherever the intended order allows an operation the backend reaches the same state, and it also accepts every operation the order forbids |
| Lifecycle.EndWithoutBeginSucceeds | Runtime/RHI/D3D11/D3D11_CommandList.cpp:73-77 | ending a list that never began is outside the intended order yet succeeds |
| RenderPass.BeginRenderPass | Runtime/RHI/D3D11/D3D11_CommandList.cpp:91-104 | an invalid pipeline state fails, issues nothing, changes no counter and keeps the current state; a valid one succeeds and becomes current |
| RenderPass.PassSetsIfDifferent | Runtime/RHI/D3D11/D3D11_CommandList.cpp:107-229 | for input layout, each shader, depth-stencil and rasterizer state: the set call is issued iff the device held something else, it is the only call writing that slot, and the device holds the request afterwards |
| RenderPass.PassShaderCounter | Runtime/RHI/D3D11/D3D11_CommandList.cpp:123-175 | a valid pass bumps a shader's binding counter by one iff the device held a different shader, else leaves it |
| RenderPass.PassBlend | Runtime/RHI/D3D11/D3D11_CommandList.cpp:177-196 | the blend set (with the all-ones mask) is issued iff held state, factor or mask differ from the request with mask 0; afterwards state and factor are the requested ones |
| RenderPass.BlendReissuedEveryPass | Runtime/RHI/D3D11/D3D11_CommandList.cpp:185-195 | the mask compared (0) is never the mask set (all ones), so once a pass sets the blend state, repeating it sets it again |
| RenderPass.PassTopology | Runtime/RHI/D3D11/D3D11_CommandList.cpp:231-246 | an unknown topology is left alone; a known one is set iff the device holds another and is held afterwards |
| RenderPass.PassRenderTargets | Runtime/RHI/D3D11/D3D11_CommandList.cpp:248-314 | the target set is issued iff the colour views or depth view differ from those bound; afterwards the depth view is the request and the colour views equal the request iff they are packed or nothing was set; once set, slot i holds view i below the number of non-null views and nothing from there on |
| RenderPass.PassSwapchainFillsSlotZero | Runtime/RHI/D3D11/D3D11_CommandList.cpp:264-283 | with a swapchain, slot 0 ends holding the swapchain's view and every other slot is empty, whatever textures are also named |
| RenderPass.PassTexturesFillSlots | Runtime/RHI/D3D11/D3D11_CommandList.cpp:272-282 | without a swapchain and with packed texture views, slot i ends holding texture i's view |
| RenderPass.SetTargetsSlots | Runtime/RHI/D3D11/D3D11_CommandList.cpp:294-309 | setting the views with the non-null count binds slot i to view i below the count and unbinds every slot from the count on |
| RenderPass.UnpackedDropsView | Runtime/RHI/D3D11/D3D11_CommandList.cpp:294-309 | views with a null before a non-null one have a non-null view at or beyond their non-null count, which that set drops |
| RenderPass.PassTargetSlots | Runtime/RHI/D3D11/D3D11_CommandList.cpp:294-309 | a pass whose colour views differ from those bound leaves slot i holding view i below the non-null count and nothing from there on |
| RenderPass.TextureTargets | Runtime/RHI/D3D11/D3D11_CommandList.cpp:272-282 | without a swapchain, requested slot i is texture i's view |
| RenderPass.GapSlots | Runtime/RHI/D3D11/D3D11_CommandList.cpp:294-309 | with a null slot 1 between non-null slots 0 and 2, the set keeps slot 0, unbinds slot 1 and every slot from the count on, and drops some non-null view |
| RenderPass.GapSlotTwo | Runtime/RHI/D3D11/D3D11_CommandList.cpp:294-309 | with only slots 0 and 2 non-null, the set keeps slot 0 and unbinds every other slot |
| RenderPass.PassGapDropsView | Runtime/RHI/D3D11/D3D11_CommandList.cpp:294-309 | with textures in slots 0 and 2 and none in slot 1, a pass that sets its targets binds slot 0's view, unbinds slot 1 and every slot from the non-null count on, and drops some requested texture view lying at or beyond that count |
| RenderPass.PassGapDropsSlotTwo | Runtime/RHI/D3D11/D3D11_CommandList.cpp:294-309 | with textures in slots 0 and 2 only, a pass that sets its targets binds slot 0's view and leaves every other slot unbound, so slot 2's view is never bound |
| RenderPass.PassTargetCounter | Runtime/RHI/D3D11/D3D11_CommandList.cpp:294-313 | the render-target counter grows by one iff colour views or depth view differed |
| RenderPass.PassViewport | Runtime/RHI/D3D11/D3D11_CommandList.cpp:317-321 | a defined viewport is always set and held afterwards; an undefined one leaves the device's viewport |
| RenderPass.PassOtherCounters | Runtime/RHI/D3D11/D3D11_CommandList.cpp:107-327 | a valid pass bumps the pipeline counter by exactly one; input layout, blend, depth-stencil, rasterizer, topology and viewport sets are not counted (apart from what `SetGlobalShaderResources` issues at the end of the pass, which is not modelled) |
| RenderPass.RepeatPassQuiet | Runtime/RHI/D3D11/D3D11_CommandList.cpp:107-314 | repeating a valid pass on the device it left issues no input-layout, shader, depth-stencil, rasterizer or topology set, and no target set when the views are packed |
| RenderPass.RepeatPassCountsNoShader | Runtime/RHI/D3D11/D3D11_CommandList.cpp:123-175 | repeating a valid pass on the device it left bumps no shader counter |
| RenderPass.EndRenderPass | Runtime/RHI/D3D11/D3D11_CommandList.cpp:332-337 | ending binds nothing, and with no current pipeline state issues nothing |
| RenderPass.BeginEndBalanced | Runtime/RHI/D3D11/D3D11_CommandList.cpp:850-895 | for a named pass, EndRenderPass closes exactly as many time blocks and markers as BeginRenderPass opened |
| Clears.ClearedSlots | Runtime/RHI/D3D11/D3D11_CommandList.cpp:342-344 | the slots cleared on entry, in ascending order, each once: exactly those whose value is explicit and that have a target |
| Clears.ColorClears | Runtime/RHI/D3D11/D3D11_CommandList.cpp:342-363 | one colour clear per cleared slot, in slot order, and nothing else: clear j goes to the j-th cleared slot's view (the swapchain's, else texture i's) with that slot's colour |
| Clears.ColorClearsBounded | Runtime/RHI/D3D11/D3D11_CommandList.cpp:342 | at most one colour clear per slot |
| Clears.ColorClearsInert | Runtime/RHI/D3D11/D3D11_CommandList.cpp:342-363 | colour clears are render-target clears only and bind nothing |
| Clears.ColorClearsNoneExplicit | Runtime/RHI/D3D11/D3D11_CommandList.cpp:344 | with every colour Load or DontCare no colour clear is issued |
| Clears.ColorClearsMembership | Runtime/RHI/D3D11/D3D11_CommandList.cpp:342-363 | a call is among the colour clears exactly when it is the clear of some cleared slot |
| Clears.DepthStencilClear | Runtime/RHI/D3D11/D3D11_CommandList.cpp:365-381 | the depth-stencil clear is issued iff there is a depth texture and depth or stencil is explicit, with each flag set independently and the stencil cut to eight bits |
| Clears.StencilByte | Runtime/RHI/D3D11/D3D11_CommandList.cpp:378 | an explicit stencil reaches the device as its low eight bits, so it is below 256 and congruent to the value modulo 256; sentinels are unchanged |
| Clears.ClearPipelineStateRenderTargets | Runtime/RHI/D3D11/D3D11_CommandList.cpp:339-382 | the colour clears of the cleared slots come first, one per slot in slot order, then the depth-stencil clear and nothing else; only clear calls are issued and no binding changes |
| Clears.PassClearsExactlyClearedSlots | Runtime/RHI/D3D11/D3D11_CommandList.cpp:342-344 | the slots a pass clears are exactly those with an explicit value and a target |
| Clears.PassColourClearsFirst | Runtime/RHI/D3D11/D3D11_CommandList.cpp:341-367 | position j of a pass's clears is a colour clear exactly when j is below the number of cleared slots |
| Clears.PassTail | Runtime/RHI/D3D11/D3D11_CommandList.cpp:365-381 | after the colour clears comes at most one call, present exactly when DepthStencilClear has one, and it is that depth-stencil clear |
| Clears.PassSlotCall | Runtime/RHI/D3D11/D3D11_CommandList.cpp:342-362 | call j of the pass, for j below the number of cleared slots, is the clear of the j-th cleared slot, a slot below eight with an explicit colour and a target |
| Clears.PassDepthClearLast | Runtime/RHI/D3D11/D3D11_CommandList.cpp:365-381 | a depth-stencil clear in a pass is its last call and is DepthStencilClear's call |
| Clears.PassDepthClearIssued | Runtime/RHI/D3D11/D3D11_CommandList.cpp:365-381 | a pass issues a depth-stencil clear exactly when DepthStencilClear has one |
| Clears.PassNothingExplicitClearsNothing | Runtime/RHI/D3D11/D3D11_CommandList.cpp:339-382 | with every colour, the depth and the stencil Load or DontCare, a pass clears nothing |
| Clears.PassClearPolicy | Runtime/RHI/D3D11/D3D11_CommandList.cpp:339-382 | a slot is cleared iff its value is explicit and it has a target; the colour clears come first, one per cleared slot; the depth-stencil clear is last and issued iff either value is explicit; with nothing explicit nothing is cleared |
| Clears.HighestSlotClearedLast | Runtime/RHI/D3D11/D3D11_CommandList.cpp:342-352 | under a swapchain, the highest explicit slot is the last slot cleared |
| Clears.SwapchainKeepsLastColour | Runtime/RHI/D3D11/D3D11_CommandList.cpp:342-352 | under a swapchain every colour clear targets the swapchain's view, and the last one carries the colour of the highest explicit slot, so that colour is what remains |
| Clears.SingleExplicitSlotClearedOnce | Runtime/RHI/D3D11/D3D11_CommandList.cpp:342-363 | with one explicit slot that has a target, exactly one colour clear is issued |
| Clears.MipUavClears | Runtime/RHI/D3D11/D3D11_CommandList.cpp:401-407 | one float clear per mip, in mip order, of that mip's unordered-access view |
| Clears.ClearRenderTarget | Runtime/RHI/D3D11/D3D11_CommandList.cpp:384-441 | storage: nothing for Load/DontCare, else the UAV and then each mip; colour target: one clear iff explicit; depth-stencil target: one clear iff depth or stencil is explicit, stencil cut to eight bits; non-target: nothing |
| Clears.ClearRenderTargetCounts | Runtime/RHI/D3D11/D3D11_CommandList.cpp:384-441 | binds nothing; issues UAV clears iff storage and explicit, call j being the UAV (j = 0) or mip j - 1 with the given colour; a non-storage clear is at most one call; for a texture with mips, exactly 1 + mip count calls iff storage, explicit and per-mip |
| Submission.Signed | Runtime/RHI/D3D11/D3D11_CommandList.cpp:452-459 | an unsigned 32-bit value cast to signed keeps its residue modulo 2^32 and stays within the int range |
| Submission.Draw | Runtime/RHI/D3D11/D3D11_CommandList.cpp:444-450 | one draw, counted once, binding nothing |
| Submission.DrawIndexed | Runtime/RHI/D3D11/D3D11_CommandList.cpp:452-464 | one indexed draw, counted once; the vertex offset arrives negative exactly when it exceeds the int range |
| Submission.DrawOne | Runtime/RHI/D3D11/D3D11_CommandList.cpp:444-464 | a draw job goes through Draw or DrawIndexed: one call of the job's kind with its counts, counted once, binding nothing |
| Submission.DrawsCountAndBindNothing | Runtime/RHI/D3D11/D3D11_CommandList.cpp:444-464 | a series of draws issues one matching call per job in order, raises the draw counter by the number of jobs, leaves the other counters and every binding as they were |
| Submission.Dispatch | Runtime/RHI/D3D11/D3D11_CommandList.cpp:466-479 | a dispatch, counted once, followed by one more call |
| Submission.DispatchUnbindsUavs | Runtime/RHI/D3D11/D3D11_CommandList.cpp:471-477 | after a dispatch compute UAV slots 0 to 7 are empty and every other binding is unchanged |
| Submission.Blit | Runtime/RHI/D3D11/D3D11_CommandList.cpp:482-497 | under the asserted restrictions, one whole-resource copy from source to destination, binding nothing |
| Submission.BlitAllowedSymmetric | Runtime/RHI/D3D11/D3D11_CommandList.cpp:485-494 | the restrictions are symmetric and never admit a texture copied onto itself |
| Submission.BlitLeavesBindings | Runtime/RHI/D3D11/D3D11_CommandList.cpp:482-497 | the device's bindings are identical after a blit |
| Binding.SetIf | Runtime/RHI/D3D11/D3D11_CommandList.cpp:535-541 | a set is issued and counted exactly when the held value differs, and nothing else is counted |
| Binding.SetBufferVertex | Runtime/RHI/D3D11/D3D11_CommandList.cpp:519-542 | issued iff buffer or offset differ (stride not compared), with the offset truncated to 32 bits; counted once; the device then holds the buffer; nothing else changes |
| Binding.SetBufferIndex | Runtime/RHI/D3D11/D3D11_CommandList.cpp:544-566 | issued iff buffer or offset differ (format not compared), with the format from the 16-bit flag; counted once; the device then holds the buffer; nothing else changes |
| Binding.VertexRebindIsQuiet | Runtime/RHI/D3D11/D3D11_CommandList.cpp:529-537 | binding the same vertex buffer again with a 32-bit offset issues nothing |
| Binding.WideOffsetAlwaysRebinds | Runtime/RHI/D3D11/D3D11_CommandList.cpp:526-540 | a 64-bit offset beyond 32 bits never matches the truncated offset held, so it is rebound every time |
| Binding.StrideNotCompared | Runtime/RHI/D3D11/D3D11_CommandList.cpp:530-537 | a new stride alone issues nothing and the device keeps the old stride |
| Binding.FormatNotCompared | Runtime/RHI/D3D11/D3D11_CommandList.cpp:554-561 | a new index format alone issues nothing and the device keeps the old format |
| Binding.StageConstantBuffer | Runtime/RHI/D3D11/D3D11_CommandList.cpp:575-585 | a stage's set is issued iff the stage is in scope and its slot holds another buffer |
| Binding.SetConstantBuffer | Runtime/RHI/D3D11/D3D11_CommandList.cpp:568-610 | a set for stage st is issued iff st is in scope and holds another buffer; at most three sets; each counted |
| Binding.ConstantBufferCountsChangedStages | Runtime/RHI/D3D11/D3D11_CommandList.cpp:568-610 | the number of sets and counter bumps equals the number of in-scope stages that held another buffer |
| Binding.ConstantBufferBound | Runtime/RHI/D3D11/D3D11_CommandList.cpp:568-610 | afterwards every in-scope stage holds the buffer in the slot and nothing else of the device changed |
| Binding.LastWriterWins | Runtime/RHI/D3D11/D3D11_CommandList.cpp:575-609 | after a trace of sets of one buffer into one slot, a stage holds the buffer iff some call set it there, else keeps its contents |
| Binding.ConstantBufferRebindIsQuiet | Runtime/RHI/D3D11/D3D11_CommandList.cpp:575-609 | binding the same constant buffer with the same scope again issues nothing |
| Binding.ShaderStage | Runtime/RHI/D3D11/D3D11_CommandList.cpp:619-640 | the stage is compute exactly for a compute pipeline, pixel otherwise |
| Binding.SetSampler | Runtime/RHI/D3D11/D3D11_CommandList.cpp:612-641 | issued iff the stage's slot holds another sampler; counted once; the slot then holds it; nothing else changes |
| Binding.SamplerRebindIsQuiet | Runtime/RHI/D3D11/D3D11_CommandList.cpp:612-641 | binding the same sampler again issues nothing |
| Binding.SetStructuredBuffer | Runtime/RHI/D3D11/D3D11_CommandList.cpp:720-734 | issued iff the compute UAV slot holds another buffer; counted once; the slot then holds it; nothing else changes |
| Binding.StructuredBufferRebindIsQuiet | Runtime/RHI/D3D11/D3D11_CommandList.cpp:720-734 | binding the same structured buffer again issues nothing |
| Binding.Unsigned | Runtime/RHI/D3D11/D3D11_CommandList.cpp:646-646 | a value reinterpreted as unsigned 32-bit is below 2^32 and unchanged when it already fits |
| Binding.TextureRange | Runtime/RHI/D3D11/D3D11_CommandList.cpp:645-647 | unranged binds one view; ranged binds mip count minus the first mip (0 when none is requested) |
| Binding.BindViews | Runtime/RHI/D3D11/D3D11_CommandList.cpp:676-717 | the UAV or SRV set of the first range views is issued iff the first slot differs from the first view, and counted on the storage or sampled counter |
| Binding.SetTextureIntended | Runtime/RHI/D3D11/D3D11_CommandList.cpp:643-718 | the corrected bind: the set is issued iff the first slot holds something other than the first view, and the views are the requested mip (or the whole-texture view), or for a ranged bind a run of mips from the requested mip or from mip 0 |
| Binding.BindViewsResult | Runtime/RHI/D3D11/D3D11_CommandList.cpp:676-717 | after an issued bind, the range slots hold the views in order; other slots and the other view table are untouched |
| Binding.TextureRebindIsQuiet | Runtime/RHI/D3D11/D3D11_CommandList.cpp:643-718 | as written, binding the same texture the same way again issues nothing |
| Binding.IntendedTextureRebindIsQuiet | Runtime/RHI/D3D11/D3D11_CommandList.cpp:643-718 | in the corrected bind too, binding the same texture the same way again issues nothing |
| Binding.TextureDirtyCheckIsFirstSlotOnly | Runtime/RHI/D3D11/D3D11_CommandList.cpp:683-711 | as written, only the first slot is compared, so a later slot that holds a stale view keeps it |
| Binding.IntendedDirtyCheckIsFirstSlotOnly | Runtime/RHI/D3D11/D3D11_CommandList.cpp:683-711 | the corrected bind keeps the first-slot-only comparison, so a later stale slot keeps its view there too |
| Binding.RangedTextureBindsMips | Runtime/RHI/D3D11/D3D11_CommandList.cpp:666-673 | as written, view i of a ranged bind is mip `mip + i` in unsigned arithmetic, which for a requested mip is the run from that mip; once issued slot + i holds view i |
| Binding.IntendedRangedTextureBindsMips | Runtime/RHI/D3D11/D3D11_CommandList.cpp:645-673 | in the corrected bind, a ranged bind covers mips first to first + range - 1 (first being the requested mip or 0), and once issued slot + i holds mip first + i |
| Binding.WrittenAgreesWithIntended | Runtime/RHI/D3D11/D3D11_CommandList.cpp:643-718 | the bind as written and the corrected bind issue the same calls and counts whenever the bind is not ranged or a mip is requested |
| Binding.SetTextureAsWritten | Runtime/RHI/D3D11/D3D11_CommandList.cpp:643-718 | the bind as written: views from WrittenViews, issued as one binding call iff the first slot differs from the first of them |
| Binding.WrittenRangedViewsAreShifted | Runtime/RHI/D3D11/D3D11_CommandList.cpp:668-672 | as written, a ranged bind with no mip requested puts null in view 0 and mip i - 1 in view i |
| Binding.WrittenRangedBindIsDropped | Runtime/RHI/D3D11/D3D11_CommandList.cpp:668-687 | as written, such a bind onto an empty first slot issues nothing, whereas the intended bind issues its call |
| Binding.IntendedRangedViewsStartAtMipZero | Runtime/RHI/D3D11/D3D11_CommandList.cpp:645-672 | as intended, a ranged bind with no mip requested binds mip i to view i for every mip |
| Timeblock.Start | Runtime/RHI/D3D11/D3D11_CommandList.cpp:850-872 | nothing without a pipeline state or pass name; else a CPU and a GPU time block iff profiling is allowed and a profiler exists, and a named event iff marking is allowed |
| Timeblock.End | Runtime/RHI/D3D11/D3D11_CommandList.cpp:874-895 | nothing without a pipeline state; else the event closes first iff marking is allowed, then two time blocks close iff profiling is allowed; the pass name is not checked |
| Timeblock.NamedPassBalanced | Runtime/RHI/D3D11/D3D11_CommandList.cpp:850-895 | for a named pass, End closes as many time blocks and events as Start opened |
| Timeblock.UnnamedPassClosesUnopenedBlocks | Runtime/RHI/D3D11/D3D11_CommandList.cpp:850-895 | for an unnamed pass with profiling allowed, Start opens no time block and End closes two |
| Queries.TimestampStart | Runtime/RHI/D3D11/D3D11_CommandList.cpp:736-748 | begins the disjoint query, then ends the start query; binds nothing |
| Queries.TimestampEnd | Runtime/RHI/D3D11/D3D11_CommandList.cpp:750-762 | ends the end query, then the disjoint query; binds nothing |
| Queries.TimestampsBracketed | Runtime/RHI/D3D11/D3D11_CommandList.cpp:736-762 | the disjoint query begins first and ends last, and the start timestamp comes before the end timestamp |
| Queries.TimestampTicks | Runtime/RHI/D3D11/D3D11_CommandList.cpp:773-788 | zero when the interval is disjoint, else the end minus start delta in unsigned 64-bit arithmetic, wrapping when the end is earlier |
| Queries.TicksRoundTrip | Runtime/RHI/D3D11/D3D11_CommandList.cpp:780-788 | start plus the tick delta gives back the end, modulo 2^64 |
| Queries.Megabytes | Runtime/RHI/D3D11/D3D11_CommandList.cpp:809-809 | bytes to whole megabytes, truncated to 32 bits |
| Queries.GetMemoryUsed | Runtime/RHI/D3D11/D3D11_CommandList.cpp:794-821 | 0 without support; a successful query gives its megabytes; a failed one gives 0 and withdraws support; a missing device or adapter gives 0 and keeps support |
| Queries.UnsupportedAnswersZero | Runtime/RHI/D3D11/D3D11_CommandList.cpp:796-797 | once support is withdrawn every answer is 0 |
| Queries.FailureIsPermanent | Runtime/RHI/D3D11/D3D11_CommandList.cpp:794-821 | every answer from the first failed query on is 0 |
| Queries.QueryRelease | Runtime/RHI/D3D11/D3D11_CommandList.cpp:841-848 | a null handle is left alone; otherwise the query is released once; the handle is null afterwards |
| Queries.ReleaseTwiceReleasesOnce | Runtime/RHI/D3D11/D3D11_CommandList.cpp:841-848 | releasing twice through the same handle releases the query once |
| RenderTargets.MipCountTo16px | Runtime/Rendering/Renderer_Resources.cpp:143-152 | the loop's count is the reference mip count: every size before the last can be halved above 16 pixels and the last cannot |
| RenderTargets.MipsTo32 | Runtime/Rendering/Renderer_Resources.cpp:154-155 | the 32-pixel count is one less than the 16-pixel count and never underflows |
| RenderTargets.SmallestMipNear16px | Runtime/Rendering/Renderer_Resources.cpp:143-152 | the smallest mip has both sides above 16 pixels and one side at most 33 |
| RenderTargets.BlurExtent | Runtime/Rendering/Renderer_Resources.cpp:206-210 | the blur target takes the output size iff the output is strictly larger in both dimensions |
| RenderTargets.CreateRenderTextures | Runtime/Rendering/Renderer_Resources.cpp:126-226 | recreated targets get their wanted size, all others are kept as they were, and recreating the fixed group marks the BRDF table as not rendered |
| RenderTargets.GroupGating | Runtime/Rendering/Renderer_Resources.cpp:158-224 | a target is recreated only if its group's flag is set, and every target of an enabled group but the TAA history is recreated |
| RenderTargets.TaaRecreateRule | Runtime/Rendering/Renderer_Resources.cpp:212-224 | with the dynamic group enabled, the TAA history is recreated iff it is absent or has the wrong size, and has the wanted size afterwards |
| RenderTargets.TaaStableOnRepeat | Runtime/Rendering/Renderer_Resources.cpp:212-224 | a second call with the same resolution and options does not recreate the TAA history |
| RenderTargets.DofIsHalfSize | Runtime/Rendering/Renderer_Resources.cpp:181-182 | the depth-of-field targets are half the render size, rounded down |
| RenderTargets.SsrOneMipShorter | Runtime/Rendering/Renderer_Resources.cpp:161-180 | the SSR chain has one mip fewer than the frame chain |
| ImageImporter.BufferSize | Runtime/Resource/Import/ImageImporter.cpp:160-160 | the buffer size is computed in 32-bit arithmetic and equals the product when it fits |
| ImageImporter.GetBits | Runtime/Resource/Import/ImageImporter.cpp:151-173 | fails and leaves the buffer when it is missing or a dimension is 0; else the buffer becomes the first width x height x channels bytes |
| ImageImporter.GetBitsRoundTrip | Runtime/Resource/Import/ImageImporter.cpp:151-173 | on success the buffer followed by the bytes it left out is the bitmap; asking again with the buffer produced gives the same answer |
| ImageImporter.MipChain | Runtime/Resource/Import/ImageImporter.cpp:182-187 | every job is at least 1 x 1 and has the requested channels |
| ImageImporter.MipJobs | Runtime/Resource/Import/ImageImporter.cpp:180-193 | the loop lists exactly the reference chain of halvings |
| ImageImporter.ChainIsHalving | Runtime/Resource/Import/ImageImporter.cpp:182-187 | job i is the size halved i + 1 times |
| ImageImporter.ChainEndsAtOnePixel | Runtime/Resource/Import/ImageImporter.cpp:182-187 | for sizes above 1 x 1 the chain is non-empty, every job but the last has both sides above 1, and the last has a side of 1 |
| ImageImporter.GenerateMipmaps | Runtime/Resource/Import/ImageImporter.cpp:175-231 | a missing texture stays missing; otherwise one mip per job is appended, mip 0 is kept, and mip k holds job k - 1's rescaled bytes |
| ImageImporter.Grown | Runtime/Resource/Import/ImageImporter.cpp:188-193 | one zero-filled buffer of the job's size is appended per job, and the existing mips are kept |
| ImageImporter.Fill | Runtime/Resource/Import/ImageImporter.cpp:195-215 | job i writes mip i + 1, every other mip is kept, and a buffer of the right size keeps its size |
| ImageImporter.FillJob | Runtime/Resource/Import/ImageImporter.cpp:208-212 | a job with positive dimensions copies its rescaled bytes; a degenerate one leaves the buffer |
| ImageImporter.MipSizes | Runtime/Resource/Import/ImageImporter.cpp:182-200 | for a texture with only mip 0, mip i + 1 has the byte size of job i |
| ImageImporter.Import | Runtime/Resource/Import/ImageImporter.cpp:119-146 | 32 bpp, 4 channels, the bitmap's size and transparency, not grayscale; one mip added plus one per job when mipmaps are used; for a fresh texture mip 0 is the bitmap's bytes |
| ImageImporter.Load | Runtime/Resource/Import/ImageImporter.cpp:76-149 | succeeds iff the texture exists and the file decodes, leaving the texture unchanged otherwise; imports the bitmap rescaled to the texture's size when both dimensions differ |
| ImageImporter.OneSidedMismatchKeepsBitmapSize | Runtime/Resource/Import/ImageImporter.cpp:114-117 | a bitmap that differs from the texture in one dimension only is not rescaled, and the texture takes the bitmap's size |
| Contributors.CommaCount | editor/Widgets/TitleBar.cpp:71-106 | the comma count is at most the length and is 0 for a comma-free string |
| Contributors.TrimLeft | editor/Widgets/TitleBar.cpp:86-94 | drops exactly the leading spaces |
| Contributors.Process | editor/Widgets/TitleBar.cpp:77-95 | the normalisation loop never lengthens the entry |
| Contributors.ProcessCommaFree | editor/Widgets/TitleBar.cpp:77-95 | on a comma-free stretch the loop is the identity when spaces are allowed, else drops leading spaces |
| Contributors.ProcessAtComma | editor/Widgets/TitleBar.cpp:81-85 | the loop keeps a comma and restarts after it with spaces forbidden |
| Contributors.ProcessKeepsCommas | editor/Widgets/TitleBar.cpp:77-95 | normalisation keeps every comma |
| Contributors.ProcessNoSpaceAfterComma | editor/Widgets/TitleBar.cpp:77-95 | after normalisation no comma is followed by a space |
| Contributors.FirstComma | editor/Widgets/TitleBar.cpp:97-102 | the first comma, with a comma-free prefix before it |
| Contributors.Split | editor/Widgets/TitleBar.cpp:97-102 | getline on ',' yields comma-free items, and none at all exactly for an empty string |
| Contributors.JoinSplit | editor/Widgets/TitleBar.cpp:97-102 | joining the items with commas gives back any string that does not end in a comma |
| Contributors.SplitCount | editor/Widgets/TitleBar.cpp:97-102 | such a string splits into one item more than it has commas |
| Contributors.SplitItemsStartClean | editor/Widgets/TitleBar.cpp:97-102 | without a space after any comma, no item after the first starts with a space |
| Contributors.EntryItems | editor/Widgets/TitleBar.cpp:75-103 | an entry's items are comma-free, those after the first carry no leading space, and a well-formed entry yields six |
| Contributors.CommaSeparate | editor/Widgets/TitleBar.cpp:71-106 | every cell is comma-free |
| Contributors.ProcessKeepsLast | editor/Widgets/TitleBar.cpp:77-95 | a last character that is neither comma nor space survives normalisation |
| Contributors.RowsMatchEntries | editor/Widgets/TitleBar.cpp:135-173 | for well-formed entries there are six cells per entry, and cell 6i + k is field k of entry i |
| Entities.NewEntity | runtime/World/Entity.h:175-177 | a new entity is active, visible, a root without children, and has an empty slot for every component type |
| Entities.SetActive | runtime/World/Entity.h:52-53 | the flag reads back as set and nothing else changes |
| Entities.SetHierarchyVisibility | runtime/World/Entity.h:57-58 | the flag reads back as set and nothing else changes |
| Entities.FlagsIndependent | runtime/World/Entity.h:51-58 | setting one flag leaves the other, and the two setters commute |
| Entities.GetComponent | runtime/World/Entity.h:90-95 | a component found in a type's slot has that type |
| Entities.AddComponent | runtime/World/Entity.h:60-84 | an occupied slot returns its component with no change and no event; otherwise the created component is typed and stored in exactly that slot, and a world resolve is fired |
| Entities.RemoveComponent | runtime/World/Entity.h:97-105 | empties the type's slot, leaves every other slot, and fires a world resolve |
| Entities.AddThenGet | runtime/World/Entity.h:60-95 | after adding, GetComponent returns what AddComponent returned |
| Entities.AddIsIdempotent | runtime/World/Entity.h:66-68 | adding the same type twice returns the first component, changes nothing more, and fires no second event |
| Entities.RemoveUndoesAdd | runtime/World/Entity.h:60-105 | removing a component just added gives back the entity it was added to |
| Entities.AddsOfDifferentTypesCommute | runtime/World/Entity.h:60-84 | adds of two different types give the same entity in either order |
| Entities.ChildrenCount | runtime/World/Entity.h:163-163 | the child count is the list size cast to 32 bits |
| Entities.HierarchyQueries | runtime/World/Entity.h:160-163 | exactly one of IsRoot and HasParent holds, and HasChildren means a non-empty child list when the count fits in 32 bits |
| Entities.GetRoot | runtime/World/Entity.h:164-164 | in an acyclic hierarchy the result is a root of the world, and a root is its own root |
| Entities.RootIgnoresRank | runtime/World/Entity.h:164-164 | the root depends on the hierarchy alone, not on the acyclicity witness |
| Entities.RootIsLastAncestor | runtime/World/Entity.h:164-165 | the root of a non-root is its last ancestor, and all its ancestors share it |
| Entities.RootIsFixedPoint | runtime/World/Entity.h:164-164 | the root of a root is itself |
| Descriptors.Default | runtime/RHI/RHI_Descriptor.h:33-33 | a default descriptor has undefined type and layout and no cached hash |
| Descriptors.Copy | runtime/RHI/RHI_Descriptor.h:35-44 | copies type, layout, slot, stage, name, mip and array size; range, mip range, data, dynamic offset and the hash cache start at their defaults |
| Descriptors.Make | runtime/RHI/RHI_Descriptor.h:46-54 | takes name, type, layout, slot, array size and stage; everything else, the hash included, is at its default |
| Descriptors.FoldOfFour | runtime/RHI/RHI_Descriptor.h:60-63 | folding hash_combine over four values combines them one after the other |
| Descriptors.ComputeHash | runtime/RHI/RHI_Descriptor.h:56-67 | a non-zero cache is returned as it is; otherwise type, slot, stage and array size are combined in that order from 0, and the result is stored |
| Descriptors.HashIsMemoised | runtime/RHI/RHI_Descriptor.h:56-67 | asking twice gives the same hash and the same descriptor |
| Descriptors.HashIgnoresUpdateFields | runtime/RHI/RHI_Descriptor.h:72-89 | descriptors that agree on type, slot, stage and array size hash alike, whatever their other fields |
| Descriptors.CopyHashesAlike | runtime/RHI/RHI_Descriptor.h:35-67 | a copy hashes like an original whose cache is empty or up to date |
| Descriptors.CacheIsNotInvalidated | runtime/RHI/RHI_Descriptor.h:56-92 | changing a hashed field after hashing leaves the stale cached hash in place |
| Descriptors.KindQueries | runtime/RHI/RHI_Descriptor.h:69-70 | IsStorage holds exactly for a storage texture and IsArray exactly for a positive array size; copying keeps both |

## Left out

- The Direct3D 11 API itself is an abstract device (`RhiDevice.Exec`). Only the state the command list reads back is modelled. Object creation, `Gpu_QueryCreate` and the `Get_Resource_View…` accessors become handles (`RhiResources.Texture`) or parameters.
- `SetGlobalShaderResources`, called at the end of `BeginRenderPass`, is renderer code and is not part of this model.
- The `Deferred_…` and `OnDraw` stubs are not modelled; they do nothing on this backend.
- `SetViewport` and `SetScissorRectangle` are not modelled beyond the viewport value a pass stores, because they are floating-point rectangles.
- The blend factor is an opaque value. `Timestamp_GetDuration` is modelled only up to the tick delta (`Queries.TimestampTicks`); its division by the frequency, in milliseconds, is floating point.
- The disjoint-query busy wait is not modelled: its result is the `disjoint` parameter.
- `SP_ASSERT` checks are preconditions (`requires`); the failure path of an assertion is not modelled.
- The shader-scope bit values (`RHI_Shader_Vertex` and so on) are a three-flag record (`Binding.Scope`). The values of the descriptor-type enumeration and `rhi_hash_combine` are parameters (`Descriptors.Hashing`), and the hash is an unbounded natural number.
- Logging (`LOG_ERROR` and the others) is not modelled.
- Image importer, FreeImage side:
  - FreeImage decoding, `ApplyBitmapCorrections`, 32-bit conversion and `FreeImage_Rescale` are parameters: a decoded `Bitmap` per `Source`, and a function from a size to its rescaled bytes.
  - Pixel contents and filter quality are not modelled.
- Image importer, threading: mip jobs run on worker threads and the importer busy-waits for them. The model writes every job's result in order, which is the state once the wait ends.
- `ImageImporter.Import`: the contents of mip 0 are stated only for a texture without earlier mips. With earlier mips, the code as written still targets indices 1 and up, so what those buffers hold depends on `RHI_Texture`'s storage. `RHI_Texture` is not part of this model.
- Editor:
  - ImGui drawing and the window state are not modelled.
  - The shipped contributor list is a literal table. `Contributors.RowsMatchEntries` takes the six-field shape of each entry as a premise instead of checking the literal.
- Entity:
  - transforms, serialisation, `IsActiveRecursively`, the child-management methods, `AddComponent(ComponentType)` and `RemoveComponentById` are not modelled;
  - `OnInitialize` and the event system are reduced to a "resolve fired" flag.
- `Entities.GetRoot`: the recursion in the source assumes an acyclic hierarchy. The model makes that a premise, with an explicit rank.
- `RenderTargets.CreateRenderTextures`:
  - formats, usage flags, `Flush` and the GPU objects are not modelled;
  - a target is its size and mip count;
  - the resolutions enter already truncated to unsigned integers.
- `Mesh.h`, `Cascade.cpp`, `D3D11InputLayout.h` and `PostProcessShader.h` are earlier engine code that provide context only. They are not part of this model.
- Clears.DepthStencilClear: the depth value is carried as an opaque number, not as the `FLOAT` the device receives.
- Clears.DepthStencilClear: Load and DontCare are a separate kind of value here, while in the engine they are in-band sentinel values; an explicit colour, depth or stencil equal to a sentinel, which the engine would skip, cannot be expressed.
- Clears.ClearRenderTarget: the same two limits apply: the depth is not a `FLOAT`, and the clear values cannot equal a sentinel.
- Clears.ClearRenderTarget: requires a texture unless the clear is a storage clear with Load or DontCare, which returns before touching it. No assertion guards the other paths; the source dereferences a null texture there and crashes: the UAV and mip views of an explicit storage clear (lines 399-407), the render-target test (line 409) and the colour and depth-stencil views (lines 418 and 434). Those crash paths are not modelled.
- RhiDevice.At: a view table read past its end gives null. `RHI_Texture` is not part of this model, so what `Get_Resource_Views_Srv` and `Get_Resource_Views_Uav` return for an out-of-range mip (possibly an out-of-bounds read) is a modelling choice. The Findings row and `Binding.WrittenRangedViewsAreShifted` rest on it, and the latter also takes as a premise that the mip table has fewer than 2^32 - 1 entries.
- Binding.SetTextureAsWritten: requires a texture for a ranged bind and a range of at most twelve views. The source crashes in both other cases: a ranged bind of a null texture dereferences it (line 646), and more than twelve views overflow the view array (line 671). Those crash paths are not modelled.
- Binding.SetTextureIntended: has the same two preconditions as the bind as written, for the same reason.
- The engine-to-Direct3D topology table is not part of this model. The device is modelled as holding the engine's topology code, which matches the source's comparison of table entries only if the table is injective. That injectivity is assumed, not proved.
- `Binding.SetBufferVertex`: requires a 64-bit offset, as the parameter type does. The handle held by the device is compared exactly, without D3D11 reference counting.

## Findings

| source | as written | input that shows it | evidently intended | confidence | as-written member | corrected member |
|---|---|---|---|---|---|---|
| Runtime/RHI/D3D11/D3D11_CommandList.cpp:668-672 | a ranged bind computes mip `mip + i` even when no mip was requested, and `mip` is then -1 | `SetTexture(slot, texture, -1, true)` on a texture with 4 mips: view 0 is mip 2^32 - 1, an out-of-range mip (null under `RhiDevice.At`), view i is mip i - 1, and the last mip is never bound; if the first slot is empty, nothing is bound at all | start at mip 0 when no mip is requested, as the range computation on line 646 already does | not executed | Binding.WrittenRangedBindIsDropped | Binding.IntendedRangedViewsStartAtMipZero |

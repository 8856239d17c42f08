/**
 The arithmetic and validation of the image importer: copying a bitmap's
 bytes into a mip buffer, the mip chain GenerateMipmaps builds, and the
 decisions Load takes. FreeImage itself (decoding, flipping, channel swaps,
 rescaling) is foreign code: the bitmaps it would produce are parameters.
 */
module ImageImporter {
  import opened Options
  import RenderTargets

  /** Largest value of an unsigned 32-bit integer plus one. */
  const UINT32: nat := 0x1_0000_0000

  type Byte = b: int | 0 <= b < 256

  /** A decoded bitmap: its size, whether it has transparency, and its pixel bytes. */
  datatype Bitmap = Bitmap(width: nat, height: nat, transparent: bool, bits: seq<Byte>)

  /** The texture as the importer fills it: properties and one byte buffer per mip. */
  datatype Image = Image(
    width: nat, height: nat, bpp: nat, channels: nat,
    transparent: bool, grayscale: bool,
    usesMipmaps: bool,
    mips: seq<seq<Byte>>)

  /** The byte count of a width x height x channels buffer, computed in unsigned 32-bit arithmetic. */
  function BufferSize(width: nat, height: nat, channels: nat): (n: nat)
    ensures n < UINT32
    ensures width * height * channels < UINT32 ==> n == width * height * channels
  {
    (width * height * channels) % UINT32
  }

  /**
   GetBitsFromFIBITMAP: refuses a missing buffer or a zero width, height or
   channel count; otherwise the buffer becomes exactly the first
   width x height x channels bytes of the bitmap.
   */
  function GetBits(data: Option<seq<Byte>>, bits: seq<Byte>, width: nat, height: nat, channels: nat): (r: (bool, Option<seq<Byte>>))
    requires data.Some? && width > 0 && height > 0 && channels > 0 ==> BufferSize(width, height, channels) <= |bits|
    ensures r.0 <==> data.Some? && width > 0 && height > 0 && channels > 0
    ensures !r.0 ==> r.1 == data
    ensures r.0 ==> (r.1.Some? && |r.1.value| == BufferSize(width, height, channels)
                     && r.1.value == bits[..BufferSize(width, height, channels)])
  {
    if data.None? || width == 0 || height == 0 || channels == 0 then (false, data)
    else (true, Some(bits[..BufferSize(width, height, channels)]))
  }

  /**
   The buffer GetBits fills is the front of the bitmap, so putting back the
   bytes it left out gives the bitmap again; and asking again with the buffer
   it produced gives the same answer.
   */
  lemma GetBitsRoundTrip(data: Option<seq<Byte>>, bits: seq<Byte>, width: nat, height: nat, channels: nat)
    requires data.Some? && width > 0 && height > 0 && channels > 0 ==> BufferSize(width, height, channels) <= |bits|
    ensures var r := GetBits(data, bits, width, height, channels);
      && (r.0 ==> r.1.value + bits[BufferSize(width, height, channels)..] == bits)
      && GetBits(r.1, bits, width, height, channels) == r
  {
    var r := GetBits(data, bits, width, height, channels);
    if r.0 {
      var n := BufferSize(width, height, channels);
      assert bits[..n] + bits[n..] == bits;
    }
  }

  /** One rescale job: the size of the mip it produces. */
  datatype Job = Job(width: nat, height: nat, channels: nat)

  function Max(a: nat, b: nat): nat { if a >= b then a else b }

  /**
   Reference definition of the mip chain: halve both sides (never below one)
   while both are above one, one job per step.
   */
  function MipChain(width: nat, height: nat, channels: nat): (r: seq<Job>)
    ensures forall i :: 0 <= i < |r| ==> r[i].width >= 1 && r[i].height >= 1 && r[i].channels == channels
    decreases width
  {
    if width > 1 && height > 1 then
      var w := Max(width / 2, 1);
      var h := Max(height / 2, 1);
      [Job(w, h, channels)] + MipChain(w, h, channels)
    else []
  }

  /** The loop of GenerateMipmaps that lists the jobs, one per halving. */
  method MipJobs(width: nat, height: nat, channels: nat) returns (jobs: seq<Job>)
    ensures jobs == MipChain(width, height, channels)
  {
    jobs := [];
    var w := width;
    var h := height;
    while w > 1 && h > 1
      invariant jobs + MipChain(w, h, channels) == MipChain(width, height, channels)
      decreases w
    {
      var w', h' := Max(w / 2, 1), Max(h / 2, 1);
      assert MipChain(w, h, channels) == [Job(w', h', channels)] + MipChain(w', h', channels);
      assert jobs + MipChain(w, h, channels) == (jobs + [Job(w', h', channels)]) + MipChain(w', h', channels);
      w, h := w', h';
      jobs := jobs + [Job(w, h, channels)];
    }
  }

  /**
   Job i is the image halved i + 1 times on each side: the clamp to one never
   takes effect, because halving stops as soon as a side reaches one.
   */
  lemma {:induction false} ChainIsHalving(width: nat, height: nat, channels: nat, i: nat)
    requires i < |MipChain(width, height, channels)|
    ensures MipChain(width, height, channels)[i] ==
      Job(RenderTargets.Halve(width, i + 1), RenderTargets.Halve(height, i + 1), channels)
    decreases i
  {
    var w := Max(width / 2, 1);
    var h := Max(height / 2, 1);
    assert w == width / 2 && h == height / 2;
    RenderTargets.HalveShift(width, i);
    RenderTargets.HalveShift(height, i);
    if i > 0 {
      ChainIsHalving(w, h, channels, i - 1);
    }
  }

  /**
   The chain stops at a mip one pixel wide or high, and every mip before
   the last has both sides above one.
   */
  lemma {:induction false} ChainEndsAtOnePixel(width: nat, height: nat, channels: nat)
    requires width > 1 && height > 1
    ensures var jobs := MipChain(width, height, channels);
      && jobs != []
      && (jobs[|jobs| - 1].width == 1 || jobs[|jobs| - 1].height == 1)
      && forall i :: 0 <= i < |jobs| - 1 ==> jobs[i].width > 1 && jobs[i].height > 1
    decreases width
  {
    var w := Max(width / 2, 1);
    var h := Max(height / 2, 1);
    if w > 1 && h > 1 {
      ChainEndsAtOnePixel(w, h, channels);
    }
  }

  /** Every job's rescaled bitmap holds at least the bytes its mip takes. */
  predicate RescalesFit(rescaled: (nat, nat) -> seq<Byte>, jobs: seq<Job>) {
    forall i :: 0 <= i < |jobs| ==>
      BufferSize(jobs[i].width, jobs[i].height, jobs[i].channels) <= |rescaled(jobs[i].width, jobs[i].height)|
  }

  /**
   GenerateMipmaps. A missing texture gets nothing. Otherwise one buffer per
   job is appended, and job i fills mip i + 1 from the bitmap rescaled to its
   size (`rescaled`, FreeImage's work); mip 0, the base image, is untouched.
   */
  function GenerateMipmaps(rescaled: (nat, nat) -> seq<Byte>, texture: Option<Image>,
                           width: nat, height: nat, channels: nat): (r: Option<Image>)
    requires texture.Some? ==> |texture.value.mips| >= 1
    requires RescalesFit(rescaled, MipChain(width, height, channels))
    ensures texture.None? ==> r.None?
    ensures texture.Some? ==> (r.Some?
      && r.value == texture.value.(mips := r.value.mips)
      && |r.value.mips| == |texture.value.mips| + |MipChain(width, height, channels)|
      && r.value.mips[0] == texture.value.mips[0])
    ensures texture.Some? && channels > 0 ==> forall k :: 1 <= k <= |MipChain(width, height, channels)| ==>
      var job := MipChain(width, height, channels)[k - 1];
      r.value.mips[k] == rescaled(job.width, job.height)[..BufferSize(job.width, job.height, channels)]
  {
    if texture.None? then None
    else
      var tex := texture.value;
      var jobs := MipChain(width, height, channels);
      var grown := Grown(tex.mips, jobs);
      Some(tex.(mips := Fill(rescaled, jobs, grown)))
  }

  /** The mip list with one zero-filled buffer per job appended. */
  function Grown(mips: seq<seq<Byte>>, jobs: seq<Job>): (r: seq<seq<Byte>>)
    ensures |r| == |mips| + |jobs|
    ensures r[..|mips|] == mips
    ensures forall i :: 0 <= i < |jobs| ==>
      r[|mips| + i] == Zeros(BufferSize(jobs[i].width, jobs[i].height, jobs[i].channels))
  {
    mips + seq(|jobs|, i requires 0 <= i < |jobs| =>
             Zeros(BufferSize(jobs[i].width, jobs[i].height, jobs[i].channels)))
  }

  /** Job i fills entry i + 1 of the mip list; every other entry stays as it is. */
  function Fill(rescaled: (nat, nat) -> seq<Byte>, jobs: seq<Job>, mips: seq<seq<Byte>>): (r: seq<seq<Byte>>)
    requires |jobs| < |mips|
    requires RescalesFit(rescaled, jobs)
    ensures |r| == |mips|
    ensures forall k :: 1 <= k <= |jobs| && jobs[k - 1].width > 0 && jobs[k - 1].height > 0 && jobs[k - 1].channels > 0 ==>
      r[k] == rescaled(jobs[k - 1].width, jobs[k - 1].height)[..BufferSize(jobs[k - 1].width, jobs[k - 1].height, jobs[k - 1].channels)]
    ensures forall k :: 0 <= k < |mips| && !(1 <= k <= |jobs|) ==> r[k] == mips[k]
    ensures forall k :: 1 <= k <= |jobs| && |mips[k]| == BufferSize(jobs[k - 1].width, jobs[k - 1].height, jobs[k - 1].channels) ==>
      |r[k]| == |mips[k]|
  {
    seq(|mips|, k requires 0 <= k < |mips| =>
      if 1 <= k <= |jobs| then FillJob(rescaled, jobs[k - 1], mips[k]) else mips[k])
  }

  /** A zero-filled buffer of n bytes, as resizing an empty vector produces. */
  function Zeros(n: nat): (r: seq<Byte>)
    ensures |r| == n
  {
    seq(n, _ => 0)
  }

  /** What one rescale job leaves in its mip buffer. */
  function FillJob(rescaled: (nat, nat) -> seq<Byte>, job: Job, buffer: seq<Byte>): (r: seq<Byte>)
    requires BufferSize(job.width, job.height, job.channels) <= |rescaled(job.width, job.height)|
    ensures job.width > 0 && job.height > 0 && job.channels > 0 ==>
      r == rescaled(job.width, job.height)[..BufferSize(job.width, job.height, job.channels)]
    ensures job.width == 0 || job.height == 0 || job.channels == 0 ==> r == buffer
  {
    var r := GetBits(Some(buffer), rescaled(job.width, job.height), job.width, job.height, job.channels);
    r.1.value
  }

  /**
   For a texture holding only its base image, job i fills exactly the mip it
   added, with width x height x channels bytes of its own size.
   */
  lemma MipSizes(rescaled: (nat, nat) -> seq<Byte>, tex: Image, width: nat, height: nat, channels: nat, i: nat)
    requires |tex.mips| == 1
    requires RescalesFit(rescaled, MipChain(width, height, channels))
    requires i < |MipChain(width, height, channels)|
    ensures var job := MipChain(width, height, channels)[i];
      var r := GenerateMipmaps(rescaled, Some(tex), width, height, channels);
      |r.value.mips[i + 1]| == BufferSize(job.width, job.height, job.channels)
  {
    var jobs := MipChain(width, height, channels);
    var grown := Grown(tex.mips, jobs);
    assert grown[1 + i] == Zeros(BufferSize(jobs[i].width, jobs[i].height, jobs[i].channels));
    assert GenerateMipmaps(rescaled, Some(tex), width, height, channels).value.mips == Fill(rescaled, jobs, grown);
  }

  /** Where Load's bitmap comes from. */
  datatype Source =
    | FileMissing                 // the path does not name a file
    | FormatUnsupported           // neither the header nor the extension gives a readable format
    | Decoded(bitmap: Bitmap)     // the bitmap after the 32-bit, flip and channel corrections

  /** Bits per pixel and channels of every imported image. */
  const IMAGE_BPP: nat := 32
  const IMAGE_CHANNELS: nat := 4

  /**
   Rescale only when the texture asks for a size (both sides non-zero) and
   the bitmap differs from it in both width and height.
   */
  predicate ShouldScale(tex: Image, bitmap: Bitmap) {
    tex.width != 0 && tex.height != 0 && bitmap.width != tex.width && bitmap.height != tex.height
  }

  /** The bitmap Load imports: the one rescaled to the texture's size when ShouldScale, else the decoded one. */
  function Chosen(tex: Image, decoded: Bitmap, rescaledToTexture: Bitmap): Bitmap {
    if ShouldScale(tex, decoded) then rescaledToTexture else decoded
  }

  /** What Load demands of a decoded bitmap: enough bytes for it and for every mip rescale. */
  predicate Importable(bitmap: Bitmap, mipBits: (nat, nat) -> seq<Byte>) {
    && BufferSize(bitmap.width, bitmap.height, IMAGE_CHANNELS) <= |bitmap.bits|
    && RescalesFit(mipBits, MipChain(bitmap.width, bitmap.height, IMAGE_CHANNELS))
  }

  /**
   The part of Load after decoding: the bitmap becomes a new mip, mips follow
   when the texture uses them, and the texture takes the bitmap's size with
   32 bits per pixel and 4 channels.
   */
  function Import(tex: Image, bitmap: Bitmap, mipBits: (nat, nat) -> seq<Byte>): (r: Image)
    requires Importable(bitmap, mipBits)
    ensures r.bpp == IMAGE_BPP && r.channels == IMAGE_CHANNELS
    ensures r.width == bitmap.width && r.height == bitmap.height
    ensures r.transparent == bitmap.transparent && !r.grayscale && r.usesMipmaps == tex.usesMipmaps
    ensures |r.mips| == |tex.mips| + 1 + (if tex.usesMipmaps then |MipChain(bitmap.width, bitmap.height, IMAGE_CHANNELS)| else 0)
    ensures tex.mips == [] && bitmap.width > 0 && bitmap.height > 0 ==>
      r.mips[0] == bitmap.bits[..BufferSize(bitmap.width, bitmap.height, IMAGE_CHANNELS)]
  {
    var base := GetBits(Some([]), bitmap.bits, bitmap.width, bitmap.height, IMAGE_CHANNELS);
    var withBase := tex.(mips := tex.mips + [if base.0 then base.1.value else []]);
    var withMips := if tex.usesMipmaps
                    then GenerateMipmaps(mipBits, Some(withBase), bitmap.width, bitmap.height, IMAGE_CHANNELS).value
                    else withBase;
    withMips.(bpp := IMAGE_BPP, width := bitmap.width, height := bitmap.height,
              channels := IMAGE_CHANNELS, transparent := bitmap.transparent, grayscale := false)
  }

  /**
   Load. A missing texture, a missing file or an unreadable format fail
   without touching the texture; a decoded bitmap is imported (see Import),
   rescaled first when ShouldScale.
   */
  function Load(source: Source, texture: Option<Image>, rescaledToTexture: Bitmap,
                mipBits: (nat, nat) -> seq<Byte>): (r: (bool, Option<Image>))
    requires texture.Some? && source.Decoded? && ShouldScale(texture.value, source.bitmap) ==>
      rescaledToTexture.width == texture.value.width && rescaledToTexture.height == texture.value.height
    requires texture.Some? && source.Decoded? ==>
      Importable(Chosen(texture.value, source.bitmap, rescaledToTexture), mipBits)
    ensures r.0 <==> texture.Some? && source.Decoded?
    ensures !r.0 ==> r.1 == texture
    ensures r.0 ==> r.1 == Some(Import(texture.value, Chosen(texture.value, source.bitmap, rescaledToTexture), mipBits))
    ensures r.0 && ShouldScale(texture.value, source.bitmap) ==>
      r.1.value.width == texture.value.width && r.1.value.height == texture.value.height
  {
    if texture.None? then (false, texture)
    else match source
      case FileMissing => (false, texture)
      case FormatUnsupported => (false, texture)
      case Decoded(decoded) =>
        (true, Some(Import(texture.value, Chosen(texture.value, decoded, rescaledToTexture), mipBits)))
  }

  /**
   A bitmap that differs from the texture's requested size in only one
   dimension is not rescaled: the texture takes the bitmap's own size.
   */
  lemma OneSidedMismatchKeepsBitmapSize(source: Source, tex: Image, rescaledToTexture: Bitmap,
                                        mipBits: (nat, nat) -> seq<Byte>)
    requires source.Decoded? && tex.width != 0 && tex.height != 0
    requires source.bitmap.width == tex.width && source.bitmap.height != tex.height
    requires Importable(source.bitmap, mipBits)
    ensures var r := Load(source, Some(tex), rescaledToTexture, mipBits);
      r.0 && r.1.value.height == source.bitmap.height && r.1.value.height != tex.height
  {
  }
}

/**
  Surface negotiation in `State::new`: choosing the surface format from the
  reported capabilities and building the first surface configuration.
 */
module Negotiation {
  import opened Platform

  /** The frame latency the bootstrap asks for (at most two frames in flight). */
  const DesiredMaximumFrameLatency: nat := 2

  /** Index of the first sRGB format, the one `iter().find(is_srgb)` stops at. */
  function FirstSrgb(formats: seq<TextureFormat>): (r: Option<nat>)
    ensures r.Some? ==> r.value < |formats| && formats[r.value].IsSrgb()
    ensures r.Some? ==> forall j :: 0 <= j < r.value ==> !formats[j].IsSrgb()
    ensures r.None? ==> forall j :: 0 <= j < |formats| ==> !formats[j].IsSrgb()
  {
    if |formats| == 0 then None
    else if formats[0].IsSrgb() then Some(0)
    else
      match FirstSrgb(formats[1..])
      case None => None
      case Some(i) => Some(i + 1)
  }

  ghost predicate HasSrgb(formats: seq<TextureFormat>) {
    exists k :: 0 <= k < |formats| && formats[k].IsSrgb()
  }

  /** `formats[k]` is sRGB and no format before it is. */
  ghost predicate IsFirstSrgb(formats: seq<TextureFormat>, k: nat) {
    k < |formats| && formats[k].IsSrgb() && forall j :: 0 <= j < k ==> !formats[j].IsSrgb()
  }

  /**
    The surface format: the first sRGB format in the reported order, or the
    first reported format when none is sRGB. The list must not be empty
    (the fallback indexes it at 0).
   */
  function SelectFormat(formats: seq<TextureFormat>): (f: TextureFormat)
    requires |formats| > 0
    ensures f in formats
    ensures f.IsSrgb() <==> HasSrgb(formats)
    ensures HasSrgb(formats) ==> exists k: nat :: IsFirstSrgb(formats, k) && formats[k] == f
    ensures !HasSrgb(formats) ==> f == formats[0]
  {
    match FirstSrgb(formats)
    case Some(i) => assert IsFirstSrgb(formats, i); formats[i]
    case None => formats[0]
  }

  /** Whatever position the first sRGB format has, it is the one selected. */
  lemma SelectFormatIsFirstSrgb(formats: seq<TextureFormat>, k: nat)
    requires IsFirstSrgb(formats, k)
    ensures SelectFormat(formats) == formats[k]
  {
    var i := FirstSrgb(formats).value;
    assert !(i < k) by { assert formats[i].IsSrgb(); }
    assert !(k < i) by { assert formats[k].IsSrgb(); }
  }

  /** The sRGB formats, in reported order: an independent description of the search. */
  function SrgbFormats(formats: seq<TextureFormat>): (s: seq<TextureFormat>)
    ensures forall f :: f in s ==> f in formats && f.IsSrgb()
  {
    if |formats| == 0 then []
    else (if formats[0].IsSrgb() then [formats[0]] else []) + SrgbFormats(formats[1..])
  }

  lemma {:induction false} FirstSrgbHeadsSrgbFormats(formats: seq<TextureFormat>)
    ensures FirstSrgb(formats).None? <==> SrgbFormats(formats) == []
    ensures FirstSrgb(formats).Some? ==>
      SrgbFormats(formats)[0] == formats[FirstSrgb(formats).value]
  {
    if |formats| > 0 && !formats[0].IsSrgb() {
      FirstSrgbHeadsSrgbFormats(formats[1..]);
      assert SrgbFormats(formats) == SrgbFormats(formats[1..]);
    }
  }

  /** Format selection is "head of the sRGB formats, else head of all formats". */
  lemma SelectFormatViaFilter(formats: seq<TextureFormat>)
    requires |formats| > 0
    ensures SelectFormat(formats) ==
      if SrgbFormats(formats) != [] then SrgbFormats(formats)[0] else formats[0]
  {
    FirstSrgbHeadsSrgbFormats(formats);
  }

  /** The configuration uses a format, present mode and alpha mode the surface reported. */
  ghost predicate Supported(caps: SurfaceCapabilities, config: SurfaceConfiguration) {
    config.format in caps.formats &&
    config.presentMode in caps.presentModes &&
    config.alphaMode in caps.alphaModes
  }

  /**
    The configuration `State::new` builds from the capabilities and the
    window's inner size. The three lists must be non-empty (each is indexed
    at 0); the size may be zero.
   */
  function InitialConfig(caps: SurfaceCapabilities, size: PhysicalSize): (c: SurfaceConfiguration)
    requires |caps.formats| > 0 && |caps.presentModes| > 0 && |caps.alphaModes| > 0
    ensures Supported(caps, c)
    ensures c.format.IsSrgb() <==> HasSrgb(caps.formats)
    ensures c.format == SelectFormat(caps.formats)
    ensures c.width == size.width && c.height == size.height
    ensures c.presentMode == caps.presentModes[0] && c.alphaMode == caps.alphaModes[0]
    ensures c.desiredMaximumFrameLatency == 2
    ensures c.usage == RenderAttachment && c.viewFormats == []
  {
    SurfaceConfiguration(
      usage := RenderAttachment,
      format := SelectFormat(caps.formats),
      width := size.width,
      height := size.height,
      presentMode := caps.presentModes[0],
      desiredMaximumFrameLatency := DesiredMaximumFrameLatency,
      alphaMode := caps.alphaModes[0],
      viewFormats := [])
  }
}

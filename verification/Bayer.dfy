/** The RGB to Bayer conversion: the kernel's two-pixel loop over a lookup table, and the per-pixel tool. */
module Bayer {
  import opened Words

  const MAX_SAMPLE: u16 := 1023

  /** A packed RGB format: bytes per pixel and the offset of each channel. */
  datatype Layout = Layout(stride: nat, red: nat, green: nat, blue: nat) {
    predicate Valid() { red < stride && green < stride && blue < stride }
  }

  const BGR32 := Layout(4, 2, 1, 0)
  const RGB32 := Layout(4, 0, 1, 2)
  const BGR24 := Layout(3, 2, 1, 0)
  const RGB24 := Layout(3, 0, 1, 2)

  datatype Channel = Red | Green | Blue

  function Offset(l: Layout, c: Channel): nat {
    match c case Red => l.red case Green => l.green case Blue => l.blue
  }

  /** The channel the RGGB mosaic samples at a pixel. */
  function Mosaic(y: nat, x: nat): Channel {
    if y % 2 == 0 then (if x % 2 == 0 then Red else Green)
    else if x % 2 == 0 then Green else Blue
  }

  /** An 8-bit sample scaled to 10 bits, rounded. */
  function Scaled(sample: byte): (v: u16)
    ensures v <= MAX_SAMPLE
  {
    var n: int := sample * 1023 + 127;
    n / 255
  }

  /** Rounding to the nearest: the scaled value is off by at most half a step. */
  lemma ScaledIsRounded(sample: byte)
    ensures -127 <= 255 * Scaled(sample) - 1023 * sample <= 127
    ensures Scaled(0) == 0 && Scaled(255) == MAX_SAMPLE
  {
  }

  // Where pixels lie.

  /** The first byte of a pixel, in an image of rows of w pixels. */
  function PixelAt(y: nat, x: nat, w: nat, stride: nat): nat {
    y * (w * stride) + x * stride
  }

  lemma PixelInside(y: nat, x: nat, w: nat, h: nat, stride: nat)
    requires y < h && x < w
    ensures PixelAt(y, x, w, stride) + stride <= h * (w * stride)
  {
    MulMono(x + 1, w, stride);
    MulMono(y + 1, h, w * stride);
  }

  /** A buffer of n bytes holds an image of h rows of w pixels. */
  predicate Holds(l: Layout, w: nat, h: nat, n: nat) {
    l.Valid() && h * (w * l.stride) <= n
  }

  lemma ChannelInside(l: Layout, w: nat, h: nat, n: nat, y: nat, x: nat, c: Channel)
    requires Holds(l, w, h, n) && y < h && x < w
    ensures PixelAt(y, x, w, l.stride) + Offset(l, c) < PixelAt(y, x, w, l.stride) + l.stride <= n
  {
    PixelInside(y, x, w, h, l.stride);
  }

  lemma NextPixel(y: nat, x: nat, w: nat, stride: nat)
    ensures PixelAt(y, x + 1, w, stride) == PixelAt(y, x, w, stride) + stride
  {
  }

  /** The first pixel of a row. */
  function RowStart(y: nat, w: nat): nat { y * w }

  lemma RowInside(y: nat, w: nat, h: nat)
    requires y < h
    ensures RowStart(y, w) + w == RowStart(y + 1, w) <= RowStart(h, w)
  {
    MulMono(y + 1, h, w);
  }

  /** The value of a pixel of the mosaic. */
  function Sample(l: Layout, src: seq<byte>, w: nat, h: nat, y: nat, x: nat): (v: u16)
    requires Holds(l, w, h, |src|) && y < h && x < w
    ensures v <= MAX_SAMPLE
  {
    ChannelInside(l, w, h, |src|, y, x, Mosaic(y, x));
    Scaled(src[PixelAt(y, x, w, l.stride) + Offset(l, Mosaic(y, x))])
  }

  /** A row of the mosaic over an earlier row: pixels in pairs, a last odd pixel keeps its old value. */
  function PairedRow(l: Layout, src: seq<byte>, w: nat, h: nat, y: nat, before: seq<u16>): (row: seq<u16>)
    requires Holds(l, w, h, |src|) && y < h && |before| == w
    ensures |row| == w
  {
    seq(w, x requires 0 <= x < w => if x < w - w % 2 then Sample(l, src, w, h, y, x) else before[x])
  }

  function RowOf(s: seq<u16>, y: nat, w: nat): (row: seq<u16>)
    requires RowStart(y, w) + w <= |s|
    ensures |row| == w
  {
    s[RowStart(y, w)..RowStart(y, w) + w]
  }

  // The kernel's conversion.

  class BayerConverter {
    const sampleLut: array<u16>

    constructor ()
      ensures Valid() && fresh(sampleLut)
    {
      sampleLut := new u16[256](i => if 0 <= i < 256 then Scaled(i) else 0);
    }

    ghost predicate Valid()
      reads sampleLut
    {
      sampleLut.Length == 256 && forall i: byte :: sampleLut[i] == Scaled(i)
    }

    /** Two pixels at a time; the channel of each depends on the parity of the row. */
    method ConvertRow(l: Layout, src: array<byte>, w: nat, h: nat, y: nat, dst: array<u16>, p: nat)
      requires Valid() && Holds(l, w, h, src.Length) && y < h
      requires p + w <= dst.Length && dst != sampleLut
      modifies dst
      ensures Sampled(l, src[..], w, h, y, old(dst[..]), dst[..], p, w - w % 2)
    {
      hide Holds, PixelAt, Sampled, Sample, Mosaic, Scaled;
      ghost var bytes, before := src[..], dst[..];
      NothingSampled(l, bytes, w, h, y, before, p);
      var first := if y % 2 == 0 then l.red else l.green;
      var second := if y % 2 == 0 then l.green else l.blue;
      var x := 0;
      while x + 1 < w
        invariant x % 2 == 0 && x <= w
        invariant Sampled(l, bytes, w, h, y, before, dst[..], p, x)
      {
        PairOfPixels(l, bytes, w, h, y, x);
        var pixel0 := PixelAt(y, x, w, l.stride);
        var pixel1 := pixel0 + l.stride;
        ghost var s := dst[..];
        dst[p + x] := sampleLut[src[pixel0 + first]];
        SampledMore(l, bytes, w, h, y, before, s, dst[..], p, x);
        s := dst[..];
        dst[p + x + 1] := sampleLut[src[pixel1 + second]];
        SampledMore(l, bytes, w, h, y, before, s, dst[..], p, x + 1);
        x := x + 2;
      }
      EvenPart(x, w);
    }

    /** The whole frame, row by row. */
    method Convert(l: Layout, src: array<byte>, w: nat, h: nat, dst: array<u16>)
      requires Valid() && Holds(l, w, h, src.Length) && RowStart(h, w) <= dst.Length && dst != sampleLut
      modifies dst
      ensures KernelFrame(l, src[..], w, h, old(dst[..]), dst[..], h)
    {
      hide Holds, KernelFrame, Sampled;
      ghost var bytes, before := src[..], dst[..];
      NoRows(l, bytes, w, h, before);
      var y := 0;
      while y < h
        invariant y <= h
        invariant KernelFrame(l, bytes, w, h, before, dst[..], y)
      {
        ghost var s := dst[..];
        RowInside(y, w, h);
        ConvertRow(l, src, w, h, y, dst, y * w);
        RowAdded(l, bytes, w, h, before, s, dst[..], y);
        y := y + 1;
      }
    }
  }

  /** The first rows are converted, and nothing behind them is touched. */
  ghost predicate KernelFrame(l: Layout, src: seq<byte>, w: nat, h: nat, before: seq<u16>, after: seq<u16>, rows: nat)
    requires Holds(l, w, h, |src|) && rows <= h
  {
    && |after| == |before|
    && (forall y :: 0 <= y < rows ==>
          && RowStart(y, w) + w <= |before|
          && RowOf(after, y, w) == PairedRow(l, src, w, h, y, RowOf(before, y, w)))
    && (forall k :: RowStart(rows, w) <= k < |after| ==> after[k] == before[k])
  }

  lemma NoRows(l: Layout, src: seq<byte>, w: nat, h: nat, before: seq<u16>)
    requires Holds(l, w, h, |src|)
    ensures KernelFrame(l, src, w, h, before, before, 0)
  {
  }

  lemma SampledRow(l: Layout, src: seq<byte>, w: nat, h: nat, y: nat, s: seq<u16>, s': seq<u16>, p: nat)
    requires Holds(l, w, h, |src|) && y < h && Sampled(l, src, w, h, y, s, s', p, w - w % 2)
    ensures s'[p..p + w] == PairedRow(l, src, w, h, y, s[p..p + w])
  {
    hide Sample, Holds;
  }

  lemma SampledKeepsRow(l: Layout, src: seq<byte>, w: nat, h: nat, y: nat, s: seq<u16>, s': seq<u16>, p: nat, y': nat)
    requires Holds(l, w, h, |src|) && y < h && Sampled(l, src, w, h, y, s, s', p, w - w % 2)
    requires p == RowStart(y, w) && y' < y
    ensures RowStart(y', w) + w <= p && RowOf(s', y', w) == RowOf(s, y', w)
  {
    hide Sample, Holds;
    RowInside(y', w, y);
  }

  lemma SampledKeepsTail(l: Layout, src: seq<byte>, w: nat, h: nat, y: nat, before: seq<u16>, s: seq<u16>, s': seq<u16>,
                         p: nat)
    requires Holds(l, w, h, |src|) && y < h && Sampled(l, src, w, h, y, s, s', p, w - w % 2)
    requires p == RowStart(y, w) && |s| == |before| && forall k :: p <= k < |s| ==> s[k] == before[k]
    ensures |s'| == |before| && forall k :: RowStart(y + 1, w) <= k < |s'| ==> s'[k] == before[k]
  {
    hide Sample, Holds;
    RowInside(y, w, y + 1);
  }

  lemma RowAdded(l: Layout, src: seq<byte>, w: nat, h: nat, before: seq<u16>, s: seq<u16>, s': seq<u16>, y: nat)
    requires Holds(l, w, h, |src|) && y < h && RowStart(y, w) + w <= |before|
    requires KernelFrame(l, src, w, h, before, s, y)
    requires Sampled(l, src, w, h, y, s, s', RowStart(y, w), w - w % 2)
    ensures KernelFrame(l, src, w, h, before, s', y + 1)
  {
    hide Sample, Holds, PairedRow, Sampled, RowStart;
    var p := RowStart(y, w);
    SampledRow(l, src, w, h, y, s, s', p);
    assert RowOf(s, y, w) == RowOf(before, y, w);
    SampledKeepsTail(l, src, w, h, y, before, s, s', p);
    forall y' | 0 <= y' < y
      ensures RowStart(y', w) + w <= |before|
      ensures RowOf(s', y', w) == PairedRow(l, src, w, h, y', RowOf(before, y', w))
    {
      SampledKeepsRow(l, src, w, h, y, s, s', p, y');
    }
  }

  lemma EvenPart(x: nat, w: nat)
    requires x % 2 == 0 && x <= w <= x + 1
    ensures x == w - w % 2
  {
  }

  lemma PairOfPixels(l: Layout, src: seq<byte>, w: nat, h: nat, y: nat, x: nat)
    requires Holds(l, w, h, |src|) && y < h && x + 1 < w && x % 2 == 0
    ensures
      var pixel0 := PixelAt(y, x, w, l.stride);
      var pixel1 := pixel0 + l.stride;
      var first := if y % 2 == 0 then l.red else l.green;
      var second := if y % 2 == 0 then l.green else l.blue;
      && pixel0 + first < |src| && Sample(l, src, w, h, y, x) == Scaled(src[pixel0 + first])
      && pixel1 + second < |src| && Sample(l, src, w, h, y, x + 1) == Scaled(src[pixel1 + second])
  {
    hide PixelAt, Holds, Scaled;
    NextPixel(y, x, w, l.stride);
    ChannelInside(l, w, h, |src|, y, x, Mosaic(y, x));
    ChannelInside(l, w, h, |src|, y, x + 1, Mosaic(y, x + 1));
  }

  /** The first n pixels of the row at p are converted, and nothing else is touched. */
  ghost predicate Sampled(l: Layout, src: seq<byte>, w: nat, h: nat, y: nat, before: seq<u16>, s: seq<u16>,
                          p: nat, n: nat)
    requires Holds(l, w, h, |src|) && y < h && n <= w
  {
    && |s| == |before| && p + w <= |s|
    && forall k :: 0 <= k < |s| ==>
         s[k] == if p <= k < p + n then Sample(l, src, w, h, y, k - p) else before[k]
  }

  lemma NothingSampled(l: Layout, src: seq<byte>, w: nat, h: nat, y: nat, before: seq<u16>, p: nat)
    requires Holds(l, w, h, |src|) && y < h && p + w <= |before|
    ensures Sampled(l, src, w, h, y, before, before, p, 0)
  {
  }

  lemma SampledMore(l: Layout, src: seq<byte>, w: nat, h: nat, y: nat, before: seq<u16>, s: seq<u16>, s': seq<u16>,
                    p: nat, x: nat)
    requires Holds(l, w, h, |src|) && y < h && x < w
    requires Sampled(l, src, w, h, y, before, s, p, x)
    requires s' == s[p + x := Sample(l, src, w, h, y, x)]
    ensures Sampled(l, src, w, h, y, before, s', p, x + 1)
  {
    hide Sample;
  }

  // The per-pixel tool.

  function Pow2(n: nat): (r: nat)
    ensures r > 0
  {
    if n == 0 then 1 else 2 * Pow2(n - 1)
  }

  /** A sample scaled to 10 bits and shifted left; shifts of at most six bits keep it in 16 bits. */
  function ToRaw10(sample: byte, shift: nat): (v: u16)
    requires shift <= 6
  {
    assert Pow2(6) == 64;
    Pow2Grows(shift, 6);
    MulMono(Scaled(sample), 1023, Pow2(shift));
    ShiftedBy(Scaled(sample), Pow2(shift))
  }

  function ShiftedBy(a: nat, b: nat): nat { a * b }

  lemma {:induction false} Pow2Grows(a: nat, b: nat)
    requires a <= b
    ensures Pow2(a) <= Pow2(b)
  {
    if a < b {
      Pow2Grows(a, b - 1);
    }
  }

  /** The tool's value of a pixel of an RGB24 image. */
  function ToolSample(rgb: seq<byte>, w: nat, h: nat, y: nat, x: nat, shift: nat): u16
    requires Holds(RGB24, w, h, |rgb|) && y < h && x < w && shift <= 6
  {
    ChannelInside(RGB24, w, h, |rgb|, y, x, Mosaic(y, x));
    ToRaw10(rgb[PixelAt(y, x, w, 3) + Offset(RGB24, Mosaic(y, x))], shift)
  }

  ghost predicate ToolPixel(rgb: seq<byte>, w: nat, h: nat, shift: nat, raw: seq<u16>, y: nat, x: nat)
    requires Holds(RGB24, w, h, |rgb|) && shift <= 6 && y < h && x < w
  {
    RowStart(y, w) + w <= |raw| && RowOf(raw, y, w)[x] == ToolSample(rgb, w, h, y, x, shift)
  }

  /** The first rows of the frame, and the first n pixels of the next, hold the tool's values. */
  ghost predicate ToolFrame(rgb: seq<byte>, w: nat, h: nat, shift: nat, raw: seq<u16>, rows: nat, n: nat)
    requires Holds(RGB24, w, h, |rgb|) && shift <= 6
  {
    && |raw| == RowStart(h, w)
    && forall y, x :: 0 <= y < h && 0 <= x < w && (y < rows || (y == rows && x < n)) ==>
         ToolPixel(rgb, w, h, shift, raw, y, x)
  }

  lemma TripleIndex(y: nat, x: nat, w: nat)
    ensures (y * w + x) * 3 == PixelAt(y, x, w, 3)
  {
    assert y * (w * 3) == y * w * 3;
  }

  lemma OtherPixelKept(rgb: seq<byte>, w: nat, h: nat, shift: nat, raw: seq<u16>, y: nat, x: nat, v: u16,
                       y': nat, x': nat)
    requires Holds(RGB24, w, h, |rgb|) && shift <= 6
    requires y < h && y' < h && x < w && x' < w && RowStart(y, w) + w <= |raw|
    requires y' < y || (y' == y && x' < x)
    requires ToolPixel(rgb, w, h, shift, raw, y', x')
    ensures ToolPixel(rgb, w, h, shift, raw[RowStart(y, w) + x := v], y', x')
  {
    hide Holds, ToolSample, RowStart;
    if y' < y {
      RowInside(y', w, y);
    }
  }

  lemma PixelWritten(rgb: seq<byte>, w: nat, h: nat, shift: nat, raw: seq<u16>, y: nat, x: nat)
    requires Holds(RGB24, w, h, |rgb|) && shift <= 6 && y < h && x < w && RowStart(y, w) + w <= |raw|
    ensures ToolPixel(rgb, w, h, shift, raw[RowStart(y, w) + x := ToolSample(rgb, w, h, y, x, shift)], y, x)
  {
    hide Holds, ToolSample, RowStart;
  }

  lemma ToolPixelAdded(rgb: seq<byte>, w: nat, h: nat, shift: nat, raw: seq<u16>, raw': seq<u16>, y: nat, x: nat)
    requires Holds(RGB24, w, h, |rgb|) && shift <= 6 && y < h && x < w
    requires ToolFrame(rgb, w, h, shift, raw, y, x)
    requires RowStart(y, w) + w <= |raw| && raw' == raw[RowStart(y, w) + x := ToolSample(rgb, w, h, y, x, shift)]
    ensures ToolFrame(rgb, w, h, shift, raw', y, x + 1)
  {
    hide Holds, ToolSample, ToolPixel, RowStart;
    PixelWritten(rgb, w, h, shift, raw, y, x);
    forall y', x' | 0 <= y' < h && 0 <= x' < w && (y' < y || (y' == y && x' < x + 1))
      ensures ToolPixel(rgb, w, h, shift, raw', y', x')
    {
      if y' < y || x' < x {
        OtherPixelKept(rgb, w, h, shift, raw, y, x, raw'[RowStart(y, w) + x], y', x');
      }
    }
  }

  method ToolConvert(rgb: array<byte>, w: nat, h: nat, shift: nat, raw: array<u16>)
    requires Holds(RGB24, w, h, rgb.Length) && raw.Length == RowStart(h, w) && shift <= 6
    modifies raw
    ensures ToolFrame(rgb[..], w, h, shift, raw[..], h, 0)
  {
    hide Holds, ToolFrame, ToRaw10, PixelAt;
    ghost var bytes := rgb[..];
    NoPixels(bytes, w, h, shift, raw[..]);
    var y := 0;
    while y < h
      invariant y <= h && ToolFrame(bytes, w, h, shift, raw[..], y, 0)
    {
      RowInside(y, w, h);
      var x := 0;
      while x < w
        invariant x <= w && ToolFrame(bytes, w, h, shift, raw[..], y, x)
      {
        TripleIndex(y, x, w);
        ChannelInside(RGB24, w, h, |bytes|, y, x, Blue);
        var rgbIndex := (y * w + x) * 3;
        var sample;
        if y % 2 == 0 {
          sample := if x % 2 == 0 then rgb[rgbIndex] else rgb[rgbIndex + 1];
        } else {
          sample := if x % 2 == 0 then rgb[rgbIndex + 1] else rgb[rgbIndex + 2];
        }
        ghost var s := raw[..];
        raw[y * w + x] := ToRaw10(sample, shift);
        ToolPixelAdded(bytes, w, h, shift, s, raw[..], y, x);
        x := x + 1;
      }
      RowDone(bytes, w, h, shift, raw[..], y);
      y := y + 1;
    }
  }

  lemma NoPixels(rgb: seq<byte>, w: nat, h: nat, shift: nat, raw: seq<u16>)
    requires Holds(RGB24, w, h, |rgb|) && shift <= 6 && |raw| == RowStart(h, w)
    ensures ToolFrame(rgb, w, h, shift, raw, 0, 0)
  {
  }

  lemma RowDone(rgb: seq<byte>, w: nat, h: nat, shift: nat, raw: seq<u16>, y: nat)
    requires Holds(RGB24, w, h, |rgb|) && shift <= 6 && ToolFrame(rgb, w, h, shift, raw, y, w)
    ensures ToolFrame(rgb, w, h, shift, raw, y + 1, 0)
  {
    hide Holds, ToolSample, ToolPixel, RowStart;
  }

  // The two agree.

  /** Two images, in any two layouts, with the same channels at every pixel. */
  ghost predicate SameImage(l: Layout, src: seq<byte>, l': Layout, src': seq<byte>, w: nat, h: nat)
    requires Holds(l, w, h, |src|) && Holds(l', w, h, |src'|)
  {
    forall y, x, c :: 0 <= y < h && 0 <= x < w ==>
      ChannelOf(l, src, w, h, y, x, c) == ChannelOf(l', src', w, h, y, x, c)
  }

  function ChannelOf(l: Layout, src: seq<byte>, w: nat, h: nat, y: nat, x: nat, c: Channel): byte
    requires Holds(l, w, h, |src|) && y < h && x < w
  {
    ChannelInside(l, w, h, |src|, y, x, c);
    src[PixelAt(y, x, w, l.stride) + Offset(l, c)]
  }

  lemma ToolIsScaled(sample: byte)
    ensures ToRaw10(sample, 0) == Scaled(sample)
  {
  }

  lemma SamplesAgree(l: Layout, src: seq<byte>, rgb: seq<byte>, w: nat, h: nat, y: nat, x: nat)
    requires Holds(l, w, h, |src|) && Holds(RGB24, w, h, |rgb|) && SameImage(l, src, RGB24, rgb, w, h)
    requires y < h && x < w
    ensures Sample(l, src, w, h, y, x) == ToolSample(rgb, w, h, y, x, 0)
  {
    hide Holds, PixelAt, Scaled, ToRaw10;
    var c := Mosaic(y, x);
    assert ChannelOf(l, src, w, h, y, x, c) == ChannelOf(RGB24, rgb, w, h, y, x, c);
    ToolIsScaled(ChannelOf(l, src, w, h, y, x, c));
  }

  /**
    * The kernel's frame and the tool's frame of the same image agree in every pixel of the even part of each
    * row, whatever the layout, so in every pixel when the width is even; a last odd column is not written
    * by the kernel. No kernel sample exceeds 1023.
    */
  lemma {:induction false} KernelAgreesWithTool(l: Layout, src: seq<byte>, rgb: seq<byte>, w: nat, h: nat,
                                               before: seq<u16>, frame: seq<u16>, raw: seq<u16>, y: nat, x: nat)
    requires Holds(l, w, h, |src|) && Holds(RGB24, w, h, |rgb|) && SameImage(l, src, RGB24, rgb, w, h)
    requires KernelFrame(l, src, w, h, before, frame, h) && ToolFrame(rgb, w, h, 0, raw, h, 0)
    requires y < h && x < w
    ensures RowStart(y, w) + w <= |frame| && RowStart(y, w) + w <= |raw|
    ensures w % 2 == 0 || x < w - 1 ==>
      RowOf(frame, y, w)[x] == RowOf(raw, y, w)[x] <= MAX_SAMPLE
    ensures w % 2 == 1 && x == w - 1 ==> RowOf(frame, y, w)[x] == RowOf(before, y, w)[x]
  {
    hide Holds, Sample, ToolSample, SameImage, RowOf, RowStart;
    RowInside(y, w, h);
    SamplesAgree(l, src, rgb, w, h, y, x);
    assert RowOf(frame, y, w) == PairedRow(l, src, w, h, y, RowOf(before, y, w));
    assert ToolPixel(rgb, w, h, 0, raw, y, x);
  }
}

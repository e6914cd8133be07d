/** `compareImages` and `cropImage` (tests/docx-compat/run-tests.ts): the screenshot and the
    reference are compared over their common top-left region. An image larger than that
    region is copied, row by row, into a fresh RGBA buffer of exactly that size. The
    perceptual pixel comparison itself is not modelled: its result is a count of
    differing pixels, at most the region's area. */
module Comparator {
  import opened Wrappers

  /** The default tolerated share of differing pixels (`PIXEL_DIFF_THRESHOLD`). */
  const DefaultPixelDiffThreshold: real := 0.05

  /** Bytes per pixel in a decoded PNG buffer (red, green, blue, alpha). */
  const Channels: nat := 4

  /** A decoded image: its size and its RGBA bytes, row after row. */
  datatype Png = Png(width: nat, height: nat, data: array<byte>)

  predicate ValidPng(p: Png)
    reads p.data
  {
    p.data.Length == p.width * p.height * Channels
  }

  /** The buffer is `height` rows of `width * Channels` bytes. */
  lemma ValidPngRows(p: Png)
    requires ValidPng(p)
    ensures p.data.Length == p.height * (p.width * Channels)
  {
    assert p.width * p.height * Channels == p.height * (p.width * Channels);
  }

  /** A JavaScript number as the comparison can produce it: a real, or NaN (0 / 0). */
  datatype Ratio = Finite(value: real) | NotANumber

  /** `r <= t` in JavaScript: false whenever `r` is NaN. */
  predicate AtMost(r: Ratio, t: real) {
    r.Finite? && r.value <= t
  }

  function Min(a: nat, b: nat): (m: nat)
    ensures m <= a && m <= b && (m == a || m == b)
  {
    if a <= b then a else b
  }

  // ---------------------------------------------------------------- cropping

  /** The first `h` rows of an image `srcW` pixels wide, each cut to its first `w` pixels:
      what `bitblt` copies into a `w` x `h` buffer. */
  function CropRows(src: seq<byte>, srcW: nat, w: nat, h: nat): (r: seq<byte>)
    requires w <= srcW && h * (srcW * Channels) <= |src|
    ensures |r| == h * (w * Channels)
    decreases h
  {
    if h == 0 then []
    else
      var start := (h - 1) * (srcW * Channels);
      MulStep(h - 1, h, srcW * Channels);
      MulStep(h - 1, h, w * Channels);
      CropRows(src, srcW, w, h - 1) + src[start .. start + w * Channels]
  }

  /** One more row of the crop: the source row cut to `w` pixels. */
  lemma CropRowsStep(src: seq<byte>, srcW: nat, w: nat, y: nat, base: nat, srcBase: nat)
    requires w <= srcW && (y + 1) * (srcW * Channels) <= |src|
    requires base == y * (w * Channels) && srcBase == y * (srcW * Channels)
    ensures srcBase + w * Channels <= |src|
    ensures CropRows(src, srcW, w, y + 1) == CropRows(src, srcW, w, y) + src[srcBase .. srcBase + w * Channels]
  {
    MulStep(y, y + 1, srcW * Channels);
    MulMono(w, srcW, Channels);
  }

  /** `y * k + k <= h * k` once `y < h`. */
  lemma MulStep(y: nat, h: nat, k: nat)
    requires y < h
    ensures y * k + k <= h * k
    ensures (y + 1) * k == y * k + k
  {
    var d: nat := h - y - 1;
    Distrib(y, 1, k);
    Distrib(y + 1, d, k);
    assert h == (y + 1) + d;
  }

  lemma MulMono(a: nat, b: nat, k: nat)
    requires a <= b
    ensures a * k <= b * k
  {
    var d: nat := b - a;
    Distrib(a, d, k);
    assert b == a + d;
  }

  lemma {:induction false} Distrib(a: nat, b: nat, k: nat)
    ensures (a + b) * k == a * k + b * k
    ensures a * k >= 0
    decreases b
  {
    if b > 0 {
      Distrib(a, b - 1, k);
    }
  }

  /** Where a pixel's channel sits in a buffer `w` pixels wide. */
  lemma PixelOffset(x: nat, y: nat, w: nat, c: nat)
    ensures (y * w + x) * Channels + c == y * (w * Channels) + (x * Channels + c)
  {
    assert (y * w + x) * Channels == y * w * Channels + x * Channels;
    assert y * w * Channels == y * (w * Channels);
  }

  /** Cropping keeps each pixel in place: pixel (x, y) of the crop is pixel (x, y) of the
      source, channel by channel. */
  lemma {:induction false} CropPixel(src: seq<byte>, srcW: nat, w: nat, h: nat, x: nat, y: nat, c: nat)
    requires w <= srcW && h * (srcW * Channels) <= |src|
    requires x < w && y < h && c < Channels
    ensures (y * w + x) * Channels + c < h * (w * Channels)
    ensures (y * srcW + x) * Channels + c < |src|
    ensures CropRows(src, srcW, w, h)[(y * w + x) * Channels + c] == src[(y * srcW + x) * Channels + c]
    decreases h
  {
    PixelOffset(x, y, w, c);
    PixelOffset(x, y, srcW, c);
    MulStep(y, h, w * Channels);
    MulStep(y, h, srcW * Channels);
    MulMono(x, w, Channels);
    MulMono(x, srcW, Channels);
    if y < h - 1 {
      CropPixel(src, srcW, w, h - 1, x, y, c);
      MulStep(y, h - 1, w * Channels);
    } else {
      var start := (h - 1) * (srcW * Channels);
      var prefix := CropRows(src, srcW, w, h - 1);
      assert |prefix| == y * (w * Channels);
      var row := src[start .. start + w * Channels];
      assert CropRows(src, srcW, w, h) == prefix + row;
      assert row[x * Channels + c] == src[start + x * Channels + c];
    }
  }

  /** An image already of the region's size is its own crop. */
  lemma {:induction false} CropWhole(src: seq<byte>, w: nat, h: nat)
    requires h * (w * Channels) <= |src|
    ensures CropRows(src, w, w, h) == src[..h * (w * Channels)]
    decreases h
  {
    if h > 0 {
      CropWhole(src, w, h - 1);
      MulStep(h - 1, h, w * Channels);
      var start := (h - 1) * (w * Channels);
      assert src[..start] + src[start .. start + w * Channels] == src[..start + w * Channels];
    }
  }

  /** `cropImage(png, width, height)`: a fresh `width` x `height` RGBA buffer holding the
      top-left region of `png`. */
  method CropImage(png: Png, width: nat, height: nat) returns (dst: array<byte>)
    requires ValidPng(png) && width <= png.width && height <= png.height
    ensures fresh(dst)
    ensures dst[..] == CropRows(png.data[..], png.width, width, height)
  {
    var src := png.data;
    var rowLen := width * Channels;
    var srcRow := png.width * Channels;
    ValidPngRows(png);
    MulMono(height, png.height, srcRow);
    MulMono(width, png.width, Channels);
    dst := new byte[height * rowLen];
    var y := 0;
    var base := 0;
    var srcBase := 0;
    while y < height
      invariant 0 <= y <= height
      invariant base == y * rowLen && srcBase == y * srcRow
      invariant base <= dst.Length
      invariant dst[..base] == CropRows(src[..], png.width, width, y)
    {
      MulStep(y, height, rowLen);
      MulStep(y, height, srcRow);
      MulMono(y + 1, png.height, srcRow);
      CopyCropRow(src, dst, png.width, width, y, base, srcBase);
      y := y + 1;
      base := base + rowLen;
      srcBase := srcBase + srcRow;
    }
    assert dst[..] == dst[..base];
  }

  /** Appends row `y` of the crop to the `y` rows already in `dst`. */
  method CopyCropRow(src: array<byte>, dst: array<byte>, srcW: nat, w: nat, y: nat,
                     base: nat, srcBase: nat)
    requires src != dst && w <= srcW && (y + 1) * (srcW * Channels) <= src.Length
    requires base == y * (w * Channels) && srcBase == y * (srcW * Channels)
    requires base + w * Channels <= dst.Length
    requires dst[..base] == CropRows(src[..], srcW, w, y)
    modifies dst
    ensures dst[..base + w * Channels] == CropRows(src[..], srcW, w, y + 1)
  {
    CropRowsStep(src[..], srcW, w, y, base, srcBase);
    CopyRow(src, dst, srcBase, base, w * Channels);
    assert dst[..base + w * Channels] == dst[..base] + dst[base .. base + w * Channels];
  }

  /** Copies `len` bytes of `src` from `srcBase` into `dst` at `base`, leaving the bytes of
      `dst` before `base` as they were. */
  method CopyRow(src: array<byte>, dst: array<byte>, srcBase: nat, base: nat, len: nat)
    requires src != dst
    requires srcBase + len <= src.Length && base + len <= dst.Length
    modifies dst
    ensures dst[..base] == old(dst[..base])
    ensures dst[base .. base + len] == src[srcBase .. srcBase + len]
  {
    var i := 0;
    while i < len
      invariant 0 <= i <= len
      invariant dst[..base] == old(dst[..base])
      invariant dst[base .. base + i] == src[srcBase .. srcBase + i]
    {
      dst[base + i] := src[srcBase + i];
      i := i + 1;
    }
  }

  /** The buffer compared for one image: its own data when it already has the region's
      size, otherwise its crop. Either way, the region's pixels. */
  method RegionData(png: Png, width: nat, height: nat) returns (data: array<byte>)
    requires ValidPng(png) && width <= png.width && height <= png.height
    ensures data.Length == height * (width * Channels)
    ensures height * (png.width * Channels) <= png.data.Length
    ensures data[..] == CropRows(png.data[..], png.width, width, height)
    ensures png.width == width && png.height == height ==> data == png.data
  {
    ValidPngRows(png);
    MulMono(height, png.height, png.width * Channels);
    if png.width == width && png.height == height {
      data := png.data;
      CropWhole(data[..], width, height);
      assert data[..] == data[..height * (width * Channels)];
    } else {
      data := CropImage(png, width, height);
    }
  }

  // ---------------------------------------------------------------- arithmetic

  /** `numDiffPixels / totalPixels`; NaN when the region is empty. */
  function DiffRatio(diffPixels: nat, totalPixels: nat): (r: Ratio)
    requires diffPixels <= totalPixels
    ensures r.NotANumber? <==> totalPixels == 0
    ensures r.Finite? ==> 0.0 <= r.value <= 1.0 && r.value * totalPixels as real == diffPixels as real
  {
    if totalPixels == 0 then NotANumber
    else
      var q := diffPixels as real / totalPixels as real;
      assert q * totalPixels as real == diffPixels as real;
      Finite(q)
  }

  /** What `compareImages` returns, with the size of the compared region. */
  datatype Comparison = Comparison(width: nat, height: nat, diffPercent: Ratio, passed: bool)

  /** The arithmetic of `compareImages` for images of the given sizes and a pixel comparison
      that found `diffPixels` differing pixels. */
  function Compare(actualW: nat, actualH: nat, refW: nat, refH: nat, diffPixels: nat,
                   threshold: real): (c: Comparison)
    requires diffPixels <= Min(actualW, refW) * Min(actualH, refH)
    ensures c.width == Min(actualW, refW) && c.height == Min(actualH, refH)
    ensures c.diffPercent == DiffRatio(diffPixels, c.width * c.height)
  {
    var width := Min(actualW, refW);
    var height := Min(actualH, refH);
    var diffPercent := DiffRatio(diffPixels, width * height);
    Comparison(width, height, diffPercent, AtMost(diffPercent, threshold))
  }

  /** The verdict in counts: a comparison passes exactly when the region is not empty and
      the differing pixels are at most `threshold` of its area. An empty region never
      passes (its ratio is NaN), whatever the threshold. */
  lemma PassedIff(actualW: nat, actualH: nat, refW: nat, refH: nat, diffPixels: nat, threshold: real)
    requires diffPixels <= Min(actualW, refW) * Min(actualH, refH)
    ensures var c := Compare(actualW, actualH, refW, refH, diffPixels, threshold);
            c.passed <==> c.width * c.height > 0
                          && diffPixels as real <= threshold * (c.width * c.height) as real
  {
    var c := Compare(actualW, actualH, refW, refH, diffPixels, threshold);
    var total := c.width * c.height;
    if total > 0 {
      var q := c.diffPercent.value;
      assert q * total as real == diffPixels as real;
      if q <= threshold {
        assert q * total as real <= threshold * total as real;
      } else {
        assert q * total as real > threshold * total as real;
      }
    }
  }

  /** Identical regions pass at any non-negative threshold; the share is never above 1. */
  lemma NoDifferencePasses(actualW: nat, actualH: nat, refW: nat, refH: nat, threshold: real)
    requires Min(actualW, refW) > 0 && Min(actualH, refH) > 0 && threshold >= 0.0
    ensures Compare(actualW, actualH, refW, refH, 0, threshold).passed
  {
    var c := Compare(actualW, actualH, refW, refH, 0, threshold);
    assert c.width * c.height > 0;
    PassedIff(actualW, actualH, refW, refH, 0, threshold);
  }

  /** `compareImages(actual, reference)`: the two region buffers handed to the pixel
      comparison (reference first) and the verdict on `diffPixels`, the number of pixels it
      reports as differing. */
  method CompareImages(actual: Png, reference: Png, diffPixels: nat, threshold: real)
    returns (referenceData: array<byte>, actualData: array<byte>, c: Comparison)
    requires ValidPng(actual) && ValidPng(reference)
    requires diffPixels <= Min(actual.width, reference.width) * Min(actual.height, reference.height)
    ensures c == Compare(actual.width, actual.height, reference.width, reference.height,
                         diffPixels, threshold)
    ensures c.width <= actual.width && c.height * (actual.width * Channels) <= actual.data.Length
    ensures c.width <= reference.width
    ensures c.height * (reference.width * Channels) <= reference.data.Length
    ensures actualData[..] == CropRows(actual.data[..], actual.width, c.width, c.height)
    ensures referenceData[..] == CropRows(reference.data[..], reference.width, c.width, c.height)
  {
    var width := Min(actual.width, reference.width);
    var height := Min(actual.height, reference.height);
    actualData := RegionData(actual, width, height);
    referenceData := RegionData(reference, width, height);
    var totalPixels := width * height;
    var diffPercent := DiffRatio(diffPixels, totalPixels);
    c := Comparison(width, height, diffPercent, AtMost(diffPercent, threshold));
  }

  // ---------------------------------------------------------------- percentages

  /** `Math.round(x)`: the nearest integer, halves rounded up. */
  function Round(x: real): (n: int)
    ensures n as real - 0.5 <= x < n as real + 0.5
  {
    (x + 0.5).Floor
  }

  /** `Math.round(diffPercent * 10000) / 100`: the share as a percentage with two decimals.
      NaN stays NaN. */
  function RoundPercent(r: Ratio): Ratio {
    match r
    case NotANumber => NotANumber
    case Finite(v) => Finite(Round(v * 10000.0) as real / 100.0)
  }

  /** The stored percentage is within half a hundredth of the exact one, lies in 0..100
      and is a whole number of hundredths. */
  lemma RoundPercentClose(v: real)
    requires 0.0 <= v <= 1.0
    ensures var p := RoundPercent(Finite(v)).value;
            100.0 * v - 0.005 <= p <= 100.0 * v + 0.005
            && 0.0 <= p <= 100.0
            && p * 100.0 == Round(v * 10000.0) as real
  {
    var n := Round(v * 10000.0);
    assert n as real - 0.5 <= v * 10000.0 < n as real + 0.5;
    assert 0 <= n <= 10000;
  }
}

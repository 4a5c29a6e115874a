/**
 * The logic of arklib/src/lib.rs around the JNI calls: the quality string of
 * `pdfPreviewGenerateNative`, the size conversion of `computeIdNative`, and
 * the loop that packs the rendered page's RGBA bytes into ARGB `i32`
 * pixels for an Android Bitmap. A Rust panic is `None` here.
 */
module Native {
  import opened Wrappers
  import ArkLib

  /** `arklib::pdf::PDFQuality`. */
  datatype PdfQuality = High | Medium | Low

  /** The `match` on the quality string: the three names, anything else panics. */
  function ParseQuality(quality: string): (r: Option<PdfQuality>)
    ensures r.Some? <==> quality in {"HIGH", "MEDIUM", "LOW"}
  {
    if quality == "HIGH" then Some(High)
    else if quality == "MEDIUM" then Some(Medium)
    else if quality == "LOW" then Some(Low)
    else None
  }

  /** Every name the Kotlin side passes (`quality.name`) is accepted, and selects the same level. */
  lemma QualityNamesAccepted(q: ArkLib.PreviewQuality)
    ensures ParseQuality(ArkLib.QualityName(q)) == Some(match q
      case High => High
      case Medium => Medium
      case Low => Low)
  {
  }

  const USIZE_MAX: int := 0xFFFF_FFFF_FFFF_FFFF

  /** `usize::try_from(jni_size)` for an `i64` size: a negative size panics. */
  function SizeToUsize(size: int): (r: Option<nat>)
    requires -0x8000_0000_0000_0000 <= size < 0x8000_0000_0000_0000
    ensures r.Some? <==> size >= 0
    ensures r.Some? ==> r.value == size && r.value <= USIZE_MAX
  {
    if size < 0 then None else Some(size)
  }

  /** One pixel: `alpha << 24 | red << 16 | green << 8 | blue`, the bits of an `i32`. */
  function PackPixel(red: bv8, green: bv8, blue: bv8, alpha: bv8): bv32
  {
    (alpha as bv32 << 24) | (red as bv32 << 16) | (green as bv32 << 8) | (blue as bv32)
  }

  /** The four channels sit in disjoint bytes, so shifting and masking recovers each of them. */
  lemma UnpackPixel(red: bv8, green: bv8, blue: bv8, alpha: bv8)
    ensures var p := PackPixel(red, green, blue, alpha);
      && (p >> 24) as bv8 == alpha
      && ((p >> 16) & 0xFF) as bv8 == red
      && ((p >> 8) & 0xFF) as bv8 == green
      && (p & 0xFF) as bv8 == blue
  {
  }

  /** Packing is injective: different RGBA quadruples give different pixels. */
  lemma PackPixelInjective(r1: bv8, g1: bv8, b1: bv8, a1: bv8, r2: bv8, g2: bv8, b2: bv8, a2: bv8)
    requires PackPixel(r1, g1, b1, a1) == PackPixel(r2, g2, b2, a2)
    ensures r1 == r2 && g1 == g2 && b1 == b2 && a1 == a2
  {
    UnpackPixel(r1, g1, b1, a1);
    UnpackPixel(r2, g2, b2, a2);
  }

  /**
   * The `for i in 0..width*height` loop: `raw_pixel` gets one packed pixel
   * per iteration, built from bytes `4i .. 4i+3` of the RGBA buffer, whose
   * length the image type fixes at four bytes per pixel.
   */
  method PackPixels(rgba: seq<bv8>, width: nat, height: nat) returns (rawPixel: seq<bv32>)
    requires |rgba| == 4 * (width * height)
    ensures |rawPixel| == width * height
    ensures forall i :: 0 <= i < |rawPixel| ==>
      rawPixel[i] == PackPixel(rgba[4 * i], rgba[4 * i + 1], rgba[4 * i + 2], rgba[4 * i + 3])
  {
    rawPixel := [];
    var i := 0;
    while i < width * height
      invariant 0 <= i <= width * height
      invariant |rawPixel| == i
      invariant forall j :: 0 <= j < i ==>
        rawPixel[j] == PackPixel(rgba[4 * j], rgba[4 * j + 1], rgba[4 * j + 2], rgba[4 * j + 3])
    {
      var red := rgba[i * 4];
      var green := rgba[i * 4 + 1];
      var blue := rgba[i * 4 + 2];
      var alpha := rgba[i * 4 + 3];
      rawPixel := rawPixel + [PackPixel(red, green, blue, alpha)];
      i := i + 1;
    }
  }

  /** The arguments of `Bitmap.setPixels(pixels, offset, stride, x, y, width, height)`. */
  datatype PixelRegion = PixelRegion(offset: int, stride: int, x: int, y: int, width: int, height: int)

  /** What the native code passes: offset 0, stride = width, the whole image from (0, 0). */
  function SetPixelsRegion(width: nat, height: nat): (r: PixelRegion)
    ensures r.offset == 0 && r.x == 0 && r.y == 0
    ensures r.stride == r.width == width && r.height == height
  {
    PixelRegion(0, width, 0, 0, width, height)
  }

  /**
   * Every packed pixel lands in the bitmap: pixel `k` of the buffer is the
   * one `setPixels` reads for row `k / width`, column `k % width`, which lie
   * inside the region.
   */
  lemma SetPixelsCoversBuffer(width: nat, height: nat, k: nat)
    requires k < width * height
    ensures var r := SetPixelsRegion(width, height);
      && k / width < r.height && k % width < r.width
      && r.offset + (k / width) * r.stride + k % width == k
  {
    var y, x := k / width, k % width;
    assert k == y * width + x;
    if y >= height {
      assert y * width >= height * width;
    }
  }
}

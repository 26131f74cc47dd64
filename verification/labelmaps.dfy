/** Colour-coded segmentation images turned into label maps and masks, and the
    masked person image. Images are grids already at the target size. */
module LabelMaps {
  import opened Wrappers
  import opened Palettes

  /** A loaded colour image, row by row. */
  type Image = seq<seq<Rgb>>

  /** A mask value after binarisation. */
  type Bit = x: int | 0 <= x <= 1

  /** `a` and `b` have the same number of rows and equally long rows. */
  predicate SameShape<A, B>(a: seq<seq<A>>, b: seq<seq<B>>) {
    |a| == |b| && forall y :: 0 <= y < |a| ==> |a[y]| == |b[y]|
  }

  /** `g` has `h` rows of `w` values. */
  predicate HasShape<T>(g: seq<seq<T>>, h: int, w: int) {
    |g| == h && forall y :: 0 <= y < |g| ==> |g[y]| == w
  }

  /** The last position of `p` holding `c`: later palette entries overwrite
      earlier ones in the conversion loop, so the last match is the label. */
  function LastMatch(p: seq<Rgb>, c: Rgb): (r: Option<nat>)
    ensures r.Some? ==> r.value < |p| && p[r.value] == c
    ensures r.Some? ==> forall j :: r.value < j < |p| ==> p[j] != c
    ensures r.None? <==> c !in p
  {
    if |p| == 0 then None
    else if p[|p| - 1] == c then Some(|p| - 1)
    else LastMatch(p[..|p| - 1], c)
  }

  /** The first position of `p` holding `c`: the label a scan in the opposite
      order would produce. */
  function FirstMatch(p: seq<Rgb>, c: Rgb): (r: Option<nat>)
    ensures r.Some? ==> r.value < |p| && p[r.value] == c
    ensures r.Some? ==> forall j :: 0 <= j < r.value ==> p[j] != c
    ensures r.None? <==> c !in p
  {
    if |p| == 0 then None
    else if p[0] == c then Some(0)
    else match FirstMatch(p[1..], c)
      case None => None
      case Some(k) => Some(k + 1)
  }

  /** The label a pixel of colour `c` receives: its palette position, or the
      fill value 0 when the colour is not in the palette. */
  function PixelLabel(p: seq<Rgb>, c: Rgb): nat {
    match LastMatch(p, c)
    case Some(i) => i
    case None => 0
  }

  /** `m` with the cells where `img` has colour `c` set to `v`: one step of the
      palette loop. */
  function Paint<T>(m: seq<seq<T>>, img: Image, c: Rgb, v: T): seq<seq<T>>
    requires SameShape(m, img)
  {
    seq(|img|, y requires 0 <= y < |img| =>
      seq(|img[y]|, x requires 0 <= x < |img[y]| =>
        if img[y][x] == c then v else m[y][x]))
  }

  /** A grid of `v` with the shape of `img`. */
  function Filled<T>(img: Image, v: T): seq<seq<T>> {
    seq(|img|, y requires 0 <= y < |img| => seq(|img[y]|, x => v))
  }

  /** Adding palette entry `i` to the scan changes the label of colour `p[i]`
      only. */
  lemma PixelLabelStep(p: seq<Rgb>, i: nat, c: Rgb)
    requires i < |p|
    ensures PixelLabel(p[..i + 1], c) == if c == p[i] then i else PixelLabel(p[..i], c)
  {
    assert p[..i + 1][..i] == p[..i];
  }

  /** The label map of `img`: every pixel is replaced by the position of its
      colour in `p`, scanning the palette in order as the loop does. */
  method ConvertLabels(p: seq<Rgb>, img: Image) returns (labels: seq<seq<nat>>)
    ensures SameShape(labels, img)
    ensures forall y, x :: 0 <= y < |img| && 0 <= x < |img[y]| ==>
      labels[y][x] == PixelLabel(p, img[y][x])
    ensures |p| > 0 ==> forall y, x :: 0 <= y < |img| && 0 <= x < |img[y]| ==> labels[y][x] < |p|
    ensures forall y, x :: 0 <= y < |img| && 0 <= x < |img[y]| && img[y][x] in p ==>
      labels[y][x] < |p| && p[labels[y][x]] == img[y][x]
    ensures forall y, x :: 0 <= y < |img| && 0 <= x < |img[y]| && img[y][x] !in p ==>
      labels[y][x] == 0
  {
    labels := Filled(img, 0);
    var i := 0;
    while i < |p|
      invariant 0 <= i <= |p|
      invariant SameShape(labels, img)
      invariant forall y, x :: 0 <= y < |img| && 0 <= x < |img[y]| ==>
        labels[y][x] == PixelLabel(p[..i], img[y][x])
    {
      forall c: Rgb { PixelLabelStep(p, i, c); }
      labels := Paint(labels, img, p[i], i);
      i := i + 1;
    }
    assert p[..|p|] == p;
  }

  /** With a palette that repeats no colour, scanning it forwards or backwards
      gives the same label, so the conversion does not depend on loop order. */
  lemma ScanOrderIrrelevant(p: seq<Rgb>, c: Rgb)
    requires Distinct(p)
    ensures LastMatch(p, c) == FirstMatch(p, c)
  {
  }

  /** With a palette that repeats no colour, a pixel receives label `i` exactly
      when it has colour `p[i]`, or when `i` is 0 and its colour is not in
      the palette. */
  lemma LabelIff(p: seq<Rgb>, c: Rgb, i: nat)
    requires Distinct(p)
    requires i < |p|
    ensures PixelLabel(p, c) == i <==> (p[i] == c || (i == 0 && c !in p))
  {
  }

  /** Number of leading cloth-palette entries that count as foreground. */
  function Threshold(noBg: bool): (t: nat)
    ensures t == ClothBackground || t == ClothBackground + 1
  {
    6 + (if noBg then 1 else 0)
  }

  /** The cloth labels and the foreground mask of a cloth segmentation image,
      computed in one scan of the cloth palette. A pixel is foreground when its
      colour is one of the first `Threshold(noBg)` palette entries. */
  method ClothSegmentation(img: Image, noBg: bool) returns (labels: seq<seq<nat>>, mask: seq<seq<Bit>>)
    ensures SameShape(labels, img) && SameShape(mask, img)
    ensures forall y, x :: 0 <= y < |img| && 0 <= x < |img[y]| ==>
      labels[y][x] == PixelLabel(ClothPalette, img[y][x])
    ensures forall y, x :: 0 <= y < |img| && 0 <= x < |img[y]| ==>
      (mask[y][x] == 1 <==> exists j :: 0 <= j < Threshold(noBg) && ClothPalette[j] == img[y][x])
  {
    var p := ClothPalette;
    var t := Threshold(noBg);
    labels := Filled(img, 0);
    mask := Filled(img, 0);
    var i := 0;
    while i < |p|
      invariant 0 <= i <= |p|
      invariant SameShape(labels, img) && SameShape(mask, img)
      invariant forall y, x :: 0 <= y < |img| && 0 <= x < |img[y]| ==>
        labels[y][x] == PixelLabel(p[..i], img[y][x])
      invariant forall y, x :: 0 <= y < |img| && 0 <= x < |img[y]| ==>
        (mask[y][x] == 1 <==> exists j :: 0 <= j < i && j < t && p[j] == img[y][x])
    {
      forall c: Rgb { PixelLabelStep(p, i, c); }
      labels := Paint(labels, img, p[i], i);
      if i < t {
        mask := Paint(mask, img, p[i], 1);
      }
      i := i + 1;
    }
    assert p[..|p|] == p;
  }

  /** A pixel is cloth foreground exactly when its colour is in the cloth
      palette and its label is below the threshold. */
  lemma ForegroundIffLowLabel(c: Rgb, noBg: bool)
    ensures (exists j :: 0 <= j < Threshold(noBg) && ClothPalette[j] == c)
      <==> (c in ClothPalette && PixelLabel(ClothPalette, c) < Threshold(noBg))
  {
    ClothPaletteDistinct();
    if c in ClothPalette {
      var k := PixelLabel(ClothPalette, c);
      forall j | 0 <= j < |ClothPalette| && ClothPalette[j] == c
        ensures j == k
      {
        LabelIff(ClothPalette, c, j);
      }
    }
  }

  /** The background colour is foreground only when background is included. */
  lemma BackgroundForegroundIffNoBg(noBg: bool)
    ensures (exists j :: 0 <= j < Threshold(noBg) && ClothPalette[j] == Black) <==> noBg
  {
    ForegroundIffLowLabel(Black, noBg);
    ClothPaletteDistinct();
    LabelIff(ClothPalette, Black, ClothBackground);
  }

  /** The stored grayscale mask made binary: every positive value becomes 1. */
  function Binarise(gray: seq<seq<Byte>>): (m: seq<seq<Bit>>)
    ensures SameShape(m, gray)
    ensures forall y, x :: 0 <= y < |gray| && 0 <= x < |gray[y]| ==>
      (m[y][x] == 1 <==> gray[y][x] > 0) && (m[y][x] == 0 <==> gray[y][x] == 0)
  {
    seq(|gray|, y requires 0 <= y < |gray| =>
      seq(|gray[y]|, x requires 0 <= x < |gray[y]| =>
        var v := gray[y][x]; if v > 0 then 1 else v))
  }

  /** The person image with the masked region punched out: each channel is
      multiplied by `1 - mask`. */
  function MaskedImage(img: Image, mask: seq<seq<Bit>>): (r: Image)
    requires SameShape(mask, img)
    ensures SameShape(r, img)
    ensures forall y, x :: 0 <= y < |img| && 0 <= x < |img[y]| ==>
      r[y][x] == if mask[y][x] == 1 then Black else img[y][x]
  {
    seq(|img|, y requires 0 <= y < |img| =>
      seq(|img[y]|, x requires 0 <= x < |img[y]| =>
        var keep := 1 - mask[y][x];
        var c := img[y][x];
        Rgb(c.r * keep, c.g * keep, c.b * keep)))
  }
}

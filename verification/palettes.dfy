/** The three colour palettes of the dataset. The position of a colour in its
    palette is the semantic label id of that colour. */
module Palettes {

  /** One 8-bit value of a loaded grayscale image. */
  type Byte = x: int | 0 <= x < 256

  /** One RGB pixel (the images are converted from BGR to RGB on loading).
      Channel ranges play no part in any property, so they are plain `int`s. */
  datatype Rgb = Rgb(r: int, g: int, b: int)

  const Black: Rgb := Rgb(0, 0, 0)

  /** Cloth-part palette: upper, left arm, right arm, neck, dress, an unnamed
      entry, then background at position 6, then the non-cloth parts. */
  const ClothPalette: seq<Rgb> := [
    Rgb(128, 0, 128), Rgb(128, 128, 64), Rgb(128, 128, 192), Rgb(0, 255, 0),
    Rgb(0, 128, 128), Rgb(128, 128, 128),
    Rgb(0, 0, 0),
    Rgb(0, 128, 0), Rgb(0, 64, 0), Rgb(128, 128, 0), Rgb(0, 192, 0),
    Rgb(128, 0, 192), Rgb(0, 0, 192), Rgb(0, 64, 128), Rgb(128, 0, 64),
    Rgb(0, 192, 128), Rgb(0, 0, 128), Rgb(0, 128, 64), Rgb(0, 0, 64),
    Rgb(0, 128, 192)
  ]

  /** Position of the background colour in the cloth palette. */
  const ClothBackground: nat := 6

  /** The two cloth-palette colours that make up the head (hair and head). */
  const HeadColours: seq<Rgb> := [Rgb(0, 128, 0), Rgb(128, 0, 192)]

  /** Dense-pose surface palette: background first, then 24 body surfaces. */
  const DensePosePalette: seq<Rgb> := [
    Rgb(0, 0, 0),
    Rgb(37, 60, 163), Rgb(20, 80, 194), Rgb(4, 97, 223), Rgb(8, 110, 221),
    Rgb(14, 122, 216), Rgb(20, 132, 212), Rgb(15, 144, 208), Rgb(11, 156, 203),
    Rgb(6, 166, 198), Rgb(22, 173, 185), Rgb(38, 179, 172), Rgb(55, 185, 159),
    Rgb(86, 187, 144), Rgb(114, 189, 130), Rgb(145, 191, 116), Rgb(170, 189, 105),
    Rgb(192, 188, 96), Rgb(216, 186, 86), Rgb(228, 192, 74), Rgb(240, 199, 60),
    Rgb(252, 206, 46), Rgb(251, 220, 36), Rgb(250, 235, 25), Rgb(249, 251, 14)
  ]

  /** Body-part palette. */
  const BodyPalette: seq<Rgb> := [
    Rgb(127, 127, 127), Rgb(0, 255, 255), Rgb(255, 255, 0), Rgb(127, 127, 0),
    Rgb(255, 127, 127), Rgb(0, 255, 0), Rgb(0, 0, 0), Rgb(255, 127, 0),
    Rgb(0, 0, 255), Rgb(127, 255, 127), Rgb(0, 127, 255), Rgb(127, 0, 255),
    Rgb(255, 255, 127), Rgb(255, 0, 0), Rgb(255, 0, 255)
  ]

  /** No colour occurs twice in `p`, so a colour names at most one label. */
  ghost predicate Distinct(p: seq<Rgb>) {
    forall i, j :: 0 <= i < j < |p| ==> p[i] != p[j]
  }

  /** The palette sizes and the background position the dataset relies on. */
  lemma PaletteShapes()
    ensures |BodyPalette| == 15 && |ClothPalette| == 20 && |DensePosePalette| == 25
    ensures ClothPalette[ClothBackground] == Black
    ensures forall h :: h in HeadColours ==> h in ClothPalette
  {
  }

  // No palette repeats a colour, so converting an image does not depend on
  // the order in which the palette is scanned.

  lemma BodyPaletteDistinct()
    ensures Distinct(BodyPalette)
  {
    var p := BodyPalette;
    forall i, j | 0 <= i < j < |p|
      ensures p[i] != p[j]
    {
    }
  }

  lemma ClothPaletteDistinct()
    ensures Distinct(ClothPalette)
  {
    var p := ClothPalette;
    forall i, j | 0 <= i < j < |p|
      ensures p[i] != p[j]
    {
    }
  }

  lemma DensePosePaletteDistinct()
    ensures Distinct(DensePosePalette)
  {
    var p := DensePosePalette;
    forall i, j | 0 <= i < j < |p|
      ensures p[i] != p[j]
    {
    }
  }
}

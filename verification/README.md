# VITON try-on dataset: label maps, masks, pairing and centroid cache

This project models the pure logic of the `VitonDataset` class of C-VTON, in
Dafny. The class serves paired samples (person image, target cloth) for a
virtual try-on network. The model covers:

- the three colour palettes (body parts, cloth parts, dense-pose surfaces) and
  the conversion of a colour-coded segmentation image into a label map;
- the cloth foreground mask (a pixel is foreground when its colour is one of
  the first `6 + no_bg` cloth-palette entries). When cloth mode is off, the
  mask is a binarised stored grayscale mask instead;
- the masked person image `image * (1 - mask)`;
- the pair list: the default manifest name per phase, the `test_same` target
  rewrite (`"_0"` → `"_1"`, replace-all), the `train` prefix and `val` suffix
  slicing (with Python's `int()` truncation and slice-bound normalisation),
  and the segmentation and keypoint file names derived from a person image
  name;
- the configuration derived at construction: label counts, semantic counts,
  discriminator channel offsets (an inactive mode records 0, which resets the
  running sum), and the expansion of a single image side `n` into
  `(n, int(0.75 n))`;
- the centroid accumulator for body labels 2, 7, 11 and 14, and its per-index
  cache. A slot is written on the first load of its index, in phase `train`
  with the centroid loss on and body mode active, and never again;
- the keypoint annotation: parsing, regrouping into (x, y, confidence)
  triples, the 25-zero fallback when no person is listed, rescaling, and the
  gate `x > 1 and y > 1` that decides which keypoint channels get a square;
- construction of the dataset and the assembly of one sample record
  (`__getitem__`), including which fields are empty for which modes.

Images are modelled as grids of RGB triples (`seq<seq<Rgb>>`) already at the
target size. Files on disk are given as parameters: a map from manifest name
to parsed rows, and, per sample, the loaded images, the dense-pose label map
and the parsed keypoint file.

Modules, one per file: `Wrappers` (Option, Result), `Numeric` (truncating
division, exact split shares), `Palettes`, `LabelMaps`, `Pairs`, `Config`,
`Centroids`, `Keypoints`, `Dataset`.

Behaviour of the code worth knowing, which the model keeps:

- The dense-pose palette has 25 entries (background plus 24 surfaces).
- Only a keypoint file that lists no person (an `IndexError`) falls back to
  25 zero keypoints. A missing or unreadable file, a missing key or a flat list whose
  length is not a multiple of three raises.
- A `val` share that truncates to zero rows keeps the whole list, because
  `iloc[-0:]` is `iloc[0:]`.
- Offsets of active modes after an inactive one restart from 0.
- Keypoint x is scaled by the height ratio and y by the width ratio. When
  every keypoint number in the file is an integer, the array is an integer
  array, and the scaled coordinates are truncated toward zero before the
  `x > 1 and y > 1` gate.

## Model

| member | source | states |
|---|---|---|
| Palettes.PaletteShapes | dataloaders/VitonDataset.py:14-83 | The body, cloth and dense-pose palettes have 15, 20 and 25 entries. Cloth entry 6 is the background black. Both head colours are cloth-palette colours. |
| Palettes.BodyPaletteDistinct | dataloaders/VitonDataset.py:67-83 | No colour occurs twice in the body palette. |
| Palettes.ClothPaletteDistinct | dataloaders/VitonDataset.py:14-37 | No colour occurs twice in the cloth palette. |
| Palettes.DensePosePaletteDistinct | dataloaders/VitonDataset.py:39-65 | No colour occurs twice in the dense-pose palette. |
| LabelMaps.LastMatch | dataloaders/VitonDataset.py:203-204 | The label a colour receives from the in-order overwriting loop is a position holding that colour with no later position holding it. There is none exactly when the colour is not in the palette. |
| LabelMaps.ConvertLabels | dataloaders/VitonDataset.py:202-204 | The palette loop yields a map of the image's shape. A pixel whose colour is in the palette gets a position holding that colour, and the last such position. Any other pixel keeps the fill value 0. Every label is below the palette size. |
| LabelMaps.ScanOrderIrrelevant | dataloaders/VitonDataset.py:175-176 | For a palette without repeated colours, scanning forwards or backwards gives the same label, so the loop order does not matter. |
| LabelMaps.LabelIff | dataloaders/VitonDataset.py:173-176 | For a palette without repeats, a pixel gets label i exactly when its colour is entry i, or when i is 0 and its colour is in no entry. |
| LabelMaps.ClothSegmentation | dataloaders/VitonDataset.py:173-178 | One scan of the cloth palette yields the cloth labels (as ConvertLabels) and a 0/1 mask. The mask is 1 exactly when the pixel's colour is among the first 6 + no_bg entries. |
| LabelMaps.ForegroundIffLowLabel | dataloaders/VitonDataset.py:175-178 | A pixel is cloth foreground exactly when its colour is in the cloth palette and its label is below the threshold. |
| LabelMaps.BackgroundForegroundIffNoBg | dataloaders/VitonDataset.py:177-178 | The background black is foreground exactly when no_bg is set. |
| LabelMaps.Binarise | dataloaders/VitonDataset.py:185-187 | The stored grayscale mask becomes exactly 0/1: 1 where the value is positive, 0 where it is 0. |
| LabelMaps.MaskedImage | dataloaders/VitonDataset.py:191-192 | In all three channels, a pixel with mask 1 becomes black and a pixel with mask 0 is unchanged. |
| Pairs.SwapVariantPointwise | dataloaders/VitonDataset.py:112-113 | Replacing every "_0" by "_1" keeps the length and changes exactly the '0' that follows each '_'. Every other character is unchanged. |
| Pairs.SwapVariantExample | dataloaders/VitonDataset.py:113 | "001_0.jpg" becomes "001_1.jpg". |
| Pairs.ReplaceSuffix | dataloaders/VitonDataset.py:169 | Replacing a suffix whose first character does not occur earlier changes only that suffix. |
| Pairs.DerivedNames | dataloaders/VitonDataset.py:242 | For a person image (as at lines 169, 185, 197 and 242) "stem.jpg" whose stem has no dot, the segmentation and mask files are "stem.png" and the pose file is "stem_keypoints.json". |
| Pairs.ManifestName | dataloaders/VitonDataset.py:108 | Without an explicit name, phases test and test_same read viton_test_pairs.txt and every other phase reads viton_train_pairs.txt. An explicit name is used as given. |
| Pairs.RetargetTestSame | dataloaders/VitonDataset.py:112-113 | In test_same, the row count and every person image are kept, and each target is its person image with the variant swapped. Other phases leave the rows alone. |
| Pairs.Select | dataloaders/VitonDataset.py:115-118 | train keeps the first min(N, k) rows, or all but the last -k rows when k is negative. val keeps the last k rows when 0 < k < N, and the whole list when k is 0 or at least N. Other phases keep everything. Here k is the truncated product of N and the share. |
| Pairs.SplitPartition | dataloaders/VitonDataset.py:115-118 | With non-negative shares, train rows, an unused middle and val rows concatenate to the manifest when the two counts fit in it. A val share truncating to zero keeps the whole list, which overlaps train. |
| Numeric.TruncDiv | dataloaders/VitonDataset.py:102 | The quotient is truncated toward zero: non-negative and at most the exact quotient for a non-negative dividend, non-positive and at least it for a negative one. |
| Numeric.Trunc | dataloaders/VitonDataset.py:253-254 | Truncation of a real toward zero, on both signs. It exceeds 1 exactly when the real is at least 2. |
| Numeric.ScaleNonNegative | dataloaders/VitonDataset.py:116 | For a non-negative share, int(N * share) is the floor of the exact product. |
| Config.SemanticCounts | dataloaders/VitonDataset.py:91 | The semantic counts are [16, 21, 26]: one more than each palette's size. |
| Config.CountValues | dataloaders/VitonDataset.py:90-91 | The label counts are [15, 20, 25] and the semantic counts are [16, 21, 26]. |
| Config.OffsetsUpTo | dataloaders/VitonDataset.py:93-99 | Offsets start at 0. An inactive mode records 0. An active mode records the total width (semantic classes + 1) of the run of active modes ending at it, so an inactive mode resets the sum. |
| Config.OffsetStep | dataloaders/VitonDataset.py:96-97 | From the run characterisation, an active mode's offset is the previous offset plus the mode's width, as the loop appends it. |
| Config.OffsetExamples | dataloaders/VitonDataset.py:93-99 | All modes active give [0, 17, 39, 66]. Without cloth they give [0, 17, 0, 27]. Cloth alone gives [0, 0, 22, 0]. |
| Config.ImageSize | dataloaders/VitonDataset.py:101-102 | An explicit (height, width) is kept. A single side n becomes (n, w) with w = int(0.75 n), truncated toward zero. |
| Config.Derive | dataloaders/VitonDataset.py:90-102 | Construction derives counts [15, 20, 25] and [16, 21, 26], and the expanded image size. The four offsets start at 0. An inactive mode appends 0. An active mode appends the previous offset plus its semantic count plus 1. The offsets are those of OffsetsUpTo, so its run characterisation applies. |
| Centroids.RowIndexBound | dataloaders/VitonDataset.py:211-213 | The row indices of the matching pixels sum to at most (rows - 1) times their count. |
| Centroids.ColumnBound | dataloaders/VitonDataset.py:211-220 | In a rectangular image, the column indices of the matching pixels sum to at most (width - 1) times their count. |
| Centroids.Centroid | dataloaders/VitonDataset.py:211-222 | An absent colour gives (-1, -1). Otherwise the point is the floor of the mean row and of the mean column of the colour's pixels. The row lies inside the image, and so does the column when all rows have one width. |
| Centroids.ScanCollects | dataloaders/VitonDataset.py:203-222 | Collecting from an empty slot over the body palette stores exactly the centroids of labels 2, 7, 11 and 14, in that order. |
| Centroids.FullEntryStays | dataloaders/VitonDataset.py:207 | A slot already holding four points is never extended. |
| Centroids.IdleScan | dataloaders/VitonDataset.py:207 | Outside phase train, or without the centroid loss, the scan leaves the slot alone. |
| Centroids.Allocate | dataloaders/VitonDataset.py:126-130 | A cache of one empty slot per row exists exactly for phases train and train_whole with the centroid loss on. |
| Centroids.ScanAppends | dataloaders/VitonDataset.py:203-222 | The palette loop as it touches one slot only appends: a filled slot stays filled, and the points already recorded stay in front. |
| Centroids.Visit | dataloaders/VitonDataset.py:203-224 | Loading row k touches only slot k. A first visit while collecting stores the hand centroids. A full slot is kept. Without collecting nothing changes. Slots stay empty or full. |
| Centroids.VisitOnce | dataloaders/VitonDataset.py:207-209 | A second visit of the same row changes nothing, whatever image it sees. |
| Keypoints.FlattenTriples | dataloaders/VitonDataset.py:247-248 | Regrouping a flat list into triples and flattening it back gives the list. |
| Keypoints.TriplesFlatten | dataloaders/VitonDataset.py:247-248 | Flattening triples and regrouping them gives the triples. |
| Keypoints.Reshape | dataloaders/VitonDataset.py:248 | The reshape succeeds exactly when the length is a multiple of three, and its triples flatten back to the list. |
| Keypoints.ParsePose | dataloaders/VitonDataset.py:243-251 | An empty people list gives 25 zero keypoints in a float array. A missing or unreadable file, or a missing key, is an error. The first person's list becomes its triples, or a reshape error. The array is an integer array exactly when the list is non-empty and holds only integers. |
| Keypoints.PoseChannels | dataloaders/VitonDataset.py:253-268 | One channel per keypoint, for a positive image size. On a float array a keypoint is lit exactly when x * height > 1024 and y * width > 768. On an integer array the truncated coordinates must exceed 1, so exactly when x * height >= 2048 and y * width >= 1536. A keypoint with a non-positive coordinate is never lit. |
| Keypoints.Rescale | dataloaders/VitonDataset.py:253-254 | The confidence is kept. On a float array, x * 1024 equals the annotation x times the height, and y * 768 equals the annotation y times the width. On an integer array each coordinate is a whole number, the scaled value truncated toward zero. |
| Keypoints.Gate | dataloaders/VitonDataset.py:253-266 | The gate of one keypoint in annotation coordinates, for float and integer arrays, and no drawing at a non-positive coordinate. |
| Keypoints.IntegerArrayTruncates | dataloaders/VitonDataset.py:247-266 | The integer point (5, 5) on a 256 x 192 image truncates to (1, 1) and is not drawn. The same point as floats is drawn. |
| Keypoints.NobodyDrawsNothing | dataloaders/VitonDataset.py:250-251 | A file listing nobody yields 25 channels, none lit. |
| Keypoints.NonPositiveNotDrawn | dataloaders/VitonDataset.py:266 | A keypoint with a non-positive coordinate, such as (0, 0), is never drawn. |
| Dataset.Construct | dataloaders/VitonDataset.py:88-130 | A missing manifest is a file-not-found error. Otherwise the rows are the phase's selection of the retargeted manifest, the configuration is derived, and the cache exists exactly for train/train_whole with the loss on, one empty slot per row. |
| Dataset.Length | dataloaders/VitonDataset.py:302-303 | The length is the number of selected rows. The indices ResolveIndex accepts are exactly those in [-length, length). A cache has one slot per sample. |
| Dataset.ContainsIff | dataloaders/VitonDataset.py:240 | The `find(t) >= 0` scan succeeds exactly when t occurs at some position of s. |
| Dataset.Legacy | dataloaders/VitonDataset.py:240 | The legacy representation is built exactly when "old" occurs somewhere in the warping model's identifier. |
| Dataset.ResolveIndex | dataloaders/VitonDataset.py:139 | Indices in [-N, N) are accepted, and negative ones count from the end. Any other index is an index error. |
| Dataset.Silhouette | dataloaders/VitonDataset.py:274-275 | The silhouette is 1 on non-background pixels of the cloth segmentation and -1 on background. |
| Dataset.HeadMask | dataloaders/VitonDataset.py:277-282 | The head mask is 1 on hair and head pixels and 0 elsewhere. |
| Dataset.MaskPerson | dataloaders/VitonDataset.py:167-192 | Cloth labels are present exactly in cloth mode and are the palette labels of the cloth segmentation. The masked image is black exactly where the region is: the cloth foreground in cloth mode, or positive stored-mask values otherwise. |
| Dataset.LegacyAgnostic | dataloaders/VitonDataset.py:240-287 | A pose-file error is raised first. Then, without cloth mode, a name error. Otherwise it succeeds with the lit pose channels, the silhouette and the head mask of the cloth segmentation. It succeeds exactly when the pose file parses and cloth mode is on. |
| Dataset.GetItem | dataloaders/VitonDataset.py:138-300 | A bad index raises and changes nothing. For a valid index the sample is returned exactly when the model is not a legacy one, or the pose file parses and cloth mode is on. Each label field is present exactly when its mode is active, and so is the agnostic field when the warping model is a legacy one. The masked image blacks out exactly the foreground. The body labels update the cache before the pose file is read, so a later pose or name error keeps that update. A legacy model without cloth mode raises a name error. |

## Left out

- Image reading, BGR to RGB conversion and resizing (area and nearest-neighbour). The model takes images already loaded and at the target size, and `Fits` states that shape.
- Normalisation of the image, masked image and cloth image to [-1, 1]. This is floating point, so samples carry the un-normalised grids.
- The head image `image * head_mask` and the stacking of the agnostic channels. They multiply the normalised float image, so the model keeps the head mask itself.
- The rasterisation of keypoint squares by PIL at float coordinates, and PIL's (width, height) size convention. Only the gate deciding whether a square is drawn is modelled.
- Keypoints.Rescale: computes with exact reals, so float rounding of the scale factors is not modelled. The truncation when the array is an integer array is modelled.
- Pairs.Select: the shares are exact ratios, so float rounding of `len * share` before `int()` is not modelled.
- Centroids.Centroid: the mean is exact, so float rounding of `mean()` before `int()` is not modelled.
- The dense-pose segmenter (an external network) and its creation. Its output label map is a parameter of each sample.
- Reading the manifest with pandas and its parse errors. The manifest files are a map from name to already-parsed (person, target) rows.
- The torch tensor packaging and the data-loader workers that share the cache concurrently. The model is sequential.
- `opt.segmentation` is modelled as a set of modes, tested by membership. `opt.no_bg` is modelled as a boolean flag adding 0 or 1 to the threshold.
- The masker training script: it wires an external model to a data loader and has no logic of its own.
- Dataset.Construct: the derived counts, offsets and expanded image size are written into the caller's options object, before the manifest is read, so even a construction that then fails leaves them written. The dataset also shares that object with the caller. The model is pure: it returns the derived values inside the dataset and leaves the given options unchanged.
- Dataset.GetItem: requires the sample's files to exist and to have the target size (`Fits`). A missing image file (the reader returns nothing and the next call raises) is not modelled, and neither is a shape mismatch that resizing would remove.

/** The dataset object: construction from the options and a manifest, and the
    assembly of one sample. File reading, resizing and normalisation happen
    outside the model: a sample's images arrive already loaded and resized. */
module Dataset {
  import opened Wrappers
  import opened Palettes
  import opened LabelMaps
  import opened Pairs
  import opened Config
  import opened Centroids
  import opened Keypoints

  /** A constructed dataset: its options, the values derived from them, the
      phase, the selected rows and the centroid cache. */
  datatype Dataset = Dataset(
    opts: Options,
    derived: Derived,
    phase: string,
    rows: seq<Pair>,
    cache: Cache)

  /** The errors construction and loading can raise. */
  datatype DatasetError =
    | FileNotFound(name: string)
    | IndexError
    | NameError
    | PoseFailure(error: PoseError)

  /** What a constructed dataset keeps true: the cache, when present, has one
      slot per row and each slot is empty or full, and a dataset that
      collects centroids has a cache. */
  ghost predicate Valid(ds: Dataset) {
    && (ds.cache.Some? ==> |ds.cache.value| == |ds.rows|)
    && Settled(ds.cache)
    && (Collecting(ds) ==> ds.cache.Some?)
  }

  /** Centroids are collected only in phase "train" with the loss turned on. */
  predicate Collecting(ds: Dataset) {
    ds.phase == "train" && ds.opts.addPdLoss
  }

  /** Construction: derive the configuration, read the manifest the phase
      names (the files on disk are given as `manifests`), rewrite the targets
      for "test_same", keep the rows of the phase and allocate the cache. */
  function Construct(opts: Options, phase: string, manifests: map<string, seq<Pair>>,
                     explicit: Option<string>): (r: Result<Dataset, DatasetError>)
    ensures ManifestName(phase, explicit) !in manifests ==>
      r == Failure(FileNotFound(ManifestName(phase, explicit)))
    ensures ManifestName(phase, explicit) in manifests ==>
      var listed := manifests[ManifestName(phase, explicit)];
      && r.Success?
      && Valid(r.value)
      && r.value.phase == phase && r.value.opts == opts
      && r.value.derived == Derive(opts)
      && r.value.rows == Select(phase, Retarget(phase, listed), opts.trainSize, opts.valSize)
      && (r.value.cache.Some? <==> (phase == "train" || phase == "train_whole") && opts.addPdLoss)
      && (r.value.cache.Some? ==> forall k :: 0 <= k < |r.value.rows| ==> r.value.cache.value[k].None?)
  {
    var name := ManifestName(phase, explicit);
    if name !in manifests then Failure(FileNotFound(name))
    else
      var rows := Select(phase, Retarget(phase, manifests[name]), opts.trainSize, opts.valSize);
      Success(Dataset(opts, Derive(opts), phase, rows, Allocate(phase, opts.addPdLoss, |rows|)))
  }

  /** Number of samples: the indices it admits are those `ResolveIndex`
      accepts, and a cache has one slot per sample. */
  function Length(ds: Dataset): (n: nat)
    ensures n == |ds.rows|
    ensures forall index :: ResolveIndex(index, n).Some? <==> 0 <= index + n && index < n
    ensures Valid(ds) && ds.cache.Some? ==> |ds.cache.value| == n
  {
    |ds.rows|
  }

  /** Python's indexing of a sequence of length `n`: negative indices count
      from the end; anything else out of range is an index error. */
  function ResolveIndex(index: int, n: nat): (k: Option<nat>)
    ensures k.Some? <==> 0 <= index + n && index < n
    ensures k.Some? ==> k.value < n && (index >= 0 ==> k.value == index) && (index < 0 ==> k.value == index + n)
  {
    if 0 <= index < n then Some(index)
    else if 0 <= index + n && index < 0 then Some(index + n)
    else None
  }

  /** Python's `str.find(t) >= 0`: `t` occurs in `s`. */
  predicate Contains(s: string, t: string)
    decreases |s|
  {
    if |t| > |s| then false
    else if s[..|t|] == t then true
    else Contains(s[1..], t)
  }

  /** `t` occurs in `s` starting at position `i`. */
  predicate OccursAt(s: string, t: string, i: nat) {
    i + |t| <= |s| && s[i..i + |t|] == t
  }

  /** A slice of the tail is the slice one position further on. */
  lemma SliceOfTail(s: string, a: nat, b: nat)
    requires a <= b && b + 1 <= |s|
    ensures s[1..][a..b] == s[a + 1..b + 1]
  {
    assert |s[1..][a..b]| == |s[a + 1..b + 1]|;
    forall k | 0 <= k < b - a
      ensures s[1..][a..b][k] == s[a + 1..b + 1][k]
    {
    }
  }

  /** The scan finds `t` exactly when it occurs somewhere in `s`. */
  lemma {:induction false} ContainsIff(s: string, t: string)
    ensures Contains(s, t) <==> exists i: nat :: OccursAt(s, t, i)
    decreases |s|
  {
    if |t| > |s| {
      forall i: nat ensures !OccursAt(s, t, i) {}
    } else if s[..|t|] == t {
      assert OccursAt(s, t, 0);
    } else {
      ContainsIff(s[1..], t);
      if Contains(s, t) {
        var j: nat :| OccursAt(s[1..], t, j);
        SliceOfTail(s, j, j + |t|);
        assert OccursAt(s, t, j + 1);
      } else {
        forall i: nat ensures !OccursAt(s, t, i) {
          if i > 0 && i + |t| <= |s| {
            SliceOfTail(s, i - 1, i - 1 + |t|);
            assert !OccursAt(s[1..], t, i - 1);
          }
        }
      }
    }
  }

  /** Whether the legacy pose-conditioned representation is built: the
      warping model's identifier contains "old". */
  predicate Legacy(opts: Options)
    ensures Legacy(opts) <==> exists i: nat :: OccursAt(opts.bpgmId, "old", i)
  {
    ContainsIff(opts.bpgmId, "old");
    Contains(opts.bpgmId, "old")
  }

  /** The files of one sample, already loaded and resized to the target size
      (the cloth image is kept at its own size). `dense` is the label map the
      dense-pose segmenter produced for the person image. */
  datatype Assets = Assets(
    image: Image,
    cloth: Image,
    clothSeg: Image,
    storedMask: seq<seq<Byte>>,
    bodySeg: Image,
    dense: seq<seq<int>>,
    pose: PoseFile)

  /** The images the sample uses have the dataset's target size. */
  predicate Fits(ds: Dataset, a: Assets) {
    var h, w := ds.derived.height, ds.derived.width;
    && HasShape(a.image, h, w)
    && (Cloth in ds.opts.segmentation ==> HasShape(a.clothSeg, h, w))
    && (Cloth !in ds.opts.segmentation ==> HasShape(a.storedMask, h, w))
    && (Body in ds.opts.segmentation ==> HasShape(a.bodySeg, h, w))
  }

  /** The legacy agnostic representation, before its channels are stacked:
      the person silhouette, the head mask and which pose channels are lit. */
  datatype Agnostic = Agnostic(silhouette: seq<seq<int>>, head: seq<seq<int>>, pose: seq<bool>)

  /** The centroid field of a sample: "" when the dataset keeps no cache, the
      index's cache slot when it does, and an empty tensor without body
      labels. */
  datatype CentroidField = NoCache | Slot(entry: Entry) | NoBodyLabels

  /** One assembled sample. Images are given before normalisation. */
  datatype Sample = Sample(
    image: Image,
    cloth: Image,
    masked: Image,
    clothLabel: Option<seq<seq<nat>>>,
    bodyLabel: Option<seq<seq<nat>>>,
    denseLabel: Option<seq<seq<int>>>,
    name: string,
    agnostic: Option<Agnostic>,
    originalSize: (int, int),
    centroid: CentroidField)

  /** The person silhouette: 1 where the cloth segmentation is not the
      background colour, -1 where it is. */
  function Silhouette(seg: Image): (s: seq<seq<int>>)
    ensures SameShape(s, seg)
    ensures forall y, x :: 0 <= y < |seg| && 0 <= x < |seg[y]| ==>
      (s[y][x] == 1 <==> seg[y][x] != Black) && (s[y][x] == -1 <==> seg[y][x] == Black)
  {
    seq(|seg|, y requires 0 <= y < |seg| =>
      seq(|seg[y]|, x requires 0 <= x < |seg[y]| =>
        (1 - (if seg[y][x] == Black then 1 else 0)) * 2 - 1))
  }

  /** The head mask: the number of head colours a pixel matches, which is 1
      on hair and head pixels and 0 elsewhere. */
  function HeadMask(seg: Image): (m: seq<seq<int>>)
    ensures SameShape(m, seg)
    ensures forall y, x :: 0 <= y < |seg| && 0 <= x < |seg[y]| ==>
      (m[y][x] == 1 <==> seg[y][x] in HeadColours) && (m[y][x] == 0 <==> seg[y][x] !in HeadColours)
  {
    seq(|seg|, y requires 0 <= y < |seg| =>
      seq(|seg[y]|, x requires 0 <= x < |seg[y]| =>
        (if seg[y][x] == HeadColours[0] then 1 else 0) + (if seg[y][x] == HeadColours[1] then 1 else 0)))
  }

  /** The cloth labels (in cloth mode) and the person image with the cloth
      region blacked out: the region is the cloth foreground in cloth mode
      and the stored mask otherwise. */
  method MaskPerson(ds: Dataset, a: Assets) returns (clothLabel: Option<seq<seq<nat>>>, masked: Image)
    requires Fits(ds, a)
    ensures clothLabel.Some? <==> Cloth in ds.opts.segmentation
    ensures SameShape(masked, a.image)
    ensures forall y, x :: 0 <= y < |a.image| && 0 <= x < |a.image[y]| ==>
      masked[y][x] == if ForegroundAt(ds, a, y, x) then Black else a.image[y][x]
    ensures clothLabel.Some? ==>
      && SameShape(clothLabel.value, a.clothSeg)
      && forall y, x :: 0 <= y < |a.clothSeg| && 0 <= x < |a.clothSeg[y]| ==>
           clothLabel.value[y][x] == PixelLabel(ClothPalette, a.clothSeg[y][x])
  {
    var mask: seq<seq<Bit>>;
    if Cloth in ds.opts.segmentation {
      var labels, m := ClothSegmentation(a.clothSeg, ds.opts.noBg);
      clothLabel, mask := Some(labels), m;
    } else {
      clothLabel, mask := None, Binarise(a.storedMask);
    }
    masked := MaskedImage(a.image, mask);
  }

  /** The legacy agnostic representation, or the error raised while building
      it: the pose file is parsed first, and the silhouette and head mask
      need the cloth segmentation, which only cloth mode loads. */
  function LegacyAgnostic(ds: Dataset, a: Assets): (r: Result<Agnostic, DatasetError>)
    ensures ParsePose(a.pose).Failure? ==> r == Failure(PoseFailure(ParsePose(a.pose).error))
    ensures ParsePose(a.pose).Success? && Cloth !in ds.opts.segmentation ==> r == Failure(NameError)
    ensures r.Success? <==> ParsePose(a.pose).Success? && Cloth in ds.opts.segmentation
    ensures r.Success? ==>
      && ParsePose(a.pose).Success? && Cloth in ds.opts.segmentation
      && r.value.pose == PoseChannels(ParsePose(a.pose).value, ds.derived.height, ds.derived.width)
      && r.value.silhouette == Silhouette(a.clothSeg)
      && r.value.head == HeadMask(a.clothSeg)
  {
    var kps := ParsePose(a.pose);
    if kps.Failure? then Failure(PoseFailure(kps.error))
    else if Cloth !in ds.opts.segmentation then Failure(NameError)
    else Success(Agnostic(Silhouette(a.clothSeg), HeadMask(a.clothSeg),
                          PoseChannels(kps.value, ds.derived.height, ds.derived.width)))
  }

  /** Loading sample `index`. Returns the sample or the error raised, and the
      dataset after the call: the centroid cache is updated while the body
      labels are converted, before the pose file is read, so it keeps that
      update even when a later step fails. */
  method GetItem(ds: Dataset, index: int, a: Assets) returns (r: Result<Sample, DatasetError>, after: Dataset)
    requires Valid(ds)
    requires Fits(ds, a)
    ensures Valid(after)
    ensures after.opts == ds.opts && after.derived == ds.derived && after.phase == ds.phase && after.rows == ds.rows
    ensures ResolveIndex(index, |ds.rows|).None? ==> r == Failure(IndexError) && after == ds
    ensures ResolveIndex(index, |ds.rows|).Some? ==>
      var k := ResolveIndex(index, |ds.rows|).value;
      var modes := ds.opts.segmentation;
      && (Body !in modes ==> after.cache == ds.cache)
      && (Body in modes ==> after.cache == Visit(ds.cache, k, a.bodySeg, Collecting(ds)))
      && (Body in modes && Collecting(ds) && ds.cache.value[k].None? ==>
            after.cache.value[k] == Some(HandCentroids(a.bodySeg)))
      && (Legacy(ds.opts) && ParsePose(a.pose).Failure? ==>
            r == Failure(PoseFailure(ParsePose(a.pose).error)))
      && (Legacy(ds.opts) && ParsePose(a.pose).Success? && Cloth !in modes ==> r == Failure(NameError))
      && (r.Failure? ==> Legacy(ds.opts))
      && (r.Success? <==> !Legacy(ds.opts) || (ParsePose(a.pose).Success? && Cloth in modes))
    ensures r.Success? ==>
      var k := ResolveIndex(index, |ds.rows|).value;
      var s, modes := r.value, ds.opts.segmentation;
      && s.name == ds.rows[k].poseA
      && s.image == a.image && s.cloth == a.cloth
      && s.originalSize == (ds.derived.height, ds.derived.width)
      && (s.clothLabel.Some? <==> Cloth in modes)
      && (s.bodyLabel.Some? <==> Body in modes)
      && (s.denseLabel.Some? <==> DensePose in modes)
      && (s.agnostic.Some? <==> Legacy(ds.opts))
      && SameShape(s.masked, a.image)
      && (forall y, x :: 0 <= y < |a.image| && 0 <= x < |a.image[y]| ==>
            s.masked[y][x] == if ForegroundAt(ds, a, y, x) then Black else a.image[y][x])
      && (s.clothLabel.Some? ==>
            && SameShape(s.clothLabel.value, a.clothSeg)
            && forall y, x :: 0 <= y < |a.clothSeg| && 0 <= x < |a.clothSeg[y]| ==>
                 s.clothLabel.value[y][x] == PixelLabel(ClothPalette, a.clothSeg[y][x]))
      && (s.bodyLabel.Some? ==>
            && SameShape(s.bodyLabel.value, a.bodySeg)
            && forall y, x :: 0 <= y < |a.bodySeg| && 0 <= x < |a.bodySeg[y]| ==>
                 s.bodyLabel.value[y][x] == PixelLabel(BodyPalette, a.bodySeg[y][x]))
      && (s.denseLabel.Some? ==> s.denseLabel.value == a.dense)
      && (Body !in modes ==> s.centroid == NoBodyLabels)
      && (Body in modes && ds.cache.None? ==> s.centroid == NoCache)
      && (Body in modes && ds.cache.Some? ==> s.centroid == Slot(after.cache.value[k]))
      && (s.agnostic.Some? ==>
            var kps := ParsePose(a.pose).value;
            s.agnostic.value.pose == PoseChannels(kps, ds.derived.height, ds.derived.width)
            && s.agnostic.value.silhouette == Silhouette(a.clothSeg)
            && s.agnostic.value.head == HeadMask(a.clothSeg))
  {
    var resolved := ResolveIndex(index, |ds.rows|);
    if resolved.None? {
      return Failure(IndexError), ds;
    }
    var k := resolved.value;
    var modes := ds.opts.segmentation;

    var dense: Option<seq<seq<int>>> := if DensePose in modes then Some(a.dense) else None;
    var clothLabel, masked := MaskPerson(ds, a);

    var bodyLabel: Option<seq<seq<nat>>>;
    var centroid: CentroidField;
    after := ds;
    if Body in modes {
      var labels := ConvertLabels(BodyPalette, a.bodySeg);
      bodyLabel := Some(labels);
      after := ds.(cache := Visit(ds.cache, k, a.bodySeg, Collecting(ds)));
      centroid := if after.cache.Some? then Slot(after.cache.value[k]) else NoCache;
    } else {
      bodyLabel, centroid := None, NoBodyLabels;
    }

    var agnostic: Option<Agnostic> := None;
    if Legacy(ds.opts) {
      var g := LegacyAgnostic(ds, a);
      if g.Failure? {
        return Failure(g.error), after;
      }
      agnostic := Some(g.value);
    }

    r := Success(Sample(a.image, a.cloth, masked, clothLabel, bodyLabel, dense, ds.rows[k].poseA,
                        agnostic, (ds.derived.height, ds.derived.width), centroid));
  }

  /** Whether pixel (y, x) is punched out of the person image: a cloth
      foreground pixel in cloth mode, a positive stored-mask value otherwise. */
  ghost predicate ForegroundAt(ds: Dataset, a: Assets, y: nat, x: nat)
    requires Fits(ds, a)
    requires y < |a.image| && x < |a.image[y]|
  {
    if Cloth in ds.opts.segmentation then
      exists j :: 0 <= j < Threshold(ds.opts.noBg) && ClothPalette[j] == a.clothSeg[y][x]
    else a.storedMask[y][x] > 0
  }
}

/** The options the dataset reads and the label-count, channel-offset and
    image-size values it derives from them when it is constructed. */
module Config {
  import opened Numeric
  import opened Palettes

  /** A segmentation mode; the order body, cloth, dense-pose is fixed. */
  datatype Mode = Body | Cloth | DensePose

  const ModeOrder: seq<Mode> := [Body, Cloth, DensePose]

  /** The configured image size: one side, or an explicit (height, width). */
  datatype SizeOption = Side(n: int) | HeightWidth(h: int, w: int)

  /** The dataset's options. `segmentation` holds the active modes, `noBg`
      adds the background to the cloth foreground, `bpgmId` names the warping
      model and `addPdLoss` turns on the centroid records. */
  datatype Options = Options(
    segmentation: set<Mode>,
    imgSize: SizeOption,
    noBg: bool,
    trainSize: Share,
    valSize: Share,
    bpgmId: string,
    addPdLoss: bool)

  /** The values computed from the options when the dataset is constructed. */
  datatype Derived = Derived(
    labelNc: seq<nat>,
    semanticNc: seq<nat>,
    offsets: seq<int>,
    height: int,
    width: int)

  /** Number of labels per mode: the sizes of the three palettes. */
  const LabelCounts: seq<nat> := [|BodyPalette|, |ClothPalette|, |DensePosePalette|]

  /** Number of semantic classes per mode: one more than its labels. */
  function SemanticCounts(): (s: seq<nat>)
    ensures s == [16, 21, 26]
  {
    PaletteShapes();
    seq(|LabelCounts|, i requires 0 <= i < |LabelCounts| => LabelCounts[i] + 1)
  }

  lemma CountValues()
    ensures LabelCounts == [15, 20, 25] && SemanticCounts() == [16, 21, 26]
  {
  }

  /** Whether each mode, in the fixed order, is active. */
  function ActiveModes(modes: set<Mode>): (a: seq<bool>)
    ensures |a| == |ModeOrder| && forall i :: 0 <= i < |a| ==> (a[i] <==> ModeOrder[i] in modes)
  {
    [Body in modes, Cloth in modes, DensePose in modes]
  }

  /** The channels a mode takes in the discriminator output: its semantic
      classes plus the real/fake class. */
  function Widths(): seq<int> {
    seq(|LabelCounts|, i requires 0 <= i < |LabelCounts| => SemanticCounts()[i] + 1)
  }

  /** Sum of `w[lo..hi]`. */
  function Span(w: seq<int>, lo: nat, hi: nat): int
    requires lo <= hi <= |w|
    decreases hi
  {
    if lo == hi then 0 else Span(w, lo, hi - 1) + w[hi - 1]
  }

  /** First index of the run of active modes that ends just before `k`. */
  function RunStart(active: seq<bool>, k: nat): (s: nat)
    requires k <= |active|
    ensures s <= k && forall j :: s <= j < k ==> active[j]
    ensures s > 0 ==> !active[s - 1]
  {
    if k == 0 || !active[k - 1] then k else RunStart(active, k - 1)
  }

  /** The offsets after `k` modes of the construction loop: it starts from
      [0] and appends, per mode, the previous offset plus the mode's width when
      the mode is active, and 0 when it is not. So every offset is the total
      width of the run of active modes just before it: an inactive mode resets
      the running sum. */
  function OffsetsUpTo(active: seq<bool>, w: seq<int>, k: nat): (o: seq<int>)
    requires |active| == |w| && k <= |active|
    ensures |o| == k + 1 && o[0] == 0
    ensures forall i :: 0 < i <= k && !active[i - 1] ==> o[i] == 0
    ensures forall i :: 0 < i <= k && active[i - 1] ==> o[i] == Span(w, RunStart(active, i), i)
    decreases k
  {
    if k == 0 then [0]
    else
      var o := OffsetsUpTo(active, w, k - 1);
      o + [if active[k - 1] then o[k - 1] + w[k - 1] else 0]
  }

  /** The closed form gives back the loop's step: an active mode appends the
      previous offset plus its width. */
  lemma {:induction false} OffsetStep(active: seq<bool>, w: seq<int>, k: nat, i: nat)
    requires |active| == |w| && k <= |active|
    requires 0 < i <= k && active[i - 1]
    ensures OffsetsUpTo(active, w, k)[i] == OffsetsUpTo(active, w, k)[i - 1] + w[i - 1]
  {
    var o := OffsetsUpTo(active, w, k);
    var s := RunStart(active, i);
    assert s == RunStart(active, i - 1);
    assert Span(w, s, i) == Span(w, s, i - 1) + w[i - 1];
    if s < i - 1 {
      assert active[i - 2];
      assert o[i - 1] == Span(w, s, i - 1);
    } else {
      assert o[i - 1] == 0;
    }
  }

  /** The discriminator channel offsets for a set of active modes. */
  function Offsets(modes: set<Mode>): seq<int> {
    OffsetsUpTo(ActiveModes(modes), Widths(), |ModeOrder|)
  }

  /** The offsets with every mode active, and two configurations showing the
      reset: without cloth the dense-pose offset restarts from 0. */
  lemma OffsetExamples()
    ensures Offsets({Body, Cloth, DensePose}) == [0, 17, 39, 66]
    ensures Offsets({Body, DensePose}) == [0, 17, 0, 27]
    ensures Offsets({Cloth}) == [0, 0, 22, 0]
  {
    CountValues();
    var w := Widths();
    assert |w| == 3 && w[0] == 17 && w[1] == 22 && w[2] == 27;
    assert w == [17, 22, 27];
    var all := ActiveModes({Body, Cloth, DensePose});
    assert OffsetsUpTo(all, w, 1) == [0, 17];
    assert OffsetsUpTo(all, w, 2) == [0, 17, 39];
    var noCloth := ActiveModes({Body, DensePose});
    assert OffsetsUpTo(noCloth, w, 1) == [0, 17];
    assert OffsetsUpTo(noCloth, w, 2) == [0, 17, 0];
    var clothOnly := ActiveModes({Cloth});
    assert OffsetsUpTo(clothOnly, w, 1) == [0, 0];
    assert OffsetsUpTo(clothOnly, w, 2) == [0, 0, 22];
  }

  /** The (height, width) the images are resized to: a single side `n`
      becomes `(n, int(n * 0.75))`. */
  function ImageSize(s: SizeOption): (hw: (int, int))
    ensures s.HeightWidth? ==> hw == (s.h, s.w)
    ensures s.Side? ==> hw.0 == s.n
    ensures s.Side? && s.n >= 0 ==> 4 * hw.1 <= 3 * s.n < 4 * hw.1 + 4
    ensures s.Side? && s.n < 0 ==> 4 * hw.1 - 4 < 3 * s.n <= 4 * hw.1
  {
    match s
    case Side(n) => (n, TruncDiv(3 * n, 4))
    case HeightWidth(h, w) => (h, w)
  }

  /** Everything derived from the options at construction. */
  function Derive(opts: Options): (d: Derived)
    ensures d.labelNc == [15, 20, 25] && d.semanticNc == [16, 21, 26]
    ensures |d.offsets| == 4 && d.offsets[0] == 0
    ensures forall i :: 0 <= i < 3 && ModeOrder[i] !in opts.segmentation ==> d.offsets[i + 1] == 0
    ensures forall i :: 0 <= i < 3 && ModeOrder[i] in opts.segmentation ==>
      d.offsets[i + 1] == d.offsets[i] + d.semanticNc[i] + 1
    ensures d.offsets == Offsets(opts.segmentation)
    ensures (d.height, d.width) == ImageSize(opts.imgSize)
  {
    CountValues();
    var active, w := ActiveModes(opts.segmentation), Widths();
    var o := Offsets(opts.segmentation);
    assert forall i :: 0 <= i < 3 && active[i] ==> o[i + 1] == o[i] + w[i] by {
      forall i | 0 <= i < 3 && active[i] {
        OffsetStep(active, w, 3, i + 1);
      }
    }
    var hw := ImageSize(opts.imgSize);
    Derived(LabelCounts, SemanticCounts(), Offsets(opts.segmentation), hw.0, hw.1)
  }
}

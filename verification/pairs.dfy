/** The pair list: which manifest is read, how the phase rewrites and slices
    it, and the asset file names derived from a person image name. */
module Pairs {
  import opened Wrappers
  import opened Numeric

  /** One manifest row: the person image and the target cloth image. */
  datatype Pair = Pair(poseA: string, target: string)

  /** Python's `str.replace(pat, rep)`: every non-overlapping occurrence of
      `pat`, found left to right, is replaced by `rep`; an empty `pat` inserts
      `rep` before every character and at the end. */
  function ReplaceAll(s: string, pat: string, rep: string): string
    decreases |s|
  {
    if |pat| == 0 then
      (if |s| == 0 then rep else rep + [s[0]] + ReplaceAll(s[1..], pat, rep))
    else if |s| < |pat| then s
    else if s[..|pat|] == pat then rep + ReplaceAll(s[|pat|..], pat, rep)
    else [s[0]] + ReplaceAll(s[1..], pat, rep)
  }

  /** `r` is `s` with the variant digit of every "_0" turned into "1". */
  ghost predicate VariantSwapped(s: string, r: string) {
    |r| == |s| &&
    forall i :: 0 <= i < |s| ==>
      r[i] == (if 0 < i && s[i - 1] == '_' && s[i] == '0' then '1' else s[i])
  }

  /** Replacing "_0" by "_1" changes exactly the '0' of each "_0" and nothing
      else: occurrences cannot overlap, so the left-to-right scan finds all. */
  lemma {:induction false} SwapVariantPointwise(s: string)
    ensures VariantSwapped(s, ReplaceAll(s, "_0", "_1"))
    decreases |s|
  {
    var r := ReplaceAll(s, "_0", "_1");
    if |s| < 2 {
      assert r == s;
    } else if s[..2] == "_0" {
      var t := ReplaceAll(s[2..], "_0", "_1");
      SwapVariantPointwise(s[2..]);
      assert r == "_1" + t;
      forall i | 0 <= i < |s|
        ensures r[i] == (if 0 < i && s[i - 1] == '_' && s[i] == '0' then '1' else s[i])
      {
        if i >= 2 {
          assert s[2..][i - 2] == s[i];
          if i > 2 { assert s[2..][i - 3] == s[i - 1]; }
        } else {
          assert s[0] == '_' && s[1] == '0';
        }
      }
    } else {
      var t := ReplaceAll(s[1..], "_0", "_1");
      SwapVariantPointwise(s[1..]);
      assert r == [s[0]] + t;
      forall i | 0 <= i < |s|
        ensures r[i] == (if 0 < i && s[i - 1] == '_' && s[i] == '0' then '1' else s[i])
      {
        if i >= 1 {
          assert s[1..][i - 1] == s[i];
          if i > 1 { assert s[1..][i - 2] == s[i - 1]; }
          if i == 1 { assert s[..2] == [s[0], s[1]]; }
        }
      }
    }
  }

  /** The literal example of same-person reconstruction. */
  lemma SwapVariantExample()
    ensures ReplaceAll("001_0.jpg", "_0", "_1") == "001_1.jpg"
  {
    var s, t := "001_0.jpg", "001_1.jpg";
    var r := ReplaceAll(s, "_0", "_1");
    SwapVariantPointwise(s);
    assert s == ['0', '0', '1', '_', '0', '.', 'j', 'p', 'g'];
    assert t == ['0', '0', '1', '_', '1', '.', 'j', 'p', 'g'];
    assert |r| == |t|;
    forall i | 0 <= i < |t|
      ensures r[i] == t[i]
    {
      assert r[i] == (if 0 < i && s[i - 1] == '_' && s[i] == '0' then '1' else s[i]);
    }
  }

  /** Replacing a suffix `pat` whose first character does not occur in `stem`
      touches only that suffix. */
  lemma {:induction false} ReplaceSuffix(stem: string, pat: string, rep: string)
    requires |pat| > 0 && pat[0] !in stem
    ensures ReplaceAll(stem + pat, pat, rep) == stem + rep
    decreases |stem|
  {
    var s := stem + pat;
    if |stem| == 0 {
      assert s[..|pat|] == pat && s[|pat|..] == [];
    } else {
      assert s[..|pat|][0] == stem[0] != pat[0];
      assert s[1..] == stem[1..] + pat;
      ReplaceSuffix(stem[1..], pat, rep);
    }
  }

  /** File name of the cloth, body and stored-mask segmentations of a person. */
  function ParseName(poseA: string): string {
    ReplaceAll(poseA, ".jpg", ".png")
  }

  /** File name of the keypoint annotation of a person. */
  function PoseName(poseA: string): string {
    ReplaceAll(poseA, ".jpg", "_keypoints.json")
  }

  /** For a name `stem.jpg` with no other dot, the derived names keep the stem
      and swap the extension. */
  lemma DerivedNames(stem: string)
    requires '.' !in stem
    ensures ParseName(stem + ".jpg") == stem + ".png"
    ensures PoseName(stem + ".jpg") == stem + "_keypoints.json"
  {
    ReplaceSuffix(stem, ".jpg", ".png");
    ReplaceSuffix(stem, ".jpg", "_keypoints.json");
  }

  /** The manifest read when no explicit pair list is given depends on the
      phase; an explicit name, even an empty one, is used as it is. */
  function ManifestName(phase: string, explicit: Option<string>): (name: string)
    ensures explicit.Some? ==> name == explicit.value
    ensures explicit.None? && (phase == "test" || phase == "test_same") ==>
      name == "viton_test_pairs.txt"
    ensures explicit.None? && phase != "test" && phase != "test_same" ==>
      name == "viton_train_pairs.txt"
  {
    match explicit
    case Some(n) => n
    case None => "viton_" + (if phase in {"test", "test_same"} then "test" else "train") + "_pairs.txt"
  }

  /** In phase "test_same" every target is recomputed from its person image;
      otherwise the rows are kept. */
  function Retarget(phase: string, rows: seq<Pair>): seq<Pair> {
    if phase == "test_same" then
      seq(|rows|, k requires 0 <= k < |rows| =>
        Pair(rows[k].poseA, ReplaceAll(rows[k].poseA, "_0", "_1")))
    else rows
  }

  /** Only the targets change, and each becomes its person image with the
      variant swapped. */
  lemma RetargetTestSame(phase: string, rows: seq<Pair>)
    ensures |Retarget(phase, rows)| == |rows|
    ensures forall k :: 0 <= k < |rows| ==> Retarget(phase, rows)[k].poseA == rows[k].poseA
    ensures phase == "test_same" ==>
      forall k :: 0 <= k < |rows| ==> VariantSwapped(rows[k].poseA, Retarget(phase, rows)[k].target)
    ensures phase != "test_same" ==> Retarget(phase, rows) == rows
  {
    if phase == "test_same" {
      forall k | 0 <= k < |rows| {
        SwapVariantPointwise(rows[k].poseA);
      }
    }
  }

  /** How Python normalises a slice bound `i` for a sequence of length `n`. */
  function SliceBound(i: int, n: nat): (k: nat)
    ensures k <= n
  {
    if i < 0 then (if i + n < 0 then 0 else i + n)
    else if i > n then n
    else i
  }

  /** The rows a phase keeps, with `k` the truncated product of the list
      length and the phase's share. "train" keeps the first `k` rows (all but
      the last `-k` when `k` is negative); "val" keeps the last `k` rows, and
      the whole list when `k` is 0 (Python's `-0`) or at least the length;
      every other phase keeps everything. */
  function Select(phase: string, rows: seq<Pair>, train: Share, val: Share): (kept: seq<Pair>)
    ensures phase == "train" ==>
      var n, k := |rows|, Scale(|rows|, train);
      (0 <= k ==> kept == rows[..if k < n then k else n]) &&
      (k < 0 ==> kept == rows[..if n + k < 0 then 0 else n + k])
    ensures phase == "val" ==>
      var n, k := |rows|, Scale(|rows|, val);
      (0 < k < n ==> kept == rows[n - k..]) &&
      (k == 0 || k >= n ==> kept == rows) &&
      (k < 0 ==> kept == rows[if -k < n then -k else n..])
    ensures phase != "train" && phase != "val" ==> kept == rows
  {
    var n := |rows|;
    if phase == "train" then rows[..SliceBound(Scale(n, train), n)]
    else if phase == "val" then rows[SliceBound(-Scale(n, val), n)..]
    else rows
  }

  /** With non-negative shares, the train rows, an unused middle and the val
      rows partition the manifest in order whenever the val share keeps some
      rows and the two counts add up to at most the length; a val share that
      truncates to zero rows keeps the whole list instead, overlapping the
      train rows. */
  lemma SplitPartition(rows: seq<Pair>, train: Share, val: Share)
    requires train.num >= 0 && val.num >= 0
    ensures
      var n := |rows|;
      var kt := n * train.num / train.den;
      var kv := n * val.num / val.den;
      (0 < kv && kt + kv <= n ==>
        rows == Select("train", rows, train, val) + rows[kt..n - kv] + Select("val", rows, train, val))
      && (kv == 0 ==> Select("val", rows, train, val) == rows)
  {
    var n := |rows|;
    ScaleNonNegative(n, train);
    ScaleNonNegative(n, val);
    var kt := n * train.num / train.den;
    var kv := n * val.num / val.den;
    if 0 < kv && kt + kv <= n {
      assert rows == rows[..kt] + rows[kt..n - kv] + rows[n - kv..];
    }
  }
}

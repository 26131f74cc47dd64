/** The pose keypoints of the legacy agnostic representation: parsing the
    annotation, the fallback for an image without a detected person, and the
    gate that decides which keypoints are drawn. */
module Keypoints {
  import opened Wrappers
  import opened Numeric

  /** One keypoint: position and detection confidence. */
  datatype Keypoint = Keypoint(x: real, y: real, c: real)

  /** A JSON number: the reader yields an integer or a float. */
  datatype Number = Int(i: int) | Float(f: real)

  /** One detected person; `None` when it has no "pose_keypoints_2d" key. */
  datatype Person = Person(keypoints: Option<seq<Number>>)

  /** Parsed keypoints, and whether the array holding them has an integer
      element type: numpy picks one when every number read is an integer. */
  datatype Pose = Pose(points: seq<Keypoint>, integral: bool)

  /** A keypoint annotation file as the loader sees it: `Unreadable` when
      the file is missing (opening it fails before the guarded block) or is
      not valid JSON, otherwise a document whose "people" key may be
      missing. */
  datatype PoseFile = Unreadable | PoseDoc(people: Option<seq<Person>>)

  /** The exceptions the parse does not catch: only an empty "people" list
      (an index error) is recovered. `UnreadableFile` stands for both a
      missing file and a JSON decoding error. */
  datatype PoseError = UnreadableFile | KeyError | ReshapeError

  /** Number of keypoints of the fallback for an image without a person. */
  const FallbackPoints: nat := 25

  /** Reference width and height the annotations were made at. */
  const AnnotationHeight: real := 1024.0
  const AnnotationWidth: real := 768.0

  /** The flat list read as consecutive (x, y, confidence) triples. */
  function Triples(flat: seq<real>): (kps: seq<Keypoint>)
    requires |flat| % 3 == 0
    ensures 3 * |kps| == |flat|
    decreases |flat|
  {
    if |flat| == 0 then []
    else [Keypoint(flat[0], flat[1], flat[2])] + Triples(flat[3..])
  }

  /** The triples written back as one flat list. */
  function Flatten(kps: seq<Keypoint>): (flat: seq<real>)
    ensures |flat| == 3 * |kps|
  {
    if |kps| == 0 then []
    else [kps[0].x, kps[0].y, kps[0].c] + Flatten(kps[1..])
  }

  lemma {:induction false} FlattenTriples(flat: seq<real>)
    requires |flat| % 3 == 0
    ensures Flatten(Triples(flat)) == flat
    decreases |flat|
  {
    if |flat| > 0 {
      FlattenTriples(flat[3..]);
      assert flat == flat[..3] + flat[3..];
    }
  }

  lemma {:induction false} TriplesFlatten(kps: seq<Keypoint>)
    ensures Triples(Flatten(kps)) == kps
  {
    if |kps| > 0 {
      TriplesFlatten(kps[1..]);
      assert Flatten(kps)[3..] == Flatten(kps[1..]);
      assert kps == [kps[0]] + kps[1..];
    }
  }

  /** `reshape((-1, 3))`: fails unless the length is a multiple of three. */
  function Reshape(flat: seq<real>): (r: Result<seq<Keypoint>, PoseError>)
    ensures r.Success? <==> |flat| % 3 == 0
    ensures r.Success? ==> Flatten(r.value) == flat
  {
    if |flat| % 3 != 0 then Failure(ReshapeError)
    else FlattenTriples(flat); Success(Triples(flat))
  }

  /** A JSON number as a real. */
  function Value(n: Number): real {
    match n
    case Int(i) => i as real
    case Float(f) => f
  }

  /** The numbers of a list as reals. */
  function Values(flat: seq<Number>): (v: seq<real>)
    ensures |v| == |flat| && forall i :: 0 <= i < |flat| ==> v[i] == Value(flat[i])
  {
    seq(|flat|, i requires 0 <= i < |flat| => Value(flat[i]))
  }

  /** numpy builds an integer array from a non-empty list of integers only;
      an empty list and any float give a float array. */
  predicate AllIntegers(flat: seq<Number>) {
    |flat| > 0 && forall i :: 0 <= i < |flat| ==> flat[i].Int?
  }

  /** The keypoints of the first person, or 25 zero keypoints when the file
      lists nobody. Any other defect of the file is an error. */
  function ParsePose(file: PoseFile): (r: Result<Pose, PoseError>)
    ensures file.Unreadable? ==> r == Failure(UnreadableFile)
    ensures file.PoseDoc? && file.people.None? ==> r == Failure(KeyError)
    ensures file.PoseDoc? && file.people == Some([]) ==>
      r.Success? && |r.value.points| == FallbackPoints && !r.value.integral &&
      forall i :: 0 <= i < |r.value.points| ==> r.value.points[i] == Keypoint(0.0, 0.0, 0.0)
    ensures file.PoseDoc? && file.people.Some? && |file.people.value| > 0 ==>
      var first := file.people.value[0];
      (first.keypoints.None? ==> r == Failure(KeyError)) &&
      (first.keypoints.Some? ==>
        (r.Success? <==> |first.keypoints.value| % 3 == 0) &&
        (r.Success? ==> Flatten(r.value.points) == Values(first.keypoints.value)) &&
        (r.Success? ==> (r.value.integral <==> AllIntegers(first.keypoints.value))))
  {
    match file
    case Unreadable => Failure(UnreadableFile)
    case PoseDoc(people) =>
      match people
      case None => Failure(KeyError)
      case Some(persons) =>
        if |persons| == 0 then Success(Pose(seq(FallbackPoints, _ => Keypoint(0.0, 0.0, 0.0)), false))
        else match persons[0].keypoints
          case None => Failure(KeyError)
          case Some(flat) =>
            var kps :- Reshape(Values(flat));
            Success(Pose(kps, AllIntegers(flat)))
  }

  /** A keypoint moved from annotation coordinates to an image of the given
      height and width. Both axes are scaled as the dataset scales them: x by
      the height ratio and y by the width ratio (in exact reals, x times
      height / 1024 is x * height divided by 1024). Written back into an integer
      array, the scaled coordinates are truncated toward zero. */
  function Rescale(kp: Keypoint, height: int, width: int, integral: bool): (r: Keypoint)
    ensures r.c == kp.c
    ensures !integral ==> r.x * AnnotationHeight == kp.x * height as real && r.y * AnnotationWidth == kp.y * width as real
    ensures integral ==> r.x == r.x.Floor as real && r.y == r.y.Floor as real
    ensures integral && kp.x * height as real >= 0.0 ==>
      r.x * AnnotationHeight <= kp.x * height as real < r.x * AnnotationHeight + AnnotationHeight
    ensures integral && kp.x * height as real < 0.0 ==>
      r.x * AnnotationHeight - AnnotationHeight < kp.x * height as real <= r.x * AnnotationHeight
    ensures integral && kp.y * width as real >= 0.0 ==>
      r.y * AnnotationWidth <= kp.y * width as real < r.y * AnnotationWidth + AnnotationWidth
    ensures integral && kp.y * width as real < 0.0 ==>
      r.y * AnnotationWidth - AnnotationWidth < kp.y * width as real <= r.y * AnnotationWidth
  {
    var x := kp.x * height as real / AnnotationHeight;
    var y := kp.y * width as real / AnnotationWidth;
    if integral then Keypoint(Trunc(x) as real, Trunc(y) as real, kp.c) else Keypoint(x, y, kp.c)
  }

  /** A keypoint is drawn only when both coordinates exceed 1. */
  predicate Drawn(kp: Keypoint) {
    kp.x > 1.0 && kp.y > 1.0
  }

  /** Per keypoint, whether its heatmap channel gets a square. On a float
      array a keypoint is lit when x * height > 1024 and y * width > 768; on
      an integer array the truncated coordinates must reach 2, so when
      x * height >= 2048 and y * width >= 1536. A keypoint with a
      non-positive coordinate is never lit. */
  function PoseChannels(pose: Pose, height: int, width: int): (lit: seq<bool>)
    ensures |lit| == |pose.points|
    ensures height > 0 && width > 0 && !pose.integral ==> forall i :: 0 <= i < |lit| ==>
      (lit[i] <==> pose.points[i].x * height as real > 1024.0 && pose.points[i].y * width as real > 768.0)
    ensures height > 0 && width > 0 && pose.integral ==> forall i :: 0 <= i < |lit| ==>
      (lit[i] <==> pose.points[i].x * height as real >= 2048.0 && pose.points[i].y * width as real >= 1536.0)
    ensures height >= 0 && width >= 0 ==> forall i :: 0 <= i < |lit| ==>
      (pose.points[i].x <= 0.0 || pose.points[i].y <= 0.0) ==> !lit[i]
  {
    AllGates(pose, height, width);
    seq(|pose.points|, i requires 0 <= i < |pose.points| =>
      Drawn(Rescale(pose.points[i], height, width, pose.integral)))
  }

  /** The gate of one keypoint, in annotation coordinates. */
  lemma Gate(kp: Keypoint, height: int, width: int, integral: bool)
    ensures height > 0 && width > 0 && !integral ==>
      (Drawn(Rescale(kp, height, width, integral)) <==> kp.x * height as real > 1024.0 && kp.y * width as real > 768.0)
    ensures height > 0 && width > 0 && integral ==>
      (Drawn(Rescale(kp, height, width, integral)) <==> kp.x * height as real >= 2048.0 && kp.y * width as real >= 1536.0)
    ensures height >= 0 && width >= 0 && (kp.x <= 0.0 || kp.y <= 0.0) ==> !Drawn(Rescale(kp, height, width, integral))
  {
    if height > 0 && width > 0 {
      if integral {
        GateIntegral(kp, height, width);
      } else {
        GateFloat(kp, height, width);
      }
    }
    if height >= 0 && width >= 0 && (kp.x <= 0.0 || kp.y <= 0.0) {
      NonPositiveNotDrawn(kp, height, width, integral);
    }
  }

  /** On a float array the scaled coordinates exceed 1 exactly when the
      products with the image size exceed the reference size. */
  lemma GateFloat(kp: Keypoint, height: int, width: int)
    requires height > 0 && width > 0
    ensures Drawn(Rescale(kp, height, width, false)) <==>
      kp.x * height as real > 1024.0 && kp.y * width as real > 768.0
  {
    var r := Rescale(kp, height, width, false);
    assert r.x == kp.x * height as real / 1024.0;
    assert r.y == kp.y * width as real / 768.0;
  }

  /** On an integer array the truncated coordinates exceed 1 exactly when the
      scaled ones reach 2. */
  lemma GateIntegral(kp: Keypoint, height: int, width: int)
    requires height > 0 && width > 0
    ensures Drawn(Rescale(kp, height, width, true)) <==>
      kp.x * height as real >= 2048.0 && kp.y * width as real >= 1536.0
  {
    var r := Rescale(kp, height, width, true);
    var px, py := kp.x * height as real, kp.y * width as real;
    assert r.x > 1.0 <==> r.x.Floor >= 2;
    assert r.y > 1.0 <==> r.y.Floor >= 2;
    assert r.x > 1.0 <==> px >= 2048.0;
    assert r.y > 1.0 <==> py >= 1536.0;
  }

  /** The gate of every keypoint of a pose. */
  lemma AllGates(pose: Pose, height: int, width: int)
    ensures height > 0 && width > 0 && !pose.integral ==> forall i :: 0 <= i < |pose.points| ==>
      (Drawn(Rescale(pose.points[i], height, width, pose.integral)) <==>
        pose.points[i].x * height as real > 1024.0 && pose.points[i].y * width as real > 768.0)
    ensures height > 0 && width > 0 && pose.integral ==> forall i :: 0 <= i < |pose.points| ==>
      (Drawn(Rescale(pose.points[i], height, width, pose.integral)) <==>
        pose.points[i].x * height as real >= 2048.0 && pose.points[i].y * width as real >= 1536.0)
    ensures height >= 0 && width >= 0 ==> forall i :: 0 <= i < |pose.points| ==>
      (pose.points[i].x <= 0.0 || pose.points[i].y <= 0.0) ==> !Drawn(Rescale(pose.points[i], height, width, pose.integral))
  {
    forall i | 0 <= i < |pose.points| {
      Gate(pose.points[i], height, width, pose.integral);
    }
  }

  /** A file without a detected person yields 25 channels, none of them lit. */
  lemma NobodyDrawsNothing(height: int, width: int)
    ensures
      var r := ParsePose(PoseDoc(Some([])));
      r.Success? && |PoseChannels(r.value, height, width)| == FallbackPoints &&
      forall i :: 0 <= i < FallbackPoints ==> !PoseChannels(r.value, height, width)[i]
  {
  }

  /** The point (5, 5) on a 256 x 192 image scales to (1.25, 1.25). Read as
      integers it is truncated to (1, 1) and not drawn; read as floats it is
      drawn. */
  lemma IntegerArrayTruncates()
    ensures var r := ParsePose(PoseDoc(Some([Person(Some([Int(5), Int(5), Int(1)]))])));
      r.Success? && r.value.integral && PoseChannels(r.value, 256, 192) == [false]
    ensures var r := ParsePose(PoseDoc(Some([Person(Some([Float(5.0), Float(5.0), Float(1.0)]))])));
      r.Success? && !r.value.integral && PoseChannels(r.value, 256, 192) == [true]
  {
  }

  /** A keypoint with a non-positive coordinate, such as one at (0, 0), is
      never drawn, whatever the (non-negative) image size and array type. */
  lemma NonPositiveNotDrawn(kp: Keypoint, height: int, width: int, integral: bool)
    requires kp.x <= 0.0 || kp.y <= 0.0
    requires height >= 0 && width >= 0
    ensures !Drawn(Rescale(kp, height, width, integral))
  {
    if kp.x <= 0.0 {
      assert kp.x * height as real <= 0.0;
    } else {
      assert kp.y * width as real <= 0.0;
    }
  }
}

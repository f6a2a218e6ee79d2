/** Which marks drawKeypoints puts on the image: a filled circle for every
    detected keypoint, then a white line for every limb of the fixed COCO
    skeleton whose two ends were both detected. Pixels are not modelled;
    the result is the ordered list of drawing calls. */
module PoseDrawing {
  import opened PoseKeypoints

  /** A colour as the three components of a cv::Scalar. */
  datatype Color = Color(c0: int, c1: int, c2: int)

  /** One colour per COCO keypoint, nose first. */
  const Colors: seq<Color> := [
    Color(255, 0, 0), Color(255, 85, 0), Color(255, 170, 0), Color(255, 255, 0),
    Color(170, 255, 0), Color(85, 255, 0), Color(0, 255, 0), Color(0, 255, 85),
    Color(0, 255, 170), Color(0, 255, 255), Color(0, 170, 255), Color(0, 85, 255),
    Color(0, 0, 255), Color(85, 0, 255), Color(170, 0, 255), Color(255, 0, 255),
    Color(255, 0, 170)]

  /** The limbs, as pairs of keypoint indices, in drawing order: shoulders,
      arms, torso sides, hips, legs. */
  const Skeleton: seq<(nat, nat)> := [
    (5, 6), (5, 7), (7, 9), (6, 8), (8, 10), (5, 11),
    (6, 12), (11, 12), (11, 13), (13, 15), (12, 14), (14, 16)]

  /** Circles are filled with radius 5; limbs are white lines of thickness 2. */
  const CircleRadius: int := 5
  const LimbColor: Color := Color(255, 255, 255)
  const LimbThickness: int := 2

  /** One drawing call: a filled circle for keypoint `keypoint`, or the line
      of skeleton entry `limb`. */
  datatype DrawOp =
    | Circle(keypoint: nat, center: Point, radius: int, color: Color)
    | Line(limb: nat, from: Point, to: Point, color: Color, thickness: int)

  /** The circles for keypoints 0 .. n-1 of one person, in index order. */
  function CircleOps(person: seq<Point>, n: nat): seq<DrawOp>
    requires n <= |person| && n <= |Colors|
  {
    if n == 0 then []
    else CircleOps(person, n - 1) +
         (if Present(person[n - 1]) then [Circle(n - 1, person[n - 1], CircleRadius, Colors[n - 1])] else [])
  }

  /** A limb is drawn iff both its indices are inside the person's list and
      both ends are present. */
  predicate LimbDrawn(person: seq<Point>, limb: (nat, nat))
  {
    limb.0 < |person| && limb.1 < |person| && Present(person[limb.0]) && Present(person[limb.1])
  }

  /** The lines for skeleton entries 0 .. n-1, in skeleton order. */
  function LimbOps(person: seq<Point>, n: nat): seq<DrawOp>
    requires n <= |Skeleton|
  {
    if n == 0 then []
    else LimbOps(person, n - 1) +
         (if LimbDrawn(person, Skeleton[n - 1])
          then [Line(n - 1, person[Skeleton[n - 1].0], person[Skeleton[n - 1].1], LimbColor, LimbThickness)] else [])
  }

  /** The calls for one person: all circles first, then all limbs. */
  function DrawPerson(person: seq<Point>): seq<DrawOp>
    requires |person| <= |Colors|
  {
    CircleOps(person, |person|) + LimbOps(person, |Skeleton|)
  }

  /** drawKeypoints: the calls for every person in turn; nothing for an
      empty list. A person may have at most 17 points, one per colour. */
  function DrawKeypoints(keypoints: seq<seq<Point>>): seq<DrawOp>
    requires forall p :: p in keypoints ==> |p| <= |Colors|
  {
    if keypoints == [] then []
    else DrawKeypoints(keypoints[..|keypoints| - 1]) + DrawPerson(keypoints[|keypoints| - 1])
  }

  /** Every circle is for a present keypoint below n, at that keypoint, of
      radius 5 and in the keypoint's colour. */
  lemma {:induction false} CirclesSound(person: seq<Point>, n: nat)
    requires n <= |person| && n <= |Colors|
    ensures forall op :: op in CircleOps(person, n) ==>
      op.Circle? && op.keypoint < n && op.center == person[op.keypoint] &&
      Present(op.center) && op.radius == CircleRadius && op.color == Colors[op.keypoint]
  {
    if n > 0 {
      CirclesSound(person, n - 1);
    }
  }

  /** Every present keypoint below n gets its circle. */
  lemma {:induction false} CirclesComplete(person: seq<Point>, n: nat)
    requires n <= |person| && n <= |Colors|
    ensures forall i :: 0 <= i < n && Present(person[i]) ==> Circle(i, person[i], CircleRadius, Colors[i]) in CircleOps(person, n)
  {
    if n > 0 {
      CirclesComplete(person, n - 1);
    }
  }

  /** A list of circles in strictly increasing keypoint order. */
  predicate CirclesIncreasing(ops: seq<DrawOp>)
  {
    forall a, b :: 0 <= a < b < |ops| ==> ops[a].Circle? && ops[b].Circle? && ops[a].keypoint < ops[b].keypoint
  }

  /** A list of lines in strictly increasing skeleton order. */
  predicate LinesIncreasing(ops: seq<DrawOp>)
  {
    forall a, b :: 0 <= a < b < |ops| ==> ops[a].Line? && ops[b].Line? && ops[a].limb < ops[b].limb
  }

  /** Circles come in strictly increasing keypoint order, so none is drawn twice. */
  lemma {:induction false} CirclesOrdered(person: seq<Point>, n: nat)
    requires n <= |person| && n <= |Colors|
    ensures CirclesIncreasing(CircleOps(person, n))
  {
    if n > 0 {
      CirclesOrdered(person, n - 1);
      CirclesSound(person, n - 1);
      var front := CircleOps(person, n - 1);
      var last := if Present(person[n - 1]) then [Circle(n - 1, person[n - 1], CircleRadius, Colors[n - 1])] else [];
      var ops := CircleOps(person, n);
      assert ops == front + last;
      forall a, b | 0 <= a < b < |ops|
        ensures ops[a].Circle? && ops[b].Circle? && ops[a].keypoint < ops[b].keypoint
      {
        assert ops[a] == front[a] && front[a] in front;
        if b >= |front| {
          assert ops[b] == last[0];
        } else {
          assert ops[b] == front[b];
        }
      }
    }
  }

  /** Every line is for a skeleton entry below n whose two ends are present,
      and joins those two keypoints in white with thickness 2; so a (-1, -1)
      point is never an end. */
  lemma {:induction false} LimbsSound(person: seq<Point>, n: nat)
    requires n <= |Skeleton|
    ensures forall op :: op in LimbOps(person, n) ==>
      op.Line? && op.limb < n && LimbDrawn(person, Skeleton[op.limb]) &&
      op.from == person[Skeleton[op.limb].0] && op.to == person[Skeleton[op.limb].1] &&
      Present(op.from) && Present(op.to) && op.color == LimbColor && op.thickness == LimbThickness
  {
    if n > 0 {
      LimbsSound(person, n - 1);
    }
  }

  /** Every skeleton entry below n whose ends are both present gets its line. */
  lemma {:induction false} LimbsComplete(person: seq<Point>, n: nat)
    requires n <= |Skeleton|
    ensures forall l :: 0 <= l < n && LimbDrawn(person, Skeleton[l]) ==>
      Line(l, person[Skeleton[l].0], person[Skeleton[l].1], LimbColor, LimbThickness) in LimbOps(person, n)
  {
    if n > 0 {
      LimbsComplete(person, n - 1);
    }
  }

  /** Lines come in skeleton declaration order. */
  lemma {:induction false} LimbsOrdered(person: seq<Point>, n: nat)
    requires n <= |Skeleton|
    ensures LinesIncreasing(LimbOps(person, n))
  {
    if n > 0 {
      LimbsOrdered(person, n - 1);
      LimbsSound(person, n - 1);
      var front := LimbOps(person, n - 1);
      var limb := Skeleton[n - 1];
      var last := if LimbDrawn(person, limb) then [Line(n - 1, person[limb.0], person[limb.1], LimbColor, LimbThickness)] else [];
      var ops := LimbOps(person, n);
      assert ops == front + last;
      forall a, b | 0 <= a < b < |ops|
        ensures ops[a].Line? && ops[b].Line? && ops[a].limb < ops[b].limb
      {
        assert ops[a] == front[a] && front[a] in front;
        if b >= |front| {
          assert ops[b] == last[0];
        } else {
          assert ops[b] == front[b];
        }
      }
    }
  }

  /** Every call made for a list of persons is a call of one of them. */
  lemma {:induction false} DrawnCallsBelongToPersons(keypoints: seq<seq<Point>>)
    requires forall p :: p in keypoints ==> |p| <= |Colors|
    ensures forall op :: op in DrawKeypoints(keypoints) ==>
      exists i :: 0 <= i < |keypoints| && op in DrawPerson(keypoints[i])
  {
    if keypoints != [] {
      var init, last := keypoints[..|keypoints| - 1], keypoints[|keypoints| - 1];
      assert forall p :: p in init ==> p in keypoints;
      DrawnCallsBelongToPersons(init);
      var front, tail := DrawKeypoints(init), DrawPerson(last);
      assert DrawKeypoints(keypoints) == front + tail;
      forall op | op in front + tail
        ensures exists i :: 0 <= i < |keypoints| && op in DrawPerson(keypoints[i])
      {
        if op in front {
          var i :| 0 <= i < |init| && op in DrawPerson(init[i]);
          assert keypoints[i] == init[i];
        } else {
          assert op in DrawPerson(keypoints[|keypoints| - 1]);
        }
      }
    }
  }

  /** Every call of every person in the list is made. */
  lemma {:induction false} PersonCallIsDrawn(keypoints: seq<seq<Point>>, i: nat, op: DrawOp)
    requires forall p :: p in keypoints ==> |p| <= |Colors|
    requires i < |keypoints| && op in DrawPerson(keypoints[i])
    ensures op in DrawKeypoints(keypoints)
  {
    var init := keypoints[..|keypoints| - 1];
    assert DrawKeypoints(keypoints) == DrawKeypoints(init) + DrawPerson(keypoints[|keypoints| - 1]);
    if i < |init| {
      assert forall p :: p in init ==> p in keypoints;
      assert keypoints[i] == init[i];
      PersonCallIsDrawn(init, i, op);
    }
  }

  /** The calls for a list of persons are exactly the calls for each person:
      every call belongs to some person, every person's calls are made, and
      an empty list draws nothing. */
  lemma DrawKeypointsPerPerson(keypoints: seq<seq<Point>>)
    requires forall p :: p in keypoints ==> |p| <= |Colors|
    ensures keypoints == [] ==> DrawKeypoints(keypoints) == []
    ensures forall op :: op in DrawKeypoints(keypoints) <==>
      exists i :: 0 <= i < |keypoints| && op in DrawPerson(keypoints[i])
  {
    DrawnCallsBelongToPersons(keypoints);
    forall i, op | 0 <= i < |keypoints| && op in DrawPerson(keypoints[i])
      ensures op in DrawKeypoints(keypoints)
    {
      PersonCallIsDrawn(keypoints, i, op);
    }
  }

  /** Across all persons, every line joins two present points. */
  lemma {:induction false} NoUndetectedEndpoint(keypoints: seq<seq<Point>>)
    requires forall p :: p in keypoints ==> |p| <= |Colors|
    ensures forall op :: op in DrawKeypoints(keypoints) && op.Line? ==>
      Present(op.from) && Present(op.to) && op.from != Undetected && op.to != Undetected
  {
    if keypoints != [] {
      var init, last := keypoints[..|keypoints| - 1], keypoints[|keypoints| - 1];
      assert forall p :: p in init ==> p in keypoints;
      NoUndetectedEndpoint(init);
      CirclesSound(last, |last|);
      LimbsSound(last, |Skeleton|);
    }
  }
}

/** What the trajectory display draws for the centre of mass: the path
    through the CoM positions and the axes markers of the base
    orientation, thinned out by their distance. */
module CoMTrajectory {
  import opened Common
  import opened Messages
  import opened Visuals

  /** The sanity check of the base orientation: a quaternion with a
      non-finite component becomes the identity (x, y, z, w) = (0, 0, 0, 1). */
  function SanitizeQuat(q: DQuat): (r: Quat)
    ensures IsFiniteQuat(q) ==> r == Quat(q.w.value, q.x.value, q.y.value, q.z.value)
    ensures !IsFiniteQuat(q) ==> r == IdentityQuat
  {
    if IsFiniteQuat(q) then Quat(q.w.value, q.x.value, q.y.value, q.z.value) else IdentityQuat
  }

  /** The CoM position of a state in the fixed frame. */
  function CoMPoint(s: WholeBodyState, frame: Frame): Vec3
  {
    Apply(frame, Sanitize(s.centroidal.comPosition))
  }

  /** The pose `pushBackCoMAxes` is offered for a state: the CoM position
      in the fixed frame and the base orientation composed with the
      frame's. */
  function CoMPose(s: WholeBodyState, frame: Frame): Axes
  {
    Axes(CoMPoint(s, frame), QuatMul(SanitizeQuat(s.centroidal.baseOrientation), frame.orientation))
  }

  function CoMPoses(ts: Trajectory, frame: Frame): (r: seq<Axes>)
    ensures |r| == |ts|
    ensures forall i :: 0 <= i < |ts| ==> r[i] == CoMPose(ts[i], frame)
  {
    seq(|ts|, i requires 0 <= i < |ts| => CoMPose(ts[i], frame))
  }

  /** The CoM path a Billboards or Lines pass draws. */
  function CoMPath(ts: Trajectory, frame: Frame): (r: seq<Vec3>)
    ensures |r| == |ts|
    ensures forall i :: 0 <= i < |ts| ==> r[i] == CoMPoint(ts[i], frame)
  {
    seq(|ts|, i requires 0 <= i < |ts| => CoMPoint(ts[i], frame))
  }

  /** The point visuals a Points pass creates: each shows the sanitized CoM
      position, not carried into the fixed frame, and the frame itself
      (lines 392-396). */
  function CoMPointVisuals(ts: Trajectory, frame: Frame): (r: seq<PointVisual>)
    ensures |r| == |ts|
    ensures forall i :: 0 <= i < |ts| ==> r[i] == PointVisual(Sanitize(ts[i].centroidal.comPosition), frame)
  {
    seq(|ts|, i requires 0 <= i < |ts| => PointVisual(Sanitize(ts[i].centroidal.comPosition), frame))
  }

  /** The distance test of line 586: a marker is added when its squared
      distance to the last marker is at least 0.0032 times the squared
      axes scale. */
  predicate FarEnough(p: Vec3, last: Vec3, scale: real)
  {
    SqDistance(p, last) >= scale * scale * 0.0032
  }

  /** The markers kept from `poses`, offered in order, when the last marker
      was at `last`. */
  function AxesTrail(poses: seq<Axes>, last: Vec3, scale: real): seq<Axes>
  {
    if poses == [] then []
    else if FarEnough(poses[0].position, last, scale) then [poses[0]] + AxesTrail(poses[1..], poses[0].position, scale)
    else AxesTrail(poses[1..], last, scale)
  }

  /** The position of the last marker after `poses` are offered. */
  function TrailEnd(poses: seq<Axes>, last: Vec3, scale: real): Vec3
  {
    if poses == [] then last
    else if FarEnough(poses[0].position, last, scale) then TrailEnd(poses[1..], poses[0].position, scale)
    else TrailEnd(poses[1..], last, scale)
  }

  /** No more markers than poses, none is made up, the first is far enough
      from the marker before them and each next one from the one before
      it, and the last one kept is where the next test starts. */
  lemma {:induction false} AxesTrailSpaced(poses: seq<Axes>, last: Vec3, scale: real)
    ensures |AxesTrail(poses, last, scale)| <= |poses|
    ensures forall a :: a in AxesTrail(poses, last, scale) ==> a in poses
    ensures AxesTrail(poses, last, scale) != [] ==> FarEnough(AxesTrail(poses, last, scale)[0].position, last, scale)
    ensures forall k :: 0 < k < |AxesTrail(poses, last, scale)| ==>
      FarEnough(AxesTrail(poses, last, scale)[k].position, AxesTrail(poses, last, scale)[k - 1].position, scale)
    ensures TrailEnd(poses, last, scale) ==
      if AxesTrail(poses, last, scale) == [] then last
      else AxesTrail(poses, last, scale)[|AxesTrail(poses, last, scale)| - 1].position
  {
    if poses != [] {
      var p := poses[0];
      if FarEnough(p.position, last, scale) {
        AxesTrailSpaced(poses[1..], p.position, scale);
        var rest := AxesTrail(poses[1..], p.position, scale);
        var r := [p] + rest;
        forall k | 0 < k < |r| ensures FarEnough(r[k].position, r[k - 1].position, scale) {
          if k > 1 {
            assert r[k] == rest[k - 1] && r[k - 1] == rest[k - 2];
          }
        }
      } else {
        AxesTrailSpaced(poses[1..], last, scale);
      }
    }
  }

  /** The positions in `poses` of the poses that get a marker. */
  function TrailIndices(poses: seq<Axes>, last: Vec3, scale: real): seq<nat>
  {
    if poses == [] then []
    else if FarEnough(poses[0].position, last, scale) then [0] + Shifted(TrailIndices(poses[1..], poses[0].position, scale))
    else Shifted(TrailIndices(poses[1..], last, scale))
  }

  function Shifted(idx: seq<nat>): (r: seq<nat>)
    ensures |r| == |idx|
    ensures forall k :: 0 <= k < |idx| ==> r[k] == idx[k] + 1
  {
    seq(|idx|, k requires 0 <= k < |idx| => idx[k] + 1)
  }

  /** `t` is the subsequence of `poses` at the strictly increasing
      positions `idx`. */
  ghost predicate PickedInOrder(t: seq<Axes>, idx: seq<nat>, poses: seq<Axes>)
  {
    && |idx| == |t|
    && (forall k :: 0 <= k < |idx| ==> idx[k] < |poses| && t[k] == poses[idx[k]])
    && (forall k, l :: 0 <= k < l < |idx| ==> idx[k] < idx[l])
  }

  /** Picking from the tail is picking from the whole, one position on. */
  lemma SkipFirst(rt: seq<Axes>, ri: seq<nat>, poses: seq<Axes>)
    requires poses != [] && PickedInOrder(rt, ri, poses[1..])
    ensures PickedInOrder(rt, Shifted(ri), poses)
  {
    var idx := Shifted(ri);
    forall k | 0 <= k < |idx| ensures idx[k] < |poses| && rt[k] == poses[idx[k]] {
      assert idx[k] == ri[k] + 1;
    }
  }

  /** Picking the first pose, then from the tail, is picking in order. */
  lemma TakeFirst(rt: seq<Axes>, ri: seq<nat>, poses: seq<Axes>)
    requires poses != [] && PickedInOrder(rt, ri, poses[1..])
    ensures PickedInOrder([poses[0]] + rt, [0] + Shifted(ri), poses)
  {
    SkipFirst(rt, ri, poses);
    var idx := [0] + Shifted(ri);
    var t := [poses[0]] + rt;
    forall k | 0 <= k < |idx| ensures idx[k] < |poses| && t[k] == poses[idx[k]] {
      if k > 0 {
        assert idx[k] == Shifted(ri)[k - 1] && t[k] == rt[k - 1];
      }
    }
    forall k, l | 0 <= k < l < |idx| ensures idx[k] < idx[l] {
      assert idx[l] == Shifted(ri)[l - 1];
      if k > 0 {
        assert idx[k] == Shifted(ri)[k - 1];
      }
    }
  }

  /** The markers are a subsequence of the poses offered: the `k`-th
      marker is the pose at a position that grows strictly with `k`. */
  lemma {:induction false} AxesTrailInOrder(poses: seq<Axes>, last: Vec3, scale: real)
    ensures PickedInOrder(AxesTrail(poses, last, scale), TrailIndices(poses, last, scale), poses)
  {
    if poses != [] {
      var p := poses[0];
      if FarEnough(p.position, last, scale) {
        AxesTrailInOrder(poses[1..], p.position, scale);
        TakeFirst(AxesTrail(poses[1..], p.position, scale), TrailIndices(poses[1..], p.position, scale), poses);
      } else {
        AxesTrailInOrder(poses[1..], last, scale);
        SkipFirst(AxesTrail(poses[1..], last, scale), TrailIndices(poses[1..], last, scale), poses);
      }
    }
  }

  /** With an axes scale of zero every pose gets a marker. */
  lemma {:induction false} ZeroScaleKeepsAll(poses: seq<Axes>, last: Vec3)
    ensures AxesTrail(poses, last, 0.0) == poses
  {
    if poses != [] {
      var p := poses[0];
      var d := Vec3(p.position.x - last.x, p.position.y - last.y, p.position.z - last.z);
      assert d.x * d.x >= 0.0 && d.y * d.y >= 0.0 && d.z * d.z >= 0.0;
      assert FarEnough(p.position, last, 0.0);
      ZeroScaleKeepsAll(poses[1..], p.position);
      assert poses == [p] + poses[1..];
    }
  }

  /** Offering one more pose: it gets a marker exactly when it is far
      enough from the last marker, and then it becomes the last marker. */
  lemma {:induction false} AxesTrailSnoc(poses: seq<Axes>, p: Axes, last: Vec3, scale: real)
    ensures AxesTrail(poses + [p], last, scale) ==
      AxesTrail(poses, last, scale) + (if FarEnough(p.position, TrailEnd(poses, last, scale), scale) then [p] else [])
    ensures TrailEnd(poses + [p], last, scale) ==
      if FarEnough(p.position, TrailEnd(poses, last, scale), scale) then p.position else TrailEnd(poses, last, scale)
  {
    if poses == [] {
      assert ([] + [p])[1..] == [];
    } else {
      var q := poses[0];
      assert (poses + [p])[0] == q;
      assert (poses + [p])[1..] == poses[1..] + [p];
      if FarEnough(q.position, last, scale) {
        AxesTrailSnoc(poses[1..], p, q.position, scale);
      } else {
        AxesTrailSnoc(poses[1..], p, last, scale);
      }
    }
  }
}

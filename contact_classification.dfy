/** What one pass of the whole-body state display derives from the
    contacts of a state: the support contacts and the centre of pressure
    (CoP), the support polygon, the force arrows and the friction cones,
    and the point at which the CoM is drawn. */
module ContactClassification {
  import opened Common
  import opened Messages

  /** A ground-reaction-force arrow: where it starts and the force it
      shows. */
  datatype ForceArrow = ForceArrow(position: Vec3, force: Vec3)

  /** A friction cone: its apex (the contact position, which is not
      checked for finiteness), its axis and the friction coefficient. */
  datatype FrictionCone = FrictionCone(position: DVec3, normal: Vec3, mu: real)

  /** `force.norm() > threshold`, stated on squares: the norm is never
      negative, so a negative threshold is always exceeded. */
  predicate ForceExceeds(f: Vec3, threshold: real)
  {
    threshold < 0.0 || SqNorm(f) > threshold * threshold
  }

  /** A type-0 contact is a support contact. */
  predicate IsSupport(c: ContactState) { c.ctype == 0 }

  /** The test of line 464: the force exceeds the threshold and the
      position is finite. */
  predicate Loaded(c: ContactState, threshold: real)
  {
    ForceExceeds(c.force, threshold) && IsFiniteVec(c.position)
  }

  /** A loaded contact gets an arrow when the arrow dimensions are finite:
      the shaft length is divided by the robot weight, so that needs a
      non-zero weight (lines 482-494). */
  predicate DrawsArrow(c: ContactState, threshold: real, weight: real)
  {
    Loaded(c, threshold) && weight != 0.0
  }

  /** A loaded support contact is a vertex of the support polygon. */
  predicate IsVertex(c: ContactState, threshold: real)
  {
    Loaded(c, threshold) && IsSupport(c)
  }

  /** The test of lines 505-506: the force exceeds the threshold, the
      surface normal is not zero and the friction coefficient is not
      zero. */
  predicate DrawsCone(c: ContactState, threshold: real)
  {
    ForceExceeds(c.force, threshold) && c.surfaceNormal != Zero3 && c.frictionCoefficient != 0.0
  }

  function SupportCount(cs: seq<ContactState>): (r: nat)
    ensures r <= |cs|
  {
    if cs == [] then 0
    else SupportCount(cs[..|cs| - 1]) + (if IsSupport(cs[|cs| - 1]) then 1 else 0)
  }

  /** The force-weighted sum of the support contact positions. */
  function CopSum(cs: seq<ContactState>): DVec3
  {
    if cs == [] then DZero3
    else
      var c := cs[|cs| - 1];
      var init := CopSum(cs[..|cs| - 1]);
      if IsSupport(c) then DPlus(init, DScale(c.force.z, c.position)) else init
  }

  /** The sum of the support contact forces. */
  function TotalForce(cs: seq<ContactState>): Vec3
  {
    if cs == [] then Zero3
    else
      var c := cs[|cs| - 1];
      var init := TotalForce(cs[..|cs| - 1]);
      if IsSupport(c) then Plus(init, c.force) else init
  }

  function SupportPolygon(cs: seq<ContactState>, threshold: real): seq<Vec3>
  {
    if cs == [] then []
    else
      var c := cs[|cs| - 1];
      SupportPolygon(cs[..|cs| - 1], threshold) + (if IsVertex(c, threshold) then [Value(c.position)] else [])
  }

  function ForceArrows(cs: seq<ContactState>, threshold: real, weight: real): seq<ForceArrow>
  {
    if cs == [] then []
    else
      var c := cs[|cs| - 1];
      ForceArrows(cs[..|cs| - 1], threshold, weight)
        + (if DrawsArrow(c, threshold, weight) then [ForceArrow(Value(c.position), c.force)] else [])
  }

  function FrictionCones(cs: seq<ContactState>, threshold: real): seq<FrictionCone>
  {
    if cs == [] then []
    else
      var c := cs[|cs| - 1];
      FrictionCones(cs[..|cs| - 1], threshold)
        + (if DrawsCone(c, threshold) then [FrictionCone(c.position, c.surfaceNormal, c.frictionCoefficient)] else [])
  }

  /** `friction_mu_` after the loop: the coefficient of the last contact,
      or the previous value when there is no contact. */
  function LastMu(cs: seq<ContactState>, mu0: real): real
  {
    if cs == [] then mu0 else cs[|cs| - 1].frictionCoefficient
  }

  /** The CoP of lines 531-533: the weighted sum divided by the total
      vertical force, only when there is a support contact. */
  function CenterOfPressure(cs: seq<ContactState>): DVec3
  {
    if SupportCount(cs) != 0 then DDiv(CopSum(cs), TotalForce(cs).z) else CopSum(cs)
  }

  /** The loop of `processWholeBodyState` (lines 439-529) over the
      contacts of a state, with the threshold of the previous pass. */
  method ScanContacts(cs: seq<ContactState>, threshold: real, weight: real, mu0: real)
    returns (nSupp: nat, copSum: DVec3, totalForce: Vec3, support: seq<Vec3>,
             arrows: seq<ForceArrow>, cones: seq<FrictionCone>, mu: real)
    ensures nSupp == SupportCount(cs)
    ensures copSum == CopSum(cs) && totalForce == TotalForce(cs)
    ensures support == SupportPolygon(cs, threshold)
    ensures arrows == ForceArrows(cs, threshold, weight)
    ensures cones == FrictionCones(cs, threshold)
    ensures mu == LastMu(cs, mu0)
  {
    nSupp, copSum, totalForce := 0, DZero3, Zero3;
    support, arrows, cones, mu := [], [], [], mu0;
    var i := 0;
    while i < |cs|
      invariant 0 <= i <= |cs|
      invariant nSupp == SupportCount(cs[..i])
      invariant copSum == CopSum(cs[..i]) && totalForce == TotalForce(cs[..i])
      invariant support == SupportPolygon(cs[..i], threshold)
      invariant arrows == ForceArrows(cs[..i], threshold, weight)
      invariant cones == FrictionCones(cs[..i], threshold)
      invariant mu == LastMu(cs[..i], mu0)
    {
      var c := cs[i];
      assert cs[..i + 1][..i] == cs[..i];
      if c.ctype == 0 {
        nSupp := nSupp + 1;
        copSum := DPlus(copSum, DScale(c.force.z, c.position));
        totalForce := Plus(totalForce, c.force);
      }
      if ForceExceeds(c.force, threshold) && IsFiniteVec(c.position) {
        if weight != 0.0 {
          arrows := arrows + [ForceArrow(Value(c.position), c.force)];
        }
        if c.ctype == 0 {
          support := support + [Value(c.position)];
        }
      }
      mu := c.frictionCoefficient;
      if ForceExceeds(c.force, threshold) && c.surfaceNormal != Zero3 && mu != 0.0 {
        cones := cones + [FrictionCone(c.position, c.surfaceNormal, mu)];
      }
      i := i + 1;
    }
    assert cs[..|cs|] == cs;
  }

  // ---------------------------------------------------------------------
  // Facts about the classification

  /** The comparison on squares agrees with the comparison of the norm. */
  lemma NormComparison(f: Vec3, threshold: real, norm: real)
    requires norm >= 0.0 && norm * norm == SqNorm(f)
    ensures norm > threshold <==> ForceExceeds(f, threshold)
  {
    if threshold >= 0.0 {
      if norm > threshold {
        SquareMonotone(threshold, norm);
      } else {
        SquareMonotoneWeak(norm, threshold);
      }
    }
  }

  lemma SquareMonotone(a: real, b: real)
    requires 0.0 <= a < b
    ensures a * a < b * b
  {
    var d := b - a;
    MulNonNegative(a, d);
    MulPositive(b, d);
    assert a * d + b * d == b * b - a * a;
  }

  lemma MulNonNegative(x: real, y: real)
    requires x >= 0.0 && y >= 0.0
    ensures x * y >= 0.0
  {
  }

  lemma MulPositive(x: real, y: real)
    requires x > 0.0 && y > 0.0
    ensures x * y > 0.0
  {
  }

  lemma SquareMonotoneWeak(a: real, b: real)
    requires 0.0 <= a <= b
    ensures a * a <= b * b
  {
    var d := b - a;
    MulNonNegative(a, d);
    MulNonNegative(b, d);
    assert a * d + b * d == b * b - a * a;
  }

  /** The support count counts exactly the type-0 contacts: it is zero
      exactly when there is none, and it is the size of the set of their
      positions in the list. */
  lemma {:induction false} SupportCountExact(cs: seq<ContactState>)
    ensures SupportCount(cs) == |set i | 0 <= i < |cs| && IsSupport(cs[i])|
    ensures SupportCount(cs) == 0 <==> forall i :: 0 <= i < |cs| ==> !IsSupport(cs[i])
  {
    if cs != [] {
      var init := cs[..|cs| - 1];
      SupportCountExact(init);
      var s0 := set i | 0 <= i < |init| && IsSupport(init[i]);
      var s := set i | 0 <= i < |cs| && IsSupport(cs[i]);
      if IsSupport(cs[|cs| - 1]) {
        assert s == s0 + {|cs| - 1};
      } else {
        assert s == s0;
      }
      if SupportCount(cs) == 0 {
        forall i | 0 <= i < |cs| ensures !IsSupport(cs[i]) {
          if i < |init| {
            assert cs[i] == init[i];
          }
        }
      }
    }
  }

  /** Contacts of another type appended at the end add nothing to the
      support count, the CoP sum or the total force. */
  lemma {:induction false} NonSupportAddsNothing(cs: seq<ContactState>, ds: seq<ContactState>)
    requires forall i :: 0 <= i < |ds| ==> !IsSupport(ds[i])
    ensures SupportCount(cs + ds) == SupportCount(cs)
    ensures CopSum(cs + ds) == CopSum(cs)
    ensures TotalForce(cs + ds) == TotalForce(cs)
  {
    if ds == [] {
      assert cs + ds == cs;
    } else {
      var init := ds[..|ds| - 1];
      assert (cs + ds)[..|cs + ds| - 1] == cs + init;
      assert (cs + ds)[|cs + ds| - 1] == ds[|ds| - 1];
      NonSupportAddsNothing(cs, init);
    }
  }

  /** Lists with the same support count, CoP sum and total force keep them
      equal when the same contacts follow. */
  lemma {:induction false} SupportSumsAppend(x: seq<ContactState>, y: seq<ContactState>, b: seq<ContactState>)
    requires SupportCount(x) == SupportCount(y) && CopSum(x) == CopSum(y) && TotalForce(x) == TotalForce(y)
    ensures SupportCount(x + b) == SupportCount(y + b)
    ensures CopSum(x + b) == CopSum(y + b)
    ensures TotalForce(x + b) == TotalForce(y + b)
  {
    if b == [] {
      assert x + b == x && y + b == y;
    } else {
      var init := b[..|b| - 1];
      assert (x + b)[..|x + b| - 1] == x + init && (x + b)[|x + b| - 1] == b[|b| - 1];
      assert (y + b)[..|y + b| - 1] == y + init && (y + b)[|y + b| - 1] == b[|b| - 1];
      SupportSumsAppend(x, y, init);
    }
  }

  /** Contacts of another type add nothing to the support count, the CoP
      sum or the total force, wherever they sit in the message. */
  lemma NonSupportAnywhere(a: seq<ContactState>, ds: seq<ContactState>, b: seq<ContactState>)
    requires forall i :: 0 <= i < |ds| ==> !IsSupport(ds[i])
    ensures SupportCount(a + ds + b) == SupportCount(a + b)
    ensures CopSum(a + ds + b) == CopSum(a + b)
    ensures TotalForce(a + ds + b) == TotalForce(a + b)
  {
    NonSupportAddsNothing(a, ds);
    SupportSumsAppend(a + ds, a, b);
  }

  /** Without support contacts the CoP is left at the finite origin and
      the total force is zero. */
  lemma NoSupportZeroCoP(cs: seq<ContactState>)
    requires SupportCount(cs) == 0
    ensures CenterOfPressure(cs) == DZero3
    ensures TotalForce(cs) == Zero3
  {
    SupportCountExact(cs);
    NonSupportAddsNothing([], cs);
    assert [] + cs == cs;
  }

  /** With support contacts whose vertical forces cancel out, the CoP is
      not finite (a division by zero). */
  lemma ZeroVerticalForceCoP(cs: seq<ContactState>)
    requires SupportCount(cs) != 0 && TotalForce(cs).z == 0.0
    ensures !IsFiniteVec(CenterOfPressure(cs))
  {
  }

  /** The support polygon holds the position of every loaded support
      contact and nothing else (the order is `SupportPolygonOrder`). */
  lemma {:induction false} SupportPolygonExact(cs: seq<ContactState>, threshold: real)
    ensures |SupportPolygon(cs, threshold)| <= SupportCount(cs)
    ensures forall v :: v in SupportPolygon(cs, threshold) <==>
      exists i :: 0 <= i < |cs| && IsVertex(cs[i], threshold) && v == Value(cs[i].position)
  {
    if cs != [] {
      var init := cs[..|cs| - 1];
      var c := cs[|cs| - 1];
      SupportPolygonExact(init, threshold);
      forall v | v in SupportPolygon(cs, threshold)
        ensures exists i :: 0 <= i < |cs| && IsVertex(cs[i], threshold) && v == Value(cs[i].position)
      {
        if v in SupportPolygon(init, threshold) {
          var i :| 0 <= i < |init| && IsVertex(init[i], threshold) && v == Value(init[i].position);
          assert cs[i] == init[i];
        } else {
          assert IsVertex(c, threshold) && v == Value(c.position);
        }
      }
      forall v | exists i :: 0 <= i < |cs| && IsVertex(cs[i], threshold) && v == Value(cs[i].position)
        ensures v in SupportPolygon(cs, threshold)
      {
        var i :| 0 <= i < |cs| && IsVertex(cs[i], threshold) && v == Value(cs[i].position);
        if i < |init| {
          assert init[i] == cs[i];
        }
      }
    }
  }

  /** The positions in `cs`, in increasing order, of the loaded support
      contacts. */
  function VertexIndices(cs: seq<ContactState>, threshold: real): seq<nat>
  {
    if cs == [] then []
    else VertexIndices(cs[..|cs| - 1], threshold) + (if IsVertex(cs[|cs| - 1], threshold) then [|cs| - 1] else [])
  }

  /** The vertices of the support polygon are the positions of the loaded
      support contacts in message order, each once: the `k`-th vertex is
      that of the `k`-th such contact. */
  lemma {:induction false} SupportPolygonOrder(cs: seq<ContactState>, threshold: real)
    ensures |SupportPolygon(cs, threshold)| == |VertexIndices(cs, threshold)|
    ensures forall k :: 0 <= k < |VertexIndices(cs, threshold)| ==>
      && VertexIndices(cs, threshold)[k] < |cs|
      && IsVertex(cs[VertexIndices(cs, threshold)[k]], threshold)
      && SupportPolygon(cs, threshold)[k] == Value(cs[VertexIndices(cs, threshold)[k]].position)
    ensures forall k, l :: 0 <= k < l < |VertexIndices(cs, threshold)| ==>
      VertexIndices(cs, threshold)[k] < VertexIndices(cs, threshold)[l]
    ensures forall i :: 0 <= i < |cs| && IsVertex(cs[i], threshold) ==> i in VertexIndices(cs, threshold)
  {
    if cs != [] {
      var init := cs[..|cs| - 1];
      var c := cs[|cs| - 1];
      SupportPolygonOrder(init, threshold);
      var idx0 := VertexIndices(init, threshold);
      var idx := VertexIndices(cs, threshold);
      var poly0 := SupportPolygon(init, threshold);
      var poly := SupportPolygon(cs, threshold);
      forall k | 0 <= k < |idx|
        ensures idx[k] < |cs| && IsVertex(cs[idx[k]], threshold) && poly[k] == Value(cs[idx[k]].position)
      {
        if k < |idx0| {
          assert idx[k] == idx0[k] && poly[k] == poly0[k] && cs[idx0[k]] == init[idx0[k]];
        }
      }
      forall k, l | 0 <= k < l < |idx| ensures idx[k] < idx[l] {
        if l < |idx0| {
          assert idx[k] == idx0[k] && idx[l] == idx0[l];
        } else {
          assert idx[k] == idx0[k];
        }
      }
      forall i | 0 <= i < |cs| && IsVertex(cs[i], threshold) ensures i in idx {
        if i < |init| {
          assert init[i] == cs[i];
          assert i in idx0;
        }
      }
    }
  }

  /** There is at most one arrow per contact, and the arrows are exactly
      those of the contacts that draw one. */
  lemma {:induction false} ForceArrowsExact(cs: seq<ContactState>, threshold: real, weight: real)
    ensures |ForceArrows(cs, threshold, weight)| <= |cs|
    ensures weight == 0.0 ==> ForceArrows(cs, threshold, weight) == []
    ensures forall a :: a in ForceArrows(cs, threshold, weight) <==>
      exists i :: 0 <= i < |cs| && DrawsArrow(cs[i], threshold, weight) && a == ForceArrow(Value(cs[i].position), cs[i].force)
  {
    if cs != [] {
      var init := cs[..|cs| - 1];
      var c := cs[|cs| - 1];
      ForceArrowsExact(init, threshold, weight);
      forall a | a in ForceArrows(cs, threshold, weight)
        ensures exists i :: 0 <= i < |cs| && DrawsArrow(cs[i], threshold, weight) && a == ForceArrow(Value(cs[i].position), cs[i].force)
      {
        if a in ForceArrows(init, threshold, weight) {
          var i :| 0 <= i < |init| && DrawsArrow(init[i], threshold, weight) && a == ForceArrow(Value(init[i].position), init[i].force);
          assert cs[i] == init[i];
        } else {
          assert DrawsArrow(c, threshold, weight) && a == ForceArrow(Value(c.position), c.force);
        }
      }
      forall a | exists i :: 0 <= i < |cs| && DrawsArrow(cs[i], threshold, weight) && a == ForceArrow(Value(cs[i].position), cs[i].force)
        ensures a in ForceArrows(cs, threshold, weight)
      {
        var i :| 0 <= i < |cs| && DrawsArrow(cs[i], threshold, weight) && a == ForceArrow(Value(cs[i].position), cs[i].force);
        if i < |init| {
          assert init[i] == cs[i];
        }
      }
    }
  }

  /** There is at most one cone per contact, and the cones are exactly
      those of the contacts that pass the cone test. */
  lemma {:induction false} FrictionConesExact(cs: seq<ContactState>, threshold: real)
    ensures |FrictionCones(cs, threshold)| <= |cs|
    ensures forall k :: k in FrictionCones(cs, threshold) <==>
      exists i :: 0 <= i < |cs| && DrawsCone(cs[i], threshold)
        && k == FrictionCone(cs[i].position, cs[i].surfaceNormal, cs[i].frictionCoefficient)
    ensures forall k :: k in FrictionCones(cs, threshold) ==> k.mu != 0.0 && k.normal != Zero3
  {
    if cs != [] {
      var init := cs[..|cs| - 1];
      var c := cs[|cs| - 1];
      FrictionConesExact(init, threshold);
      forall k | k in FrictionCones(cs, threshold)
        ensures exists i :: (0 <= i < |cs| && DrawsCone(cs[i], threshold)
          && k == FrictionCone(cs[i].position, cs[i].surfaceNormal, cs[i].frictionCoefficient))
      {
        if k in FrictionCones(init, threshold) {
          var i :| 0 <= i < |init| && DrawsCone(init[i], threshold)
            && k == FrictionCone(init[i].position, init[i].surfaceNormal, init[i].frictionCoefficient);
          assert cs[i] == init[i];
        } else {
          assert DrawsCone(c, threshold) && k == FrictionCone(c.position, c.surfaceNormal, c.frictionCoefficient);
        }
      }
      forall k | exists i :: (0 <= i < |cs| && DrawsCone(cs[i], threshold)
          && k == FrictionCone(cs[i].position, cs[i].surfaceNormal, cs[i].frictionCoefficient))
        ensures k in FrictionCones(cs, threshold)
      {
        var i :| 0 <= i < |cs| && DrawsCone(cs[i], threshold)
          && k == FrictionCone(cs[i].position, cs[i].surfaceNormal, cs[i].frictionCoefficient);
        if i < |init| {
          assert init[i] == cs[i];
        }
      }
    }
  }

  // ---------------------------------------------------------------------
  // The point at which the CoM is drawn (lines 536-551)

  /** The third column of the rotation matrix of the (not necessarily
      unit) quaternion `q`, scaled by `c`: `q.matrix() * (0, 0, c)`. A
      non-finite component or a non-finite `c` makes the product
      non-finite. */
  function RotateVertical(q: DQuat, c: Double): (r: DVec3)
    ensures IsFiniteQuat(q) && IsFinite(c) ==> IsFiniteVec(r)
    ensures !(IsFiniteQuat(q) && IsFinite(c)) ==> r == DVec3(NonFinite, NonFinite, NonFinite)
  {
    if IsFiniteQuat(q) && IsFinite(c) then
      var w, x, y, z := q.w.value, q.x.value, q.y.value, q.z.value;
      DVec3(Finite(2.0 * (x * z + w * y) * c.value),
            Finite(2.0 * (y * z - w * x) * c.value),
            Finite((1.0 - 2.0 * (x * x + y * y)) * c.value))
    else DVec3(NonFinite, NonFinite, NonFinite)
  }

  /** The CoM projected onto the ground: the CoM shifted horizontally by
      the rotated vertical CoP offset, at the height of the CoP. */
  function ProjectedCoM(com: DVec3, q: DQuat, copZ: Double): DVec3
  {
    var r := RotateVertical(q, copZ);
    DVec3(Add(com.x, r.x), Add(com.y, r.y), copZ)
  }

  /** The raw CoM position is drawn in Real style or when any support
      contact exists; otherwise the projected one. */
  function CoMPointChoice(comReal: bool, nSupp: nat, com: DVec3, q: DQuat, cop: DVec3): (r: DVec3)
    ensures comReal || nSupp != 0 ==> r == com
  {
    if comReal || nSupp != 0 then com else ProjectedCoM(com, q, cop.z)
  }

  /** The projected style only applies without support contacts, where the
      CoP is the origin: the CoM is then drawn on the ground below itself
      when the base orientation is finite, and not at all otherwise. */
  lemma ProjectedWithoutSupport(cs: seq<ContactState>, com: DVec3, q: DQuat)
    requires SupportCount(cs) == 0
    ensures IsFiniteQuat(q) ==>
      CoMPointChoice(false, SupportCount(cs), com, q, CenterOfPressure(cs)) == DVec3(com.x, com.y, Finite(0.0))
    ensures !IsFiniteQuat(q) ==>
      !IsFiniteVec(CoMPointChoice(false, SupportCount(cs), com, q, CenterOfPressure(cs)))
  {
    NoSupportZeroCoP(cs);
    var r := RotateVertical(q, Finite(0.0));
    if IsFiniteQuat(q) {
      assert r == DVec3(Finite(0.0), Finite(0.0), Finite(0.0));
    }
  }
}

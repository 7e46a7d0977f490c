/** The whole-body trajectory display: the state it keeps between
    messages and property changes, and how each handler changes it. */
module TrajectoryDisplay {
  import opened Common
  import opened Messages
  import opened Visuals
  import opened ContactGrouping
  import opened CoMTrajectory

  /** A vector of `n` cleared point-visual vectors. */
  function EmptyRows(n: nat): (r: seq<seq<Option<PointVisual>>>)
    ensures |r| == n && forall i :: 0 <= i < n ==> r[i] == []
  {
    seq(n, _ => [])
  }

  /** The reset loop of a vector of line objects: every element is reset,
      the vector keeps its size. */
  method ResetLines(lines0: seq<Option<Polyline>>) returns (lines: seq<Option<Polyline>>)
    ensures |lines| == |lines0|
    ensures forall i :: 0 <= i < |lines| ==> lines[i].None?
  {
    lines := lines0;
    var i := 0;
    while i < |lines|
      invariant 0 <= i <= |lines| == |lines0|
      invariant forall j :: 0 <= j < i ==> lines[j].None?
    {
      lines := lines[i := None];
      i := i + 1;
    }
  }

  /** The loop that clears every per-state vector of point visuals: the
      outer vector keeps its size, each inner one becomes empty. */
  method ClearRows(rows0: seq<seq<Option<PointVisual>>>) returns (rows: seq<seq<Option<PointVisual>>>)
    ensures |rows| == |rows0|
    ensures forall i :: 0 <= i < |rows| ==> rows[i] == []
  {
    rows := rows0;
    var i := 0;
    while i < |rows|
      invariant 0 <= i <= |rows| == |rows0|
      invariant forall j :: 0 <= j < i ==> rows[j] == []
    {
      rows := rows[i := []];
      i := i + 1;
    }
  }

  // ---------------------------------------------------------------------
  // The reset loops of `updateContactStyle` as written (lines 216-246)

  /** The manual-object vector after those loops: in Billboards and Points
      style they reset `contact_manual_object_[i]` for every `i` below the
      size of the billboard vector, so the result is None when that size
      passes the end of the manual-object vector. Lines style does not
      touch it. */
  function AsWrittenManualReset(style: LineStyle, nBillboards: nat, manuals: seq<Option<Polyline>>)
    : (r: Option<seq<Option<Polyline>>>)
    ensures style == Lines ==> r == Some(manuals)
    ensures style != Lines ==> (r.None? <==> nBillboards > |manuals|)
    ensures r.Some? ==> |r.value| == |manuals|
    ensures r.Some? && style != Lines ==>
      forall i :: 0 <= i < |manuals| ==> r.value[i] == (if i < nBillboards then None else manuals[i])
  {
    if style == Lines then Some(manuals)
    else if nBillboards > |manuals| then None
    else Some(seq(|manuals|, i requires 0 <= i < |manuals| => if i < nBillboards then None else manuals[i]))
  }

  /** After a message is drawn in Billboards style the manual-object vector
      is empty and the billboard vector has one line per contact name; for
      the two-state example that is two lines, so switching to Points (or
      re-selecting Billboards) resets `contact_manual_object_[0]` of an
      empty vector. After a message drawn in Lines style the billboard
      vector is empty, so switching to Billboards resets no manual object
      and both contact lines of the Lines pass stay alive. */
  lemma StyleSwitchResets(frame: Frame)
    ensures |ContactLines(StaleExample(), frame, false)| == 2
    ensures AsWrittenManualReset(Points, |ContactLines(StaleExample(), frame, false)|, []) == None
    ensures AsWrittenManualReset(Billboards, |ContactLines(StaleExample(), frame, false)|, []) == None
    ensures AsWrittenManualReset(Billboards, 0, ContactLines(StaleExample(), frame, true))
      == Some(ContactLines(StaleExample(), frame, true))
    ensures |ContactLines(StaleExample(), frame, true)| == 2
    ensures forall t :: 0 <= t < 2 ==> ContactLines(StaleExample(), frame, true)[t].Some?
  {
    var p := StaleEntries();
    StaleOrder();
    assert TrajectoryOrder(StaleExample()) == ["A", "B"];
    ContactLinesShape(StaleExample(), frame, true);
    assert |ContactLines(StaleExample(), frame, true)| == 2;
    forall t | 0 <= t < 2 ensures ContactLines(StaleExample(), frame, true)[t].Some? {
      assert 0 <= t < |ContactLines(StaleExample(), frame, true)|;
    }
    var manuals := ContactLines(StaleExample(), frame, true);
    var r := AsWrittenManualReset(Billboards, 0, manuals);
    assert r.value == manuals;
  }

  // ---------------------------------------------------------------------
  // The end of the CoM line strip as written (lines 403-405)

  /** The object `end()` is called on after the CoM loop in Lines style as
      written: the strip the loop created at its first state, or, for an
      empty trajectory, whatever the pointer held before the pass. */
  function AsWrittenCoMEndTarget(ts: Trajectory, frame: Frame, m0: Option<Polyline>): (r: Option<Polyline>)
    ensures ts != [] ==> r.Some? && r.value.points == CoMPath(ts, frame)
    ensures ts == [] ==> r == m0
  {
    if ts != [] then Some(Polyline(CoMPath(ts, frame), false)) else m0
  }

  /** `processMessage` resets the CoM manual object before the CoM pass, so
      a message with an empty trajectory drawn in Lines style ends a null
      object. */
  lemma EmptyTrajectoryEndsNull(frame: Frame)
    ensures AsWrittenCoMEndTarget([], frame, None).None?
  {
  }

  class WholeBodyTrajectoryDisplay {
    /** The trajectory of the last message (`msg_`). */
    var msg: Trajectory
    /** Whether a message has arrived (`is_info_`). */
    var isInfo: bool
    var comEnable: bool
    var contactEnable: bool
    /** The selected options of the two style properties. */
    var comStyle: LineStyle
    var contactStyle: LineStyle
    /** The value of the axes scale property. */
    var comScale: real
    var comBillboardLine: Option<Polyline>
    var comManualObject: Option<Polyline>
    var comPoints: seq<PointVisual>
    var comAxes: seq<Axes>
    /** The position of the last axes marker (`last_point_position_`). */
    var lastPointPosition: Vec3
    var contactBillboardLine: seq<Option<Polyline>>
    var contactManualObject: seq<Option<Polyline>>
    var contactPoints: seq<seq<Option<PointVisual>>>

    /** The display as constructed: no message, both parts enabled, both
        styles Billboards, axes scale 1. The last marker position is never
        set by the constructor, so it is taken as given. */
    constructor(lastPoint: Vec3)
      ensures !isInfo && msg == [] && comEnable && contactEnable
      ensures comStyle == Billboards && contactStyle == Billboards && comScale == 1.0
      ensures comBillboardLine == None && comManualObject == None && comPoints == [] && comAxes == []
      ensures lastPointPosition == lastPoint
      ensures contactBillboardLine == [] && contactManualObject == [] && contactPoints == []
      ensures CoMExclusive() && ContactExclusive()
    {
      msg, isInfo := [], false;
      comEnable, contactEnable := true, true;
      comStyle, contactStyle, comScale := Billboards, Billboards, 1.0;
      comBillboardLine, comManualObject, comPoints, comAxes := None, None, [], [];
      lastPointPosition := lastPoint;
      contactBillboardLine, contactManualObject, contactPoints := [], [], [];
    }

    twostate predicate SettingsKept()
      reads this
    {
      && msg == old(msg) && isInfo == old(isInfo)
      && comEnable == old(comEnable) && contactEnable == old(contactEnable)
      && comStyle == old(comStyle) && contactStyle == old(contactStyle) && comScale == old(comScale)
    }

    twostate predicate CoMKept()
      reads this
    {
      && comBillboardLine == old(comBillboardLine) && comManualObject == old(comManualObject)
      && comPoints == old(comPoints) && comAxes == old(comAxes) && lastPointPosition == old(lastPointPosition)
    }

    twostate predicate ContactKept()
      reads this
    {
      && contactBillboardLine == old(contactBillboardLine) && contactManualObject == old(contactManualObject)
      && contactPoints == old(contactPoints)
    }

    /** The axes markers of a CoM pass over `msg` that started with the
        last marker at `last0`. */
    ghost predicate AxesDrawn(frame: Frame, last0: Vec3)
      reads this
    {
      && comAxes == AxesTrail(CoMPoses(msg, frame), last0, comScale)
      && lastPointPosition == TrailEnd(CoMPoses(msg, frame), last0, comScale)
    }

    /** The CoM objects after a pass in the selected style over `msg`,
        from `b0`, `m0` and `p0`: the object of that style shows the whole
        path (a line strip is ended), the others are left alone, and an
        empty trajectory creates nothing. */
    ghost predicate CoMDrawn(frame: Frame, b0: Option<Polyline>, m0: Option<Polyline>, p0: seq<PointVisual>)
      reads this
    {
      var empty := msg == [];
      match comStyle
      case Billboards =>
        && comBillboardLine == (if empty then b0 else Some(Polyline(CoMPath(msg, frame), false)))
        && comManualObject == m0 && comPoints == p0
      case Lines =>
        && comManualObject == (if empty then m0 else Some(Polyline(CoMPath(msg, frame), true)))
        && comBillboardLine == b0 && comPoints == p0
      case Points =>
        && comPoints == (if empty then p0 else CoMPointVisuals(msg, frame))
        && comBillboardLine == b0 && comManualObject == m0
    }

    /** The contact objects after a contact pass over `msg` from `b0`,
        `m0` and `p0`: nothing changes when contacts are disabled,
        otherwise the container of the selected style is rebuilt and the
        others are left alone. */
    ghost predicate ContactDrawn(frame: Frame, b0: seq<Option<Polyline>>, m0: seq<Option<Polyline>>,
                                 p0: seq<seq<Option<PointVisual>>>)
      reads this
    {
      if !contactEnable then
        contactBillboardLine == b0 && contactManualObject == m0 && contactPoints == p0
      else
        match contactStyle
        case Billboards =>
          && contactBillboardLine == ContactLines(msg, frame, false)
          && contactManualObject == m0 && contactPoints == p0
        case Lines =>
          && contactManualObject == ContactLines(msg, frame, true)
          && contactBillboardLine == b0 && contactPoints == p0
        case Points =>
          && contactPoints == ContactPointSlots(msg, frame)
          && contactBillboardLine == b0 && contactManualObject == m0
    }

    /** Only the CoM object of the selected style is alive. */
    ghost predicate CoMExclusive()
      reads this
    {
      && (comStyle != Billboards ==> comBillboardLine.None?)
      && (comStyle != Lines ==> comManualObject.None?)
      && (comStyle != Points ==> comPoints == [])
    }

    /** Only the contact objects of the selected style are alive: every
        line object of another style is reset and, unless Points is
        selected, every per-state point vector is empty. */
    ghost predicate ContactExclusive()
      reads this
    {
      && (contactStyle != Billboards ==> forall i :: 0 <= i < |contactBillboardLine| ==> contactBillboardLine[i].None?)
      && (contactStyle != Lines ==> forall i :: 0 <= i < |contactManualObject| ==> contactManualObject[i].None?)
      && (contactStyle != Points ==> forall i :: 0 <= i < |contactPoints| ==> contactPoints[i] == [])
    }

    /** `pushBackCoMAxes`: a marker is added, and becomes the last one,
        only when it is far enough from the last marker (line 586). */
    method PushBackCoMAxes(position: Vec3, orientation: Quat)
      modifies this
      ensures FarEnough(position, old(lastPointPosition), comScale) ==>
        comAxes == old(comAxes) + [Axes(position, orientation)] && lastPointPosition == position
      ensures !FarEnough(position, old(lastPointPosition), comScale) ==>
        comAxes == old(comAxes) && lastPointPosition == old(lastPointPosition)
      ensures comBillboardLine == old(comBillboardLine) && comManualObject == old(comManualObject)
      ensures comPoints == old(comPoints)
      ensures SettingsKept() && ContactKept()
    {
      if FarEnough(position, lastPointPosition, comScale) {
        comAxes := comAxes + [Axes(position, orientation)];
        lastPointPosition := position;
      }
    }

    /** The CoM objects after the first `i` states of `ts` in a pass that
        started from `last0`, `b0`, `m0` and `p0`: the markers and the
        object of the selected style cover those states, and a line strip
        is still open. */
    ghost predicate CoMPartial(ts: Trajectory, i: nat, frame: Frame, last0: Vec3,
                               b0: Option<Polyline>, m0: Option<Polyline>, p0: seq<PointVisual>)
      requires i <= |ts|
      reads this
    {
      AxesPartial(ts, i, frame, last0) && StylePartial(ts, i, frame, b0, m0, p0)
    }

    /** The axes markers after the first `i` states of `ts`. */
    ghost predicate AxesPartial(ts: Trajectory, i: nat, frame: Frame, last0: Vec3)
      requires i <= |ts|
      reads this
    {
      && comAxes == AxesTrail(CoMPoses(ts, frame)[..i], last0, comScale)
      && lastPointPosition == TrailEnd(CoMPoses(ts, frame)[..i], last0, comScale)
    }

    /** The object of the selected style after the first `i` states of
        `ts`; the other two are as they were. */
    ghost predicate StylePartial(ts: Trajectory, i: nat, frame: Frame,
                                 b0: Option<Polyline>, m0: Option<Polyline>, p0: seq<PointVisual>)
      requires i <= |ts|
      reads this
    {
      var path := CoMPath(ts, frame)[..i];
      match comStyle
      case Billboards =>
        && comBillboardLine == (if i == 0 then b0 else Some(Polyline(path, false)))
        && comManualObject == m0 && comPoints == p0
      case Lines =>
        && comManualObject == (if i == 0 then m0 else Some(Polyline(path, false)))
        && comBillboardLine == b0 && comPoints == p0
      case Points =>
        && comPoints == (if i == 0 then p0 else CoMPointVisuals(ts, frame)[..i])
        && comBillboardLine == b0 && comManualObject == m0
    }

    /** One pass of the loop of `processCoMTrajectory`: state `i` of `ts`
        is offered to the markers and added to the object of the selected
        style, which the first state creates. */
    method DrawCoMState(ts: Trajectory, i: nat, frame: Frame, ghost last0: Vec3,
                        ghost b0: Option<Polyline>, ghost m0: Option<Polyline>, ghost p0: seq<PointVisual>)
      requires i < |ts|
      requires CoMPartial(ts, i, frame, last0, b0, m0, p0)
      modifies this
      ensures SettingsKept() && ContactKept()
      ensures CoMPartial(ts, i + 1, frame, last0, b0, m0, p0)
    {
      DrawCoMAxes(ts, i, frame, last0);
      DrawCoMPoint(ts, i, frame, b0, m0, p0);
    }

    /** The axes part of one pass: the pose of state `i` is offered to
        `pushBackCoMAxes`. */
    method DrawCoMAxes(ts: Trajectory, i: nat, frame: Frame, ghost last0: Vec3)
      requires i < |ts|
      requires AxesPartial(ts, i, frame, last0)
      modifies this
      ensures SettingsKept() && ContactKept()
      ensures comBillboardLine == old(comBillboardLine) && comManualObject == old(comManualObject)
      ensures comPoints == old(comPoints)
      ensures AxesPartial(ts, i + 1, frame, last0)
    {
      ghost var poses := CoMPoses(ts, frame);
      var state := ts[i];
      var com := Sanitize(state.centroidal.comPosition);
      var orientation := SanitizeQuat(state.centroidal.baseOrientation);
      var point := Apply(frame, com);
      AxesTrailSnoc(poses[..i], poses[i], last0, comScale);
      PrefixSnoc(poses, i);
      PushBackCoMAxes(point, QuatMul(orientation, frame.orientation));
    }

    /** The style part of one pass: the point of state `i` is added to the
        object of the selected style, which the first state creates. */
    method DrawCoMPoint(ts: Trajectory, i: nat, frame: Frame,
                        ghost b0: Option<Polyline>, ghost m0: Option<Polyline>, ghost p0: seq<PointVisual>)
      requires i < |ts|
      requires StylePartial(ts, i, frame, b0, m0, p0)
      modifies this
      ensures SettingsKept() && ContactKept()
      ensures comAxes == old(comAxes) && lastPointPosition == old(lastPointPosition)
      ensures StylePartial(ts, i + 1, frame, b0, m0, p0)
    {
      ghost var path := CoMPath(ts, frame);
      var state := ts[i];
      var com := Sanitize(state.centroidal.comPosition);
      var point := Apply(frame, com);
      PrefixSnoc(path, i);
      match comStyle {
        case Billboards =>
          if i == 0 {
            comBillboardLine := Some(Polyline([], false));
          }
          comBillboardLine := AddPoint(comBillboardLine, point);
        case Lines =>
          if i == 0 {
            comManualObject := Some(Polyline([], false));
          }
          comManualObject := AddPoint(comManualObject, point);
        case Points =>
          if i == 0 {
            comPoints := [];
          }
          PrefixSnoc(CoMPointVisuals(ts, frame), i);
          comPoints := comPoints + [PointVisual(com, frame)];
      }
    }

    /** `processCoMTrajectory` for the fixed-frame pose `frame`: the axes
        markers are rebuilt from the whole trajectory and the object of the
        selected style shows the CoM path. A line strip is ended only when
        this pass created it. */
    method ProcessCoMTrajectory(frame: Frame)
      modifies this
      ensures SettingsKept() && ContactKept()
      ensures !comEnable ==> CoMKept()
      ensures comEnable ==> AxesDrawn(frame, old(lastPointPosition))
      ensures comEnable ==> CoMDrawn(frame, old(comBillboardLine), old(comManualObject), old(comPoints))
      ensures old(CoMExclusive()) ==> CoMExclusive()
    {
      if !comEnable {
        return;
      }
      ghost var last0 := lastPointPosition;
      ghost var b0, m0, p0 := comBillboardLine, comManualObject, comPoints;
      var ts := msg;
      var n := |ts|;
      comAxes := [];
      assert CoMPoses(ts, frame)[..0] == [];
      var i := 0;
      while i < n
        invariant 0 <= i <= n
        invariant msg == ts && comEnable && SettingsKept() && ContactKept()
        invariant CoMPartial(ts, i, frame, last0, b0, m0, p0)
      {
        DrawCoMState(ts, i, frame, last0, b0, m0, p0);
        i := i + 1;
      }
      assert CoMPoses(ts, frame)[..n] == CoMPoses(ts, frame);
      assert CoMPath(ts, frame)[..n] == CoMPath(ts, frame);
      assert CoMPointVisuals(ts, frame)[..n] == CoMPointVisuals(ts, frame);
      if comStyle == Lines && n > 0 {
        comManualObject := End(comManualObject);
      }
    }

    /** `processContactTrajectory` for the fixed-frame pose `frame`. */
    method ProcessContactTrajectory(frame: Frame)
      modifies this
      ensures SettingsKept() && CoMKept()
      ensures ContactDrawn(frame, old(contactBillboardLine), old(contactManualObject), old(contactPoints))
      ensures old(ContactExclusive()) ==> ContactExclusive()
    {
      if contactEnable {
        contactBillboardLine, contactManualObject, contactPoints :=
          BuildContactTrajectories(msg, contactStyle, frame, contactBillboardLine, contactManualObject, contactPoints);
      }
    }

    /** `updateCoMStyle`: the objects of the two styles not selected are
        dropped (the axes stay), then the CoM is drawn again when a message
        is there. */
    method UpdateCoMStyle(style: LineStyle, frame: Frame)
      modifies this
      ensures comStyle == style
      ensures msg == old(msg) && isInfo == old(isInfo) && comEnable == old(comEnable)
      ensures contactEnable == old(contactEnable) && contactStyle == old(contactStyle) && comScale == old(comScale)
      ensures ContactKept()
      ensures !(isInfo && comEnable) ==> comAxes == old(comAxes) && lastPointPosition == old(lastPointPosition)
      ensures !(isInfo && comEnable) ==>
        && comBillboardLine == (if style == Billboards then old(comBillboardLine) else None)
        && comManualObject == (if style == Lines then old(comManualObject) else None)
        && comPoints == (if style == Points then old(comPoints) else [])
      ensures isInfo && comEnable ==> AxesDrawn(frame, old(lastPointPosition))
      ensures isInfo && comEnable ==>
        CoMDrawn(frame, if style == Billboards then old(comBillboardLine) else None,
                 if style == Lines then old(comManualObject) else None,
                 if style == Points then old(comPoints) else [])
      ensures CoMExclusive()
    {
      comStyle := style;
      match style {
        case Billboards =>
          comManualObject := None;
          comPoints := [];
        case Lines =>
          comBillboardLine := None;
          comPoints := [];
        case Points =>
          comManualObject := None;
          comBillboardLine := None;
      }
      if isInfo {
        ProcessCoMTrajectory(frame);
      }
    }

    /** `updateCoMEnable`: disabling drops the CoM path objects; the axes
        markers stay. */
    method UpdateCoMEnable(enable: bool)
      modifies this
      ensures comEnable == enable
      ensures msg == old(msg) && isInfo == old(isInfo) && contactEnable == old(contactEnable)
      ensures comStyle == old(comStyle) && contactStyle == old(contactStyle) && comScale == old(comScale)
      ensures ContactKept()
      ensures comAxes == old(comAxes) && lastPointPosition == old(lastPointPosition)
      ensures enable ==> comBillboardLine == old(comBillboardLine) && comManualObject == old(comManualObject)
      ensures enable ==> comPoints == old(comPoints)
      ensures !enable ==> comBillboardLine == None && comManualObject == None && comPoints == []
      ensures old(CoMExclusive()) ==> CoMExclusive()
    {
      comEnable := enable;
      if !comEnable {
        comBillboardLine := None;
        comManualObject := None;
        comPoints := [];
      }
    }

    /** `updateContactEnable`: disabling resets every contact line object
        and clears every per-state point vector; the outer vectors keep
        their sizes. */
    method UpdateContactEnable(enable: bool)
      modifies this
      ensures contactEnable == enable
      ensures msg == old(msg) && isInfo == old(isInfo) && comEnable == old(comEnable)
      ensures comStyle == old(comStyle) && contactStyle == old(contactStyle) && comScale == old(comScale)
      ensures CoMKept()
      ensures enable ==> ContactKept()
      ensures !enable ==> contactManualObject == Nulls(|old(contactManualObject)|)
      ensures !enable ==> contactBillboardLine == Nulls(|old(contactBillboardLine)|)
      ensures !enable ==> contactPoints == EmptyRows(|old(contactPoints)|)
      ensures old(ContactExclusive()) ==> ContactExclusive()
    {
      contactEnable := enable;
      if !contactEnable {
        contactManualObject := ResetLines(contactManualObject);
        contactBillboardLine := ResetLines(contactBillboardLine);
        contactPoints := ClearRows(contactPoints);
      }
    }

    /** `updateContactStyle`, each container reset over its own size: the
        line objects of the styles not selected are reset, the point
        vectors cleared unless Points is selected, then the contacts are
        drawn again when a message is there. */
    method UpdateContactStyle(style: LineStyle, frame: Frame)
      modifies this
      ensures contactStyle == style
      ensures msg == old(msg) && isInfo == old(isInfo) && comEnable == old(comEnable)
      ensures contactEnable == old(contactEnable) && comStyle == old(comStyle) && comScale == old(comScale)
      ensures CoMKept()
      ensures !isInfo ==>
        && contactBillboardLine == (if style == Billboards then old(contactBillboardLine) else Nulls(|old(contactBillboardLine)|))
        && contactManualObject == (if style == Lines then old(contactManualObject) else Nulls(|old(contactManualObject)|))
        && contactPoints == (if style == Points then old(contactPoints) else EmptyRows(|old(contactPoints)|))
      ensures isInfo ==>
        ContactDrawn(frame,
                     if style == Billboards then old(contactBillboardLine) else Nulls(|old(contactBillboardLine)|),
                     if style == Lines then old(contactManualObject) else Nulls(|old(contactManualObject)|),
                     if style == Points then old(contactPoints) else EmptyRows(|old(contactPoints)|))
      ensures ContactExclusive()
    {
      contactStyle := style;
      if style != Lines {
        contactManualObject := ResetLines(contactManualObject);
      }
      if style != Billboards {
        contactBillboardLine := ResetLines(contactBillboardLine);
      }
      if style != Points {
        contactPoints := ClearRows(contactPoints);
      }
      assert contactBillboardLine == (if style == Billboards then old(contactBillboardLine) else Nulls(|old(contactBillboardLine)|));
      assert contactManualObject == (if style == Lines then old(contactManualObject) else Nulls(|old(contactManualObject)|));
      assert contactPoints == (if style == Points then old(contactPoints) else EmptyRows(|old(contactPoints)|));
      if isInfo {
        ProcessContactTrajectory(frame);
      }
    }

    /** `destroyObjects`: every render object is dropped. */
    method DestroyObjects()
      modifies this
      ensures SettingsKept()
      ensures lastPointPosition == old(lastPointPosition)
      ensures comBillboardLine == None && comManualObject == None && comPoints == [] && comAxes == []
      ensures contactBillboardLine == [] && contactManualObject == [] && contactPoints == []
    {
      comManualObject := None;
      comBillboardLine := None;
      comPoints := [];
      comAxes := [];
      contactManualObject := [];
      contactBillboardLine := [];
      contactPoints := [];
    }

    /** `processMessage`: the message is kept, everything drawn before is
        dropped, and the CoM and the contacts are drawn from scratch. */
    method ProcessMessage(m: Trajectory, frame: Frame)
      modifies this
      ensures msg == m && isInfo
      ensures comEnable == old(comEnable) && contactEnable == old(contactEnable)
      ensures comStyle == old(comStyle) && contactStyle == old(contactStyle) && comScale == old(comScale)
      ensures !comEnable ==> comBillboardLine == None && comManualObject == None && comPoints == [] && comAxes == []
      ensures !comEnable ==> lastPointPosition == old(lastPointPosition)
      ensures comEnable ==> AxesDrawn(frame, old(lastPointPosition)) && CoMDrawn(frame, None, None, [])
      ensures ContactDrawn(frame, [], [], [])
      ensures CoMExclusive() && ContactExclusive()
    {
      msg, isInfo := m, true;
      DestroyObjects();
      ProcessCoMTrajectory(frame);
      ProcessContactTrajectory(frame);
    }

    /** `fixedFrameChanged`: with a message, both parts are drawn again in
        the new fixed frame. */
    method FixedFrameChanged(frame: Frame)
      modifies this
      ensures SettingsKept()
      ensures !isInfo ==> CoMKept() && ContactKept()
      ensures isInfo && comEnable ==> AxesDrawn(frame, old(lastPointPosition))
      ensures isInfo && comEnable ==> CoMDrawn(frame, old(comBillboardLine), old(comManualObject), old(comPoints))
      ensures isInfo && !comEnable ==> CoMKept()
      ensures isInfo ==> ContactDrawn(frame, old(contactBillboardLine), old(contactManualObject), old(contactPoints))
      ensures old(CoMExclusive()) ==> CoMExclusive()
      ensures old(ContactExclusive()) ==> ContactExclusive()
    {
      if isInfo {
        ProcessCoMTrajectory(frame);
        ProcessContactTrajectory(frame);
      }
    }

    /** `updateCoMLineProperties` with the new value `scale` of the axes
        scale property: the scale is what the next distance tests use, and
        in Lines style the CoM is drawn again when a message is there. The
        other styles only restyle the objects they have. */
    method UpdateCoMLineProperties(scale: real, frame: Frame)
      modifies this
      ensures comScale == scale
      ensures msg == old(msg) && isInfo == old(isInfo) && comEnable == old(comEnable)
      ensures contactEnable == old(contactEnable) && comStyle == old(comStyle) && contactStyle == old(contactStyle)
      ensures ContactKept()
      ensures !(comStyle == Lines && isInfo && comEnable) ==> CoMKept()
      ensures comStyle == Lines && isInfo && comEnable ==>
        AxesDrawn(frame, old(lastPointPosition))
        && CoMDrawn(frame, old(comBillboardLine), old(comManualObject), old(comPoints))
      ensures old(CoMExclusive()) ==> CoMExclusive()
    {
      comScale := scale;
      if comStyle == Lines && isInfo {
        ProcessCoMTrajectory(frame);
      }
    }

    /** `updateContactLineProperties`: in Lines style the contacts are
        drawn again when a message is there; the other styles only
        restyle the objects they have. */
    method UpdateContactLineProperties(frame: Frame)
      modifies this
      ensures SettingsKept() && CoMKept()
      ensures !(contactStyle == Lines && isInfo) ==> ContactKept()
      ensures contactStyle == Lines && isInfo ==>
        ContactDrawn(frame, old(contactBillboardLine), old(contactManualObject), old(contactPoints))
      ensures old(ContactExclusive()) ==> ContactExclusive()
    {
      if contactStyle == Lines && isInfo {
        ProcessContactTrajectory(frame);
      }
    }
  }
}

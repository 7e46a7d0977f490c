/** The whole-body state display: loading the robot model, the CoM style
    flag, and what one message pass leaves in the display. */
module StateDisplay {
  import opened Common
  import opened Messages
  import opened ContactClassification

  /** The URDF status the display shows. */
  datatype UrdfStatus = NoStatus | UrdfOk | UrdfMissing | UrdfEmpty

  /** What the display needs from a parsed robot model: the norm of its
      gravity vector and its total mass. */
  datatype RobotModel = RobotModel(gravityNorm: real, totalMass: real)

  /** A point visual: the point it was given, if any, and whether its
      colour was faded to alpha 0. */
  datatype Marker = Marker(point: Option<Vec3>, faded: bool)

  /** The CoM style option: `enum CoMStyle { REAL, PROJECTED }`; any other
      option value falls to the default branch. */
  const RealOption := 0
  const ProjectedOption := 1

  /** The value `updateCoMStyle` gives the CoM flag for an option value:
      false only for Projected. */
  function ComRealFor(option: int): (r: bool)
    ensures r <==> option != ProjectedOption
  {
    if option == ProjectedOption then false else true
  }

  /** A marker that is faded when it exists (lines 637-652). */
  function Fade(m: Option<Marker>): (r: Option<Marker>)
    ensures r.None? <==> m.None?
    ensures r.Some? ==> r.value.faded && r.value.point == m.value.point
  {
    match m
    case Some(v) => Some(v.(faded := true))
    case None => None
  }

  /** A fresh marker showing `p` when it is finite and no point otherwise. */
  function MarkerAt(p: DVec3): (r: Marker)
    ensures !r.faded
    ensures r.point.Some? <==> IsFiniteVec(p)
    ensures IsFiniteVec(p) ==> r.point == Some(Value(p))
  {
    Marker(if IsFiniteVec(p) then Some(Value(p)) else None, false)
  }

  class WholeBodyStateDisplay {
    var isInfo: bool
    /** The contacts and centroidal state of the last message. */
    var msg: WholeBodyState
    /** The URDF text of the loaded model (`robot_model_`). */
    var robotModel: string
    var initializedModel: bool
    var status: UrdfStatus
    var gravity: real
    var weight: real
    var comReal: bool
    /** The threshold read from its property at the end of the last pass. */
    var forceThreshold: real
    var frictionMu: real
    var comVisual: Option<Marker>
    var copVisual: Option<Marker>
    var icpVisual: Option<Marker>
    var cmpVisual: Option<Marker>
    var grfVisual: seq<ForceArrow>
    var conesVisual: seq<FrictionCone>
    /** The vertices of the support polygon visual. */
    var supportVisual: Option<seq<Vec3>>

    /** A model is only ever marked as loaded together with its non-empty
        URDF text. The constructor, `Clear` and `Load` establish it from any
        state; every other method keeps `robotModel` and `initializedModel`. */
    ghost predicate Valid()
      reads this
    {
      initializedModel ==> robotModel != ""
    }

    /** The display as constructed (lines 32-33): no message, no model,
        threshold and weight zero, gravity 9.81, Real CoM style. The
        friction coefficient and the first message are never set by the
        constructor, so they are taken as given. */
    constructor(mu: real, m: WholeBodyState)
      ensures Valid()
      ensures !isInfo && !initializedModel && robotModel == "" && status == NoStatus
      ensures forceThreshold == 0.0 && weight == 0.0 && gravity == 9.81 && comReal
      ensures frictionMu == mu && msg == m
      ensures comVisual == None && copVisual == None && icpVisual == None && cmpVisual == None
      ensures grfVisual == [] && conesVisual == [] && supportVisual == None
    {
      isInfo, initializedModel, robotModel, status := false, false, "", NoStatus;
      forceThreshold, weight, gravity, comReal := 0.0, 0.0, 9.81, true;
      frictionMu, msg := mu, m;
      comVisual, copVisual, icpVisual, cmpVisual := None, None, None, None;
      grfVisual, conesVisual, supportVisual := [], [], None;
    }

    /** The message, the model, its statuses, gravity and weight are as
        they were. */
    twostate predicate ModelKept()
      reads this
    {
      && isInfo == old(isInfo) && msg == old(msg) && robotModel == old(robotModel)
      && initializedModel == old(initializedModel) && status == old(status)
      && gravity == old(gravity) && weight == old(weight)
    }

    twostate predicate VisualsKept()
      reads this
    {
      && comVisual == old(comVisual) && copVisual == old(copVisual)
      && icpVisual == old(icpVisual) && cmpVisual == old(cmpVisual)
      && grfVisual == old(grfVisual) && conesVisual == old(conesVisual)
      && supportVisual == old(supportVisual)
      && forceThreshold == old(forceThreshold) && frictionMu == old(frictionMu)
    }

    /** `clear`: the statuses are cleared and the model is forgotten. */
    method Clear()
      modifies this
      ensures Valid()
      ensures status == NoStatus && robotModel == "" && !initializedModel
      ensures gravity == old(gravity) && weight == old(weight)
      ensures isInfo == old(isInfo) && msg == old(msg) && comReal == old(comReal)
      ensures VisualsKept()
    {
      status := NoStatus;
      robotModel := "";
      initializedModel := false;
    }

    /** `load`. `content` is the URDF text the parameter server returns for
        the robot-model parameter, either directly or under the name
        `searchParam` finds; None when neither finds it. `parsed` is what
        the URDF parser makes of a new text; None when it throws, in which
        case the new text is already recorded and nothing else changes. */
    method Load(content: Option<string>, parsed: Option<RobotModel>)
      modifies this
      ensures Valid()
      ensures isInfo == old(isInfo) && msg == old(msg) && comReal == old(comReal)
      ensures VisualsKept()
      ensures content.None? ==> status == UrdfMissing && robotModel == "" && !initializedModel
      ensures content == Some("") ==> status == UrdfEmpty && robotModel == "" && !initializedModel
      ensures content.None? || content == Some("") ==> gravity == old(gravity) && weight == old(weight)
      ensures content == Some(old(robotModel)) && old(robotModel) != "" ==>
        robotModel == old(robotModel) && initializedModel == old(initializedModel)
        && status == old(status) && gravity == old(gravity) && weight == old(weight)
      ensures content.Some? && content.value != "" && content.value != old(robotModel) ==>
        robotModel == content.value
      ensures content.Some? && content.value != "" && content.value != old(robotModel) && parsed.Some? ==>
        initializedModel && status == UrdfOk
        && gravity == parsed.value.gravityNorm && weight == parsed.value.totalMass * parsed.value.gravityNorm
      ensures content.Some? && content.value != "" && content.value != old(robotModel) && parsed.None? ==>
        initializedModel == old(initializedModel) && status == old(status)
        && gravity == old(gravity) && weight == old(weight)
    {
      if content.None? {
        Clear();
        status := UrdfMissing;
        return;
      }
      var text := content.value;
      if text == "" {
        Clear();
        status := UrdfEmpty;
        return;
      }
      if text == robotModel {
        return;
      }
      robotModel := text;
      if parsed.None? {
        return;
      }
      gravity := parsed.value.gravityNorm;
      weight := parsed.value.totalMass * gravity;
      initializedModel := true;
      status := UrdfOk;
    }

    /** `updateCoMStyle` with the selected option value. */
    method UpdateCoMStyle(option: int)
      modifies this
      ensures comReal == ComRealFor(option)
      ensures ModelKept()
      ensures VisualsKept()
    {
      if option == ProjectedOption {
        comReal := false;
      } else {
        comReal := true;
      }
    }

    /** The CoP, ICP and CMP markers after a pass with `nSupp` support
        contacts and CoP `cop` (lines 587-653): recreated, the CoP one at a
        finite CoP, when there is a support contact, and faded otherwise.
        The ICP and CMP points come from formulas that are not modelled. */
    method UpdatePressureMarkers(nSupp: nat, cop: DVec3)
      modifies this
      ensures nSupp != 0 ==> copVisual == Some(MarkerAt(cop))
      ensures nSupp != 0 ==> icpVisual.Some? && !icpVisual.value.faded && cmpVisual.Some? && !cmpVisual.value.faded
      ensures nSupp == 0 ==> copVisual == Fade(old(copVisual))
      ensures nSupp == 0 ==> icpVisual == Fade(old(icpVisual)) && cmpVisual == Fade(old(cmpVisual))
      ensures ModelKept() && comReal == old(comReal)
      ensures comVisual == old(comVisual) && grfVisual == old(grfVisual) && conesVisual == old(conesVisual)
      ensures supportVisual == old(supportVisual)
      ensures forceThreshold == old(forceThreshold) && frictionMu == old(frictionMu)
    {
      if nSupp != 0 {
        copVisual := Some(Marker(None, false));
        icpVisual := Some(Marker(None, false));
        cmpVisual := Some(Marker(None, false));
        if IsFiniteVec(cop) {
          copVisual := Some(Marker(Some(Value(cop)), false));
        }
      } else {
        copVisual := Fade(copVisual);
        icpVisual := Fade(icpVisual);
        cmpVisual := Fade(cmpVisual);
      }
    }

    /** The contact loop and the CoP guard of `processWholeBodyState`
        (lines 433-533), with the threshold of the previous pass: the force
        arrows, the friction cones and the support polygon are rebuilt and
        the friction coefficient is the last contact's. */
    method ClassifyContacts() returns (nSupp: nat, cop: DVec3)
      modifies this
      ensures nSupp == SupportCount(msg.contacts) && cop == CenterOfPressure(msg.contacts)
      ensures grfVisual == ForceArrows(msg.contacts, forceThreshold, weight)
      ensures conesVisual == FrictionCones(msg.contacts, forceThreshold)
      ensures supportVisual == Some(SupportPolygon(msg.contacts, forceThreshold))
      ensures frictionMu == LastMu(msg.contacts, old(frictionMu))
      ensures ModelKept() && comReal == old(comReal)
      ensures comVisual == old(comVisual) && copVisual == old(copVisual)
      ensures icpVisual == old(icpVisual) && cmpVisual == old(cmpVisual)
      ensures forceThreshold == old(forceThreshold)
    {
      var copSum, totalForce, support, arrows, cones, mu;
      nSupp, copSum, totalForce, support, arrows, cones, mu :=
        ScanContacts(msg.contacts, forceThreshold, weight, frictionMu);
      cop := if nSupp != 0 then DDiv(copSum, totalForce.z) else copSum;
      grfVisual, conesVisual, frictionMu, supportVisual := arrows, cones, mu, Some(support);
    }

    /** The outcome of a pass of `processWholeBodyState` over `msg` that
        found a model and a pose: the contacts are classified with the
        threshold of the previous pass, the CoM marker is at the chosen
        point, the CoP markers are recreated when there is a support
        contact and faded otherwise, and the threshold property is read at
        the end. */
    twostate predicate PassDrawn(thresholdProperty: real)
      reads this
    {
      var cs := msg.contacts;
      var th := old(forceThreshold);
      var nSupp := SupportCount(cs);
      var cop := CenterOfPressure(cs);
      && grfVisual == ForceArrows(cs, th, weight)
      && conesVisual == FrictionCones(cs, th)
      && supportVisual == Some(SupportPolygon(cs, th))
      && frictionMu == LastMu(cs, old(frictionMu))
      && comVisual == Some(MarkerAt(CoMPointChoice(comReal, nSupp, msg.centroidal.comPosition,
                                                   msg.centroidal.baseOrientation, cop)))
      && (nSupp != 0 ==> copVisual == Some(MarkerAt(cop)))
      && (nSupp != 0 ==> icpVisual.Some? && !icpVisual.value.faded && cmpVisual.Some? && !cmpVisual.value.faded)
      && (nSupp == 0 ==> copVisual == Fade(old(copVisual)))
      && (nSupp == 0 ==> icpVisual == Fade(old(icpVisual)) && cmpVisual == Fade(old(cmpVisual)))
      && forceThreshold == thresholdProperty
    }

    /** `processWholeBodyState` with the fixed-frame pose the frame manager
        returns (None when the lookup fails) and the current value of the
        force-threshold property. Nothing happens without a model or a
        pose. Otherwise the contacts are classified with the threshold of
        the previous pass; the CoP markers are recreated when there is a
        support contact and faded otherwise; the new threshold is read at
        the end. */
    method ProcessWholeBodyState(frame: Option<Frame>, thresholdProperty: real)
      modifies this
      ensures ModelKept() && comReal == old(comReal)
      ensures !initializedModel || frame.None? ==> VisualsKept()
      ensures initializedModel && frame.Some? ==> PassDrawn(thresholdProperty)
    {
      if !initializedModel || frame.None? {
        return;
      }
      comVisual := Some(Marker(None, false));
      var nSupp, cop := ClassifyContacts();
      var comPoint := CoMPointChoice(comReal, nSupp, msg.centroidal.comPosition, msg.centroidal.baseOrientation, cop);
      if IsFiniteVec(comPoint) {
        comVisual := Some(Marker(Some(Value(comPoint)), false));
      }
      assert comVisual == Some(MarkerAt(comPoint));
      UpdatePressureMarkers(nSupp, cop);
      UpdateSupportLineColorAndAlpha(thresholdProperty);
    }

    /** `processMessage`: the message is kept and drawn. */
    method ProcessMessage(m: WholeBodyState, frame: Option<Frame>, thresholdProperty: real)
      modifies this
      ensures msg == m && isInfo
      ensures robotModel == old(robotModel) && initializedModel == old(initializedModel)
      ensures status == old(status) && gravity == old(gravity) && weight == old(weight)
      ensures comReal == old(comReal)
      ensures !initializedModel || frame.None? ==> VisualsKept()
      ensures initializedModel && frame.Some? ==> PassDrawn(thresholdProperty)
    {
      msg, isInfo := m, true;
      ProcessWholeBodyState(frame, thresholdProperty);
    }

    /** `updateSupportLineColorAndAlpha` with the current value of the
        force-threshold property, of which it is the handler: the threshold
        the next pass classifies with. The line colour and radius it also
        sets are rendering. */
    method UpdateSupportLineColorAndAlpha(thresholdProperty: real)
      modifies this
      ensures forceThreshold == thresholdProperty
      ensures ModelKept() && comReal == old(comReal) && frictionMu == old(frictionMu)
      ensures comVisual == old(comVisual) && copVisual == old(copVisual)
      ensures icpVisual == old(icpVisual) && cmpVisual == old(cmpVisual)
      ensures grfVisual == old(grfVisual) && conesVisual == old(conesVisual)
      ensures supportVisual == old(supportVisual)
    {
      forceThreshold := thresholdProperty;
    }

    /** `reset`: the force arrows and the friction cones are dropped. */
    method Reset()
      modifies this
      ensures grfVisual == [] && conesVisual == []
      ensures ModelKept() && comReal == old(comReal)
      ensures comVisual == old(comVisual) && copVisual == old(copVisual)
      ensures icpVisual == old(icpVisual) && cmpVisual == old(cmpVisual)
      ensures supportVisual == old(supportVisual)
      ensures forceThreshold == old(forceThreshold) && frictionMu == old(frictionMu)
    {
      grfVisual := [];
      conesVisual := [];
    }

    /** `fixedFrameChanged`: with a message, it is drawn again with the
        pose of the new fixed frame. */
    method FixedFrameChanged(frame: Option<Frame>, thresholdProperty: real)
      modifies this
      ensures ModelKept() && comReal == old(comReal)
      ensures !isInfo || !initializedModel || frame.None? ==> VisualsKept()
      ensures isInfo && initializedModel && frame.Some? ==> PassDrawn(thresholdProperty)
    {
      if isInfo {
        ProcessWholeBodyState(frame, thresholdProperty);
      }
    }
  }
}

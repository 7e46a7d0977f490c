# Whole-body state and trajectory displays, modelled in Dafny

The rviz plugin draws two kinds of robot messages:

- **Whole-body trajectory display.** For a `WholeBodyTrajectory` it draws the path of the centre of mass (CoM). It also draws axes markers of the base orientation, thinned out by distance, and one trajectory per contact (end-effector) name. The trajectory display keeps its render objects in fields that its handlers rebuild or reset: `processMessage`, `processCoMTrajectory`, `processContactTrajectory`, `pushBackCoMAxes`, the style and enable handlers, `destroyObjects` and `fixedFrameChanged`.
- **Whole-body state display.** For a single `WholeBodyState` it works out which contacts are support contacts and computes the centre of pressure (CoP). It draws the support polygon, the ground-reaction-force arrows and the friction cones. It also places the CoM marker, either at the CoM or, when projected, on the ground.

This project models both displays as Dafny classes whose fields are the display state:

- Render objects become values. A billboard line or a manual-object line strip becomes a `Polyline` (its points, and whether it was ended). A point visual becomes a `PointVisual` (its point and the frame pose it was given). A marker becomes `Axes`. An object that has been reset is `None`.
- Each handler is a method. Its postcondition gives the whole new state in terms of specification functions.
- Lemmas prove what those functions promise: the contact trajectory per name, the id numbering, the spacing of the markers and the classification of the contacts.

Message values that C++ checks with `std::isfinite` are modelled as `Double = Finite(real) | NonFinite`. Reals are exact, so single-precision rounding is not modelled.

Module layout:

- `common.dfy`: finiteness, vectors, quaternions, the fixed-frame transform, and sequence/set helpers.
- `messages.dfy`: the message types.
- `name_order.dfy`: the order of `std::string` keys and a `std::map` visit in that order.
- `visuals.dfy`: render objects as values.
- `contact_grouping.dfy`: `processContactTrajectory`.
- `com_trajectory.dfy`: the CoM path and the axes markers.
- `trajectory_display.dfy`: the trajectory display class.
- `contact_classification.dfy`: the contact loop of `processWholeBodyState` and the choice of CoM point.
- `state_display.dfy`: the state display class.

## Model

| member | source | states |
|---|---|---|
| Common.Sanitize | src/WholeBodyTrajectoryDisplay.cpp:335-342 | A position with a non-finite coordinate is drawn at the origin; a finite one is kept as it is |
| CoMTrajectory.SanitizeQuat | src/WholeBodyTrajectoryDisplay.cpp:343-352 | A base orientation with a non-finite component becomes the identity; a finite one is kept |
| CoMTrajectory.CoMPoses | src/WholeBodyTrajectoryDisplay.cpp:354-356 | One pose per state: the sanitized CoM carried into the fixed frame, with the base orientation composed with the frame's |
| CoMTrajectory.CoMPath | src/WholeBodyTrajectoryDisplay.cpp:354-385 | The line of a Billboards or Lines pass holds one transformed CoM point per state, in state order |
| CoMTrajectory.CoMPointVisuals | src/WholeBodyTrajectoryDisplay.cpp:386-401 | A Points pass creates one visual per state at the sanitized CoM (not transformed) together with the frame pose |
| CoMTrajectory.AxesTrailSpaced | src/WholeBodyTrajectoryDisplay.cpp:578-601 | There are no more markers than poses and every marker is an offered pose. The first is at squared distance at least 0.0032·scale² from the previous last marker, and so is each next one from the one before. The last-marker position is the last one kept |
| CoMTrajectory.AxesTrailInOrder | src/WholeBodyTrajectoryDisplay.cpp:321-356 | The markers are a subsequence of the offered poses: the `k`-th marker is the pose at a position that grows strictly with `k` |
| CoMTrajectory.ZeroScaleKeepsAll | src/WholeBodyTrajectoryDisplay.cpp:584-586 | With axes scale 0 every pose gets a marker |
| CoMTrajectory.AxesTrailSnoc | src/WholeBodyTrajectoryDisplay.cpp:584-600 | Offering one more pose adds it exactly when it is far enough from the current last marker, and it then becomes the last marker |
| ContactGrouping.Entries | src/WholeBodyTrajectoryDisplay.cpp:473-475 | The inner loop visits every contact of a state, with its name and its index, in order |
| ContactGrouping.DistinctProps | src/WholeBodyTrajectoryDisplay.cpp:434-447 | The names in order of first appearance contain no repetition and are exactly the names visited; there are as many as distinct names |
| ContactGrouping.DistinctPrefix | src/WholeBodyTrajectoryDisplay.cpp:470-505 | The ids given after part of the visits are the first ids of the whole pass |
| ContactGrouping.CountContactTrajectories | src/WholeBodyTrajectoryDisplay.cpp:434-447 | The first pass counts exactly the distinct contact names of the trajectory |
| ContactGrouping.CountStateContacts | src/WholeBodyTrajectoryDisplay.cpp:437-445 | After the contacts of one more state, the ids are still the first-appearance numbering of every name visited and the count is the number of those names |
| ContactGrouping.IdsStep | src/WholeBodyTrajectoryDisplay.cpp:476-479 | An unseen name gets the next id, the count grows by one, and the ids stay the first-appearance numbering; a seen name changes nothing |
| ContactGrouping.RegistryStepNew | src/WholeBodyTrajectoryDisplay.cpp:476-478 | A new name's id records the visited index, which is the index of its last visit |
| ContactGrouping.RegistryStepKnown | src/WholeBodyTrajectoryDisplay.cpp:498-503 | A known name re-records the visited index; every id still records the index of its name's last visit |
| ContactGrouping.LastIndexAppend | src/WholeBodyTrajectoryDisplay.cpp:498-503 | The recorded index after more visits is the latest one if the name was visited again, and the earlier one otherwise |
| ContactGrouping.LastIndexPresent | src/WholeBodyTrajectoryDisplay.cpp:470-505 | A name has a recorded index exactly when it has been visited |
| ContactGrouping.PresentIsVisited | src/WholeBodyTrajectoryDisplay.cpp:473-475 | A name is present in a state exactly when the state's contacts visit it, and exactly when it has an index in that state |
| ContactGrouping.RegisterContacts | src/WholeBodyTrajectoryDisplay.cpp:473-504 | After registering a state, every name seen so far has its first-appearance id and records the index of its last visit. In a line style each id has a fresh line whose earlier points are its track; other slots stay reset |
| ContactGrouping.RegisterContact | src/WholeBodyTrajectoryDisplay.cpp:474-504 | The same, for one contact |
| ContactGrouping.RegisterBound | src/WholeBodyTrajectoryDisplay.cpp:453-465 | The id given to a new name is below the number of slots the first pass sized the line vector with |
| ContactGrouping.StatePoint | src/WholeBodyTrajectoryDisplay.cpp:516-533 | A state gives a name a point exactly when the name is present in it |
| ContactGrouping.RecordedIndex | src/WholeBodyTrajectoryDisplay.cpp:514-518 | When a state is drawn, an id's recorded index names a contact with the id's own name exactly when that name is present in the state. It is then the name's last index in the state |
| ContactGrouping.EmitContacts | src/WholeBodyTrajectoryDisplay.cpp:506-551 | The map is visited in key order. In a line style every id's line gets the state's point of its name. In Points style the state's slots are filled from the front with the points of the names present |
| ContactGrouping.EmitContact | src/WholeBodyTrajectoryDisplay.cpp:513-550 | One map entry adds the point of its name to its id's line, or to the next slot, exactly when the name is present in the state |
| ContactGrouping.EmitCount | src/WholeBodyTrajectoryDisplay.cpp:507-550 | The number of points a state gets is the number of visited names present in it |
| ContactGrouping.EmitBound | src/WholeBodyTrajectoryDisplay.cpp:508-511 | A state never gets more points than it has contacts, so its slot vector is never overrun |
| ContactGrouping.StateSlotsCount | src/WholeBodyTrajectoryDisplay.cpp:508-549 | In Points style a state gets exactly one point per distinct contact name it holds |
| ContactGrouping.EndLines | src/WholeBodyTrajectoryDisplay.cpp:557-561 | The first `traj_id` line strips are ended and nothing else changes |
| ContactGrouping.ProcessState | src/WholeBodyTrajectoryDisplay.cpp:471-551 | After one state the registry covers it and the lines hold every name's track up to and including it |
| ContactGrouping.DrawLines | src/WholeBodyTrajectoryDisplay.cpp:470-552 | In a line style, after every state each of the first-pass slots holds one open line with its name's whole track, and as many ids were given as the first pass counted |
| ContactGrouping.DrawPoints | src/WholeBodyTrajectoryDisplay.cpp:470-552 | In Points style every state gets its own slot vector, filled from the front with the points of the names present in it |
| ContactGrouping.BuildContactTrajectories | src/WholeBodyTrajectoryDisplay.cpp:410-563 | In Billboards style, one open line per contact name in order of first appearance holds the name's track. In Lines style the same lines are ended. In Points style there is one slot vector per state. The other two containers are untouched |
| ContactGrouping.TrackAbsent | src/WholeBodyTrajectoryDisplay.cpp:470-551 | A name not yet visited has no points |
| ContactGrouping.TrackShape | src/WholeBodyTrajectoryDisplay.cpp:470-551 | A contact trajectory has points exactly when its name occurs, and at most one point per state |
| ContactGrouping.TrackSnoc | src/WholeBodyTrajectoryDisplay.cpp:506-551 | Drawing one more state appends that state's point of the name, if any, to its track |
| ContactGrouping.ContactLinesShape | src/WholeBodyTrajectoryDisplay.cpp:451-505 | There are as many lines as contact names, each line belongs to a different name, and none is empty |
| ContactGrouping.AsWrittenDrawCount | src/WholeBodyTrajectoryDisplay.cpp:516-517 | The test as written draws every id whose recorded index is below the state's contact count |
| ContactGrouping.StaleIndexOverflow | src/WholeBodyTrajectoryDisplay.cpp:516-546 | Trajectory [[A,B],[B]]: as written the second state draws two points into one slot, with A at B's position; the corrected rule draws one |
| TrajectoryDisplay.ResetLines | src/WholeBodyTrajectoryDisplay.cpp:149-151 | Every line object of the vector is reset and the vector keeps its size |
| TrajectoryDisplay.ClearRows | src/WholeBodyTrajectoryDisplay.cpp:155-160 | Every per-state point vector is emptied and the outer vector keeps its size |
| TrajectoryDisplay.AsWrittenManualReset | src/WholeBodyTrajectoryDisplay.cpp:216-246 | The Billboards and Points branches index the manual objects up to the billboard count, which is out of range exactly when that count is larger. Lines does not touch them |
| TrajectoryDisplay.StyleSwitchResets | src/WholeBodyTrajectoryDisplay.cpp:218-246 | After a Billboards pass over two contact names, switching to Points or Billboards resets two manual objects of an empty vector. After a Lines pass, switching to Billboards leaves both line strips alive |
| TrajectoryDisplay.AsWrittenCoMEndTarget | src/WholeBodyTrajectoryDisplay.cpp:403-405 | As written, the strip ended after the loop is the one the first state created, or for an empty trajectory the old pointer |
| TrajectoryDisplay.EmptyTrajectoryEndsNull | src/WholeBodyTrajectoryDisplay.cpp:285-296 | After `destroyObjects`, an empty trajectory in Lines style ends a null object |
| TrajectoryDisplay.WholeBodyTrajectoryDisplay.constructor | src/WholeBodyTrajectoryDisplay.cpp:33-95 | No message, both parts enabled, both styles Billboards, scale 1, no render objects |
| TrajectoryDisplay.WholeBodyTrajectoryDisplay.PushBackCoMAxes | src/WholeBodyTrajectoryDisplay.cpp:578-601 | A marker is appended, and becomes the last one, exactly when it is far enough from the last marker; nothing else changes |
| TrajectoryDisplay.WholeBodyTrajectoryDisplay.DrawCoMState | src/WholeBodyTrajectoryDisplay.cpp:322-401 | One state is offered to the markers and added to the object of the selected style, which the first state creates |
| TrajectoryDisplay.WholeBodyTrajectoryDisplay.DrawCoMAxes | src/WholeBodyTrajectoryDisplay.cpp:322-356 | The markers after one more state are the axes trail of the poses so far; the CoM objects, the contacts and the settings are untouched |
| TrajectoryDisplay.WholeBodyTrajectoryDisplay.DrawCoMPoint | src/WholeBodyTrajectoryDisplay.cpp:357-401 | The selected style's object, created by the first state, holds the CoM path so far; the other two, the markers and the contacts are untouched |
| TrajectoryDisplay.WholeBodyTrajectoryDisplay.ProcessCoMTrajectory | src/WholeBodyTrajectoryDisplay.cpp:298-408 | When enabled, the markers are rebuilt from the whole trajectory and the selected style's object shows the CoM path (a strip is ended). The other objects and the contacts are untouched; when disabled nothing changes |
| TrajectoryDisplay.WholeBodyTrajectoryDisplay.ProcessContactTrajectory | src/WholeBodyTrajectoryDisplay.cpp:410-563 | When enabled, the selected style's container is rebuilt as `BuildContactTrajectories` says; the CoM and the settings are untouched |
| TrajectoryDisplay.WholeBodyTrajectoryDisplay.UpdateCoMStyle | src/WholeBodyTrajectoryDisplay.cpp:112-134 | The objects of the two other styles are dropped, the axes are kept, and with a message the CoM is drawn again. Afterwards only the selected style's object is alive |
| TrajectoryDisplay.WholeBodyTrajectoryDisplay.UpdateCoMEnable | src/WholeBodyTrajectoryDisplay.cpp:136-144 | Disabling drops the three CoM path objects but keeps the axes; enabling changes nothing else |
| TrajectoryDisplay.WholeBodyTrajectoryDisplay.UpdateContactEnable | src/WholeBodyTrajectoryDisplay.cpp:146-163 | Disabling resets every contact line and empties every point vector, sizes kept |
| TrajectoryDisplay.WholeBodyTrajectoryDisplay.UpdateContactStyle | src/WholeBodyTrajectoryDisplay.cpp:216-255 | Lines of other styles are reset and point vectors emptied unless Points is selected, then the contacts are redrawn with a message. Afterwards only the selected style's objects are alive |
| TrajectoryDisplay.WholeBodyTrajectoryDisplay.DestroyObjects | src/WholeBodyTrajectoryDisplay.cpp:565-576 | Every render object and container is dropped; the settings and the last marker position stay |
| TrajectoryDisplay.WholeBodyTrajectoryDisplay.ProcessMessage | src/WholeBodyTrajectoryDisplay.cpp:285-296 | The message is stored and both parts are drawn from nothing; only the selected styles' objects are alive |
| TrajectoryDisplay.WholeBodyTrajectoryDisplay.FixedFrameChanged | src/WholeBodyTrajectoryDisplay.cpp:101-108 | With a message, both parts are drawn again in the new frame; without one nothing changes |
| TrajectoryDisplay.WholeBodyTrajectoryDisplay.UpdateCoMLineProperties | src/WholeBodyTrajectoryDisplay.cpp:165-214 | The new axes scale is kept for the next distance tests. In Lines style with a message the CoM is drawn again at that scale; otherwise the CoM objects are untouched. The contacts are untouched |
| TrajectoryDisplay.WholeBodyTrajectoryDisplay.UpdateContactLineProperties | src/WholeBodyTrajectoryDisplay.cpp:257-283 | In Lines style with a message the contacts are drawn again; otherwise nothing changes. The CoM and the settings are untouched |
| ContactClassification.SupportCount | src/WholeBodyStateDisplay.cpp:451-453 | The number of support contacts never exceeds the number of contacts |
| ContactClassification.ScanContacts | src/WholeBodyStateDisplay.cpp:437-529 | The loop computes the support count, the weighted CoP sum, the total force, the polygon, the arrows, the cones and the last friction coefficient |
| ContactClassification.NormComparison | src/WholeBodyStateDisplay.cpp:464 | Comparing squared norms agrees with `force.norm() > threshold` |
| ContactClassification.SupportCountExact | src/WholeBodyStateDisplay.cpp:451-453 | The count is the number of type-0 contacts, and it is zero exactly when there is none |
| ContactClassification.NonSupportAddsNothing | src/WholeBodyStateDisplay.cpp:451-460 | Contacts that are not type 0, appended after the others, change neither the support count, the CoP sum nor the total force |
| ContactClassification.NonSupportAnywhere | src/WholeBodyStateDisplay.cpp:451-460 | The same for contacts that are not type 0 anywhere in the message: removing them from between any two parts changes none of the three |
| ContactClassification.NoSupportZeroCoP | src/WholeBodyStateDisplay.cpp:530-533 | Without support contacts the CoP stays at the origin and the total force is zero |
| ContactClassification.ZeroVerticalForceCoP | src/WholeBodyStateDisplay.cpp:530-533 | With support contacts whose total vertical force is zero, the CoP is not finite |
| ContactClassification.SupportPolygonExact | src/WholeBodyStateDisplay.cpp:464-499 | A polygon vertex is exactly the position of a support contact with a finite position and a force above threshold; there are no more vertices than support contacts |
| ContactClassification.SupportPolygonOrder | src/WholeBodyStateDisplay.cpp:464-499 | The polygon's vertices are the positions of the loaded support contacts in message order, one per contact: the `k`-th vertex is that of the `k`-th such contact |
| ContactClassification.ForceArrowsExact | src/WholeBodyStateDisplay.cpp:464-496 | An arrow is drawn exactly for a contact with a finite position and a force above threshold, when the weight is non-zero; weight zero draws none |
| ContactClassification.FrictionConesExact | src/WholeBodyStateDisplay.cpp:502-527 | A cone is drawn exactly for a contact whose force is above threshold and whose normal and friction coefficient are non-zero |
| ContactClassification.RotateVertical | src/WholeBodyStateDisplay.cpp:548 | Rotating the vertical offset is finite exactly when the quaternion and the offset are finite |
| ContactClassification.CoMPointChoice | src/WholeBodyStateDisplay.cpp:536-551 | In Real style, or with any support contact, the CoM is drawn at its own position |
| ContactClassification.ProjectedWithoutSupport | src/WholeBodyStateDisplay.cpp:541-551 | The projected CoM sits on the ground below the CoM when the base orientation is finite, and is not drawn otherwise |
| StateDisplay.ComRealFor | src/WholeBodyStateDisplay.cpp:263-276 | The CoM is real for every option except Projected |
| StateDisplay.Fade | src/WholeBodyStateDisplay.cpp:637-652 | An existing marker is faded and keeps its point; a missing one stays missing |
| StateDisplay.MarkerAt | src/WholeBodyStateDisplay.cpp:566-570 | A fresh marker gets the point exactly when it is finite |
| StateDisplay.WholeBodyStateDisplay.constructor | src/WholeBodyStateDisplay.cpp:31-33 | No message, no model, threshold and weight 0, gravity 9.81, Real CoM |
| StateDisplay.WholeBodyStateDisplay.Clear | src/WholeBodyStateDisplay.cpp:186-191 | The status is cleared and the model is forgotten |
| StateDisplay.WholeBodyStateDisplay.Load | src/WholeBodyStateDisplay.cpp:220-254 | Missing text: the status is Missing and the model is cleared. Empty text: the status is Empty and the model is cleared. The same text changes nothing. New text is recorded and, when it parses, sets gravity, weight = mass·gravity, the loaded flag and the Ok status |
| StateDisplay.WholeBodyStateDisplay.UpdateCoMStyle | src/WholeBodyStateDisplay.cpp:263-276 | Only the CoM flag changes, as `ComRealFor` says |
| StateDisplay.WholeBodyStateDisplay.UpdatePressureMarkers | src/WholeBodyStateDisplay.cpp:587-653 | With a support contact the CoP, ICP and CMP markers are recreated, and the CoP marker is placed at a finite CoP. Without one, existing markers are faded |
| StateDisplay.WholeBodyStateDisplay.ClassifyContacts | src/WholeBodyStateDisplay.cpp:424-533 | Arrows, cones and polygon are rebuilt from the contacts with the previous threshold, and the friction coefficient is the last contact's. The CoP is divided by the vertical force only with support contacts |
| StateDisplay.WholeBodyStateDisplay.ProcessWholeBodyState | src/WholeBodyStateDisplay.cpp:407-661 | Without a model or a frame nothing changes. Otherwise the visuals are rebuilt, the CoM marker is at the chosen point when it is finite, and the pressure markers are set or faded. The threshold property is read at the end |
| StateDisplay.WholeBodyStateDisplay.ProcessMessage | src/WholeBodyStateDisplay.cpp:400-405 | The message is stored and drawn, with the same outcome as `ProcessWholeBodyState` |
| StateDisplay.WholeBodyStateDisplay.UpdateSupportLineColorAndAlpha | src/WholeBodyStateDisplay.cpp:358-369 | The force threshold becomes the property's value, so the next pass classifies with it; nothing else changes |
| StateDisplay.WholeBodyStateDisplay.Reset | src/WholeBodyStateDisplay.cpp:214-218 | The force arrows and friction cones are dropped; nothing else changes |
| StateDisplay.WholeBodyStateDisplay.FixedFrameChanged | src/WholeBodyStateDisplay.cpp:208-212 | With a message the state is drawn again with the new pose, as `ProcessWholeBodyState` says; without one nothing changes |

## Left out

- Rendering is left out: colours, alpha values, widths, radii, scene nodes and `queueRender`. So are the property objects, which enter as method parameters (style, enable flag, axes scale, threshold). The colour and geometry handlers of the state display other than `updateSupportLineColorAndAlpha` only restyle objects and are not modelled. Of `updateCoMLineProperties` and `updateContactLineProperties` only the redraw in Lines style and the new axes scale are modelled. The rendered size of existing axes markers is not.
- The frame manager lookup is a parameter. In the trajectory display a failed lookup is only logged and drawing goes on with the default pose. The model takes the pose as given and does not model that default.
- The ROS parameter server and the URDF parser are parameters of `Load`: the text found, if any, and the parsed gravity and mass. A parser exception is modelled as no parse result. Pinocchio's model building and mass computation are not part of this model.
- The ICP and CMP positions need `sqrt` and division by a height, and the CoM velocity arrow (`comd_visual_`) needs `setFromTwoVectors`. The model records only whether the ICP and CMP markers exist and are faded, not their points. The CoM velocity arrow is not recorded at all. The orientations of the force arrows and cones, and the cone width (`tan`), are left out for the same reason.
- The state display markers do not record the frame pose they are given.
- StateDisplay.WholeBodyStateDisplay.ProcessWholeBodyState: the ICP and CMP points are only stated to exist, not where they are (see above).
- Floating-point rounding, single-precision casts and overflow to infinity are not modelled. Reals are exact, and only message values are checked for finiteness. A force whose norm overflows is therefore not represented.
- `last_point_position_` is never initialised by the trajectory display's constructor. The model takes its first value as a constructor parameter.
- The state display constructor does not set `friction_mu_` or the message. Both are taken as given.
- `onEnable`, `onDisable` and `updateRobotModel` of the state display only forward to the modelled `Load` and `Clear`, and the trajectory display's `reset` only forwards to the base class. They are not modelled separately. The base class part of the state display's `reset` is not part of this model.
- The `std::map` iteration order is modelled as lexicographic order on names (`NameOrder.SortedNames`). Only Points style depends on it, for the slot order.

## Findings

| source | as written | input that shows it | evidently intended | confidence | as-written member | corrected member |
|---|---|---|---|---|---|---|
| src/WholeBodyTrajectoryDisplay.cpp:516 | A contact trajectory is drawn in a state whenever the index its id last recorded is below that state's contact count, even if the index names another contact or the name is absent | Trajectory [[A,B],[B]]: in the second state A's recorded index 0 is below 1, so A is drawn at B's position. In Points style two points go into a slot vector of size 1 | Draw an id only when its recorded index names a contact with the id's own name, i.e. only when the name is present in the state | not executed | ContactGrouping.StaleIndexOverflow | ContactGrouping.BuildContactTrajectories |
| src/WholeBodyTrajectoryDisplay.cpp:218-246 | `updateContactStyle` resets `contact_manual_object_[i]` for every `i` below the size of the billboard vector | A message drawn in Billboards style with two contact names, then a switch to Points: the manual-object vector is empty, so index 0 is out of range. After Lines, a switch to Billboards leaves the manual strips alive | Reset each container up to its own size | not executed | TrajectoryDisplay.StyleSwitchResets | TrajectoryDisplay.WholeBodyTrajectoryDisplay.UpdateContactStyle |
| src/WholeBodyTrajectoryDisplay.cpp:403-405 | In Lines style `com_manual_object_->end()` is called after the loop even if no state created the strip | An empty trajectory in Lines style: `processMessage` has reset the pointer, so `end()` is called on null | End the strip only when this pass created it | not executed | TrajectoryDisplay.EmptyTrajectoryEndsNull | TrajectoryDisplay.WholeBodyTrajectoryDisplay.ProcessCoMTrajectory |

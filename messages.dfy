/** The parts of the incoming messages that the displays read. */
module Messages {
  import opened Common

  /** One contact of a whole-body state: its end-effector name, its type
      (0 is a support contact), its position, the contact force, the
      surface normal and the friction coefficient. */
  datatype ContactState = ContactState(
    name: string,
    ctype: int,
    position: DVec3,
    force: Vec3,
    surfaceNormal: Vec3,
    frictionCoefficient: real)

  /** The centroidal part of a whole-body state. */
  datatype Centroidal = Centroidal(
    comPosition: DVec3,
    baseOrientation: DQuat,
    comVelocity: Vec3)

  datatype WholeBodyState = WholeBodyState(
    centroidal: Centroidal,
    contacts: seq<ContactState>)

  /** The states of a whole-body trajectory message. */
  type Trajectory = seq<WholeBodyState>
}

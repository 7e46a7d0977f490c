/** The render objects of the trajectory display, recorded by what the
    display feeds them. */
module Visuals {
  import opened Common

  /** `enum LineStyle { BILLBOARDS, LINES, POINTS }` */
  datatype LineStyle = Billboards | Lines | Points

  /** A `rviz::BillboardLine` or an `Ogre::ManualObject` line strip: the
      points added to it, in order, and whether `end()` closed it. */
  datatype Polyline = Polyline(points: seq<Vec3>, ended: bool)

  /** A `PointVisual`: the point it shows and the frame it is placed in. */
  datatype PointVisual = PointVisual(point: Vec3, frame: Frame)

  /** A `rviz::Axes` marker: its position and orientation. */
  datatype Axes = Axes(position: Vec3, orientation: Quat)

  /** `addPoint` / `position` on a line object; a reset object stays reset. */
  function AddPoint(line: Option<Polyline>, p: Vec3): Option<Polyline>
  {
    match line
    case Some(l) => Some(l.(points := l.points + [p]))
    case None => None
  }

  /** `end()` on a line object. */
  function End(line: Option<Polyline>): Option<Polyline>
  {
    match line
    case Some(l) => Some(l.(ended := true))
    case None => None
  }

  /** A vector of `n` reset shared pointers. */
  function Nulls<T>(n: nat): (r: seq<Option<T>>)
    ensures |r| == n && forall j :: 0 <= j < n ==> r[j] == None
  {
    seq(n, _ => None)
  }
}

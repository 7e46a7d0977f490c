/** Values shared by both displays: an optional value, a double that may
    be non-finite, vectors, quaternions and the fixed-frame transform. */
module Common {

  datatype Option<+T> = None | Some(value: T)

  /** An IEEE double as far as the displays care: either a finite value or
      one of the non-finite values (NaN, +inf, -inf), which `std::isfinite`
      rejects alike. */
  datatype Double = Finite(value: real) | NonFinite

  /** `std::isfinite` */
  predicate IsFinite(d: Double) { d.Finite? }

  /** Sum of two doubles: a non-finite operand makes the sum non-finite. */
  function Add(a: Double, b: Double): (r: Double)
    ensures IsFinite(r) <==> IsFinite(a) && IsFinite(b)
    ensures IsFinite(r) ==> r.value == a.value + b.value
  {
    if a.Finite? && b.Finite? then Finite(a.value + b.value) else NonFinite
  }

  /** A finite factor times a double. */
  function Scale(k: real, d: Double): (r: Double)
    ensures IsFinite(r) <==> IsFinite(d)
    ensures IsFinite(r) ==> r.value == k * d.value
  {
    if d.Finite? then Finite(k * d.value) else NonFinite
  }

  /** A double divided by a finite divisor: dividing by zero gives an
      infinity or NaN. */
  function Div(d: Double, k: real): (r: Double)
    ensures IsFinite(r) <==> IsFinite(d) && k != 0.0
    ensures IsFinite(r) ==> r.value * k == d.value
  {
    if d.Finite? && k != 0.0 then Finite(d.value / k) else NonFinite
  }

  /** A vector of finite coordinates (`Ogre::Vector3` after the checks). */
  datatype Vec3 = Vec3(x: real, y: real, z: real)

  const Zero3 := Vec3(0.0, 0.0, 0.0)

  function Plus(a: Vec3, b: Vec3): Vec3 { Vec3(a.x + b.x, a.y + b.y, a.z + b.z) }

  function SqNorm(v: Vec3): real { v.x * v.x + v.y * v.y + v.z * v.z }

  /** `Ogre::Vector3::squaredDistance` */
  function SqDistance(a: Vec3, b: Vec3): real
  {
    SqNorm(Vec3(a.x - b.x, a.y - b.y, a.z - b.z))
  }

  /** A vector read from a message, whose coordinates may be non-finite. */
  datatype DVec3 = DVec3(x: Double, y: Double, z: Double)

  const DZero3 := DVec3(Finite(0.0), Finite(0.0), Finite(0.0))

  predicate IsFiniteVec(p: DVec3) { IsFinite(p.x) && IsFinite(p.y) && IsFinite(p.z) }

  function DPlus(a: DVec3, b: DVec3): DVec3
  {
    DVec3(Add(a.x, b.x), Add(a.y, b.y), Add(a.z, b.z))
  }

  function DScale(k: real, p: DVec3): DVec3
  {
    DVec3(Scale(k, p.x), Scale(k, p.y), Scale(k, p.z))
  }

  function DDiv(p: DVec3, k: real): DVec3
  {
    DVec3(Div(p.x, k), Div(p.y, k), Div(p.z, k))
  }

  /** The coordinates of a vector known to be finite. */
  function Value(p: DVec3): Vec3
    requires IsFiniteVec(p)
  {
    Vec3(p.x.value, p.y.value, p.z.value)
  }

  /** The sanity check applied before a message position is drawn: a
      position with a non-finite coordinate is replaced by the origin. */
  function Sanitize(p: DVec3): (r: Vec3)
    ensures IsFiniteVec(p) ==> r == Value(p)
    ensures !IsFiniteVec(p) ==> r == Zero3
  {
    if IsFiniteVec(p) then Value(p) else Zero3
  }

  /** A quaternion with finite components. */
  datatype Quat = Quat(w: real, x: real, y: real, z: real)

  const IdentityQuat := Quat(1.0, 0.0, 0.0, 0.0)

  /** A quaternion read from a message. */
  datatype DQuat = DQuat(x: Double, y: Double, z: Double, w: Double)

  predicate IsFiniteQuat(q: DQuat)
  {
    IsFinite(q.x) && IsFinite(q.y) && IsFinite(q.z) && IsFinite(q.w)
  }

  /** Hamilton product, as `Ogre::Quaternion::operator*`. */
  function QuatMul(p: Quat, q: Quat): Quat
  {
    Quat(p.w * q.w - p.x * q.x - p.y * q.y - p.z * q.z,
         p.w * q.x + p.x * q.w + p.y * q.z - p.z * q.y,
         p.w * q.y + p.y * q.w + p.z * q.x - p.x * q.z,
         p.w * q.z + p.z * q.w + p.x * q.y - p.y * q.x)
  }

  /** The pose of the message frame in the fixed frame, as returned by the
      host's frame manager. */
  datatype Frame = Frame(position: Vec3, orientation: Quat)

  /** `Ogre::Matrix4(orientation)` with translation `position`, applied to a
      point: the rotation matrix of `Ogre::Quaternion::ToRotationMatrix`. */
  function Apply(f: Frame, v: Vec3): Vec3
  {
    var q := f.orientation;
    var tx, ty, tz := 2.0 * q.x, 2.0 * q.y, 2.0 * q.z;
    var twx, twy, twz := tx * q.w, ty * q.w, tz * q.w;
    var txx, txy, txz := tx * q.x, ty * q.x, tz * q.x;
    var tyy, tyz, tzz := ty * q.y, tz * q.y, tz * q.z;
    Vec3((1.0 - (tyy + tzz)) * v.x + (txy - twz) * v.y + (txz + twy) * v.z + f.position.x,
         (txy + twz) * v.x + (1.0 - (txx + tzz)) * v.y + (tyz - twx) * v.z + f.position.y,
         (txz - twy) * v.x + (tyz + twx) * v.y + (1.0 - (txx + tyy)) * v.z + f.position.z)
  }

  /** No element occurs twice. */
  ghost predicate NoDup<T>(s: seq<T>)
  {
    forall i, j :: 0 <= i < j < |s| ==> s[i] != s[j]
  }

  /** The set of the elements of a sequence. */
  function SetOf<T>(s: seq<T>): set<T>
  {
    set x | x in s
  }

  lemma {:induction false} NoDupCard<T>(s: seq<T>)
    requires NoDup(s)
    ensures |SetOf(s)| == |s|
  {
    if s != [] {
      var t := s[..|s| - 1];
      assert NoDup(t);
      NoDupCard(t);
      assert s == t + [s[|s| - 1]];
      assert SetOf(s) == SetOf(t) + {s[|s| - 1]};
    }
  }

  lemma {:induction false} SetOfCard<T>(s: seq<T>)
    ensures |SetOf(s)| <= |s|
  {
    if s != [] {
      var t := s[..|s| - 1];
      SetOfCard(t);
      assert s == t + [s[|s| - 1]];
      assert SetOf(s) == SetOf(t) + {s[|s| - 1]};
    }
  }

  lemma SubsetCard<T>(a: set<T>, b: set<T>)
    requires a <= b
    ensures |a| <= |b|
  {
    assert b == a + (b - a);
  }

  lemma PrefixSnoc<T>(s: seq<T>, j: nat)
    requires j < |s|
    ensures s[..j + 1] == s[..j] + [s[j]]
  {
  }

  lemma SetOfSnoc<T>(s: seq<T>, x: T)
    ensures SetOf(s + [x]) == SetOf(s) + {x}
  {
  }
}

/**
 * Rigid and hierarchy poses (Math.h) over the reals. Quaternions are
 * (w, x, y, z); the product is the Hamilton product and quat * vec3 is the
 * expanded rotation formula glm uses, v + 2 (w (u x v) + u x (u x v)).
 */
module Pose {

  datatype Vec3 = Vec3(x: real, y: real, z: real)

  datatype Quat = Quat(w: real, x: real, y: real, z: real)

  const ZERO: Vec3 := Vec3(0.0, 0.0, 0.0)
  const ONE: Vec3 := Vec3(1.0, 1.0, 1.0)
  const QUAT_IDENTITY: Quat := Quat(1.0, 0.0, 0.0, 0.0)

  function Add(a: Vec3, b: Vec3): Vec3 {
    Vec3(a.x + b.x, a.y + b.y, a.z + b.z)
  }

  function Neg(a: Vec3): Vec3 {
    Vec3(-a.x, -a.y, -a.z)
  }

  function Scale(k: real, a: Vec3): Vec3 {
    Vec3(k * a.x, k * a.y, k * a.z)
  }

  /** Component-wise product (glm's vec3 * vec3). */
  function Mul(a: Vec3, b: Vec3): Vec3 {
    Vec3(a.x * b.x, a.y * b.y, a.z * b.z)
  }

  predicate NonZero(a: Vec3) {
    a.x != 0.0 && a.y != 0.0 && a.z != 0.0
  }

  /** Component-wise reciprocal (1.f / scale). */
  function Recip(a: Vec3): Vec3
    requires NonZero(a)
  {
    Vec3(1.0 / a.x, 1.0 / a.y, 1.0 / a.z)
  }

  function Cross(a: Vec3, b: Vec3): Vec3 {
    Vec3(a.y * b.z - a.z * b.y, a.z * b.x - a.x * b.z, a.x * b.y - a.y * b.x)
  }

  function QAdd(a: Quat, b: Quat): Quat {
    Quat(a.w + b.w, a.x + b.x, a.y + b.y, a.z + b.z)
  }

  function QScale(k: real, q: Quat): Quat {
    Quat(k * q.w, k * q.x, k * q.y, k * q.z)
  }

  /** Hamilton product. */
  function QMul(a: Quat, b: Quat): Quat {
    Quat(a.w * b.w - a.x * b.x - a.y * b.y - a.z * b.z,
         a.w * b.x + a.x * b.w + a.y * b.z - a.z * b.y,
         a.w * b.y - a.x * b.z + a.y * b.w + a.z * b.x,
         a.w * b.z + a.x * b.y - a.y * b.x + a.z * b.w)
  }

  function Dot(q: Quat): real {
    q.w * q.w + q.x * q.x + q.y * q.y + q.z * q.z
  }

  /** glm::inverse on a quaternion: the conjugate over the squared norm. */
  function QInverse(q: Quat): Quat
    requires Dot(q) != 0.0
  {
    var d := Dot(q);
    Quat(q.w / d, -q.x / d, -q.y / d, -q.z / d)
  }

  /** quat * vec3. */
  function Rotate(q: Quat, v: Vec3): Vec3 {
    var u := Vec3(q.x, q.y, q.z);
    var uv := Cross(u, v);
    var uuv := Cross(u, uv);
    Add(v, Scale(2.0, Add(Scale(q.w, uv), uuv)))
  }

  datatype RPose = RPose(rotation: Quat, position: Vec3)

  datatype HPose = HPose(rotation: Quat, position: Vec3, scale: Vec3)

  /** RPose(ForceInit::Default). */
  function RPoseIdentity(): RPose {
    RPose(QUAT_IDENTITY, ZERO)
  }

  function RPoseFromPosition(p: Vec3): RPose {
    RPose(QUAT_IDENTITY, p)
  }

  function RPoseFromRotation(q: Quat): RPose {
    RPose(q, ZERO)
  }

  /** HPose(ForceInit::Default). */
  function HPoseIdentity(): HPose {
    HPose(QUAT_IDENTITY, ZERO, ONE)
  }

  function HPoseFromPosition(p: Vec3): HPose {
    HPose(QUAT_IDENTITY, p, ONE)
  }

  function HPoseFromRotation(q: Quat): HPose {
    HPose(q, ZERO, ONE)
  }

  function HPoseFromRotationPosition(q: Quat, p: Vec3): HPose {
    HPose(q, p, ONE)
  }

  function HPoseFromRPose(a: RPose): HPose {
    HPose(a.rotation, a.position, ONE)
  }

  /** RPose::operator*. */
  function RMul(a: RPose, b: RPose): RPose {
    RPose(QMul(a.rotation, b.rotation), Add(a.position, Rotate(a.rotation, b.position)))
  }

  /** HPose::operator*: scales multiply component-wise, so no skew arises. */
  function HMul(a: HPose, b: HPose): HPose {
    HPose(QMul(a.rotation, b.rotation),
          Add(a.position, Rotate(a.rotation, Mul(a.scale, b.position))),
          Mul(a.scale, b.scale))
  }

  predicate HInvertible(a: HPose) {
    Dot(a.rotation) != 0.0 && NonZero(a.scale)
  }

  /** HPose::Inverse. */
  function HInverse(a: HPose): HPose
    requires HInvertible(a)
  {
    var qi := QInverse(a.rotation);
    var si := Recip(a.scale);
    HPose(qi, Rotate(qi, Mul(Neg(a.position), si)), si)
  }

  /**
   * PoseMask: bit 0 ignores position, bit 1 rotation, bit 2 scale (the
   * bit-field order of the union); allIgnoreBits is the low three bits.
   */
  datatype PoseMask = PoseMask(flags: bv8) {
    predicate IgnorePosition() { flags & 1 != 0 }
    predicate IgnoreRotation() { flags & 2 != 0 }
    predicate IgnoreScale() { flags & 4 != 0 }
    function AllIgnoreBits(): bv8 { flags & 7 }
  }

  /** PoseMask(ForceInit::Default). */
  function MaskNone(): PoseMask {
    PoseMask(0)
  }

  /** PoseMask(bool, bool, bool); the bits above the three fields are taken as clear. */
  function MaskFromBools(p: bool, r: bool, s: bool): (m: PoseMask)
    ensures m.IgnorePosition() == p && m.IgnoreRotation() == r && m.IgnoreScale() == s
    ensures m.AllIgnoreBits() == 7 <==> p && r && s
  {
    PoseMask((if p then 1 else 0) | (if r then 2 else 0) | (if s then 4 else 0))
  }

  /** float(bit). */
  function Bit(b: bool): real {
    if b then 1.0 else 0.0
  }

  /** quat(r, 0, 0, 0) + (1 - r) * q: the identity rotation at r = 1, q itself at r = 0. */
  function BlendRotation(r: real, q: Quat): Quat {
    QAdd(Quat(r, 0.0, 0.0, 0.0), QScale(1.0 - r, q))
  }

  /** (1 - p) * v: zero at p = 1, v itself at p = 0. */
  function BlendPosition(p: real, v: Vec3): Vec3 {
    Scale(1.0 - p, v)
  }

  /** vec3(s, s, s) + (1 - s) * v: unit scale at s = 1, v itself at s = 0. */
  function BlendScale(s: real, v: Vec3): Vec3 {
    Add(Vec3(s, s, s), Scale(1.0 - s, v))
  }

  /** PoseMask::Apply(const RPose&), with the source's blend arithmetic. */
  function RApply(m: PoseMask, a: RPose): RPose {
    RPose(BlendRotation(Bit(m.IgnoreRotation()), a.rotation), BlendPosition(Bit(m.IgnorePosition()), a.position))
  }

  /** PoseMask::Apply(const HPose&), with the source's blend arithmetic. */
  function HApply(m: PoseMask, a: HPose): HPose {
    HPose(BlendRotation(Bit(m.IgnoreRotation()), a.rotation),
          BlendPosition(Bit(m.IgnorePosition()), a.position),
          BlendScale(Bit(m.IgnoreScale()), a.scale))
  }

  /** PoseMask::Concat. */
  function Concat(m: PoseMask, lhs: HPose, rhs: HPose): HPose {
    HMul(HApply(m, lhs), rhs)
  }

  /**
   * PoseMask::Rebase: the pose relative to the masked parent that puts the
   * child at `desired`; `desired` itself when all three channels are ignored.
   */
  function Rebase(m: PoseMask, lhs: HPose, desired: HPose): HPose
    requires m.AllIgnoreBits() == 7 || HInvertible(HApply(m, lhs))
  {
    if m.AllIgnoreBits() == 7 then desired else HMul(HInverse(HApply(m, lhs)), desired)
  }

  lemma RotateByIdentity(v: Vec3)
    ensures Rotate(QUAT_IDENTITY, v) == v
  {
    var u := Vec3(0.0, 0.0, 0.0);
    assert Cross(u, v) == ZERO;
    assert Cross(u, ZERO) == ZERO;
    assert Scale(1.0, ZERO) == ZERO;
    assert Add(ZERO, ZERO) == ZERO;
    assert Scale(2.0, ZERO) == ZERO;
    assert Add(v, ZERO) == v;
  }

  lemma RotateZero(q: Quat)
    ensures Rotate(q, ZERO) == ZERO
  {
    var u := Vec3(q.x, q.y, q.z);
    assert Cross(u, ZERO) == ZERO;
    assert Cross(u, ZERO) == ZERO;
    assert Scale(q.w, ZERO) == ZERO;
    assert Add(ZERO, ZERO) == ZERO;
    assert Scale(2.0, ZERO) == ZERO;
  }

  lemma VecUnits(a: Vec3)
    ensures Add(a, ZERO) == a && Add(ZERO, a) == a
    ensures Mul(ONE, a) == a && Mul(a, ONE) == a && Mul(a, ZERO) == ZERO
    ensures Scale(1.0, a) == a && Scale(0.0, a) == ZERO
  {
  }

  lemma QuatUnits(q: Quat)
    ensures QMul(QUAT_IDENTITY, q) == q && QMul(q, QUAT_IDENTITY) == q
    ensures QScale(1.0, q) == q
  {
  }

  /** The identity RPose is a left and right identity of composition. */
  lemma RPoseIdentityNeutral(a: RPose)
    ensures RMul(RPoseIdentity(), a) == a
    ensures RMul(a, RPoseIdentity()) == a
  {
    RotateByIdentity(a.position);
    RotateZero(a.rotation);
    VecUnits(a.position);
    QuatUnits(a.rotation);
  }

  /** The identity HPose is a left and right identity of composition. */
  lemma HPoseIdentityNeutral(a: HPose)
    ensures HMul(HPoseIdentity(), a) == a
    ensures HMul(a, HPoseIdentity()) == a
  {
    VecUnits(a.position);
    VecUnits(a.scale);
    QuatUnits(a.rotation);
    RotateByIdentity(a.position);
    RotateZero(a.rotation);
  }

  /** The single-field constructors are the identity with one field replaced. */
  lemma ConstructorsFromIdentity(p: Vec3, q: Quat)
    ensures RPoseFromPosition(p) == RPoseIdentity().(position := p)
    ensures RPoseFromRotation(q) == RPoseIdentity().(rotation := q)
    ensures HPoseFromPosition(p) == HPoseIdentity().(position := p)
    ensures HPoseFromRotation(q) == HPoseIdentity().(rotation := q)
    ensures HPoseFromRotationPosition(q, p) == HPoseFromRPose(RPose(q, p))
  {
  }

  /**
   * HPose(RPose) keeps rotation and position with unit scale, so hierarchy
   * composition restricted to such poses is rigid composition.
   */
  lemma HPoseFromRPoseComposes(a: RPose, b: RPose)
    ensures HMul(HPoseFromRPose(a), HPoseFromRPose(b)) == HPoseFromRPose(RMul(a, b))
  {
    VecUnits(b.position);
    VecUnits(ONE);
  }

  /** The three blends reach their ends exactly at bit values 1 and 0. */
  lemma BlendEnds(b: bool, q: Quat, v: Vec3)
    ensures BlendRotation(Bit(b), q) == if b then QUAT_IDENTITY else q
    ensures BlendPosition(Bit(b), v) == if b then ZERO else v
    ensures BlendScale(Bit(b), v) == if b then ONE else v
  {
    if b {
      assert QScale(0.0, q) == Quat(0.0, 0.0, 0.0, 0.0);
      assert Scale(0.0, v) == ZERO;
    } else {
      QuatUnits(q);
      VecUnits(v);
    }
  }

  /** Masking an HPose built from an RPose is masking the RPose. */
  lemma ApplyAgreesOnRPose(m: PoseMask, a: RPose)
    ensures HApply(m, HPoseFromRPose(a)) == HPoseFromRPose(RApply(m, a))
  {
    BlendEnds(m.IgnoreScale(), a.rotation, ONE);
  }

  /**
   * Apply acts per channel: an ignored channel becomes its identity (zero
   * position, identity rotation, unit scale), any other channel is kept.
   */
  lemma ApplyChannels(m: PoseMask, a: HPose)
    ensures HApply(m, a).position == if m.IgnorePosition() then ZERO else a.position
    ensures HApply(m, a).rotation == if m.IgnoreRotation() then QUAT_IDENTITY else a.rotation
    ensures HApply(m, a).scale == if m.IgnoreScale() then ONE else a.scale
  {
    BlendEnds(m.IgnorePosition(), a.rotation, a.position);
    BlendEnds(m.IgnoreRotation(), a.rotation, a.position);
    BlendEnds(m.IgnoreScale(), a.rotation, a.scale);
  }

  /** A mask with no ignore bits leaves every pose unchanged. */
  lemma ApplyNoMask(a: HPose, b: RPose)
    ensures HApply(MaskNone(), a) == a
    ensures RApply(MaskNone(), b) == b
  {
    ApplyChannels(MaskNone(), a);
    BlendEnds(false, b.rotation, b.position);
  }

  /** With no ignore bits, Concat is plain composition. */
  lemma ConcatNoMask(lhs: HPose, rhs: HPose)
    ensures Concat(MaskNone(), lhs, rhs) == HMul(lhs, rhs)
  {
    ApplyNoMask(lhs, RPose(lhs.rotation, lhs.position));
  }

  /** With all three channels ignored the parent drops out: Concat is the child. */
  lemma ConcatAllIgnored(m: PoseMask, lhs: HPose, rhs: HPose)
    requires m.AllIgnoreBits() == 7
    ensures Concat(m, lhs, rhs) == rhs
  {
    ApplyChannels(m, lhs);
    assert HApply(m, lhs) == HPoseIdentity();
    HPoseIdentityNeutral(rhs);
  }

  /** With all three channels ignored, Rebase returns the desired pose unchanged. */
  lemma RebaseAllIgnored(m: PoseMask, lhs: HPose, desired: HPose)
    requires m.AllIgnoreBits() == 7
    ensures Rebase(m, lhs, desired) == desired
  {
  }

  lemma CancelPosition(s: real, p: real, q: real)
    requires s != 0.0
    ensures p + s * (-p * (1.0 / s) + (1.0 / s) * q) == q
  {
    calc {
      s * (-p * (1.0 / s) + (1.0 / s) * q);
      -p * (s * (1.0 / s)) + q * (s * (1.0 / s));
      -p + q;
    }
  }

  lemma CancelScale(s: real, q: real)
    requires s != 0.0
    ensures s * ((1.0 / s) * q) == q
  {
    calc {
      s * ((1.0 / s) * q);
      (s * (1.0 / s)) * q;
      q;
    }
  }

  /** The inverse of an unrotated pose: identity rotation, reciprocal scale, position -p / s. */
  lemma InverseUnrotated(a: HPose)
    requires a.rotation == QUAT_IDENTITY && NonZero(a.scale)
    ensures HInvertible(a)
    ensures HInverse(a) == HPose(QUAT_IDENTITY, Mul(Neg(a.position), Recip(a.scale)), Recip(a.scale))
  {
    assert QInverse(QUAT_IDENTITY) == QUAT_IDENTITY;
    RotateByIdentity(Mul(Neg(a.position), Recip(a.scale)));
  }

  /** Composition with an unrotated parent: positions and scales combine component-wise. */
  lemma HMulUnrotated(a: HPose, b: HPose)
    requires a.rotation == QUAT_IDENTITY
    ensures HMul(a, b) == HPose(b.rotation, Add(a.position, Mul(a.scale, b.position)), Mul(a.scale, b.scale))
  {
    QuatUnits(b.rotation);
    RotateByIdentity(Mul(a.scale, b.position));
  }

  lemma CancelPositions(s: Vec3, p: Vec3, q: Vec3)
    requires NonZero(s)
    ensures Add(p, Mul(s, Add(Mul(Neg(p), Recip(s)), Mul(Recip(s), q)))) == q
  {
    CancelPosition(s.x, p.x, q.x);
    CancelPosition(s.y, p.y, q.y);
    CancelPosition(s.z, p.z, q.z);
  }

  lemma CancelScales(s: Vec3, q: Vec3)
    requires NonZero(s)
    ensures Mul(s, Mul(Recip(s), q)) == q
  {
    CancelScale(s.x, q.x);
    CancelScale(s.y, q.y);
    CancelScale(s.z, q.z);
  }

  /** Composing an unrotated invertible pose with its inverse's composition gives the pose back. */
  lemma UnrotatedInverseCancels(a: HPose, d: HPose)
    requires a.rotation == QUAT_IDENTITY && NonZero(a.scale)
    ensures HInvertible(a) && HMul(a, HMul(HInverse(a), d)) == d
  {
    InverseUnrotated(a);
    var ai := HPose(QUAT_IDENTITY, Mul(Neg(a.position), Recip(a.scale)), Recip(a.scale));
    HMulUnrotated(ai, d);
    var rel := HPose(d.rotation, Add(ai.position, Mul(ai.scale, d.position)), Mul(ai.scale, d.scale));
    HMulUnrotated(a, rel);
    CancelPositions(a.scale, a.position, d.position);
    CancelScales(a.scale, d.scale);
  }

  /**
   * Rebase undoes Concat whenever the masked parent carries no rotation
   * (its rotation is ignored or is the identity) and a scale with no zero
   * component: concatenating the rebased pose gives back the desired one.
   */
  lemma RebaseThenConcat(m: PoseMask, lhs: HPose, desired: HPose)
    requires HApply(m, lhs).rotation == QUAT_IDENTITY && NonZero(HApply(m, lhs).scale)
    ensures Concat(m, lhs, Rebase(m, lhs, desired)) == desired
  {
    if m.AllIgnoreBits() == 7 {
      ConcatAllIgnored(m, lhs, desired);
    } else {
      UnrotatedInverseCancels(HApply(m, lhs), desired);
    }
  }

  /** A half turn about (0.6, 0.8, 0) sends the x axis to (-0.28, 0.96, 0). */
  lemma HalfTurnExample(k: real)
    ensures Rotate(Quat(0.0, 0.6, 0.8, 0.0), Vec3(k, 0.0, 0.0)) == Vec3(-0.28 * k, 0.96 * k, 0.0)
  {
    var u := Vec3(0.6, 0.8, 0.0);
    var v := Vec3(k, 0.0, 0.0);
    assert Cross(u, v) == Vec3(0.0, 0.0, -0.8 * k);
    assert Cross(u, Vec3(0.0, 0.0, -0.8 * k)) == Vec3(-0.64 * k, 0.48 * k, 0.0);
  }

  /** Stretch by (k, 1, 1), then half turn: the offset (1, 0, 0) is stretched before it is turned. */
  lemma StretchTurnThenOffset(k: real, p: HPose)
    requires p.rotation == Quat(0.0, 0.6, 0.8, 0.0)
    requires p.position == Vec3(0.0, 0.0, 0.0) && p.scale == Vec3(k, 1.0, 1.0)
    ensures HMul(p, HPose(Quat(1.0, 0.0, 0.0, 0.0), Vec3(1.0, 0.0, 0.0), Vec3(1.0, 1.0, 1.0))).position
         == Vec3(-0.28 * k, 0.96 * k, 0.0)
  {
    HalfTurnExample(k);
  }

  /** Stretch by (k, 1, 1) composed with the half turn, then the offset (1, 0, 0). */
  lemma StretchFirst(k: real, a: HPose, b: HPose, c: HPose)
    requires a == HPose(Quat(1.0, 0.0, 0.0, 0.0), Vec3(0.0, 0.0, 0.0), Vec3(k, 1.0, 1.0))
    requires b == HPose(Quat(0.0, 0.6, 0.8, 0.0), Vec3(0.0, 0.0, 0.0), Vec3(1.0, 1.0, 1.0))
    requires c == HPose(Quat(1.0, 0.0, 0.0, 0.0), Vec3(1.0, 0.0, 0.0), Vec3(1.0, 1.0, 1.0))
    ensures HMul(HMul(a, b), c).position.y == 0.96 * k
  {
    var ab := HMul(a, b);
    HMulUnrotated(a, b);
    assert ab.rotation == Quat(0.0, 0.6, 0.8, 0.0);
    assert ab.position == Vec3(0.0, 0.0, 0.0);
    assert ab.scale == Vec3(k, 1.0, 1.0);
    StretchTurnThenOffset(k, ab);
  }

  /** The half turn composed with the offset (1, 0, 0), then stretched by (k, 1, 1). */
  lemma OffsetFirst(k: real, a: HPose, b: HPose, c: HPose)
    requires a == HPose(Quat(1.0, 0.0, 0.0, 0.0), Vec3(0.0, 0.0, 0.0), Vec3(k, 1.0, 1.0))
    requires b == HPose(Quat(0.0, 0.6, 0.8, 0.0), Vec3(0.0, 0.0, 0.0), Vec3(1.0, 1.0, 1.0))
    requires c == HPose(Quat(1.0, 0.0, 0.0, 0.0), Vec3(1.0, 0.0, 0.0), Vec3(1.0, 1.0, 1.0))
    ensures HMul(a, HMul(b, c)).position.y == 0.96
  {
    StretchTurnThenOffset(1.0, b);
    HMulUnrotated(a, HMul(b, c));
  }

  /**
   * HPose composition is not associative: with a non-uniform scale, scaling
   * before or after a rotation differs. A half turn about (0.6, 0.8, 0)
   * under an x-stretch of any factor other than 1 shows it.
   */
  lemma HMulNotAssociative(k: real, a: HPose, b: HPose, c: HPose)
    requires k != 1.0
    requires a == HPose(Quat(1.0, 0.0, 0.0, 0.0), Vec3(0.0, 0.0, 0.0), Vec3(k, 1.0, 1.0))
    requires b == HPose(Quat(0.0, 0.6, 0.8, 0.0), Vec3(0.0, 0.0, 0.0), Vec3(1.0, 1.0, 1.0))
    requires c == HPose(Quat(1.0, 0.0, 0.0, 0.0), Vec3(1.0, 0.0, 0.0), Vec3(1.0, 1.0, 1.0))
    ensures HMul(HMul(a, b), c) != HMul(a, HMul(b, c))
  {
    StretchFirst(k, a, b, c);
    OffsetFirst(k, a, b, c);
  }
}

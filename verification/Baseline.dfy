/** What the redundancy test calls the distance of two keyframes, and when it is the distance of their cameras. */
module Baseline {
  import opened Quaternions
  import opened RigidMotion
  import opened BudgetPolicy

  /** The rotation from the older camera to the newer one. */
  function Turn(older: SE3, newer: SE3): Rotor {
    RotorInverse(older.q);
    MulRotor(newer.q, Conj(older.q));
    Mul(newer.q, Conj(older.q))
  }

  /** The poses differ by less than both limits; the angle is compared through the cosine of its half. */
  predicate Close(older: SE3, newer: SE3, c: Config) {
    var w := Turn(older, newer).w;
    SquaredDistance(newer.t, older.t) < c.maxSquaredTranslation && (if w < 0.0 then -w else w) > c.minHalfCosine
  }

  lemma CloseToItself(a: SE3, c: Config)
    ensures Close(a, a, c) <==> 0.0 < c.maxSquaredTranslation && c.minHalfCosine < 1.0
  {
    hide Mul, SquaredDistance, Conj, Dot, Times;
    RotorInverse(a.q);
    NoDistance(a.t);
    OneIsReal();
  }

  lemma OneIsReal()
    ensures ONE.w == 1.0
  {
  }

  lemma NoDistance(v: Vec3)
    ensures SquaredDistance(v, v) == 0.0
  {
    assert Plus(v, Minus(v)) == ORIGIN;
  }

  /** It does not matter which of the two is the older one. */
  lemma {:induction false} CloseIsMutual(a: SE3, b: SE3, c: Config)
    ensures Close(a, b, c) <==> Close(b, a, c)
  {
    assert SquaredDistance(a.t, b.t) == SquaredDistance(b.t, a.t);
    assert Turn(a, b).w == Turn(b, a).w;
  }

  /** Nor with which sign a rotation is stored. */
  lemma {:induction false} CloseEitherSign(a: SE3, b: SE3, c: Config)
    ensures Dot(Neg(b.q), Neg(b.q)) == 1.0
    ensures Close(a, SE3(Neg(b.q), b.t), c) <==> Close(a, b, c)
  {
    hide Mul, SquaredDistance, Conj, Neg, Rotate, Dot;
    RotateNeg(b.q, ORIGIN);
    OtherSign(b.q, Conj(a.q));
  }

  lemma OtherSign(a: Quat, b: Quat)
    ensures Mul(Neg(a), b).w == -Mul(a, b).w
  {
  }

  // ---- where the cameras stand ------------------------------------------------------

  /** The camera's place, for a pose that takes submap coordinates to the camera's. */
  function Center(pose: SE3): Vec3 {
    Act(Inverse(pose), ORIGIN)
  }

  lemma RotateOrigin(q: Rotor)
    ensures Rotate(q, ORIGIN) == ORIGIN
  {
    hide Rotate;
    RotateMinus(q, ORIGIN);
    assert Minus(ORIGIN) == ORIGIN;
  }

  /** The older camera as the newer one sees it. */
  lemma SeenFromNewer(older: SE3, newer: SE3)
    ensures Act(newer, Center(older)) == Plus(newer.t, Minus(Rotate(Turn(older, newer), older.t)))
  {
    hide Rotate, Mul;
    RotorInverse(older.q);
    RotateOrigin(Conj(older.q));
    RotateMinus(newer.q, Rotate(Conj(older.q), older.t));
    RotateCompose(newer.q, Conj(older.q), older.t);
  }

  /** The cameras are as far apart as the newer translation and the turned older one. */
  lemma {:induction false} CentersApart(older: SE3, newer: SE3)
    ensures SquaredDistance(Center(newer), Center(older))
         == SquaredDistance(newer.t, Rotate(Turn(older, newer), older.t))
  {
    hide Rotate, Turn, SquaredNorm, Center, Act, Inverse;
    ActKeepsDistance(newer, Center(newer), Center(older));
    AtOrigin(newer);
    SeenFromNewer(older, newer);
    FromOrigin(Plus(newer.t, Minus(Rotate(Turn(older, newer), older.t))));
  }

  lemma AtOrigin(pose: SE3)
    ensures Act(pose, Center(pose)) == ORIGIN
  {
    hide Act, Inverse;
    ActInverse(pose, ORIGIN);
  }

  lemma FromOrigin(v: Vec3)
    ensures SquaredDistance(ORIGIN, v) == SquaredNorm(v)
  {
  }

  function Inner(a: Vec3, b: Vec3): real {
    a.x * b.x + a.y * b.y + a.z * b.z
  }

  lemma SquareOfDifference(a: Vec3, b: Vec3)
    ensures SquaredDistance(a, b) == SquaredNorm(a) + SquaredNorm(b) - 2.0 * Inner(a, b)
  {
  }

  /** So the translations measure the cameras' distance exactly if the turn leaves their inner product alone. */
  lemma {:induction false} MeasuredExactly(older: SE3, newer: SE3)
    ensures SquaredDistance(newer.t, older.t) == SquaredDistance(Center(newer), Center(older))
       <==> Inner(newer.t, Rotate(Turn(older, newer), older.t)) == Inner(newer.t, older.t)
  {
    hide Rotate, Turn, Inner, SquaredNorm, SquaredDistance, Center;
    var turned := Rotate(Turn(older, newer), older.t);
    CentersApart(older, newer);
    RotateKeepsNorm(Turn(older, newer), older.t);
    SquareOfDifference(newer.t, turned);
    SquareOfDifference(newer.t, older.t);
  }

  /** In particular if both look the same way. */
  lemma {:induction false} SameViewMeasures(older: SE3, newer: SE3)
    requires newer.q == older.q
    ensures SquaredDistance(newer.t, older.t) == SquaredDistance(Center(newer), Center(older))
  {
    hide Rotate, Mul, SquaredDistance, Center;
    RotorInverse(older.q);
    RotateOne(older.t);
    CentersApart(older, newer);
  }

  function Yaw(x: real, y: real): Rotor
    requires x * x + y * y == 1.0
  {
    UnitTurn(x, y);
    Quat(x, 0.0, 0.0, y)
  }

  lemma UnitTurn(x: real, y: real)
    requires x * x + y * y == 1.0
    ensures Dot(Quat(x, 0.0, 0.0, y), Quat(x, 0.0, 0.0, y)) == 1.0
  {
  }

  /**
   * Otherwise not: two keyframes with one translation, turned within the limit, are close at any distance d from the
   * submap's origin, and their cameras 2 y d apart.
   */
  lemma {:induction false} CloseCanBeFar(c: Config, x: real, y: real, d: real)
    requires x * x + y * y == 1.0 && 0.0 <= x && c.minHalfCosine < x && 0.0 < c.maxSquaredTranslation
    ensures var older, newer := SE3(UNIT, Vec3(d, 0.0, 0.0)), SE3(Yaw(x, y), Vec3(d, 0.0, 0.0));
            Close(older, newer, c) && SquaredDistance(Center(newer), Center(older)) == 4.0 * (y * d) * (y * d)
  {
    hide Mul, Rotate, SquaredDistance, Center, Dot, Conj, Times;
    var v := Vec3(d, 0.0, 0.0);
    UnitIsOne();
    ConjOne();
    MulOne(Yaw(x, y));
    NoDistance(v);
    CentersApart(SE3(UNIT, v), SE3(Yaw(x, y), v));
    TurnedAside(x, y, d);
  }

  lemma TurnedAside(x: real, y: real, d: real)
    requires x * x + y * y == 1.0
    ensures SquaredDistance(Vec3(d, 0.0, 0.0), Rotate(Yaw(x, y), Vec3(d, 0.0, 0.0))) == 4.0 * (y * d) * (y * d)
  {
    var turned := Vec3((x * x - y * y) * d, 2.0 * (x * y) * d, 0.0);
    assert Rotate(Yaw(x, y), Vec3(d, 0.0, 0.0)) == turned;
  }
}

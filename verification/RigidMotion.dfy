/** SE3 poses over exact reals: composition, inverse, point action, and their group laws. */
module RigidMotion {
  import opened Quaternions

  datatype Vec3 = Vec3(x: real, y: real, z: real)

  const ORIGIN := Vec3(0 as real, 0 as real, 0 as real)

  function Plus(a: Vec3, b: Vec3): Vec3 {
    Vec3(a.x + b.x, a.y + b.y, a.z + b.z)
  }

  function Minus(a: Vec3): Vec3 {
    Vec3(-a.x, -a.y, -a.z)
  }

  /** Linear interpolation of translations, as both correction blends use it. */
  function Blend(a: Vec3, b: Vec3, alpha: real): Vec3 {
    Vec3((1.0 - alpha) * a.x + alpha * b.x,
         (1.0 - alpha) * a.y + alpha * b.y,
         (1.0 - alpha) * a.z + alpha * b.z)
  }

  function Pure(v: Vec3): Quat {
    Quat(0.0, v.x, v.y, v.z)
  }

  function Imaginary(q: Quat): Vec3 {
    Vec3(q.x, q.y, q.z)
  }

  /** Rotation of a vector as the sandwich q v q*. */
  function Rotate(q: Rotor, v: Vec3): Vec3 {
    Imaginary(Mul(Mul(q, Pure(v)), Conj(q)))
  }

  datatype SE3 = SE3(q: Rotor, t: Vec3)

  const UNIT: Rotor := ONE

  const IDENTITY := SE3(UNIT, ORIGIN)

  function Compose(a: SE3, b: SE3): SE3 {
    MulRotor(a.q, b.q);
    SE3(Mul(a.q, b.q), Plus(Rotate(a.q, b.t), a.t))
  }

  function Inverse(a: SE3): SE3 {
    RotorInverse(a.q);
    SE3(Conj(a.q), Minus(Rotate(Conj(a.q), a.t)))
  }

  function Act(a: SE3, p: Vec3): Vec3 {
    Plus(Rotate(a.q, p), a.t)
  }

  // ---- rotations -------------------------------------------------------

  /** The sandwich of a pure quaternion is pure, so Rotate loses nothing. */
  lemma SandwichIsPure(q: Rotor, v: Vec3)
    ensures Pure(Rotate(q, v)) == Mul(Mul(q, Pure(v)), Conj(q))
  {
    hide Mul, Times;
    var r := Mul(Mul(q, Pure(v)), Conj(q));
    calc {
      Conj(r);
      { ConjMul(Mul(q, Pure(v)), Conj(q)); }
      Mul(Conj(Conj(q)), Conj(Mul(q, Pure(v))));
      { ConjMul(q, Pure(v)); MulConj(q); assert Conj(Pure(v)) == Neg(Pure(v)); }
      Mul(q, Mul(Neg(Pure(v)), Conj(q)));
      { MulNeg(Pure(v), Conj(q)); MulNeg(q, Mul(Pure(v), Conj(q))); }
      Neg(Mul(q, Mul(Pure(v), Conj(q))));
      { MulAssoc(q, Pure(v), Conj(q)); }
      Neg(r);
    }
  }

  lemma RotateCompose(p: Rotor, q: Rotor, v: Vec3)
    ensures Dot(Mul(p, q), Mul(p, q)) == 1.0
    ensures Rotate(Mul(p, q), v) == Rotate(p, Rotate(q, v))
  {
    hide Mul, Times, Dot, Conj;
    MulRotor(p, q);
    var inner := Mul(Mul(q, Pure(v)), Conj(q));
    SandwichIsPure(q, v);
    calc {
      Mul(Mul(Mul(p, q), Pure(v)), Conj(Mul(p, q)));
      { ConjMul(p, q); MulAssoc(p, q, Pure(v)); }
      Mul(Mul(p, Mul(q, Pure(v))), Mul(Conj(q), Conj(p)));
      { MulAssoc(Mul(p, Mul(q, Pure(v))), Conj(q), Conj(p)); }
      Mul(Mul(Mul(p, Mul(q, Pure(v))), Conj(q)), Conj(p));
      { MulAssoc(p, Mul(q, Pure(v)), Conj(q)); }
      Mul(Mul(p, inner), Conj(p));
    }
  }

  lemma RotateOne(v: Vec3)
    ensures Rotate(UNIT, v) == v
  {
    hide *;
    MulOne(Pure(v));
    ConjOne();
    UnitIsOne();
    RotateDefinition(UNIT, v);
  }

  lemma UnitIsOne()
    ensures UNIT == ONE
  {
  }

  lemma ConjOne()
    ensures Conj(ONE) == ONE
  {
  }

  lemma RotateDefinition(q: Rotor, v: Vec3)
    ensures Rotate(q, v) == Imaginary(Mul(Mul(q, Pure(v)), Conj(q)))
    ensures Imaginary(Pure(v)) == v
  {
    hide Mul;
  }

  lemma RotatePlus(q: Rotor, u: Vec3, v: Vec3)
    ensures Rotate(q, Plus(u, v)) == Plus(Rotate(q, u), Rotate(q, v))
  {
    hide Mul, Times;
    assert Pure(Plus(u, v)) == Add(Pure(u), Pure(v));
    MulAdd(q, Pure(u), Pure(v));
    AddMul(Mul(q, Pure(u)), Mul(q, Pure(v)), Conj(q));
  }

  /** Distribution on the other side, by conjugating. */
  lemma AddMul(a: Quat, b: Quat, c: Quat)
    ensures Mul(Add(a, b), c) == Add(Mul(a, c), Mul(b, c))
  {
    hide Mul, Times;
    MulAdd(Conj(c), Conj(a), Conj(b));
    assert Conj(Add(a, b)) == Add(Conj(a), Conj(b));
    ConjMul(Add(a, b), c);
    ConjMul(a, c);
    ConjMul(b, c);
  }

  lemma RotateMinus(q: Rotor, v: Vec3)
    ensures Rotate(q, Minus(v)) == Minus(Rotate(q, v))
  {
    hide Mul, Times;
    assert Pure(Minus(v)) == Neg(Pure(v));
    MulNeg(q, Pure(v));
    MulNeg(Mul(q, Pure(v)), Conj(q));
  }

  lemma RotateNeg(q: Rotor, v: Vec3)
    ensures Dot(Neg(q), Neg(q)) == 1.0
    ensures Rotate(Neg(q), v) == Rotate(q, v)
  {
    hide Mul, Times, Dot;
    MulConj(q);
    assert Conj(Neg(q)) == Neg(Conj(q));
    MulNeg(q, Pure(v));
    MulNeg(Mul(q, Pure(v)), Neg(Conj(q)));
    MulNeg(Mul(q, Pure(v)), Conj(q));
    assert Neg(Neg(Mul(Mul(q, Pure(v)), Conj(q)))) == Mul(Mul(q, Pure(v)), Conj(q));
  }

  lemma RotateBack(q: Rotor, v: Vec3)
    ensures Dot(Conj(q), Conj(q)) == 1.0
    ensures Rotate(Conj(q), Rotate(q, v)) == v == Rotate(q, Rotate(Conj(q), v))
  {
    hide Mul, Times, Dot, Rotate, Conj;
    RotorInverse(q);
    RotateCompose(Conj(q), q, v);
    RotateCompose(q, Conj(q), v);
    RotateOne(v);
  }

  // ---- the group -------------------------------------------------------

  lemma ComposeAssoc(a: SE3, b: SE3, c: SE3)
    ensures Compose(Compose(a, b), c) == Compose(a, Compose(b, c))
  {
    hide Mul, Times, Dot, Rotate;
    MulRotor(a.q, b.q);
    MulAssoc(a.q, b.q, c.q);
    RotateCompose(a.q, b.q, c.t);
    RotatePlus(a.q, Rotate(b.q, c.t), b.t);
  }

  lemma ComposeIdentity(a: SE3)
    ensures Compose(a, IDENTITY) == a == Compose(IDENTITY, a)
  {
    hide Mul, Times, Dot, Rotate;
    MulOne(a.q);
    RotateOne(a.t);
    RotatePlus(a.q, ORIGIN, ORIGIN);
    assert Plus(ORIGIN, ORIGIN) == ORIGIN;
  }

  lemma ComposeInverse(a: SE3)
    ensures Compose(a, Inverse(a)) == IDENTITY == Compose(Inverse(a), a)
  {
    hide Mul, Times, Dot, Rotate;
    RotorInverse(a.q);
    RotateBack(a.q, a.t);
    RotateMinus(a.q, Rotate(Conj(a.q), a.t));
  }

  lemma ActCompose(a: SE3, b: SE3, p: Vec3)
    ensures Act(Compose(a, b), p) == Act(a, Act(b, p))
  {
    hide Mul, Times, Dot, Rotate;
    RotateCompose(a.q, b.q, p);
    RotatePlus(a.q, Rotate(b.q, p), b.t);
  }

  lemma ActIdentity(p: Vec3)
    ensures Act(IDENTITY, p) == p
  {
    hide Mul, Times, Dot, Rotate;
    RotateOne(p);
  }

  // ---- consequences used by every rebase -------------------------------

  lemma CancelRight(a: SE3, b: SE3)
    ensures Compose(Compose(a, Inverse(b)), b) == a
    ensures Compose(Compose(a, b), Inverse(b)) == a
  {
    hide *;
    ComposeAssoc(a, Inverse(b), b);
    ComposeAssoc(a, b, Inverse(b));
    ComposeInverse(b);
    ComposeIdentity(a);
  }

  lemma CancelLeft(a: SE3, b: SE3)
    ensures Compose(Inverse(a), Compose(a, b)) == b
    ensures Compose(a, Compose(Inverse(a), b)) == b
  {
    hide *;
    ComposeAssoc(a, Inverse(a), b);
    ComposeAssoc(Inverse(a), a, b);
    ComposeInverse(a);
    ComposeIdentity(b);
  }

  lemma InverseUnique(a: SE3, b: SE3)
    requires Compose(Compose(a, b), a) == a
    ensures b == Inverse(a)
  {
    hide *;
    CancelRight(Compose(a, b), a);
    ComposeInverse(a);
    CancelLeft(a, b);
    ComposeIdentity(Inverse(a));
  }

  lemma InverseInverse(a: SE3)
    ensures Inverse(Inverse(a)) == a
  {
    hide *;
    ComposeInverse(a);
    ComposeIdentity(Inverse(a));
    InverseUnique(Inverse(a), a);
  }

  lemma InverseCompose(a: SE3, b: SE3)
    ensures Inverse(Compose(a, b)) == Compose(Inverse(b), Inverse(a))
  {
    hide *;
    ComposeAssoc(Compose(a, b), Inverse(b), Inverse(a));
    CancelRight(a, b);
    ComposeInverse(a);
    ComposeIdentity(Compose(a, b));
    InverseUnique(Compose(a, b), Compose(Inverse(b), Inverse(a)));
  }

  /** Relative poses chain: (a b^-1)(b c^-1) = a c^-1. */
  lemma RelativeChain(a: SE3, b: SE3, c: SE3)
    ensures Compose(Compose(a, Inverse(b)), Compose(b, Inverse(c))) == Compose(a, Inverse(c))
  {
    hide *;
    ComposeAssoc(Compose(a, Inverse(b)), b, Inverse(c));
    CancelRight(a, b);
  }

  lemma ActInverse(a: SE3, p: Vec3)
    ensures Act(a, Act(Inverse(a), p)) == p == Act(Inverse(a), Act(a, p))
  {
    hide *;
    ActCompose(a, Inverse(a), p);
    ActCompose(Inverse(a), a, p);
    ComposeInverse(a);
    ActIdentity(p);
  }

  // ---- equality up to the sign of the quaternion -----------------------

  /** q and -q are the same rotation; two such poses act on every point alike. */
  predicate Same(a: SE3, b: SE3) {
    a.t == b.t && (a.q == b.q || a.q == Neg(b.q))
  }

  lemma SameActs(a: SE3, b: SE3, p: Vec3)
    requires Same(a, b)
    ensures Act(a, p) == Act(b, p)
  {
    hide Rotate, Dot, Times;
    RotateNeg(b.q, p);
  }

  lemma SameCompose(a: SE3, b: SE3, c: SE3)
    requires Same(a, b)
    ensures Same(Compose(a, c), Compose(b, c)) && Same(Compose(c, a), Compose(c, b))
  {
    hide Mul, Times, Dot, Rotate;
    RotateNeg(b.q, c.t);
    MulNeg(b.q, c.q);
    MulNeg(c.q, b.q);
  }

  lemma SameInverse(a: SE3, b: SE3)
    requires Same(a, b)
    ensures Same(Inverse(a), Inverse(b))
  {
    hide Mul, Times, Dot, Rotate;
    RotorInverse(b.q);
    assert Conj(Neg(b.q)) == Neg(Conj(b.q));
    RotateNeg(Conj(b.q), b.t);
  }

  lemma SameTransitive(a: SE3, b: SE3, c: SE3)
    requires Same(a, b) && Same(b, c)
    ensures Same(a, c) && Same(c, a)
  {
    hide Dot, Times;
    MulConj(c.q);
  }

  lemma SameRefl(a: SE3)
    ensures Same(a, a)
  {
    hide IDENTITY;
  }

  lemma Symmetry(a: SE3, b: SE3)
    ensures Same(a, b) <==> Same(b, a)
  {
    hide Same;
    SameRefl(a);
    SameRefl(b);
    if Same(a, b) {
      SameTransitive(a, b, b);
    } else if Same(b, a) {
      SameTransitive(b, a, a);
    }
  }

  lemma SameThrough(a: SE3, b: SE3, c: SE3)
    requires Same(a, b)
    ensures Same(a, c) <==> Same(b, c)
  {
    hide Same;
    Symmetry(a, b);
    if Same(a, c) {
      SameTransitive(b, a, c);
    } else if Same(b, c) {
      SameTransitive(a, b, c);
    }
  }

  /** A common left factor does not matter. */
  lemma SameLeft(a: SE3, x: SE3, y: SE3)
    ensures Same(Compose(a, x), Compose(a, y)) <==> Same(x, y)
  {
    hide *;
    CancelLeft(a, x);
    CancelLeft(a, y);
    if Same(x, y) {
      SameCompose(x, y, a);
    } else if Same(Compose(a, x), Compose(a, y)) {
      SameCompose(Compose(a, x), Compose(a, y), Inverse(a));
    }
  }

  /** Nor does a common right factor. */
  lemma SameRight(x: SE3, y: SE3, b: SE3)
    ensures Same(Compose(x, b), Compose(y, b)) <==> Same(x, y)
  {
    hide *;
    CancelRight(x, b);
    CancelRight(y, b);
    if Same(x, y) {
      SameCompose(x, y, b);
    } else if Same(Compose(x, b), Compose(y, b)) {
      SameCompose(Compose(x, b), Compose(y, b), Inverse(b));
    }
  }

  // ---- distances -------------------------------------------------------------

  function SquaredNorm(v: Vec3): real {
    Dot(Pure(v), Pure(v))
  }

  function SquaredDistance(a: Vec3, b: Vec3): real {
    SquaredNorm(Plus(a, Minus(b)))
  }

  lemma PureSquare(v: Vec3)
    ensures Mul(Pure(v), Pure(v)) == Quat(-SquaredNorm(v), 0.0, 0.0, 0.0)
  {
  }

  lemma ScalarCommutes(q: Quat, s: real)
    ensures Mul(q, Quat(s, 0.0, 0.0, 0.0)) == Mul(Quat(s, 0.0, 0.0, 0.0), q)
  {
  }

  /** The square of q v q* is q (v v) q*, and v v is a real number. */
  lemma RotateKeepsNorm(q: Rotor, v: Vec3)
    ensures SquaredNorm(Rotate(q, v)) == SquaredNorm(v)
  {
    hide *;
    var p, r := Pure(v), Pure(Rotate(q, v));
    var s := Quat(-SquaredNorm(v), 0.0, 0.0, 0.0);
    SandwichIsPure(q, v);
    RotorInverse(q);
    PureSquare(v);
    PureSquare(Rotate(q, v));
    calc {
      Mul(r, r);
      Mul(Mul(Mul(q, p), Conj(q)), r);
      { MulAssoc(Mul(q, p), Conj(q), r); }
      Mul(Mul(q, p), Mul(Conj(q), r));
      { MulAssoc(Conj(q), Mul(q, p), Conj(q)); MulAssoc(Conj(q), q, p); MulOne(p); }
      Mul(Mul(q, p), Mul(p, Conj(q)));
      { MulAssoc(Mul(q, p), p, Conj(q)); MulAssoc(q, p, p); }
      Mul(Mul(q, s), Conj(q));
      { ScalarCommutes(q, -SquaredNorm(v)); MulAssoc(s, q, Conj(q)); MulOne(s); }
      s;
    }
  }

  lemma DifferenceTurns(T: SE3, a: Vec3, b: Vec3)
    ensures Plus(Act(T, a), Minus(Act(T, b))) == Rotate(T.q, Plus(a, Minus(b)))
  {
    hide Rotate;
    RotatePlus(T.q, a, Minus(b));
    RotateMinus(T.q, b);
  }

  /** A rigid motion keeps distances. */
  lemma ActKeepsDistance(T: SE3, a: Vec3, b: Vec3)
    ensures SquaredDistance(Act(T, a), Act(T, b)) == SquaredDistance(a, b)
  {
    hide Act, Rotate, SquaredNorm;
    DifferenceTurns(T, a, b);
    RotateKeepsNorm(T.q, Plus(a, Minus(b)));
  }
}

/** Quaternion algebra over exact reals: the associativity that every pose law rests on. */
module Quaternions {

  datatype Quat = Quat(w: real, x: real, y: real, z: real)

  // Converted integers: the solver would keep evaluating products of real literals.
  const ONE := Quat(1 as real, 0 as real, 0 as real, 0 as real)

  /** Scalar product under a name, so that proofs about quaternions can hide it. */
  function Times(a: real, b: real): real {
    a * b
  }

  function Mul(a: Quat, b: Quat): Quat {
    Quat(Times(a.w, b.w) - Times(a.x, b.x) - Times(a.y, b.y) - Times(a.z, b.z),
         Times(a.w, b.x) + Times(a.x, b.w) + Times(a.y, b.z) - Times(a.z, b.y),
         Times(a.w, b.y) - Times(a.x, b.z) + Times(a.y, b.w) + Times(a.z, b.x),
         Times(a.w, b.z) + Times(a.x, b.y) - Times(a.y, b.x) + Times(a.z, b.w))
  }

  function Conj(a: Quat): Quat {
    Quat(a.w, -a.x, -a.y, -a.z)
  }

  function Neg(a: Quat): Quat {
    Quat(-a.w, -a.x, -a.y, -a.z)
  }

  function Add(a: Quat, b: Quat): Quat {
    Quat(a.w + b.w, a.x + b.x, a.y + b.y, a.z + b.z)
  }

  function Dot(a: Quat, b: Quat): real {
    Times(a.w, b.w) + Times(a.x, b.x) + Times(a.y, b.y) + Times(a.z, b.z)
  }

  /** Unit quaternions are the rotations; the code normalises wherever it builds one. */
  type Rotor = q: Quat | Dot(q, q) == 1 as real witness ONE

  // The associativity identities are stated on scalars, where they are plain
  // polynomial arithmetic; m stands for a * b and n for b * c.

  lemma AssocScalarW(
    a0: real, a1: real, a2: real, a3: real,
    b0: real, b1: real, b2: real, b3: real,
    c0: real, c1: real, c2: real, c3: real,
    m0: real, m1: real, m2: real, m3: real,
    n0: real, n1: real, n2: real, n3: real)
    requires m0 == a0 * b0 - a1 * b1 - a2 * b2 - a3 * b3
    requires m1 == a0 * b1 + a1 * b0 + a2 * b3 - a3 * b2
    requires m2 == a0 * b2 - a1 * b3 + a2 * b0 + a3 * b1
    requires m3 == a0 * b3 + a1 * b2 - a2 * b1 + a3 * b0
    requires n0 == b0 * c0 - b1 * c1 - b2 * c2 - b3 * c3
    requires n1 == b0 * c1 + b1 * c0 + b2 * c3 - b3 * c2
    requires n2 == b0 * c2 - b1 * c3 + b2 * c0 + b3 * c1
    requires n3 == b0 * c3 + b1 * c2 - b2 * c1 + b3 * c0
    ensures m0 * c0 - m1 * c1 - m2 * c2 - m3 * c3
         == a0 * n0 - a1 * n1 - a2 * n2 - a3 * n3
  {
    calc {
      m0 * c0 - m1 * c1 - m2 * c2 - m3 * c3;
      (a0 * b0 - a1 * b1 - a2 * b2 - a3 * b3) * c0
      - (a0 * b1 + a1 * b0 + a2 * b3 - a3 * b2) * c1
      - (a0 * b2 - a1 * b3 + a2 * b0 + a3 * b1) * c2
      - (a0 * b3 + a1 * b2 - a2 * b1 + a3 * b0) * c3;
      a0 * (b0 * c0 - b1 * c1 - b2 * c2 - b3 * c3)
      - a1 * (b0 * c1 + b1 * c0 + b2 * c3 - b3 * c2)
      - a2 * (b0 * c2 - b1 * c3 + b2 * c0 + b3 * c1)
      - a3 * (b0 * c3 + b1 * c2 - b2 * c1 + b3 * c0);
      a0 * n0 - a1 * n1 - a2 * n2 - a3 * n3;
    }
  }

  lemma AssocTimesW(
    a0: real, a1: real, a2: real, a3: real,
    b0: real, b1: real, b2: real, b3: real,
    c0: real, c1: real, c2: real, c3: real,
    m0: real, m1: real, m2: real, m3: real,
    n0: real, n1: real, n2: real, n3: real)
    requires m0 == Times(a0, b0) - Times(a1, b1) - Times(a2, b2) - Times(a3, b3)
    requires m1 == Times(a0, b1) + Times(a1, b0) + Times(a2, b3) - Times(a3, b2)
    requires m2 == Times(a0, b2) - Times(a1, b3) + Times(a2, b0) + Times(a3, b1)
    requires m3 == Times(a0, b3) + Times(a1, b2) - Times(a2, b1) + Times(a3, b0)
    requires n0 == Times(b0, c0) - Times(b1, c1) - Times(b2, c2) - Times(b3, c3)
    requires n1 == Times(b0, c1) + Times(b1, c0) + Times(b2, c3) - Times(b3, c2)
    requires n2 == Times(b0, c2) - Times(b1, c3) + Times(b2, c0) + Times(b3, c1)
    requires n3 == Times(b0, c3) + Times(b1, c2) - Times(b2, c1) + Times(b3, c0)
    ensures Times(m0, c0) - Times(m1, c1) - Times(m2, c2) - Times(m3, c3)
         == Times(a0, n0) - Times(a1, n1) - Times(a2, n2) - Times(a3, n3)
  {
    AssocScalarW(a0, a1, a2, a3,
                 b0, b1, b2, b3,
                 c0, c1, c2, c3,
                 m0, m1, m2, m3,
                 n0, n1, n2, n3);
  }

  lemma AssocScalarX(
    a0: real, a1: real, a2: real, a3: real,
    b0: real, b1: real, b2: real, b3: real,
    c0: real, c1: real, c2: real, c3: real,
    m0: real, m1: real, m2: real, m3: real,
    n0: real, n1: real, n2: real, n3: real)
    requires m0 == a0 * b0 - a1 * b1 - a2 * b2 - a3 * b3
    requires m1 == a0 * b1 + a1 * b0 + a2 * b3 - a3 * b2
    requires m2 == a0 * b2 - a1 * b3 + a2 * b0 + a3 * b1
    requires m3 == a0 * b3 + a1 * b2 - a2 * b1 + a3 * b0
    requires n0 == b0 * c0 - b1 * c1 - b2 * c2 - b3 * c3
    requires n1 == b0 * c1 + b1 * c0 + b2 * c3 - b3 * c2
    requires n2 == b0 * c2 - b1 * c3 + b2 * c0 + b3 * c1
    requires n3 == b0 * c3 + b1 * c2 - b2 * c1 + b3 * c0
    ensures m0 * c1 + m1 * c0 + m2 * c3 - m3 * c2
         == a0 * n1 + a1 * n0 + a2 * n3 - a3 * n2
  {
    calc {
      m0 * c1 + m1 * c0 + m2 * c3 - m3 * c2;
      (a0 * b0 - a1 * b1 - a2 * b2 - a3 * b3) * c1
      + (a0 * b1 + a1 * b0 + a2 * b3 - a3 * b2) * c0
      + (a0 * b2 - a1 * b3 + a2 * b0 + a3 * b1) * c3
      - (a0 * b3 + a1 * b2 - a2 * b1 + a3 * b0) * c2;
      a0 * (b0 * c1 + b1 * c0 + b2 * c3 - b3 * c2)
      + a1 * (b0 * c0 - b1 * c1 - b2 * c2 - b3 * c3)
      + a2 * (b0 * c3 + b1 * c2 - b2 * c1 + b3 * c0)
      - a3 * (b0 * c2 - b1 * c3 + b2 * c0 + b3 * c1);
      a0 * n1 + a1 * n0 + a2 * n3 - a3 * n2;
    }
  }

  lemma AssocTimesX(
    a0: real, a1: real, a2: real, a3: real,
    b0: real, b1: real, b2: real, b3: real,
    c0: real, c1: real, c2: real, c3: real,
    m0: real, m1: real, m2: real, m3: real,
    n0: real, n1: real, n2: real, n3: real)
    requires m0 == Times(a0, b0) - Times(a1, b1) - Times(a2, b2) - Times(a3, b3)
    requires m1 == Times(a0, b1) + Times(a1, b0) + Times(a2, b3) - Times(a3, b2)
    requires m2 == Times(a0, b2) - Times(a1, b3) + Times(a2, b0) + Times(a3, b1)
    requires m3 == Times(a0, b3) + Times(a1, b2) - Times(a2, b1) + Times(a3, b0)
    requires n0 == Times(b0, c0) - Times(b1, c1) - Times(b2, c2) - Times(b3, c3)
    requires n1 == Times(b0, c1) + Times(b1, c0) + Times(b2, c3) - Times(b3, c2)
    requires n2 == Times(b0, c2) - Times(b1, c3) + Times(b2, c0) + Times(b3, c1)
    requires n3 == Times(b0, c3) + Times(b1, c2) - Times(b2, c1) + Times(b3, c0)
    ensures Times(m0, c1) + Times(m1, c0) + Times(m2, c3) - Times(m3, c2)
         == Times(a0, n1) + Times(a1, n0) + Times(a2, n3) - Times(a3, n2)
  {
    AssocScalarX(a0, a1, a2, a3,
                 b0, b1, b2, b3,
                 c0, c1, c2, c3,
                 m0, m1, m2, m3,
                 n0, n1, n2, n3);
  }

  lemma AssocComponentW(a: Quat, b: Quat, c: Quat)
    ensures Mul(Mul(a, b), c).w == Mul(a, Mul(b, c)).w
  {
    hide Times;
    var m, n := Mul(a, b), Mul(b, c);
    AssocTimesW(a.w, a.x, a.y, a.z, b.w, b.x, b.y, b.z, c.w, c.x, c.y, c.z,
                 m.w, m.x, m.y, m.z, n.w, n.x, n.y, n.z);
  }

  lemma AssocComponentX(a: Quat, b: Quat, c: Quat)
    ensures Mul(Mul(a, b), c).x == Mul(a, Mul(b, c)).x
  {
    hide Times;
    var m, n := Mul(a, b), Mul(b, c);
    AssocTimesX(a.w, a.x, a.y, a.z, b.w, b.x, b.y, b.z, c.w, c.x, c.y, c.z,
                 m.w, m.x, m.y, m.z, n.w, n.x, n.y, n.z);
  }

  // Cycling the imaginary axes is an automorphism, so the y and z components
  // follow from the x component.

  function Cycle(a: Quat): Quat {
    Quat(a.w, a.y, a.z, a.x)
  }

  lemma CycleMul(a: Quat, b: Quat)
    ensures Mul(Cycle(a), Cycle(b)) == Cycle(Mul(a, b))
  {
    hide Times;
  }

  lemma AssocComponentY(a: Quat, b: Quat, c: Quat)
    ensures Mul(Mul(a, b), c).y == Mul(a, Mul(b, c)).y
  {
    hide Mul;
    AssocComponentX(Cycle(a), Cycle(b), Cycle(c));
    CycleMul(a, b);
    CycleMul(b, c);
    CycleMul(Mul(a, b), c);
    CycleMul(a, Mul(b, c));
  }

  lemma MulAssoc(a: Quat, b: Quat, c: Quat)
    ensures Mul(Mul(a, b), c) == Mul(a, Mul(b, c))
  {
    hide Mul;
    AssocComponentW(a, b, c);
    AssocComponentX(a, b, c);
    AssocComponentY(a, b, c);
    AssocComponentY(Cycle(a), Cycle(b), Cycle(c));
    CycleMul(a, b);
    CycleMul(b, c);
    CycleMul(Mul(a, b), c);
    CycleMul(a, Mul(b, c));
  }

  /** One scalar against a quaternion: distribution and sign, component by component. */
  lemma TimesRow(s: real, a: Quat, b: Quat)
    ensures Times(s, a.w + b.w) == Times(s, a.w) + Times(s, b.w)
    ensures Times(s, a.x + b.x) == Times(s, a.x) + Times(s, b.x)
    ensures Times(s, a.y + b.y) == Times(s, a.y) + Times(s, b.y)
    ensures Times(s, a.z + b.z) == Times(s, a.z) + Times(s, b.z)
  {
  }

  lemma TimesSigns(s: real, a: Quat)
    ensures Times(s, -a.w) == Times(-s, a.w) == -Times(s, a.w)
    ensures Times(s, -a.x) == Times(-s, a.x) == -Times(s, a.x)
    ensures Times(s, -a.y) == Times(-s, a.y) == -Times(s, a.y)
    ensures Times(s, -a.z) == Times(-s, a.z) == -Times(s, a.z)
    ensures Times(-s, -a.w) == Times(s, a.w) == Times(a.w, s)
    ensures Times(-s, -a.x) == Times(s, a.x) == Times(a.x, s)
    ensures Times(-s, -a.y) == Times(s, a.y) == Times(a.y, s)
    ensures Times(-s, -a.z) == Times(s, a.z) == Times(a.z, s)
  {
  }

  lemma MulAdd(a: Quat, b: Quat, c: Quat)
    ensures Mul(a, Add(b, c)) == Add(Mul(a, b), Mul(a, c))
  {
    hide Times;
    TimesRow(a.w, b, c);
    TimesRow(a.x, b, c);
    TimesRow(a.y, b, c);
    TimesRow(a.z, b, c);
  }

  lemma ConjMul(a: Quat, b: Quat)
    ensures Conj(Mul(a, b)) == Mul(Conj(b), Conj(a))
  {
    hide Times;
    TimesSigns(a.w, b);
    TimesSigns(a.x, b);
    TimesSigns(a.y, b);
    TimesSigns(a.z, b);
    TimesSigns(b.w, a);
    TimesSigns(b.x, a);
    TimesSigns(b.y, a);
    TimesSigns(b.z, a);
  }

  lemma MulNeg(a: Quat, b: Quat)
    ensures Mul(Neg(a), b) == Neg(Mul(a, b)) == Mul(a, Neg(b))
  {
    hide Times;
    TimesSigns(a.w, b);
    TimesSigns(a.x, b);
    TimesSigns(a.y, b);
    TimesSigns(a.z, b);
  }

  lemma MulConj(a: Quat)
    ensures Mul(a, Conj(a)) == Quat(Dot(a, a), 0.0, 0.0, 0.0)
    ensures Dot(Conj(a), Conj(a)) == Dot(a, a) == Dot(Neg(a), Neg(a))
    ensures Conj(Conj(a)) == a == Neg(Neg(a))
  {
  }

  lemma MulOne(a: Quat)
    ensures Mul(a, ONE) == a == Mul(ONE, a)
  {
  }

  /** Conjugation inverts a rotor on both sides. */
  lemma RotorInverse(a: Rotor)
    ensures Mul(a, Conj(a)) == ONE == Mul(Conj(a), a)
    ensures Dot(Conj(a), Conj(a)) == 1.0
  {
    hide Times, Mul, Dot;
    MulConj(a);
    MulConj(Conj(a));
  }

  /** Rotors are closed under the product: |ab|^2 is the scalar part of (ab)(ab)*. */
  lemma MulRotor(a: Rotor, b: Rotor)
    ensures Dot(Mul(a, b), Mul(a, b)) == 1.0
  {
    hide Times, Mul, Dot;
    var m := Mul(a, b);
    calc {
      Quat(Dot(m, m), 0.0, 0.0, 0.0);
      { MulConj(m); }
      Mul(m, Conj(m));
      { ConjMul(a, b); }
      Mul(m, Mul(Conj(b), Conj(a)));
      { MulAssoc(m, Conj(b), Conj(a)); }
      Mul(Mul(m, Conj(b)), Conj(a));
      { MulAssoc(a, b, Conj(b)); RotorInverse(b); MulOne(a); }
      Mul(a, Conj(a));
      { RotorInverse(a); }
      ONE;
    }
  }
}

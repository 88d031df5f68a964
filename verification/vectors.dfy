/** Two-dimensional vectors over the reals: the part of `glam::Vec2` the
    engine uses (component-wise sum and difference, scaling, division by a
    scalar). Single-precision rounding is not modelled. */
module Vectors {

  datatype Vec2 = Vec2(x: real, y: real)

  /** `Vec2::zero()` */
  const Zero: Vec2 := Vec2(0.0, 0.0)

  function Add(a: Vec2, b: Vec2): Vec2 {
    Vec2(a.x + b.x, a.y + b.y)
  }

  function Sub(a: Vec2, b: Vec2): Vec2 {
    Vec2(a.x - b.x, a.y - b.y)
  }

  /** `v * k` for a scalar `k` */
  function Scale(v: Vec2, k: real): Vec2 {
    Vec2(v.x * k, v.y * k)
  }

  /** `v / k` for a non-zero scalar `k` */
  function Div(v: Vec2, k: real): Vec2
    requires k != 0.0
  {
    Vec2(v.x / k, v.y / k)
  }

  function Neg(v: Vec2): Vec2 {
    Vec2(-v.x, -v.y)
  }

  function Dot(a: Vec2, b: Vec2): real {
    a.x * b.x + a.y * b.y
  }

  /** Squared length, `delta.x * delta.x + delta.y * delta.y`. */
  function Norm2(v: Vec2): real {
    v.x * v.x + v.y * v.y
  }

  /** Zero is the identity of addition. Engine proofs call these vector
      identities instead of re-deriving them among the kernel's arithmetic. */
  lemma AddZero(v: Vec2)
    ensures Add(Zero, v) == v && Add(v, Zero) == v
  {
  }

  lemma AddAssociative(a: Vec2, b: Vec2, c: Vec2)
    ensures Add(Add(a, b), c) == Add(a, Add(b, c))
  {
  }

  /** Negation commutes with scaling and division, and keeps the length. */
  lemma NegScale(v: Vec2, k: real)
    ensures Scale(Neg(v), k) == Neg(Scale(v, k))
  {
  }

  lemma NegDiv(v: Vec2, k: real)
    requires k != 0.0
    ensures Div(Neg(v), k) == Neg(Div(v, k))
  {
  }

  lemma NegZero()
    ensures Neg(Zero) == Zero
  {
  }

  lemma NegNorm2(v: Vec2)
    ensures Norm2(Neg(v)) == Norm2(v)
  {
  }

  lemma ScaleByOne(v: Vec2)
    ensures Scale(v, 1.0) == v
  {
  }

  lemma NegOf(x: real, y: real)
    ensures Neg(Vec2(x, y)) == Vec2(-x, -y)
  {
  }
}

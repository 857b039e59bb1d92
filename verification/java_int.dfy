/** Java's 32-bit `int`: two's-complement values and the wrap-around
    arithmetic of `+` and `*` on them (section 15.17.1 and 15.18.2 of the
    Java Language Specification: the result is the low 32 bits of the exact
    mathematical result). */
module JavaInt {

  const TWO_32: int := 0x1_0000_0000
  const MIN_INT: int := -0x8000_0000
  const MAX_INT: int := 0x7FFF_FFFF

  /** A value of Java type `int`. */
  type Int32 = x: int | MIN_INT <= x <= MAX_INT

  /** Two integers that Java's `int` arithmetic cannot tell apart. */
  ghost predicate Congruent(x: int, y: int) {
    (x - y) % TWO_32 == 0
  }

  /** The `int` holding the low 32 bits of `x`: the unique Int32 congruent
      to `x` modulo 2^32. */
  function Wrap(x: int): (r: Int32)
    ensures Congruent(x, r)
    ensures MIN_INT <= x <= MAX_INT ==> r == x
  {
    var m := x % TWO_32;
    if m > MAX_INT then m - TWO_32 else m
  }

  /** Java `a + b` on two `int` operands: the exact sum when it fits,
      otherwise the `int` that agrees with it in the low 32 bits. */
  function Add(a: Int32, b: Int32): (r: Int32)
    ensures Congruent(a + b, r)
    ensures MIN_INT <= a + b <= MAX_INT ==> r == a + b
    ensures a + b > MAX_INT ==> r == a + b - TWO_32
    ensures a + b < MIN_INT ==> r == a + b + TWO_32
  {
    Wrap(a + b)
  }

  /** Java `a * b` on two `int` operands: the exact product when it fits,
      otherwise the `int` that agrees with it in the low 32 bits. */
  function Mul(a: Int32, b: Int32): (r: Int32)
    ensures Congruent(a * b, r)
    ensures MIN_INT <= a * b <= MAX_INT ==> r == a * b
  {
    Wrap(a * b)
  }

  /** A multiple of 2^32 times any integer is still a multiple of 2^32. */
  lemma ScaleCongruent(a: int, x: int, y: int)
    requires Congruent(x, y)
    ensures Congruent(a * x, a * y)
  {
    var q := (x - y) / TWO_32;
    assert x - y == q * TWO_32;
    assert a * x - a * y == a * (x - y);
    assert a * (x - y) == (a * q) * TWO_32;
  }

  /** Congruence modulo 2^32 is transitive, symmetric, and kept by adding
      the same amount to both sides. */
  lemma CongruentTrans(x: int, y: int, z: int)
    requires Congruent(x, y) && Congruent(y, z)
    ensures Congruent(x, z)
  {
    var p := (x - y) / TWO_32;
    var q := (y - z) / TWO_32;
    assert x - z == (p + q) * TWO_32;
  }

  lemma CongruentSym(x: int, y: int)
    requires Congruent(x, y)
    ensures Congruent(y, x)
  {
    var q := (x - y) / TWO_32;
    assert y - x == (-q) * TWO_32;
  }

  lemma CongruentShift(x: int, y: int, c: int)
    requires Congruent(x, y)
    ensures Congruent(x + c, y + c)
  {
    assert (x + c) - (y + c) == x - y;
  }

  /** Congruent integers wrap to the same `int`. */
  lemma {:induction false} WrapCongruent(x: int, y: int)
    requires Congruent(x, y)
    ensures Wrap(x) == Wrap(y)
  {
    var rx, ry := Wrap(x), Wrap(y);
    CongruentSym(x, rx);
    CongruentTrans(rx, x, y);
    CongruentTrans(rx, y, ry);
    var q := (rx - ry) / TWO_32;
    assert rx - ry == q * TWO_32;
    assert -TWO_32 < rx - ry < TWO_32;
    assert q == 0;
  }

  /** One Horner step `31*h + c` computed with Java's wrapping `*` and `+`
      on an already-wrapped `h` agrees with the same step computed exactly
      and wrapped once. */
  lemma {:induction false} MulAddStep(a: Int32, p: int, c: Int32)
    ensures Add(Mul(a, Wrap(p)), c) == Wrap(a * p + c)
  {
    var w := Wrap(p);
    var exact, m := a * w, Mul(a, w);
    CongruentSym(p, w);
    ScaleCongruent(a, w, p);
    CongruentSym(exact, m);
    CongruentTrans(m, exact, a * p);
    CongruentShift(m, a * p, c);
    WrapCongruent(m + c, a * p + c);
  }
}

/** Complex arithmetic over exact reals: the phasor algebra every load-flow element is written in. */
module ComplexArith {

  /** A complex number (a voltage, current or power phasor) as its real and imaginary parts. */
  datatype Complex = Complex(re: real, im: real)

  const Zero: Complex := Complex(0.0, 0.0)
  const One: Complex := Complex(1.0, 0.0)
  /** The imaginary unit, written 1j in the source. */
  const J: Complex := Complex(0.0, 1.0)

  /** A purely real complex number. */
  function Real(x: real): Complex { Complex(x, 0.0) }

  function Add(a: Complex, b: Complex): Complex { Complex(a.re + b.re, a.im + b.im) }
  function Sub(a: Complex, b: Complex): Complex { Complex(a.re - b.re, a.im - b.im) }
  function Neg(a: Complex): Complex { Complex(-a.re, -a.im) }
  function Scale(k: real, a: Complex): Complex { Complex(k * a.re, k * a.im) }
  function Mul(a: Complex, b: Complex): Complex
  {
    Complex(a.re * b.re - a.im * b.im, a.re * b.im + a.im * b.re)
  }
  function Conj(a: Complex): Complex { Complex(a.re, -a.im) }

  /** r is the non-negative square root of x (what abs() and ** 0.5 return). */
  predicate IsSqrt(x: real, r: real) { r >= 0.0 && r * r == x }

  /** The decimal value of numpy's pi. */
  const Pi: real := 3.141592653589793

  /** numpy's degrees(): radians to degrees. */
  function Degrees(x: real): real { x * (180.0 / Pi) }

  /** The square of a real. */
  function Sq(x: real): real { x * x }

  lemma MulPositive(k: real, a: real, b: real)
    requires k > 0.0 && a > b
    ensures k * a > k * b
  {
  }

  /** q is the quotient p/n when q n == p. */
  lemma Quotient(q: real, p: real, n: real)
    requires n != 0.0 && q * n == p
    ensures q == p / n
  {
  }

  /** A product of nonzero reals is nonzero. */
  lemma MulNonzeroReal(x: real, y: real)
    requires x != 0.0 && y != 0.0
    ensures x * y != 0.0
  {
  }

  /** e n == -x when e == -x / n. */
  lemma OverTimes(x: real, n: real, e: real)
    requires n != 0.0 && e == -x / n
    ensures e * n == -x
  {
  }

  /** A factor that vanishes when multiplied by a nonzero real is zero. */
  lemma ZeroFactor(x: real, n: real)
    requires n != 0.0 && x * n == 0.0
    ensures x == 0.0
  {
    if x != 0.0 {
      MulNonzeroReal(x, n);
    }
  }

  /** A quotient is linear in its numerator: (p + a)/v moves by a (1/v). */
  lemma QuotientLinear(p: real, v: real, a: real)
    requires v != 0.0
    ensures (p + a) / v == p / v + a * (1.0 / v)
  {
    var x, u, y := p / v, 1.0 / v, (p + a) / v;
    assert x * v == p && u * v == 1.0 && y * v == p + a;
    assert (x + a * u) * v == p + a;
    assert (y - (x + a * u)) * v == 0.0;
    ZeroFactor(y - (x + a * u), v);
  }

  /**
   * -p/v^2 is the derivative of p/v with respect to v: moving v by h moves p/v by
   * h (-p/v^2) v/(v + h), whose last factor tends to 1 with h.
   */
  lemma QuotientStep(p: real, v: real, h: real)
    requires v != 0.0 && v + h != 0.0
    ensures p / (v + h) == p / v + h * (-p / (v * v)) * (v / (v + h))
  {
    var x := p / v;
    assert x * v == p;
    var z, f := p / (v + h), v / (v + h);
    assert z * (v + h) == p && f * (v + h) == v;
    var w := -p / (v * v);
    assert w * (v * v) == -p;
    assert v * w == -x by {
      assert (v * w + x) * v == 0.0;
      ZeroFactor(v * w + x, v);
    }
    var t := h * w * f;
    assert t * (v + h) == h * (v * w) by {
      calc {
        t * (v + h);
        h * w * (f * (v + h));
        h * (v * w);
      }
    }
    assert (z - (x + t)) * (v + h) == 0.0;
    ZeroFactor(z - (x + t), v + h);
  }

  /** The reciprocal square (1/x)^2. */
  function InvSq(x: real): real
    requires x != 0.0
  {
    (1.0 / x) * (1.0 / x)
  }

  /** The derivative of InvSq: -2 (1/x)^3. */
  function InvSqSlope(x: real): real
    requires x != 0.0
  {
    -2.0 * ((1.0 / x) * (1.0 / x) * (1.0 / x))
  }

  /** The second-order part of a move of InvSq by h: (3 x + 2 h)/(x^3 (x + h)^2). */
  function InvSqRemainder(x: real, h: real): real
    requires x != 0.0 && x + h != 0.0
  {
    (3.0 * x + 2.0 * h) * ((1.0 / x) * (1.0 / x) * (1.0 / x) * ((1.0 / (x + h)) * (1.0 / (x + h))))
  }

  /** InvSqSlope is the derivative of InvSq, with an explicit remainder. */
  lemma InvSqExact(x: real, h: real)
    requires x != 0.0 && x + h != 0.0
    ensures InvSq(x + h) == InvSq(x) + h * InvSqSlope(x) + h * h * InvSqRemainder(x, h)
  {
    var g := x + h;
    var u, w := 1.0 / x, 1.0 / g;
    assert u * x == 1.0 && w * g == 1.0;
    InvSqStep(x, h, g, u, w);
  }

  /** A square is never negative, and is positive exactly off zero. */
  lemma SqSign(x: real)
    ensures Sq(x) >= 0.0
    ensures x != 0.0 <==> Sq(x) > 0.0
  {
    if x > 0.0 {
      calc { Sq(x); == x * x; > { MulPositive(x, x, 0.0); } x * 0.0; }
    } else if x < 0.0 {
      calc { Sq(x); == (-x) * (-x); > { MulPositive(-x, -x, 0.0); } (-x) * 0.0; }
    } else {
      assert Sq(x) == 0.0;
    }
  }

  /** |a|^2, the square of the magnitude that abs() returns. */
  function NormSq(a: Complex): real { Sq(a.re) + Sq(a.im) }

  /** |a|^2 is never negative, and is positive exactly when a is nonzero. */
  lemma NormSqPos(a: Complex)
    ensures NormSq(a) >= 0.0
    ensures a != Zero <==> NormSq(a) > 0.0
  {
    SqSign(a.re);
    SqSign(a.im);
  }

  /** a * conj(a) is the real number |a|^2. */
  lemma MulConjSelf(a: Complex)
    ensures Mul(a, Conj(a)) == Real(NormSq(a))
  {
  }

  /** 1/a for a nonzero a. */
  function Inv(a: Complex): (r: Complex)
    requires a != Zero
    ensures Mul(a, r) == One
  {
    NormSqPos(a);
    var n := NormSq(a);
    assert a.re * (a.re / n) == (a.re * a.re) / n;
    assert a.im * (-a.im / n) == -(a.im * a.im) / n;
    assert a.re * (a.re / n) - a.im * (-a.im / n) == n / n == 1.0;
    assert a.re * (-a.im / n) + a.im * (a.re / n) == 0.0;
    Complex(a.re / n, -a.im / n)
  }

  /** a/b for a nonzero b. */
  function Div(a: Complex, b: Complex): (r: Complex)
    requires b != Zero
    ensures Mul(b, r) == a
  {
    MulAssoc(b, Inv(b), a);
    MulComm(a, Inv(b));
    Mul(a, Inv(b))
  }

  /** Complex power at a terminal with voltage v and current i: S = v * conj(i). */
  function Power(v: Complex, i: Complex): Complex { Mul(v, Conj(i)) }

  lemma MulComm(a: Complex, b: Complex)
    ensures Mul(a, b) == Mul(b, a)
  {
  }

  lemma MulAssoc(a: Complex, b: Complex, c: Complex)
    ensures Mul(Mul(a, b), c) == Mul(a, Mul(b, c))
  {
  }

  lemma MulAddDistrib(a: Complex, b: Complex, c: Complex)
    ensures Mul(a, Add(b, c)) == Add(Mul(a, b), Mul(a, c))
  {
  }

  lemma MulSubDistrib(a: Complex, b: Complex, c: Complex)
    ensures Mul(a, Sub(b, c)) == Sub(Mul(a, b), Mul(a, c))
  {
  }

  lemma MulLeftComm(a: Complex, b: Complex, c: Complex)
    ensures Mul(a, Mul(b, c)) == Mul(b, Mul(a, c))
  {
    calc {
      Mul(a, Mul(b, c));
      { MulAssoc(a, b, c); }
      Mul(Mul(a, b), c);
      { MulComm(a, b); }
      Mul(Mul(b, a), c);
      { MulAssoc(b, a, c); }
      Mul(b, Mul(a, c));
    }
  }

  lemma ConjSub(a: Complex, b: Complex)
    ensures Conj(Sub(a, b)) == Sub(Conj(a), Conj(b))
  {
  }

  lemma MulScaleComm(a: Complex, k: real, b: Complex)
    ensures Mul(a, Scale(k, b)) == Scale(k, Mul(a, b))
  {
  }

  lemma MulOne(a: Complex)
    ensures Mul(a, One) == a && Mul(One, a) == a
  {
  }

  lemma ConjMul(a: Complex, b: Complex)
    ensures Conj(Mul(a, b)) == Mul(Conj(a), Conj(b))
  {
  }

  lemma ConjConj(a: Complex)
    ensures Conj(Conj(a)) == a
  {
  }

  /** A nonzero factor cancels. */
  lemma MulCancel(b: Complex, x: Complex, y: Complex)
    requires b != Zero
    requires Mul(b, x) == Mul(b, y)
    ensures x == y
  {
    var ib := Inv(b);
    calc {
      x;
      { MulOne(x); }
      Mul(One, x);
      { MulComm(b, ib); }
      Mul(Mul(ib, b), x);
      { MulAssoc(ib, b, x); }
      Mul(ib, Mul(b, x));
      Mul(ib, Mul(b, y));
      { MulAssoc(ib, b, y); }
      Mul(Mul(ib, b), y);
      { MulComm(b, ib); MulOne(y); }
      y;
    }
  }

  /** Division by b undoes multiplication by b. */
  lemma DivMul(a: Complex, b: Complex)
    requires b != Zero
    ensures Div(Mul(a, b), b) == a
  {
    var q := Div(Mul(a, b), b);
    assert Mul(b, q) == Mul(b, a) by { MulComm(a, b); }
    MulCancel(b, q, a);
  }

  /** The quotient a/b is the unique x with b * x == a. */
  lemma DivUnique(a: Complex, b: Complex, x: Complex)
    requires b != Zero
    requires Mul(b, x) == a
    ensures Div(a, b) == x
  {
    MulCancel(b, Div(a, b), x);
  }

  /** The product of two nonzero numbers is nonzero. */
  lemma MulNonzero(a: Complex, b: Complex)
    requires a != Zero && b != Zero
    ensures Mul(a, b) != Zero
  {
    if Mul(a, b) == Zero {
      assert Mul(Inv(a), Mul(a, b)) == Zero;
      MulAssoc(Inv(a), a, b);
      MulComm(Inv(a), a);
      MulOne(b);
      assert false;
    }
  }

  /** Multiplying two numbers that each move linearly in h: the product moves by h and h^2 terms. */
  lemma MulStep(v: Complex, c: Complex, a: Complex, e: Complex, h: real)
    ensures Mul(Add(v, Scale(h, a)), Add(c, Scale(h, e)))
         == Add(Add(Mul(v, c), Scale(h, Add(Mul(a, c), Mul(v, e)))), Scale(h * h, Mul(a, e)))
  {
    var c2 := Add(c, Scale(h, e));
    calc {
      Mul(Add(v, Scale(h, a)), c2);
      { MulComm(Add(v, Scale(h, a)), c2); MulAddDistrib(c2, v, Scale(h, a)); }
      Add(Mul(c2, v), Mul(c2, Scale(h, a)));
      { MulScaleComm(c2, h, a); MulComm(c2, v); MulComm(c2, a); }
      Add(Mul(v, c2), Scale(h, Mul(a, c2)));
      { MulAddDistrib(v, c, Scale(h, e)); MulAddDistrib(a, c, Scale(h, e));
        MulScaleComm(v, h, e); MulScaleComm(a, h, e); }
      Add(Add(Mul(v, c), Scale(h, Mul(v, e))), Scale(h, Add(Mul(a, c), Scale(h, Mul(a, e)))));
      { ScaleAdd(h, Mul(a, c), Scale(h, Mul(a, e))); ScaleScale(h, h, Mul(a, e)); }
      Add(Add(Mul(v, c), Scale(h, Mul(v, e))), Add(Scale(h, Mul(a, c)), Scale(h * h, Mul(a, e))));
      { ScaleAdd(h, Mul(a, c), Mul(v, e)); }
      Add(Add(Mul(v, c), Scale(h, Add(Mul(a, c), Mul(v, e)))), Scale(h * h, Mul(a, e)));
    }
  }

  /**
   * Power is bilinear: moving the voltage by h a and the current by h di moves v conj(i) by
   * h (a conj(i) + v conj(di)) and h^2 a conj(di).
   */
  lemma PowerStep(v: Complex, i: Complex, a: Complex, di: Complex, h: real)
    ensures Power(Add(v, Scale(h, a)), Add(i, Scale(h, di)))
         == Add(Add(Power(v, i), Scale(h, Add(Mul(a, Conj(i)), Mul(v, Conj(di))))),
                Scale(h * h, Mul(a, Conj(di))))
  {
    assert Conj(Add(i, Scale(h, di))) == Add(Conj(i), Scale(h, Conj(di)));
    MulStep(v, Conj(i), a, Conj(di), h);
  }

  /**
   * Power is bilinear: moving the voltage by a and the current by b moves v conj(i) by the
   * first-order part a conj(i) + v conj(b) and the second-order part a conj(b).
   */
  lemma PowerMove(v: Complex, i: Complex, a: Complex, b: Complex)
    ensures Power(Add(v, a), Add(i, b))
         == Add(Add(Power(v, i), Add(Mul(a, Conj(i)), Mul(v, Conj(b)))), Mul(a, Conj(b)))
  {
    calc {
      Power(Add(v, a), Add(i, b));
      Mul(Add(v, a), Add(Conj(i), Conj(b)));
      { MulComm(Add(v, a), Add(Conj(i), Conj(b))); MulAddDistrib(Add(Conj(i), Conj(b)), v, a);
        MulComm(Add(Conj(i), Conj(b)), v); MulComm(Add(Conj(i), Conj(b)), a); }
      Add(Mul(v, Add(Conj(i), Conj(b))), Mul(a, Add(Conj(i), Conj(b))));
      { MulAddDistrib(v, Conj(i), Conj(b)); MulAddDistrib(a, Conj(i), Conj(b)); }
      Add(Add(Mul(v, Conj(i)), Mul(v, Conj(b))), Add(Mul(a, Conj(i)), Mul(a, Conj(b))));
      Add(Add(Power(v, i), Add(Mul(a, Conj(i)), Mul(v, Conj(b)))), Mul(a, Conj(b)));
    }
  }

  /** a.re c + a.im (j c) is a c. */
  lemma RotatedSum(a: Complex, c: Complex)
    ensures Add(Scale(a.re, c), Scale(a.im, Mul(J, c))) == Mul(a, c)
  {
  }

  lemma ScaleAdd(k: real, a: Complex, b: Complex)
    ensures Scale(k, Add(a, b)) == Add(Scale(k, a), Scale(k, b))
  {
  }

  lemma ScaleScale(k: real, l: real, a: Complex)
    ensures Scale(k, Scale(l, a)) == Scale(k * l, a)
  {
  }

  /** The polynomial identity behind InvSqExact, over the reciprocals u = 1/x and w = 1/(x + h). */
  lemma InvSqStep(x: real, h: real, g: real, u: real, w: real)
    requires g == x + h && u * x == 1.0 && w * g == 1.0
    ensures w * w == u * u + h * (-2.0 * (u * u * u)) + h * h * ((3.0 * x + 2.0 * h) * (u * u * u * (w * w)))
  {
    // w - u = -h u w, from w x = w (g - h) = 1 - h w and u x = 1
    assert w - u == -h * u * w by {
      assert (w - u) * x == w * x - 1.0;
      assert w * x == 1.0 - h * w;
      assert (w - u + h * u * w) * x == 0.0;
      ZeroFactor(w - u + h * u * w, x);
    }
    var d := w - u;
    assert w * w - u * u == d * (w + u);
    // Everything is a polynomial in u, w and h once w is replaced: check by expanding w = u + d
    assert h * u * w == -d;
    calc {
      (3.0 * x + 2.0 * h) * (u * u * u * (w * w));
      3.0 * (u * x) * (u * u) * (w * w) + 2.0 * h * (u * u * u) * (w * w);
      3.0 * (u * u) * (w * w) + 2.0 * (h * u * w) * (u * u) * w;
      3.0 * (u * u) * (w * w) - 2.0 * d * (u * u) * w;
    }
    // h * h * (...) multiplies by h^2: replace h u w by -d where it occurs
    assert h * h * (3.0 * (u * u) * (w * w)) == 3.0 * (h * u * w) * (h * u * w) == 3.0 * d * d;
    assert h * h * (2.0 * d * (u * u) * w) == 2.0 * d * (h * u * w) * (h * u) == -2.0 * d * d * (h * u);
    assert h * (-2.0 * (u * u * u)) == -2.0 * (u * u) * (h * u);
    // h u = -d / w is awkward; use h u w = -d and w = u + d instead
    assert d * (w + u) == d * (2.0 * u + d);
    assert h * u * (u + d) == -d;
    assert -2.0 * (u * u) * (h * u) + 3.0 * d * d + 2.0 * d * d * (h * u) == d * (2.0 * u + d) by {
      var s := h * u;
      assert s * u + s * d == -d;
      calc {
        -2.0 * (u * u) * s + 3.0 * d * d + 2.0 * d * d * s;
        -2.0 * u * (s * u) + 3.0 * d * d + 2.0 * d * (d * s);
        -2.0 * u * (-d - s * d) + 3.0 * d * d + 2.0 * d * (d * s);
        2.0 * u * d + 2.0 * u * (s * d) + 3.0 * d * d + 2.0 * d * (d * s);
        2.0 * d * (u + s * u + s * d) + 3.0 * d * d;
        2.0 * d * (u - d) + 3.0 * d * d;
        d * (2.0 * u + d);
      }
    }
  }
}

/**
 * The power balance shared by ACgenerator and Converter: the residual pair
 * (Re, Im)(V conj(I)) - (P, Q) and the partials both components write for it.
 */
module PowerBalance {
  import opened ComplexArith

  /** The power residual pair: the delivered V conj(I) minus the power outputs (P, Q). */
  function PowerResidual(v: Complex, i: Complex, p: real, q: real): (r: Complex)
    ensures r == Zero <==> Power(v, i) == Complex(p, q)
  {
    Sub(Power(v, i), Complex(p, q))
  }

  /** The power residuals in real terms: (Vr Ir + Vi Ii) - P and (Vi Ir - Vr Ii) - Q. */
  lemma PowerResidualParts(v: Complex, i: Complex, p: real, q: real)
    ensures PowerResidual(v, i, p, q).re == (v.re * i.re + v.im * i.im) - p
    ensures PowerResidual(v, i, p, q).im == (v.im * i.re - v.re * i.im) - q
  {
  }

  /**
   * The power rows of linearize, column by column: each column holds the partial of the
   * P residual in .re and of the Q residual in .im.
   */
  datatype PowerPartials = PowerPartials(dVr: Complex, dVi: Complex, dIr: Complex, dIi: Complex,
                                         dP: real, dQ: real)

  /** The power rows: conj(I), j conj(I), V, -j V, and -1 for the outputs themselves. */
  function PowerPartialsOf(v: Complex, i: Complex): PowerPartials
  {
    PowerPartials(Conj(i), Mul(J, Conj(i)), v, Mul(Neg(J), v), -1.0, -1.0)
  }

  /** The change of the power residuals along a move (a, b) of V and I, and (c, d) of (P, Q). */
  function PowerDirectional(p: PowerPartials, a: Complex, b: Complex, c: real, d: real): Complex
  {
    Add(Add(Add(Scale(a.re, p.dVr), Scale(a.im, p.dVi)), Add(Scale(b.re, p.dIr), Scale(b.im, p.dIi))),
        Complex(c * p.dP, d * p.dQ))
  }

  /** The directional derivative of the power rows: a conj(I) + V conj(b) - (c, d). */
  lemma PowerDirectionalForm(v: Complex, i: Complex, a: Complex, b: Complex, c: real, d: real)
    ensures PowerDirectional(PowerPartialsOf(v, i), a, b, c, d)
         == Sub(Add(Mul(a, Conj(i)), Mul(v, Conj(b))), Complex(c, d))
  {
    var p := PowerPartialsOf(v, i);
    RotatedSum(a, Conj(i));
    assert Add(Scale(b.re, p.dIr), Scale(b.im, p.dIi)) == Mul(v, Conj(b));
  }

  /**
   * The power partials are the derivatives of the bilinear power residual: moving V by a, I by
   * b and (P, Q) by (c, d) moves the residual pair by exactly the directional derivative plus
   * the second-order term a conj(b).
   */
  lemma PowerPartialsExact(v: Complex, i: Complex, p: real, q: real,
                           a: Complex, b: Complex, c: real, d: real)
    ensures PowerResidual(Add(v, a), Add(i, b), p + c, q + d)
         == Add(Add(PowerResidual(v, i, p, q), PowerDirectional(PowerPartialsOf(v, i), a, b, c, d)),
                Mul(a, Conj(b)))
  {
    PowerDirectionalForm(v, i, a, b, c, d);
    PowerMove(v, i, a, b);
  }

  /**
   * A guessed power S = P (1 + j k) with k = sqrt(1/PF^2 - 1) has power factor PF:
   * P^2 = PF^2 (P^2 + Q^2).
   */
  lemma GuessPowerFactor(pf: real, base: real, k: real)
    requires pf != 0.0 && IsSqrt(1.0 / (pf * pf) - 1.0, k)
    ensures Sq(base) == pf * pf * (Sq(base) + Sq(base * k))
  {
    var c := pf * pf;
    assert c * (1.0 + k * k) == 1.0 by {
      assert 1.0 + k * k == 1.0 / c;
    }
    calc {
      c * (Sq(base) + Sq(base * k));
      c * (Sq(base) * (1.0 + k * k));
      { MulOneRight(Sq(base), c, 1.0 + k * k); }
      Sq(base);
    }
  }

  lemma MulOneRight(x: real, c: real, d: real)
    requires c * d == 1.0
    ensures c * (x * d) == x
  {
    assert c * (x * d) == x * (c * d);
  }
}

/**
 * Loads (ACload, DCload): explicit components that turn a constant power demand and the
 * supplying bus voltage into the current the load draws, and the partials of that current.
 */
module Load {
  import opened ComplexArith

  /** ACload.compute: the current drawn by a load of power S = P + jQ at voltage V is conj(S/V). */
  function ACLoadCurrent(p: real, q: real, v: Complex): (i: Complex)
    requires v != Zero
    ensures Power(v, i) == Complex(p, q)
  {
    var d := Div(Complex(p, q), v);
    ConjConj(d);
    Conj(d)
  }

  /** The load current is the only current through which V delivers exactly S. */
  lemma ACLoadCurrentUnique(p: real, q: real, v: Complex, i: Complex)
    requires v != Zero
    ensures Power(v, i) == Complex(p, q) <==> i == ACLoadCurrent(p, q, v)
  {
    if Power(v, i) == Complex(p, q) {
      DivUnique(Complex(p, q), v, Conj(i));
      ConjConj(i);
    }
  }

  /** The current in closed form: ((P Vr + Q Vi) / |V|^2, (P Vi - Q Vr) / |V|^2). */
  lemma ACLoadCurrentClosedForm(p: real, q: real, v: Complex)
    requires v != Zero
    ensures var n := NormSq(v);
            n > 0.0 &&
            ACLoadCurrent(p, q, v) == Complex((p * v.re + q * v.im) / n, (p * v.im - q * v.re) / n)
  {
    var i := ACLoadCurrent(p, q, v);
    var n := NormSq(v);
    NormSqPos(v);
    assert p == v.re * i.re + v.im * i.im && q == v.im * i.re - v.re * i.im;
    assert p * v.re + q * v.im == i.re * n by {
      assert p * v.re + q * v.im == (v.re * i.re + v.im * i.im) * v.re + (v.im * i.re - v.re * i.im) * v.im;
    }
    assert p * v.im - q * v.re == i.im * n by {
      assert p * v.im - q * v.re == (v.re * i.re + v.im * i.im) * v.im - (v.im * i.re - v.re * i.im) * v.re;
    }
    Quotient(i.re, p * v.re + q * v.im, n);
    Quotient(i.im, p * v.im - q * v.re, n);
  }

  /** A load with no demand draws no current. */
  lemma ACLoadZeroDemand(v: Complex)
    requires v != Zero
    ensures ACLoadCurrent(0.0, 0.0, v) == Zero
  {
    ACLoadCurrentLinear(0.0, 0.0, 0.0, 0.0, 0.0, v);
  }

  /** For a fixed voltage the current is linear in the demand: sums add and scaling scales. */
  lemma ACLoadCurrentLinear(p1: real, q1: real, p2: real, q2: real, k: real, v: Complex)
    requires v != Zero
    ensures ACLoadCurrent(p1 + p2, q1 + q2, v) == Add(ACLoadCurrent(p1, q1, v), ACLoadCurrent(p2, q2, v))
    ensures ACLoadCurrent(k * p1, k * q1, v) == Scale(k, ACLoadCurrent(p1, q1, v))
  {
    var i1 := ACLoadCurrent(p1, q1, v);
    var i2 := ACLoadCurrent(p2, q2, v);
    calc {
      Power(v, Add(i1, i2));
      Mul(v, Add(Conj(i1), Conj(i2)));
      { MulAddDistrib(v, Conj(i1), Conj(i2)); }
      Add(Power(v, i1), Power(v, i2));
    }
    ACLoadCurrentUnique(p1 + p2, q1 + q2, v, Add(i1, i2));
    calc {
      Power(v, Scale(k, i1));
      Mul(v, Scale(k, Conj(i1)));
      { MulScaleComm(v, k, Conj(i1)); }
      Scale(k, Power(v, i1));
    }
    ACLoadCurrentUnique(k * p1, k * q1, v, Scale(k, i1));
  }

  /**
   * Everything ACload.compute_partials writes, column by column: each column holds the partial
   * of Ir_in in .re and of Ii_in in .im.
   */
  datatype ACLoadJac = ACLoadJac(dP: Complex, dQ: Complex, dVr: Complex, dVi: Complex)

  /** ACload.compute_partials for one operating point. */
  function ACLoadPartials(p: real, q: real, v: Complex): ACLoadJac
    requires v != Zero
  {
    var cv := Conj(v);
    var cs := Conj(Complex(p, q));
    assert cv != Zero by { assert cv.re == v.re && cv.im == -v.im; }
    MulNonzero(cv, cv);
    var cv2 := Mul(cv, cv);
    ACLoadJac(Div(One, cv), Div(Neg(J), cv), Div(Neg(cs), cv2), Div(Mul(J, cs), cv2))
  }

  /**
   * The P and Q columns are the currents of a unit real and a unit reactive load, which by
   * linearity makes them the exact derivatives: changing the demand by h (a, b) changes the
   * current by exactly h (a J[., P] + b J[., Q]).
   */
  lemma ACLoadDemandPartialsExact(p: real, q: real, v: Complex, a: real, b: real, h: real)
    requires v != Zero
    ensures var jac := ACLoadPartials(p, q, v);
            jac.dP == ACLoadCurrent(1.0, 0.0, v) &&
            jac.dQ == ACLoadCurrent(0.0, 1.0, v) &&
            ACLoadCurrent(p + h * a, q + h * b, v)
              == Add(ACLoadCurrent(p, q, v), Scale(h, Add(Scale(a, jac.dP), Scale(b, jac.dQ))))
  {
    ACLoadDemandColumns(p, q, v);
    var iP, iQ := ACLoadCurrent(1.0, 0.0, v), ACLoadCurrent(0.0, 1.0, v);
    var i := ACLoadCurrent(p, q, v);
    var x := Add(i, Scale(h, Add(Scale(a, iP), Scale(b, iQ))));
    PowerLinear(v, i, Add(Scale(a, iP), Scale(b, iQ)), 1.0, h);
    PowerLinear(v, iP, iQ, a, b);
    assert Scale(1.0, i) == i;
    assert Power(v, x) == Complex(p + h * a, q + h * b);
    ACLoadCurrentUnique(p + h * a, q + h * b, v, x);
  }

  /** The P column is the current of a unit real load, the Q column that of a unit reactive load. */
  lemma ACLoadDemandColumns(p: real, q: real, v: Complex)
    requires v != Zero
    ensures var jac := ACLoadPartials(p, q, v);
            jac.dP == ACLoadCurrent(1.0, 0.0, v) && jac.dQ == ACLoadCurrent(0.0, 1.0, v)
  {
    var jac := ACLoadPartials(p, q, v);
    UnitColumn(v, One, jac.dP);
    UnitColumn(v, Neg(J), jac.dQ);
    ACLoadCurrentUnique(1.0, 0.0, v, jac.dP);
    ACLoadCurrentUnique(0.0, 1.0, v, jac.dQ);
  }

  /** The demand columns in closed form: J[., P] = (Vr, Vi)/|V|^2 and J[., Q] = (Vi, -Vr)/|V|^2. */
  lemma ACLoadDemandPartialsClosedForm(p: real, q: real, v: Complex)
    requires v != Zero
    ensures var jac := ACLoadPartials(p, q, v);
            var n := NormSq(v);
            jac.dP == Complex(v.re / n, v.im / n) && jac.dQ == Complex(v.im / n, -v.re / n)
  {
    var n := NormSq(v);
    ACLoadDemandColumns(p, q, v);
    ACLoadCurrentClosedForm(1.0, 0.0, v);
    ACLoadCurrentClosedForm(0.0, 1.0, v);
    assert 1.0 * v.re + 0.0 * v.im == v.re && 1.0 * v.im - 0.0 * v.re == v.im;
    assert 0.0 * v.re + 1.0 * v.im == v.im && 0.0 * v.im - 1.0 * v.re == -v.re;
  }

  /** The power a voltage delivers is linear in the current. */
  lemma PowerLinear(v: Complex, x: Complex, y: Complex, k: real, m: real)
    ensures Power(v, Add(Scale(k, x), Scale(m, y))) == Add(Scale(k, Power(v, x)), Scale(m, Power(v, y)))
  {
    calc {
      Power(v, Add(Scale(k, x), Scale(m, y)));
      Mul(v, Add(Scale(k, Conj(x)), Scale(m, Conj(y))));
      { MulAddDistrib(v, Scale(k, Conj(x)), Scale(m, Conj(y))); }
      Add(Mul(v, Scale(k, Conj(x))), Mul(v, Scale(m, Conj(y))));
      { MulScaleComm(v, k, Conj(x)); MulScaleComm(v, m, Conj(y)); }
      Add(Scale(k, Power(v, x)), Scale(m, Power(v, y)));
    }
  }

  /** A column c/conj(V) delivers conj(c) through V. */
  lemma UnitColumn(v: Complex, c: Complex, d: Complex)
    requires Conj(v) != Zero && d == Div(c, Conj(v))
    ensures Power(v, d) == Conj(c)
  {
    assert Mul(Conj(v), d) == c;
    ConjMul(Conj(v), d);
    ConjConj(v);
  }

  /** The change of the current along a voltage direction e, from the Vr_in and Vi_in columns. */
  function VoltageDirectional(jac: ACLoadJac, e: Complex): Complex
  {
    Add(Scale(e.re, jac.dVr), Scale(e.im, jac.dVi))
  }

  /**
   * The voltage columns are the derivative of the current: moving the voltage from V to
   * V' = V + h e changes the current by exactly h times the directional derivative times
   * conj(V)/conj(V'), a factor that tends to 1 with h.
   */
  lemma ACLoadVoltagePartialsExact(p: real, q: real, v: Complex, e: Complex, h: real)
    requires v != Zero && Add(v, Scale(h, e)) != Zero
    ensures var v2 := Add(v, Scale(h, e));
            var f := Div(Conj(v), Conj(v2));
            ACLoadCurrent(p, q, v2)
              == Add(ACLoadCurrent(p, q, v), Scale(h, Mul(VoltageDirectional(ACLoadPartials(p, q, v), e), f)))
  {
    var s := Complex(p, q);
    var v2 := Add(v, Scale(h, e));
    var w, w2 := Conj(v), Conj(v2);
    assert w != Zero && w2 != Zero by { assert w.re == v.re && w2.re == v2.re; }
    var i, i2 := ACLoadCurrent(p, q, v), ACLoadCurrent(p, q, v2);
    CurrentOverConj(s, v, i);
    CurrentOverConj(s, v2, i2);
    var jac := ACLoadPartials(p, q, v);
    var dir := VoltageDirectional(jac, e);
    DirectionalOfColumns(w, Conj(s), jac.dVr, jac.dVi, e, dir);
    assert w2 == Add(w, Scale(h, Conj(e)));
    ReciprocalStep(w, w2, Conj(e), h, Conj(s), dir, i, i2, Div(w, w2));
  }

  /** conj(V) I = conj(S) for the load current I. */
  lemma CurrentOverConj(s: Complex, v: Complex, i: Complex)
    requires Power(v, i) == s
    ensures Mul(Conj(v), i) == Conj(s)
  {
    ConjMul(v, Conj(i));
    ConjConj(i);
  }

  /** conj(V)^2 times the directional derivative is -conj(S) conj(e). */
  lemma DirectionalOfColumns(w: Complex, c: Complex, dVr: Complex, dVi: Complex, e: Complex, dir: Complex)
    requires w != Zero && Mul(w, w) != Zero
    requires dVr == Div(Neg(c), Mul(w, w)) && dVi == Div(Mul(J, c), Mul(w, w))
    requires dir == Add(Scale(e.re, dVr), Scale(e.im, dVi))
    ensures Mul(Mul(w, w), dir) == Neg(Mul(c, Conj(e)))
  {
    var w2 := Mul(w, w);
    calc {
      Mul(w2, dir);
      { MulAddDistrib(w2, Scale(e.re, dVr), Scale(e.im, dVi)); }
      Add(Mul(w2, Scale(e.re, dVr)), Mul(w2, Scale(e.im, dVi)));
      { MulScaleComm(w2, e.re, dVr); MulScaleComm(w2, e.im, dVi); }
      Add(Scale(e.re, Mul(w2, dVr)), Scale(e.im, Mul(w2, dVi)));
      Add(Scale(e.re, Neg(c)), Scale(e.im, Mul(J, c)));
      Neg(Mul(c, Conj(e)));
    }
  }

  /**
   * The secant of a reciprocal: with w I = c and w' I' = c for w' = w + h e, and
   * w^2 dir = -c e, the new value is I + h dir (w/w').
   */
  lemma ReciprocalStep(w: Complex, w2: Complex, e: Complex, h: real, c: Complex,
                       dir: Complex, i: Complex, i2: Complex, f: Complex)
    requires w != Zero && w2 != Zero && w2 == Add(w, Scale(h, e))
    requires Mul(w, i) == c && Mul(w2, i2) == c
    requires Mul(Mul(w, w), dir) == Neg(Mul(c, e))
    requires f == Div(w, w2)
    ensures i2 == Add(i, Scale(h, Mul(dir, f)))
  {
    // w dir = -i e, by cancelling one w
    assert Mul(w, Mul(w, dir)) == Mul(w, Neg(Mul(i, e))) by {
      MulAssoc(w, w, dir);
      MulAssoc(w, i, e);
      NegMul(w, Mul(i, e));
    }
    MulCancel(w, Mul(w, dir), Neg(Mul(i, e)));
    var rhs := Add(i, Scale(h, Mul(dir, f)));
    calc {
      Mul(w2, rhs);
      { MulAddDistrib(w2, i, Scale(h, Mul(dir, f))); MulScaleComm(w2, h, Mul(dir, f)); }
      Add(Mul(w2, i), Scale(h, Mul(w2, Mul(dir, f))));
      { MulLeftComm(w2, dir, f); }
      Add(Mul(w2, i), Scale(h, Mul(dir, Mul(w2, f))));
      { MulComm(dir, w); }
      Add(Mul(w2, i), Scale(h, Mul(w, dir)));
      { MulComm(w2, i); MulAddDistrib(i, w, Scale(h, e)); MulScaleComm(i, h, e); MulComm(i, w); }
      Add(Add(c, Scale(h, Mul(i, e))), Scale(h, Neg(Mul(i, e))));
      c;
      Mul(w2, i2);
    }
    MulCancel(w2, i2, rhs);
  }

  lemma NegMul(a: Complex, b: Complex)
    ensures Mul(a, Neg(b)) == Neg(Mul(a, b))
  {
  }

  /** DCload.compute: the current drawn by a load of power P at voltage V is P/V. */
  function DCLoadCurrent(p: real, v: real): (i: real)
    requires v != 0.0
    ensures v * i == p
  {
    p / v
  }

  /** P/V is the only current through which V delivers exactly P. */
  lemma DCLoadCurrentUnique(p: real, v: real, i: real)
    requires v != 0.0
    ensures v * i == p <==> i == DCLoadCurrent(p, v)
  {
    if v * i == p {
      Quotient(i, p, v);
    }
  }

  /** Everything DCload.compute_partials writes. */
  datatype DCLoadJac = DCLoadJac(dP: real, dV: real)

  /** DCload.compute_partials for one operating point. */
  function DCLoadPartials(p: real, v: real): DCLoadJac
    requires v != 0.0
  {
    DCLoadJac(1.0 / v, -p / (v * v))
  }

  /**
   * The partials are derivatives: changing P by h changes I by exactly h J[I, P], and
   * changing V by h changes I by h J[I, V] V/(V + h), a factor that tends to 1 with h.
   */
  lemma DCLoadPartialsExact(p: real, v: real, h: real)
    requires v != 0.0 && v + h != 0.0
    ensures var jac := DCLoadPartials(p, v);
            DCLoadCurrent(p + h, v) == DCLoadCurrent(p, v) + h * jac.dP &&
            DCLoadCurrent(p, v + h) == DCLoadCurrent(p, v) + h * jac.dV * (v / (v + h))
  {
    var i, i2 := DCLoadCurrent(p, v), DCLoadCurrent(p, v + h);
    var jac := DCLoadPartials(p, v);
    assert v * jac.dP == 1.0;
    DCLoadCurrentUnique(p + h, v, i + h * jac.dP);
    var t := h * jac.dV * (v / (v + h));
    assert (v + h) * (v / (v + h)) == v;
    assert v * (v * jac.dV) == v * (-p / v) by {
      assert (v * v) * jac.dV == -p;
    }
    assert v * jac.dV == -i;
    assert (v + h) * t == -h * i by {
      calc {
        (v + h) * t;
        h * jac.dV * ((v + h) * (v / (v + h)));
        h * (v * jac.dV);
      }
    }
    assert (v + h) * (i + t) == p;
    DCLoadCurrentUnique(p, v + h, i + t);
  }
}

/**
 * Transmission lines (ACline, DCline): explicit components that turn the two terminal
 * voltages and the series impedance into terminal currents and powers, and their
 * closed-form partial derivatives.
 */
module Line {
  import opened ComplexArith

  /** Everything ACline.compute writes, with each real/imaginary output pair kept as one phasor. */
  datatype ACLineOut = ACLineOut(
    iIn: Complex,    // Ir_in + j Ii_in
    iOut: Complex,   // Ir_out + j Ii_out
    sIn: Complex,    // P_in + j Q_in
    sOut: Complex,   // P_out + j Q_out
    sLoss: Complex)  // P_loss + j Q_loss

  /** Series admittance Y = 1/(R + jX). */
  function Admittance(r: real, x: real): (y: Complex)
    requires Complex(r, x) != Zero
    ensures Mul(Complex(r, x), y) == One
  {
    Inv(Complex(r, x))
  }

  /** The outputs of ACline.compute for a line of series admittance y. */
  function ACLineFromAdmittance(vIn: Complex, vOut: Complex, y: Complex): ACLineOut
  {
    var iIn := Mul(y, Sub(vIn, vOut));
    var iOut := Mul(y, Sub(vOut, vIn));
    var sIn := Power(vIn, iIn);
    var sOut := Power(vOut, iOut);
    ACLineOut(iIn, iOut, sIn, sOut, Add(sIn, sOut))
  }

  /** ACline.compute for one operating point. */
  function ACLineCompute(vIn: Complex, vOut: Complex, r: real, x: real): (o: ACLineOut)
    requires Complex(r, x) != Zero
    ensures o.iOut == Neg(o.iIn)
    ensures Mul(Complex(r, x), o.iIn) == Sub(vIn, vOut)
    ensures o.sIn == Power(vIn, o.iIn) && o.sOut == Power(vOut, o.iOut)
  {
    var y := Admittance(r, x);
    MulAssoc(Complex(r, x), y, Sub(vIn, vOut));
    MulOne(Sub(vIn, vOut));
    ACLineFromAdmittance(vIn, vOut, y)
  }

  /** The current entering the line in closed form: (R dVr + X dVi, R dVi - X dVr) / (R^2 + X^2). */
  lemma ACLineCurrentClosedForm(vIn: Complex, vOut: Complex, r: real, x: real)
    requires Complex(r, x) != Zero
    ensures var o := ACLineCompute(vIn, vOut, r, x);
            var d := Sub(vIn, vOut);
            var n := NormSq(Complex(r, x));
            n > 0.0 &&
            o.iIn == Complex((r * d.re + x * d.im) / n, (r * d.im - x * d.re) / n)
  {
    var i := ACLineCompute(vIn, vOut, r, x).iIn;
    var d := Sub(vIn, vOut);
    var n := NormSq(Complex(r, x));
    NormSqPos(Complex(r, x));
    assert d.re == r * i.re - x * i.im && d.im == r * i.im + x * i.re;
    assert r * d.re + x * d.im == i.re * n by {
      assert r * d.re + x * d.im == r * (r * i.re - x * i.im) + x * (r * i.im + x * i.re);
    }
    assert r * d.im - x * d.re == i.im * n by {
      assert r * d.im - x * d.re == r * (r * i.im + x * i.re) - x * (r * i.re - x * i.im);
    }
    Quotient(i.re, r * d.re + x * d.im, n);
    Quotient(i.im, r * d.im - x * d.re, n);
  }

  /** The power lost in the line is the sum of what enters at both terminals. */
  lemma ACLineLossIsTerminalSum(vIn: Complex, vOut: Complex, r: real, x: real)
    requires Complex(r, x) != Zero
    ensures var o := ACLineCompute(vIn, vOut, r, x);
            o.sLoss.re == o.sIn.re + o.sOut.re && o.sLoss.im == o.sIn.im + o.sOut.im
  {
  }

  /** The loss phasor is |dV|^2 conj(Y): the line dissipates in proportion to the squared voltage drop. */
  lemma ACLineLossPhasor(vIn: Complex, vOut: Complex, r: real, x: real)
    requires Complex(r, x) != Zero
    ensures ACLineCompute(vIn, vOut, r, x).sLoss
         == Mul(Real(NormSq(Sub(vIn, vOut))), Conj(Admittance(r, x)))
  {
    var o := ACLineCompute(vIn, vOut, r, x);
    var d := Sub(vIn, vOut);
    var y := Admittance(r, x);
    assert o.sLoss == Mul(d, Conj(o.iIn));
    calc {
      Mul(d, Conj(o.iIn));
      Mul(d, Conj(Mul(y, d)));
      { ConjMul(y, d); }
      Mul(d, Mul(Conj(y), Conj(d)));
      { MulComm(Conj(y), Conj(d)); MulAssoc(d, Conj(d), Conj(y)); }
      Mul(Mul(d, Conj(d)), Conj(y));
      { MulConjSelf(d); }
      Mul(Real(NormSq(d)), Conj(y));
    }
  }

  /**
   * The loss in closed form: P_loss = |dV|^2 R/(R^2+X^2) and Q_loss = |dV|^2 X/(R^2+X^2);
   * in particular a line with non-negative resistance never produces real power.
   */
  lemma ACLineLossClosedForm(vIn: Complex, vOut: Complex, r: real, x: real)
    requires Complex(r, x) != Zero
    ensures var o := ACLineCompute(vIn, vOut, r, x);
            var m := NormSq(Sub(vIn, vOut));
            var n := NormSq(Complex(r, x));
            o.sLoss == Complex(m * (r / n), m * (x / n))
    ensures r >= 0.0 ==> ACLineCompute(vIn, vOut, r, x).sLoss.re >= 0.0
  {
    var m := NormSq(Sub(vIn, vOut));
    var n := NormSq(Complex(r, x));
    NormSqPos(Complex(r, x));
    NormSqPos(Sub(vIn, vOut));
    ACLineLossPhasor(vIn, vOut, r, x);
    var cy := Conj(Admittance(r, x));
    assert cy == Complex(r / n, x / n);
    assert Mul(Real(m), cy) == Complex(m * (r / n), m * (x / n));
    if r >= 0.0 {
      NonnegQuotient(m, r, n);
    }
  }

  /** m r / n is non-negative for non-negative m and r and positive n. */
  lemma NonnegQuotient(m: real, r: real, n: real)
    requires m >= 0.0 && r >= 0.0 && n > 0.0
    ensures m * (r / n) >= 0.0
  {
  }

  /** Equal terminal voltages drive no current, and nothing is transferred or lost. */
  lemma ACLineEqualVoltages(v: Complex, r: real, x: real)
    requires Complex(r, x) != Zero
    ensures ACLineCompute(v, v, r, x) == ACLineOut(Zero, Zero, Zero, Zero, Zero)
  {
    NoDropNoFlow(v, Admittance(r, x));
  }

  lemma NoDropNoFlow(v: Complex, y: Complex)
    ensures ACLineFromAdmittance(v, v, y) == ACLineOut(Zero, Zero, Zero, Zero, Zero)
  {
  }

  /**
   * One row group of ACline.compute_partials: the derivatives of a complex output pair
   * (real part in .re, imaginary part in .im) with respect to R, X, Vr_in, Vi_in, Vr_out, Vi_out.
   */
  datatype Partials6 = Partials6(dR: Complex, dX: Complex,
                                 dVrIn: Complex, dViIn: Complex,
                                 dVrOut: Complex, dViOut: Complex)

  /** Everything ACline.compute_partials writes. */
  datatype ACLineJac = ACLineJac(iIn: Partials6, iOut: Partials6,
                                 sIn: Partials6, sOut: Partials6, sLoss: Partials6)

  function NegPartials(p: Partials6): Partials6
  {
    Partials6(Neg(p.dR), Neg(p.dX), Neg(p.dVrIn), Neg(p.dViIn), Neg(p.dVrOut), Neg(p.dViOut))
  }

  function AddPartials(p: Partials6, q: Partials6): Partials6
  {
    Partials6(Add(p.dR, q.dR), Add(p.dX, q.dX), Add(p.dVrIn, q.dVrIn), Add(p.dViIn, q.dViIn),
              Add(p.dVrOut, q.dVrOut), Add(p.dViOut, q.dViOut))
  }

  /** Exchanges the roles of the two terminals in a row group. */
  function SwapTerminals(p: Partials6): Partials6
  {
    Partials6(p.dR, p.dX, p.dVrOut, p.dViOut, p.dVrIn, p.dViIn)
  }

  /**
   * The partials of the power entering at terminal v, the other terminal being w, laid out
   * as if v were the in terminal; yc is conj(Y).
   */
  function TerminalPowerPartials(v: Complex, w: Complex, yc: Complex): Partials6
  {
    var yc2 := Mul(yc, yc);
    Partials6(Mul(Mul(Neg(v), Conj(Sub(v, w))), yc2),
              Mul(Mul(Mul(J, v), Conj(Sub(v, w))), yc2),
              Mul(yc, Sub(Real(2.0 * v.re), Conj(w))),
              Mul(yc, Sub(Real(2.0 * v.im), Mul(J, Conj(w)))),
              Mul(Neg(v), yc),
              Mul(Mul(v, yc), J))
  }

  /** The partials of the current entering the line, for a line of series admittance y. */
  function CurrentInPartials(vIn: Complex, vOut: Complex, y: Complex): Partials6
  {
    var d := Sub(vIn, vOut);
    var y2 := Mul(y, y);
    Partials6(Neg(Mul(d, y2)), Mul(Mul(Neg(J), d), y2), y, Mul(y, J), Neg(y), Neg(Mul(y, J)))
  }

  /** ACline.compute_partials for a line of series admittance y. */
  function ACLinePartialsFromAdmittance(vIn: Complex, vOut: Complex, y: Complex): ACLineJac
  {
    var iIn := CurrentInPartials(vIn, vOut, y);
    var sIn := TerminalPowerPartials(vIn, vOut, Conj(y));
    var sOut := SwapTerminals(TerminalPowerPartials(vOut, vIn, Conj(y)));
    ACLineJac(iIn, NegPartials(iIn), sIn, sOut, AddPartials(sIn, sOut))
  }

  /** ACline.compute_partials for one operating point. */
  function ACLinePartials(vIn: Complex, vOut: Complex, r: real, x: real): ACLineJac
    requires Complex(r, x) != Zero
  {
    ACLinePartialsFromAdmittance(vIn, vOut, Admittance(r, x))
  }

  /** The change of an output pair along a voltage direction (a at the in terminal, b at the out terminal). */
  function VoltageDirectional(p: Partials6, a: Complex, b: Complex): Complex
  {
    Add(Add(Scale(a.re, p.dVrIn), Scale(a.im, p.dViIn)), Add(Scale(b.re, p.dVrOut), Scale(b.im, p.dViOut)))
  }

  /**
   * The voltage columns of the current partials are exact: currents are linear in the terminal
   * voltages, so moving the voltages by h(a, b) moves each current by exactly h times its
   * directional derivative built from J[., Vr_in], J[., Vi_in], J[., Vr_out], J[., Vi_out].
   */
  lemma ACLineCurrentVoltagePartialsExact(vIn: Complex, vOut: Complex, y: Complex,
                                          a: Complex, b: Complex, h: real)
    ensures var o := ACLineFromAdmittance(vIn, vOut, y);
            var o2 := ACLineFromAdmittance(Add(vIn, Scale(h, a)), Add(vOut, Scale(h, b)), y);
            var p := CurrentInPartials(vIn, vOut, y);
            o2.iIn == Add(o.iIn, Scale(h, VoltageDirectional(p, a, b))) &&
            o2.iOut == Add(o.iOut, Scale(h, VoltageDirectional(NegPartials(p), a, b)))
  {
    var p := CurrentInPartials(vIn, vOut, y);
    CurrentDirectional(vIn, vOut, y, a, b);
    ShiftedDrop(vIn, vOut, a, b, h);
    ShiftedDrop(vOut, vIn, b, a, h);
    LinearStep(y, Sub(vIn, vOut), Sub(a, b), h);
    LinearStep(y, Sub(vOut, vIn), Sub(b, a), h);
  }

  lemma CurrentDirectional(vIn: Complex, vOut: Complex, y: Complex, a: Complex, b: Complex)
    ensures VoltageDirectional(CurrentInPartials(vIn, vOut, y), a, b) == Mul(y, Sub(a, b))
    ensures VoltageDirectional(NegPartials(CurrentInPartials(vIn, vOut, y)), a, b) == Mul(y, Sub(b, a))
  {
  }

  lemma ShiftedDrop(v: Complex, w: Complex, a: Complex, b: Complex, h: real)
    ensures Sub(Add(v, Scale(h, a)), Add(w, Scale(h, b))) == Add(Sub(v, w), Scale(h, Sub(a, b)))
  {
  }

  lemma LinearStep(y: Complex, d: Complex, e: Complex, h: real)
    ensures Mul(y, Add(d, Scale(h, e))) == Add(Mul(y, d), Scale(h, Mul(y, e)))
  {
  }

  /**
   * The voltage columns of the power partials are exact first-order terms: power is quadratic in
   * the terminal voltages, so moving them by h(a, b) moves S_in, S_out and S_loss by h times the
   * directional derivative built from the Vr/Vi partials plus h^2 times an explicit remainder.
   */
  lemma ACLinePowerVoltagePartialsExact(vIn: Complex, vOut: Complex, y: Complex,
                                        a: Complex, b: Complex, h: real)
    ensures var o := ACLineFromAdmittance(vIn, vOut, y);
            var o2 := ACLineFromAdmittance(Add(vIn, Scale(h, a)), Add(vOut, Scale(h, b)), y);
            var jac := ACLinePartialsFromAdmittance(vIn, vOut, y);
            var kIn := Mul(a, Conj(Mul(y, Sub(a, b))));
            var kOut := Mul(b, Conj(Mul(y, Sub(b, a))));
            o2.sIn == Add(Add(o.sIn, Scale(h, VoltageDirectional(jac.sIn, a, b))), Scale(h * h, kIn)) &&
            o2.sOut == Add(Add(o.sOut, Scale(h, VoltageDirectional(jac.sOut, a, b))), Scale(h * h, kOut)) &&
            o2.sLoss == Add(Add(o.sLoss, Scale(h, VoltageDirectional(jac.sLoss, a, b))),
                            Scale(h * h, Add(kIn, kOut)))
  {
    var o := ACLineFromAdmittance(vIn, vOut, y);
    var o2 := ACLineFromAdmittance(Add(vIn, Scale(h, a)), Add(vOut, Scale(h, b)), y);
    var jac := ACLinePartialsFromAdmittance(vIn, vOut, y);
    ACLineCurrentVoltagePartialsExact(vIn, vOut, y, a, b, h);
    CurrentDirectional(vIn, vOut, y, a, b);
    PowerStep(vIn, o.iIn, a, Mul(y, Sub(a, b)), h);
    PowerStep(vOut, o.iOut, b, Mul(y, Sub(b, a)), h);
    PowerDirectional(vIn, vOut, y, a, b);
    PowerDirectional(vOut, vIn, y, b, a);
    SwapDirectional(TerminalPowerPartials(vOut, vIn, Conj(y)), a, b);
    AddDirectional(jac.sIn, jac.sOut, a, b);
    SumOfSteps(o.sIn, VoltageDirectional(jac.sIn, a, b), Mul(a, Conj(Mul(y, Sub(a, b)))),
               o.sOut, VoltageDirectional(jac.sOut, a, b), Mul(b, Conj(Mul(y, Sub(b, a)))), h);
  }

  /** The product rule the power partials follow along a voltage direction. */
  lemma PowerDirectional(v: Complex, w: Complex, y: Complex, a: Complex, b: Complex)
    ensures VoltageDirectional(TerminalPowerPartials(v, w, Conj(y)), a, b)
         == Add(Mul(a, Conj(Mul(y, Sub(v, w)))), Mul(v, Conj(Mul(y, Sub(a, b)))))
  {
    var yc := Conj(y);
    var p := TerminalPowerPartials(v, w, yc);
    var x1 := Sub(Real(2.0 * v.re), Conj(w));
    var x2 := Sub(Real(2.0 * v.im), Mul(J, Conj(w)));
    var own := Sub(Add(Mul(a, Conj(v)), Mul(v, Conj(a))), Mul(a, Conj(w)));
    calc {
      Add(Scale(a.re, p.dVrIn), Scale(a.im, p.dViIn));
      { MulScaleComm(yc, a.re, x1); MulScaleComm(yc, a.im, x2); }
      Add(Mul(yc, Scale(a.re, x1)), Mul(yc, Scale(a.im, x2)));
      { MulAddDistrib(yc, Scale(a.re, x1), Scale(a.im, x2)); }
      Mul(yc, Add(Scale(a.re, x1), Scale(a.im, x2)));
      { OwnColumns(v, w, a); }
      Mul(yc, own);
    }
    OtherColumns(v, yc, b);
    ProductRuleRearranged(v, w, y, a, b);
  }

  /** The own-terminal voltage columns along a: a conj(v) + v conj(a) - a conj(w), before the factor conj(Y). */
  lemma OwnColumns(v: Complex, w: Complex, a: Complex)
    ensures Add(Scale(a.re, Sub(Real(2.0 * v.re), Conj(w))), Scale(a.im, Sub(Real(2.0 * v.im), Mul(J, Conj(w)))))
         == Sub(Add(Mul(a, Conj(v)), Mul(v, Conj(a))), Mul(a, Conj(w)))
  {
    ScaleSubPair(a.re, Real(2.0 * v.re), Conj(w), a.im, Real(2.0 * v.im), Mul(J, Conj(w)));
    OwnDoubled(v, a);
    RotatedSum(a, Conj(w));
  }

  lemma OwnDoubled(v: Complex, a: Complex)
    ensures Add(Scale(a.re, Real(2.0 * v.re)), Scale(a.im, Real(2.0 * v.im)))
         == Add(Mul(a, Conj(v)), Mul(v, Conj(a)))
  {
  }

  lemma ScaleSubPair(k: real, p: Complex, q: Complex, m: real, r: Complex, s: Complex)
    ensures Add(Scale(k, Sub(p, q)), Scale(m, Sub(r, s)))
         == Sub(Add(Scale(k, p), Scale(m, r)), Add(Scale(k, q), Scale(m, s)))
  {
  }

  /** The other-terminal voltage columns along b: -v conj(Y) conj(b). */
  lemma OtherColumns(v: Complex, yc: Complex, b: Complex)
    ensures Add(Scale(b.re, Mul(Neg(v), yc)), Scale(b.im, Mul(Mul(v, yc), J)))
         == Neg(Mul(v, Mul(yc, Conj(b))))
  {
  }

  lemma ProductRuleRearranged(v: Complex, w: Complex, y: Complex, a: Complex, b: Complex)
    ensures Sub(Mul(Conj(y), Sub(Add(Mul(a, Conj(v)), Mul(v, Conj(a))), Mul(a, Conj(w)))),
                Mul(v, Mul(Conj(y), Conj(b))))
         == Add(Mul(a, Conj(Mul(y, Sub(v, w)))), Mul(v, Conj(Mul(y, Sub(a, b)))))
  {
    var yc := Conj(y);
    var acv, acw, vca, vcb := Mul(a, Conj(v)), Mul(a, Conj(w)), Mul(v, Conj(a)), Mul(v, Conj(b));
    calc {
      Add(Mul(a, Conj(Mul(y, Sub(v, w)))), Mul(v, Conj(Mul(y, Sub(a, b)))));
      { ConjMul(y, Sub(v, w)); ConjMul(y, Sub(a, b)); ConjSub(v, w); ConjSub(a, b); }
      Add(Mul(a, Mul(yc, Sub(Conj(v), Conj(w)))), Mul(v, Mul(yc, Sub(Conj(a), Conj(b)))));
      { MulLeftComm(a, yc, Sub(Conj(v), Conj(w))); MulLeftComm(v, yc, Sub(Conj(a), Conj(b))); }
      Add(Mul(yc, Mul(a, Sub(Conj(v), Conj(w)))), Mul(yc, Mul(v, Sub(Conj(a), Conj(b)))));
      { MulSubDistrib(a, Conj(v), Conj(w)); MulSubDistrib(v, Conj(a), Conj(b)); }
      Add(Mul(yc, Sub(acv, acw)), Mul(yc, Sub(vca, vcb)));
      { MulAddDistrib(yc, Sub(acv, acw), Sub(vca, vcb)); }
      Mul(yc, Add(Sub(acv, acw), Sub(vca, vcb)));
      { assert Add(Sub(acv, acw), Sub(vca, vcb)) == Sub(Sub(Add(acv, vca), acw), vcb); }
      Mul(yc, Sub(Sub(Add(acv, vca), acw), vcb));
      { MulSubDistrib(yc, Sub(Add(acv, vca), acw), vcb); MulLeftComm(yc, v, Conj(b)); }
      Sub(Mul(yc, Sub(Add(acv, vca), acw)), Mul(v, Mul(yc, Conj(b))));
    }
  }

  lemma SwapDirectional(p: Partials6, a: Complex, b: Complex)
    ensures VoltageDirectional(SwapTerminals(p), a, b) == VoltageDirectional(p, b, a)
  {
  }

  lemma AddDirectional(p: Partials6, q: Partials6, a: Complex, b: Complex)
    ensures VoltageDirectional(AddPartials(p, q), a, b)
         == Add(VoltageDirectional(p, a, b), VoltageDirectional(q, a, b))
  {
  }

  lemma SumOfSteps(s: Complex, ds: Complex, ks: Complex, t: Complex, dt: Complex, kt: Complex, h: real)
    ensures Add(Add(Add(s, Scale(h, ds)), Scale(h * h, ks)), Add(Add(t, Scale(h, dt)), Scale(h * h, kt)))
         == Add(Add(Add(s, t), Scale(h, Add(ds, dt))), Scale(h * h, Add(ks, kt)))
  {
  }

  /**
   * Moving the impedance from z to z + h u moves the admittance by -h u Y Y' (Y' the new
   * admittance), and Y' z is 1 - h u Y'; the latter tends to 1 as h does.
   */
  lemma AdmittanceShift(z: Complex, y: Complex, u: Complex, h: real, y2: Complex)
    requires Mul(z, y) == One
    requires Mul(Add(z, Scale(h, u)), y2) == One
    ensures Mul(y2, z) == Sub(One, Scale(h, Mul(u, y2)))
    ensures Sub(y2, y) == Neg(Scale(h, Mul(u, Mul(y, y2))))
  {
    var z2 := Add(z, Scale(h, u));
    var f := Sub(One, Scale(h, Mul(u, y2)));
    assert z == Sub(z2, Scale(h, u));
    calc {
      Mul(y2, z);
      { MulSubDistrib(y2, z2, Scale(h, u)); }
      Sub(Mul(y2, z2), Mul(y2, Scale(h, u)));
      { MulComm(y2, z2); MulScaleComm(y2, h, u); MulComm(y2, u); }
      f;
    }
    calc {
      y2;
      { MulOne(y2); }
      Mul(y2, One);
      Mul(y2, Mul(z, y));
      { MulAssoc(y2, z, y); }
      Mul(f, y);
      { MulComm(f, y); }
      Mul(y, f);
      { MulSubDistrib(y, One, Scale(h, Mul(u, y2))); MulOne(y); }
      Sub(y, Mul(y, Scale(h, Mul(u, y2))));
      { MulScaleComm(y, h, Mul(u, y2)); MulLeftComm(y, u, y2); }
      Sub(y, Scale(h, Mul(u, Mul(y, y2))));
    }
  }

  /** The R (u = 1) or X (u = j) column of the current partials: -u dV Y^2. */
  function ImpedanceColumn(p: Partials6, alongX: bool): Complex
  {
    if alongX then p.dX else p.dR
  }

  /** The unit impedance step: 1 for R, j for X. */
  function ImpedanceUnit(alongX: bool): Complex
  {
    if alongX then J else One
  }

  lemma CurrentImpedanceColumn(vIn: Complex, vOut: Complex, y: Complex, alongX: bool)
    ensures ImpedanceColumn(CurrentInPartials(vIn, vOut, y), alongX)
         == Neg(Mul(ImpedanceUnit(alongX), Mul(Sub(vIn, vOut), Mul(y, y))))
  {
    var d := Sub(vIn, vOut);
    if alongX {
      MulAssoc(Neg(J), d, Mul(y, y));
    } else {
      MulOne(Mul(d, Mul(y, y)));
    }
  }

  /**
   * Power columns follow the current columns by the product rule: for R and X only the
   * current moves, so d S_in = V_in conj(d I_in) and d S_out = V_out conj(d I_out).
   */
  lemma PowerImpedanceColumn(vIn: Complex, vOut: Complex, y: Complex, alongX: bool)
    ensures var jac := ACLinePartialsFromAdmittance(vIn, vOut, y);
            ImpedanceColumn(jac.sIn, alongX) == Mul(vIn, Conj(ImpedanceColumn(jac.iIn, alongX))) &&
            ImpedanceColumn(jac.sOut, alongX) == Mul(vOut, Conj(ImpedanceColumn(jac.iOut, alongX)))
  {
    var yc := Conj(y);
    var yc2 := Mul(yc, yc);
    CurrentImpedanceColumn(vIn, vOut, y, alongX);
    TerminalImpedanceColumn(vIn, vOut, y, alongX);
    TerminalImpedanceColumn(vOut, vIn, y, alongX);
    var u := ImpedanceUnit(alongX);
    var d := Sub(vIn, vOut);
    assert ImpedanceColumn(NegPartials(CurrentInPartials(vIn, vOut, y)), alongX)
        == Neg(ImpedanceColumn(CurrentInPartials(vIn, vOut, y), alongX));
    assert Neg(Neg(Mul(u, Mul(d, Mul(y, y))))) == Neg(Mul(u, Mul(Sub(vOut, vIn), Mul(y, y)))) by {
      NegInside(u, d, Mul(y, y));
    }
  }

  lemma NegInside(u: Complex, d: Complex, w: Complex)
    ensures Neg(Neg(Mul(u, Mul(d, w)))) == Neg(Mul(u, Mul(Neg(d), w)))
  {
  }

  /** The R or X column of the power at terminal v is v conj(-u (v - w) Y^2). */
  lemma TerminalImpedanceColumn(v: Complex, w: Complex, y: Complex, alongX: bool)
    ensures ImpedanceColumn(TerminalPowerPartials(v, w, Conj(y)), alongX)
         == Mul(v, Conj(Neg(Mul(ImpedanceUnit(alongX), Mul(Sub(v, w), Mul(y, y))))))
  {
    var u := ImpedanceUnit(alongX);
    var cd := Conj(Sub(v, w));
    var yc2 := Mul(Conj(y), Conj(y));
    ConjColumn(u, Sub(v, w), y);
    if alongX {
      ReactanceColumn(v, cd, yc2);
    } else {
      ResistanceColumn(v, cd, yc2);
    }
  }

  lemma ConjColumn(u: Complex, d: Complex, y: Complex)
    ensures Conj(Neg(Mul(u, Mul(d, Mul(y, y))))) == Neg(Mul(Conj(u), Mul(Conj(d), Mul(Conj(y), Conj(y)))))
  {
    ConjMul(u, Mul(d, Mul(y, y)));
    ConjMul(d, Mul(y, y));
    ConjMul(y, y);
  }

  lemma ReactanceColumn(v: Complex, cd: Complex, yc2: Complex)
    ensures Mul(v, Neg(Mul(Conj(J), Mul(cd, yc2)))) == Mul(Mul(Mul(J, v), cd), yc2)
  {
    calc {
      Mul(v, Neg(Mul(Conj(J), Mul(cd, yc2))));
      { assert Neg(Mul(Conj(J), Mul(cd, yc2))) == Mul(J, Mul(cd, yc2)); }
      Mul(v, Mul(J, Mul(cd, yc2)));
      { MulLeftComm(v, J, Mul(cd, yc2)); }
      Mul(J, Mul(v, Mul(cd, yc2)));
      { MulAssoc(v, cd, yc2); }
      Mul(J, Mul(Mul(v, cd), yc2));
      { MulAssoc(J, Mul(v, cd), yc2); }
      Mul(Mul(J, Mul(v, cd)), yc2);
      { MulAssoc(J, v, cd); }
      Mul(Mul(Mul(J, v), cd), yc2);
    }
  }

  lemma ResistanceColumn(v: Complex, cd: Complex, yc2: Complex)
    ensures Mul(v, Neg(Mul(Conj(One), Mul(cd, yc2)))) == Mul(Mul(Neg(v), cd), yc2)
  {
    calc {
      Mul(v, Neg(Mul(Conj(One), Mul(cd, yc2))));
      { MulOne(Mul(cd, yc2)); }
      Mul(v, Neg(Mul(cd, yc2)));
      { assert Mul(v, Neg(Mul(cd, yc2))) == Mul(Neg(v), Mul(cd, yc2)); }
      Mul(Neg(v), Mul(cd, yc2));
      { MulAssoc(Neg(v), cd, yc2); }
      Mul(Mul(Neg(v), cd), yc2);
    }
  }

  /**
   * Moving the impedance by h u moves a current Y dV by h times the column -u dV Y^2 scaled by
   * f = Y' z, where f tends to 1 with h.
   */
  lemma CurrentShift(d: Complex, z: Complex, y: Complex, u: Complex, h: real, y2: Complex)
    requires Mul(z, y) == One
    requires Mul(Add(z, Scale(h, u)), y2) == One
    ensures Mul(y2, d) == Add(Mul(y, d), Scale(h, Mul(Neg(Mul(u, Mul(d, Mul(y, y)))), Mul(y2, z))))
  {
    AdmittanceShift(z, y, u, h, y2);
    var f := Mul(y2, z);
    var q := Mul(u, Mul(d, Mul(y, y2)));
    assert Mul(y, f) == y2 by {
      MulLeftComm(y, y2, z);
      MulComm(y, z);
      MulOne(y2);
    }
    calc {
      Mul(Neg(Mul(u, Mul(d, Mul(y, y)))), f);
      { NegMul(Mul(u, Mul(d, Mul(y, y))), f); }
      Neg(Mul(Mul(u, Mul(d, Mul(y, y))), f));
      { MulAssoc(u, Mul(d, Mul(y, y)), f); MulAssoc(d, Mul(y, y), f); MulAssoc(y, y, f); }
      Neg(Mul(u, Mul(d, Mul(y, Mul(y, f)))));
      Neg(q);
    }
    calc {
      Mul(y2, d);
      Mul(Add(y, Sub(y2, y)), d);
      { MulComm(Add(y, Sub(y2, y)), d); MulAddDistrib(d, y, Sub(y2, y)); MulComm(d, y); }
      Add(Mul(y, d), Mul(d, Sub(y2, y)));
      Add(Mul(y, d), Mul(d, Neg(Scale(h, Mul(u, Mul(y, y2))))));
      { ScaledNegProduct(d, h, u, Mul(y, y2)); }
      Add(Mul(y, d), Scale(h, Neg(q)));
    }
  }

  lemma NegMul(a: Complex, b: Complex)
    ensures Mul(Neg(a), b) == Neg(Mul(a, b))
  {
  }

  lemma ScaledNegProduct(d: Complex, h: real, u: Complex, w: Complex)
    ensures Mul(d, Neg(Scale(h, Mul(u, w)))) == Scale(h, Neg(Mul(u, Mul(d, w))))
  {
    calc {
      Mul(d, Neg(Scale(h, Mul(u, w))));
      { assert Neg(Scale(h, Mul(u, w))) == Scale(h, Neg(Mul(u, w))); }
      Mul(d, Scale(h, Neg(Mul(u, w))));
      { MulScaleComm(d, h, Neg(Mul(u, w))); }
      Scale(h, Mul(d, Neg(Mul(u, w))));
      { assert Mul(d, Neg(Mul(u, w))) == Neg(Mul(d, Mul(u, w))); MulLeftComm(d, u, w); }
      Scale(h, Neg(Mul(u, Mul(d, w))));
    }
  }

  /** The power at a terminal whose current moves by h c f. */
  lemma PowerShift(v: Complex, i: Complex, c: Complex, f: Complex, h: real)
    ensures Power(v, Add(i, Scale(h, Mul(c, f)))) == Add(Power(v, i), Scale(h, Mul(Mul(v, Conj(c)), Conj(f))))
  {
    calc {
      Power(v, Add(i, Scale(h, Mul(c, f))));
      { assert Conj(Add(i, Scale(h, Mul(c, f)))) == Add(Conj(i), Scale(h, Conj(Mul(c, f)))); }
      Mul(v, Add(Conj(i), Scale(h, Conj(Mul(c, f)))));
      { MulAddDistrib(v, Conj(i), Scale(h, Conj(Mul(c, f)))); }
      Add(Power(v, i), Mul(v, Scale(h, Conj(Mul(c, f)))));
      { MulScaleComm(v, h, Conj(Mul(c, f))); }
      Add(Power(v, i), Scale(h, Mul(v, Conj(Mul(c, f)))));
      { ConjMul(c, f); MulAssoc(v, Conj(c), Conj(f)); }
      Add(Power(v, i), Scale(h, Mul(Mul(v, Conj(c)), Conj(f))));
    }
  }

  lemma SumShift(s: Complex, a: Complex, t: Complex, b: Complex, g: Complex, h: real)
    ensures Add(Add(s, Scale(h, Mul(a, g))), Add(t, Scale(h, Mul(b, g))))
         == Add(Add(s, t), Scale(h, Mul(Add(a, b), g)))
  {
    MulComm(Add(a, b), g);
    MulAddDistrib(g, a, b);
    MulComm(a, g);
    MulComm(b, g);
  }

  /**
   * The R and X columns of ACline.compute_partials are derivatives: moving the impedance by h
   * (along R, or along X when alongX) moves every output by h times its column, up to the factor
   * f = Y' z (conj(f) for powers) that tends to 1 with h.
   */
  lemma ImpedanceColumnsExact(vIn: Complex, vOut: Complex, z: Complex, y: Complex,
                              alongX: bool, h: real, y2: Complex)
    requires Mul(z, y) == One
    requires Mul(Add(z, Scale(h, ImpedanceUnit(alongX))), y2) == One
    ensures var o := ACLineFromAdmittance(vIn, vOut, y);
            var o2 := ACLineFromAdmittance(vIn, vOut, y2);
            var jac := ACLinePartialsFromAdmittance(vIn, vOut, y);
            var f := Mul(y2, z);
            o2.iIn == Add(o.iIn, Scale(h, Mul(ImpedanceColumn(jac.iIn, alongX), f))) &&
            o2.iOut == Add(o.iOut, Scale(h, Mul(ImpedanceColumn(jac.iOut, alongX), f))) &&
            o2.sIn == Add(o.sIn, Scale(h, Mul(ImpedanceColumn(jac.sIn, alongX), Conj(f)))) &&
            o2.sOut == Add(o.sOut, Scale(h, Mul(ImpedanceColumn(jac.sOut, alongX), Conj(f)))) &&
            o2.sLoss == Add(o.sLoss, Scale(h, Mul(ImpedanceColumn(jac.sLoss, alongX), Conj(f))))
  {
    var u := ImpedanceUnit(alongX);
    var o := ACLineFromAdmittance(vIn, vOut, y);
    var jac := ACLinePartialsFromAdmittance(vIn, vOut, y);
    var f := Mul(y2, z);
    var cIn := ImpedanceColumn(jac.iIn, alongX);
    var cOut := ImpedanceColumn(jac.iOut, alongX);
    CurrentImpedanceColumn(vIn, vOut, y, alongX);
    CurrentShift(Sub(vIn, vOut), z, y, u, h, y2);
    assert cOut == Neg(Mul(u, Mul(Sub(vOut, vIn), Mul(y, y)))) by {
      NegInside(u, Sub(vIn, vOut), Mul(y, y));
    }
    CurrentShift(Sub(vOut, vIn), z, y, u, h, y2);
    PowerImpedanceColumn(vIn, vOut, y, alongX);
    PowerShift(vIn, o.iIn, cIn, f, h);
    PowerShift(vOut, o.iOut, cOut, f, h);
    SumShift(o.sIn, ImpedanceColumn(jac.sIn, alongX), o.sOut, ImpedanceColumn(jac.sOut, alongX), Conj(f), h);
  }

  /**
   * ACline.compute_partials' R and X columns for one operating point: changing R (or X when
   * alongX) by h changes each output by h times its column times 1 - h u Y' (conjugated for
   * powers), with Y' the admittance after the change; the factor tends to 1 with h.
   */
  lemma ACLineImpedancePartialsExact(vIn: Complex, vOut: Complex, r: real, x: real, alongX: bool, h: real)
    requires Complex(r, x) != Zero
    requires Add(Complex(r, x), Scale(h, ImpedanceUnit(alongX))) != Zero
    ensures var z2 := Add(Complex(r, x), Scale(h, ImpedanceUnit(alongX)));
            var o := ACLineCompute(vIn, vOut, r, x);
            var o2 := ACLineCompute(vIn, vOut, z2.re, z2.im);
            var jac := ACLinePartials(vIn, vOut, r, x);
            var f := Sub(One, Scale(h, Mul(ImpedanceUnit(alongX), Admittance(z2.re, z2.im))));
            o2.iIn == Add(o.iIn, Scale(h, Mul(ImpedanceColumn(jac.iIn, alongX), f))) &&
            o2.iOut == Add(o.iOut, Scale(h, Mul(ImpedanceColumn(jac.iOut, alongX), f))) &&
            o2.sIn == Add(o.sIn, Scale(h, Mul(ImpedanceColumn(jac.sIn, alongX), Conj(f)))) &&
            o2.sOut == Add(o.sOut, Scale(h, Mul(ImpedanceColumn(jac.sOut, alongX), Conj(f)))) &&
            o2.sLoss == Add(o.sLoss, Scale(h, Mul(ImpedanceColumn(jac.sLoss, alongX), Conj(f))))
  {
    var z := Complex(r, x);
    var z2 := Add(z, Scale(h, ImpedanceUnit(alongX)));
    var y := Admittance(r, x);
    var y2 := Admittance(z2.re, z2.im);
    assert Complex(z2.re, z2.im) == z2;
    AdmittanceShift(z, y, ImpedanceUnit(alongX), h, y2);
    ImpedanceColumnsExact(vIn, vOut, z, y, alongX, h, y2);
  }

  /** Everything DCline.compute writes. */
  datatype DCLineOut = DCLineOut(iIn: real, iOut: real, pIn: real, pOut: real, pLoss: real)

  /** The outputs of DCline.compute for a line of conductance y. */
  function DCLineFromAdmittance(vIn: real, vOut: real, y: real): DCLineOut
  {
    var iIn := y * (vIn - vOut);
    var iOut := y * (vOut - vIn);
    var pIn := vIn * iIn;
    var pOut := vOut * iOut;
    DCLineOut(iIn, iOut, pIn, pOut, pIn + pOut)
  }

  /** DCline.compute for one operating point; Y = 1/R. */
  function DCLineCompute(vIn: real, vOut: real, r: real): (o: DCLineOut)
    requires r != 0.0
    ensures r * o.iIn == vIn - vOut
    ensures o.iOut == -o.iIn
    ensures o.pIn == vIn * o.iIn && o.pOut == vOut * o.iOut
  {
    var y := 1.0 / r;
    assert r * (y * (vIn - vOut)) == (r * y) * (vIn - vOut);
    DCLineFromAdmittance(vIn, vOut, y)
  }

  /**
   * The loss of a DC line is the Joule loss R I^2 = (V_in - V_out)^2 / R, so a line with
   * positive resistance never produces power.
   */
  lemma DCLineLoss(vIn: real, vOut: real, r: real)
    requires r != 0.0
    ensures var o := DCLineCompute(vIn, vOut, r);
            o.pLoss == o.pIn + o.pOut &&
            o.pLoss == r * Sq(o.iIn) &&
            o.pLoss == Sq(vIn - vOut) / r &&
            (r > 0.0 ==> o.pLoss >= 0.0)
  {
    var o := DCLineCompute(vIn, vOut, r);
    var i := o.iIn;
    var d := vIn - vOut;
    assert o.pLoss == d * i;
    assert d * i == r * Sq(i) by { assert d == r * i; }
    assert r * Sq(i) * r == Sq(d) by { assert Sq(d) == (r * i) * (r * i); }
    Quotient(r * Sq(i), Sq(d), r);
    SqSign(i);
    if r > 0.0 {
      assert r * Sq(i) >= 0.0;
    }
  }

  /** One row of DCline.compute_partials: the derivatives with respect to R, V_in and V_out. */
  datatype DCRow = DCRow(dR: real, dVIn: real, dVOut: real)

  /** Everything DCline.compute_partials writes. */
  datatype DCLineJac = DCLineJac(iIn: DCRow, iOut: DCRow, pIn: DCRow, pOut: DCRow, pLoss: DCRow)

  /** DCline.compute_partials for a line of conductance y. */
  function DCLinePartialsFromAdmittance(vIn: real, vOut: real, y: real): DCLineJac
  {
    var iIn := DCRow(-(vIn - vOut) * (y * y), y, -y);
    var pIn := DCRow(-vIn * (vIn - vOut) * (y * y), y * (2.0 * vIn - vOut), -vIn * y);
    var pOut := DCRow(-vOut * (vOut - vIn) * (y * y), -vOut * y, y * (2.0 * vOut - vIn));
    DCLineJac(iIn, DCRow(-iIn.dR, -iIn.dVIn, -iIn.dVOut), pIn, pOut,
              DCRow(pIn.dR + pOut.dR, pIn.dVIn + pOut.dVIn, pIn.dVOut + pOut.dVOut))
  }

  /** DCline.compute_partials for one operating point. */
  function DCLinePartials(vIn: real, vOut: real, r: real): DCLineJac
    requires r != 0.0
  {
    DCLinePartialsFromAdmittance(vIn, vOut, 1.0 / r)
  }

  /** The change of a DC row along the voltage direction (a, b). */
  function DCDirectional(row: DCRow, a: real, b: real): real
  {
    a * row.dVIn + b * row.dVOut
  }

  /**
   * The voltage columns of DCline.compute_partials are exact first-order terms: moving the
   * voltages by (a, b) moves each current by exactly its directional derivative, and each power
   * by that plus a remainder quadratic in (a, b).
   */
  lemma DCLineVoltagePartialsExact(vIn: real, vOut: real, y: real, a: real, b: real)
    ensures var o := DCLineFromAdmittance(vIn, vOut, y);
            var o2 := DCLineFromAdmittance(vIn + a, vOut + b, y);
            var jac := DCLinePartialsFromAdmittance(vIn, vOut, y);
            o2.iIn == o.iIn + DCDirectional(jac.iIn, a, b) &&
            o2.iOut == o.iOut + DCDirectional(jac.iOut, a, b) &&
            o2.pIn == o.pIn + DCDirectional(jac.pIn, a, b) + DCPowerRemainder(y, a, b) &&
            o2.pOut == o.pOut + DCDirectional(jac.pOut, a, b) + DCPowerRemainder(y, b, a) &&
            o2.pLoss == o.pLoss + DCDirectional(jac.pLoss, a, b) + DCLossRemainder(y, a, b)
  {
    DCCurrentInStep(vIn, vOut, y, a, b);
    DCCurrentOutStep(vIn, vOut, y, a, b);
    DCPowerInStep(vIn, vOut, y, a, b);
    DCPowerOutStep(vIn, vOut, y, a, b);
    DCLossStep(vIn, vOut, y, a, b);
  }

  lemma DCCurrentInStep(vIn: real, vOut: real, y: real, a: real, b: real)
    ensures var o := DCLineFromAdmittance(vIn, vOut, y);
            var o2 := DCLineFromAdmittance(vIn + a, vOut + b, y);
            var jac := DCLinePartialsFromAdmittance(vIn, vOut, y);
            o2.iIn == o.iIn + DCDirectional(jac.iIn, a, b)
  {
    var o := DCLineFromAdmittance(vIn, vOut, y);
    var o2 := DCLineFromAdmittance(vIn + a, vOut + b, y);
    var jac := DCLinePartialsFromAdmittance(vIn, vOut, y);
    DCCurrentRowStep(y, vIn, vOut, a, b, o.iIn, o2.iIn, jac.iIn.dVIn, jac.iIn.dVOut,
                     DCDirectional(jac.iIn, a, b));
  }

  lemma DCCurrentOutStep(vIn: real, vOut: real, y: real, a: real, b: real)
    ensures var o := DCLineFromAdmittance(vIn, vOut, y);
            var o2 := DCLineFromAdmittance(vIn + a, vOut + b, y);
            var jac := DCLinePartialsFromAdmittance(vIn, vOut, y);
            o2.iOut == o.iOut + DCDirectional(jac.iOut, a, b)
  {
    var o := DCLineFromAdmittance(vIn, vOut, y);
    var o2 := DCLineFromAdmittance(vIn + a, vOut + b, y);
    var jac := DCLinePartialsFromAdmittance(vIn, vOut, y);
    DCCurrentRowStep(y, vOut, vIn, b, a, o.iOut, o2.iOut, jac.iOut.dVOut, jac.iOut.dVIn,
                     DCDirectional(jac.iOut, a, b));
  }

  lemma DCPowerInStep(vIn: real, vOut: real, y: real, a: real, b: real)
    ensures var o := DCLineFromAdmittance(vIn, vOut, y);
            var o2 := DCLineFromAdmittance(vIn + a, vOut + b, y);
            var jac := DCLinePartialsFromAdmittance(vIn, vOut, y);
            o2.pIn == o.pIn + DCDirectional(jac.pIn, a, b) + DCPowerRemainder(y, a, b)
  {
    var o := DCLineFromAdmittance(vIn, vOut, y);
    var o2 := DCLineFromAdmittance(vIn + a, vOut + b, y);
    var jac := DCLinePartialsFromAdmittance(vIn, vOut, y);
    DCPowerRowStep(y, vIn, vOut, a, b, o.pIn, o2.pIn, jac.pIn.dVIn, jac.pIn.dVOut,
                   DCDirectional(jac.pIn, a, b), DCPowerRemainder(y, a, b));
  }

  lemma DCPowerOutStep(vIn: real, vOut: real, y: real, a: real, b: real)
    ensures var o := DCLineFromAdmittance(vIn, vOut, y);
            var o2 := DCLineFromAdmittance(vIn + a, vOut + b, y);
            var jac := DCLinePartialsFromAdmittance(vIn, vOut, y);
            o2.pOut == o.pOut + DCDirectional(jac.pOut, a, b) + DCPowerRemainder(y, b, a)
  {
    var o := DCLineFromAdmittance(vIn, vOut, y);
    var o2 := DCLineFromAdmittance(vIn + a, vOut + b, y);
    var jac := DCLinePartialsFromAdmittance(vIn, vOut, y);
    DCPowerRowStep(y, vOut, vIn, b, a, o.pOut, o2.pOut, jac.pOut.dVOut, jac.pOut.dVIn,
                   DCDirectional(jac.pOut, a, b), DCPowerRemainder(y, b, a));
  }

  lemma DCLossStep(vIn: real, vOut: real, y: real, a: real, b: real)
    ensures var o := DCLineFromAdmittance(vIn, vOut, y);
            var o2 := DCLineFromAdmittance(vIn + a, vOut + b, y);
            var jac := DCLinePartialsFromAdmittance(vIn, vOut, y);
            o2.pLoss == o.pLoss + DCDirectional(jac.pLoss, a, b) + DCLossRemainder(y, a, b)
  {
    var o := DCLineFromAdmittance(vIn, vOut, y);
    var o2 := DCLineFromAdmittance(vIn + a, vOut + b, y);
    var jac := DCLinePartialsFromAdmittance(vIn, vOut, y);
    DCPowerInStep(vIn, vOut, y, a, b);
    DCPowerOutStep(vIn, vOut, y, a, b);
    DirectionalSum(a, b, jac.pIn.dVIn, jac.pOut.dVIn, jac.pIn.dVOut, jac.pOut.dVOut,
                   jac.pLoss.dVIn, jac.pLoss.dVOut, DCDirectional(jac.pLoss, a, b),
                   DCDirectional(jac.pIn, a, b), DCDirectional(jac.pOut, a, b));
  }

  lemma DCCurrentRowStep(y: real, v: real, w: real, a: real, b: real,
                         i: real, i2: real, dv: real, dw: real, g: real)
    requires i == y * (v - w) && i2 == y * ((v + a) - (w + b))
    requires dv == y && dw == -y && g == a * dv + b * dw
    ensures i2 == i + g
  {
  }

  lemma DCPowerRowStep(y: real, v: real, w: real, a: real, b: real,
                       p: real, p2: real, dv: real, dw: real, g: real, k: real)
    requires p == v * (y * (v - w)) && p2 == (v + a) * (y * ((v + a) - (w + b)))
    requires dv == y * (2.0 * v - w) && dw == -v * y && g == a * dv + b * dw
    requires k == a * y * (a - b)
    ensures p2 == p + g + k
  {
  }

  lemma DirectionalSum(a: real, b: real, x1: real, x2: real, z1: real, z2: real,
                       s1: real, s2: real, g: real, g1: real, g2: real)
    requires s1 == x1 + x2 && s2 == z1 + z2 && g == a * s1 + b * s2
    requires g1 == a * x1 + b * z1 && g2 == a * x2 + b * z2
    ensures g == g1 + g2
  {
  }

  /** The second-order term of a terminal power along (a, b): a Y (a - b). */
  function DCPowerRemainder(y: real, a: real, b: real): real
  {
    a * y * (a - b)
  }

  /** The second-order term of the loss along (a, b): Y (a - b)^2, the sum of the terminal remainders. */
  function DCLossRemainder(y: real, a: real, b: real): (k: real)
    ensures k == DCPowerRemainder(y, a, b) + DCPowerRemainder(y, b, a)
    ensures y > 0.0 ==> k >= 0.0
  {
    SqSign(a - b);
    y * Sq(a - b)
  }

  /**
   * The R column of DCline.compute_partials is the derivative: changing R by h changes each
   * output by exactly its column times h R/(R + h), a step that tends to h with h.
   */
  lemma DCLineResistancePartialExact(vIn: real, vOut: real, r: real, h: real)
    requires r != 0.0 && r + h != 0.0
    ensures var o := DCLineCompute(vIn, vOut, r);
            var o2 := DCLineCompute(vIn, vOut, r + h);
            var jac := DCLinePartials(vIn, vOut, r);
            var t := h * (r / (r + h));
            o2.iIn == o.iIn + t * jac.iIn.dR &&
            o2.iOut == o.iOut + t * jac.iOut.dR &&
            o2.pIn == o.pIn + t * jac.pIn.dR &&
            o2.pOut == o.pOut + t * jac.pOut.dR &&
            o2.pLoss == o.pLoss + t * jac.pLoss.dR
  {
    DCAdmittanceShift(r, h, 1.0 / r, 1.0 / (r + h), h * (r / (r + h)));
    DCResistanceColumnExact(vIn, vOut, 1.0 / r, 1.0 / (r + h), h * (r / (r + h)));
  }

  /** The R column against two conductances related by y2 = y - t y^2. */
  lemma DCResistanceColumnExact(vIn: real, vOut: real, y: real, y2: real, t: real)
    requires y2 == y - t * (y * y)
    ensures var o := DCLineFromAdmittance(vIn, vOut, y);
            var o2 := DCLineFromAdmittance(vIn, vOut, y2);
            var jac := DCLinePartialsFromAdmittance(vIn, vOut, y);
            o2.iIn == o.iIn + t * jac.iIn.dR &&
            o2.iOut == o.iOut + t * jac.iOut.dR &&
            o2.pIn == o.pIn + t * jac.pIn.dR &&
            o2.pOut == o.pOut + t * jac.pOut.dR &&
            o2.pLoss == o.pLoss + t * jac.pLoss.dR
  {
    DCResistanceInStep(vIn, vOut, y, y2, t);
    DCResistanceOutStep(vIn, vOut, y, y2, t);
    DCResistanceLossStep(vIn, vOut, y, y2, t);
  }

  lemma DCResistanceInStep(vIn: real, vOut: real, y: real, y2: real, t: real)
    requires y2 == y - t * (y * y)
    ensures var o := DCLineFromAdmittance(vIn, vOut, y);
            var o2 := DCLineFromAdmittance(vIn, vOut, y2);
            var jac := DCLinePartialsFromAdmittance(vIn, vOut, y);
            o2.iIn == o.iIn + t * jac.iIn.dR && o2.pIn == o.pIn + t * jac.pIn.dR
  {
    var o := DCLineFromAdmittance(vIn, vOut, y);
    var o2 := DCLineFromAdmittance(vIn, vOut, y2);
    var jac := DCLinePartialsFromAdmittance(vIn, vOut, y);
    DCResistanceRowStep(y, y2, t, vIn, vOut, o.iIn, o2.iIn, jac.iIn.dR, o.pIn, o2.pIn, jac.pIn.dR);
  }

  lemma DCResistanceOutStep(vIn: real, vOut: real, y: real, y2: real, t: real)
    requires y2 == y - t * (y * y)
    ensures var o := DCLineFromAdmittance(vIn, vOut, y);
            var o2 := DCLineFromAdmittance(vIn, vOut, y2);
            var jac := DCLinePartialsFromAdmittance(vIn, vOut, y);
            o2.iOut == o.iOut + t * jac.iOut.dR && o2.pOut == o.pOut + t * jac.pOut.dR
  {
    var o := DCLineFromAdmittance(vIn, vOut, y);
    var o2 := DCLineFromAdmittance(vIn, vOut, y2);
    var jac := DCLinePartialsFromAdmittance(vIn, vOut, y);
    DCResistanceRowStep(y, y2, t, vOut, vIn, o.iOut, o2.iOut, jac.iOut.dR, o.pOut, o2.pOut, jac.pOut.dR);
  }

  lemma DCResistanceLossStep(vIn: real, vOut: real, y: real, y2: real, t: real)
    requires y2 == y - t * (y * y)
    ensures var o := DCLineFromAdmittance(vIn, vOut, y);
            var o2 := DCLineFromAdmittance(vIn, vOut, y2);
            var jac := DCLinePartialsFromAdmittance(vIn, vOut, y);
            o2.pLoss == o.pLoss + t * jac.pLoss.dR
  {
    var o := DCLineFromAdmittance(vIn, vOut, y);
    var o2 := DCLineFromAdmittance(vIn, vOut, y2);
    var jac := DCLinePartialsFromAdmittance(vIn, vOut, y);
    DCResistanceInStep(vIn, vOut, y, y2, t);
    DCResistanceOutStep(vIn, vOut, y, y2, t);
    SumOfRealSteps(o.pIn, jac.pIn.dR, o.pOut, jac.pOut.dR, t, o2.pIn, o2.pOut, o.pLoss, o2.pLoss, jac.pLoss.dR);
  }

  /** One terminal's current and power rows along R, every quantity named. */
  lemma DCResistanceRowStep(y: real, y2: real, t: real, v: real, w: real,
                            i: real, i2: real, c: real, p: real, p2: real, pc: real)
    requires y2 == y - t * (y * y)
    requires i == y * (v - w) && i2 == y2 * (v - w) && c == -(v - w) * (y * y)
    requires p == v * (y * (v - w)) && p2 == v * (y2 * (v - w)) && pc == -v * (v - w) * (y * y)
    ensures i2 == i + t * c
    ensures p2 == p + t * pc
  {
    assert i2 == i + t * c;
    assert p2 == v * i2 && p == v * i && pc == v * c;
  }

  lemma SumOfRealSteps(p: real, a: real, q: real, b: real, t: real,
                       p2: real, q2: real, s: real, s2: real, c: real)
    requires p2 == p + t * a && q2 == q + t * b
    requires s == p + q && s2 == p2 + q2 && c == a + b
    ensures s2 == s + t * c
  {
  }

  /** With Y = 1/R and Y' = 1/(R + h): Y' = Y - t Y^2 for the step t = h R/(R + h). */
  lemma DCAdmittanceShift(r: real, h: real, y: real, y2: real, t: real)
    requires r != 0.0 && r + h != 0.0
    requires y == 1.0 / r && y2 == 1.0 / (r + h) && t == h * (r / (r + h))
    ensures y2 == y - t * (y * y)
  {
    assert y * r == 1.0;
    assert y2 * (r + h) == 1.0;
    assert t == h * r * y2;
    calc {
      y - t * (y * y);
      y - h * y2 * (r * y) * y;
      y - h * y2 * y;
      y * (1.0 - h * y2);
      y * (y2 * (r + h) - h * y2);
      y2 * (y * r);
      y2;
    }
  }

}

/**
 * Generators (ACgenerator, DCgenerator): implicit components that own the current they send
 * to the bus and the power they deliver, with residuals that pin the terminal voltage and
 * either the phase (Slack) or the delivered real power (P-V).
 */
module Generator {
  import opened ComplexArith
  import opened Validation
  import Load
  import opened PowerBalance

  /** The two ACgenerator control modes. */
  datatype GenMode = Slack | PV

  /** The option string that names a mode. */
  function GenModeName(m: GenMode): string
  {
    match m
    case Slack => "Slack"
    case PV => "P-V"
  }

  /** setup's mode check: only 'Slack' and 'P-V' are accepted, anything else is a ValueError. */
  function ParseGenMode(mode: string): (r: Result<GenMode>)
    ensures r.Ok? <==> mode == "Slack" || mode == "P-V"
    ensures r.Ok? ==> GenModeName(r.value) == mode
  {
    if mode == "Slack" then Ok(Slack)
    else if mode == "P-V" then Ok(PV)
    else Err("mode must be 'Slack' or 'P-V', but '" + mode + "' was given.")
  }

  /** Every mode is accepted under its own name. */
  lemma ParseGenModeName(m: GenMode)
    ensures ParseGenMode(GenModeName(m)) == Ok(m)
  {
    match m
    case Slack =>
    case PV =>
      assert GenModeName(PV) != "Slack" by { assert GenModeName(PV)[0] == 'P'; }
  }

  /**
   * The inputs of ACgenerator at one operating point: thetaBus and pGuess exist in Slack
   * mode only and pBus in P-V mode only; each member reads only those of its mode.
   */
  datatype ACGenInputs = ACGenInputs(vmBus: real, v: Complex, thetaBus: real, pBus: real, pGuess: real)

  /** The four residuals of ACgenerator.apply_nonlinear, by the output they belong to. */
  datatype ACGenResiduals = ACGenResiduals(ir: real, ii: real, p: real, q: real)

  /**
   * ACgenerator.apply_nonlinear, with |V| given as absV and the phase arctan2(Vi, Vr) of V
   * (in radians) given as angleV. Each residual vanishes exactly when its condition holds.
   */
  function ACGenResidualsOf(mode: GenMode, inp: ACGenInputs, i: Complex, pOut: real, qOut: real,
                            absV: real, angleV: real): (r: ACGenResiduals)
    requires IsSqrt(NormSq(inp.v), absV)
    ensures r.ir == 0.0 <==> absV == inp.vmBus
    ensures (r.p == 0.0 && r.q == 0.0) <==> Power(inp.v, i) == Complex(pOut, qOut)
    ensures mode == Slack ==> (r.ii == 0.0 <==> Degrees(angleV) == inp.thetaBus)
    ensures mode == PV ==> (r.ii == 0.0 <==> Power(inp.v, i).re == inp.pBus)
  {
    var pr := PowerResidual(inp.v, i, pOut, qOut);
    var ii := match mode
      case Slack => inp.thetaBus - Degrees(angleV)
      case PV => inp.pBus - Power(inp.v, i).re;
    ACGenResiduals(inp.vmBus - absV, ii, pr.re, pr.im)
  }

  /** The guessed power factor 0.95 of guess_nonlinear. */
  const GuessPF: real := 0.95

  /** An AC generator: its mode and the outputs it owns. */
  class ACGenerator {
    const mode: GenMode
    var iOut: Complex
    var pOut: real
    var qOut: real

    /** The outputs start at their declared values. */
    constructor (mode: GenMode)
      ensures this.mode == mode
      ensures iOut == Complex(1.0, 1.0) && pOut == -1.0 && qOut == -1.0
    {
      this.mode := mode;
      iOut := Complex(1.0, 1.0);
      pOut, qOut := -1.0, -1.0;
    }

    /**
     * solve_nonlinear: sets the power outputs to the power actually delivered, which zeroes
     * both power residuals; the currents are left as they were.
     */
    method SolveNonlinear(v: Complex)
      modifies this`pOut, this`qOut
      ensures iOut == old(iOut)
      ensures Complex(pOut, qOut) == Power(v, iOut)
      ensures PowerResidual(v, iOut, pOut, qOut) == Zero
    {
      var s := Power(v, iOut);
      pOut := s.re;
      qOut := s.im;
    }

    /**
     * guess_nonlinear: guesses the power S = P (1 + j k), with k = sqrt(1/0.95^2 - 1) and
     * P = P_guess (Slack) or P_bus (P-V), and the current that delivers S at V,
     * so both power residuals are zero right after the guess and the guessed
     * power has power factor 0.95.
     */
    method GuessNonlinear(inp: ACGenInputs, k: real)
      requires inp.v != Zero
      requires IsSqrt(1.0 / (GuessPF * GuessPF) - 1.0, k)
      modifies this`iOut, this`pOut, this`qOut
      ensures var base := if mode == Slack then inp.pGuess else inp.pBus;
              pOut == base && qOut == base * k
      ensures iOut == Load.ACLoadCurrent(pOut, qOut, inp.v)
      ensures Power(inp.v, iOut) == Complex(pOut, qOut)
      ensures PowerResidual(inp.v, iOut, pOut, qOut) == Zero
      ensures Sq(pOut) == GuessPF * GuessPF * (Sq(pOut) + Sq(qOut))
    {
      var base := if mode == Slack then inp.pGuess else inp.pBus;
      GuessPowerFactor(GuessPF, base, k);
      var s := Complex(base, base * k);
      iOut := Load.ACLoadCurrent(s.re, s.im, inp.v);
      pOut := s.re;
      qOut := s.im;
    }
  }

  /**
   * Everything ACgenerator declares and linearize writes: irVmBus is the constant
   * J[Ir_out, Vm_bus] and iiBus the constant J[Ii_out, thetaV_bus] (Slack) or
   * J[Ii_out, P_bus] (P-V) that setup declares.
   */
  datatype ACGenJac = ACGenJac(irVmBus: real, irVr: real, irVi: real, power: PowerPartials,
                               iiBus: real, iiVr: real, iiVi: real, iiIr: real, iiIi: real)

  /**
   * ACgenerator.linearize, with |V| given as absV. In Slack mode the Ii_out residual has no
   * partials with respect to the currents.
   */
  function ACGenLinearize(mode: GenMode, v: Complex, i: Complex, absV: real): ACGenJac
    requires v != Zero && IsSqrt(NormSq(v), absV)
  {
    NormSqPos(v);
    assert absV != 0.0;
    var pw := PowerPartialsOf(v, i);
    match mode
    case Slack =>
      ACGenJac(1.0, -v.re / absV, -v.im / absV, pw,
               1.0, Degrees(v.im / (absV * absV)), Degrees(-v.re / (absV * absV)), 0.0, 0.0)
    case PV =>
      ACGenJac(1.0, -v.re / absV, -v.im / absV, pw,
               1.0, -pw.dVr.re, -pw.dVi.re, -v.re, -v.im)
  }

  /**
   * In P-V mode the Ii_out row is the derivative of P_bus - Re(V conj(I)): moving V by a, I by b
   * and P_bus by e moves the residual by that row's directional derivative, with the declared
   * J[Ii_out, P_bus] = 1, minus the second-order term Re(a conj(b)).
   */
  lemma ACGenPVPartialsExact(inp: ACGenInputs, i: Complex, absV: real, a: Complex, b: Complex, e: real)
    requires inp.v != Zero && IsSqrt(NormSq(inp.v), absV)
    ensures var jac := ACGenLinearize(PV, inp.v, i, absV);
            (inp.pBus + e) - Power(Add(inp.v, a), Add(i, b)).re
              == (inp.pBus - Power(inp.v, i).re)
                 + (e * jac.iiBus + a.re * jac.iiVr + a.im * jac.iiVi + b.re * jac.iiIr + b.im * jac.iiIi)
                 - Mul(a, Conj(b)).re
  {
    var v := inp.v;
    var jac := ACGenLinearize(PV, v, i, absV);
    var x := Add(Mul(a, Conj(i)), Mul(v, Conj(b)));
    PowerMove(v, i, a, b);
    RotatedSum(a, Conj(i));
    assert a.re * jac.iiVr + a.im * jac.iiVi + b.re * jac.iiIr + b.im * jac.iiIi == -x.re;
  }

  /**
   * The constant partials setup declares are derivatives: moving Vm_bus by e moves the Ir_out
   * residual by e J[Ir_out, Vm_bus], and moving the mode's bus input (thetaV_bus in Slack mode,
   * P_bus in P-V mode) by e moves the Ii_out residual by e J[Ii_out, that input]; no other
   * residual moves.
   */
  lemma ACGenBusPartialsExact(mode: GenMode, inp: ACGenInputs, i: Complex, pOut: real, qOut: real,
                              absV: real, angleV: real, e: real)
    requires inp.v != Zero && IsSqrt(NormSq(inp.v), absV)
    ensures var jac := ACGenLinearize(mode, inp.v, i, absV);
            var r := ACGenResidualsOf(mode, inp, i, pOut, qOut, absV, angleV);
            var rm := ACGenResidualsOf(mode, inp.(vmBus := inp.vmBus + e), i, pOut, qOut, absV, angleV);
            var inp2 := if mode == Slack then inp.(thetaBus := inp.thetaBus + e)
                        else inp.(pBus := inp.pBus + e);
            var rb := ACGenResidualsOf(mode, inp2, i, pOut, qOut, absV, angleV);
            rm == r.(ir := r.ir + e * jac.irVmBus) &&
            rb == r.(ii := r.ii + e * jac.iiBus)
  {
  }

  /**
   * The Ir_out row is the gradient of -|V| and the Slack Ii_out row that of -degrees(arctan2(Vi, Vr)):
   * along V itself the magnitude grows at |V| and the angle not at all; along the quarter turn
   * jV the magnitude stays and the angle grows at one radian per unit.
   */
  lemma ACGenMagnitudeAnglePartials(inp: ACGenInputs, i: Complex, absV: real)
    requires inp.v != Zero && IsSqrt(NormSq(inp.v), absV)
    ensures var v := inp.v;
            var jac := ACGenLinearize(Slack, v, i, absV);
            v.re * jac.irVr + v.im * jac.irVi == -absV &&
            -v.im * jac.irVr + v.re * jac.irVi == 0.0 &&
            v.re * jac.iiVr + v.im * jac.iiVi == 0.0 &&
            -v.im * jac.iiVr + v.re * jac.iiVi == -Degrees(1.0)
  {
    var v := inp.v;
    var jac := ACGenLinearize(Slack, v, i, absV);
    NormSqPos(v);
    SlackEntries(v, i, absV);
    MagnitudeRow(v.re, v.im, absV, jac.irVr, jac.irVi, v.re * jac.irVr + v.im * jac.irVi,
                 -v.im * jac.irVr + v.re * jac.irVi);
    PhaseRow(v.re, v.im, absV * absV, jac.iiVr, jac.iiVi, v.re * jac.iiVr + v.im * jac.iiVi,
             -v.im * jac.iiVr + v.re * jac.iiVi);
  }

  lemma SlackEntries(v: Complex, i: Complex, absV: real)
    requires v != Zero && IsSqrt(NormSq(v), absV)
    ensures absV > 0.0 && absV * absV == Sq(v.re) + Sq(v.im)
    ensures var jac := ACGenLinearize(Slack, v, i, absV);
            jac.irVr == -v.re / absV && jac.irVi == -v.im / absV &&
            jac.iiVr == Degrees(v.im / (absV * absV)) && jac.iiVi == Degrees(-v.re / (absV * absV))
  {
    NormSqPos(v);
  }

  lemma MagnitudeRow(vr: real, vi: real, r: real, e1: real, e2: real, along: real, across: real)
    requires r > 0.0 && r * r == Sq(vr) + Sq(vi) && e1 == -vr / r && e2 == -vi / r
    requires along == vr * e1 + vi * e2 && across == -vi * e1 + vr * e2
    ensures along == -r && across == 0.0
  {
    OverTimes(vr, r, e1);
    OverTimes(vi, r, e2);
    assert along * r == vr * (e1 * r) + vi * (e2 * r);
    assert (along + r) * r == 0.0;
    ZeroFactor(along + r, r);
    assert across * r == -vi * (e1 * r) + vr * (e2 * r);
    ZeroFactor(across, r);
  }

  lemma PhaseRow(vr: real, vi: real, n: real, e1: real, e2: real, along: real, across: real)
    requires n != 0.0 && n == Sq(vr) + Sq(vi) && e1 == Degrees(vi / n) && e2 == Degrees(-vr / n)
    requires along == vr * e1 + vi * e2 && across == -vi * e1 + vr * e2
    ensures along == 0.0 && across == -Degrees(1.0)
  {
    var k := 180.0 / Pi;
    var f1, f2 := vi / n, -vr / n;
    assert f1 * n == vi && f2 * n == -vr;
    assert e1 == f1 * k && e2 == f2 * k;
    var g := vr * f1 + vi * f2;
    assert g * n == vr * (f1 * n) + vi * (f2 * n);
    ZeroFactor(g, n);
    assert along == g * k;
    var h := -vi * f1 + vr * f2;
    assert h * n == -vi * (f1 * n) + vr * (f2 * n);
    assert (h + 1.0) * n == 0.0;
    ZeroFactor(h + 1.0, n);
    assert across == h * k;
  }

  /** The residuals of DCgenerator.apply_nonlinear. */
  datatype DCGenResiduals = DCGenResiduals(i: real, p: real)

  /** DCgenerator.apply_nonlinear; each residual vanishes exactly when its condition holds. */
  function DCGenResidualsOf(vBus: real, vOut: real, iOut: real, pOut: real): (r: DCGenResiduals)
    ensures r.i == 0.0 <==> vOut == vBus
    ensures r.p == 0.0 <==> vOut * iOut == pOut
  {
    DCGenResiduals(vBus - vOut, vOut * iOut - pOut)
  }

  /** A DC generator and the outputs it owns. */
  class DCGenerator {
    var iOut: real
    var pOut: real

    /** The outputs start at their declared values. */
    constructor ()
      ensures iOut == -1.0 && pOut == -1.0
    {
      iOut, pOut := -1.0, -1.0;
    }

    /** solve_nonlinear: the power output becomes the delivered power; the current is kept. */
    method SolveNonlinear(vOut: real)
      modifies this`pOut
      ensures iOut == old(iOut)
      ensures pOut == vOut * iOut
    {
      pOut := vOut * iOut;
    }

    /** guess_nonlinear: the current that delivers P_guess at V_out, and P_guess as the power. */
    method GuessNonlinear(vOut: real, pGuess: real)
      requires vOut != 0.0
      modifies this`iOut, this`pOut
      ensures iOut == Load.DCLoadCurrent(pGuess, vOut)
      ensures pOut == pGuess && vOut * iOut == pOut
    {
      iOut := pGuess / vOut;
      pOut := pGuess;
    }
  }

  /** Everything DCgenerator declares and linearize writes. */
  datatype DCGenJac = DCGenJac(iVBus: real, iVOut: real, pVOut: real, pIOut: real, pPOut: real)

  function DCGenLinearize(vOut: real, iOut: real): DCGenJac
  {
    DCGenJac(1.0, -1.0, iOut, vOut, -1.0)
  }

  /**
   * The DC partials are derivatives: moving (V_bus, V_out, I_out, P_out) by h (a, b, c, d) moves
   * the current residual by exactly h times its row and the power residual by h times its
   * row plus h^2 b c.
   */
  lemma DCGenPartialsExact(vBus: real, vOut: real, iOut: real, pOut: real,
                           a: real, b: real, c: real, d: real, h: real)
    ensures var r := DCGenResidualsOf(vBus, vOut, iOut, pOut);
            var r2 := DCGenResidualsOf(vBus + h * a, vOut + h * b, iOut + h * c, pOut + h * d);
            var jac := DCGenLinearize(vOut, iOut);
            r2.i == r.i + h * (a * jac.iVBus + b * jac.iVOut) &&
            r2.p == r.p + h * (b * jac.pVOut + c * jac.pIOut + d * jac.pPOut) + h * h * (b * c)
  {
    var r2 := DCGenResidualsOf(vBus + h * a, vOut + h * b, iOut + h * c, pOut + h * d);
    BilinearStep(vOut, iOut, pOut, b, c, d, h, r2.p);
  }

  lemma BilinearStep(v: real, i: real, p: real, b: real, c: real, d: real, h: real, r2: real)
    requires r2 == (v + h * b) * (i + h * c) - (p + h * d)
    ensures r2 == (v * i - p) + h * (b * i + c * v + d * -1.0) + h * h * (b * c)
  {
  }
}

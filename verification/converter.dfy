/**
 * Converter: an implicit component joining a DC bus to an AC bus. It owns the DC current,
 * the AC current and the three powers, and its residuals pin the power bookkeeping, the
 * modulation |V_ac| = Ksc M V_dc, the power-factor angle and a loss balance whose form
 * depends on the direction the power flows.
 */
module Converter {
  import opened ComplexArith
  import opened Validation
  import opened PowerBalance
  import Load

  /** Whether the AC current leads or lags the voltage. */
  datatype ConverterMode = Lead | Lag

  /** The option string that names a mode. */
  function ConverterModeName(m: ConverterMode): string
  {
    match m
    case Lead => "Lead"
    case Lag => "Lag"
  }

  /** The option declaration accepts only the values 'Lead' and 'Lag'; anything else is a ValueError. */
  function ParseConverterMode(mode: string): (r: Result<ConverterMode>)
    ensures r.Ok? <==> mode == "Lead" || mode == "Lag"
    ensures r.Ok? ==> ConverterModeName(r.value) == mode
  {
    if mode == "Lead" then Ok(Lead)
    else if mode == "Lag" then Ok(Lag)
    else Err("Value ('" + mode + "') of option 'mode' is not one of ['Lead', 'Lag'].")
  }

  /** Every mode is accepted under its own name. */
  lemma ParseConverterModeName(m: ConverterMode)
    ensures ParseConverterMode(ConverterModeName(m)) == Ok(m)
  {
    match m
    case Lead =>
    case Lag =>
      assert ConverterModeName(Lag) != "Lead" by { assert ConverterModeName(Lag)[1] == 'a'; }
  }

  /** The inputs of Converter at one operating point. */
  datatype ConverterInputs = ConverterInputs(vdc: real, vac: Complex, ksc: real, m: real, eff: real,
                                             pf: real, pacGuess: real, pdcGuess: real)

  /** The six residuals of apply_nonlinear, by the output they belong to. */
  datatype ConverterResiduals = ConverterResiduals(idc: real, irAC: real, iiAC: real,
                                                   pdc: real, pac: real, qac: real)

  function Abs(x: real): real
  {
    if x < 0.0 then -x else x
  }

  /**
   * The direction test: power flows from AC to DC when |Re S_ac| > |P_dc|, compared here
   * through the squares (ACToDCAbs shows the two comparisons agree).
   */
  predicate ACToDC(sRe: real, pDC: real)
  {
    Sq(sRe) > Sq(pDC)
  }

  /** Comparing squares is comparing magnitudes. */
  lemma ACToDCAbs(sRe: real, pDC: real)
    ensures ACToDC(sRe, pDC) <==> Abs(sRe) > Abs(pDC)
  {
    var x, y := Abs(sRe), Abs(pDC);
    assert Sq(sRe) == Sq(x) && Sq(pDC) == Sq(y);
    if x > y {
      calc { Sq(x); == x * x; > { MulPositive(x, x, y); } x * y; >= { MulMonotone(y, x, y); } y * y; }
    } else {
      calc { Sq(x); == x * x; <= { MulMonotone(x, y, x); } y * x; <= { MulMonotone(y, y, x); } y * y; }
    }
  }

  lemma MulMonotone(k: real, a: real, b: real)
    requires k >= 0.0 && a >= b
    ensures k * a >= k * b
  {
  }

  /** The loss balance of one direction: eff Re S_ac + P_dc (AC to DC), or Re S_ac + eff P_dc. */
  function BranchLoss(acToDC: bool, sRe: real, pDC: real, eff: real): real
  {
    if acToDC then sRe * eff + pDC else sRe + pDC * eff
  }

  /**
   * The Ir_ac residual: the loss balance of the direction the test selects. With eff = 1 both
   * directions give Re S_ac + P_dc, and a tie |Re S_ac| = |P_dc| selects DC to AC.
   */
  function LossResidual(sRe: real, pDC: real, eff: real): (r: real)
    ensures eff == 1.0 ==> r == sRe + pDC
    ensures Abs(sRe) == Abs(pDC) ==> r == sRe + pDC * eff
  {
    ACToDCAbs(sRe, pDC);
    BranchLoss(ACToDC(sRe, pDC), sRe, pDC, eff)
  }

  /**
   * On a tie the two directions' balances agree exactly when Re S_ac and P_dc are equal or
   * eff = 1: with opposite signs and eff != 1 the residual jumps where the test flips.
   */
  lemma TieBranchesAgree(sRe: real, pDC: real, eff: real)
    requires Abs(sRe) == Abs(pDC)
    ensures BranchLoss(true, sRe, pDC, eff) == BranchLoss(false, sRe, pDC, eff) <==> (sRe == pDC || eff == 1.0)
  {
    if sRe != pDC {
      assert pDC == -sRe && sRe != 0.0;
      assert BranchLoss(true, sRe, pDC, eff) - BranchLoss(false, sRe, pDC, eff) == 2.0 * (sRe * (eff - 1.0));
      if eff != 1.0 {
        MulNonzeroReal(sRe, eff - 1.0);
      }
    }
  }

  /** The modulation residual |V_ac| - Ksc M V_dc, with |V_ac| given as absV. */
  function ModulationResidual(absV: real, ksc: real, m: real, vdc: real): real
  {
    absV - ksc * m * vdc
  }

  /** The target angle theta: arccos(PF) (given as acosPF) when leading, its negation when lagging. */
  function TargetAngle(mode: ConverterMode, acosPF: real): real
  {
    match mode
    case Lead => acosPF
    case Lag => -acosPF
  }

  /** Lag's target angle is the negation of Lead's. */
  lemma TargetAngleSymmetry(acosPF: real)
    ensures TargetAngle(Lag, acosPF) == -TargetAngle(Lead, acosPF)
  {
  }

  /**
   * apply_nonlinear, with |V_ac| given as absV, arccos(PF) as acosPF and the phase
   * arctan2(Im S_ac, Re S_ac) of the AC power as angleS. Each residual except the loss
   * balance vanishes exactly when its condition holds.
   */
  function ConverterResidualsOf(mode: ConverterMode, inp: ConverterInputs, idc: real, iac: Complex,
                                pdc: real, pac: real, qac: real,
                                absV: real, acosPF: real, angleS: real): (r: ConverterResiduals)
    requires IsSqrt(NormSq(inp.vac), absV)
    ensures r.pdc == 0.0 <==> inp.vdc * idc == pdc
    ensures (r.pac == 0.0 && r.qac == 0.0) <==> Power(inp.vac, iac) == Complex(pac, qac)
    ensures r.idc == 0.0 <==> absV == inp.ksc * inp.m * inp.vdc
    ensures r.iiAC == 0.0 <==> angleS == TargetAngle(mode, acosPF)
  {
    var s := Power(inp.vac, iac);
    var pDC := inp.vdc * idc;
    var pr := PowerResidual(inp.vac, iac, pac, qac);
    ConverterResiduals(ModulationResidual(absV, inp.ksc, inp.m, inp.vdc),
                       LossResidual(s.re, pDC, inp.eff),
                       TargetAngle(mode, acosPF) - angleS,
                       pDC - pdc, pr.re, pr.im)
  }

  /** A converter: its mode and the outputs it owns. */
  class Converter {
    const mode: ConverterMode
    var idc: real
    var iac: Complex
    var pdc: real
    var pac: real
    var qac: real

    /** The outputs start at their declared values. */
    constructor (mode: ConverterMode)
      ensures this.mode == mode
      ensures idc == -1.0 && iac == Complex(1.0, 1.0) && pdc == 0.0 && pac == 0.0 && qac == 0.0
    {
      this.mode := mode;
      idc := -1.0;
      iac := Complex(1.0, 1.0);
      pdc, pac, qac := 0.0, 0.0, 0.0;
    }

    /**
     * solve_nonlinear: the three power outputs become the powers actually flowing, which
     * zeroes their residuals; the currents are left as they were.
     */
    method SolveNonlinear(vdc: real, vac: Complex)
      modifies this`pdc, this`pac, this`qac
      ensures idc == old(idc) && iac == old(iac)
      ensures pdc == vdc * idc
      ensures PowerResidual(vac, iac, pac, qac) == Zero
    {
      var s := Power(vac, iac);
      pdc := vdc * idc;
      pac := s.re;
      qac := s.im;
    }

    /**
     * guess_nonlinear: the AC current that delivers S = P_ac_guess (1 + j k) at V_ac, with
     * k = sqrt(1/PF^2 - 1), and the DC current that delivers P_dc_guess at V_dc. The power
     * outputs are left as they were.
     */
    method GuessNonlinear(inp: ConverterInputs, k: real)
      requires inp.vac != Zero && inp.vdc != 0.0
      requires inp.pf != 0.0 && IsSqrt(1.0 / (inp.pf * inp.pf) - 1.0, k)
      modifies this`iac, this`idc
      ensures iac == Load.ACLoadCurrent(inp.pacGuess, inp.pacGuess * k, inp.vac)
      ensures Power(inp.vac, iac) == Complex(inp.pacGuess, inp.pacGuess * k)
      ensures Sq(inp.pacGuess) == inp.pf * inp.pf * (Sq(Power(inp.vac, iac).re) + Sq(Power(inp.vac, iac).im))
      ensures idc == Load.DCLoadCurrent(inp.pdcGuess, inp.vdc) && inp.vdc * idc == inp.pdcGuess
    {
      GuessPowerFactor(inp.pf, inp.pacGuess, k);
      iac := Load.ACLoadCurrent(inp.pacGuess, inp.pacGuess * k, inp.vac);
      idc := Load.DCLoadCurrent(inp.pdcGuess, inp.vdc);
    }
  }

  /** The P_dc row of linearize: the partials of V_dc I_dc - P_dc. */
  datatype DCPowerPartials = DCPowerPartials(dVdc: real, dIdc: real, dPdc: real)

  function DCPowerPartialsOf(vdc: real, idc: real): DCPowerPartials
  {
    DCPowerPartials(idc, vdc, -1.0)
  }

  /** The I_dc row of linearize: the partials of the modulation residual. */
  datatype ModulationPartials = ModulationPartials(dVr: real, dVi: real, dKsc: real, dM: real, dVdc: real)

  /** The I_dc row, with |V_ac| given as absV. */
  function ModulationPartialsOf(v: Complex, absV: real, ksc: real, m: real, vdc: real): ModulationPartials
    requires absV != 0.0
  {
    ModulationPartials(v.re / absV, v.im / absV, -m * vdc, -ksc * vdc, -ksc * m)
  }

  /** The Ir_ac row of linearize: the partials of the loss balance. */
  datatype LossPartials = LossPartials(dVr: real, dVi: real, dIr: real, dIi: real,
                                       dVdc: real, dIdc: real, dEff: real)

  /**
   * The Ir_ac row for a direction: the real parts of the power rows pw, scaled by eff when
   * power flows from AC to DC, and the partials of the P_dc term and of eff.
   */
  function LossPartialsOf(acToDC: bool, pw: PowerPartials, sRe: real, vdc: real, idc: real, eff: real): LossPartials
  {
    if acToDC then
      LossPartials(pw.dVr.re * eff, pw.dVi.re * eff, pw.dIr.re * eff, pw.dIi.re * eff, idc, vdc, sRe)
    else
      LossPartials(pw.dVr.re, pw.dVi.re, pw.dIr.re, pw.dIi.re, idc * eff, vdc * eff, vdc * idc)
  }

  /** The Ii_ac row of linearize: the partials of theta - arctan2(Im S_ac, Re S_ac). */
  datatype AnglePartials = AnglePartials(dVr: real, dVi: real, dIr: real, dIi: real, dPF: real)

  /**
   * The Ii_ac row at V_ac = v, I_ac = i and S_ac = s, with |S_ac|^2 given as sm2 and
   * sqrt(1 - PF^2) as sinT.
   */
  function AnglePartialsOf(mode: ConverterMode, v: Complex, i: Complex, s: Complex, sm2: real, sinT: real): AnglePartials
    requires sm2 != 0.0 && sinT != 0.0
  {
    AnglePartials(-(s.re * -i.im - s.im * i.re) / sm2,
                  -(s.re * i.re - s.im * i.im) / sm2,
                  -(s.re * v.im - s.im * v.re) / sm2,
                  -(s.re * -v.re - s.im * v.im) / sm2,
                  if mode == Lead then -1.0 / sinT else 1.0 / sinT)
  }

  /** Everything linearize writes, row by row. */
  datatype ConverterJac = ConverterJac(dcPower: DCPowerPartials, power: PowerPartials,
                                       modulation: ModulationPartials, loss: LossPartials,
                                       angle: AnglePartials)

  /**
   * linearize, with |V_ac| given as absV, |S_ac|^2 as sm2 and sqrt(1 - PF^2) as sinT, each
   * nonzero since linearize divides by it. The Ir_ac row is chosen by the same direction test
   * as apply_nonlinear.
   */
  function ConverterLinearize(mode: ConverterMode, inp: ConverterInputs, idc: real, iac: Complex,
                              absV: real, sm2: real, sinT: real): ConverterJac
    requires absV != 0.0 && sm2 != 0.0 && sinT != 0.0
  {
    var sRe := Power(inp.vac, iac).re;
    ConverterJac(DCPowerPartialsOf(inp.vdc, idc),
                 PowerPartialsOf(inp.vac, iac),
                 ModulationPartialsOf(inp.vac, absV, inp.ksc, inp.m, inp.vdc),
                 LossPartialsOf(ACToDC(sRe, inp.vdc * idc), PowerPartialsOf(inp.vac, iac), sRe, inp.vdc, idc, inp.eff),
                 AnglePartialsOf(mode, inp.vac, iac, Power(inp.vac, iac), sm2, sinT))
  }

  /** The P_dc row is the derivative of V_dc I_dc - P_dc, whose only second-order term is c d. */
  lemma DCPowerPartialsExact(vdc: real, idc: real, pdc: real, c: real, d: real, e: real)
    ensures var row := DCPowerPartialsOf(vdc, idc);
            (vdc + c) * (idc + d) - (pdc + e)
              == (vdc * idc - pdc) + (c * row.dVdc + d * row.dIdc + e * row.dPdc) + c * d
  {
    ProductMove(vdc, idc, c, d, (vdc + c) * (idc + d));
  }

  /** The P_ac and Q_ac rows of linearize are the derivatives of the power residual pair. */
  lemma ConverterPowerPartialsExact(mode: ConverterMode, inp: ConverterInputs, idc: real, iac: Complex,
                                    pac: real, qac: real, absV: real, sm2: real, sinT: real,
                                    a: Complex, b: Complex, c: real, d: real)
    requires absV != 0.0 && sm2 != 0.0 && sinT != 0.0
    ensures var jac := ConverterLinearize(mode, inp, idc, iac, absV, sm2, sinT);
            PowerResidual(Add(inp.vac, a), Add(iac, b), pac + c, qac + d)
              == Add(Add(PowerResidual(inp.vac, iac, pac, qac), PowerDirectional(jac.power, a, b, c, d)),
                     Mul(a, Conj(b)))
  {
    PowerPartialsExact(inp.vac, iac, pac, qac, a, b, c, d);
  }

  /**
   * The Ksc, M and V_dc partials of the modulation residual are its derivatives: moving
   * (Ksc, M, V_dc) by (a, b, c) moves it by the directional derivative minus the second- and
   * third-order terms of the product.
   */
  lemma ModulationPartialsExact(v: Complex, absV: real, k: real, m: real, vdc: real, a: real, b: real, c: real)
    requires absV != 0.0
    ensures var row := ModulationPartialsOf(v, absV, k, m, vdc);
            ModulationResidual(absV, k + a, m + b, vdc + c)
              == ModulationResidual(absV, k, m, vdc) + (a * row.dKsc + b * row.dM + c * row.dVdc)
                 - (a * b * vdc + a * m * c + k * b * c + a * b * c)
  {
    TrilinearMove(k, m, vdc, a, b, c, (k + a) * (m + b) * (vdc + c));
  }

  lemma TrilinearMove(k: real, m: real, v: real, a: real, b: real, c: real, p2: real)
    requires p2 == (k + a) * (m + b) * (v + c)
    ensures p2 == k * m * v + (a * (m * v) + b * (k * v) + c * (k * m)) + (a * b * v + a * m * c + k * b * c + a * b * c)
  {
  }

  /**
   * The V_ac partials of the modulation residual are the gradient of |V_ac|: along V_ac the
   * magnitude grows at |V_ac|, along the quarter turn j V_ac it does not change.
   */
  lemma ModulationMagnitudePartials(v: Complex, absV: real, k: real, m: real, vdc: real)
    requires v != Zero && IsSqrt(NormSq(v), absV)
    ensures absV != 0.0
    ensures var row := ModulationPartialsOf(v, absV, k, m, vdc);
            v.re * row.dVr + v.im * row.dVi == absV &&
            -v.im * row.dVr + v.re * row.dVi == 0.0
  {
    NormSqPos(v);
    var n := absV * absV;
    assert n == Sq(v.re) + Sq(v.im);
    assert absV > 0.0;
    var row := ModulationPartialsOf(v, absV, k, m, vdc);
    calc {
      v.re * row.dVr + v.im * row.dVi;
      (v.re * v.re + v.im * v.im) / absV;
      n / absV;
      { assert n / absV == absV; }
      absV;
    }
  }

  /** The directional derivative of the Ii_ac row along a move (a, b) of V_ac and I_ac. */
  function AngleDirectional(row: AnglePartials, a: Complex, b: Complex): real
  {
    a.re * row.dVr + a.im * row.dVi + b.re * row.dIr + b.im * row.dIi
  }

  /**
   * The Ii_ac row is the chain rule for -arctan2(Im S, Re S): along a move (a, b) of V_ac and
   * I_ac, whose first-order change of S_ac = V_ac conj(I_ac) is dS = a conj(I) + V conj(b),
   * it changes at -Im(conj(S) dS) / |S|^2, minus the growth of the angle of S_ac.
   */
  lemma AngleChainRule(mode: ConverterMode, v: Complex, i: Complex, s: Complex, sm2: real, sinT: real,
                        a: Complex, b: Complex)
    requires sm2 == NormSq(s) && sm2 != 0.0 && sinT != 0.0
    ensures var dS := Add(Mul(a, Conj(i)), Mul(v, Conj(b)));
            AngleDirectional(AnglePartialsOf(mode, v, i, s, sm2, sinT), a, b) == -Mul(Conj(s), dS).im / sm2
  {
    AngleRowStep(mode, v, i, s, sm2, sinT, a, b);
  }

  /** The algebra of the chain rule, which holds for any nonzero divisor. */
  lemma AngleRowStep(mode: ConverterMode, v: Complex, i: Complex, s: Complex, sm2: real, sinT: real,
                     a: Complex, b: Complex)
    requires sm2 != 0.0 && sinT != 0.0
    ensures var dS := Add(Mul(a, Conj(i)), Mul(v, Conj(b)));
            AngleDirectional(AnglePartialsOf(mode, v, i, s, sm2, sinT), a, b) == -Mul(Conj(s), dS).im / sm2
  {
    var x1, x2 := s.re * -i.im - s.im * i.re, s.re * i.re - s.im * i.im;
    var x3, x4 := s.re * v.im - s.im * v.re, s.re * -v.re - s.im * v.im;
    var row := AnglePartialsOf(mode, v, i, s, sm2, sinT);
    AngleRowEntries(mode, v, i, s, sm2, sinT);
    StepNumerator(v, i, s, a, b);
    DividedRow(a.re, a.im, b.re, b.im, x1, x2, x3, x4, sm2, Mul(Conj(s), Add(Mul(a, Conj(i)), Mul(v, Conj(b)))).im,
               row.dVr, row.dVi, row.dIr, row.dIi);
  }

  lemma AngleRowEntries(mode: ConverterMode, v: Complex, i: Complex, s: Complex, sm2: real, sinT: real)
    requires sm2 != 0.0 && sinT != 0.0
    ensures var row := AnglePartialsOf(mode, v, i, s, sm2, sinT);
            row.dVr == -(s.re * -i.im - s.im * i.re) / sm2 &&
            row.dVi == -(s.re * i.re - s.im * i.im) / sm2 &&
            row.dIr == -(s.re * v.im - s.im * v.re) / sm2 &&
            row.dIi == -(s.re * -v.re - s.im * v.im) / sm2
  {
  }

  /** The numerators of the row, weighted by the move, give Im(conj(S) dS). */
  lemma StepNumerator(v: Complex, i: Complex, s: Complex, a: Complex, b: Complex)
    ensures a.re * (s.re * -i.im - s.im * i.re) + a.im * (s.re * i.re - s.im * i.im)
          + b.re * (s.re * v.im - s.im * v.re) + b.im * (s.re * -v.re - s.im * v.im)
         == Mul(Conj(s), Add(Mul(a, Conj(i)), Mul(v, Conj(b)))).im
  {
    var dS := Add(Mul(a, Conj(i)), Mul(v, Conj(b)));
    assert dS.re == a.re * i.re + a.im * i.im + b.re * v.re + b.im * v.im;
    assert dS.im == a.re * -i.im + a.im * i.re + b.re * v.im + b.im * -v.re;
    AngleNumerator(s.re, s.im, a.re, a.im, b.re, b.im, i.re, i.im, v.re, v.im, dS.re, dS.im);
  }

  lemma AngleNumerator(sr: real, si: real, ar: real, ai: real, br: real, bi: real,
                       ir: real, ii: real, vr: real, vi: real, dRe: real, dIm: real)
    requires dRe == ar * ir + ai * ii + br * vr + bi * vi
    requires dIm == ar * -ii + ai * ir + br * vi + bi * -vr
    ensures ar * (sr * -ii - si * ir) + ai * (sr * ir - si * ii) + br * (sr * vi - si * vr) + bi * (sr * -vr - si * vi)
         == sr * dIm + -si * dRe
  {
  }

  lemma DividedRow(ar: real, ai: real, br: real, bi: real, x1: real, x2: real, x3: real, x4: real,
                   n: real, num: real, e1: real, e2: real, e3: real, e4: real)
    requires n != 0.0 && ar * x1 + ai * x2 + br * x3 + bi * x4 == num
    requires e1 == -x1 / n && e2 == -x2 / n && e3 == -x3 / n && e4 == -x4 / n
    ensures ar * e1 + ai * e2 + br * e3 + bi * e4 == -num / n
  {
  }

  /**
   * Scaling V_ac leaves the angle of S_ac in place, so the Ii_ac row has no component along
   * V_ac.
   */
  lemma AngleRowRadial(mode: ConverterMode, v: Complex, i: Complex, sm2: real, sinT: real)
    requires sm2 == NormSq(Power(v, i)) && sm2 != 0.0 && sinT != 0.0
    ensures AngleDirectional(AnglePartialsOf(mode, v, i, Power(v, i), sm2, sinT), v, Zero) == 0.0
  {
    var s := Power(v, i);
    var row := AnglePartialsOf(mode, v, i, s, sm2, sinT);
    AngleRowEntries(mode, v, i, s, sm2, sinT);
    var x1, x2 := s.re * -i.im - s.im * i.re, s.re * i.re - s.im * i.im;
    RadialNumerator(v.re, v.im, i.re, i.im, s.re, s.im, x1, x2);
    RadialRow(v.re, v.im, x1, x2, sm2, row.dVr, row.dVi, AngleDirectional(row, v, Zero));
  }

  lemma RadialNumerator(vr: real, vi: real, ir: real, ii: real, sr: real, si: real, x1: real, x2: real)
    requires sr == vr * ir - vi * -ii && si == vr * -ii + vi * ir
    requires x1 == sr * -ii - si * ir && x2 == sr * ir - si * ii
    ensures vr * x1 + vi * x2 == 0.0
  {
  }

  lemma RadialRow(vr: real, vi: real, x1: real, x2: real, n: real, e1: real, e2: real, d: real)
    requires n != 0.0 && vr * x1 + vi * x2 == 0.0 && e1 == -x1 / n && e2 == -x2 / n
    requires d == vr * e1 + vi * e2
    ensures d == 0.0
  {
    OverTimes(x1, n, e1);
    OverTimes(x2, n, e2);
    assert d * n == vr * (e1 * n) + vi * (e2 * n);
    ZeroFactor(d, n);
  }

  /** A quarter turn of a phasor. */
  function QuarterTurn(x: Complex): Complex
  {
    Complex(-x.im, x.re)
  }

  /** A quarter turn is multiplication by j. */
  lemma QuarterTurnIsJ(x: Complex)
    ensures QuarterTurn(x) == Mul(J, x)
  {
  }

  /**
   * Turning V_ac a quarter turn turns S_ac with it: along j V_ac the Ii_ac row falls at one
   * radian per unit.
   */
  lemma AngleRowQuarterTurn(mode: ConverterMode, v: Complex, i: Complex, sm2: real, sinT: real)
    requires sm2 == NormSq(Power(v, i)) && sm2 != 0.0 && sinT != 0.0
    ensures AngleDirectional(AnglePartialsOf(mode, v, i, Power(v, i), sm2, sinT), QuarterTurn(v), Zero) == -1.0
  {
    var s := Power(v, i);
    var row := AnglePartialsOf(mode, v, i, s, sm2, sinT);
    AngleRowEntries(mode, v, i, s, sm2, sinT);
    var x1, x2 := s.re * -i.im - s.im * i.re, s.re * i.re - s.im * i.im;
    TurnedNumerator(v.re, v.im, i.re, i.im, s.re, s.im, sm2, x1, x2);
    TurnedRow(v.re, v.im, x1, x2, sm2, row.dVr, row.dVi, AngleDirectional(row, QuarterTurn(v), Zero));
  }

  lemma TurnedNumerator(vr: real, vi: real, ir: real, ii: real, sr: real, si: real, n: real, x1: real, x2: real)
    requires sr == vr * ir - vi * -ii && si == vr * -ii + vi * ir && n == Sq(sr) + Sq(si)
    requires x1 == sr * -ii - si * ir && x2 == sr * ir - si * ii
    ensures -vi * x1 + vr * x2 == n
  {
  }

  lemma TurnedRow(vr: real, vi: real, x1: real, x2: real, n: real, e1: real, e2: real, d: real)
    requires n != 0.0 && -vi * x1 + vr * x2 == n && e1 == -x1 / n && e2 == -x2 / n
    requires d == -vi * e1 + vr * e2
    ensures d == -1.0
  {
    OverTimes(x1, n, e1);
    OverTimes(x2, n, e2);
    assert d * n == -vi * (e1 * n) + vr * (e2 * n);
    assert (d + 1.0) * n == 0.0;
    ZeroFactor(d + 1.0, n);
  }

  /**
   * J[Ii_ac, PF] is the derivative of the target angle: -1/sqrt(1 - PF^2) for Lead, the
   * derivative of arccos, and its negation for Lag; every other entry is the same in both modes.
   */
  lemma ConverterPFPartial(inp: ConverterInputs, idc: real, iac: Complex, absV: real, sm2: real, sinT: real)
    requires absV != 0.0 && sm2 != 0.0 && sinT != 0.0
    ensures ConverterLinearize(Lead, inp, idc, iac, absV, sm2, sinT).angle.dPF * sinT == -1.0
    ensures var lead := ConverterLinearize(Lead, inp, idc, iac, absV, sm2, sinT);
            ConverterLinearize(Lag, inp, idc, iac, absV, sm2, sinT)
              == lead.(angle := lead.angle.(dPF := -lead.angle.dPF))
  {
    AngleModes(inp.vac, iac, Power(inp.vac, iac), sm2, sinT);
  }

  lemma AngleModes(v: Complex, i: Complex, s: Complex, sm2: real, sinT: real)
    requires sm2 != 0.0 && sinT != 0.0
    ensures AnglePartialsOf(Lead, v, i, s, sm2, sinT).dPF * sinT == -1.0
    ensures var lead := AnglePartialsOf(Lead, v, i, s, sm2, sinT);
            AnglePartialsOf(Lag, v, i, s, sm2, sinT) == lead.(dPF := -lead.dPF)
  {
    NegatedReciprocal(sinT);
  }

  lemma NegatedReciprocal(x: real)
    requires x != 0.0
    ensures (-1.0 / x) * x == -1.0 && -(-1.0 / x) == 1.0 / x
  {
  }

  /** The directional derivative of the Ir_ac row along a move of all its inputs. */
  function LossDirectional(l: LossPartials, a: Complex, b: Complex, c: real, d: real, e: real): real
  {
    a.re * l.dVr + a.im * l.dVi + b.re * l.dIr + b.im * l.dIi + c * l.dVdc + d * l.dIdc + e * l.dEff
  }

  /**
   * The second-order part of a move of the loss balance, given the first-order changes ds of
   * Re S_ac and dp of P_dc, the second-order change qs of Re S_ac and the product c d of the
   * V_dc and I_dc moves.
   */
  function LossRemainder(acToDC: bool, eff: real, ds: real, dp: real, qs: real, cd: real, e: real): real
  {
    if acToDC then eff * qs + e * (ds + qs) + cd
    else qs + eff * cd + e * (dp + cd)
  }

  /**
   * Branch consistency: the Ir_ac row linearize writes is the derivative of the loss balance
   * that apply_nonlinear selects at the same point. Moving V_ac by a, I_ac by b, V_dc by c,
   * I_dc by d and eff by e moves that balance by exactly the row's directional derivative
   * plus an explicit second-order remainder.
   */
  lemma ConverterLossPartialsExact(mode: ConverterMode, inp: ConverterInputs, idc: real, iac: Complex,
                                   absV: real, sm2: real, sinT: real,
                                   a: Complex, b: Complex, c: real, d: real, e: real)
    requires absV != 0.0 && sm2 != 0.0 && sinT != 0.0
    ensures var v, i, vdc, eff := inp.vac, iac, inp.vdc, inp.eff;
            var jac := ConverterLinearize(mode, inp, idc, iac, absV, sm2, sinT);
            var s, s2 := Power(v, i).re, Power(Add(v, a), Add(i, b)).re;
            var p, p2 := vdc * idc, (vdc + c) * (idc + d);
            var dir := ACToDC(s, p);
            var rem := LossRemainder(dir, eff, Add(Mul(a, Conj(i)), Mul(v, Conj(b))).re,
                                     c * idc + vdc * d, Mul(a, Conj(b)).re, c * d, e);
            BranchLoss(dir, s2, p2, eff + e) == BranchLoss(dir, s, p, eff) + LossDirectional(jac.loss, a, b, c, d, e) + rem
  {
    var v, i, vdc, eff := inp.vac, iac, inp.vdc, inp.eff;
    var jac := ConverterLinearize(mode, inp, idc, iac, absV, sm2, sinT);
    var s, s2 := Power(v, i).re, Power(Add(v, a), Add(i, b)).re;
    var p, p2 := vdc * idc, (vdc + c) * (idc + d);
    var dir := ACToDC(s, p);
    ConverterLinearizeLoss(mode, inp, idc, iac, absV, sm2, sinT);
    assert jac.loss == LossPartialsOf(dir, PowerPartialsOf(v, i), s, vdc, idc, eff);
    LossPartialsExact(dir, v, i, vdc, idc, eff, a, b, c, d, e);
  }

  /**
   * The Ir_ac residual stays the same balance at any other point where the direction test
   * gives the same direction, so within one direction it moves as ConverterLossPartialsExact
   * says. The first clause only unfolds LossResidual; the second is the content.
   */
  lemma LossResidualFollowsBranch(s: real, p: real, eff: real, s2: real, p2: real, eff2: real)
    ensures LossResidual(s, p, eff) == BranchLoss(ACToDC(s, p), s, p, eff)
    ensures ACToDC(s2, p2) == ACToDC(s, p) ==> LossResidual(s2, p2, eff2) == BranchLoss(ACToDC(s, p), s2, p2, eff2)
  {
  }

  lemma ConverterLinearizeLoss(mode: ConverterMode, inp: ConverterInputs, idc: real, iac: Complex,
                                absV: real, sm2: real, sinT: real)
    requires absV != 0.0 && sm2 != 0.0 && sinT != 0.0
    ensures var s := Power(inp.vac, iac).re;
            ConverterLinearize(mode, inp, idc, iac, absV, sm2, sinT).loss
              == LossPartialsOf(ACToDC(s, inp.vdc * idc), PowerPartialsOf(inp.vac, iac), s, inp.vdc, idc, inp.eff)
  {
  }

  /**
   * Each direction's Ir_ac row is the derivative of that direction's loss balance: moving
   * V_ac by a, I_ac by b, V_dc by c, I_dc by d and eff by e moves the balance by exactly the
   * row's directional derivative plus the remainder.
   */
  lemma LossPartialsExact(dir: bool, v: Complex, i: Complex, vdc: real, idc: real, eff: real,
                          a: Complex, b: Complex, c: real, d: real, e: real)
    ensures var s, s2 := Power(v, i).re, Power(Add(v, a), Add(i, b)).re;
            var p, p2 := vdc * idc, (vdc + c) * (idc + d);
            var l := LossPartialsOf(dir, PowerPartialsOf(v, i), s, vdc, idc, eff);
            var rem := LossRemainder(dir, eff, Add(Mul(a, Conj(i)), Mul(v, Conj(b))).re,
                                     c * idc + vdc * d, Mul(a, Conj(b)).re, c * d, e);
            BranchLoss(dir, s2, p2, eff + e) == BranchLoss(dir, s, p, eff) + LossDirectional(l, a, b, c, d, e) + rem
  {
    if dir {
      LossExactACToDC(v, i, vdc, idc, eff, a, b, c, d, e);
    } else {
      LossExactDCToAC(v, i, vdc, idc, eff, a, b, c, d, e);
    }
  }

  lemma LossExactACToDC(v: Complex, i: Complex, vdc: real, idc: real, eff: real,
                          a: Complex, b: Complex, c: real, d: real, e: real)
    ensures var s, s2 := Power(v, i).re, Power(Add(v, a), Add(i, b)).re;
            var p, p2 := vdc * idc, (vdc + c) * (idc + d);
            var l := LossPartialsOf(true, PowerPartialsOf(v, i), s, vdc, idc, eff);
            var rem := LossRemainder(true, eff, Add(Mul(a, Conj(i)), Mul(v, Conj(b))).re,
                                     c * idc + vdc * d, Mul(a, Conj(b)).re, c * d, e);
            BranchLoss(true, s2, p2, eff + e) == BranchLoss(true, s, p, eff) + LossDirectional(l, a, b, c, d, e) + rem
  {
    var pw := PowerPartialsOf(v, i);
    var s, s2 := Power(v, i).re, Power(Add(v, a), Add(i, b)).re;
    var p, p2 := vdc * idc, (vdc + c) * (idc + d);
    var l := LossPartialsOf(true, pw, s, vdc, idc, eff);
    var ds := Add(Mul(a, Conj(i)), Mul(v, Conj(b))).re;
    var qs := Mul(a, Conj(b)).re;
    var dp := c * idc + vdc * d;
    PowerMoveRe(v, i, a, b);
    PowerRowRe(v, i, a, b);
    ProductMove(vdc, idc, c, d, p2);
    ACToDCDirectional(l, a, b, c, d, e, pw.dVr.re, pw.dVi.re, pw.dIr.re, pw.dIi.re, eff, idc, vdc, s, ds);
    ACToDCMove(s, p, eff, ds, qs, dp, c * d, e, s2, p2, LossDirectional(l, a, b, c, d, e));
  }

  lemma LossExactDCToAC(v: Complex, i: Complex, vdc: real, idc: real, eff: real,
                          a: Complex, b: Complex, c: real, d: real, e: real)
    ensures var s, s2 := Power(v, i).re, Power(Add(v, a), Add(i, b)).re;
            var p, p2 := vdc * idc, (vdc + c) * (idc + d);
            var l := LossPartialsOf(false, PowerPartialsOf(v, i), s, vdc, idc, eff);
            var rem := LossRemainder(false, eff, Add(Mul(a, Conj(i)), Mul(v, Conj(b))).re,
                                     c * idc + vdc * d, Mul(a, Conj(b)).re, c * d, e);
            BranchLoss(false, s2, p2, eff + e) == BranchLoss(false, s, p, eff) + LossDirectional(l, a, b, c, d, e) + rem
  {
    var pw := PowerPartialsOf(v, i);
    var s, s2 := Power(v, i).re, Power(Add(v, a), Add(i, b)).re;
    var p, p2 := vdc * idc, (vdc + c) * (idc + d);
    var l := LossPartialsOf(false, pw, s, vdc, idc, eff);
    var ds := Add(Mul(a, Conj(i)), Mul(v, Conj(b))).re;
    var qs := Mul(a, Conj(b)).re;
    var dp := c * idc + vdc * d;
    PowerMoveRe(v, i, a, b);
    PowerRowRe(v, i, a, b);
    ProductMove(vdc, idc, c, d, p2);
    DCToACDirectional(l, a, b, c, d, e, pw.dVr.re, pw.dVi.re, pw.dIr.re, pw.dIi.re, eff, idc, vdc, ds);
    DCToACMove(s, p, eff, ds, qs, dp, c * d, e, s2, p2, LossDirectional(l, a, b, c, d, e), vdc, idc, c, d);
  }

  lemma ACToDCDirectional(l: LossPartials, a: Complex, b: Complex, c: real, d: real, e: real,
                          x1: real, x2: real, x3: real, x4: real, eff: real, idc: real, vdc: real, s: real, ds: real)
    requires l == LossPartials(x1 * eff, x2 * eff, x3 * eff, x4 * eff, idc, vdc, s)
    requires a.re * x1 + a.im * x2 + b.re * x3 + b.im * x4 == ds
    ensures LossDirectional(l, a, b, c, d, e) == eff * ds + (c * idc + vdc * d) + e * s
  {
    ScaledRowSum(a.re, a.im, b.re, b.im, x1, x2, x3, x4, eff, ds);
  }

  lemma DCToACDirectional(l: LossPartials, a: Complex, b: Complex, c: real, d: real, e: real,
                          x1: real, x2: real, x3: real, x4: real, eff: real, idc: real, vdc: real, ds: real)
    requires l == LossPartials(x1, x2, x3, x4, idc * eff, vdc * eff, vdc * idc)
    requires a.re * x1 + a.im * x2 + b.re * x3 + b.im * x4 == ds
    ensures LossDirectional(l, a, b, c, d, e) == ds + (c * (idc * eff) + d * (vdc * eff)) + e * (vdc * idc)
  {
  }

  /** The real part of S_ac after a move: its value, first-order change and second-order change. */
  lemma PowerMoveRe(v: Complex, i: Complex, a: Complex, b: Complex)
    ensures Power(Add(v, a), Add(i, b)).re
         == Power(v, i).re + Add(Mul(a, Conj(i)), Mul(v, Conj(b))).re + Mul(a, Conj(b)).re
  {
    PowerMove(v, i, a, b);
  }

  /** The real part of the power rows' directional derivative is Re(a conj(I) + V conj(b)). */
  lemma PowerRowRe(v: Complex, i: Complex, a: Complex, b: Complex)
    ensures var pw := PowerPartialsOf(v, i);
            a.re * pw.dVr.re + a.im * pw.dVi.re + b.re * pw.dIr.re + b.im * pw.dIi.re
              == Add(Mul(a, Conj(i)), Mul(v, Conj(b))).re
  {
    PowerDirectionalForm(v, i, a, b, 0.0, 0.0);
  }

  lemma ProductMove(v: real, i: real, c: real, d: real, p2: real)
    requires p2 == (v + c) * (i + d)
    ensures p2 == v * i + (c * i + v * d) + c * d
  {
  }

  lemma ScaledRowSum(a1: real, a2: real, a3: real, a4: real, x1: real, x2: real, x3: real, x4: real,
                     eff: real, sum: real)
    requires sum == a1 * x1 + a2 * x2 + a3 * x3 + a4 * x4
    ensures a1 * (x1 * eff) + a2 * (x2 * eff) + a3 * (x3 * eff) + a4 * (x4 * eff) == eff * sum
  {
  }

  lemma ACToDCMove(s: real, p: real, eff: real, ds: real, qs: real, dp: real, cd: real, e: real,
                   s2: real, p2: real, dir: real)
    requires s2 == s + ds + qs && p2 == p + dp + cd
    requires dir == eff * ds + dp + e * s
    ensures BranchLoss(true, s2, p2, eff + e) == BranchLoss(true, s, p, eff) + dir + LossRemainder(true, eff, ds, dp, qs, cd, e)
  {
    assert s2 * (eff + e) + p2 == (s * eff + p) + dir + (eff * qs + e * (ds + qs) + cd);
  }

  lemma DCToACMove(s: real, p: real, eff: real, ds: real, qs: real, dp: real, cd: real, e: real,
                   s2: real, p2: real, dir: real, v: real, i: real, c: real, d: real)
    requires dp == c * i + v * d
    requires s2 == s + ds + qs && p2 == p + dp + cd
    requires dir == ds + (c * (i * eff) + d * (v * eff)) + e * p
    ensures BranchLoss(false, s2, p2, eff + e) == BranchLoss(false, s, p, eff) + dir + LossRemainder(false, eff, ds, dp, qs, cd, e)
  {
    assert s2 + p2 * (eff + e) == (s + p * eff) + dir + (qs + eff * cd + e * (dp + cd));
  }
}

/**
 * Inverter calculations: two implicit components tying an inverter's DC side to its AC side.
 * InverterCalcs owns P_dc, the AC voltage magnitude Vm_ac, the bus angle and the loss, and
 * takes the AC power as an input. InverterCalcs2 owns P_dc, P_ac, Q_ac and the loss, and
 * makes the AC voltage magnitude agree with M V_dc.
 */
module Inverter {
  import opened ComplexArith
  import opened Validation
  import opened Conversion
  import Converter

  /** How InverterCalcs fixes the bus angle: to a target phase, or through a power factor. */
  datatype ControlMode = Phase | PF

  /** The option string that names a control mode. */
  function ControlModeName(m: ControlMode): string
  {
    match m
    case Phase => "Phase"
    case PF => "PF"
  }

  /** setup accepts only 'Phase' and 'PF' and raises a ValueError naming any other mode. */
  function ParseControlMode(mode: string): (r: Result<ControlMode>)
    ensures r.Ok? <==> mode == "Phase" || mode == "PF"
    ensures r.Ok? ==> ControlModeName(r.value) == mode
    ensures r.Err? ==> r.message == "mode must be 'Phase' or 'PF', but '" + mode + "' was given."
  {
    if mode == "Phase" then Ok(Phase)
    else if mode == "PF" then Ok(PF)
    else Err("mode must be 'Phase' or 'PF', but '" + mode + "' was given.")
  }

  /** Every control mode is accepted under its own name. */
  lemma ParseControlModeName(m: ControlMode)
    ensures ParseControlMode(ControlModeName(m)) == Ok(m)
  {
    match m
    case Phase =>
    case PF =>
      assert ControlModeName(PF) != "Phase" by { assert |ControlModeName(PF)| == 2; }
  }

  /**
   * The inputs of InverterCalcs at one operating point. thetaTarget exists in Phase mode
   * only; pf and qac exist in PF mode only.
   */
  datatype CalcsInputs = CalcsInputs(m: real, eff: real, pac: real, vdc: real,
                                     thetaTarget: real, pf: real, qac: real)

  /** The residuals of the P_dc, Vm_ac and P_loss outputs, which do not depend on the mode. */
  datatype CalcsBalances = CalcsBalances(pdc: real, vmAC: real, ploss: real)

  /**
   * The P_dc, Vm_ac and P_loss residuals of apply_nonlinear. Each vanishes exactly when its
   * output holds the value solve_nonlinear gives it.
   */
  function CalcsBalancesOf(inp: CalcsInputs, pdc: real, vmAC: real, ploss: real): (r: CalcsBalances)
    requires inp.eff != 0.0
    ensures r.pdc == 0.0 <==> pdc * inp.eff == -inp.pac
    ensures r.vmAC == 0.0 <==> vmAC == inp.vdc * inp.m
    ensures r.ploss == 0.0 <==> ploss == inp.pac + pdc
  {
    CalcsBalances(EfficiencyResidual(inp.pac, inp.eff, pdc), inp.vdc * inp.m - vmAC,
                  LossBalance(inp.pac, pdc, ploss))
  }

  /**
   * The power-factor residual P/|S| - PF, with |S| = sqrt(P^2 + Q^2) given as absS. It
   * vanishes exactly when P = PF |S|, and then P^2 = PF^2 (P^2 + Q^2).
   */
  function PowerFactorResidual(p: real, q: real, absS: real, pf: real): (r: real)
    requires absS != 0.0 && IsSqrt(Sq(p) + Sq(q), absS)
    ensures r == 0.0 <==> p == pf * absS
    ensures r == 0.0 ==> Sq(p) == pf * pf * (Sq(p) + Sq(q))
  {
    PowerFactorZero(p, q, absS, pf);
    p / absS - pf
  }

  lemma PowerFactorZero(p: real, q: real, absS: real, pf: real)
    requires absS != 0.0 && IsSqrt(Sq(p) + Sq(q), absS)
    ensures p / absS - pf == 0.0 <==> p == pf * absS
    ensures p / absS - pf == 0.0 ==> Sq(p) == pf * pf * (Sq(p) + Sq(q))
  {
    var x := p / absS;
    assert x * absS == p;
    if x == pf {
      calc {
        Sq(p);
        (pf * absS) * (pf * absS);
        pf * pf * (absS * absS);
      }
    } else {
      assert (x - pf) * absS == p - pf * absS;
      MulNonzeroReal(x - pf, absS);
    }
  }

  /**
   * The thetaV_bus residual: thetaV_target - thetaV_bus in Phase mode; in PF mode the
   * power-factor residual, which does not involve thetaV_bus at all.
   */
  function ThetaResidual(mode: ControlMode, inp: CalcsInputs, thetaVBus: real, absS: real): (r: real)
    requires mode == PF ==> absS != 0.0 && IsSqrt(Sq(inp.pac) + Sq(inp.qac), absS)
    ensures mode == Phase ==> (r == 0.0 <==> thetaVBus == inp.thetaTarget)
    ensures mode == PF ==> (r == 0.0 <==> inp.pac == inp.pf * absS)
  {
    match mode
    case Phase => inp.thetaTarget - thetaVBus
    case PF => PowerFactorResidual(inp.pac, inp.qac, absS, inp.pf)
  }

  /** In PF mode the angle residual is the same whatever the bus angle. */
  lemma PFThetaFree(inp: CalcsInputs, theta1: real, theta2: real, absS: real)
    requires absS != 0.0 && IsSqrt(Sq(inp.pac) + Sq(inp.qac), absS)
    ensures ThetaResidual(PF, inp, theta1, absS) == ThetaResidual(PF, inp, theta2, absS)
  {
  }

  /** After solving, the loss is P_ac (1 - 1/eff): P_loss eff = P_ac (eff - 1), zero when eff = 1. */
  lemma CalcsSolvedLoss(inp: CalcsInputs, pdc: real, vmAC: real, ploss: real)
    requires inp.eff != 0.0
    requires CalcsBalancesOf(inp, pdc, vmAC, ploss) == CalcsBalances(0.0, 0.0, 0.0)
    ensures ploss * inp.eff == inp.pac * (inp.eff - 1.0)
    ensures inp.eff == 1.0 ==> ploss == 0.0
  {
    assert pdc * inp.eff == -inp.pac;
    calc {
      ploss * inp.eff;
      (inp.pac + pdc) * inp.eff;
      inp.pac * inp.eff + pdc * inp.eff;
    }
  }

  /** The outputs InverterCalcs owns. */
  class InverterCalcs {
    const mode: ControlMode
    var pdc: real
    var vmAC: real
    var thetaVBus: real
    var ploss: real

    /** The outputs start at their declared values. */
    constructor (mode: ControlMode)
      ensures this.mode == mode
      ensures pdc == 1.0 && vmAC == 1.0 && thetaVBus == 0.0 && ploss == 1.0
    {
      this.mode := mode;
      pdc, vmAC, thetaVBus, ploss := 1.0, 1.0, 0.0, 1.0;
    }

    /**
     * solve_nonlinear: P_dc, Vm_ac and then P_loss, from the P_dc just set, so that their
     * residuals vanish; in Phase mode the bus angle becomes the target, which zeroes the
     * angle residual, and in PF mode it is left as it was.
     */
    method SolveNonlinear(inp: CalcsInputs)
      requires inp.eff != 0.0
      modifies this`pdc, this`vmAC, this`ploss, this`thetaVBus
      ensures pdc == -inp.pac / inp.eff && vmAC == inp.vdc * inp.m && ploss == inp.pac + pdc
      ensures thetaVBus == if mode == Phase then inp.thetaTarget else old(thetaVBus)
      ensures CalcsBalancesOf(inp, pdc, vmAC, ploss) == CalcsBalances(0.0, 0.0, 0.0)
      ensures mode == Phase ==> ThetaResidual(mode, inp, thetaVBus, 0.0) == 0.0
    {
      pdc := -inp.pac / inp.eff;
      vmAC := inp.vdc * inp.m;
      ploss := inp.pac + pdc;
      if mode == Phase {
        thetaVBus := inp.thetaTarget;
      }
      assert pdc * inp.eff == -inp.pac;
    }
  }

  /** The Vm_ac row: the partials of V_dc M - Vm_ac. */
  datatype ModulationRow = ModulationRow(dVdc: real, dM: real, dVm: real)

  /** The thetaV_bus row: constants in Phase mode, the power-factor partials in PF mode. */
  datatype ThetaRow = PhaseRow(dTarget: real, dBus: real) | PFRow(dPac: real, dQac: real, dPF: real)

  /** Everything InverterCalcs.linearize writes, with the constant entries setup declares. */
  datatype CalcsJac = CalcsJac(pdc: EfficiencyRow, vmAC: ModulationRow, theta: ThetaRow)

  /**
   * linearize, with |S| = sqrt(P_ac^2 + Q_ac^2) given as absS and its cube
   * (P_ac^2 + Q_ac^2)^1.5 as absS3.
   */
  function CalcsLinearize(mode: ControlMode, inp: CalcsInputs, absS3: real): CalcsJac
    requires inp.eff != 0.0 && (mode == PF ==> absS3 != 0.0)
  {
    CalcsJac(EfficiencyRowOf(inp.pac, inp.eff),
             ModulationRow(inp.m, inp.vdc, -1.0),
             match mode
             case Phase => PhaseRow(1.0, -1.0)
             case PF => PFRowOf(inp.pac, inp.qac, absS3))
  }

  /**
   * The PF-mode thetaV_bus row, with (P_ac^2 + Q_ac^2)^1.5 given as absS3: Q_ac^2/absS3,
   * -P_ac Q_ac/absS3 and the declared -1.
   */
  function PFRowOf(p: real, q: real, absS3: real): ThetaRow
    requires absS3 != 0.0
  {
    PFRow(q * q / absS3, -p * q / absS3, -1.0)
  }

  /**
   * The P_dc, Vm_ac and Phase-mode rows are the derivatives of their residuals: P_ac and P_dc
   * moves are exact, an eff move by h is exact up to the factor eff/(eff + h), the Vm_ac
   * balance moves by its directional derivative plus the product of the V_dc and M moves,
   * and the Phase angle residual is linear.
   */
  lemma CalcsPartialsExact(mode: ControlMode, inp: CalcsInputs, pdc: real, vmAC: real, theta: real, absS3: real,
                           a: real, b: real, c: real, d: real, e: real, h: real)
    requires inp.eff != 0.0 && inp.eff + h != 0.0 && (mode == PF ==> absS3 != 0.0)
    ensures var jac := CalcsLinearize(mode, inp, absS3);
            EfficiencyResidual(inp.pac + a, inp.eff, pdc + b)
              == EfficiencyResidual(inp.pac, inp.eff, pdc) + a * jac.pdc.dP + b * jac.pdc.dQ &&
            EfficiencyResidual(inp.pac, inp.eff + h, pdc)
              == EfficiencyResidual(inp.pac, inp.eff, pdc) + h * jac.pdc.dEff * (inp.eff / (inp.eff + h))
    ensures var jac := CalcsLinearize(mode, inp, absS3);
            (inp.vdc + c) * (inp.m + d) - (vmAC + e)
              == (inp.vdc * inp.m - vmAC) + c * jac.vmAC.dVdc + d * jac.vmAC.dM + e * jac.vmAC.dVm + c * d
    ensures mode == Phase ==>
              var jac := CalcsLinearize(mode, inp, absS3);
              var inp2 := inp.(thetaTarget := inp.thetaTarget + c);
              ThetaResidual(Phase, inp2, theta + e, 0.0)
                == ThetaResidual(Phase, inp, theta, 0.0) + c * jac.theta.dTarget + e * jac.theta.dBus
  {
    EfficiencyRowExact(inp.pac, inp.eff, pdc, a, b, h);
    ProductStep(inp.vdc, inp.m, c, d);
  }

  /**
   * The PF-mode row is the gradient of P/|S| with respect to (P_ac, Q_ac): scaling S leaves
   * the residual unchanged (PowerFactorScaleFree) and the row gives no change along S; turning
   * S a quarter, (P, Q) to (-Q, P), changes P/|S| at rate -Q/|S|.
   */
  lemma PFRowGradient(inp: CalcsInputs, absS: real, absS3: real)
    requires inp.eff != 0.0 && absS > 0.0 && IsSqrt(Sq(inp.pac) + Sq(inp.qac), absS)
    requires absS3 == absS * (Sq(inp.pac) + Sq(inp.qac))
    ensures absS3 != 0.0
    ensures var row := CalcsLinearize(PF, inp, absS3).theta;
            inp.pac * row.dPac + inp.qac * row.dQac == 0.0 &&
            -inp.qac * row.dPac + inp.pac * row.dQac == -inp.qac / absS
  {
    var p, q := inp.pac, inp.qac;
    var n := Sq(p) + Sq(q);
    SqSign(absS);
    assert n == Sq(absS);
    MulNonzeroReal(absS, n);
    assert CalcsLinearize(PF, inp, absS3).theta == PFRowOf(p, q, absS3);
    PFRowEntries(p, q, absS, n, absS3);
  }

  /**
   * The PF entry of the PF-mode row is exact: the residual P/|S| - PF is linear in PF with
   * slope -1.
   */
  lemma PFRowPFEntry(inp: CalcsInputs, absS: real, absS3: real, pf2: real)
    requires inp.eff != 0.0 && absS != 0.0 && IsSqrt(Sq(inp.pac) + Sq(inp.qac), absS) && absS3 != 0.0
    ensures PowerFactorResidual(inp.pac, inp.qac, absS, pf2)
              == PowerFactorResidual(inp.pac, inp.qac, absS, inp.pf) + (pf2 - inp.pf) * CalcsLinearize(PF, inp, absS3).theta.dPF
  {
    var x := inp.pac / absS;
    assert PowerFactorResidual(inp.pac, inp.qac, absS, pf2) == x - pf2;
    assert PowerFactorResidual(inp.pac, inp.qac, absS, inp.pf) == x - inp.pf;
  }

  lemma PFRowEntries(p: real, q: real, r: real, n: real, c: real)
    requires r != 0.0 && n != 0.0 && c == r * n && n == Sq(p) + Sq(q)
    ensures c != 0.0
    ensures var row := PFRowOf(p, q, c);
            p * row.dPac + q * row.dQac == 0.0 && -q * row.dPac + p * row.dQac == -q / r
  {
    var e1, e2 := q * q / c, -p * q / c;
    MulNonzeroReal(r, n);
    assert e1 * c == q * q && e2 * c == -p * q;
    var along := p * e1 + q * e2;
    assert along * c == p * (q * q) + q * (-p * q);
    ZeroFactor(along, c);
    var across := -q * e1 + p * e2;
    assert across * c == -q * (q * q) + p * (-p * q);
    assert across * c == -q * n;
    var t := -q / r;
    assert t * r == -q;
    assert t * c == -q * n by {
      calc {
        t * c;
        t * (r * n);
        (t * r) * n;
      }
    }
    assert (across - t) * c == 0.0;
    ZeroFactor(across - t, c);
  }

  /**
   * P/|S| depends only on the direction of S: scaling P and Q by t > 0 scales |S| by t and
   * leaves the power-factor residual unchanged.
   */
  lemma PowerFactorScaleFree(p: real, q: real, absS: real, pf: real, t: real)
    requires absS != 0.0 && IsSqrt(Sq(p) + Sq(q), absS) && t > 0.0
    ensures t * absS != 0.0 && IsSqrt(Sq(t * p) + Sq(t * q), t * absS)
    ensures PowerFactorResidual(t * p, t * q, t * absS, pf) == PowerFactorResidual(p, q, absS, pf)
  {
    MulNonzeroReal(t, absS);
    assert Sq(t * p) + Sq(t * q) == (t * t) * (Sq(p) + Sq(q));
    assert (t * absS) * (t * absS) == (t * t) * (absS * absS);
    var x := p / absS;
    assert x * absS == p;
    assert x * (t * absS) == t * p;
    Quotient(x, t * p, t * absS);
  }

  /** The inputs InverterCalcs2 reads at one operating point. */
  datatype Calcs2Inputs = Calcs2Inputs(m: real, eff: real, pf: real, vdc: real, vac: Complex, pdcGuess: real)

  /** The four residuals of InverterCalcs2.apply_nonlinear, by output. */
  datatype Calcs2Residuals = Calcs2Residuals(pdc: real, pac: real, qac: real, ploss: real)

  /**
   * InverterCalcs2.apply_nonlinear, with |V_ac| given as absV and sqrt(1/PF^2 - 1) as k.
   * Each residual vanishes exactly when its condition holds, and a vanishing Q_ac residual
   * gives the configured power factor.
   */
  function Calcs2ResidualsOf(mode: Converter.ConverterMode, inp: Calcs2Inputs, pdc: real, pac: real, qac: real,
                             ploss: real, absV: real, k: real): (r: Calcs2Residuals)
    requires IsSqrt(NormSq(inp.vac), absV)
    requires inp.pf != 0.0 && IsSqrt(FactorSquared(inp.pf), k)
    ensures r.pdc == 0.0 <==> absV == inp.vdc * inp.m
    ensures r.pac == 0.0 <==> pac == -(pdc * inp.eff)
    ensures r.qac == 0.0 <==> qac == ReactiveFor(mode, pac, k)
    ensures r.qac == 0.0 ==> Sq(pac) == inp.pf * inp.pf * (Sq(pac) + Sq(qac))
    ensures r.ploss == 0.0 <==> ploss == pac + pdc
  {
    ReactivePowerFactor(mode, inp.pf, pac, k);
    Calcs2Residuals(inp.vdc * inp.m - absV, pac + pdc * inp.eff, ReactiveResidual(mode, pac, k, qac),
                    LossBalance(pac, pdc, ploss))
  }

  /** The outputs InverterCalcs2 owns. */
  class InverterCalcs2 {
    const mode: Converter.ConverterMode
    var pdc: real
    var pac: real
    var qac: real
    var ploss: real

    /** The outputs start at their declared values. */
    constructor (mode: Converter.ConverterMode)
      ensures this.mode == mode
      ensures pdc == 1.0 && pac == 1.0 && qac == 1.0 && ploss == 1.0
    {
      this.mode := mode;
      pdc, pac, qac, ploss := 1.0, 1.0, 1.0, 1.0;
    }

    /**
     * guess_nonlinear: P_dc becomes the guess, then P_ac and Q_ac follow from it, which zeroes
     * their residuals; P_loss is left as it was.
     */
    method GuessNonlinear(inp: Calcs2Inputs, k: real)
      requires inp.pf != 0.0 && IsSqrt(FactorSquared(inp.pf), k)
      modifies this`pdc, this`pac, this`qac
      ensures pdc == inp.pdcGuess && pac == -pdc * inp.eff && qac == ReactiveFor(mode, pac, k)
      ensures ploss == old(ploss)
      ensures forall absV | IsSqrt(NormSq(inp.vac), absV) ::
                var r := Calcs2ResidualsOf(mode, inp, pdc, pac, qac, ploss, absV, k);
                r.pac == 0.0 && r.qac == 0.0
    {
      pdc := inp.pdcGuess;
      pac := -pdc * inp.eff;
      if mode == Converter.Lead {
        qac := -pac * k;
      } else {
        qac := pac * k;
      }
    }

    /**
     * solve_nonlinear: P_ac from the current P_dc, P_loss from the P_ac just set, and Q_ac,
     * which zeroes those three residuals; P_dc is left as it was, and the loss comes out as
     * P_dc (1 - eff).
     */
    method SolveNonlinear(inp: Calcs2Inputs, k: real)
      requires inp.pf != 0.0 && IsSqrt(FactorSquared(inp.pf), k)
      modifies this`pac, this`ploss, this`qac
      ensures pdc == old(pdc)
      ensures pac == -pdc * inp.eff && ploss == pac + pdc && qac == ReactiveFor(mode, pac, k)
      ensures ploss == pdc * (1.0 - inp.eff)
      ensures forall absV | IsSqrt(NormSq(inp.vac), absV) ::
                var r := Calcs2ResidualsOf(mode, inp, pdc, pac, qac, ploss, absV, k);
                r.pac == 0.0 && r.qac == 0.0 && r.ploss == 0.0
    {
      pac := -pdc * inp.eff;
      ploss := pac + pdc;
      if mode == Converter.Lead {
        qac := -pac * k;
      } else {
        qac := pac * k;
      }
    }
  }

  /** The P_dc row of InverterCalcs2: the partials of V_dc M - |V_ac|. */
  datatype MagnitudeRow = MagnitudeRow(dVdc: real, dM: real, dVr: real, dVi: real)

  /** The P_ac row: the partials of P_ac + P_dc eff. */
  datatype TransferRow = TransferRow(dPdc: real, dEff: real, dPac: real)

  /** Everything InverterCalcs2.linearize writes, with the constant entries setup declares. */
  datatype Calcs2Jac = Calcs2Jac(pdc: MagnitudeRow, pac: TransferRow, qac: ReactiveRow)

  /** InverterCalcs2.linearize, with |V_ac| given as absV and sqrt(1/PF^2 - 1) as k. */
  function Calcs2Linearize(mode: Converter.ConverterMode, inp: Calcs2Inputs, pdc: real, pac: real,
                           absV: real, k: real): Calcs2Jac
    requires absV != 0.0 && k != 0.0 && inp.pf != 0.0
  {
    Calcs2Jac(MagnitudeRow(inp.m, inp.vdc, -inp.vac.re / absV, -inp.vac.im / absV),
              TransferRow(inp.eff, pdc, 1.0),
              ReactiveRowOf(mode, k, -pac / k / (inp.pf * inp.pf * inp.pf)))
  }

  /**
   * The P_dc row is the derivative of V_dc M - |V_ac|: V_dc and M moves change the balance by
   * their partials plus the product of the moves, and the V_ac entries change it at rate
   * -|V_ac| along V_ac and not at all across it, the derivatives of -|V_ac|.
   */
  lemma Calcs2MagnitudeRow(mode: Converter.ConverterMode, inp: Calcs2Inputs, pdc: real, pac: real, absV: real, k: real, c: real, d: real)
    requires inp.vac != Zero && IsSqrt(NormSq(inp.vac), absV)
    requires k != 0.0 && inp.pf != 0.0
    ensures absV != 0.0
    ensures var row := Calcs2Linearize(mode, inp, pdc, pac, absV, k).pdc;
            ((inp.vdc + c) * (inp.m + d) - absV) == (inp.vdc * inp.m - absV) + c * row.dVdc + d * row.dM + c * d
    ensures var row := Calcs2Linearize(mode, inp, pdc, pac, absV, k).pdc;
            var v := inp.vac;
            v.re * row.dVr + v.im * row.dVi == -absV && -v.im * row.dVr + v.re * row.dVi == 0.0
  {
    NormSqPos(inp.vac);
    var v := inp.vac;
    assert absV > 0.0;
    var row := Calcs2Linearize(mode, inp, pdc, pac, absV, k).pdc;
    assert row.dVr * absV == -1.0 * v.re && row.dVi * absV == -1.0 * v.im;
    MagnitudeGradient(v.re, v.im, absV, -1.0, row.dVr, row.dVi,
                      v.re * row.dVr + v.im * row.dVi, -v.im * row.dVr + v.re * row.dVi);
    ProductStep(inp.vdc, inp.m, c, d);
  }

  /**
   * The P_ac row is the derivative of P_ac + P_dc eff: moving P_dc, eff and P_ac by
   * (b, e, a) moves it by the row's directional derivative plus the product b e.
   */
  lemma Calcs2TransferRowExact(mode: Converter.ConverterMode, inp: Calcs2Inputs, pdc: real, pac: real,
                               absV: real, k: real, a: real, b: real, e: real)
    requires absV != 0.0 && k != 0.0 && inp.pf != 0.0
    ensures var row := Calcs2Linearize(mode, inp, pdc, pac, absV, k).pac;
            (pac + a) + (pdc + b) * (inp.eff + e)
              == (pac + pdc * inp.eff) + b * row.dPdc + e * row.dEff + a * row.dPac + b * e
  {
    ProductStep(pdc, inp.eff, b, e);
  }

  /**
   * The Q_ac row is the derivative of the reactive balance: the P_ac and Q_ac entries are
   * exact, and the PF entry is P_ac dk/dPF in the sense of ReactivePFPartial.
   */
  lemma Calcs2ReactiveRow(mode: Converter.ConverterMode, inp: Calcs2Inputs, pdc: real, pac: real, qac: real,
                          absV: real, k: real, a: real, c: real, h: real, k2: real)
    requires absV != 0.0 && inp.pf != 0.0 && inp.pf + h != 0.0
    requires IsSqrt(FactorSquared(inp.pf), k) && k != 0.0 && IsSqrt(FactorSquared(inp.pf + h), k2)
    ensures var row := Calcs2Linearize(mode, inp, pdc, pac, absV, k).qac;
            ReactiveResidual(mode, pac + a, k, qac + c) == ReactiveResidual(mode, pac, k, qac) + a * row.dP + c * row.dQ &&
            2.0 * k * row.dPF == pac * InvSqSlope(inp.pf) &&
            (pac * k2 - pac * k) * (k2 + k) == h * (2.0 * k * row.dPF) + h * h * (pac * InvSqRemainder(inp.pf, h))
  {
    var row := Calcs2Linearize(mode, inp, pdc, pac, absV, k).qac;
    ReactiveRowExact(mode, pac, k, qac, row.dPF, a, c);
    PFEntry(pac, k, inp.pf, row.dPF);
    ReactivePFPartial(pac, inp.pf, k, row.dPF, h, k2);
  }

  /** The PF entry -P_ac/k/PF^3 is the value d with d k PF^3 = -P_ac. */
  lemma PFEntry(p: real, k: real, pf: real, d: real)
    requires k != 0.0 && pf != 0.0 && d == -p / k / (pf * pf * pf)
    ensures d * (k * (pf * pf * pf)) == -p
  {
    assert pf * pf * pf != 0.0;
    var x := -p / k;
    assert x * k == -p;
    assert d * (pf * pf * pf) == x;
    calc {
      d * (k * (pf * pf * pf));
      (d * (pf * pf * pf)) * k;
      x * k;
    }
  }
}

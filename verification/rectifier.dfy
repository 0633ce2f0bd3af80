/**
 * RectifierCalcs: the implicit component of a rectifier that, from the DC power it delivers,
 * fixes the AC power it draws, the DC voltage magnitude, the reactive power set by the
 * power factor and the loss.
 */
module Rectifier {
  import opened ComplexArith
  import opened Conversion
  import Converter

  /** The inputs of RectifierCalcs at one operating point. */
  datatype RectifierInputs = RectifierInputs(m: real, eff: real, pf: real, pdc: real, vac: Complex)

  /** The four residuals of apply_nonlinear, by output. */
  datatype RectifierResiduals = RectifierResiduals(pac: real, vmDC: real, qac: real, ploss: real)

  /**
   * apply_nonlinear, with |V_ac| given as absV and sqrt(1/PF^2 - 1) as k. The reactive
   * balance is the lagging one, P_ac k - Q_ac. Each residual vanishes exactly when its output
   * holds the value solve_nonlinear gives it.
   */
  function RectifierResidualsOf(inp: RectifierInputs, pac: real, vmDC: real, qac: real, ploss: real,
                                absV: real, k: real): (r: RectifierResiduals)
    requires inp.eff != 0.0 && IsSqrt(NormSq(inp.vac), absV)
    requires inp.pf != 0.0 && IsSqrt(FactorSquared(inp.pf), k)
    ensures r.pac == 0.0 <==> pac * inp.eff == -inp.pdc
    ensures r.vmDC == 0.0 <==> vmDC == absV * inp.m
    ensures r.qac == 0.0 <==> qac == pac * k
    ensures r.qac == 0.0 ==> Sq(pac) == inp.pf * inp.pf * (Sq(pac) + Sq(qac))
    ensures r.ploss == 0.0 <==> ploss == pac + inp.pdc
  {
    ReactivePowerFactor(Converter.Lag, inp.pf, pac, k);
    RectifierResiduals(EfficiencyResidual(inp.pdc, inp.eff, pac), absV * inp.m - vmDC,
                       ReactiveResidual(Converter.Lag, pac, k, qac), LossBalance(pac, inp.pdc, ploss))
  }

  /**
   * After solving, the loss is P_dc (1 - 1/eff), so P_loss eff = P_dc (eff - 1) and it is zero
   * when eff = 1; and Q_ac is zero or has the sign of P_ac.
   */
  lemma RectifierSolvedOutputs(inp: RectifierInputs, pac: real, vmDC: real, qac: real, ploss: real,
                               absV: real, k: real)
    requires inp.eff != 0.0 && IsSqrt(NormSq(inp.vac), absV)
    requires inp.pf != 0.0 && IsSqrt(FactorSquared(inp.pf), k)
    requires RectifierResidualsOf(inp, pac, vmDC, qac, ploss, absV, k) == RectifierResiduals(0.0, 0.0, 0.0, 0.0)
    ensures ploss * inp.eff == inp.pdc * (inp.eff - 1.0)
    ensures inp.eff == 1.0 ==> ploss == 0.0
    ensures qac == 0.0 || (qac > 0.0 <==> pac > 0.0)
  {
    assert pac * inp.eff == -inp.pdc;
    calc {
      ploss * inp.eff;
      (pac + inp.pdc) * inp.eff;
      pac * inp.eff + inp.pdc * inp.eff;
    }
    assert qac == pac * k;
    if qac != 0.0 {
      assert k > 0.0 && pac != 0.0;
      if pac > 0.0 {
        MulPositive(k, pac, 0.0);
        assert k * 0.0 == 0.0;
      } else {
        MulPositive(k, 0.0, pac);
        assert k * 0.0 == 0.0;
      }
    }
  }

  /** The outputs RectifierCalcs owns. */
  class RectifierCalcs {
    var pac: real
    var vmDC: real
    var qac: real
    var ploss: real

    /** The outputs start at their declared values. */
    constructor ()
      ensures pac == 1.0 && vmDC == 1.0 && qac == 1.0 && ploss == 1.0
    {
      pac, vmDC, qac, ploss := 1.0, 1.0, 1.0, 1.0;
    }

    /**
     * solve_nonlinear, with |V_ac| given as absV and sqrt(1/PF^2 - 1) as k: P_ac, Vm_dc, then
     * Q_ac and P_loss from the P_ac just set, which zeroes all four residuals.
     */
    method SolveNonlinear(inp: RectifierInputs, absV: real, k: real)
      requires inp.eff != 0.0 && IsSqrt(NormSq(inp.vac), absV)
      requires inp.pf != 0.0 && IsSqrt(FactorSquared(inp.pf), k)
      modifies this
      ensures pac == -inp.pdc / inp.eff && vmDC == absV * inp.m && qac == pac * k && ploss == pac + inp.pdc
      ensures RectifierResidualsOf(inp, pac, vmDC, qac, ploss, absV, k) == RectifierResiduals(0.0, 0.0, 0.0, 0.0)
    {
      pac := -inp.pdc / inp.eff;
      vmDC := absV * inp.m;
      qac := pac * k;
      ploss := pac + inp.pdc;
      assert pac * inp.eff == -inp.pdc;
    }
  }

  /** The Vm_dc row: the partials of |V_ac| M - Vm_dc. */
  datatype MagnitudeRow = MagnitudeRow(dVr: real, dVi: real, dM: real, dVm: real)

  /** Everything linearize writes, with the constant entries setup declares. */
  datatype RectifierJac = RectifierJac(pac: EfficiencyRow, vmDC: MagnitudeRow, qac: ReactiveRow)

  /** linearize, with |V_ac| given as absV and sqrt(1/PF^2 - 1) as k. */
  function RectifierLinearize(inp: RectifierInputs, pac: real, absV: real, k: real): RectifierJac
    requires inp.eff != 0.0 && absV != 0.0 && k != 0.0 && inp.pf != 0.0
  {
    RectifierJac(EfficiencyRowOf(inp.pdc, inp.eff),
                 MagnitudeRow(inp.m * inp.vac.re / absV, inp.m * inp.vac.im / absV, absV, -1.0),
                 ReactiveRowOf(Converter.Lag, k, PFEntryOf(pac, inp.pf, k)))
  }

  /** The PF entry of the Q_ac row, -P_ac/(PF^3 k). */
  function PFEntryOf(pac: real, pf: real, k: real): real
    requires pf != 0.0 && k != 0.0
  {
    -pac / (pf * pf * pf * k)
  }

  /**
   * The P_ac row is the derivative of P_dc/eff + P_ac: P_dc and P_ac moves are exact, and an
   * eff move by h is exact up to the factor eff/(eff + h).
   */
  lemma RectifierEfficiencyRow(inp: RectifierInputs, pac: real, absV: real, k: real, a: real, c: real, h: real)
    requires inp.eff != 0.0 && inp.eff + h != 0.0 && absV != 0.0 && k != 0.0 && inp.pf != 0.0
    ensures var row := RectifierLinearize(inp, pac, absV, k).pac;
            EfficiencyResidual(inp.pdc + a, inp.eff, pac + c) == EfficiencyResidual(inp.pdc, inp.eff, pac) + a * row.dP + c * row.dQ &&
            EfficiencyResidual(inp.pdc, inp.eff + h, pac) == EfficiencyResidual(inp.pdc, inp.eff, pac) + h * row.dEff * (inp.eff / (inp.eff + h))
  {
    EfficiencyRowExact(inp.pdc, inp.eff, pac, a, c, h);
  }

  /**
   * The Vm_dc row is the derivative of |V_ac| M - Vm_dc: the V_ac entries change it at rate
   * M |V_ac| along V_ac and not at all across it, and M and Vm_dc moves are exact.
   */
  lemma RectifierMagnitudeRow(inp: RectifierInputs, pac: real, vmDC: real, absV: real, k: real, d: real, e: real)
    requires inp.eff != 0.0 && k != 0.0 && inp.pf != 0.0
    requires inp.vac != Zero && IsSqrt(NormSq(inp.vac), absV)
    ensures absV != 0.0
    ensures var row := RectifierLinearize(inp, pac, absV, k).vmDC;
            var v := inp.vac;
            v.re * row.dVr + v.im * row.dVi == inp.m * absV && -v.im * row.dVr + v.re * row.dVi == 0.0 &&
            absV * (inp.m + d) - (vmDC + e) == (absV * inp.m - vmDC) + d * row.dM + e * row.dVm
  {
    NormSqPos(inp.vac);
    var v := inp.vac;
    assert absV > 0.0;
    var row := RectifierLinearize(inp, pac, absV, k).vmDC;
    assert row.dVr * absV == inp.m * v.re && row.dVi * absV == inp.m * v.im;
    MagnitudeGradient(v.re, v.im, absV, inp.m, row.dVr, row.dVi,
                      v.re * row.dVr + v.im * row.dVi, -v.im * row.dVr + v.re * row.dVi);
  }

  /**
   * The Q_ac row is the derivative of P_ac k - Q_ac: the P_ac and Q_ac entries are exact, and
   * the PF entry is P_ac dk/dPF in the sense of ReactivePFPartial.
   */
  lemma RectifierReactiveRow(inp: RectifierInputs, pac: real, qac: real, absV: real, k: real,
                             a: real, c: real, h: real, k2: real)
    requires inp.eff != 0.0 && absV != 0.0 && inp.pf != 0.0 && inp.pf + h != 0.0
    requires IsSqrt(FactorSquared(inp.pf), k) && k != 0.0 && IsSqrt(FactorSquared(inp.pf + h), k2)
    ensures var row := RectifierLinearize(inp, pac, absV, k).qac;
            ReactiveResidual(Converter.Lag, pac + a, k, qac + c)
              == ReactiveResidual(Converter.Lag, pac, k, qac) + a * row.dP + c * row.dQ &&
            2.0 * k * row.dPF == pac * InvSqSlope(inp.pf) &&
            (pac * k2 - pac * k) * (k2 + k) == h * (2.0 * k * row.dPF) + h * h * (pac * InvSqRemainder(inp.pf, h))
  {
    var d := PFEntryOf(pac, inp.pf, k);
    ReactiveRowExact(Converter.Lag, pac, k, qac, d, a, c);
    PFEntry(pac, k, inp.pf, d);
    ReactivePFPartial(pac, inp.pf, k, d, h, k2);
  }

  /** The PF entry -P_ac/(PF^3 k) is the value d with d k PF^3 = -P_ac. */
  lemma PFEntry(p: real, k: real, pf: real, d: real)
    requires k != 0.0 && pf != 0.0 && d == PFEntryOf(p, pf, k)
    ensures d * (k * (pf * pf * pf)) == -p
  {
    assert pf * pf * pf * k != 0.0;
    assert d * (pf * pf * pf * k) == -p;
  }
}

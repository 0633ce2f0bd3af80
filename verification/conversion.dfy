/**
 * Algebra shared by the inverter and rectifier calculation components: the efficiency
 * balance p/eff + q between the powers on the two sides of a converter stage, the reactive
 * power p k that a power factor PF implies through k = sqrt(1/PF^2 - 1), the magnitude
 * |V| of a phasor, and the partials linearize writes for each of them.
 */
module Conversion {
  import opened ComplexArith
  import PowerBalance
  import Converter

  /**
   * The efficiency balance p/eff + q. It vanishes exactly when q is the power on the other
   * side of a stage of efficiency eff that carries p, counted with the opposite sign.
   */
  function EfficiencyResidual(p: real, eff: real, q: real): (r: real)
    requires eff != 0.0
    ensures r == 0.0 <==> q * eff == -p
  {
    QuotientZero(p, eff, q);
    p / eff + q
  }

  lemma QuotientZero(p: real, eff: real, q: real)
    requires eff != 0.0
    ensures p / eff + q == 0.0 <==> q * eff == -p
  {
    var x := p / eff;
    assert x * eff == p;
    assert (x + q) * eff == p + q * eff;
    if x + q == 0.0 {
      assert q * eff == -p;
    } else {
      MulNonzeroReal(x + q, eff);
    }
  }

  /** The partials of the efficiency balance with respect to p, eff and q. */
  datatype EfficiencyRow = EfficiencyRow(dP: real, dEff: real, dQ: real)

  /** The entries linearize writes: 1/eff, -p/eff^2 and the declared 1. */
  function EfficiencyRowOf(p: real, eff: real): EfficiencyRow
    requires eff != 0.0
  {
    EfficiencyRow(1.0 / eff, -p / (eff * eff), 1.0)
  }

  /**
   * The row holds the derivatives of the balance: moving p by a and q by c moves the
   * balance by exactly a J[p] + c J[q], and moving eff by h moves it by h J[eff] eff/(eff + h),
   * whose factor tends to 1 with h.
   */
  lemma EfficiencyRowExact(p: real, eff: real, q: real, a: real, c: real, h: real)
    requires eff != 0.0 && eff + h != 0.0
    ensures var row := EfficiencyRowOf(p, eff);
            EfficiencyResidual(p + a, eff, q + c) == EfficiencyResidual(p, eff, q) + a * row.dP + c * row.dQ &&
            EfficiencyResidual(p, eff + h, q) == EfficiencyResidual(p, eff, q) + h * row.dEff * (eff / (eff + h))
  {
    QuotientLinear(p, eff, a);
    QuotientStep(p, eff, h);
  }

  /** k^2 as a function of the power factor: (1/PF)^2 - 1. */
  function FactorSquared(pf: real): real
    requires pf != 0.0
  {
    InvSq(pf) - 1.0
  }

  /**
   * InvSqSlope is the derivative of FactorSquared, with the explicit remainder of InvSq:
   * moving PF by h moves (1/PF)^2 - 1 as it moves (1/PF)^2.
   */
  lemma FactorSquaredExact(pf: real, h: real)
    requires pf != 0.0 && pf + h != 0.0
    ensures FactorSquared(pf + h) == FactorSquared(pf) + h * InvSqSlope(pf) + h * h * InvSqRemainder(pf, h)
  {
    InvSqExact(pf, h);
  }

  /**
   * The PF partial of a reactive balance p k (+/-) q is p dk/dPF. The entry d written by
   * linearize satisfies d k PF^3 = -p; differentiating k^2 = FactorSquared(PF) gives
   * 2 k dk/dPF = InvSqSlope(PF), and 2 k d is exactly p times that slope. Moving PF
   * by h, to a power factor whose factor is k2, moves p k by h (2 k d)/(k2 + k) plus a
   * second-order term, and (k2 + k) tends to 2 k.
   */
  lemma ReactivePFPartial(p: real, pf: real, k: real, d: real, h: real, k2: real)
    requires pf != 0.0 && pf + h != 0.0
    requires IsSqrt(FactorSquared(pf), k) && IsSqrt(FactorSquared(pf + h), k2)
    requires d * (k * (pf * pf * pf)) == -p
    ensures 2.0 * k * d == p * InvSqSlope(pf)
    ensures (p * k2 - p * k) * (k2 + k) == h * (2.0 * k * d) + h * h * (p * InvSqRemainder(pf, h))
  {
    var u := 1.0 / pf;
    assert u * pf == 1.0;
    assert d * k == -p * (u * u * u) by {
      var one := (u * pf) * (u * pf) * (u * pf);
      assert one == 1.0;
      calc {
        d * k;
        d * k * one;
        (d * (k * (pf * pf * pf))) * (u * u * u);
      }
    }
    assert InvSqSlope(pf) == -2.0 * (u * u * u);
    FactorSquaredExact(pf, h);
    assert (k2 - k) * (k2 + k) == FactorSquared(pf + h) - FactorSquared(pf);
    calc {
      (p * k2 - p * k) * (k2 + k);
      p * ((k2 - k) * (k2 + k));
      p * (h * InvSqSlope(pf) + h * h * InvSqRemainder(pf, h));
    }
  }

  /**
   * Magnitude rows: an entry pair e with e |V| = m V (the partials of m |V| with respect to
   * Vr and Vi) changes at rate m |V| when V moves along itself and not at all when V turns a
   * quarter, which are the two derivatives of m |V|.
   */
  lemma MagnitudeGradient(vr: real, vi: real, r: real, m: real, e1: real, e2: real, along: real, across: real)
    requires r > 0.0 && r * r == Sq(vr) + Sq(vi) && e1 * r == m * vr && e2 * r == m * vi
    requires along == vr * e1 + vi * e2 && across == -vi * e1 + vr * e2
    ensures along == m * r && across == 0.0
  {
    assert along * r == vr * (e1 * r) + vi * (e2 * r);
    assert (along - m * r) * r == 0.0;
    ZeroFactor(along - m * r, r);
    assert across * r == -vi * (e1 * r) + vr * (e2 * r);
    ZeroFactor(across, r);
  }

  /** FactorSquared is the radicand 1/PF^2 - 1 that the power-factor guesses use. */
  lemma FactorSquaredForm(pf: real)
    requires pf != 0.0
    ensures FactorSquared(pf) == 1.0 / (pf * pf) - 1.0
  {
    var u := 1.0 / pf;
    assert (u * u) * (pf * pf) == (u * pf) * (u * pf);
    Quotient(u * u, 1.0, pf * pf);
  }

  /**
   * The reactive power a power factor implies for the real power p: -k p when the current
   * leads the voltage, k p when it lags.
   */
  function ReactiveFor(mode: Converter.ConverterMode, p: real, k: real): real
  {
    match mode
    case Lead => -(p * k)
    case Lag => p * k
  }

  /** For the same real power, the leading and lagging reactive powers are negations. */
  lemma ReactiveForSymmetry(p: real, k: real)
    ensures ReactiveFor(Converter.Lag, p, k) == -ReactiveFor(Converter.Lead, p, k)
  {
  }

  /** p and ReactiveFor(mode, p, k) have power factor PF: p^2 = PF^2 (p^2 + q^2). */
  lemma ReactivePowerFactor(mode: Converter.ConverterMode, pf: real, p: real, k: real)
    requires pf != 0.0 && IsSqrt(FactorSquared(pf), k)
    ensures Sq(p) == pf * pf * (Sq(p) + Sq(ReactiveFor(mode, p, k)))
  {
    FactorSquaredForm(pf);
    PowerBalance.GuessPowerFactor(pf, p, k);
    assert Sq(ReactiveFor(mode, p, k)) == Sq(p * k);
  }

  /**
   * The reactive balance p k + q (leading) or p k - q (lagging): zero exactly when q is the
   * reactive power the power factor implies.
   */
  function ReactiveResidual(mode: Converter.ConverterMode, p: real, k: real, q: real): (r: real)
    ensures r == 0.0 <==> q == ReactiveFor(mode, p, k)
  {
    match mode
    case Lead => p * k + q
    case Lag => p * k - q
  }

  /** The partials of the reactive balance with respect to p, PF and q. */
  datatype ReactiveRow = ReactiveRow(dP: real, dPF: real, dQ: real)

  /**
   * The reactive row with dPF given: k for p, and the declared 1 (leading) or -1 (lagging)
   * for q.
   */
  function ReactiveRowOf(mode: Converter.ConverterMode, k: real, dPF: real): ReactiveRow
  {
    ReactiveRow(k, dPF, match mode case Lead => 1.0 case Lag => -1.0)
  }

  /** The p and q entries are exact: the balance is linear in p and q for a fixed PF. */
  lemma ReactiveRowExact(mode: Converter.ConverterMode, p: real, k: real, q: real, dPF: real, a: real, c: real)
    ensures var row := ReactiveRowOf(mode, k, dPF);
            ReactiveResidual(mode, p + a, k, q + c) == ReactiveResidual(mode, p, k, q) + a * row.dP + c * row.dQ
  {
  }

  /** The power balance a + b - l of the two terminal powers and the loss. */
  function LossBalance(a: real, b: real, l: real): (r: real)
    ensures r == 0.0 <==> l == a + b
  {
    a + b - l
  }

  /**
   * The declared loss row: 1 for each terminal power and -1 for the loss; the balance is
   * linear, so moving its arguments by (c, d, e) moves it by exactly c + d - e. This is the
   * constant P_loss row of InverterCalcs, InverterCalcs2 and RectifierCalcs alike.
   */
  lemma LossBalanceRow(a: real, b: real, l: real, c: real, d: real, e: real)
    ensures LossBalance(a + c, b + d, l + e) == LossBalance(a, b, l) + c * 1.0 + d * 1.0 + e * -1.0
  {
  }

  /**
   * A product x y moved by (c, d) changes by c y + d x, its two partials, plus the
   * second-order term c d.
   */
  lemma ProductStep(x: real, y: real, c: real, d: real)
    ensures (x + c) * (y + d) == x * y + c * y + d * x + c * d
  {
  }

}

/**
 * ThermalMass: an explicit component giving the convective heat flow of a body in a fluid
 * and the resulting rate of change of the body's temperature, with their partials.
 *
 * As written, the convective term is h area (T_f - T_b), described as the heat the body
 * loses, and it is subtracted from the heat the body generates; so a body hotter than the
 * fluid heats up. The heat actually lost is h area (T_b - T_f), which is the component as
 * written with the two temperatures exchanged: ThermalComputeCorrected is defined that way.
 */
module ThermalMass {
  import opened ComplexArith

  /** The inputs of ThermalMass. */
  datatype ThermalInputs = ThermalInputs(area: real, mass: real, tf: real, tb: real, h: real, cp: real, qdotIn: real)

  /** The outputs of compute. */
  datatype ThermalOut = ThermalOut(qdotOut: real, dTdt: real)

  /**
   * compute, as written: the convective heat h area (T_f - T_b), and the rate of temperature
   * change, which satisfies the energy balance dTdt mass c_p = Qdot_in - Qdot_out. Equal
   * temperatures carry no convective heat.
   */
  function ThermalCompute(inp: ThermalInputs): (o: ThermalOut)
    requires inp.mass != 0.0 && inp.cp != 0.0
    ensures o.dTdt * (inp.mass * inp.cp) == inp.qdotIn - o.qdotOut
    ensures inp.tf == inp.tb ==> o.qdotOut == 0.0 && o.dTdt * (inp.mass * inp.cp) == inp.qdotIn
  {
    MulNonzeroReal(inp.mass, inp.cp);
    var q := inp.h * inp.area * (inp.tf - inp.tb);
    ThermalOut(q, (inp.qdotIn - q) / (inp.mass * inp.cp))
  }

  /** The inputs with the fluid and body temperatures exchanged. */
  function Swapped(inp: ThermalInputs): ThermalInputs
  {
    inp.(tf := inp.tb, tb := inp.tf)
  }

  /**
   * compute with the convective term taken as the heat the body loses, h area (T_b - T_f):
   * the energy balance still holds, and the heat lost is the negation of the term as written.
   */
  function ThermalComputeCorrected(inp: ThermalInputs): (o: ThermalOut)
    requires inp.mass != 0.0 && inp.cp != 0.0
    ensures o.dTdt * (inp.mass * inp.cp) == inp.qdotIn - o.qdotOut
    ensures o.qdotOut == -ThermalCompute(inp).qdotOut
  {
    ThermalCompute(Swapped(inp))
  }

  /**
   * As written, a body at 500 K in a 273 K fluid, with h = 7, area = 1, mass c_p = 240 and no
   * heat generated, warms up, and the heat it is said to lose is negative.
   */
  lemma HotBodyWarmsAsWritten()
    ensures var inp := ThermalInputs(1.0, 5.0, 273.0, 500.0, 7.0, 48.0, 0.0);
            var o := ThermalCompute(inp);
            inp.tb > inp.tf && o.qdotOut < 0.0 && o.dTdt > 0.0
  {
    var inp := ThermalInputs(1.0, 5.0, 273.0, 500.0, 7.0, 48.0, 0.0);
    var o := ThermalCompute(inp);
    assert o.qdotOut == -1589.0;
    assert o.dTdt * 240.0 == 1589.0;
  }

  /**
   * Corrected, convection moves the body's temperature toward the fluid's: with no heat
   * generated, a positive h area and a positive heat capacity, the body warms exactly when
   * the fluid is hotter and cools exactly when it is colder, and the heat it loses is
   * positive exactly when it is the hotter one.
   */
  lemma ConvectionRelaxes(inp: ThermalInputs)
    requires inp.qdotIn == 0.0 && inp.h * inp.area > 0.0 && inp.mass * inp.cp > 0.0
    ensures inp.mass != 0.0 && inp.cp != 0.0
    ensures var o := ThermalComputeCorrected(inp);
            (o.qdotOut > 0.0 <==> inp.tb > inp.tf) &&
            (o.dTdt > 0.0 <==> inp.tf > inp.tb) &&
            (o.dTdt < 0.0 <==> inp.tf < inp.tb)
  {
    var o := ThermalComputeCorrected(inp);
    var k, d, mc := inp.h * inp.area, inp.tb - inp.tf, inp.mass * inp.cp;
    assert o.qdotOut == k * d;
    SignOfProduct(k, d);
    assert o.dTdt * mc == -o.qdotOut;
    SignOfProduct(mc, o.dTdt);
    assert mc * o.dTdt == -(k * d);
  }

  /** The sign of k x, for k > 0, is the sign of x. */
  lemma SignOfProduct(k: real, x: real)
    requires k > 0.0
    ensures (k * x > 0.0 <==> x > 0.0) && (k * x < 0.0 <==> x < 0.0)
  {
    if x > 0.0 {
      MulPositive(k, x, 0.0);
    } else if x < 0.0 {
      MulPositive(k, 0.0, x);
    }
  }

  /** The Qdot_out row: partials with respect to h, area, T_f and T_b. */
  datatype HeatRow = HeatRow(dH: real, dArea: real, dTf: real, dTb: real)

  /** The dTdt row: partials with respect to Qdot_in, h, area, T_f, T_b, mass and c_p. */
  datatype RateRow = RateRow(dQin: real, dH: real, dArea: real, dTf: real, dTb: real, dMass: real, dCp: real)

  /** Everything compute_partials writes. */
  datatype ThermalJac = ThermalJac(qdotOut: HeatRow, dTdt: RateRow)

  /**
   * compute_partials, as written. The mass and c_p partials -net/(mass^2 c_p) and
   * -net/(mass c_p^2), for net = Qdot_in - Qdot_out, are written as -net/(mass c_p) divided
   * by mass and by c_p (CapacityPartialsForm).
   */
  function ThermalPartials(inp: ThermalInputs): ThermalJac
    requires inp.mass != 0.0 && inp.cp != 0.0
  {
    MulNonzeroReal(inp.mass, inp.cp);
    var d, k := inp.tf - inp.tb, inp.h * inp.area;
    var mc := inp.mass * inp.cp;
    var net := inp.qdotIn - k * d;
    ThermalJac(HeatRow(inp.area * d, inp.h * d, k, -k),
               RateRow(1.0 / mc, -inp.area * d / mc, -inp.h * d / mc, -k / mc, k / mc,
                       -net / mc / inp.mass, -net / mc / inp.cp))
  }

  /**
   * The partials of the corrected component: those as written at the exchanged
   * temperatures, with the T_f and T_b columns exchanged.
   */
  function ThermalPartialsCorrected(inp: ThermalInputs): ThermalJac
    requires inp.mass != 0.0 && inp.cp != 0.0
  {
    var jac := ThermalPartials(Swapped(inp));
    ThermalJac(jac.qdotOut.(dTf := jac.qdotOut.dTb, dTb := jac.qdotOut.dTf),
               jac.dTdt.(dTf := jac.dTdt.dTb, dTb := jac.dTdt.dTf))
  }

  /**
   * Jacobian structure: the T_b partials are the negations of the T_f partials, with
   * J[Qdot_out, T_f] = h area; the Qdot_in partial of dTdt is 1/(mass c_p); each dTdt partial
   * with respect to h, area, T_f and T_b is minus the matching Qdot_out partial over
   * mass c_p (the chain rule through the energy balance); and the mass and c_p partials
   * times mass^2 c_p and mass c_p^2 give -(Qdot_in - Qdot_out).
   */
  lemma ThermalPartialsStructure(inp: ThermalInputs)
    requires inp.mass != 0.0 && inp.cp != 0.0
    ensures var jac, mc := ThermalPartials(inp), inp.mass * inp.cp;
            jac.qdotOut.dTf == inp.h * inp.area &&
            jac.qdotOut.dTb == -jac.qdotOut.dTf && jac.dTdt.dTb == -jac.dTdt.dTf &&
            jac.dTdt.dQin * mc == 1.0 &&
            jac.dTdt.dH * mc == -jac.qdotOut.dH && jac.dTdt.dArea * mc == -jac.qdotOut.dArea &&
            jac.dTdt.dTf * mc == -jac.qdotOut.dTf && jac.dTdt.dTb * mc == -jac.qdotOut.dTb
  {
    MulNonzeroReal(inp.mass, inp.cp);
  }

  /**
   * The mass and c_p partials are -net/(mass^2 c_p) and -net/(mass c_p^2) for the net heat
   * net = Qdot_in - Qdot_out.
   */
  lemma CapacityPartialsForm(inp: ThermalInputs)
    requires inp.mass != 0.0 && inp.cp != 0.0
    ensures var jac, net := ThermalPartials(inp), inp.qdotIn - ThermalCompute(inp).qdotOut;
            jac.dTdt.dMass * (inp.mass * inp.mass * inp.cp) == -net &&
            jac.dTdt.dCp * (inp.mass * (inp.cp * inp.cp)) == -net
  {
    var jac, m, cp := ThermalPartials(inp), inp.mass, inp.cp;
    var net := inp.qdotIn - inp.h * inp.area * (inp.tf - inp.tb);
    MulNonzeroReal(m, cp);
    var q := -net / (m * cp);
    assert q * (m * cp) == -net;
    OverFactor(jac.dTdt.dMass, q, m, m * cp, m * m * cp);
    OverFactor(jac.dTdt.dCp, q, cp, m * cp, m * (cp * cp));
  }

  /** j (a b) = q b when j = q/a, and so j c = -net when c = a b and q b = -net. */
  lemma OverFactor(j: real, q: real, a: real, b: real, c: real)
    requires a != 0.0 && j == q / a && c == a * b
    ensures j * c == q * b
  {
    assert j * a == q;
  }

  /**
   * The Qdot_in, h and area partials are derivatives of compute: a move of one of them by e
   * changes each output by exactly e times its partial, both outputs being linear in each.
   */
  lemma ThermalCoefficientPartialsExact(inp: ThermalInputs, e: real)
    requires inp.mass != 0.0 && inp.cp != 0.0
    ensures var jac, o := ThermalPartials(inp), ThermalCompute(inp);
            ThermalCompute(inp.(qdotIn := inp.qdotIn + e)) == ThermalOut(o.qdotOut, o.dTdt + e * jac.dTdt.dQin) &&
            ThermalCompute(inp.(h := inp.h + e)) == ThermalOut(o.qdotOut + e * jac.qdotOut.dH, o.dTdt + e * jac.dTdt.dH) &&
            ThermalCompute(inp.(area := inp.area + e)) == ThermalOut(o.qdotOut + e * jac.qdotOut.dArea, o.dTdt + e * jac.dTdt.dArea)
  {
    QdotInMove(inp, e);
    CoefficientMove(inp, e);
    AreaMove(inp, e);
  }

  /**
   * The T_f and T_b partials are derivatives of compute: a move of either temperature by e
   * changes each output by exactly e times its partial.
   */
  lemma ThermalTemperaturePartialsExact(inp: ThermalInputs, e: real)
    requires inp.mass != 0.0 && inp.cp != 0.0
    ensures var jac, o := ThermalPartials(inp), ThermalCompute(inp);
            ThermalCompute(inp.(tf := inp.tf + e)) == ThermalOut(o.qdotOut + e * jac.qdotOut.dTf, o.dTdt + e * jac.dTdt.dTf) &&
            ThermalCompute(inp.(tb := inp.tb + e)) == ThermalOut(o.qdotOut + e * jac.qdotOut.dTb, o.dTdt + e * jac.dTdt.dTb)
  {
    FluidMove(inp, e);
    BodyMove(inp, e);
  }

  lemma QdotInMove(inp: ThermalInputs, e: real)
    requires inp.mass != 0.0 && inp.cp != 0.0
    ensures var jac, o := ThermalPartials(inp), ThermalCompute(inp);
            ThermalCompute(inp.(qdotIn := inp.qdotIn + e)) == ThermalOut(o.qdotOut, o.dTdt + e * jac.dTdt.dQin)
  {
    HeatMove(inp, inp.(qdotIn := inp.qdotIn + e), e, 0.0, ThermalPartials(inp).dTdt.dQin, 1.0);
  }

  lemma CoefficientMove(inp: ThermalInputs, e: real)
    requires inp.mass != 0.0 && inp.cp != 0.0
    ensures var jac, o := ThermalPartials(inp), ThermalCompute(inp);
            ThermalCompute(inp.(h := inp.h + e)) == ThermalOut(o.qdotOut + e * jac.qdotOut.dH, o.dTdt + e * jac.dTdt.dH)
  {
    var jac, d := ThermalPartials(inp), inp.tf - inp.tb;
    HeatMove(inp, inp.(h := inp.h + e), e, jac.qdotOut.dH, jac.dTdt.dH, -(inp.area * d));
  }

  lemma AreaMove(inp: ThermalInputs, e: real)
    requires inp.mass != 0.0 && inp.cp != 0.0
    ensures var jac, o := ThermalPartials(inp), ThermalCompute(inp);
            ThermalCompute(inp.(area := inp.area + e)) == ThermalOut(o.qdotOut + e * jac.qdotOut.dArea, o.dTdt + e * jac.dTdt.dArea)
  {
    var jac, d := ThermalPartials(inp), inp.tf - inp.tb;
    HeatMove(inp, inp.(area := inp.area + e), e, jac.qdotOut.dArea, jac.dTdt.dArea, -(inp.h * d));
  }

  lemma FluidMove(inp: ThermalInputs, e: real)
    requires inp.mass != 0.0 && inp.cp != 0.0
    ensures var jac, o := ThermalPartials(inp), ThermalCompute(inp);
            ThermalCompute(inp.(tf := inp.tf + e)) == ThermalOut(o.qdotOut + e * jac.qdotOut.dTf, o.dTdt + e * jac.dTdt.dTf)
  {
    var jac := ThermalPartials(inp);
    HeatMove(inp, inp.(tf := inp.tf + e), e, jac.qdotOut.dTf, jac.dTdt.dTf, -(inp.h * inp.area));
  }

  lemma BodyMove(inp: ThermalInputs, e: real)
    requires inp.mass != 0.0 && inp.cp != 0.0
    ensures var jac, o := ThermalPartials(inp), ThermalCompute(inp);
            ThermalCompute(inp.(tb := inp.tb + e)) == ThermalOut(o.qdotOut + e * jac.qdotOut.dTb, o.dTdt + e * jac.dTdt.dTb)
  {
    var jac := ThermalPartials(inp);
    HeatMove(inp, inp.(tb := inp.tb + e), e, jac.qdotOut.dTb, jac.dTdt.dTb, inp.h * inp.area);
  }

  /**
   * A move of the inputs that keeps Qdot_in, mass and c_p and changes the convective heat by
   * e dq changes the outputs by e dq and e j, for the dTdt entry j = g/(mass c_p), g = -dq.
   * A move of Qdot_in alone by e is the case dq = 0 with g = 1.
   */
  lemma HeatMove(inp: ThermalInputs, inp2: ThermalInputs, e: real, dq: real, j: real, g: real)
    requires inp.mass != 0.0 && inp.cp != 0.0
    requires inp2.mass == inp.mass && inp2.cp == inp.cp
    requires inp2.h * inp2.area * (inp2.tf - inp2.tb) == inp.h * inp.area * (inp.tf - inp.tb) + e * dq
    requires (dq == 0.0 && g == 1.0 && inp2.qdotIn == inp.qdotIn + e) || (g == -dq && inp2.qdotIn == inp.qdotIn)
    requires j == g / (inp.mass * inp.cp)
    ensures var o := ThermalCompute(inp);
            ThermalCompute(inp2) == ThermalOut(o.qdotOut + e * dq, o.dTdt + e * j)
  {
    var o := ThermalCompute(inp);
    MulNonzeroReal(inp.mass, inp.cp);
    RateMove(inp.qdotIn - o.qdotOut, inp.mass * inp.cp, e, j, g);
  }

  /**
   * The mass and c_p partials are derivatives of dTdt: a move of the mass by e changes dTdt
   * by e J[mass] mass/(mass + e), and a move of c_p by e by e J[c_p] c_p/(c_p + e), whose
   * factors tend to 1 with e.
   */
  lemma ThermalCapacityPartialsExact(inp: ThermalInputs, e: real)
    requires inp.mass != 0.0 && inp.cp != 0.0
    ensures inp.mass + e != 0.0 ==>
              ThermalCompute(inp.(mass := inp.mass + e)).dTdt
                == ThermalCompute(inp).dTdt + e * ThermalPartials(inp).dTdt.dMass * (inp.mass / (inp.mass + e))
    ensures inp.cp + e != 0.0 ==>
              ThermalCompute(inp.(cp := inp.cp + e)).dTdt
                == ThermalCompute(inp).dTdt + e * ThermalPartials(inp).dTdt.dCp * (inp.cp / (inp.cp + e))
  {
    if inp.mass + e != 0.0 {
      MassMove(inp, e);
    }
    if inp.cp + e != 0.0 {
      HeatCapacityMove(inp, e);
    }
  }

  lemma MassMove(inp: ThermalInputs, e: real)
    requires inp.mass != 0.0 && inp.cp != 0.0 && inp.mass + e != 0.0
    ensures ThermalCompute(inp.(mass := inp.mass + e)).dTdt
              == ThermalCompute(inp).dTdt + e * ThermalPartials(inp).dTdt.dMass * (inp.mass / (inp.mass + e))
  {
    var m, cp := inp.mass, inp.cp;
    var net := inp.qdotIn - inp.h * inp.area * (inp.tf - inp.tb);
    CapacityForm(inp);
    CapacityStep(net, m, cp, e, ThermalPartials(inp).dTdt.dMass, m * cp, (m + e) * cp);
    RateForm(inp);
    RateForm(inp.(mass := m + e));
  }

  lemma HeatCapacityMove(inp: ThermalInputs, e: real)
    requires inp.mass != 0.0 && inp.cp != 0.0 && inp.cp + e != 0.0
    ensures ThermalCompute(inp.(cp := inp.cp + e)).dTdt
              == ThermalCompute(inp).dTdt + e * ThermalPartials(inp).dTdt.dCp * (inp.cp / (inp.cp + e))
  {
    var m, cp := inp.mass, inp.cp;
    var net := inp.qdotIn - inp.h * inp.area * (inp.tf - inp.tb);
    CapacityForm(inp);
    CapacityStep(net, cp, m, e, ThermalPartials(inp).dTdt.dCp, m * cp, m * (cp + e));
    RateForm(inp);
    RateForm(inp.(cp := cp + e));
  }

  /** The mass and c_p partials as quotients of the net heat. */
  lemma CapacityForm(inp: ThermalInputs)
    requires inp.mass != 0.0 && inp.cp != 0.0
    ensures var net := inp.qdotIn - inp.h * inp.area * (inp.tf - inp.tb);
            inp.mass * inp.cp != 0.0 &&
            ThermalPartials(inp).dTdt.dMass == -net / (inp.mass * inp.cp) / inp.mass &&
            ThermalPartials(inp).dTdt.dCp == -net / (inp.mass * inp.cp) / inp.cp
  {
    MulNonzeroReal(inp.mass, inp.cp);
  }

  /** dTdt is the net heat over the heat capacity mass c_p. */
  lemma RateForm(inp: ThermalInputs)
    requires inp.mass != 0.0 && inp.cp != 0.0
    ensures inp.mass * inp.cp != 0.0
    ensures ThermalCompute(inp).dTdt == (inp.qdotIn - inp.h * inp.area * (inp.tf - inp.tb)) / (inp.mass * inp.cp)
  {
    MulNonzeroReal(inp.mass, inp.cp);
  }

  /**
   * The corrected partials are derivatives of the corrected compute: moves of T_f and T_b
   * change its outputs by exactly the move times the partial, and its T_b partial is the
   * negation of its T_f partial, J[Qdot_out, T_b] = h area.
   */
  lemma ThermalPartialsCorrectedExact(inp: ThermalInputs, e: real)
    requires inp.mass != 0.0 && inp.cp != 0.0
    ensures var jac, o := ThermalPartialsCorrected(inp), ThermalComputeCorrected(inp);
            jac.qdotOut.dTb == inp.h * inp.area && jac.qdotOut.dTf == -jac.qdotOut.dTb &&
            ThermalComputeCorrected(inp.(tf := inp.tf + e)) == ThermalOut(o.qdotOut + e * jac.qdotOut.dTf, o.dTdt + e * jac.dTdt.dTf) &&
            ThermalComputeCorrected(inp.(tb := inp.tb + e)) == ThermalOut(o.qdotOut + e * jac.qdotOut.dTb, o.dTdt + e * jac.dTdt.dTb)
  {
    var sw := Swapped(inp);
    ThermalTemperaturePartialsExact(sw, e);
    ThermalPartialsStructure(sw);
    assert Swapped(inp.(tf := inp.tf + e)) == sw.(tb := sw.tb + e);
    assert Swapped(inp.(tb := inp.tb + e)) == sw.(tf := sw.tf + e);
  }

  /**
   * dTdt is linear in the heat it is given: net + e g over mc is net/mc plus e times the
   * entry j, when j mc = g.
   */
  lemma RateMove(net: real, mc: real, e: real, j: real, g: real)
    requires mc != 0.0 && j == g / mc
    ensures (net + e * g) / mc == net / mc + e * j
  {
    QuotientLinear(net, mc, e * g);
    assert (e * g) * (1.0 / mc) == e * (g / mc);
  }

  /**
   * The capacity partial: when x moves by e, net/p0 for p0 = x y moves to net/p1 for
   * p1 = (x + e) y by e j x/(x + e), where j is the partial -net/(x^2 y), written -net/p0/x.
   */
  lemma CapacityStep(net: real, x: real, y: real, e: real, j: real, p0: real, p1: real)
    requires x != 0.0 && y != 0.0 && x + e != 0.0 && p0 == x * y && p1 == (x + e) * y
    requires p0 != 0.0 && j == -net / p0 / x
    ensures p1 != 0.0 && net / p1 == net / p0 + e * j * (x / (x + e))
  {
    var u, v, g := 1.0 / x, 1.0 / y, 1.0 / (x + e);
    assert u * x == 1.0 && v * y == 1.0 && g * (x + e) == 1.0;
    RecipQuotient(net, x, y, u, v);
    RecipQuotient(net, x + e, y, g, v);
    RecipQuotient(-net, x, y, u, v);
    RecipOver(j, -net * u * v, x, u);
    var f := x * g;
    Quotient(f, x, x + e);
    RecipStep(x, e, u, g);
    StepCombine(net, x, e, u, v, g, net * u * v, j, f, net * g * v);
  }

  /** j = q u when j = q/x and u is the reciprocal of x. */
  lemma RecipOver(j: real, q: real, x: real, u: real)
    requires u * x == 1.0 && j == q / x
    ensures j == q * u
  {
    assert (q * u) * x == q * (u * x);
    Quotient(q * u, q, x);
  }

  /** p/(x y) is p u v for reciprocals u of x and v of y. */
  lemma RecipQuotient(p: real, x: real, y: real, u: real, v: real)
    requires u * x == 1.0 && v * y == 1.0
    ensures x * y != 0.0 && p / (x * y) == p * u * v
  {
    assert (u * v) * (x * y) == (u * x) * (v * y);
    assert p * u * v * (x * y) == p * ((u * v) * (x * y));
    Quotient(p * u * v, p, x * y);
  }

  /** The reciprocal of x + e is u - e u g, for u the reciprocal of x and g that of x + e. */
  lemma RecipStep(x: real, e: real, u: real, g: real)
    requires u * x == 1.0 && g * (x + e) == 1.0
    ensures g == u - e * u * g
  {
    assert (g - u + e * u * g) * x == g * (x + e) - u * x by {
      calc {
        (g - u + e * u * g) * x;
        g * x - u * x + e * g * (u * x);
        g * x - u * x + e * g;
      }
    }
    ZeroFactor(g - u + e * u * g, x);
  }

  /** Collects the capacity step net g v = net u v + e j (x g) from the reciprocal identities. */
  lemma StepCombine(net: real, x: real, e: real, u: real, v: real, g: real, a: real, j: real, f: real, b: real)
    requires u * x == 1.0 && g == u - e * u * g
    requires a == net * u * v && j == -net * u * v * u && f == x * g && b == net * g * v
    ensures b == a + e * j * f
  {
    var t := e * u * g;
    assert e * j * f == -(net * v) * t * (u * x);
    assert e * j * f == -(net * v) * t;
    assert a + e * j * f == (net * v) * (u - t);
  }
}

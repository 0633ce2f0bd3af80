/**
 * Resistor: an explicit component of the network-voltage elements giving the currents at
 * the two ends of a resistance R from the terminal voltages. Its sign convention is the
 * reverse of the load-flow DC line: I_in is the current that flows from V_out to V_in.
 */
module Resistor {
  import opened ComplexArith
  import Line

  /** The outputs of compute. */
  datatype ResistorOut = ResistorOut(iIn: real, iOut: real)

  /**
   * compute: Ohm's law across the resistor, I_in R = V_out - V_in, with the current leaving
   * at the other end equal and opposite, so that equal voltages carry no current.
   */
  function ResistorCompute(vIn: real, vOut: real, r: real): (o: ResistorOut)
    requires r != 0.0
    ensures r * o.iIn == vOut - vIn
    ensures o.iIn + o.iOut == 0.0
    ensures vIn == vOut ==> o.iIn == 0.0 && o.iOut == 0.0
  {
    var x := (vOut - vIn) / r;
    var y := (vIn - vOut) / r;
    assert r * x == vOut - vIn && r * y == vIn - vOut;
    assert (x + y) * r == 0.0;
    ZeroFactor(x + y, r);
    ResistorOut(x, y)
  }

  /**
   * The resistor's I_in is the negation of the DC line's I_in for the same terminals and
   * resistance, and its I_out is the DC line's I_in.
   */
  lemma ResistorOppositeToDCLine(vIn: real, vOut: real, r: real)
    requires r != 0.0
    ensures ResistorCompute(vIn, vOut, r).iIn == -Line.DCLineCompute(vIn, vOut, r).iIn
    ensures ResistorCompute(vIn, vOut, r).iOut == Line.DCLineCompute(vIn, vOut, r).iIn
  {
    var o := ResistorCompute(vIn, vOut, r);
    var l := Line.DCLineCompute(vIn, vOut, r);
    assert r * (o.iIn + l.iIn) == 0.0;
    ZeroFactor(o.iIn + l.iIn, r);
  }

  /** The partials of one output with respect to V_in, V_out and R. */
  datatype ResistorRow = ResistorRow(dVin: real, dVout: real, dR: real)

  /** Everything compute_partials writes. */
  datatype ResistorJac = ResistorJac(iIn: ResistorRow, iOut: ResistorRow)

  /** compute_partials for one operating point. */
  function ResistorPartials(vIn: real, vOut: real, r: real): ResistorJac
    requires r != 0.0
  {
    ResistorJac(ResistorRow(-1.0 / r, 1.0 / r, -(vOut - vIn) / (r * r)),
                ResistorRow(1.0 / r, -1.0 / r, -(vIn - vOut) / (r * r)))
  }

  /**
   * Jacobian structure: every I_out partial is the negation of the matching I_in partial,
   * and J[I_in, R] = -I_in/R.
   */
  lemma ResistorPartialsStructure(vIn: real, vOut: real, r: real)
    requires r != 0.0
    ensures var jac := ResistorPartials(vIn, vOut, r);
            jac.iOut.dVin == -jac.iIn.dVin && jac.iOut.dVout == -jac.iIn.dVout && jac.iOut.dR == -jac.iIn.dR
    ensures ResistorPartials(vIn, vOut, r).iIn.dR == -ResistorCompute(vIn, vOut, r).iIn / r
  {
    var jac := ResistorPartials(vIn, vOut, r);
    var d := vOut - vIn;
    var i := d / r;
    assert i * r == d;
    var w := jac.iIn.dR;
    assert w * (r * r) == -d;
    assert (w * r + i) * r == 0.0;
    ZeroFactor(w * r + i, r);
    Quotient(w, -i, r);
    assert jac.iOut.dR * (r * r) == d;
    assert (jac.iOut.dR + w) * (r * r) == 0.0;
    MulNonzeroReal(r, r);
    ZeroFactor(jac.iOut.dR + w, r * r);
  }

  /**
   * The partials are derivatives of compute: moving V_in by a and V_out by b moves I_in by
   * exactly a J[V_in] + b J[V_out], and moving R by h moves it by h J[R] R/(R + h), whose
   * factor tends to 1 with h.
   */
  lemma ResistorPartialsExact(vIn: real, vOut: real, r: real, a: real, b: real, h: real)
    requires r != 0.0 && r + h != 0.0
    ensures var jac := ResistorPartials(vIn, vOut, r);
            ResistorCompute(vIn + a, vOut + b, r).iIn == ResistorCompute(vIn, vOut, r).iIn + a * jac.iIn.dVin + b * jac.iIn.dVout &&
            ResistorCompute(vIn, vOut, r + h).iIn == ResistorCompute(vIn, vOut, r).iIn + h * jac.iIn.dR * (r / (r + h))
  {
    var d := vOut - vIn;
    QuotientLinear(d, r, b - a);
    assert (vOut + b) - (vIn + a) == d + (b - a);
    assert (b - a) * (1.0 / r) == a * (-1.0 / r) + b * (1.0 / r);
    QuotientStep(d, r, h);
  }
}

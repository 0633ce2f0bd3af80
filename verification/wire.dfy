/**
 * Wire: the explicit components of an electric wire. WireMassVolume gives the surface area,
 * volume and mass of a cylindrical wire from its length, diameter and density; WirePerf
 * gives the resistance of the wire and the current, voltage and power at its far end, and
 * the heat it generates.
 *
 * As written, WirePerf takes the length partial of the resistance to be the resistance
 * itself, and the heat generated to be I R, which is a voltage; the heat the wire turns the
 * lost power into is I^2 R. WirePerfPartialsAsWritten and WirePerfAsWritten keep those
 * expressions; WirePerfPartials and WirePerfCompute are the corrected forms.
 */
module Wire {
  import opened ComplexArith

  // ---------------------------------------------------------------- WireMassVolume

  /** The outputs of WireMassVolume. */
  datatype MassVolumeOut = MassVolumeOut(area: real, volume: real, mass: real)

  /**
   * compute of WireMassVolume: the lateral area pi dia length and the volume
   * pi (dia/2)^2 length of the cylinder, and its mass. The mass is density times the
   * volume, the volume is the area times dia/4, and none of them is negative for a
   * non-negative length, diameter and density.
   */
  function WireMassVolume(length: real, dia: real, density: real): (o: MassVolumeOut)
    ensures o.mass == density * o.volume
    ensures o.volume * 4.0 == o.area * dia
    ensures length >= 0.0 && dia >= 0.0 ==> o.area >= 0.0 && o.volume >= 0.0
    ensures length >= 0.0 && dia >= 0.0 && density >= 0.0 ==> o.mass >= 0.0
  {
    var r := dia / 2.0;
    var o := MassVolumeOut(Pi * dia * length, Pi * (r * r) * length, density * Pi * (r * r) * length);
    assert o.volume * 4.0 == o.area * dia;
    CylinderSigns(length, dia, density);
    o
  }

  /** Area, volume and mass of the cylinder are not negative for non-negative dimensions. */
  lemma CylinderSigns(length: real, dia: real, density: real)
    ensures length >= 0.0 && dia >= 0.0 ==> Pi * dia * length >= 0.0 && Pi * ((dia / 2.0) * (dia / 2.0)) * length >= 0.0
    ensures length >= 0.0 && dia >= 0.0 && density >= 0.0 ==> density * Pi * ((dia / 2.0) * (dia / 2.0)) * length >= 0.0
  {
    var r := dia / 2.0;
    if length >= 0.0 && dia >= 0.0 {
      NonNegProduct(Pi * dia, length);
      SqSign(r);
      NonNegProduct(Pi * (r * r), length);
      if density >= 0.0 {
        NonNegProduct(density, Pi * (r * r) * length);
        assert density * Pi * (r * r) * length == density * (Pi * (r * r) * length);
      }
    }
  }

  /** A product of non-negative reals is non-negative. */
  lemma NonNegProduct(x: real, y: real)
    requires x >= 0.0 && y >= 0.0
    ensures x * y >= 0.0
  {
    if x > 0.0 && y > 0.0 {
      MulPositive(x, y, 0.0);
    }
  }

  /** Everything compute_partials of WireMassVolume writes. */
  datatype MassVolumeJac = MassVolumeJac(areaDia: real, areaLength: real, volumeDia: real, volumeLength: real,
                                         massDia: real, massLength: real, massDensity: real)

  /** compute_partials of WireMassVolume. */
  function WireMassVolumePartials(length: real, dia: real, density: real): MassVolumeJac
  {
    var r := dia / 2.0;
    MassVolumeJac(Pi * length, Pi * dia,
                  Pi / 2.0 * dia * length, Pi * (r * r),
                  density * Pi / 2.0 * dia * length, density * Pi * (r * r), Pi * (r * r) * length)
  }

  /**
   * Jacobian structure: the density partial of the mass is the volume, and the length and
   * diameter partials of the mass are density times those of the volume.
   */
  lemma WireMassVolumePartialsStructure(length: real, dia: real, density: real)
    ensures var jac, o := WireMassVolumePartials(length, dia, density), WireMassVolume(length, dia, density);
            jac.massDensity == o.volume &&
            jac.massLength == density * jac.volumeLength && jac.massDia == density * jac.volumeDia
  {
  }

  /**
   * The length and density partials are derivatives of compute: area, volume and mass are
   * linear in the length and the density, so moving either by e moves them by exactly e times
   * the partial.
   */
  lemma WireMassVolumeLinearExact(length: real, dia: real, density: real, e: real)
    ensures var jac, o := WireMassVolumePartials(length, dia, density), WireMassVolume(length, dia, density);
            WireMassVolume(length + e, dia, density)
              == MassVolumeOut(o.area + e * jac.areaLength, o.volume + e * jac.volumeLength, o.mass + e * jac.massLength) &&
            WireMassVolume(length, dia, density + e) == o.(mass := o.mass + e * jac.massDensity)
  {
  }

  /**
   * The diameter partials are derivatives of compute: a diameter move by e moves the area by
   * exactly e J[area, dia], and the volume and mass by e times their partial plus
   * e^2 pi length/4 times 1 and times the density.
   */
  lemma WireMassVolumeDiaExact(length: real, dia: real, density: real, e: real)
    ensures var jac, o := WireMassVolumePartials(length, dia, density), WireMassVolume(length, dia, density);
            var o2 := WireMassVolume(length, dia + e, density);
            o2.area == o.area + e * jac.areaDia &&
            o2.volume == o.volume + e * jac.volumeDia + e * e * (Pi / 4.0 * length) &&
            o2.mass == o.mass + e * jac.massDia + e * e * (density * (Pi / 4.0 * length))
  {
    var jac, o := WireMassVolumePartials(length, dia, density), WireMassVolume(length, dia, density);
    var o2 := WireMassVolume(length, dia + e, density);
    VolumeDiaStep(length, dia, e, o.volume, o2.volume, jac.volumeDia);
    WireMassVolumePartialsStructure(length, dia, density);
    ScaledStep(density, o.volume, o2.volume, jac.volumeDia, Pi / 4.0 * length, e);
  }

  /** The volume of the cylinder at diameter dia + e, expanded around dia. */
  lemma VolumeDiaStep(length: real, dia: real, e: real, v: real, v2: real, j: real)
    requires v == Pi * ((dia / 2.0) * (dia / 2.0)) * length
    requires v2 == Pi * (((dia + e) / 2.0) * ((dia + e) / 2.0)) * length
    requires j == Pi / 2.0 * dia * length
    ensures v2 == v + e * j + e * e * (Pi / 4.0 * length)
  {
    var r, s := dia / 2.0, (dia + e) / 2.0;
    assert s * s == r * r + e * (dia / 2.0) + e * e / 4.0;
    calc {
      v2;
      Pi * (s * s) * length;
      Pi * (r * r) * length + e * (Pi / 2.0 * dia * length) + e * e * (Pi / 4.0 * length);
    }
  }

  // ---------------------------------------------------------------- WirePerf

  /** A product with a non-negative first factor is non-negative when the second factor is. */
  lemma NonNegProductIf(x: real, y: real)
    requires x >= 0.0
    ensures y >= 0.0 ==> x * y >= 0.0
  {
    if y >= 0.0 {
      NonNegProduct(x, y);
    }
  }

  /** 4/(pi dia^2), the factor that turns rho length into the resistance of the wire. */
  function ResistanceFactor(dia: real): real
    requires dia != 0.0
  {
    4.0 / Pi * InvSq(dia)
  }

  /** The resistance 4 rho length/(pi dia^2) of the full wire length. */
  function Resistance(rho: real, length: real, dia: real): real
    requires dia != 0.0
  {
    ResistanceFactor(dia) * (rho * length)
  }

  /**
   * R pi dia^2 = 4 rho length, and R is not negative when rho length is not.
   */
  lemma ResistanceLaw(rho: real, length: real, dia: real)
    requires dia != 0.0
    ensures Resistance(rho, length, dia) * (Pi * (dia * dia)) == 4.0 * rho * length
    ensures rho * length >= 0.0 ==> Resistance(rho, length, dia) >= 0.0
  {
    var u := 1.0 / dia;
    assert InvSq(dia) == u * u;
    assert u * dia == 1.0;
    SqSign(u);
    assert ResistanceFactor(dia) * (Pi * (dia * dia)) == 4.0 * ((u * dia) * (u * dia));
    NonNegProductIf(ResistanceFactor(dia), rho * length);
  }

  /** The inputs of WirePerf. */
  datatype PerfInputs = PerfInputs(length: real, iIn: real, vIn: real, pIn: real, rho: real, dia: real)

  /** The outputs of WirePerf. */
  datatype PerfOut = PerfOut(iOut: real, vOut: real, pOut: real, qdotElec: real, r: real)

  /** compute of WirePerf as written, with the heat generated taken as I R. */
  function WirePerfAsWritten(inp: PerfInputs): PerfOut
    requires inp.dia != 0.0
  {
    var r := Resistance(inp.rho, inp.length, inp.dia);
    PerfOut(inp.iIn, inp.vIn - inp.iIn * r, inp.pIn - Sq(inp.iIn) * r, inp.iIn * r, r)
  }

  /** compute of WirePerf with the heat generated taken as I^2 R. */
  function WirePerfCompute(inp: PerfInputs): PerfOut
    requires inp.dia != 0.0
  {
    var r := Resistance(inp.rho, inp.length, inp.dia);
    PerfOut(inp.iIn, inp.vIn - inp.iIn * r, inp.pIn - Sq(inp.iIn) * r, Sq(inp.iIn) * r, r)
  }

  /**
   * The energy balance of the corrected WirePerf: the current is conserved, the power lost is
   * the current times the voltage drop, the heat generated is exactly the power lost and is
   * not negative for a non-negative resistivity and length, and with no current the voltage
   * and power pass through unchanged and no heat is generated. The as-written compute differs
   * from it in the heat alone.
   */
  lemma WirePerfEnergyBalance(inp: PerfInputs)
    requires inp.dia != 0.0
    ensures var o := WirePerfCompute(inp);
            o.iOut == inp.iIn && o.r == Resistance(inp.rho, inp.length, inp.dia) &&
            o.pOut == inp.pIn - inp.iIn * (inp.vIn - o.vOut) && o.qdotElec == inp.pIn - o.pOut
    ensures inp.rho * inp.length >= 0.0 ==> WirePerfCompute(inp).qdotElec >= 0.0
    ensures inp.iIn == 0.0 ==>
              var o := WirePerfCompute(inp);
              o.vOut == inp.vIn && o.pOut == inp.pIn && o.qdotElec == 0.0
    ensures var w, o := WirePerfAsWritten(inp), WirePerfCompute(inp);
            w == o.(qdotElec := inp.iIn * o.r)
  {
    var r := Resistance(inp.rho, inp.length, inp.dia);
    ResistanceLaw(inp.rho, inp.length, inp.dia);
    SqSign(inp.iIn);
    NonNegProductIf(Sq(inp.iIn), r);
  }

  /**
   * As written, the heat generated is not the power lost: a 2 A current through a wire of
   * resistance 1 ohm (rho = pi/4, length 1, dia 1) loses 4 W but is said to generate 2.
   */
  lemma HeatNotPowerLostAsWritten()
    ensures var inp := PerfInputs(1.0, 2.0, 10.0, 100.0, Pi / 4.0, 1.0);
            var o := WirePerfAsWritten(inp);
            o.r == 1.0 && inp.pIn - o.pOut == 4.0 && o.qdotElec == 2.0
  {
    var inp := PerfInputs(1.0, 2.0, 10.0, 100.0, Pi / 4.0, 1.0);
    ResistanceLaw(inp.rho, inp.length, inp.dia);
    var r := Resistance(inp.rho, inp.length, inp.dia);
    assert r * Pi == Pi;
  }

  /** The partials of R with respect to rho, length and dia. */
  datatype ResistanceRow = ResistanceRow(dRho: real, dLength: real, dDia: real)

  /** The partials of V_out, P_out or Qdot_elec with respect to I_in, rho, length and dia. */
  datatype OutputRow = OutputRow(dI: real, dRho: real, dLength: real, dDia: real)

  /**
   * Everything compute_partials writes, with the partials setup declares with value 1
   * (I_out by I_in, V_out by V_in, P_out by P_in) left implicit.
   */
  datatype PerfJac = PerfJac(r: ResistanceRow, vOut: OutputRow, pOut: OutputRow, qdotElec: OutputRow)

  /** The dia partial of R, -8 rho length/(pi dia^3), as 4 rho length/pi times InvSqSlope. */
  function ResistanceDiaPartial(rho: real, length: real, dia: real): real
    requires dia != 0.0
  {
    4.0 / Pi * (rho * length) * InvSqSlope(dia)
  }

  /** ResistanceDiaPartial times pi dia^3 is -8 rho length. */
  lemma ResistanceDiaPartialForm(rho: real, length: real, dia: real)
    requires dia != 0.0
    ensures ResistanceDiaPartial(rho, length, dia) * (Pi * (dia * dia * dia)) == -8.0 * rho * length
  {
    var u := 1.0 / dia;
    assert u * dia == 1.0;
    assert InvSqSlope(dia) == -2.0 * (u * u * u);
    calc {
      ResistanceDiaPartial(rho, length, dia) * (Pi * (dia * dia * dia));
      -8.0 * (rho * length) * ((u * dia) * (u * dia) * (u * dia));
    }
  }

  /** The corrected R row: 4 length/(pi dia^2), 4 rho/(pi dia^2) and ResistanceDiaPartial. */
  function ResistanceRowOf(inp: PerfInputs): ResistanceRow
    requires inp.dia != 0.0
  {
    var c := ResistanceFactor(inp.dia);
    ResistanceRow(c * inp.length, c * inp.rho, ResistanceDiaPartial(inp.rho, inp.length, inp.dia))
  }

  /**
   * The rows of V_out, P_out and the heat I^2 R built from a row of R by the chain rule:
   * V_out = V_in - I R, P_out = P_in - I^2 R.
   */
  function ChainRows(i: real, r: real, rr: ResistanceRow): PerfJac
  {
    PerfJac(rr,
            OutputRow(-r, -i * rr.dRho, -i * rr.dLength, -i * rr.dDia),
            OutputRow(-2.0 * i * r, -Sq(i) * rr.dRho, -Sq(i) * rr.dLength, -Sq(i) * rr.dDia),
            OutputRow(2.0 * i * r, Sq(i) * rr.dRho, Sq(i) * rr.dLength, Sq(i) * rr.dDia))
  }

  /**
   * compute_partials of WirePerf as written: dR_dlen is R itself, and the heat row is that of
   * I R, with R in the I_in column and I times the R row elsewhere.
   */
  function WirePerfPartialsAsWritten(inp: PerfInputs): PerfJac
    requires inp.dia != 0.0
  {
    var r := Resistance(inp.rho, inp.length, inp.dia);
    var rr := ResistanceRowOf(inp).(dLength := r);
    ChainRows(inp.iIn, r, rr).(qdotElec := OutputRow(r, inp.iIn * rr.dRho, inp.iIn * rr.dLength, inp.iIn * rr.dDia))
  }

  /** compute_partials of WirePerf corrected: dR_dlen is 4 rho/(pi dia^2), and the heat is I^2 R. */
  function WirePerfPartials(inp: PerfInputs): PerfJac
    requires inp.dia != 0.0
  {
    ChainRows(inp.iIn, Resistance(inp.rho, inp.length, inp.dia), ResistanceRowOf(inp))
  }

  /** The I_in column of the corrected partials: -R, -2 I R and 2 I R. */
  lemma CurrentColumn(inp: PerfInputs)
    requires inp.dia != 0.0
    ensures WirePerfPartials(inp).vOut.dI == -WirePerfCompute(inp).r
    ensures WirePerfPartials(inp).pOut.dI == -2.0 * inp.iIn * WirePerfCompute(inp).r
    ensures WirePerfPartials(inp).qdotElec.dI == 2.0 * inp.iIn * WirePerfCompute(inp).r
  {
    PartialsChain(inp);
    ChainColumns(inp.iIn, WirePerfCompute(inp).r, ResistanceRowOf(inp), WirePerfPartials(inp));
  }

  /**
   * The rho column of the corrected partials: the V_out, P_out and heat entries are -I, -I^2
   * and I^2 times the R entry, so the heat entry is the negation of the P_out entry, the heat
   * being the power lost.
   */
  lemma RhoColumn(inp: PerfInputs)
    requires inp.dia != 0.0
    ensures WirePerfPartials(inp).vOut.dRho == -inp.iIn * WirePerfPartials(inp).r.dRho
    ensures WirePerfPartials(inp).pOut.dRho == -Sq(inp.iIn) * WirePerfPartials(inp).r.dRho
    ensures WirePerfPartials(inp).qdotElec.dRho == Sq(inp.iIn) * WirePerfPartials(inp).r.dRho
  {
    PartialsChain(inp);
    ChainColumns(inp.iIn, WirePerfCompute(inp).r, ResistanceRowOf(inp), WirePerfPartials(inp));
  }

  /** The length column of the corrected partials, as RhoColumn. */
  lemma LengthColumn(inp: PerfInputs)
    requires inp.dia != 0.0
    ensures WirePerfPartials(inp).vOut.dLength == -inp.iIn * WirePerfPartials(inp).r.dLength
    ensures WirePerfPartials(inp).pOut.dLength == -Sq(inp.iIn) * WirePerfPartials(inp).r.dLength
    ensures WirePerfPartials(inp).qdotElec.dLength == Sq(inp.iIn) * WirePerfPartials(inp).r.dLength
  {
    PartialsChain(inp);
    ChainColumns(inp.iIn, WirePerfCompute(inp).r, ResistanceRowOf(inp), WirePerfPartials(inp));
  }

  /** The dia column of the corrected partials, as RhoColumn. */
  lemma DiaColumn(inp: PerfInputs)
    requires inp.dia != 0.0
    ensures WirePerfPartials(inp).vOut.dDia == -inp.iIn * WirePerfPartials(inp).r.dDia
    ensures WirePerfPartials(inp).pOut.dDia == -Sq(inp.iIn) * WirePerfPartials(inp).r.dDia
    ensures WirePerfPartials(inp).qdotElec.dDia == Sq(inp.iIn) * WirePerfPartials(inp).r.dDia
  {
    PartialsChain(inp);
    ChainColumns(inp.iIn, WirePerfCompute(inp).r, ResistanceRowOf(inp), WirePerfPartials(inp));
  }

  /**
   * The as-written length entry of the R row is the length times the corrected one, so the two
   * agree only at length 1 (or where R is zero).
   */
  lemma LengthEntryAsWritten(inp: PerfInputs)
    requires inp.dia != 0.0
    ensures WirePerfPartialsAsWritten(inp).r.dLength == inp.length * WirePerfPartials(inp).r.dLength
  {
    var c := ResistanceFactor(inp.dia);
    assert c * (inp.rho * inp.length) == inp.length * (c * inp.rho);
  }

  /**
   * As written, dR_dlen is not the length derivative of R: R is linear in the length, so a
   * unit length move must change it by exactly the partial, but for rho = pi/4, dia = 1 and
   * length 2 the resistance goes from 2 to 3 ohm while the entry says 2.
   */
  lemma LengthPartialAsWritten()
    ensures var inp := PerfInputs(2.0, 0.0, 0.0, 0.0, Pi / 4.0, 1.0);
            var jac := WirePerfPartialsAsWritten(inp);
            Resistance(inp.rho, inp.length, inp.dia) == 2.0 &&
            Resistance(inp.rho, inp.length + 1.0, inp.dia) == 3.0 && jac.r.dLength == 2.0
  {
    var inp := PerfInputs(2.0, 0.0, 0.0, 0.0, Pi / 4.0, 1.0);
    assert InvSq(1.0) == 1.0;
    assert ResistanceFactor(1.0) * (Pi / 4.0) == 1.0;
  }

  /** A product linear in x moves by e times its x slope. */
  lemma LinearStep(c: real, x: real, y: real, e: real, r: real, r2: real)
    requires r == c * (x * y) && r2 == c * ((x + e) * y)
    ensures r2 == r + e * (c * y) + 0.0
  {
  }

  /**
   * The corrected R row holds the derivatives of R: R is linear in rho and in the length, so
   * moving either by e moves R by exactly e times its partial.
   */
  lemma ResistanceLinearExact(rho: real, length: real, dia: real, e: real)
    requires dia != 0.0
    ensures var c := ResistanceFactor(dia);
            Resistance(rho + e, length, dia) == Resistance(rho, length, dia) + e * (c * length) + 0.0 &&
            Resistance(rho, length + e, dia) == Resistance(rho, length, dia) + e * (c * rho) + 0.0
  {
    var c := ResistanceFactor(dia);
    LinearStep(c, rho, length, e, Resistance(rho, length, dia), Resistance(rho + e, length, dia));
    assert Resistance(rho, length, dia) == c * (length * rho);
    LinearStep(c, length, rho, e, Resistance(rho, length, dia), Resistance(rho, length + e, dia));
  }

  /** R is 4 rho length/pi times InvSq(dia). */
  lemma ResistanceScaled(rho: real, length: real, dia: real, c: real, q: real)
    requires dia != 0.0 && q == InvSq(dia) && c == 4.0 / Pi
    ensures Resistance(rho, length, dia) == c * (rho * length) * q
  {
    assert ResistanceFactor(dia) == c * q;
  }

  /** Scaling an exact second-order step by k scales each of its terms. */
  lemma ScaledStep(k: real, a: real, b: real, s: real, rem: real, e: real)
    requires b == a + e * s + e * e * rem
    ensures k * b == k * a + e * (k * s) + e * e * (k * rem)
  {
  }

  /**
   * The part of the move of R under a move of dia by e that the first-order term e J[R, dia]
   * leaves out.
   */
  function ResistanceDiaRemainder(rho: real, length: real, dia: real, e: real): real
    requires dia != 0.0 && dia + e != 0.0
  {
    Resistance(rho, length, dia + e) - Resistance(rho, length, dia) - e * ResistanceDiaPartial(rho, length, dia)
  }

  /**
   * The R row's dia entry is the derivative of R: the remainder of a dia move by e is
   * e^2 (4 rho length/pi) InvSqRemainder(dia, e), second order in e.
   */
  lemma ResistanceDiaExact(rho: real, length: real, dia: real, e: real)
    requires dia != 0.0 && dia + e != 0.0
    ensures ResistanceDiaRemainder(rho, length, dia, e) == e * e * (4.0 / Pi * (rho * length) * InvSqRemainder(dia, e))
  {
    var c := 4.0 / Pi;
    var k := c * (rho * length);
    InvSqExact(dia, e);
    ResistanceScaled(rho, length, dia, c, InvSq(dia));
    ResistanceScaled(rho, length, dia + e, c, InvSq(dia + e));
    ScaledStep(k, InvSq(dia), InvSq(dia + e), InvSqSlope(dia), InvSqRemainder(dia, e), e);
  }

  /**
   * The declared constant partials of WirePerf: V_in and P_in pass through to V_out and
   * P_out, and I_in to I_out, each with partial 1.
   */
  lemma WirePerfPassThrough(inp: PerfInputs, e: real)
    requires inp.dia != 0.0
    ensures WirePerfCompute(inp.(vIn := inp.vIn + e)).vOut == WirePerfCompute(inp).vOut + e * 1.0
    ensures WirePerfCompute(inp.(pIn := inp.pIn + e)).pOut == WirePerfCompute(inp).pOut + e * 1.0
    ensures WirePerfCompute(inp.(iIn := inp.iIn + e)).iOut == WirePerfCompute(inp).iOut + e * 1.0
  {
  }

  /**
   * The I_in column of the corrected partials: moving I_in by e moves V_out by exactly
   * e J[V_out, I_in] = -e R, and P_out and the heat by e times their partials -2 I R and
   * 2 I R with second-order terms -e^2 R and e^2 R.
   */
  lemma CurrentMove(inp: PerfInputs, inp2: PerfInputs, e: real)
    requires inp.dia != 0.0 && inp2 == inp.(iIn := inp.iIn + e)
    ensures WirePerfCompute(inp2).vOut == WirePerfCompute(inp).vOut + e * WirePerfPartials(inp).vOut.dI
    ensures WirePerfCompute(inp2).pOut
              == WirePerfCompute(inp).pOut + e * WirePerfPartials(inp).pOut.dI - e * e * WirePerfCompute(inp).r
    ensures WirePerfCompute(inp2).qdotElec
              == WirePerfCompute(inp).qdotElec + e * WirePerfPartials(inp).qdotElec.dI + e * e * WirePerfCompute(inp).r
  {
    CurrentColumn(inp);
    CurrentStep(inp.iIn, inp.vIn, inp.pIn, e, WirePerfCompute(inp), WirePerfCompute(inp2),
                WirePerfPartials(inp).vOut.dI, WirePerfPartials(inp).pOut.dI, WirePerfPartials(inp).qdotElec.dI);
  }

  /** CurrentMove on atoms: the outputs at currents i and i + e through the same resistance. */
  lemma CurrentStep(i: real, vIn: real, pIn: real, e: real, o: PerfOut, o2: PerfOut, jv: real, jp: real, jq: real)
    requires o.vOut == vIn - i * o.r && o.pOut == pIn - Sq(i) * o.r && o.qdotElec == Sq(i) * o.r
    requires o2.r == o.r && o2.vOut == vIn - (i + e) * o.r && o2.pOut == pIn - Sq(i + e) * o.r &&
             o2.qdotElec == Sq(i + e) * o.r
    requires jv == -o.r && jp == -2.0 * i * o.r && jq == 2.0 * i * o.r
    ensures o2.vOut == o.vOut + e * jv
    ensures o2.pOut == o.pOut + e * jp - e * e * o.r
    ensures o2.qdotElec == o.qdotElec + e * jq + e * e * o.r
  {
    assert Sq(i + e) * o.r == Sq(i) * o.r + e * (2.0 * i * o.r) + e * e * o.r;
  }

  /**
   * An output affine in R with factor f moves by e j + f k when R moves by e p + k and j = f p.
   */
  lemma AffineChain(base: real, f: real, r: real, r2: real, out: real, out2: real, e: real, p: real, k: real, j: real)
    requires out == base + f * r && out2 == base + f * r2 && r2 == r + e * p + k && j == f * p
    ensures out2 == out + e * j + f * k
  {
    assert out2 - out == f * (r2 - r);
    assert f * (e * p + k) == e * (f * p) + f * k;
  }

  /** Each output is affine in R: V_out with factor -I, P_out with -I^2 and the heat with I^2. */
  lemma OutputsAffine(inp: PerfInputs)
    requires inp.dia != 0.0
    ensures WirePerfCompute(inp).vOut == inp.vIn + -inp.iIn * WirePerfCompute(inp).r
    ensures WirePerfCompute(inp).pOut == inp.pIn + -Sq(inp.iIn) * WirePerfCompute(inp).r
    ensures WirePerfCompute(inp).qdotElec == 0.0 + Sq(inp.iIn) * WirePerfCompute(inp).r
  {
  }

  /**
   * When R moves from inp to inp2 by e p + k, with the current and the input voltage
   * unchanged, V_out moves by e j + q for the chain-rule entry j = -I p and q = -I k.
   */
  lemma VoltageMove(inp: PerfInputs, inp2: PerfInputs, e: real, p: real, k: real, j: real, q: real)
    requires inp.dia != 0.0 && inp2.dia != 0.0
    requires inp2.iIn == inp.iIn && inp2.vIn == inp.vIn
    requires WirePerfCompute(inp2).r == WirePerfCompute(inp).r + e * p + k && j == -inp.iIn * p && q == -inp.iIn * k
    ensures WirePerfCompute(inp2).vOut == WirePerfCompute(inp).vOut + e * j + q
  {
    OutputsAffine(inp);
    OutputsAffine(inp2);
    var o, o2 := WirePerfCompute(inp), WirePerfCompute(inp2);
    AffineChain(inp.vIn, -inp.iIn, o.r, o2.r, o.vOut, o2.vOut, e, p, k, j);
  }

  /** As VoltageMove, for P_out: it moves by e j + q for j = -I^2 p and q = -I^2 k. */
  lemma PowerMove(inp: PerfInputs, inp2: PerfInputs, e: real, p: real, k: real, j: real, q: real)
    requires inp.dia != 0.0 && inp2.dia != 0.0
    requires inp2.iIn == inp.iIn && inp2.pIn == inp.pIn
    requires WirePerfCompute(inp2).r == WirePerfCompute(inp).r + e * p + k && j == -Sq(inp.iIn) * p && q == -Sq(inp.iIn) * k
    ensures WirePerfCompute(inp2).pOut == WirePerfCompute(inp).pOut + e * j + q
  {
    OutputsAffine(inp);
    OutputsAffine(inp2);
    var o, o2 := WirePerfCompute(inp), WirePerfCompute(inp2);
    AffineChain(inp.pIn, -Sq(inp.iIn), o.r, o2.r, o.pOut, o2.pOut, e, p, k, -Sq(inp.iIn) * p);
  }

  /** As VoltageMove, for the heat: it moves by e j + q for j = I^2 p and q = I^2 k. */
  lemma HeatMove(inp: PerfInputs, inp2: PerfInputs, e: real, p: real, k: real, j: real, q: real)
    requires inp.dia != 0.0 && inp2.dia != 0.0
    requires inp2.iIn == inp.iIn
    requires WirePerfCompute(inp2).r == WirePerfCompute(inp).r + e * p + k && j == Sq(inp.iIn) * p && q == Sq(inp.iIn) * k
    ensures WirePerfCompute(inp2).qdotElec == WirePerfCompute(inp).qdotElec + e * j + q
  {
    OutputsAffine(inp);
    OutputsAffine(inp2);
    var o, o2 := WirePerfCompute(inp), WirePerfCompute(inp2);
    AffineChain(0.0, Sq(inp.iIn), o.r, o2.r, o.qdotElec, o2.qdotElec, e, p, k, Sq(inp.iIn) * p);
  }

  /**
   * The columns of ChainRows: -R, -2 I R and 2 I R for I_in, and the R entry times -I, -I^2
   * and I^2 for rho, length and dia.
   */
  lemma ChainColumns(i: real, r: real, rr: ResistanceRow, jac: PerfJac)
    requires jac == ChainRows(i, r, rr)
    ensures jac.r == rr && jac.vOut.dI == -r && jac.pOut.dI == -2.0 * i * r && jac.qdotElec.dI == 2.0 * i * r
    ensures jac.vOut.dRho == -i * rr.dRho && jac.pOut.dRho == -Sq(i) * rr.dRho && jac.qdotElec.dRho == Sq(i) * rr.dRho
    ensures jac.vOut.dLength == -i * rr.dLength && jac.pOut.dLength == -Sq(i) * rr.dLength &&
            jac.qdotElec.dLength == Sq(i) * rr.dLength
    ensures jac.vOut.dDia == -i * rr.dDia && jac.pOut.dDia == -Sq(i) * rr.dDia && jac.qdotElec.dDia == Sq(i) * rr.dDia
  {
  }

  /** WirePerfPartials as ChainRows over its R row, with its columns. */
  lemma PartialsChain(inp: PerfInputs)
    requires inp.dia != 0.0
    ensures var jac, rr := WirePerfPartials(inp), ResistanceRowOf(inp);
            jac == ChainRows(inp.iIn, WirePerfCompute(inp).r, rr) && jac.r == rr
  {
  }

  /** The rho entry of the R row on the R output of WirePerfCompute: a rho move is exact. */
  lemma RhoStep(inp: PerfInputs, inp2: PerfInputs, e: real)
    requires inp.dia != 0.0 && inp2 == inp.(rho := inp.rho + e)
    ensures WirePerfCompute(inp2).r == WirePerfCompute(inp).r + e * WirePerfPartials(inp).r.dRho + 0.0
  {
    ResistanceLinearExact(inp.rho, inp.length, inp.dia, e);
  }

  /** The length entry of the R row on the R output of WirePerfCompute: a length move is exact. */
  lemma LengthStep(inp: PerfInputs, inp2: PerfInputs, e: real)
    requires inp.dia != 0.0 && inp2 == inp.(length := inp.length + e)
    ensures WirePerfCompute(inp2).r == WirePerfCompute(inp).r + e * WirePerfPartials(inp).r.dLength + 0.0
  {
    ResistanceLinearExact(inp.rho, inp.length, inp.dia, e);
  }

  /**
   * The dia entry of the R row on the R output of WirePerfCompute: a dia move by e moves R by
   * e J[R, dia] plus ResistanceDiaRemainder. This step is definitional (the remainder is
   * defined as the difference); ResistanceDiaExact carries the content, that the remainder
   * is second order in e.
   */
  lemma DiaStep(inp: PerfInputs, inp2: PerfInputs, e: real)
    requires inp.dia != 0.0 && inp.dia + e != 0.0 && inp2 == inp.(dia := inp.dia + e)
    ensures WirePerfCompute(inp2).r
              == WirePerfCompute(inp).r + e * WirePerfPartials(inp).r.dDia
                 + ResistanceDiaRemainder(inp.rho, inp.length, inp.dia, e)
  {
  }

  /** The V_out entry of the rho column of the corrected partials. */
  lemma RhoVoltage(inp: PerfInputs, inp2: PerfInputs, e: real)
    requires inp.dia != 0.0 && inp2 == inp.(rho := inp.rho + e)
    ensures WirePerfCompute(inp2).vOut
              == WirePerfCompute(inp).vOut + e * WirePerfPartials(inp).vOut.dRho + -inp.iIn * 0.0
  {
    RhoStep(inp, inp2, e);
    RhoColumn(inp);
    VoltageMove(inp, inp2, e, WirePerfPartials(inp).r.dRho, 0.0, WirePerfPartials(inp).vOut.dRho,
                -inp.iIn * 0.0);
  }

  /** The P_out entry of the rho column of the corrected partials. */
  lemma RhoPower(inp: PerfInputs, inp2: PerfInputs, e: real)
    requires inp.dia != 0.0 && inp2 == inp.(rho := inp.rho + e)
    ensures WirePerfCompute(inp2).pOut
              == WirePerfCompute(inp).pOut + e * WirePerfPartials(inp).pOut.dRho + -Sq(inp.iIn) * 0.0
  {
    RhoStep(inp, inp2, e);
    RhoColumn(inp);
    PowerMove(inp, inp2, e, WirePerfPartials(inp).r.dRho, 0.0, WirePerfPartials(inp).pOut.dRho,
              -Sq(inp.iIn) * 0.0);
  }

  /** The heat entry of the rho column of the corrected partials. */
  lemma RhoHeat(inp: PerfInputs, inp2: PerfInputs, e: real)
    requires inp.dia != 0.0 && inp2 == inp.(rho := inp.rho + e)
    ensures WirePerfCompute(inp2).qdotElec
              == WirePerfCompute(inp).qdotElec + e * WirePerfPartials(inp).qdotElec.dRho + Sq(inp.iIn) * 0.0
  {
    RhoStep(inp, inp2, e);
    RhoColumn(inp);
    HeatMove(inp, inp2, e, WirePerfPartials(inp).r.dRho, 0.0, WirePerfPartials(inp).qdotElec.dRho,
             Sq(inp.iIn) * 0.0);
  }

  /** The V_out entry of the length column of the corrected partials. */
  lemma LengthVoltage(inp: PerfInputs, inp2: PerfInputs, e: real)
    requires inp.dia != 0.0 && inp2 == inp.(length := inp.length + e)
    ensures WirePerfCompute(inp2).vOut
              == WirePerfCompute(inp).vOut + e * WirePerfPartials(inp).vOut.dLength + -inp.iIn * 0.0
  {
    LengthStep(inp, inp2, e);
    LengthColumn(inp);
    VoltageMove(inp, inp2, e, WirePerfPartials(inp).r.dLength, 0.0, WirePerfPartials(inp).vOut.dLength,
                -inp.iIn * 0.0);
  }

  /** The P_out entry of the length column of the corrected partials. */
  lemma LengthPower(inp: PerfInputs, inp2: PerfInputs, e: real)
    requires inp.dia != 0.0 && inp2 == inp.(length := inp.length + e)
    ensures WirePerfCompute(inp2).pOut
              == WirePerfCompute(inp).pOut + e * WirePerfPartials(inp).pOut.dLength + -Sq(inp.iIn) * 0.0
  {
    LengthStep(inp, inp2, e);
    LengthColumn(inp);
    PowerMove(inp, inp2, e, WirePerfPartials(inp).r.dLength, 0.0, WirePerfPartials(inp).pOut.dLength,
              -Sq(inp.iIn) * 0.0);
  }

  /** The heat entry of the length column of the corrected partials. */
  lemma LengthHeat(inp: PerfInputs, inp2: PerfInputs, e: real)
    requires inp.dia != 0.0 && inp2 == inp.(length := inp.length + e)
    ensures WirePerfCompute(inp2).qdotElec
              == WirePerfCompute(inp).qdotElec + e * WirePerfPartials(inp).qdotElec.dLength + Sq(inp.iIn) * 0.0
  {
    LengthStep(inp, inp2, e);
    LengthColumn(inp);
    HeatMove(inp, inp2, e, WirePerfPartials(inp).r.dLength, 0.0, WirePerfPartials(inp).qdotElec.dLength,
             Sq(inp.iIn) * 0.0);
  }

  /**
   * The rho column of the corrected partials: moving rho by e moves R, V_out, P_out and the
   * heat by exactly e times their rho partials.
   */
  lemma RhoMove(inp: PerfInputs, inp2: PerfInputs, e: real)
    requires inp.dia != 0.0 && inp2 == inp.(rho := inp.rho + e)
    ensures WirePerfCompute(inp2).r == WirePerfCompute(inp).r + e * WirePerfPartials(inp).r.dRho + 0.0
    ensures WirePerfCompute(inp2).vOut == WirePerfCompute(inp).vOut + e * WirePerfPartials(inp).vOut.dRho + -inp.iIn * 0.0
    ensures WirePerfCompute(inp2).pOut == WirePerfCompute(inp).pOut + e * WirePerfPartials(inp).pOut.dRho + -Sq(inp.iIn) * 0.0
    ensures WirePerfCompute(inp2).qdotElec
              == WirePerfCompute(inp).qdotElec + e * WirePerfPartials(inp).qdotElec.dRho + Sq(inp.iIn) * 0.0
  {
    RhoStep(inp, inp2, e);
    RhoVoltage(inp, inp2, e);
    RhoPower(inp, inp2, e);
    RhoHeat(inp, inp2, e);
  }

  /**
   * The length column of the corrected partials: moving the length by e moves R, V_out,
   * P_out and the heat by exactly e times their length partials.
   */
  lemma LengthMove(inp: PerfInputs, inp2: PerfInputs, e: real)
    requires inp.dia != 0.0 && inp2 == inp.(length := inp.length + e)
    ensures WirePerfCompute(inp2).r == WirePerfCompute(inp).r + e * WirePerfPartials(inp).r.dLength + 0.0
    ensures WirePerfCompute(inp2).vOut == WirePerfCompute(inp).vOut + e * WirePerfPartials(inp).vOut.dLength + -inp.iIn * 0.0
    ensures WirePerfCompute(inp2).pOut == WirePerfCompute(inp).pOut + e * WirePerfPartials(inp).pOut.dLength + -Sq(inp.iIn) * 0.0
    ensures WirePerfCompute(inp2).qdotElec
              == WirePerfCompute(inp).qdotElec + e * WirePerfPartials(inp).qdotElec.dLength + Sq(inp.iIn) * 0.0
  {
    LengthStep(inp, inp2, e);
    LengthVoltage(inp, inp2, e);
    LengthPower(inp, inp2, e);
    LengthHeat(inp, inp2, e);
  }
}

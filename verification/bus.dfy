/**
 * Buses (ACbus, DCbus): implicit components whose residual is the current balance at the bus
 * and whose owned output is the bus voltage.
 */
module Bus {
  import opened Kirchhoff

  /** The default option values of ACbus and DCbus. */
  const DefaultLines: seq<string> := ["1", "2"]
  const DefaultVbase: real := 5000.0

  /** An AC bus: its options, its voltage outputs and its two residuals. */
  class ACBus {
    const lines: seq<string>
    const vbase: real
    var vr: real
    var vi: real
    var resVr: real
    var resVi: real

    /** A bus on the given connections; outputs start at their declared values Vr = 1, Vi = 0. */
    constructor (lines: seq<string>, vbase: real)
      ensures this.lines == lines && this.vbase == vbase
      ensures vr == 1.0 && vi == 0.0 && resVr == 0.0 && resVi == 0.0
    {
      this.lines := lines;
      this.vbase := vbase;
      vr, vi := 1.0, 0.0;
      resVr, resVi := 0.0, 0.0;
    }

    /** A bus with the default options. */
    constructor Default()
      ensures lines == DefaultLines && vbase == DefaultVbase
      ensures vr == 1.0 && vi == 0.0 && resVr == 0.0 && resVi == 0.0
    {
      lines := DefaultLines;
      vbase := DefaultVbase;
      vr, vi := 1.0, 0.0;
      resVr, resVi := 0.0, 0.0;
    }

    /** guess_nonlinear: start the bus at the base voltage, whatever the inputs. */
    method GuessNonlinear()
      modifies this`vr, this`vi
      ensures vr == vbase && vi == 0.0
    {
      vr := vbase;
      vi := 0.0;
    }

    /**
     * apply_nonlinear: both residuals are reset and then accumulate the currents of the
     * connected lines, so they are the sums of the real and imaginary currents, and nothing
     * of an earlier residual survives.
     */
    method ApplyNonlinear(ir: map<string, real>, ii: map<string, real>)
      requires Covers(lines, ir) && Covers(lines, ii)
      modifies this`resVr, this`resVi
      ensures resVr == SumOver(lines, ir) && resVi == SumOver(lines, ii)
    {
      resVr := 0.0;
      resVi := 0.0;
      for k := 0 to |lines|
        invariant resVr == SumOver(lines[..k], ir) && resVi == SumOver(lines[..k], ii)
      {
        assert lines[..k + 1][..k] == lines[..k];
        resVr := resVr + ir[lines[k]];
        resVi := resVi + ii[lines[k]];
      }
      assert lines[..|lines|] == lines;
    }
  }

  /** A DC bus: its options, its voltage output and its residual. */
  class DCBus {
    const lines: seq<string>
    const vbase: real
    var v: real
    var resV: real

    /** A bus on the given connections; the output starts at its declared value V = 1. */
    constructor (lines: seq<string>, vbase: real)
      ensures this.lines == lines && this.vbase == vbase
      ensures v == 1.0 && resV == 0.0
    {
      this.lines := lines;
      this.vbase := vbase;
      v, resV := 1.0, 0.0;
    }

    /** A bus with the default options. */
    constructor Default()
      ensures lines == DefaultLines && vbase == DefaultVbase
      ensures v == 1.0 && resV == 0.0
    {
      lines := DefaultLines;
      vbase := DefaultVbase;
      v, resV := 1.0, 0.0;
    }

    /** guess_nonlinear: start the bus at the base voltage, whatever the inputs. */
    method GuessNonlinear()
      modifies this`v
      ensures v == vbase
    {
      v := vbase;
    }

    /** apply_nonlinear: the residual is reset and then accumulates the connected currents. */
    method ApplyNonlinear(i: map<string, real>)
      requires Covers(lines, i)
      modifies this`resV
      ensures resV == SumOver(lines, i)
    {
      resV := 0.0;
      for k := 0 to |lines|
        invariant resV == SumOver(lines[..k], i)
      {
        assert lines[..k + 1][..k] == lines[..k];
        resV := resV + i[lines[k]];
      }
      assert lines[..|lines|] == lines;
    }
  }
}

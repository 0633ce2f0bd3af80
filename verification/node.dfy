/**
 * The network-voltage Node: an implicit component whose residual is the sum of the currents
 * of its connections and whose owned output is the node voltage.
 */
module NodeBalance {
  import opened Kirchhoff

  /** The default connections of a Node. */
  const DefaultConnections: seq<string> := ["in", "out"]

  /** A node: its connection names, its voltage, its residual and the partials it writes. */
  class Node {
    const connectNames: seq<string>
    var v: real
    var resV: real
    /** J['V', name + ':I'] for each connection name written so far. */
    var jac: map<string, real>

    /** A node on the given connections; V starts at its declared value 1. */
    constructor (connectNames: seq<string>)
      ensures this.connectNames == connectNames
      ensures v == 1.0 && resV == 0.0 && jac == map[]
    {
      this.connectNames := connectNames;
      v, resV := 1.0, 0.0;
      jac := map[];
    }

    /** A node with the default connections 'in' and 'out'. */
    constructor Default()
      ensures connectNames == DefaultConnections
      ensures v == 1.0 && resV == 0.0 && jac == map[]
    {
      connectNames := DefaultConnections;
      v, resV := 1.0, 0.0;
      jac := map[];
    }

    /** apply_nonlinear: the residual is reset and then accumulates the connection currents. */
    method ApplyNonlinear(i: map<string, real>)
      requires Covers(connectNames, i)
      modifies this`resV
      ensures resV == SumOver(connectNames, i)
    {
      resV := 0.0;
      for k := 0 to |connectNames|
        invariant resV == SumOver(connectNames[..k], i)
      {
        assert connectNames[..k + 1][..k] == connectNames[..k];
        resV := resV + i[connectNames[k]];
      }
      assert connectNames[..|connectNames|] == connectNames;
    }

    /**
     * linearize: writes the partial 1.0 for every connection; entries for other names are
     * left as they were.
     */
    method Linearize()
      modifies this`jac
      ensures jac == old(jac) + UnitPartials(connectNames)
    {
      for k := 0 to |connectNames|
        invariant jac == old(jac) + UnitPartials(connectNames[..k])
      {
        assert forall n :: n in connectNames[..k + 1] <==> n in connectNames[..k] || n == connectNames[k];
        jac := jac[connectNames[k] := 1.0];
      }
      assert connectNames[..|connectNames|] == connectNames;
    }
  }

  /** With the default connections the residual is in:I + out:I. */
  lemma DefaultResidual(i: map<string, real>)
    requires "in" in i && "out" in i
    ensures Covers(DefaultConnections, i)
    ensures SumOver(DefaultConnections, i) == i["in"] + i["out"]
  {
    var d := DefaultConnections;
    assert d[..1] == ["in"] && d[..1][..0] == [];
    assert SumOver(d[..1], i) == i["in"];
    assert SumOver(d, i) == SumOver(d[..1], i) + i["out"];
  }
}

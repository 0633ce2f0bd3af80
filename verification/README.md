# zappy element models in Dafny

zappy builds the steady-state operating point of a hybrid AC/DC power network out of OpenMDAO
components. Each network element adds its own equations:

- Buses and nodes balance the currents of the lines connected to them.
- Lines, loads and resistors are explicit: their outputs are computed from the terminal voltages.
- Generators, converters, and the inverter and rectifier calculation blocks are implicit. They
  own some outputs and give residuals that vanish at the operating point. `solve_nonlinear`
  and `guess_nonlinear` set some of those outputs directly.
- The wire and thermal-mass components of the network-voltage elements compute a wire's
  geometry, its resistive drop and heating, and the temperature rate of a body cooled by a fluid.

Every component also writes closed-form partial derivatives for the Newton solver.

This project models one operating point (one of the `num_nodes` entries) of each of these
components:

- Explicit components are Dafny functions returning records of their outputs.
- Implicit components are residual functions, together with a class whose fields are the
  outputs the component owns. Its `SolveNonlinear` and `GuessNonlinear` methods update those
  fields.
- Buses and nodes are classes whose `ApplyNonlinear` runs the source's loop over the
  connection names.
- Partial derivatives are records of Jacobian entries. Lemmas prove they are derivatives: moving
  an input by `h` moves the output by `h` times the entry, exactly, or plus an explicit
  higher-order remainder, or times a factor such as `R/(R + h)` that tends to 1.

Complex phasors are pairs of reals (module `ComplexArith`). Transcendental values cannot be
computed over the reals, so members take them as parameters:

- the magnitude `sqrt(Vr^2 + Vi^2)`;
- `sqrt(1/PF^2 - 1)`;
- `arccos(PF)`;
- `arctan2` of a phasor.

Where the value is algebraic, a parameter is tied to its definition by `IsSqrt(x, r)`, meaning
`r >= 0 && r*r == x`. `np.pi` is the constant `Pi = 3.141592653589793`.

Modules:

- `Kirchhoff`: the current sum shared by buses and nodes.
- `Bus`, `NodeBalance`, `Line`, `Load`, `Generator`, `Converter`, `Inverter`, `Rectifier`,
  `Resistor`, `ThermalMass`, `Wire`: one module per element.
- `PowerBalance`: the residual S = V conj(I), shared by the generator and the converter.
- `Conversion`: the efficiency, power-factor and loss balances, shared by the inverter and
  rectifier blocks.
- `Validation`: the `Result` type for the `ValueError`s that options raise.

## Model

| member | source | states |
|---|---|---|
| Kirchhoff.SumOverAppend | zappy/LF_elements/bus.py:48-50 | the current balance over a concatenation of connection lists is the sum of the two balances |
| Kirchhoff.SumOverPermutation | zappy/LF_elements/bus.py:48-50 | the current balance does not depend on the order in which the connections are listed |
| Kirchhoff.SumOverAgree | zappy/LF_elements/bus.py:48-50 | only the currents of the listed connections enter the balance |
| Kirchhoff.SumOverBump | zappy/LF_elements/bus.py:34-35 | changing one connection's current by h changes the balance by h times the number of times that connection is listed |
| Kirchhoff.DistinctMultiplicity | zappy/LF_elements/bus.py:30-35 | in a list without repeated names, each name is counted once or not at all |
| Kirchhoff.SumOverPartialsExact | zappy/LF_elements/bus.py:34-35 | when no name is repeated, the declared partial 1.0 is the exact derivative of the balance for a listed current, and an unlisted current does not move it |
| Bus.ACBus.constructor | zappy/LF_elements/bus.py:14-27 | a new AC bus has its line list and base voltage, with Vr = 1 and Vi = 0 |
| Bus.ACBus.Default | zappy/LF_elements/bus.py:14-15 | the default options are lines ['1', '2'] and Vbase 5000 |
| Bus.ACBus.GuessNonlinear | zappy/LF_elements/bus.py:37-40 | the guess sets the voltage to (Vbase, 0) and changes nothing else |
| Bus.ACBus.ApplyNonlinear | zappy/LF_elements/bus.py:42-50 | after the loop, the residuals are the sums of the real and imaginary line currents over the listed lines |
| Bus.DCBus.constructor | zappy/LF_elements/bus.py:61-74 | a new DC bus has its line list and base voltage, with V = 1 |
| Bus.DCBus.Default | zappy/LF_elements/bus.py:63-64 | the default options are lines ['1', '2'] and Vbase 5000 |
| Bus.DCBus.GuessNonlinear | zappy/LF_elements/bus.py:82-84 | the guess sets V to Vbase |
| Bus.DCBus.ApplyNonlinear | zappy/LF_elements/bus.py:86-92 | after the loop, the residual is the sum of the line currents over the listed lines |
| NodeBalance.Node.constructor | zappy/NV_elements/node.py:5-16 | a new node has its connection names, with V = 1 and an empty Jacobian |
| NodeBalance.Node.Default | zappy/NV_elements/node.py:6 | the default connection names are ['in', 'out'] |
| NodeBalance.Node.ApplyNonlinear | zappy/NV_elements/node.py:18-24 | after the loop, the residual is the sum of the connection currents |
| NodeBalance.Node.Linearize | zappy/NV_elements/node.py:26-31 | after the loop, the Jacobian holds 1.0 for every connection, on top of the entries it had before |
| NodeBalance.DefaultResidual | zappy/NV_elements/node.py:6 | with the default connections, the residual is I_in + I_out |
| Line.Admittance | zappy/LF_elements/line.py:124 | Y is the inverse of the impedance: (R + jX) Y = 1 |
| Line.ACLineCompute | zappy/LF_elements/line.py:120-144 | Ohm's law (R + jX) I_in = V_in - V_out; I_out = -I_in; each terminal power is V conj(I) |
| Line.ACLineCurrentClosedForm | zappy/LF_elements/line.py:127-128 | the current is (R dVr + X dVi, R dVi - X dVr)/(R^2 + X^2) |
| Line.ACLineLossIsTerminalSum | zappy/LF_elements/line.py:129-144 | the loss is the sum of the powers entering at both terminals |
| Line.ACLineLossPhasor | zappy/LF_elements/line.py:129-144 | the loss equals the squared voltage drop times conj(Y) |
| Line.ACLineLossClosedForm | zappy/LF_elements/line.py:129-144 | P_loss = dV^2 R/(R^2+X^2) and Q_loss = dV^2 X/(R^2+X^2), where dV^2 is the squared magnitude of the voltage drop; with R >= 0 the line never produces real power |
| Line.ACLineEqualVoltages | zappy/LF_elements/line.py:120-144 | equal terminal voltages give zero currents, zero powers and zero loss |
| Line.ACLineCurrentVoltagePartialsExact | zappy/LF_elements/line.py:160-186 | the voltage columns of the current rows are exact: the currents are linear in the voltages |
| Line.ACLinePowerVoltagePartialsExact | zappy/LF_elements/line.py:188-240 | along a voltage direction, S_in, S_out and S_loss move by the directional derivative built from the Vr and Vi columns, plus h^2 times an explicit remainder |
| Line.ImpedanceColumnsExact | zappy/LF_elements/line.py:156-240 | the R and X columns are derivatives for a line given by its admittance: every output moves by h times its column, times a factor Y' z (conjugated for powers) that tends to 1 |
| Line.ACLineImpedancePartialsExact | zappy/LF_elements/line.py:146-240 | the same for a line given by R and X: a move of R or X by h moves each output by h times its column, times 1 - h u Y' |
| Line.DCLineCompute | zappy/LF_elements/line.py:286-295 | R I_in = V_in - V_out; I_out = -I_in; the terminal powers are V I |
| Line.DCLineLoss | zappy/LF_elements/line.py:293-295 | the loss is (V_in - V_out)^2/R, so a line with positive R never produces power |
| Line.DCLineVoltagePartialsExact | zappy/LF_elements/line.py:297-320 | a voltage move moves each current by exactly its directional derivative, and each power by that plus a remainder quadratic in the move |
| Line.DCLossRemainder | zappy/LF_elements/line.py:318-320 | the loss remainder is the sum of the two terminal remainders, and it is non-negative for positive conductance |
| Line.DCLineResistancePartialExact | zappy/LF_elements/line.py:302-320 | a move of R by h moves each output by its R column times h R/(R + h) |
| Load.ACLoadCurrent | zappy/LF_elements/load.py:37-44 | the current drawn delivers exactly the demand: V conj(I) = P + jQ |
| Load.ACLoadCurrentUnique | zappy/LF_elements/load.py:37-44 | the load current is the only current that delivers the demand at V (both directions) |
| Load.ACLoadCurrentClosedForm | zappy/LF_elements/load.py:40-44 | the current is ((P Vr + Q Vi)/abs(V)^2, (P Vi - Q Vr)/abs(V)^2) |
| Load.ACLoadZeroDemand | zappy/LF_elements/load.py:37-44 | zero demand draws zero current |
| Load.ACLoadCurrentLinear | zappy/LF_elements/load.py:37-44 | at a fixed voltage, the current is additive and homogeneous in the demand |
| Load.ACLoadDemandPartialsExact | zappy/LF_elements/load.py:51-55 | the P and Q columns are exact derivatives of the current |
| Load.ACLoadDemandColumns | zappy/LF_elements/load.py:51-55 | the P column is the current of a unit real load, and the Q column that of a unit reactive load |
| Load.ACLoadDemandPartialsClosedForm | zappy/LF_elements/load.py:51-55 | J[., P] = (Vr, Vi)/abs(V)^2 and J[., Q] = (Vi, -Vr)/abs(V)^2 |
| Load.ACLoadVoltagePartialsExact | zappy/LF_elements/load.py:57-61 | a voltage move by h e moves the current by h times the directional derivative, times conj(V)/conj(V') |
| Load.DCLoadCurrent | zappy/LF_elements/load.py:84-86 | V I = P |
| Load.DCLoadCurrentUnique | zappy/LF_elements/load.py:84-86 | P/V is the only current with V I = P |
| Load.DCLoadPartialsExact | zappy/LF_elements/load.py:88-91 | the P entry is exact, and the V entry is exact up to the factor V/(V + h) |
| PowerBalance.PowerResidual | zappy/LF_elements/generator.py:98-99 | the power residual pair is zero exactly when V conj(I) = P + jQ |
| PowerBalance.PowerResidualParts | zappy/LF_elements/converter.py:86-90 | the residuals in real terms are (Vr Ir + Vi Ii) - P and (Vi Ir - Vr Ii) - Q |
| PowerBalance.PowerDirectionalForm | zappy/LF_elements/generator.py:149-159 | the power rows give the directional derivative a conj(I) + V conj(b) - (c, d) |
| PowerBalance.PowerPartialsExact | zappy/LF_elements/generator.py:149-159 | a move of V, I, P and Q changes the power residual by the directional derivative plus the second-order term a conj(b) |
| PowerBalance.GuessPowerFactor | zappy/LF_elements/generator.py:126-129 | a guessed power P (1 + j k), with k = sqrt(1/PF^2 - 1), has power factor PF |
| Generator.ParseGenMode | zappy/LF_elements/generator.py:26-27 | exactly 'Slack' and 'P-V' are accepted; any other mode is an error |
| Generator.ParseGenModeName | zappy/LF_elements/generator.py:26-27 | every mode is accepted under its own name |
| Generator.ACGenResidualsOf | zappy/LF_elements/generator.py:85-105 | Ir residual is zero iff abs(V) = Vm_bus; the power residuals are zero iff V conj(I) = P + jQ; in Slack mode the Ii residual is zero iff the phase of V in degrees is thetaV_bus; in P-V mode it is zero iff Re(V conj(I)) = P_bus |
| Generator.ACGenerator.constructor | zappy/LF_elements/generator.py:36-60 | the outputs start at their declared values: I = (1, 1), P = Q = -1 |
| Generator.ACGenerator.SolveNonlinear | zappy/LF_elements/generator.py:107-116 | P and Q become the delivered power, which zeroes the power residuals; the current is unchanged |
| Generator.ACGenerator.GuessNonlinear | zappy/LF_elements/generator.py:121-137 | the guessed current delivers the guessed power P (1 + j k), with P = P_guess (Slack) or P_bus (P-V); the power residuals are zero and the power factor is 0.95 |
| Generator.ACGenBusPartialsExact | zappy/LF_elements/generator.py:63-76 | the constants setup declares are derivatives: a Vm_bus move of e moves the Ir residual by e J[Ir_out, Vm_bus] = e, and a move of thetaV_bus (Slack) or P_bus (P-V) by e moves the Ii residual by e J[Ii_out, that input] = e; nothing else moves |
| Generator.ACGenPVPartialsExact | zappy/LF_elements/generator.py:165-169 | the P-V Ii row is the derivative of P_bus - Re(V conj(I)), up to the second-order term Re(a conj(b)) |
| Generator.ACGenMagnitudeAnglePartials | zappy/LF_elements/generator.py:146-147 | the Ir row is the gradient of -abs(V), and the Slack Ii row is that of -degrees(arctan2(Vi, Vr)): they are checked along V and along jV |
| Generator.SlackEntries | zappy/LF_elements/generator.py:161-163 | the Slack-mode angle entries are Vi/abs(V)^2 and -Vr/abs(V)^2 in degrees |
| Generator.DCGenResidualsOf | zappy/LF_elements/generator.py:210-213 | the I residual is zero iff V_out = V_bus; the P residual is zero iff V_out I_out = P_out |
| Generator.DCGenerator.constructor | zappy/LF_elements/generator.py:194-199 | I_out = P_out = -1 |
| Generator.DCGenerator.SolveNonlinear | zappy/LF_elements/generator.py:215-217 | P_out becomes V_out I_out; I_out is unchanged |
| Generator.DCGenerator.GuessNonlinear | zappy/LF_elements/generator.py:219-222 | I_out is P_guess/V_out and P_out is P_guess, which zeroes the power residual |
| Generator.DCGenPartialsExact | zappy/LF_elements/generator.py:203-227 | the declared and linearized entries are the derivatives of both residuals, up to the second-order term b c of the power residual |
| Converter.ParseConverterMode | zappy/LF_elements/converter.py:12 | exactly 'Lead' and 'Lag' are accepted |
| Converter.ParseConverterModeName | zappy/LF_elements/converter.py:12 | every mode is accepted under its own name |
| Converter.ACToDCAbs | zappy/LF_elements/converter.py:102 | the direction test compares abs(Re S_ac) with abs(P_dc) |
| Converter.LossResidual | zappy/LF_elements/converter.py:102-107 | with eff = 1, both directions give Re S_ac + P_dc; a tie selects the DC-to-AC balance |
| Converter.TieBranchesAgree | zappy/LF_elements/converter.py:102-107 | on a tie, the two balances agree exactly when Re S_ac = P_dc or eff = 1 |
| Converter.TargetAngleSymmetry | zappy/LF_elements/converter.py:95-100 | the Lag target angle is the negation of the Lead one |
| Converter.ConverterResidualsOf | zappy/LF_elements/converter.py:81-107 | each residual except the loss balance is zero iff its law holds: V_dc I_dc = P_dc; V_ac conj(I_ac) = P_ac + jQ_ac; abs(V_ac) = Ksc M V_dc; the phase of S_ac equals the target angle |
| Converter.Converter.constructor | zappy/LF_elements/converter.py:33-43 | the outputs start at their declared values |
| Converter.Converter.SolveNonlinear | zappy/LF_elements/converter.py:110-118 | the three power outputs become the powers flowing, which zeroes their residuals; the currents are unchanged |
| Converter.Converter.GuessNonlinear | zappy/LF_elements/converter.py:120-128 | the AC current delivers P_ac_guess (1 + j k), which has power factor PF; the DC current delivers P_dc_guess |
| Converter.DCPowerPartialsExact | zappy/LF_elements/converter.py:138-139 | the P_dc row is the derivative of V_dc I_dc - P_dc, up to the term c d |
| Converter.ConverterPowerPartialsExact | zappy/LF_elements/converter.py:142-151 | the P_ac and Q_ac rows are the derivatives of the power residual pair |
| Converter.ModulationPartialsExact | zappy/LF_elements/converter.py:154-158 | the Ksc, M and V_dc entries are the derivatives of the modulation residual, up to the explicit higher-order product terms |
| Converter.ModulationMagnitudePartials | zappy/LF_elements/converter.py:154-158 | the V_ac entries are the gradient of abs(V_ac): rate abs(V_ac) along V_ac, zero across it |
| Converter.AngleChainRule | zappy/LF_elements/converter.py:186-189 | the Ii_ac row is the chain rule for -arctan2(Im S, Re S) through dS = a conj(I) + V conj(b) |
| Converter.AngleRowRadial | zappy/LF_elements/converter.py:186-189 | scaling V_ac does not move the angle row |
| Converter.AngleRowQuarterTurn | zappy/LF_elements/converter.py:186-189 | turning V_ac a quarter turn moves the angle row at -1 radian per unit |
| Converter.ConverterPFPartial | zappy/LF_elements/converter.py:190-193 | J[Ii_ac, PF] times sqrt(1 - PF^2) is -1 for Lead (the derivative of arccos) and +1 for Lag; the other entries do not depend on the mode |
| Converter.ConverterLossPartialsExact | zappy/LF_elements/converter.py:161-176 | the Ir_ac row linearize writes is the derivative of the balance apply_nonlinear selects at the same point, up to an explicit second-order remainder |
| Converter.LossResidualFollowsBranch | zappy/LF_elements/converter.py:102-107 | the residual is the selected direction's balance, and it stays that balance wherever the test gives the same direction |
| Converter.LossPartialsExact | zappy/LF_elements/converter.py:161-176 | each direction's Ir_ac row is the derivative of that direction's balance |
| Conversion.EfficiencyResidual | zappy/LF_elements/inverter.py:65 | p/eff + q is zero iff q eff = -p |
| Conversion.EfficiencyRowExact | zappy/LF_elements/inverter.py:91-92 | the 1/eff and -p/eff^2 entries are derivatives: p and q moves are exact, and an eff move is exact up to eff/(eff + h) |
| Conversion.FactorSquaredExact | zappy/LF_elements/inverter.py:247-248 | (1/PF)^2 - 1 moves by h times its slope plus an explicit second-order term |
| Conversion.ReactivePFPartial | zappy/LF_elements/inverter.py:247-248 | the PF entry d with d k PF^3 = -p is p dk/dPF: 2 k d = p times the slope of k^2 = 1/PF^2 - 1, and the move of p k matches it to second order |
| Conversion.MagnitudeGradient | zappy/LF_elements/rectifier.py:68-69 | entries e with e abs(V) = m V are the gradient of m abs(V): rate m abs(V) along V, zero across it |
| Conversion.ReactiveForSymmetry | zappy/LF_elements/inverter.py:207-210 | the leading and lagging reactive powers are negations of each other |
| Conversion.ReactivePowerFactor | zappy/LF_elements/inverter.py:207-210 | p and the implied reactive power have power factor PF: p^2 = PF^2 (p^2 + q^2) |
| Conversion.ReactiveResidual | zappy/LF_elements/inverter.py:207-210 | the reactive balance is zero iff q is the reactive power the power factor implies |
| Conversion.ReactiveRowExact | zappy/LF_elements/inverter.py:247 | the p and q entries of the reactive row are exact |
| Conversion.LossBalance | zappy/LF_elements/inverter.py:205 | the loss balance is zero iff the loss is the sum of the two terminal powers |
| Conversion.LossBalanceRow | zappy/LF_elements/inverter.py:190-192 | the declared 1, 1, -1 entries of the P_loss row are exact; the same constant row is declared by InverterCalcs (inverter.py:42-44) and RectifierCalcs (rectifier.py:45-47) |
| Inverter.ParseControlMode | zappy/LF_elements/inverter.py:22-23 | exactly 'Phase' and 'PF' are accepted; any other mode gives the ValueError message naming it |
| Inverter.ParseControlModeName | zappy/LF_elements/inverter.py:22-23 | every control mode is accepted under its own name |
| Inverter.CalcsBalancesOf | zappy/LF_elements/inverter.py:65-67 | each of the P_dc, Vm_ac and P_loss residuals is zero iff its output has the value solve_nonlinear gives it |
| Inverter.PowerFactorResidual | zappy/LF_elements/inverter.py:72 | P/abs(S) - PF is zero iff P = PF abs(S), which implies P^2 = PF^2 (P^2 + Q^2) |
| Inverter.ThetaResidual | zappy/LF_elements/inverter.py:69-72 | in Phase mode, zero iff the bus angle is the target; in PF mode, zero iff P = PF abs(S) |
| Inverter.PFThetaFree | zappy/LF_elements/inverter.py:71-72 | in PF mode, the angle residual does not depend on the bus angle |
| Inverter.CalcsSolvedLoss | zappy/LF_elements/inverter.py:79-81 | at the solution, P_loss eff = P_ac (eff - 1), which is zero at eff = 1 |
| Inverter.InverterCalcs.constructor | zappy/LF_elements/inverter.py:31-34 | the outputs start at their declared values |
| Inverter.InverterCalcs.SolveNonlinear | zappy/LF_elements/inverter.py:75-85 | the P_dc, Vm_ac and P_loss residuals become zero; in Phase mode so does the angle residual; in PF mode the angle is unchanged |
| Inverter.CalcsPartialsExact | zappy/LF_elements/inverter.py:87-96 | the P_dc, Vm_ac and Phase-mode rows are derivatives of their residuals |
| Inverter.PFRowGradient | zappy/LF_elements/inverter.py:97-99 | the PF-mode row is the gradient of P/abs(S): zero along S, -Q/abs(S) along the quarter turn |
| Inverter.PFRowPFEntry | zappy/LF_elements/inverter.py:59 | the declared PF entry -1 is the exact derivative of P/abs(S) - PF |
| Inverter.PowerFactorScaleFree | zappy/LF_elements/inverter.py:72 | scaling S by t > 0 leaves the power-factor residual unchanged |
| Inverter.Calcs2ResidualsOf | zappy/LF_elements/inverter.py:199-210 | each residual is zero iff its law holds: abs(V_ac) = M V_dc; P_ac = -P_dc eff; Q_ac is the implied reactive power (which then has power factor PF); P_loss = P_ac + P_dc |
| Inverter.InverterCalcs2.constructor | zappy/LF_elements/inverter.py:176-179 | the outputs start at their declared values |
| Inverter.InverterCalcs2.GuessNonlinear | zappy/LF_elements/inverter.py:212-221 | P_dc is the guess; P_ac and Q_ac follow and their residuals are zero; P_loss is unchanged |
| Inverter.InverterCalcs2.SolveNonlinear | zappy/LF_elements/inverter.py:223-233 | P_ac, P_loss and Q_ac residuals become zero, with the loss P_dc (1 - eff); P_dc is unchanged |
| Inverter.Calcs2MagnitudeRow | zappy/LF_elements/inverter.py:239-242 | the P_dc row is the derivative of V_dc M - abs(V_ac) |
| Inverter.Calcs2TransferRowExact | zappy/LF_elements/inverter.py:244-245 | the P_ac row is the derivative of P_ac + P_dc eff, up to the product of the moves |
| Inverter.Calcs2ReactiveRow | zappy/LF_elements/inverter.py:247-248 | the Q_ac row is the derivative of the reactive balance |
| Rectifier.RectifierResidualsOf | zappy/LF_elements/rectifier.py:49-54 | each residual is zero iff its output has its solved value; the reactive power then has power factor PF |
| Rectifier.RectifierSolvedOutputs | zappy/LF_elements/rectifier.py:56-61 | at the solution, P_loss eff = P_dc (eff - 1), and Q_ac is zero or has the sign of P_ac |
| Rectifier.RectifierCalcs.constructor | zappy/LF_elements/rectifier.py:29-32 | the outputs start at their declared values |
| Rectifier.RectifierCalcs.SolveNonlinear | zappy/LF_elements/rectifier.py:56-61 | all four residuals become zero |
| Rectifier.RectifierEfficiencyRow | zappy/LF_elements/rectifier.py:65-66 | the P_ac row is the derivative of P_dc/eff + P_ac |
| Rectifier.RectifierMagnitudeRow | zappy/LF_elements/rectifier.py:68-70 | the Vm_dc row is the derivative of abs(V_ac) M - Vm_dc |
| Rectifier.RectifierReactiveRow | zappy/LF_elements/rectifier.py:72-73 | the Q_ac row is the derivative of P_ac k - Q_ac |
| Resistor.ResistorCompute | zappy/NV_elements/resistor.py:16-19 | R I_in = V_out - V_in, I_in + I_out = 0, and equal voltages carry no current |
| Resistor.ResistorOppositeToDCLine | zappy/NV_elements/resistor.py:18-19 | the resistor's I_in is the negation of the DC line's I_in |
| Resistor.ResistorPartialsStructure | zappy/NV_elements/resistor.py:21-29 | every I_out partial is the negation of the matching I_in partial, and J[I_in, R] = -I_in/R |
| Resistor.ResistorPartialsExact | zappy/NV_elements/resistor.py:23-25 | the V entries are exact, and the R entry is exact up to R/(R + h) |
| ThermalMass.ThermalCompute | zappy/NV_elements/thermal_mass.py:25-28 | energy balance: dTdt mass c_p = Qdot_in - Qdot_out; equal temperatures carry no convective heat |
| ThermalMass.ThermalComputeCorrected | zappy/NV_elements/thermal_mass.py:27-28 | with the convective heat taken as the heat lost, the energy balance holds and Qdot_out is the negation of the as-written value |
| ThermalMass.HotBodyWarmsAsWritten | zappy/NV_elements/thermal_mass.py:27-28 | as written, a 500 K body in a 273 K fluid with no heat input warms up |
| ThermalMass.ConvectionRelaxes | zappy/NV_elements/thermal_mass.py:19 | corrected, with no heat input the body warms iff the fluid is hotter, and loses heat iff it is the hotter one |
| ThermalMass.ThermalPartialsStructure | zappy/NV_elements/thermal_mass.py:30-43 | the T_b partials are the negations of the T_f partials; each dTdt partial is minus the Qdot_out partial over mass c_p; the mass and c_p partials are consistent with the net heat |
| ThermalMass.CapacityPartialsForm | zappy/NV_elements/thermal_mass.py:42-43 | the mass and c_p partials are -net/(mass^2 c_p) and -net/(mass c_p^2) |
| ThermalMass.ThermalCoefficientPartialsExact | zappy/NV_elements/thermal_mass.py:32-39 | the Qdot_in, h and area entries are exact derivatives |
| ThermalMass.ThermalTemperaturePartialsExact | zappy/NV_elements/thermal_mass.py:34-41 | the T_f and T_b entries are exact derivatives |
| ThermalMass.ThermalCapacityPartialsExact | zappy/NV_elements/thermal_mass.py:42-43 | the mass and c_p entries are derivatives, up to mass/(mass + e) and c_p/(c_p + e) |
| ThermalMass.ThermalPartialsCorrectedExact | zappy/NV_elements/thermal_mass.py:32-41 | the corrected temperature partials are exact derivatives of the corrected compute |
| Wire.WireMassVolume | zappy/NV_elements/wire.py:26-30 | mass = density volume, 4 volume = area dia, and the outputs are non-negative for non-negative inputs |
| Wire.WireMassVolumePartialsStructure | zappy/NV_elements/wire.py:34-42 | the density partial of the mass is the volume, and the mass's other partials are density times the volume's |
| Wire.WireMassVolumeLinearExact | zappy/NV_elements/wire.py:35-42 | the length and density entries are exact derivatives |
| Wire.WireMassVolumeDiaExact | zappy/NV_elements/wire.py:34-40 | the dia entries are derivatives: area exact, volume and mass up to e^2 pi length/4 (times density) |
| Wire.ResistanceLaw | zappy/NV_elements/wire.py:74 | R pi dia^2 = 4 rho length, and R >= 0 when rho length >= 0 |
| Wire.WirePerfEnergyBalance | zappy/NV_elements/wire.py:72-78 | corrected: current is conserved; the power lost is I times the voltage drop; the heat equals the power lost and is non-negative; with no current, nothing changes; as written, only the heat differs |
| Wire.HeatNotPowerLostAsWritten | zappy/NV_elements/wire.py:78 | as written, 2 A through 1 ohm loses 4 W but is reported as 2 |
| Wire.ResistanceDiaPartialForm | zappy/NV_elements/wire.py:86 | the dia entry times pi dia^3 is -8 rho length |
| Wire.CurrentColumn | zappy/NV_elements/wire.py:92-102 | the I_in column is -R, -2 I R and 2 I R |
| Wire.RhoColumn | zappy/NV_elements/wire.py:93-103 | the V_out, P_out and heat rho entries are -I, -I^2 and I^2 times J[R, rho] |
| Wire.LengthColumn | zappy/NV_elements/wire.py:94-104 | the same for the length column |
| Wire.DiaColumn | zappy/NV_elements/wire.py:95-105 | the same for the dia column |
| Wire.LengthEntryAsWritten | zappy/NV_elements/wire.py:85 | the as-written dR_dlen is the length times the true partial |
| Wire.LengthPartialAsWritten | zappy/NV_elements/wire.py:85 | as written, at rho = pi/4, dia = 1, length 2, a unit length move takes R from 2 to 3 while the entry says 2 |
| Wire.ResistanceLinearExact | zappy/NV_elements/wire.py:84-85 | the corrected rho and length entries are exact derivatives of R |
| Wire.ResistanceDiaExact | zappy/NV_elements/wire.py:86 | the dia entry's remainder is e^2 times an explicit factor |
| Wire.WirePerfPassThrough | zappy/NV_elements/wire.py:65-68 | the declared unit partials: V_in, P_in and I_in pass through with slope 1 |
| Wire.CurrentMove | zappy/NV_elements/wire.py:92-102 | an I_in move changes V_out exactly, and P_out and the heat to second order, by the I_in column |
| Wire.RhoMove | zappy/NV_elements/wire.py:84-103 | a rho move changes R, V_out, P_out and the heat by exactly e times their rho entries |
| Wire.LengthMove | zappy/NV_elements/wire.py:85-104 | a length move changes R, V_out, P_out and the heat by exactly e times their corrected length entries |
| Wire.DiaStep | zappy/NV_elements/wire.py:86 | a dia move changes R by e J[R, dia] plus the remainder of ResistanceDiaExact |
| Wire.VoltageMove | zappy/NV_elements/wire.py:76 | a move of R by e p + k moves V_out by e (-I p) - I k |
| Wire.PowerMove | zappy/NV_elements/wire.py:77 | a move of R by e p + k moves P_out by e (-I^2 p) - I^2 k |
| Wire.HeatMove | zappy/NV_elements/wire.py:78 | a move of R by e p + k moves the heat by e (I^2 p) + I^2 k |

## Left out

- Transcendental functions (`sqrt` of a non-constant, `arccos`, `arctan2`, `np.degrees`) are parameters of the members that need them. Square roots are tied to their argument by `IsSqrt`. Angles are left uninterpreted, except `Degrees`, which is a multiplication by `180/Pi`.
- Floating point: all quantities are exact reals; rounding and overflow are not modelled.
- `num_nodes`: the components operate element-wise on arrays of operating points. One operating point is modelled.
- OpenMDAO plumbing is not modelled: `res_ref`, units, descriptions, `rows`/`cols` sparsity patterns, and option declarations other than those that select a mode.
- The Newton solver, line search and bounds are not part of this model. So are the generator's `Q_min`/`Q_max` and `P_min`/`P_max` output bounds, which act only through the solver.
- The groups `Inverter`, `Inverter2`, `Rectifier` and `Wire` only connect subsystems; they are not modelled.
- `ACbus.linearize` and `DCbus.linearize` are empty. Their partials are the constants that setup declares, which `Kirchhoff.SumOverPartialsExact` proves to be derivatives.
- Components divide by inputs and by values computed from them: R, V, eff, PF, mass, c_p, dia, abs(S), k = sqrt(1/PF^2 - 1) and sqrt(1 - PF^2). The corresponding members require the divisor to be nonzero, where the source would produce `inf`/`nan`.
- `Inverter.Calcs2Linearize`, `Rectifier.RectifierLinearize` and `Converter.ConverterLinearize` require k != 0 or sqrt(1 - PF^2) != 0. Both are zero at PF = 1, which is PF's declared default (converter.py:31, inverter.py:169, rectifier.py:23). So these linearize members exclude the default operating point, where the source divides by zero (converter.py:191-193, inverter.py:247-248, rectifier.py:73).
- The examples, tests and `setup.py` are not part of this model.
- Converter.LossResidual: the direction-switched loss balance is not continuous in value across abs(Re S_ac) = abs(P_dc) when Re S_ac and P_dc have opposite signs and eff != 1 (`Converter.TieBranchesAgree`). The model follows the code.
- Wire.DiaStep: for V_out, P_out and Qdot_elec, the diameter move is proved in parts rather than as one lemma per output:
  - `Wire.DiaStep` and `Wire.ResistanceDiaExact` move R;
  - `Wire.DiaColumn` gives the chain rule;
  - `Wire.VoltageMove`, `Wire.PowerMove` and `Wire.HeatMove` carry an R move to each output.

## Findings

| source | as written | input that shows it | evidently intended | confidence | as-written member | corrected member |
|---|---|---|---|---|---|---|
| zappy/NV_elements/wire.py:85 | `dR_dlen = 4/(pi dia^2) rho length`, which is R itself | rho = pi/4, dia = 1, length = 2: a unit length step takes R from 2 to 3, but the entry says 2 | `4/(pi dia^2) rho`, the derivative of R with respect to length; the V_out, P_out and Qdot_elec length entries built from it (lines 94, 99, 104) change with it | not executed | Wire.LengthPartialAsWritten | Wire.LengthMove |
| zappy/NV_elements/wire.py:78 | `Qdot_elec = I_in R`, a voltage, declared in W as the heat the wire generates | I_in = 2, R = 1 (rho = pi/4, length 1, dia 1): P_out falls by 4 W but Qdot_elec is 2 | `I_in^2 R`, the power the wire loses (line 77) | not executed | Wire.HeatNotPowerLostAsWritten | Wire.WirePerfEnergyBalance |
| zappy/NV_elements/thermal_mass.py:27 | `Qdot_out = h area (T_f - T_b)`, declared as the heat the body loses (line 19) and subtracted from Qdot_in | T_f = 273, T_b = 500, h = 7, area = 1, mass c_p = 240, Qdot_in = 0: the hot body warms up | `h area (T_b - T_f)`, so that convection moves the body toward the fluid temperature | not executed | ThermalMass.HotBodyWarmsAsWritten | ThermalMass.ConvectionRelaxes |

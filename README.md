# Traffic-density advection on a periodic road

A Dafny model of `eqn_advection`, the integrator of the traffic "stop light" program. It
solves the generalised Burgers equation for the car density `rho` on a ring road of N
cells. It starts from a square pulse of jammed traffic. It then advances the density for
`nstep` time steps with one of three explicit schemes: FTCS, Lax or Lax-Wendroff. Every
snapshot and its time are recorded.

Densities are Dafny `real`, which is exact rational arithmetic. The update formulas
therefore hold exactly as written, and conservation of the number of cars is an
algebraic theorem rather than an approximation.

The project has three modules.

- `Periodic` (periodic.dfy) covers the patched neighbour maps `ip` and `im`. It also
  defines the total `Sum` of a field, and the shifted fields `Next` and `Prev` (the
  field read through `ip` and through `im`). Its lemmas show that centred and backward
  differences of any field total zero around the ring.
- `Advection` (advection.dfy) holds the pure specification:
  - the flux `rho * vMax * (1 - rho / rhoMax)` and `FlowMax`;
  - the face speeds `cp` and `cm`;
  - the per-cell formulas `FtcsCell`, `LaxCell` and `LaxWendroffCell`, in terms of the
    scalars `coeff = tau / (2h)` and `coefflw = tau^2 / (2h^2)`, as the source computes
    them once;
  - the same rules applied to a whole field (`FtcsRule`, `LaxRule`, `LaxWendroffRule`)
    from a given flux field;
  - one step of each scheme (`FtcsStep`, `LaxStep`, `LaxWendroffStep`, `Step`);
  - the selector dispatch `SchemeOf`, and the k-step trajectory `Evolve`;
  - the initial pulse `InitialPulse`.
- `Integrator` (integrator.dfy) mirrors the source's imperative code on arrays.
  - Each whole-array numpy assignment becomes a `forall` statement. The updates that
    overwrite the array they read (lines 69, 71 and 75-76, which rewrite `rho`) work from a
    copy of its old contents, so every new cell is computed from the previous step's values.
    The others (the flux at line 64, the face speeds at lines 73-74, the record at line 79)
    write a separate array from the one they read.
  - The postconditions of the methods that perform one update, and of `Advance` and
    `StepAndRecord`, tie each new array state to the specification functions applied to
    the old state. `TimeLoop` states the final density and the whole record, and `Integrate`
    the record it returns. Neither says what the scratch arrays `Flow`, `cp` and `cm` hold
    after the loop.
  - `Integrate` returns `tplot`, `iplot`, `rplot` and `xplot`, as the source does.

Two facts about `eqn_advection` that the model keeps:

- A selector other than 1 or 2 runs Lax-Wendroff; no selector is rejected.
- Any N >= 1 gives a valid run.

## Model

| member | source | states |
|---|---|---|
| Periodic.Ip | WestDax_Lab9.py:47-48 | the right-hand neighbour of every cell is a cell index in [0, N) |
| Periodic.Im | WestDax_Lab9.py:49-50 | the left-hand neighbour of every cell is a cell index in [0, N) |
| Periodic.NeighboursAreModular | WestDax_Lab9.py:47-50 | ip[N-1] == 0 and im[0] == N-1; for every cell, ip[i] == (i+1) mod N and im[i] == (i-1+N) mod N |
| Periodic.NeighboursInverse | WestDax_Lab9.py:47-50 | ip[im[i]] == i and im[ip[i]] == i for every cell, so each map is a permutation of the ring |
| Periodic.SumNext | WestDax_Lab9.py:47-48 | reading a field through ip (a rotation) keeps its total |
| Periodic.SumPrev | WestDax_Lab9.py:49-50 | reading a field through im (a rotation) keeps its total |
| Periodic.CentredDifferenceSumsToZero | WestDax_Lab9.py:69 | the centred differences Flow[ip] - Flow[im] of any field total zero around the ring |
| Periodic.BackwardDifferenceSumsToZero | WestDax_Lab9.py:75-76 | the backward differences e[i] - e[im[i]] of any field total zero around the ring |
| Advection.SchemeOf | WestDax_Lab9.py:68-76 | selector 1 gives FTCS, selector 2 gives Lax, and every other selector gives Lax-Wendroff, each as an if-and-only-if; there is no error case |
| Advection.Params.Coeff | WestDax_Lab9.py:31 | coeff = tau / (2h), stated as the number whose product with 2h is tau |
| Advection.Params.CoeffLw | WestDax_Lab9.py:32 | coefflw = tau^2 / (2h^2), stated as the number whose product with 2h^2 is tau^2 |
| Advection.Params.FlowMax | WestDax_Lab9.py:35 | Flow_max = 0.25 rho_max v_max is the flux at half the maximum density |
| Advection.Flux | WestDax_Lab9.py:64 | the flux of one cell, rho * (v_max * (1 - rho / rho_max)), is 0 for an empty cell and for a jammed cell (rho == rho_max) |
| Advection.FlowField | WestDax_Lab9.py:64 | Flow has one entry per cell, and Flow[i] is the flux of rho[i] |
| Advection.FluxBounded | WestDax_Lab9.py:35 | whenever v_max / rho_max >= 0, no real density gives a flux above Flow_max |
| Advection.FluxAboveFlowMax | WestDax_Lab9.py:35 | whenever v_max / rho_max < 0, an empty cell already carries more flux than Flow_max, so the bound holds exactly when v_max / rho_max >= 0 |
| Advection.WaveSpeed | WestDax_Lab9.py:73-74 | the face speed v_max * (1 - (a + b) / rho_max) between densities a and b is the slope of the flux between them: speed * (a - b) == Flux(a) - Flux(b) |
| Advection.CpField | WestDax_Lab9.py:73 | cp has one entry per cell, and cp[i] is the face speed between rho[ip[i]] and rho[i] |
| Advection.CmField | WestDax_Lab9.py:74 | cm has one entry per cell, and cm[i] is the face speed between rho[i] and rho[im[i]] |
| Advection.CmIsShiftedCp | WestDax_Lab9.py:73-74 | the cm field is the cp field read through im: cm[i] == cp[im[i]] |
| Advection.FtcsRule | WestDax_Lab9.py:69 | rho[i] - coeff * (Flow[ip[i]] - Flow[im[i]]) in every cell, for a given flux array; the result has one entry per cell |
| Advection.FtcsStep | WestDax_Lab9.py:64-69 | the FTCS rule applied with coeff and the flux of the current density; the result has one entry per cell |
| Advection.FtcsRuleIsLinear | WestDax_Lab9.py:69 | the FTCS update is rho - coeff * (Flow[ip] - Flow[im]) as a whole-field linear combination |
| Advection.FtcsRuleConserves | WestDax_Lab9.py:69 | for any coefficient and any flux field, the FTCS update keeps the total density |
| Advection.FtcsConservesMass | WestDax_Lab9.py:64-69 | one FTCS step keeps the total density exactly |
| Advection.LaxRule | WestDax_Lab9.py:71 | 0.5 * (rho[ip[i]] + rho[im[i]]) - coeff * (Flow[ip[i]] - Flow[im[i]]) in every cell, for a given flux array; the result has one entry per cell |
| Advection.LaxStep | WestDax_Lab9.py:64-71 | the Lax rule applied with coeff and the flux of the current density; the result has one entry per cell |
| Advection.LaxRuleIsLinear | WestDax_Lab9.py:71 | the Lax update is the neighbour average (rho[ip] + rho[im]) / 2 minus coeff times the centred flux difference |
| Advection.LaxRuleConserves | WestDax_Lab9.py:71 | for any coefficient and any flux field, the Lax update keeps the total density |
| Advection.LaxConservesMass | WestDax_Lab9.py:64-71 | one Lax step keeps the total density exactly |
| Advection.LaxWendroffRule | WestDax_Lab9.py:75-76 | rho[i] - coeff * (Flow[ip[i]] - Flow[im[i]]) + coefflw * (cp[i] * (Flow[ip[i]] - Flow[i]) - cm[i] * (Flow[i] - Flow[im[i]])) in every cell, for given flux and face-speed arrays; the result has one entry per cell |
| Advection.LaxWendroffStep | WestDax_Lab9.py:64-76 | the Lax-Wendroff rule applied with coeff, coefflw, the flux and the face speeds cp and cm of the current density; the result has one entry per cell |
| Advection.CorrectionIsFaceDifference | WestDax_Lab9.py:75-76 | when cm[i] == cp[im[i]], the Lax-Wendroff correction of cell i is the face flux through its right face minus that through its left face |
| Advection.LaxWendroffRuleIsLinear | WestDax_Lab9.py:75-76 | with consistent face speeds, the Lax-Wendroff update is the FTCS update plus coefflw times a backward difference of the face flux |
| Advection.LaxWendroffRuleConserves | WestDax_Lab9.py:75-76 | for any coefficients and flux field, and face speeds with cm[i] == cp[im[i]], the Lax-Wendroff update keeps the total density |
| Advection.LaxWendroffConservesMass | WestDax_Lab9.py:73-76 | one Lax-Wendroff step, with cp and cm computed from the density, keeps the total density exactly |
| Advection.Step | WestDax_Lab9.py:64-76 | one step of the selected scheme (FTCS, Lax or Lax-Wendroff step); the result has one entry per cell |
| Advection.Evolve | WestDax_Lab9.py:60-81 | the density after k passes of the loop (the initial density for k == 0, one Step of the previous snapshot otherwise); every snapshot has one entry per cell and holds the same total density as the initial one |
| Advection.StepConservesMass | WestDax_Lab9.py:68-76 | whichever scheme the selector picks, one step keeps the total density |
| Advection.StepIsLocal | WestDax_Lab9.py:68-76 | the new value of cell i depends only on the old density at im[i], i and ip[i]: two densities that agree there give the same new value |
| Advection.InitialPulse | WestDax_Lab9.py:40-44 | the initial density is rho_max for N/4 <= i < N/2, rho_max / 2 at i == N/2, and 0 everywhere else |
| Advection.PulseMass | WestDax_Lab9.py:40-44 | the initial pulse holds (N/2 - N/4) rho_max + rho_max / 2 in total |
| Advection.PulseOfEight | WestDax_Lab9.py:40-44 | for N = 8 and rho_max = 1 the initial density is [0, 0, 1, 1, 0.5, 0, 0, 0] |
| Advection.LaxStepOfPulse | WestDax_Lab9.py:64-71 | with h = 1, tau = 0.01 and unit v_max and rho_max, one Lax step from [0, 0, 1, 1, 0.5, 0, 0, 0] gives [0, 0.5, 0.5, 0.74875, 0.5, 0.25125, 0, 0] |
| Advection.LaxScenario | WestDax_Lab9.py:40-71 | for N = 8, h = 1, tau = 0.01 and unit v_max and rho_max, the pulse is [0, 0, 1, 1, 0.5, 0, 0, 0] and one Lax step gives [0, 0.5, 0.5, 0.74875, 0.5, 0.25125, 0, 0] |
| Integrator.InitialDensity | WestDax_Lab9.py:40-44 | the zero array, with the loop's jam and the half-density cell written in, equals the initial pulse |
| Integrator.PeriodicNeighbours | WestDax_Lab9.py:47-50 | the arrays i+1 and i-1, with their one patched entry, hold Ip and Im for every cell |
| Integrator.ComputeFlow | WestDax_Lab9.py:64 | after the update, Flow holds the flux of every cell of the current density |
| Integrator.FtcsUpdate | WestDax_Lab9.py:69 | the new density is the FTCS rule applied to the old density and the flux array, so no cell reads an overwritten value |
| Integrator.LaxUpdate | WestDax_Lab9.py:71 | the new density is the Lax rule applied to the old density and the flux array |
| Integrator.FaceSpeeds | WestDax_Lab9.py:73-74 | cp and cm hold the face speeds of the current density |
| Integrator.LaxWendroffUpdate | WestDax_Lab9.py:75-76 | the new density is the Lax-Wendroff rule applied to the old density, the flux array and the face speeds |
| Integrator.Advance | WestDax_Lab9.py:62-76 | one step: Flow is refreshed, the density becomes Step of the selected scheme applied to the old density, and cp and cm are refreshed only for Lax-Wendroff |
| Integrator.Record | WestDax_Lab9.py:79 | column k of rplot becomes the density and every other column is unchanged |
| Integrator.StepAndRecord | WestDax_Lab9.py:62-80 | one pass of the loop: one step (Flow refreshed, cp and cm refreshed only for Lax-Wendroff), then the new density is stored as column istep + 1 and tau (istep + 1) as tplot[istep + 1], with nothing else in rplot or tplot changed |
| Integrator.TrajectoryIsEvolve | WestDax_Lab9.py:60-81 | a list of snapshots, each one step after the previous, is exactly the trajectory Evolve |
| Integrator.TimeLoop | WestDax_Lab9.py:60-81 | after nstep passes, iplot == nstep + 1, tplot[k] == tau k, column k of rplot is the density after k steps, and rho holds the last column, the density after nstep steps |
| Integrator.Integrate | WestDax_Lab9.py:20-82 | the returned iplot is nstep + 1, tplot[k] is tau k, column k of the N x (nstep + 1) array rplot is the density after k steps from the initial pulse, and xplot[i] is (i - 1/2) h - L/2 |

## Left out

- Plotting (WestDax_Lab9.py:87-106) and the module-level call (line 85) are left out. They are matplotlib visualisation of the returned arrays.
- The module-level defaults (WestDax_Lab9.py:11-18) are not constants of the model. The integrator reads two globals, `L` in the `xplot` formula and `nstep`. Both become explicit inputs `l` and `nstep` of `Integrate`.
- IEEE floating point is not modelled: rounding, overflow, NaN, and the instability of FTCS and Lax-Wendroff. Over exact reals every formula holds exactly, and nothing is claimed about the density staying within [0, rho_max].
- numpy's fancy indexing and vectorisation are modelled by their meaning only: a whole-array map computed from the old values.
- Integrate: it requires h != 0 and rho_max != 0 because it divides by both. The source has no validation of its inputs. Python would raise at `tau / (2 * h)`, and numpy would produce inf or NaN for a zero rho_max.
- Integrate: it requires n >= 1 and takes nstep as a natural number; these error paths of the source are not modelled. With N = 0, `rho[int(N / 2)]` (line 44) indexes an empty array and raises IndexError. A negative N makes `np.empty(N)` (line 36) raise ValueError before anything else runs. With nstep == -1, `rplot[:, 0]` (line 57) indexes an N x 0 array and raises IndexError; a smaller nstep makes `np.empty` (line 55) raise.
- TimeLoop: it does not state the final contents of `Flow`, `cp` and `cm`, because they are scratch arrays that `eqn_advection` never returns. `StepAndRecord` states them after each pass.
- Integrate: `Flow_max` (line 35) is computed but never used by the loop. It is modelled as `Params.FlowMax` and appears only in the flux lemmas.

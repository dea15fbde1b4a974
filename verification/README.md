# OpenSTA timing engine: a verified model

This project models five parts of a static timing analyser and proves what they
keep and what they compute, for every input:

* **RC reduction** (`TsGraph`, `RcTree`, `Lanczos`, `ArnoldiReduce`, `RcModel`,
  `Tridiagonal`, `QlSweeps`, `TridiagEV`, `DrivenTree`, `Poles`). A network of
  resistors, with loops, parallel resistors and self-loops, is oriented in place
  as a tree; two linear passes over the tree apply `R*C`; a three-term recurrence
  in two alternating buffers reduces it to a tridiagonal model of order at most
  five; implicit QL sweeps turn the model behind the driver's resistance into
  poles and residues. The recurrence is proved to yield an orthonormal basis
  although only two components are ever subtracted, the model to have the exact
  Elmore delays and all moments below its order, the eigensolver to go through
  the sweeps row by row and give up only after twenty, and the residues at every
  terminal to sum to one.
* **Equation solving** (`LuDecomp`, `LuSolve`, `NewtonRaphson`, `RootFinders`).
  Crout's decomposition in place with implicit pivoting, substitution that skips
  leading zeros, Newton-Raphson on top, and two safeguarded root searches.
* **Linked structures** (`ArrayTable`, `GraphLinks`, `Graph`, `NetLists`,
  `Network`). The timing graph, whose edges are threaded on two lists each, with
  the flags of annotated arc delays; and nets, pins and terms with merging and
  the walk over everything connected.
* **Functions and arcs** (`FuncExpr`, `LibertyBuilder`, `TimingArcs`,
  `LibertyCell`, `CellSignature`, `EquivCells`). The sense of a port function
  against its Boolean meaning, the arcs made from it, the order that finds
  duplicate arc sets, and the classes of equivalent cells.
* **Table lookup** (`TableModel`). The search of an axis, and linear, bilinear
  and trilinear interpolation and extrapolation.

`RealSums`, `Matrices`, `Sequences` and `Options` hold finite sums, matrices,
sequences without duplicates and optional values. Floating-point numbers are exact reals. A square root is a parameter
that is only known to be one (`RealSums.IsSqrt`); the functions whose roots are
sought, the equations of a Newton step and the hash of strings are parameters
that are arbitrary.

Code that changes things in place is imperative here too: the arrays, link
fields, maps and buffers are those of the program, every method is proved
against a specification of the state it leaves, and the theorems are about
those specifications. A function of the program that is long appears as several
methods, one for each of its loops or phases. Ghost results (a matrix, a list of
steps, a sequence of brackets) are witnesses of what a method went through.

## What differs from the documentation

* `makeTimingArcMap` is commented as replacing an earlier arc set by a later
  duplicate (liberty/Liberty.cc:1318-1350). Inserting into a set keeps the
  element that is there, so the first one stays: `LibertyCell.EarlierIsKept`.
* The equivalence of cells ignores what clear and preset together give, but the
  hash adds it, so equivalent cells hash alike if and only if those sums agree
  (`CellSignature.EquivHashesAlikeIff`); `CellSignature.EquivalentButApart` shows
  two cells that are never put in one class.
* The equivalence looks ports up by name, which also finds bits of buses. It is
  agreement of an order-free signature exactly when no port of one cell has only
  been found as a bit of the other's bus (`CellSignature.EquivIsSameSig`). Then it
  is symmetric; otherwise it may hold one way only
  (`CellSignature.BusBitIsOneWay`) or both ways (`CellSignature.BothWaysByBits`).
* The table of arc delays would give an array longer than a block ids that run
  into the next block's (`ArrayTable.ApartIffSmall`). No edge has such an array:
  an arc set takes at most four arcs (liberty/TimingArc.cc:239-244), so the flags
  of a valid graph have places of their own without any condition
  (`Graph.Graph.PlaceOfItsOwn`).
* `setDelayCount` clears flags through `removeDelayAnnotated` even when arc
  delays are not kept, and then stops with a bounds error unless there is
  nothing to clear: `Graph.Graph.SetDelayCount` says exactly when.
* A QL sweep breaks off if and only if a coupling strictly inside the swept rows
  is exactly zero (`TridiagEV.Sweep`). The eigensolver then gives up after twenty
  sweeps that all break off; for every other matrix no sweep breaks off, and the
  similarity survives even if it gives up (`TridiagEV.TridiagEV`). The couplings
  of a reduced network are never zero (`Poles.ReducedNotSplit`).
* A zero pivot becomes a tiny number and the decomposition goes on. It happens
  exactly for singular input: `LuSolve.RegularWithoutZeroPivot`,
  `LuSolve.SingularWithZeroPivot`.
* Newton's step of `findRoot` divides zero by zero at a visited point where the
  function and its derivative vanish, and only there (`RootFinders.ZeroOverZeroIff`).
* A model of order 1 has one delay for all terminals, the driver among them. It is
  the capacitance-weighted mean of the delays, and so exact only at terminals whose
  delay is that mean (`RcModel.ElmoreOfOrderOne`).
* A pin that has a term, but neither a net nor a net below the term, is not
  called when connections are visited from it: `Network.Network.VisitFromPin`.

## Model

| member | source | states |
|---|---|---|
| TsGraph.TsWork.LoadAdjacency | dcalc/ArnoldiReduce.cc:226-256 | The adjacency lists name every resistor at both of its points, once each, self-loops once |
| TsGraph.TsWork.MakeRcmodelDfs | dcalc/ArnoldiReduce.cc:337-409 | Terminates on any network; `ts_pordV` lists exactly the points the driver reaches, once each, numbered by `ts`; every other point was entered by an edge that still leads to it from a point with a smaller number |
| TsGraph.TsWork.Step | dcalc/ArnoldiReduce.cc:359-403 | One iteration keeps the invariant, reduces the work that is left, and turns no tree edge round |
| TsGraph.TsWork.VisitPoint | dcalc/ArnoldiReduce.cc:369-375 | A new point gets the next number and the edge it was entered by; only it becomes visited |
| TsGraph.TsWork.FirstEdge | dcalc/ArnoldiReduce.cc:376-381 | The first edge in the list of a new point that is not the one it was entered by, all before it being that one |
| TsGraph.TsWork.Ascend | dcalc/ArnoldiReduce.cc:384-402 | Taking frames off until a point has another edge to try keeps the invariant and the tree; the stack is empty or an edge is pending |
| TsGraph.TsWork.NextEdge | dcalc/ArnoldiReduce.cc:391-398 | The next edge to try passes over the one the point was entered by |
| TsGraph.TsWork.PushEdge | dcalc/ArnoldiReduce.cc:399-400 | The pushed edge is directed away from its point, no tree edge is turned, and the stack has room for it |
| TsGraph.PushKeeps | dcalc/ArnoldiReduce.cc:334-335 | Orienting and pushing an edge keeps the invariant, and every tree edge keeps its direction |
| TsGraph.VisitKeeps | dcalc/ArnoldiReduce.cc:369-375 | Entering a new point keeps the invariant and extends the tree |
| TsGraph.PopKeeps | dcalc/ArnoldiReduce.cc:384-388 | The point of a popped frame is scanned on after the position the frame was taken at |
| TsGraph.StackFits | dcalc/ArnoldiReduce.cc:345-381 | No edge is on the stack twice, so it never holds more frames than there are edges |
| TsGraph.VisitedIffReachable | dcalc/ArnoldiReduce.cc:337-409 | When the stack is empty, a point is visited if and only if a walk from the driver reaches it |
| RcTree.GatheredStep | dcalc/ArnoldiReduce.cc:537-540 | The accumulator of the backward pass before each point: currents moved up to the ancestors still to be processed |
| ArnoldiReduce.RcWork.Currents | dcalc/ArnoldiReduce.cc:534-541 | The backward pass leaves at every point the sum of `c*u` over its subtree |
| ArnoldiReduce.RcWork.Drops | dcalc/ArnoldiReduce.cc:542-545 | The forward pass leaves at every point the drop along its path from the driver |
| RcTree.PathSumAdjoint | dcalc/ArnoldiReduce.cc:533-545 | Path sums and subtree currents are transposes of each other |
| RcTree.EnergyForm | dcalc/ArnoldiReduce.cc:533-552 | `<w, RC u>` in the capacitance product is the sum over the edges of `r * iv(w) * iv(u)` |
| RcTree.SelfAdjoint | dcalc/ArnoldiReduce.cc:533-545 | `R*C` is self-adjoint in the capacitance product, whatever the values |
| RcTree.PositiveSemiDefinite | dcalc/ArnoldiReduce.cc:533-552 | With no negative resistance `<u, RC u>` is non-negative for every `u` |
| Lanczos.DiagonalNonNegative | dcalc/ArnoldiReduce.cc:547-552 | ... and so is every `d[h]` of a reduced model |
| RcTree.RCOfConstantIsElmore | dcalc/ArnoldiReduce.cc:533-545 | Applied to a constant the two passes give the Elmore delays, defined by shared path resistances |
| RcTree.DriverHasNoDelay | dcalc/ArnoldiReduce.cc:542-542 | The Elmore delay of the driver is 0 |
| ArnoldiReduce.RcWork.ApplyRC | dcalc/ArnoldiReduce.cc:533-552 | `y` becomes `R*C*u`, and the sum is `u C y` although the driver's term is skipped |
| ArnoldiReduce.RcWork.StoreRow | dcalc/ArnoldiReduce.cc:531-531 | Row `h` of `U` is the basis vector at the terminals; no other row changes |
| ArnoldiReduce.RcWork.Start | dcalc/ArnoldiReduce.cc:522-529 | The total capacitance, its root, and the constant vector of unit norm |
| ArnoldiReduce.RcWork.Subtract | dcalc/ArnoldiReduce.cc:559-565 | `y` loses its components along the last two vectors, the first step having only one |
| ArnoldiReduce.RcWork.Normalize | dcalc/ArnoldiReduce.cc:578-579 | `u1` times `e[h]` is `y` |
| ArnoldiReduce.RcWork.Advance | dcalc/ArnoldiReduce.cc:559-579 | The basis grows by one orthonormal vector, unless the squared residual is under 1e-30 |
| ArnoldiReduce.RcWork.Step | dcalc/ArnoldiReduce.cc:530-587 | Each iteration keeps the basis orthonormal with the buffers exchanged, or ends with a reduced model |
| ArnoldiReduce.RcWork.MakeRcmodelFromTs | dcalc/ArnoldiReduce.cc:479-587 | For any tree with positive total capacitance: an orthonormal basis from the constant vector on which the tridiagonal matrix is the projection of `R*C`, and its rows of `U`. Below order five it stopped because a diagonal entry or a squared residual was negligible, and at no earlier order was either |
| Lanczos.ResidualOrthogonal | dcalc/ArnoldiReduce.cc:559-565 | The residual is orthogonal to every earlier vector though only the last two components were subtracted |
| Lanczos.Extend | dcalc/ArnoldiReduce.cc:567-579 | Normalising the residual extends the orthonormal three-term basis |
| Lanczos.ReducedIsProjection | dcalc/ArnoldiReduce.cc:547-579 | Every entry of the tridiagonal matrix is `<u[m], RC u[i]>`, zeros included |
| Lanczos.MomentMatching | dcalc/ArnoldiReduce.cc:479-587 | `(RC)^k u[0]` is the basis weighted with `T^k`, for every `k` below the order |
| Lanczos.TwiceTheMoments | dcalc/ArnoldiReduce.cc:479-587 | Seen from the first vector, `<u[0], (RC)^k u[0]>` is the corner entry of `T^k` for every `k` below twice the order |
| RcModel.GetRC | dcalc/ArnoldiReduce.cc:411-441 | Capacitances that are not positive count as 0; every entered point has the resistance of the edge into it; the total is their sum |
| RcModel.SetTerms | dcalc/ArnoldiReduce.cc:459-475 | The driver's terminal comes first in exchange with terminal 0, and `outV` is the number of each terminal's point |
| RcModel.DriverFirstPermutes | dcalc/ArnoldiReduce.cc:464-469 | That order of the terminals is its own inverse |
| RcModel.LoadTree | dcalc/ArnoldiReduce.cc:513-520 | The arrays describe the oriented network, and every parent has a smaller number than its child |
| RcModel.MakeRcmodelFromW | dcalc/ArnoldiReduce.cc:613-648 | The model holds the first `order` rows and the pins in driver-first order |
| RcModel.MakeRcmodelDrv | dcalc/ArnoldiReduce.cc:318-332 | For every connected network: no model exactly if the capacitance is under 1e-22; else the model is the reduction of the tree the network was oriented as, of order at most five and at most the number of points; if less than both because a diagonal entry or the residual was negligible, and at no earlier order was either |
| RcModel.ElmoreExact | dcalc/ArnoldiDelayCalc.cc:484-492 | From order 2 on the delay read off the model is the exact Elmore delay of every terminal in the tree |
| RcModel.ElmoreAtDriver | dcalc/ArnoldiDelayCalc.cc:484-492 | ... so it is 0 at the driver |
| RcModel.FirstDiagonalIsMean | dcalc/ArnoldiReduce.cc:547-552 | `d[0]` times the total capacitance is the sum over all points of capacitance times Elmore delay, at any order |
| RcModel.ElmoreOfOrderOne | dcalc/ArnoldiDelayCalc.cc:484-492 | At order 1 the delay given for a terminal is exact if and only if its Elmore delay is that weighted mean |
| RcModel.MomentsExact | dcalc/ArnoldiReduce.cc:613-648 | The model has every moment of the tree below its order, at every terminal |
| Tridiagonal.RotateRows | dcalc/ArnoldiDelayCalc.cc:702-706 | The rotation of two rows of `v` keeps its rows orthonormal |
| Tridiagonal.RotateColumns | dcalc/ArnoldiDelayCalc.cc:702-706 | ... and its columns |
| Tridiagonal.ChaseKeepsSimilar | dcalc/ArnoldiDelayCalc.cc:686-707 | A rotation that annihilates the bulge keeps the matrix similar to the band matrix whose bulge has moved one row down |
| Tridiagonal.ChasedTrace | dcalc/ArnoldiDelayCalc.cc:698-701 | ... and keeps the trace |
| Tridiagonal.DeflateKeepsSimilar | dcalc/ArnoldiDelayCalc.cc:674-676 | Ignoring a negligible coupling is diagonalising a matrix without it |
| Tridiagonal.DeflatedBound | dcalc/ArnoldiDelayCalc.cc:674-676 | ... which differs by at most twice that coupling in every entry |
| Tridiagonal.ExchangeKeeps | dcalc/ArnoldiDelayCalc.cc:714-724 | Exchanging two eigenvalues together with their rows keeps trace, orthonormality and diagonalisation |
| TridiagEV.RootAboveOne | dcalc/ArnoldiDelayCalc.cc:681-683 | The shift never divides by zero |
| TridiagEV.Shift | dcalc/ArnoldiDelayCalc.cc:681-683 | For every `h` the shift leads to the eigenvalue of the last two rows that is the nearer to `d[h]` |
| TridiagEV.RotateRowsOf | dcalc/ArnoldiDelayCalc.cc:702-706 | The inner loop rotates rows `i-1` and `i` of `v` |
| TridiagEV.RotateAt | dcalc/ArnoldiDelayCalc.cc:686-707 | One rotation of a sweep keeps orthonormality, trace and similarity, or finds nothing to rotate |
| TridiagEV.Sweep | dcalc/ArnoldiDelayCalc.cc:681-711 | The states in between are exactly those of the shift and the rotations from row 1 up. A sweep breaks off if and only if a coupling strictly inside has vanished, and leaves one vanished if and only if it broke off; either way trace and orthonormality are kept, and by a full one similarity |
| TridiagEV.SolveRow | dcalc/ArnoldiDelayCalc.cc:675-712 | Every sweep starts with a coupling that is not negligible; the row ends with a negligible one, or after exactly twenty sweeps without one. A stuck row is given up; any other keeps similarity and stays free of vanished couplings; a negligible one changes nothing |
| TridiagEV.SortDescending | dcalc/ArnoldiDelayCalc.cc:714-728 | What is left is a rearrangement of the eigenvalues, each with its row, in descending order |
| TridiagEV.TridiagEV | dcalc/ArnoldiDelayCalc.cc:657-732 | Success gives descending eigenvalues and orthonormal rows that diagonalise the input but for dropped couplings under 1e-18; trace and orthonormality hold even on failure. From the input every row in turn is swept as above, the rows before the last one run all succeeded, and it fails on a row only after twenty sweeps of it. A zero coupling before the last one that is not negligible always fails; without one similarity survives even a failure; order over 32 fails, order up to 2 succeeds |
| QlSweeps.RowRunGrows | dcalc/ArnoldiDelayCalc.cc:675-712 | One sweep more from a coupling that is not negligible goes on with the run of its row |
| QlSweeps.RunsGrow | dcalc/ArnoldiDelayCalc.cc:674-712 | The next row starts where the run of the last one ended |
| TridiagEV.NonZeroNotSplit | dcalc/ArnoldiDelayCalc.cc:672-676 | Couplings that are not zero are never split |
| Poles.ReducedNotSplit | dcalc/ArnoldiReduce.cc:567-577 | The couplings of a reduced network are never split |
| Poles.DelayWork.CalculatePolesRes | dcalc/ArnoldiDelayCalc.cc:597-634 | The solver runs on the model with the driver's share in its first entry, and fails only as it does; if not, poles are the inverted eigenvalues, residues are weight times mode, and the model's diagonal is restored |
| Poles.DelayWork.Modes | dcalc/ArnoldiDelayCalc.cc:620-628 | Every eigenvector at every terminal, and its weight |
| Poles.DelayWork.Residues | dcalc/ArnoldiDelayCalc.cc:630-633 | Every residue |
| Poles.ResiduesSumToOne | dcalc/ArnoldiDelayCalc.cc:620-633 | The residues at every terminal of a reduced tree sum to exactly 1 |
| Poles.PolesAscend | dcalc/ArnoldiDelayCalc.cc:614-618 | Poles are positive and in ascending order |
| Poles.MeanDelayIsElmore | dcalc/ArnoldiDelayCalc.cc:597-634 | From order 2 on, the time constants weighted with the residues of a terminal are its Elmore delay in the tree with one more root, from which the driver's resistance leads to the driver, but for what dropping couplings may have cost |
| Poles.MeanDelayOfOrderOne | dcalc/ArnoldiDelayCalc.cc:597-634 | At order 1 they are exactly the capacitance-weighted mean of the Elmore delays in that tree |
| Poles.DrivenElmoreExact | dcalc/ArnoldiDelayCalc.cc:607-611 | From order 2 on, what the model gives a terminal and the driver's share are together its exact Elmore delay in that tree |
| Poles.DrivenFirstIsMean | dcalc/ArnoldiDelayCalc.cc:607-611 | At any order the first entry given to the solver times the total capacitance is the capacitance-weighted sum of the Elmore delays in that tree |
| DrivenTree.DrivenShares | dcalc/ArnoldiDelayCalc.cc:607-611 | In that tree any two points share the driver's resistance besides what they share without it |
| DrivenTree.DrivenDelayIs | dcalc/ArnoldiDelayCalc.cc:607-611 | ... so every delay grows by it times all the capacitance |
| DrivenTree.DrivenSum | dcalc/ArnoldiDelayCalc.cc:607-611 | ... and the weighted sum by it times the square of the capacitance |
| Poles.DriverResponse | dcalc/ArnoldiDelayCalc.cc:1448-1451 | From a connected network to its residues: the model has at most the order the solver takes, order up to 2 is always solved, and if it is solved the residues of every terminal sum to 1 and the poles are positive and ascend |
| LuDecomp.Scales | dcalc/DmpCeff.cc:1388-1399 | Every scale is positive and brings the largest entry of its row to 1; failure exactly if some row is zero |
| LuDecomp.ScaleOfIff | dcalc/DmpCeff.cc:1388-1399 | A scale is right if and only if no scaled entry of the row exceeds 1 and one is 1 |
| LuDecomp.Eliminate | dcalc/DmpCeff.cc:1404-1407 | One entry loses the products of the first `m` pivots; nothing else changes |
| LuDecomp.ReduceColumn | dcalc/DmpCeff.cc:1402-1426 | The column is eliminated and `imax` is the last row whose scaled residual is the largest |
| LuDecomp.PivotColumn | dcalc/DmpCeff.cc:1438-1445 | A zero diagonal becomes `tiny_double`; the residuals below are the diagonal times the multipliers |
| LuDecomp.Column | dcalc/DmpCeff.cc:1401-1446 | One column more is factored, with the rows exchanged throughout |
| LuDecomp.LuDecomp | dcalc/DmpCeff.cc:1380-1447 | `L*U` is the row-permuted input, but for exactly `tiny_double` on the diagonal at each zero pivot, which has zeros below it; relative to the largest entries of their input rows no residual exceeds its pivot; fails exactly on a zero row |
| LuDecomp.StillPivotsHold | dcalc/DmpCeff.cc:1414-1445 | That holds for one column more when the row of the largest scaled residual is exchanged into it, with its scale |
| LuDecomp.ProductPrefix | dcalc/DmpCeff.cc:1372-1376 | The factors stored in one matrix multiply to what elimination subtracts |
| LuSolve.TransformB | dcalc/DmpCeff.cc:1460-1475 | Forward substitution solves `L*y` = permuted `b` despite skipping leading zeros |
| LuSolve.BackSubstitute | dcalc/DmpCeff.cc:1476-1482 | Back substitution solves `U*x = y` |
| LuSolve.LuSolve | dcalc/DmpCeff.cc:1454-1483 | Never divides by zero; the result solves the original system, but for `tiny_double*x[i]` in the equation of each zero pivot |
| LuSolve.SolvesWithoutZeroPivot | dcalc/DmpCeff.cc:1454-1483 | With no zero pivot `A*x = b` exactly, every row |
| LuSolve.RegularWithoutZeroPivot | dcalc/DmpCeff.cc:1438-1440 | With no zero pivot the input maps only zero to zero |
| LuSolve.SingularWithZeroPivot | dcalc/DmpCeff.cc:1438-1440 | With a zero pivot there is a non-zero vector that the input maps to zero |
| NewtonRaphson.NewtonRaphson | dcalc/DmpCeff.cc:1334-1366 | A run of Newton steps from the given point; converged exactly at the first step with all components under the tolerance, else which error and why |
| NewtonRaphson.StepOf | dcalc/DmpCeff.cc:1349-1354 | The step is the solution from the decomposed Jacobian and `-fvec` |
| NewtonRaphson.StepSolves | dcalc/DmpCeff.cc:1348-1354 | Without a zero pivot the step solves `J*p = -F` |
| NewtonRaphson.RegularStep | dcalc/DmpCeff.cc:1348-1354 | A regular Jacobian has no zero pivot |
| NewtonRaphson.LinearStepEndsAtRoot | dcalc/DmpCeff.cc:1348-1361 | Where the equations are linear along the step it ends at a root |
| RootFinders.FindRoot | dcalc/DmpCeff.cc:1270-1328 | Which error or end point is returned and when; otherwise a chain of brackets from the caller's, each with one end moved to the evaluated point of its sign, every point the next one by the step before the last, and the converged point |
| RootFinders.NarrowingNests | dcalc/DmpCeff.cc:1321-1325 | Every bracket lies in every earlier one and keeps the change of sign |
| RootFinders.NextPointWithin | dcalc/DmpCeff.cc:1303-1316 | The next point stays in the bracket; an accepted Newton step is at most half the step before the last |
| RootFinders.NewtonTakenIff | dcalc/DmpCeff.cc:1303-1316 | Newton's step is taken if and only if it ends in the bracket, ends allowed, and is at most half the step before the last; with a zero derivative, if and only if the value is 0 as well |
| RootFinders.FoundWithin | dcalc/DmpCeff.cc:1317-1319 | A root found lies in the caller's interval |
| RootFinders.NoZeroOverZero | dcalc/DmpCeff.cc:1312-1316 | Newton divides by zero only where function and derivative vanish together inside the interval |
| RootFinders.ZeroOverZeroIff | dcalc/DmpCeff.cc:1302-1316 | The search divides 0 by 0 if and only if it visits, with iterations left, a point where both vanish |
| RootFinders.CubeDividesZeroByZero | dcalc/DmpCeff.cc:1302-1316 | It does so at once for the cube between -1 and 1 |
| RootFinders.SolveTBracketed | dcalc/ArnoldiDelayCalc.cc:782-849 | Without a straddle the nearer end; otherwise at most nine narrowings from the secant point, every point the next one by the step before the last and the value bisected at before, and which point is returned |
| RootFinders.SecantWithin | dcalc/ArnoldiDelayCalc.cc:794-794 | The secant point lies between the ends |
| RootFinders.NextTWithin | dcalc/ArnoldiDelayCalc.cc:812-836 | Newton steps and plain and accelerated bisections all stay in the bracket |
| RootFinders.NewtonTakenTIff | dcalc/ArnoldiDelayCalc.cc:812-836 | Newton's step is taken if and only if it ends strictly inside the bracket and is at most half the step before the last; never with a zero derivative |
| RootFinders.StrideIs | dcalc/ArnoldiDelayCalc.cc:815-821 | Bisection goes 0.9348 of the way after two negative values, 0.0625 after two positive ones, and else half of it |
| RootFinders.ZeroSlopeBisects | dcalc/ArnoldiDelayCalc.cc:812-813 | A zero derivative always bisects, so there is no division by zero |
| RootFinders.SolvedWithin | dcalc/ArnoldiDelayCalc.cc:837-848 | Whatever is returned lies in the caller's interval |
| RootFinders.SolvedBrackets | dcalc/ArnoldiDelayCalc.cc:840-844 | If the end values are right every bracket changes sign |
| ArrayTable.MakeAfter | include/sta/ArrayTable.hh:107-142 | An array that fits its block starts after everything allocated before |
| ArrayTable.TooLargeCovers | include/sta/ArrayTable.hh:123-139 | An array that does not covers the id of the next one |
| ArrayTable.ApartIffSmall | include/sta/ArrayTable.hh:107-155 | Arrays are disjoint if and only if none but the last is too large |
| GraphLinks.ListMembers | graph/Graph.cc:661-672 | An edge is on a vertex's out-list iff it leaves it, and on its in-list iff it enters it |
| GraphLinks.MadeKeeps | graph/Graph.cc:661-672 | Linking a new edge keeps all lists, also for a self-edge |
| GraphLinks.DroppedKeeps | graph/Graph.cc:471-499 | Unlinking and destroying an edge keeps all lists |
| Graph.Graph.PlaceOfItsOwn | graph/Graph.cc:706-728 | In every valid graph a flag has a place in bounds, and two flags share it only if edge, arc and analysis point are the same |
| Graph.Graph.MakeEdge | graph/Graph.cc:652-675 | The invariant is kept; the edge becomes first on both lists, its arcs are counted, none of its flags is set, and every flag of every other edge is as it was |
| Graph.Graph.LinkEdge | graph/Graph.cc:661-672 | The new edge is linked in front of both lists, which stay right |
| Graph.Graph.DeleteOutEdge | graph/Graph.cc:487-499 | The neighbours on the out-list are linked to each other |
| Graph.Graph.DeleteInEdge | graph/Graph.cc:471-485 | The search finds what precedes the edge on the in-list and links past it |
| Graph.Graph.DeleteEdge | graph/Graph.cc:677-686 | The invariant is kept; exactly this edge leaves both lists and the count |
| Graph.Graph.DeleteInEdges | graph/Graph.cc:444-452 | Deleting the edges into a vertex, whose own in-list is not relinked, keeps all other lists |
| Graph.Graph.DeleteOutEdges | graph/Graph.cc:453-460 | ... and so does deleting the edges out of it, whose out-list is not relinked |
| Graph.Graph.DeleteVertex | graph/Graph.cc:433-462 | The invariant is kept; the vertex and exactly the edges touching it are gone, self-edges once |
| Graph.Graph.MakeVertex | graph/Graph.cc:393-425 | A new vertex has empty lists and nothing else changes |
| Graph.Graph.MakeEdgeArcDelays | graph/Graph.cc:706-728 | The edge gets arrays that start alike in all tables and cleared flags with room; other flags keep their value |
| Graph.Graph.RemoveDelayAnnotated | graph/Graph.cc:871-881 | Clears exactly the edge's flags; fails exactly when one has no place |
| Graph.Graph.SetArcDelayAnnotated | graph/Graph.cc:800-810 | In a valid graph sets the flag of this edge, arc and analysis point and no other; fails exactly when it has no place; the invariant is kept |
| Graph.Graph.ArcDelayAnnotated | graph/Graph.cc:785-798 | The flag, false if there are none, or failure |
| Graph.Graph.DelayAnnotated | graph/Graph.cc:883-894 | True iff some flag of the edge is set; never fails on a valid graph |
| Graph.Graph.RemoveDelays | graph/Graph.cc:855-869 | Going through all out-lists leaves every live flag false and the invariant kept; fails exactly when arc delays are not kept but there are analysis points and arcs |
| Graph.Graph.SetDelayCount | graph/Graph.cc:839-853 | A new count leaves every flag of every live edge false and the invariant kept, with it places of their own; the same count changes nothing; fails exactly when arc delays are not kept, the count is new and not 0, and some edge has arcs |
| NetLists.Net.AddPin | network/ConcreteNetwork.cc:1805-1813 | The pin becomes the first of the doubly linked list |
| NetLists.Net.DeletePin | network/ConcreteNetwork.cc:1815-1826 | The list without the pin, wherever it was |
| NetLists.Net.AddTerm | network/ConcreteNetwork.cc:1828-1834 | The term becomes the first of the list |
| NetLists.Net.DeleteTerm | network/ConcreteNetwork.cc:1836-1850 | The list without the term, wherever it was |
| NetLists.Net.MergeInto | network/ConcreteNetwork.cc:1781-1803 | All pins and terms move, reversed, in front of the other net's, and say so; the merged net is empty |
| Network.Network.Connect | network/ConcreteNetwork.cc:1330-1360 | The invariant is kept; the pin is on exactly the new net, or for the top instance its new term is; nobody else's net or term changes, and the terms are the old ones and that new one |
| Network.Network.ConnectNetPin | network/ConcreteNetwork.cc:1362-1367 | The pin becomes first on the net's list and the invariant is kept |
| Network.Network.MakeNet | network/ConcreteNetwork.cc:1443-1451 | A new net is on no list and has no pins or terms; the invariant is kept |
| Network.Network.MakeTerm | network/ConcreteNetwork.cc:1309-1320 | The pin has a term on the net, and keeps its own net |
| Network.Network.DisconnectPin | network/ConcreteNetwork.cc:1383-1405 | The invariant is kept; a top pin loses its term, which is gone, any other its net |
| Network.Network.DisconnectNetPin | network/ConcreteNetwork.cc:1407-1411 | The net's list without that pin |
| Network.Network.MergeInto | network/ConcreteNetwork.cc:1156-1166 | The invariant is kept; no pin or term is lost or duplicated; exactly those of the one net are now on the other |
| Network.Network.FindNet | network/ConcreteNetwork.cc:2020-2027 | Following the merge pointers terminates at a net that has not been merged |
| Network.Network.SurvivorIsUnique | network/ConcreteNetwork.cc:1606-1619 | ... of which there is only one |
| Network.Network.AdjacentBothWays | network/ConcreteNetwork.cc:1507-1538 | What searching up finds from one net searching down finds from the other |
| Network.Network.VisitConnectedPins | network/ConcreteNetwork.cc:1506-1539 | Terminates on any topology; every pin of the newly visited nets is called once, and nothing outside what is connected |
| Network.Network.VisitFromNet | network/Network.cc:1246-1252 | Calls exactly the pins of the connected component, net-less top pins reached through terms included, once each |
| Network.Network.VisitFromPin | network/Network.cc:1226-1244 | The same from a pin, and which pin that is connected to nothing is called |
| Network.Network.ComponentIsUnique | network/Network.cc:1226-1252 | The connected component of a net is determined |
| FuncExpr.SenseIsSound | liberty/FuncExpr.cc:109-186 | Positive means the function never falls as the port rises, negative never rises, no or unknown sense that the port makes no difference |
| FuncExpr.SenseIsPolarity | liberty/FuncExpr.cc:109-186 | Positive if and only if every occurrence of the port has an even number of inversions above it, negative if and only if odd, non-unate if and only if both occur, one under an exclusive or counting as both; unknown if and only if the port does not occur and the right-most operand is an exclusive or or missing |
| FuncExpr.SenseIffHasPort | liberty/FuncExpr.cc:284-303 | There is a sense if and only if the function mentions the port |
| FuncExpr.EquivIsSameShape | liberty/FuncExpr.cc:367-387 | Equivalent functions are those with the same expression up to names and directions of ports |
| FuncExpr.FuncTrichotomy | liberty/FuncExpr.cc:367-416 | Less, greater and equivalent exclude each other and one of them holds |
| FuncExpr.FuncTransitive | liberty/FuncExpr.cc:389-416 | Less is transitive |
| FuncExpr.FuncLessIsTokensLess | liberty/FuncExpr.cc:389-416 | Less is the order of the expressions written out operator first, left before right, decided at the first difference by the operator and then by the port |
| FuncExpr.StringLessIff | include/sta/StringUtil.hh:85-90 | Names are in the order of their first different character, a prefix before what it begins |
| FuncExpr.PortOrder | liberty/Liberty.cc:2304-2329 | Ports are strictly ordered up to name and direction |
| LibertyBuilder.MakeCombinationalArcs | liberty/LibertyBuilder.cc:250-329 | One arc for every pair of edges the sense allows whose output edge is wanted and modelled, with that model, and no other |
| LibertyBuilder.ArcsOfSense | liberty/LibertyBuilder.cc:262-278 | The arcs are those of the sense that is specified; if none is, those of the function, or of a non-unate one without a function |
| LibertyBuilder.ToggleAllowed | liberty/LibertyBuilder.cc:266-277 | A toggle that changes the output is a pair of edges the function's sense allows |
| LibertyBuilder.ToggleHasArc | liberty/LibertyBuilder.cc:250-329 | Every output edge that a toggle of one port can cause has its arc |
| LibertyBuilder.NoArcAgainstSense | liberty/LibertyBuilder.cc:280-309 | A unate function gets no arc for an edge it cannot make |
| TimingArcs.TimingArcsLess | liberty/TimingArc.cc:466-498 | The loop decides the order by length and then by edges |
| TimingArcs.ArcsLessIff | liberty/TimingArc.cc:466-498 | Less is having fewer arcs, or as many and a smaller edge at the first difference, from-edges before to-edges |
| TimingArcs.TimingArcsEquiv | liberty/TimingArc.cc:379-397 | True iff the arcs have the same edges in the same order |
| TimingArcs.ArcSetTrichotomy | liberty/TimingArc.cc:406-464 | Two arc sets agree on all ten keys or exactly one is less |
| TimingArcs.ArcSetTransitive | liberty/TimingArc.cc:406-464 | Less is transitive |
| TimingArcs.ArcSetLessIff | liberty/TimingArc.cc:406-464 | Less is being less in the first of the keys that differ |
| TimingArcs.TiesAreSameKeys | liberty/TimingArc.cc:406-464 | Neither less nor greater means the ten keys agree |
| TimingArcs.EquivIgnoresModes | liberty/TimingArc.cc:365-377 | Equivalence is agreement on all keys but the mode's name and value |
| LibertyCell.LibertyCell.Insert | liberty/Liberty.cc:1322-1324 | The set grows only by an arc set no element ties with |
| LibertyCell.LibertyCell.MakeTimingArcMap | liberty/Liberty.cc:1318-1350 | What is left is the first arc set of every class in the original order, and the set holds the same |
| LibertyCell.FirstsAre | liberty/Liberty.cc:1326-1341 | What is left is what has no earlier duplicate |
| LibertyCell.FirstsUnique | liberty/Liberty.cc:1326-1341 | No two that are left have the same keys |
| LibertyCell.EveryClassHasAFirst | liberty/Liberty.cc:1326-1341 | Every arc set has a representative that is left |
| LibertyCell.FirstsInOrder | liberty/Liberty.cc:1326-1341 | Relative order is kept |
| LibertyCell.EarlierIsKept | liberty/Liberty.cc:1322-1324 | Of two duplicates the earlier is kept |
| CellSignature.CompareCells | liberty/EquivCells.cc:257-265 | The loops decide the comparison of ports, functions, power ports, sequentials and arc sets |
| CellSignature.ComparePortsAndFuncs | liberty/EquivCells.cc:267-289 | Every port is found by name with the same direction and functions, and the counts agree |
| CellSignature.ComparePgPorts | liberty/EquivCells.cc:310-327 | Power ports agree by name and type |
| CellSignature.CompareSequentials | liberty/EquivCells.cc:329-350 | Sequentials agree in order |
| CellSignature.CompareArcSets | liberty/EquivCells.cc:352-366 | Every arc set is found in the other cell |
| CellSignature.EquivIsSameSig | liberty/EquivCells.cc:257-366 | On well-formed cells, equivalence with no port found only as a bit is equality of an order-free signature |
| CellSignature.ComparableBySig | liberty/EquivCells.cc:257-366 | ... so equivalence is an equivalence relation wherever it does not rest on bits |
| CellSignature.OtherWayIffPortsFound | liberty/EquivCells.cc:257-366 | A one-way equivalence holds the other way if and only if the ports are found there too, as they are when none was found as a bit |
| CellSignature.HashCell | liberty/EquivCells.cc:172-178 | The hash is a sum over ports, power ports and sequentials in unsigned arithmetic |
| CellSignature.SameSigSameHash | liberty/EquivCells.cc:172-255 | Equal signatures have equal hashes but for the clear and preset outputs |
| CellSignature.EquivHashesAlikeIff | liberty/EquivCells.cc:220-235 | Equivalent cells hash alike if and only if those outputs add the same |
| CellSignature.EquivalentButApart | liberty/EquivCells.cc:220-235 | Two equivalent cells that no hash of strings puts together |
| CellSignature.BusBitIsOneWay | liberty/EquivCells.cc:267-289 | Two cells equivalent one way round only |
| CellSignature.BothWaysByBits | liberty/EquivCells.cc:267-289 | Two cells equivalent both ways though a port of each is found only as a bit |
| EquivCells.EquivCells.FindEquivCells | liberty/EquivCells.cc:107-143 | After any sequence of libraries, lists, map and buckets are the classes of all usable cells met, in order |
| EquivCells.EquivCells.AddCell | liberty/EquivCells.cc:113-141 | One more cell enters its bucket and its class |
| EquivCells.EquivCells.Join | liberty/EquivCells.cc:119-134 | The cell joins the list of its match, or makes a new one with it |
| EquivCells.TogetherEquivalence | liberty/EquivCells.cc:107-143 | Being together is reflexive, symmetric and transitive |
| EquivCells.SharedIffTogether | liberty/EquivCells.cc:107-143 | Two cells share a list iff they are equivalent and hash alike |
| EquivCells.SharedIffEquivalent | liberty/EquivCells.cc:107-143 | With equal clear and preset outputs, iff they are equivalent |
| TableModel.FindAxisIndex | liberty/TableModel.cc:1341-1364 | The loop finds the cell that holds the value, the first or last one if it is off the axis |
| TableModel.BisectBrackets | liberty/TableModel.cc:1352-1361 | Bisection on an ascending axis ends with the two neighbours of the value |
| TableModel.DescendingIsNotSearched | liberty/TableModel.cc:1344-1350 | On a descending axis the first or last cell is taken, right only when the value is in the first |
| TableModel.Table1Interpolates | liberty/TableModel.cc:784-800 | The one-dimensional lookup interpolates, and with one point if and only if the value cut to an integer is index 0 |
| TableModel.Table2Interpolates | liberty/TableModel.cc:911-972 | The four-term formula and its one-point cases are interpolation along the second axis, then the first |
| TableModel.Table3.FindValue | liberty/TableModel.cc:1091-1154 | The eight-term formula with its assignments is interpolation along the third, second and first axis, whichever have one point |
| TableModel.LayersAreRead | liberty/TableModel.cc:1083-1090 | Of layers stored row after row the value at three indices is the entry of that layer, row and column |
| TableModel.LookupIsExact | liberty/TableModel.cc:1091-1154 | A table of a function linear in each variable gives that function everywhere, outside the table too |
| TableModel.LookupHitsStored | liberty/TableModel.cc:1083-1154 | At points of the axes the stored value is found |
| TableModel.AnyCellWillDo | liberty/TableModel.cc:1091-1154 | Within the table any cell that holds the point gives the same value, so cells agree on shared faces |
| TableModel.LookupWithinCorners | liberty/TableModel.cc:1091-1154 | Within the table a lookup lies between the corner values of its cell |
| TableModel.LookupRises | liberty/TableModel.cc:1091-1154 | Within a table that rises along every axis lookups rise, across cells too |
| TableModel.InterpRises | liberty/TableModel.cc:784-800 | In one dimension they rise off the axis too |
| TableModel.SingletonAxis | liberty/TableModel.cc:1091-1154 | A three-dimensional table with one point on its third axis is the two-dimensional one |

## Left out

- Rounding, NaN and infinities, fuzzy comparison, memory growth and locks: numbers are exact reals and arrays have the size that is needed.
- RootFinders.FindRoot: a Newton step that divides zero by zero is an outcome of its own, where the program goes on with a value that is not a number.
- RcModel.GetRC: pin capacitances and the ground capacitances of nodes are one number per point, and the range warning for resistances is not modelled.
- RcModel.MakeRcmodelDrv: asks for a network in which the driver has a resistor and reaches every node, because the code reads `in_edge` and `ts` of points that are not reached.
- TridiagEV.TridiagEV: for a matrix of order above 2 that is not split, that twenty sweeps are made before a row is given up is proved, whether they are enough is not decided; it would be a statement on the speed of convergence.
- Poles.DelayWork.CalculatePolesRes: the arrays of poles have the length of the order; `delay_work_alloc` is not modelled, and failure of the eigensolver is a result instead of an abort.
- Poles.MeanDelayIsElmore: speaks of the eigenvalues before those under 1e-14 are raised to it.
- TsGraph.TsWork.LoadAdjacency: lists of edges per point instead of one shared array with offsets; the maps from parasitic nodes to points are not part of this model.
- ArrayTable: ids are plain numbers (block times block size plus index), not limited to 32 bits, and the free list is absent because nothing is ever returned to it; the delay values themselves are not part of this model.
- Graph: vertex and edge ids are handed in as fresh numbers; the number of arcs of an edge is at most four by its type, the arc sets themselves not being part of the graph; the slew tables, the pin maps and the width and period check annotations are not part of this model.
- Graph.Graph.SetDelayCount: the vertex iterator is a sequence of all vertices.
- Network.Network.Connect: leaves out reconnecting a pin of the top instance that already has a term (the old term would stay on its net, referring to a pin that no longer refers to it) and connecting to no net, which the program does not survive.
- Network.Network.MakeTerm: leaves out a pin that already has a term, for the same reason.
- Network: names, instances, binding tables, `deletePin`, `deleteNet`, `replaceCell`, the cache of driver pins and the liberty side of ports are not part of this model.
- LibertyBuilder: only combinational arcs; sequential, tristate and check arcs are the same pattern with fixed edges.
- FuncExpr.SenseIsSound: for functions without missing sub-expressions.
- LibertyCell: the ordered set is the sequence of its elements, searched for a tie.
- CellSignature: the hash of strings and the sizes of numbers in the hash are as given; the map from names to ports is a field of the cell.
- EquivCells.EquivCells.FindEquivCells: asks that ports have names of their own, that duplicates have been pruned and that no two cells are equivalent by way of a bit of a bus; otherwise the comparison need not be symmetric and there are no classes. Sorting the classes by drive resistance and `mapEquivCells` are not part of this model.
- TableModel.LookupIsExact: on ascending axes, which the code presumes.
- TableModel: scaling of values, reports and the wireload tables, which search and interpolate in the same way.
- The effective capacitance waveforms and their partial derivatives (dcalc/DmpCeff.cc), the choice of brackets in `pr_solve3`, incremental delay propagation, liberty parsing, the writers, reports and the command language.

# Wave-equation PINN: training control, loss composition, sampling and checkpoints

A Dafny model of the discrete logic around a physics-informed neural network (PINN)
that is trained to solve the wave equation. The 1D variant is a vibrating string
(`src/`); the 2D variant is a membrane (`src_2/`). The neural network, automatic
differentiation and the optimiser are numerical machinery. What this model states
and proves is the logic around them:

- **Training loop** (`Training`). Each `run_training` loop is a fold over one
  per-epoch result. That result is the value of `compute_loss`, or the exception
  it raised. The fold decides:
  - which history row is appended;
  - when the best checkpoint is overwritten, which happens when the total is
    strictly below `best_loss`;
  - when the epoch-suffixed periodic checkpoint is written, with write failures
    swallowed;
  - when the loop stops, either at the non-finite `break` of the membrane loop or
    at an exception.

  `Train2D`/`Train1D` are the loops in their imperative shape, with mutable history
  and early exit. They are proved equal to the folds.
- **Loss composition** (`Loss`).
  - Each term is a mean square. The mean of an empty batch is NaN, as `torch.mean`
    gives.
  - The boundary term sums 2 edges (string) or 4 edges (membrane).
  - The optimised total weights `ic_u` and `ic_v` separately. The reported IC value
    is their unweighted sum.
  - With positive weights, the total is zero exactly when the network fits every
    sampled point.
- **Physics** (`Physics`).
  - Velocity dispatch on the model-type tag: `"constante"`, `"variavel"` and
    `"simulacao_2d"`. Any other tag is an error.
  - The residual `u_tt - c²(u_xx [+ u_yy])`, assembled from supplied second
    derivatives using the source's column indices.
  - Selection of the time column for the initial-velocity derivative.
- **Sampling geometry** (`Sampler`, `Domain`). Every random draw is a parameter
  `r ∈ [0,1)` that maps to `r·(max−min)+min`. The batches are the IC, 2 or 4 edge
  and collocation batches, with their fixed coordinates, zero targets, counts and
  the Gaussian pulse target.
- **Network structure** (`Network`).
  - Layer shapes chain `layers[i] → layers[i+1]`.
  - `PINN` starts every bias at zero. `PINN2D` keeps PyTorch's default initialisation,
    so its layers are arbitrary inputs to `Pinn2DForward`.
  - The activation follows every layer except the last.
  - `PINN2D` selects its activation by name.
  - Normalisation onto `[-1,1]`, per column in the order (x, y, t).
- **Checkpoint paths and loading** (`Paths`, `Persistence`).
  - The suffix goes before the extension, as `os.path.splitext` places it.
  - The best and periodic checkpoint paths never collide.
  - `load_model` returns the model or `None`.

Arithmetic is idealised over `real`. Loss values visible to the loop are
`Fin(real) | PosInf | NegInf | NaN`, with Python's `<` and `torch.isfinite`
semantics (`Floats`). Transcendental functions (`tanh`, `sin`, `exp`) are
function-valued parameters.

Behaviour of the source worth noting:

- An unknown model type is detected only inside `compute_loss`, where it raises.
  The model maps this to an `Err`, which stops the loop as `Raised(e)`.
- A non-finite total in the membrane loop is a `break`. The loop ends normally and
  the history is still returned, with the status `Diverged(e, total)`.
- The string loop has no finiteness check. It keeps appending rows with infinite
  or NaN totals.
- The string loop saves at epoch 0 only when epoch 0's total is neither NaN nor
  +inf: `best_loss` starts at +inf and the comparison is strict
  (`Training.FirstEpochSaves`).

## Model

| member | source | states |
|---|---|---|
| Training.Run2D | src_2/trainer.py:76-120 | the membrane loop never records more rows than epochs run; a loop still running has one row per epoch |
| Training.Run1D | src/trainer.py:67-96 | the string loop never records more rows than epochs run; a loop still running has one row per epoch |
| Training.Train2D | src_2/trainer.py:68-120 | the imperative loop with early exit at `break`/exception computes exactly the fold `Run2D` |
| Training.Train1D | src/trainer.py:60-96 | the imperative loop computes exactly the fold `Run1D` |
| Training.Run2DHistory | src_2/trainer.py:88-97 | every recorded row belongs to an epoch whose `compute_loss` returned a finite total, and is `[e, total, pde, ic, bc]` with `e` the loop index |
| Training.Run2DStatus | src_2/trainer.py:82-100 | a divergence stops at the first unrecorded epoch, whose total is non-finite; an exception stops at the epoch that raised it, or at epoch 0 after its row when a stride is zero |
| Training.Run2DStops | src_2/trainer.py:88-90 | once the loop has stopped at epoch k, no later epoch changes anything |
| Training.HealthyRun2D | src_2/trainer.py:76-97 | with nonzero strides and finite totals throughout, the loop runs every epoch and records one row each |
| Training.DivergesAtFirstNonFinite | src_2/trainer.py:88-90 | a non-finite total at epoch k, after k finite ones, stops the loop with exactly k rows and status `Diverged(k, total)` |
| Training.ZeroStrideRaisesAtFirstEpoch | src_2/trainer.py:97-110 | with `LOG_EVERY` or `CKPT_EVERY` zero, epoch 0 appends its row and then raises the modulo error before any checkpoint |
| Training.Run1DHistory | src/trainer.py:67-81 | every epoch that returns appends its row, finite or not; the loop runs all epochs iff no epoch raises, and it never diverges |
| Training.Run1DStops | src/trainer.py:74 | an exception at epoch k ends the string loop: later epochs change nothing |
| Training.FirstEpochSaves | src/trainer.py:94-96 | epoch 0 writes the best checkpoint iff its total is neither NaN nor +inf |
| Training.PeriodicPathsAreFresh | src_2/trainer.py:110-112 | a periodic path never equals the best-checkpoint path, and distinct epochs get distinct periodic paths |
| Training.AdmitKeepsBest | src_2/trainer.py:117-120 | admitting an epoch keeps `best_loss` the minimum of the recorded totals and keeps best checkpoints exactly at the strict new minima |
| Training.AdmitKeepsOrder | src_2/trainer.py:109-120 | admitting an epoch keeps the events in write order, with the periodic write before the best write of the same epoch |
| Training.AdmitKeepsPeriodic | src_2/trainer.py:109-115 | admitting an epoch keeps periodic events at exactly the epochs with `(e+1) % ckpt_every == 0`, under the `epoch{e+1}` path, `written` iff the write did not fail |
| Training.StepKeeps2D | src_2/trainer.py:82-120 | one loop pass preserves the best-checkpoint, periodic-checkpoint and ordering invariants |
| Training.Run2DEvents | src_2/trainer.py:109-120 | at the end of the membrane loop, the best checkpoint sits exactly at the strictly new minima and `best_loss` is the minimum total (or +inf). Periodic checkpoints sit exactly at the multiples of the cadence. Events are in write order |
| Training.Run1DEvents | src/trainer.py:93-96 | the string loop writes only best checkpoints to the canonical path, exactly at the strictly new minima, and `best_loss` is the minimum recorded total |
| Training.BestExample | src_2/trainer.py:117-120 | totals 5, 3, 4, 1 write the best checkpoint at epochs 0, 1 and 3 and end with `best_loss` 1 |
| Training.EqualLossNeverSaves | src/trainer.py:94-96 | for every run of the string loop, an epoch whose total repeats an earlier recorded total writes no best checkpoint |
| Training.EqualLossNeverSaves2D | src_2/trainer.py:117-120 | for every run of the membrane loop, an epoch whose total repeats an earlier recorded total writes no best checkpoint |
| Training.RepeatNotStrictlyBelow | src_2/trainer.py:117 | a total equal to an earlier one is not strictly below all earlier totals, NaN included |
| Training.EqualLossExample | src/trainer.py:94-96 | totals 2, 2 save at epoch 0 only |
| Training.DefaultCadence | src_2/trainer.py:74-110 | with `CKPT_EVERY` and `LOG_EVERY` absent, the strides are valid and periodic checkpoints sit exactly after every 500th recorded epoch |
| Training.WriteFailuresAreSwallowed | src_2/trainer.py:110-115 | which periodic writes fail changes only the `written` flags: history, `best_loss`, the stopping point and the other events are the same |
| Training.Run1DIsRun2DWithoutPeriodic | src/trainer.py:67-96 | on finite totals the string loop equals the membrane loop with its periodic checkpoints removed |
| Loss.MeanSquare | src_2/trainer.py:23 | the mean of squares is NaN on an empty batch, and otherwise finite, non-negative and zero iff every entry is zero |
| Loss.MeanSquaredError | src_2/trainer.py:28-29 | the mean squared error is zero iff prediction equals target; NaN on an empty batch |
| Loss.Compose | src_2/trainer.py:30-49 | the total is `W_PDE·pde + W_IC_U·ic_u + W_IC_V·ic_v + W_BC·bc`, while the reported IC value is the unweighted `ic_u + ic_v` |
| Loss.ReportedIcIsUnweighted | src_2/trainer.py:30-49 | the reported IC value is the same under any two weightings, and a total rebuilt from the report with IC weight 1 differs from the optimised total by exactly `(W_IC_U−1)·ic_u + (W_IC_V−1)·ic_v` |
| Loss.DefaultWeightsExample | src_2/trainer.py:44-49 | raw (2, 1, 0.5, 3) under weights (1, 1, 0.1, 1) gives total 6.05 and reported IC 1.5 |
| Loss.TotalZeroIff | src_2/trainer.py:44-47 | with positive weights and non-negative terms, the total is non-negative, and zero iff every term is zero |
| Loss.ComposeFloat | src_2/trainer.py:44-49 | the total is finite iff all four terms are finite, and then equals the real weighted sum |
| Loss.EdgeSum2 | src/trainer.py:37-38 | the string's boundary term is the sum of the left and right edge means |
| Loss.EdgeSum4 | src_2/trainer.py:38-41 | the membrane's boundary term is the sum of the left, right, bottom and top edge means |
| Loss.ComputeLoss1D | src/trainer.py:13-46 | the string's loss fails exactly on an unknown model type, with that error; the total is finite iff every batch is nonempty |
| Loss.ComputeLoss1DIsCompose | src/trainer.py:19-46 | on nonempty batches the string's loss is the weighted composition of its four mean squares |
| Loss.PdeTermZero1D | src/trainer.py:20-21 | the PDE term is zero iff every collocation point satisfies `u_tt = c²·u_xx` |
| Loss.RawTermsZero1D | src/trainer.py:20-38 | each of the four raw terms is non-negative and vanishes exactly when its targets are met, the boundary term when both edges are zero |
| Loss.ExactFitIffNoLoss1D | src/trainer.py:20-38 | an exact fit of the string's batch is exactly the case where all four raw terms vanish |
| Loss.ZeroLossIffExactFit1D | src/trainer.py:17-46 | with positive weights, the total is exactly zero iff the network satisfies the wave equation, both initial conditions and both boundary conditions at every sampled point |
| Loss.ComputeLoss2D | src_2/trainer.py:14-49 | the membrane's loss fails exactly on an unknown model type; the total is finite iff every batch is nonempty |
| Loss.ComputeLoss2DIsCompose | src_2/trainer.py:19-49 | on nonempty batches the membrane's loss is the weighted composition of its mean squares |
| Loss.PdeTermZero2D | src_2/trainer.py:22-23 | the PDE term is zero iff every collocation point satisfies `u_tt = c²·(u_xx + u_yy)` |
| Loss.BcTermZero2D | src_2/trainer.py:38-41 | the four-edge boundary term is finite and non-negative, and zero exactly when every edge prediction is zero |
| Loss.RawTermsZero2D | src_2/trainer.py:22-41 | each of the four raw terms is non-negative and vanishes exactly when its targets are met |
| Loss.ExactFitIffNoLoss2D | src_2/trainer.py:22-41 | an exact fit of the membrane's batch is exactly the case where all four raw terms vanish |
| Loss.ZeroLossIffExactFit2D | src_2/trainer.py:19-47 | with positive weights, the total is exactly zero iff the network satisfies the wave equation, both initial conditions and all four boundary conditions at every sampled point |
| Physics.Velocity1D | src/physics.py:4-16 | `"constante"` gives `C`; `"variavel"` gives `C_BASE + C_GRAD·x`; any other tag is an `UnknownModelType` error |
| Physics.Velocity2D | src_2/physics.py:4-13 | `"simulacao_2d"` gives `C_BASE + C_GRAD_X·x + C_GRAD_Y·y`; any other tag is an error |
| Physics.Velocity1DIsField | src/physics.py:4-16 | the string's dispatch agrees with the velocity variant (constant or linear in x) that the tag selects |
| Physics.Velocity2DIsField | src_2/physics.py:4-13 | the membrane's dispatch agrees with the linear-in-x-and-y variant |
| Physics.ConstantIgnoresPosition | src/physics.py:10-11 | the constant velocity is the same at every position |
| Physics.VariableSlope | src/physics.py:12-14 | the variable velocity changes by `C_GRAD` per unit of x |
| Physics.FlatMembraneIsVariableString | src_2/physics.py:9-11 | with `C_GRAD_Y = 0`, the membrane's velocity is the string's variable velocity with the same base and x gradient |
| Physics.Residual1D | src/physics.py:18-62 | the residual fails exactly on an unknown tag; otherwise it has one entry per point, zero iff `u_tt = c²·u_xx` with x in column 0 and t in column 1 |
| Physics.Residual2D | src_2/physics.py:15-60 | the residual fails exactly on an unknown tag; otherwise it has one entry per point, zero iff `u_tt = c²·(u_xx + u_yy)` with columns x=0, y=1, t=2 |
| Physics.ConstantIsFlatVariable | src/physics.py:10-60 | the constant model gives the same residuals as the variable model with zero gradient and base `C` |
| Physics.FlatMembraneResidual | src_2/physics.py:54-58 | a membrane with `C_GRAD_Y = 0` and `u_yy = 0` has the residuals of the string with the same x profile |
| Physics.IcDerivatives | src/physics.py:64-81 | returns the predictions unchanged, and the time component of each gradient row as the velocity |
| Physics.IcTimeColumn1D | src/physics.py:79 | column 1, which the string reads as the time derivative, is the time column the sampler fixes at `t_min` |
| Physics.IcTimeColumn2D | src_2/physics.py:77 | column 2, which the membrane reads as the time derivative, is the time column the sampler fixes at `t_min` |
| Sampler.Draw | src/data_loader.py:13 | a draw `r ∈ [0,1)` maps into `[min, max]`, strictly below `max` when `min < max` |
| Sampler.DrawRoundTrip | src_2/data_loader.py:15 | the draw is an invertible affine map of `r` |
| Sampler.PulseExponent1D | src/data_loader.py:19-21 | the exponent `−100·(x−center)²` is never positive and is zero exactly at the centre |
| Sampler.PulseExponent2D | src_2/data_loader.py:21-24 | the exponent `−50·d²` is never positive and is zero exactly at the centre of the x and y bounds |
| Sampler.PulsePeak1D | src/data_loader.py:19-21 | the string's pulse target is 1 at the centre |
| Sampler.PulsePeak2D | src_2/data_loader.py:21-24 | the membrane's pulse target is 1 at the centre |
| Sampler.Sample1D | src/data_loader.py:4-54 | batches of N_IC, N_BC and N_PDE rows of 2 columns (x, t); IC rows at `t_min` with velocity target 0 and pulse target; left edge `x_min`, right edge `x_max` with shared t; zero edge targets |
| Sampler.Sample1DWithinDomain | src/data_loader.py:13-49 | with draws in `[0,1)`, every sampled point lies within the bounds |
| Sampler.Sample2D | src_2/data_loader.py:5-66 | batches of N_IC, N_BC per edge and N_PDE rows of 3 columns (x, y, t); IC at `t_min` with velocity target 0; left/right at `x_min`/`x_max` sharing y and t; bottom/top at `y_min`/`y_max` sharing x and t; zero edge targets |
| Sampler.Sample2DWithinDomain | src_2/data_loader.py:15-62 | with draws in `[0,1)`, every sampled point lies within the bounds |
| Domain.Center | src/data_loader.py:19 | the centre is equidistant from both bounds, so it is the midpoint `(min+max)/2`, and lies strictly inside well-ordered bounds |
| Network.LayerShapes | src_2/model.py:28-30 | a widths list of length n gives n−1 layers, layer i mapping `layers[i]` to `layers[i+1]`, so the shapes chain |
| Network.FitsIsChained | src/model.py:17-19 | layers built from a widths list chain consistently from the input width |
| Network.Initialize | src/model.py:43-47 | the initialised layers have the built shapes, the given Xavier weights and all-zero biases |
| Network.Compose | src/model.py:33-37 | the forward pass outputs the last layer's width; no layers leave the input unchanged |
| Network.Forward | src_2/model.py:54-57 | the imperative layer loop, which skips the activation after the last layer, computes `Compose` |
| Network.StackForward | src/model.py:72-79 | the layer loop fails exactly on an empty layer list and otherwise outputs the last layer's width |
| Network.StackForwardIsCompose | src/model.py:72-79 | activating every hidden layer and leaving the final layer linear is the same as `PINN`'s forward |
| Network.Pinn2DForward | src/model.py:68-79 | `PINN2D.forward(x, y, t)` fails exactly when the layer list is empty or does not chain from 3 inputs, and otherwise outputs the last layer's width |
| Network.Pinn2DForwardIsCompose | src/model.py:68-79 | on layers taking 3 inputs, `PINN2D.forward(x, y, t)` is `PINN`'s forward pass on the row concatenated in the order `[x, y, t]` |
| Network.Pinn2DNamedActivation | src/model.py:60-79 | a `PINN2D` built with activation name "sin" computes its layers with sin, and with tanh for every other name |
| Network.SelectActivation | src/model.py:61-66 | `"sin"` selects sin; `"tanh"` and every other string select tanh |
| Network.Normalize | src_2/model.py:35-37 | `lo` maps to −1 and `hi` to 1, and `[lo, hi]` maps into `[−1, 1]` |
| Network.NormalizeRoundTrip | src_2/model.py:35-37 | normalisation is an invertible affine map |
| Network.NormalizeStrictlyIncreasing | src_2/model.py:35-37 | for `lo < hi`, normalisation is strictly increasing |
| Network.NormalizeRow | src_2/model.py:46-51 | each point of the box maps into `[−1,1]³`; the low corner maps to all −1 and the high corner to all 1 |
| Network.NormalizeRowKeepsOrder | src_2/model.py:46-51 | column 0 is normalised with the x bounds, column 1 with y and column 2 with t, in that order |
| Network.Forward2D | src_2/model.py:39-59 | the membrane network outputs the last layer's width |
| Network.Forward2DSeesNormalisedRow | src_2/model.py:46-59 | the output at a row equals the layers applied to any row that denormalises column by column (x, y, t with their own bounds) to it |
| Network.Forward2DAtLowCorner | src_2/model.py:46-59 | at the box corner `(x_lo, y_lo, t_lo)` the output is the layers applied to `[−1, −1, −1]` |
| Paths.SplitExt | src_2/utils.py:33 | `base + ext` is the path; `ext` is empty or a dot followed by neither dots nor separators; `ext` is non-empty exactly when the last dot lies after the last separator with a non-dot character between them, and then starts at that dot |
| Paths.SplitExtCharacterized | src_2/utils.py:33 | an extension is split off exactly when some dot has no dot or separator after it and a non-dot character before it in its component, and the split is at that dot |
| Paths.NatToString | src_2/trainer.py:112 | the decimal rendering is nonempty digits without leading zeros |
| Paths.ParseNatToString | src_2/trainer.py:112 | the decimal rendering reads back as the number |
| Paths.NatToStringInjective | src_2/trainer.py:112 | distinct epochs render to distinct strings |
| Paths.SavePath | src_2/utils.py:31-34 | no suffix, or an empty one, gives `MODEL_PATH` itself; a nonempty suffix gives a path one `_` plus the suffix longer, never `MODEL_PATH` |
| Paths.SavePathLayout | src_2/utils.py:32-34 | a suffixed path is `base + "_" + suffix + ext` |
| Paths.DistinctSuffixesDistinctPaths | src_2/utils.py:32-34 | distinct nonempty suffixes give distinct paths |
| Paths.SuffixKeepsExtension | src_2/utils.py:32-34 | a suffix without dots or separators keeps the extension of the saved path |
| Paths.ExampleEpoch500Path | src_2/utils.py:32-34 | `.../best_model.pth` with `epoch500` gives `.../best_model_epoch500.pth` |
| Persistence.SaveModel | src_2/utils.py:24-35 | saving stores the snapshot under the computed path and leaves every other path unchanged |
| Persistence.LoadModel | src_2/utils.py:38-57 | loading reports a missing file iff the path is absent, and loads exactly when the stored shapes fit the configured widths, giving the stored snapshot with its bounds |
| Persistence.LoadResult | src_2/utils.py:47-57 | the model is returned on success and `None` on a missing file or an architecture mismatch |
| Persistence.SaveThenLoad | src_2/utils.py:31-48 | saving a model of the configured architecture to the canonical path and loading it gives it back |
| Persistence.LoadMismatchIsNone | src_2/utils.py:55-57 | a stored model whose shapes do not fit gives `None` |
| Persistence.PeriodicSaveKeepsBest | src_2/utils.py:32-35 | a suffixed save leaves what loading the canonical path gives unchanged |
| Persistence.EpochCheckpointsDistinct | src_2/trainer.py:112 | periodic checkpoints of different epochs go to different files |

## Left out

- The optimiser and scheduler: the Adam and `ReduceLROnPlateau` construction and steps, and `zero_grad`/`backward`. They change network weights, which the loop's control flow never reads. Each epoch's outcome is an input.
- Automatic differentiation: the first and second derivatives are inputs, as a gradient row and a Hessian per point.
- Evaluation of `tanh`, `sin`, `exp` and the Xavier draws: the functions are parameters, and the weights are given.
- Floating-point rounding: arithmetic is exact over `real`. Only NaN and the infinities are kept, where the loop inspects them.
- `torch.rand`: each draw is a parameter. Nothing about its distribution is modelled.
- The data files: `torch.save`/`torch.load` are a map from path to snapshot. The pandas CSV, directory creation and `src/utils.py` (I/O only) are not modelled.
- Printing, the `tqdm` bar, and the `LOG_EVERY` and every-100-epochs progress displays. Only the modulo error of a zero `LOG_EVERY` is kept, because that changes control flow.
- `set_seed`, `setup_device`, the plotting modules, the entry scripts and `config/*.py`.
- Training.Run2D: a failure of the best-checkpoint write, which the source does not catch and which would end the run, is not modelled. Only periodic write failures are.
- Training.LoopConfig: a `CKPT_EVERY` or `LOG_EVERY` that is not an integer is not modelled. Strides are integers.
- Network.Normalize: requires `lo != hi`. With equal bounds the source divides by zero and produces inf or NaN.
- Network.NormalizeRow: requires nondegenerate bounds for the same reason.
- Network.Forward2D: requires `Nondegenerate(m.bounds)` for the same reason, and layers that chain from 3 inputs; a shape mismatch, where PyTorch raises, is not modelled.
- Paths.SplitExt: models POSIX `os.path.splitext` (`/` as the only separator). The Windows behaviour (`ntpath`, with the backslash separator and drive letters) is not modelled.
- Persistence.LoadModel: the only load failures modelled are a missing file and a shape mismatch. Other `RuntimeError` causes, such as a corrupt file, are not distinguished.

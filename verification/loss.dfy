/**
 * The loss composer (`compute_loss` in src/trainer.py and src_2/trainer.py).
 * Means are exact over `real`; what survives of floating point is that the mean of
 * an empty tensor is NaN and that NaN spreads through the weighted sum.
 */
module Loss {
  import opened Results
  import opened Reals
  import opened Floats
  import opened Sampler
  import opened Physics

  // ---------------------------------------------------------------- means

  function SumSq(v: seq<real>): real {
    if |v| == 0 then 0.0 else SumSq(v[..|v| - 1]) + Sq(v[|v| - 1])
  }

  predicate AllZero(v: seq<real>) {
    forall i :: 0 <= i < |v| ==> v[i] == 0.0
  }

  /** A sum of squares is never negative and vanishes only on the zero vector. */
  lemma {:induction false} SumSqSign(v: seq<real>)
    ensures SumSq(v) >= 0.0
    ensures SumSq(v) > 0.0 <==> !AllZero(v)
  {
    if |v| > 0 {
      var init := v[..|v| - 1];
      SumSqSign(init);
      SqSign(v[|v| - 1]);
      assert AllZero(v) <==> AllZero(init) && v[|v| - 1] == 0.0 by {
        if AllZero(init) && v[|v| - 1] == 0.0 {
          forall i | 0 <= i < |v|
            ensures v[i] == 0.0
          {
            if i < |v| - 1 {
              assert v[i] == init[i];
            }
          }
        }
      }
    }
  }

  lemma DivSign(s: real, n: real)
    requires n > 0.0
    ensures s >= 0.0 ==> s / n >= 0.0
    ensures s / n > 0.0 <==> s > 0.0
  {
  }

  /** `torch.mean(v**2)`: NaN for an empty tensor, otherwise a non-negative value. */
  function MeanSquare(v: seq<real>): (m: Float)
    ensures m.NaN? <==> |v| == 0
    ensures m.Fin? <==> |v| > 0
    ensures m.Fin? ==> m.value >= 0.0 && (m.value > 0.0 <==> !AllZero(v))
  {
    if |v| == 0 then NaN
    else
      SumSqSign(v);
      DivSign(SumSq(v), |v| as real);
      Fin(SumSq(v) / (|v| as real))
  }

  function Diff(a: seq<real>, b: seq<real>): (d: seq<real>)
    requires |a| == |b|
    ensures |d| == |a| && forall i :: 0 <= i < |a| ==> d[i] == a[i] - b[i]
  {
    seq(|a|, i requires 0 <= i < |a| => a[i] - b[i])
  }

  lemma DiffZero(a: seq<real>, b: seq<real>)
    requires |a| == |b|
    ensures AllZero(Diff(a, b)) <==> a == b
  {
    if AllZero(Diff(a, b)) {
      assert forall i :: 0 <= i < |a| ==> a[i] == b[i];
    }
  }

  /** `torch.mean((pred - target)**2)`: zero exactly when the prediction hits the target. */
  function MeanSquaredError(pred: seq<real>, target: seq<real>): (m: Float)
    requires |pred| == |target|
    ensures m.NaN? <==> |pred| == 0
    ensures m.Fin? <==> |pred| > 0
    ensures m.Fin? ==> m.value >= 0.0 && (m.value == 0.0 <==> pred == target)
  {
    DiffZero(pred, target);
    MeanSquare(Diff(pred, target))
  }

  // ---------------------------------------------------------------- composition

  /** `W_PDE`, `W_IC_U`, `W_IC_V`, `W_BC`. */
  datatype Weights = Weights(pde: real, icU: real, icV: real, bc: real)

  /** The weights of every configuration in the repository. */
  const DEFAULT_WEIGHTS: Weights := Weights(1.0, 1.0, 0.1, 1.0)

  predicate Positive(w: Weights) {
    w.pde > 0.0 && w.icU > 0.0 && w.icV > 0.0 && w.bc > 0.0
  }

  /** The four mean-square terms before weighting. */
  datatype RawLosses = RawLosses(pde: real, icU: real, icV: real, bc: real)

  /** The optimised total and the three numbers `compute_loss` hands back. */
  datatype Report = Report(total: real, pde: real, ic: real, bc: real)

  /**
   * The total weights the two IC terms separately; the reported IC value is their
   * unweighted sum, and PDE and BC are reported unweighted as well.
   */
  function Compose(raw: RawLosses, w: Weights): (rep: Report)
    ensures rep.pde == raw.pde && rep.bc == raw.bc
    ensures rep.ic == raw.icU + raw.icV
    ensures rep.total == Mul(w.pde, raw.pde) + Mul(w.icU, raw.icU) + Mul(w.icV, raw.icV) + Mul(w.bc, raw.bc)
  {
    var total := Mul(w.pde, raw.pde) + Mul(w.icU, raw.icU) + Mul(w.icV, raw.icV) + Mul(w.bc, raw.bc);
    Report(total, raw.pde, raw.icU + raw.icV, raw.bc)
  }

  /**
   * The reported IC value is the same under any two weightings, and rebuilding the
   * total from the reported numbers is off by exactly what the IC weights change: the
   * report cannot be used to recover the optimised total.
   */
  lemma ReportedIcIsUnweighted(raw: RawLosses, w: Weights, w2: Weights)
    ensures Compose(raw, w).ic == Compose(raw, w2).ic
    ensures var rep := Compose(raw, w);
      rep.total - (w.pde * rep.pde + rep.ic + w.bc * rep.bc)
        == (w.icU - 1.0) * raw.icU + (w.icV - 1.0) * raw.icV
  {
  }

  /** Raw (2, 1, 0.5, 3) under the default weights: total 6.05, reported IC 1.5. */
  lemma DefaultWeightsExample()
    ensures Compose(RawLosses(2.0, 1.0, 0.5, 3.0), DEFAULT_WEIGHTS) == Report(6.05, 2.0, 1.5, 3.0)
  {
  }

  predicate NoLoss(raw: RawLosses) {
    raw.pde == 0.0 && raw.icU == 0.0 && raw.icV == 0.0 && raw.bc == 0.0
  }

  /** With positive weights and non-negative terms, the total is zero exactly when every term is. */
  lemma TotalZeroIff(raw: RawLosses, w: Weights)
    requires Positive(w)
    requires raw.pde >= 0.0 && raw.icU >= 0.0 && raw.icV >= 0.0 && raw.bc >= 0.0
    ensures Compose(raw, w).total >= 0.0
    ensures Compose(raw, w).total == 0.0 <==> NoLoss(raw)
  {
    WeightedSign(w.pde, raw.pde);
    WeightedSign(w.icU, raw.icU);
    WeightedSign(w.icV, raw.icV);
    WeightedSign(w.bc, raw.bc);
  }

  lemma WeightedSign(w: real, x: real)
    requires w > 0.0 && x >= 0.0
    ensures Mul(w, x) >= 0.0
    ensures Mul(w, x) == 0.0 <==> x == 0.0
  {
    if x > 0.0 {
      MulPos(w, x);
    } else {
      MulNonneg(w, x);
    }
  }

  /** The values `compute_loss` produces, each possibly NaN. */
  datatype FloatReport = FloatReport(total: Float, pde: Float, ic: Float, bc: Float)

  function Lift(rep: Report): FloatReport {
    FloatReport(Fin(rep.total), Fin(rep.pde), Fin(rep.ic), Fin(rep.bc))
  }

  /** `compute_loss`'s final lines on float values, summed left to right as the source does. */
  function ComposeFloat(pde: Float, icU: Float, icV: Float, bc: Float, w: Weights): (rep: FloatReport)
    ensures rep.total.Fin? <==> pde.Fin? && icU.Fin? && icV.Fin? && bc.Fin?
    ensures rep.pde.Fin? <==> pde.Fin?
    ensures rep.ic.Fin? <==> icU.Fin? && icV.Fin?
    ensures rep.bc.Fin? <==> bc.Fin?
    ensures pde.Fin? && icU.Fin? && icV.Fin? && bc.Fin? ==>
      rep == Lift(Compose(RawLosses(pde.value, icU.value, icV.value, bc.value), w))
  {
    var total := Add(Add(Add(Scale(w.pde, pde), Scale(w.icU, icU)), Scale(w.icV, icV)), Scale(w.bc, bc));
    FloatReport(total, pde, Add(icU, icV), bc)
  }

  /** The BC term of src/trainer.py: left edge plus right edge. */
  function EdgeSum2(left: Float, right: Float): (s: Float)
    ensures s.Fin? <==> left.Fin? && right.Fin?
    ensures s.Fin? ==> s.value == left.value + right.value
  {
    Add(left, right)
  }

  /** The BC term of src_2/trainer.py: left, right, bottom and top, summed in that order. */
  function EdgeSum4(left: Float, right: Float, bottom: Float, top: Float): (s: Float)
    ensures s.Fin? <==> left.Fin? && right.Fin? && bottom.Fin? && top.Fin?
    ensures s.Fin? ==> s.value == left.value + right.value + bottom.value + top.value
  {
    Add(Add(Add(left, right), bottom), top)
  }

  // ---------------------------------------------------------------- the string

  /**
   * What the network and autograd return on one 1D batch: the Hessian at each
   * collocation point, u and the gradient at each IC point, u at each edge point.
   */
  datatype Outputs1D = Outputs1D(
    pdeHessians: seq<seq<Gradient>>, icU: seq<real>, icGrads: seq<Gradient>,
    left: seq<real>, right: seq<real>)

  /** One output per input row, with the widths autograd produces. */
  predicate Matches1D(b: Batch1D, o: Outputs1D) {
    && Shaped(b.pde, o.pdeHessians, 2)
    && |o.icU| == |b.icU| == |b.icV| == |o.icGrads|
    && (forall i :: 0 <= i < |o.icGrads| ==> |o.icGrads[i]| == 2)
    && |o.left| == |b.bcTarget| && |o.right| == |b.bcTarget|
  }

  function IcVelocity1D(o: Outputs1D): (v: seq<real>)
    requires |o.icGrads| == |o.icU| && forall i :: 0 <= i < |o.icGrads| ==> |o.icGrads[i]| == 2
    ensures |v| == |o.icU|
  {
    IcDerivatives(o.icU, o.icGrads, T_COL_1D).1
  }

  /** `compute_loss` of src/trainer.py: two boundary edges. */
  function ComputeLoss1D(cfg: PhysicsConfig, w: Weights, b: Batch1D, o: Outputs1D)
    : (r: Result<FloatReport, PhysicsError>)
    requires Matches1D(b, o)
    ensures r.Err? <==> !Known1D(cfg.modelType)
    ensures r.Err? ==> r.error == UnknownModelType(cfg.modelType)
    ensures r.Ok? ==> (r.value.total.Fin? <==> |b.pde| > 0 && |b.icU| > 0 && |b.bcTarget| > 0)
  {
    var res := Residual1D(cfg, b.pde, o.pdeHessians);
    if res.Err? then Err(res.error)
    else
      var bc := EdgeSum2(MeanSquaredError(o.left, b.bcTarget), MeanSquaredError(o.right, b.bcTarget));
      Ok(ComposeFloat(MeanSquare(res.value), MeanSquaredError(o.icU, b.icU),
                      MeanSquaredError(IcVelocity1D(o), b.icV), bc, w))
  }

  /** The four raw terms of a non-empty 1D batch under a known model type. */
  function Raw1D(cfg: PhysicsConfig, b: Batch1D, o: Outputs1D): RawLosses
    requires Matches1D(b, o) && Known1D(cfg.modelType)
    requires |b.pde| > 0 && |b.icU| > 0 && |b.bcTarget| > 0
  {
    var res := Residual1D(cfg, b.pde, o.pdeHessians).value;
    RawLosses(MeanSquare(res).value, MeanSquaredError(o.icU, b.icU).value,
              MeanSquaredError(IcVelocity1D(o), b.icV).value,
              MeanSquaredError(o.left, b.bcTarget).value + MeanSquaredError(o.right, b.bcTarget).value)
  }

  /** On non-empty batches the float report is the exact real composition of the raw terms. */
  lemma ComputeLoss1DIsCompose(cfg: PhysicsConfig, w: Weights, b: Batch1D, o: Outputs1D)
    requires Matches1D(b, o) && Known1D(cfg.modelType)
    requires |b.pde| > 0 && |b.icU| > 0 && |b.bcTarget| > 0
    ensures ComputeLoss1D(cfg, w, b, o) == Ok(Lift(Compose(Raw1D(cfg, b, o), w)))
  {
  }

  /** Every collocation point satisfies `u_tt = c**2 * u_xx`. */
  predicate WaveFit1D(cfg: PhysicsConfig, b: Batch1D, o: Outputs1D)
    requires Matches1D(b, o) && Known1D(cfg.modelType)
  {
    forall i :: 0 <= i < |b.pde| ==>
      o.pdeHessians[i][T_COL_1D][T_COL_1D]
        == Mul(Sq(Velocity1D(cfg, b.pde[i][X_COL]).value), o.pdeHessians[i][X_COL][X_COL])
  }

  lemma PdeTermZero1D(cfg: PhysicsConfig, b: Batch1D, o: Outputs1D)
    requires Matches1D(b, o) && Known1D(cfg.modelType) && |b.pde| > 0
    ensures MeanSquare(Residual1D(cfg, b.pde, o.pdeHessians).value).value >= 0.0
    ensures MeanSquare(Residual1D(cfg, b.pde, o.pdeHessians).value).value == 0.0 <==> WaveFit1D(cfg, b, o)
  {
  }

  /** The network satisfies the wave equation, both IC targets and both edge targets exactly. */
  predicate ExactFit1D(cfg: PhysicsConfig, b: Batch1D, o: Outputs1D)
    requires Matches1D(b, o) && Known1D(cfg.modelType)
  {
    && WaveFit1D(cfg, b, o)
    && o.icU == b.icU && IcVelocity1D(o) == b.icV
    && o.left == b.bcTarget && o.right == b.bcTarget
  }

  /** Each raw term of the string's loss is non-negative and vanishes exactly when its targets are met. */
  lemma RawTermsZero1D(cfg: PhysicsConfig, b: Batch1D, o: Outputs1D)
    requires Matches1D(b, o) && Known1D(cfg.modelType)
    requires |b.pde| > 0 && |b.icU| > 0 && |b.bcTarget| > 0
    ensures var raw := Raw1D(cfg, b, o);
      && raw.pde >= 0.0 && raw.icU >= 0.0 && raw.icV >= 0.0 && raw.bc >= 0.0
      && (raw.pde == 0.0 <==> WaveFit1D(cfg, b, o))
      && (raw.icU == 0.0 <==> o.icU == b.icU)
      && (raw.icV == 0.0 <==> IcVelocity1D(o) == b.icV)
      && (raw.bc == 0.0 <==> o.left == b.bcTarget && o.right == b.bcTarget)
  {
    PdeTermZero1D(cfg, b, o);
  }

  /** An exact fit is exactly the case where no raw term is left. */
  lemma ExactFitIffNoLoss1D(cfg: PhysicsConfig, b: Batch1D, o: Outputs1D)
    requires Matches1D(b, o) && Known1D(cfg.modelType)
    requires |b.pde| > 0 && |b.icU| > 0 && |b.bcTarget| > 0
    ensures var raw := Raw1D(cfg, b, o);
      && raw.pde >= 0.0 && raw.icU >= 0.0 && raw.icV >= 0.0 && raw.bc >= 0.0
      && (ExactFit1D(cfg, b, o) <==> NoLoss(raw))
  {
    RawTermsZero1D(cfg, b, o);
  }

  /** With non-empty batches and positive weights, the total is zero exactly on an exact fit. */
  lemma ZeroLossIffExactFit1D(cfg: PhysicsConfig, w: Weights, b: Batch1D, o: Outputs1D)
    requires Matches1D(b, o) && Known1D(cfg.modelType) && Positive(w)
    requires |b.pde| > 0 && |b.icU| > 0 && |b.bcTarget| > 0
    ensures ComputeLoss1D(cfg, w, b, o).Ok?
    ensures ComputeLoss1D(cfg, w, b, o).value.total == Fin(0.0) <==> ExactFit1D(cfg, b, o)
  {
    var raw := Raw1D(cfg, b, o);
    ComputeLoss1DIsCompose(cfg, w, b, o);
    assert ComputeLoss1D(cfg, w, b, o).value.total == Fin(Compose(raw, w).total);
    ExactFitIffNoLoss1D(cfg, b, o);
    TotalZeroIff(raw, w);
  }

  // ---------------------------------------------------------------- the membrane

  datatype Outputs2D = Outputs2D(
    pdeHessians: seq<seq<Gradient>>, icU: seq<real>, icGrads: seq<Gradient>,
    left: seq<real>, right: seq<real>, bottom: seq<real>, top: seq<real>)

  predicate Matches2D(b: Batch2D, o: Outputs2D) {
    && Shaped(b.pde, o.pdeHessians, 3)
    && |o.icU| == |b.icU| == |b.icV| == |o.icGrads|
    && (forall i :: 0 <= i < |o.icGrads| ==> |o.icGrads[i]| == 3)
    && |o.left| == |b.bcTarget| && |o.right| == |b.bcTarget|
    && |o.bottom| == |b.bcTarget| && |o.top| == |b.bcTarget|
  }

  function IcVelocity2D(o: Outputs2D): (v: seq<real>)
    requires |o.icGrads| == |o.icU| && forall i :: 0 <= i < |o.icGrads| ==> |o.icGrads[i]| == 3
    ensures |v| == |o.icU|
  {
    IcDerivatives(o.icU, o.icGrads, T_COL_2D).1
  }

  function BcTerm2D(b: Batch2D, o: Outputs2D): Float
    requires Matches2D(b, o)
  {
    EdgeSum4(MeanSquaredError(o.left, b.bcTarget), MeanSquaredError(o.right, b.bcTarget),
             MeanSquaredError(o.bottom, b.bcTarget), MeanSquaredError(o.top, b.bcTarget))
  }

  /** `compute_loss` of src_2/trainer.py: four boundary edges. */
  function ComputeLoss2D(cfg: PhysicsConfig, w: Weights, b: Batch2D, o: Outputs2D)
    : (r: Result<FloatReport, PhysicsError>)
    requires Matches2D(b, o)
    ensures r.Err? <==> !Known2D(cfg.modelType)
    ensures r.Err? ==> r.error == UnknownModelType(cfg.modelType)
    ensures r.Ok? ==> (r.value.total.Fin? <==> |b.pde| > 0 && |b.icU| > 0 && |b.bcTarget| > 0)
  {
    var res := Residual2D(cfg, b.pde, o.pdeHessians);
    if res.Err? then Err(res.error)
    else
      Ok(ComposeFloat(MeanSquare(res.value), MeanSquaredError(o.icU, b.icU),
                      MeanSquaredError(IcVelocity2D(o), b.icV), BcTerm2D(b, o), w))
  }

  function Raw2D(cfg: PhysicsConfig, b: Batch2D, o: Outputs2D): RawLosses
    requires Matches2D(b, o) && Known2D(cfg.modelType)
    requires |b.pde| > 0 && |b.icU| > 0 && |b.bcTarget| > 0
  {
    var res := Residual2D(cfg, b.pde, o.pdeHessians).value;
    RawLosses(MeanSquare(res).value, MeanSquaredError(o.icU, b.icU).value,
              MeanSquaredError(IcVelocity2D(o), b.icV).value, BcTerm2D(b, o).value)
  }

  lemma ComputeLoss2DIsCompose(cfg: PhysicsConfig, w: Weights, b: Batch2D, o: Outputs2D)
    requires Matches2D(b, o) && Known2D(cfg.modelType)
    requires |b.pde| > 0 && |b.icU| > 0 && |b.bcTarget| > 0
    ensures ComputeLoss2D(cfg, w, b, o) == Ok(Lift(Compose(Raw2D(cfg, b, o), w)))
  {
  }

  predicate WaveFit2D(cfg: PhysicsConfig, b: Batch2D, o: Outputs2D)
    requires Matches2D(b, o) && Known2D(cfg.modelType)
  {
    forall i :: 0 <= i < |b.pde| ==>
      var h := o.pdeHessians[i];
      var c := Velocity2D(cfg, b.pde[i][X_COL], b.pde[i][Y_COL]).value;
      h[T_COL_2D][T_COL_2D] == Mul(Sq(c), h[X_COL][X_COL] + h[Y_COL][Y_COL])
  }

  lemma PdeTermZero2D(cfg: PhysicsConfig, b: Batch2D, o: Outputs2D)
    requires Matches2D(b, o) && Known2D(cfg.modelType) && |b.pde| > 0
    ensures MeanSquare(Residual2D(cfg, b.pde, o.pdeHessians).value).value >= 0.0
    ensures MeanSquare(Residual2D(cfg, b.pde, o.pdeHessians).value).value == 0.0 <==> WaveFit2D(cfg, b, o)
  {
  }

  predicate ExactFit2D(cfg: PhysicsConfig, b: Batch2D, o: Outputs2D)
    requires Matches2D(b, o) && Known2D(cfg.modelType)
  {
    && WaveFit2D(cfg, b, o)
    && o.icU == b.icU && IcVelocity2D(o) == b.icV
    && o.left == b.bcTarget && o.right == b.bcTarget
    && o.bottom == b.bcTarget && o.top == b.bcTarget
  }

  /** The four-edge boundary term is non-negative and vanishes exactly when every edge hits its zero target. */
  lemma BcTermZero2D(b: Batch2D, o: Outputs2D)
    requires Matches2D(b, o) && |b.bcTarget| > 0
    ensures BcTerm2D(b, o).Fin? && BcTerm2D(b, o).value >= 0.0
    ensures BcTerm2D(b, o).value == 0.0 <==>
      o.left == b.bcTarget && o.right == b.bcTarget && o.bottom == b.bcTarget && o.top == b.bcTarget
  {
    var l := MeanSquaredError(o.left, b.bcTarget);
    var r := MeanSquaredError(o.right, b.bcTarget);
    var bo := MeanSquaredError(o.bottom, b.bcTarget);
    var t := MeanSquaredError(o.top, b.bcTarget);
    assert BcTerm2D(b, o).value == l.value + r.value + bo.value + t.value;
  }

  /** Each raw term of the membrane's loss is non-negative and vanishes exactly when its targets are met. */
  lemma RawTermsZero2D(cfg: PhysicsConfig, b: Batch2D, o: Outputs2D)
    requires Matches2D(b, o) && Known2D(cfg.modelType)
    requires |b.pde| > 0 && |b.icU| > 0 && |b.bcTarget| > 0
    ensures var raw := Raw2D(cfg, b, o);
      && raw.pde >= 0.0 && raw.icU >= 0.0 && raw.icV >= 0.0 && raw.bc >= 0.0
      && (raw.pde == 0.0 <==> WaveFit2D(cfg, b, o))
      && (raw.icU == 0.0 <==> o.icU == b.icU)
      && (raw.icV == 0.0 <==> IcVelocity2D(o) == b.icV)
      && (raw.bc == 0.0 <==>
            o.left == b.bcTarget && o.right == b.bcTarget && o.bottom == b.bcTarget && o.top == b.bcTarget)
  {
    PdeTermZero2D(cfg, b, o);
    BcTermZero2D(b, o);
  }

  /** An exact fit is exactly the case where no raw term is left. */
  lemma ExactFitIffNoLoss2D(cfg: PhysicsConfig, b: Batch2D, o: Outputs2D)
    requires Matches2D(b, o) && Known2D(cfg.modelType)
    requires |b.pde| > 0 && |b.icU| > 0 && |b.bcTarget| > 0
    ensures var raw := Raw2D(cfg, b, o);
      && raw.pde >= 0.0 && raw.icU >= 0.0 && raw.icV >= 0.0 && raw.bc >= 0.0
      && (ExactFit2D(cfg, b, o) <==> NoLoss(raw))
  {
    RawTermsZero2D(cfg, b, o);
  }

  /** With non-empty batches and positive weights, the total is zero exactly on an exact fit. */
  lemma ZeroLossIffExactFit2D(cfg: PhysicsConfig, w: Weights, b: Batch2D, o: Outputs2D)
    requires Matches2D(b, o) && Known2D(cfg.modelType) && Positive(w)
    requires |b.pde| > 0 && |b.icU| > 0 && |b.bcTarget| > 0
    ensures ComputeLoss2D(cfg, w, b, o).Ok?
    ensures ComputeLoss2D(cfg, w, b, o).value.total == Fin(0.0) <==> ExactFit2D(cfg, b, o)
  {
    var raw := Raw2D(cfg, b, o);
    ComputeLoss2DIsCompose(cfg, w, b, o);
    assert ComputeLoss2D(cfg, w, b, o).value.total == Fin(Compose(raw, w).total);
    ExactFitIffNoLoss2D(cfg, b, o);
    TotalZeroIff(raw, w);
  }
}

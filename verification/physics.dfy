/**
 * Velocity-field dispatch and residual assembly (src/physics.py for the string,
 * src_2/physics.py for the membrane). Automatic differentiation is not modelled:
 * for every collocation point the caller supplies the Hessian `h`, where `h[k]` is
 * the gradient of the k-th first derivative of u, which is what each nested
 * `autograd.grad` call yields row by row. The residual picks its second
 * derivatives out of that matrix by column index.
 */
module Physics {
  import opened Results
  import opened Reals
  import opened Domain
  import opened Sampler

  /** `MODEL_TYPE` and the velocity constants a configuration may carry. */
  datatype PhysicsConfig = PhysicsConfig(
    modelType: string, c: real, cBase: real, cGrad: real, cGradX: real, cGradY: real)

  /** The `ValueError` raised for a model type the dispatch does not know. */
  datatype PhysicsError = UnknownModelType(name: string)

  const CONSTANT_1D: string := "constante"
  const VARIABLE_1D: string := "variavel"
  const SIMULATION_2D: string := "simulacao_2d"

  /** Column layout of an input row: `[x, t]` for the string, `[x, y, t]` for the membrane. */
  const X_COL: nat := 0
  const T_COL_1D: nat := 1
  const Y_COL: nat := 1
  const T_COL_2D: nat := 2

  /** The three velocity fields the configurations describe, as an independent reference. */
  datatype VelocityField =
    | Constant(c: real)
    | LinearInX(base: real, grad: real)
    | LinearInXY(base: real, gradX: real, gradY: real)

  function Speed(f: VelocityField, x: real, y: real): real {
    match f
    case Constant(c) => c
    case LinearInX(base, grad) => base + grad * x
    case LinearInXY(base, gradX, gradY) => base + gradX * x + gradY * y
  }

  predicate Known1D(modelType: string) {
    modelType == CONSTANT_1D || modelType == VARIABLE_1D
  }

  predicate Known2D(modelType: string) {
    modelType == SIMULATION_2D
  }

  /** `get_velocity(x, config)` of the string. */
  function Velocity1D(cfg: PhysicsConfig, x: real): (r: Result<real, PhysicsError>)
    ensures r.Ok? <==> Known1D(cfg.modelType)
    ensures r.Err? ==> r.error == UnknownModelType(cfg.modelType)
    ensures cfg.modelType == CONSTANT_1D ==> r.value == cfg.c
    ensures cfg.modelType == VARIABLE_1D ==> r.value == cfg.cBase + cfg.cGrad * x
  {
    if cfg.modelType == CONSTANT_1D then Ok(cfg.c)
    else if cfg.modelType == VARIABLE_1D then Ok(cfg.cBase + cfg.cGrad * x)
    else Err(UnknownModelType(cfg.modelType))
  }

  /** `get_velocity(x, y, config)` of the membrane. */
  function Velocity2D(cfg: PhysicsConfig, x: real, y: real): (r: Result<real, PhysicsError>)
    ensures r.Ok? <==> Known2D(cfg.modelType)
    ensures r.Err? ==> r.error == UnknownModelType(cfg.modelType)
    ensures r.Ok? ==> r.value == cfg.cBase + cfg.cGradX * x + cfg.cGradY * y
  {
    if cfg.modelType == SIMULATION_2D then Ok(cfg.cBase + cfg.cGradX * x + cfg.cGradY * y)
    else Err(UnknownModelType(cfg.modelType))
  }

  /** The field a 1D configuration selects, if any. */
  function Field1D(cfg: PhysicsConfig): Option<VelocityField> {
    if cfg.modelType == CONSTANT_1D then Some(Constant(cfg.c))
    else if cfg.modelType == VARIABLE_1D then Some(LinearInX(cfg.cBase, cfg.cGrad))
    else None
  }

  function Field2D(cfg: PhysicsConfig): Option<VelocityField> {
    if cfg.modelType == SIMULATION_2D then Some(LinearInXY(cfg.cBase, cfg.cGradX, cfg.cGradY))
    else None
  }

  /** The dispatch agrees with the reference fields: an error exactly when no field is selected. */
  lemma Velocity1DIsField(cfg: PhysicsConfig, x: real)
    ensures Velocity1D(cfg, x).Err? <==> Field1D(cfg).None?
    ensures Field1D(cfg).Some? ==> Velocity1D(cfg, x).value == Speed(Field1D(cfg).value, x, 0.0)
  {
  }

  lemma Velocity2DIsField(cfg: PhysicsConfig, x: real, y: real)
    ensures Velocity2D(cfg, x, y).Err? <==> Field2D(cfg).None?
    ensures Field2D(cfg).Some? ==> Velocity2D(cfg, x, y).value == Speed(Field2D(cfg).value, x, y)
  {
  }

  /** "constante" yields the same speed wherever it is asked. */
  lemma ConstantIgnoresPosition(cfg: PhysicsConfig, x1: real, x2: real)
    requires cfg.modelType == CONSTANT_1D
    ensures Velocity1D(cfg, x1) == Velocity1D(cfg, x2)
  {
  }

  /** "variavel" changes by `C_GRAD` per unit of x. */
  lemma VariableSlope(cfg: PhysicsConfig, x1: real, x2: real)
    requires cfg.modelType == VARIABLE_1D
    ensures Velocity1D(cfg, x2).value - Velocity1D(cfg, x1).value == cfg.cGrad * (x2 - x1)
  {
  }

  /** With no y-gradient the membrane's field restricts to the string's "variavel" field. */
  lemma FlatMembraneIsVariableString(cfg2: PhysicsConfig, cfg1: PhysicsConfig, x: real, y: real)
    requires cfg2.modelType == SIMULATION_2D && cfg2.cGradY == 0.0
    requires cfg1.modelType == VARIABLE_1D && cfg1.cBase == cfg2.cBase && cfg1.cGrad == cfg2.cGradX
    ensures Velocity2D(cfg2, x, y).Ok? && Velocity1D(cfg1, x).Ok?
    ensures Velocity2D(cfg2, x, y).value == Velocity1D(cfg1, x).value
  {
  }

  // ---------------------------------------------------------------- residuals

  type Gradient = seq<real>

  /** `h` is an n-by-n matrix. */
  predicate IsSquare(h: seq<Gradient>, n: nat) {
    |h| == n && forall k :: 0 <= k < n ==> |h[k]| == n
  }

  /** Points of width n, each with its n-by-n Hessian. */
  predicate Shaped(points: seq<Row>, hessians: seq<seq<Gradient>>, n: nat) {
    |hessians| == |points| && forall i :: 0 <= i < |points| ==> |points[i]| == n && IsSquare(hessians[i], n)
  }

  /** `u_tt - c**2 * u_xx` at one point, with the derivatives taken from the Hessian. */
  function PointResidual1D(c: real, h: seq<Gradient>): real
    requires IsSquare(h, 2)
  {
    h[T_COL_1D][T_COL_1D] - Mul(Sq(c), h[X_COL][X_COL])
  }

  /** `u_tt - c**2 * (u_xx + u_yy)` at one point. */
  function PointResidual2D(c: real, h: seq<Gradient>): real
    requires IsSquare(h, 3)
  {
    h[T_COL_2D][T_COL_2D] - Mul(Sq(c), h[X_COL][X_COL] + h[Y_COL][Y_COL])
  }

  /** `compute_pde_residual` of the string: one value per point, or the dispatch error. */
  function Residual1D(cfg: PhysicsConfig, points: seq<Row>, hessians: seq<seq<Gradient>>)
    : (r: Result<seq<real>, PhysicsError>)
    requires Shaped(points, hessians, 2)
    ensures r.Err? <==> !Known1D(cfg.modelType)
    ensures r.Err? ==> r.error == UnknownModelType(cfg.modelType)
    ensures r.Ok? ==> |r.value| == |points|
    ensures r.Ok? ==> forall i :: 0 <= i < |points| ==>
      var c := Velocity1D(cfg, points[i][X_COL]).value;
      (r.value[i] == 0.0 <==> hessians[i][T_COL_1D][T_COL_1D] == Mul(Sq(c), hessians[i][X_COL][X_COL]))
  {
    if !Known1D(cfg.modelType) then Err(UnknownModelType(cfg.modelType))
    else Ok(seq(|points|, i requires 0 <= i < |points| =>
      PointResidual1D(Velocity1D(cfg, points[i][X_COL]).value, hessians[i])))
  }

  /** `compute_pde_residual` of the membrane. */
  function Residual2D(cfg: PhysicsConfig, points: seq<Row>, hessians: seq<seq<Gradient>>)
    : (r: Result<seq<real>, PhysicsError>)
    requires Shaped(points, hessians, 3)
    ensures r.Err? <==> !Known2D(cfg.modelType)
    ensures r.Err? ==> r.error == UnknownModelType(cfg.modelType)
    ensures r.Ok? ==> |r.value| == |points|
    ensures r.Ok? ==> forall i :: 0 <= i < |points| ==>
      var c := Velocity2D(cfg, points[i][X_COL], points[i][Y_COL]).value;
      var lap := hessians[i][X_COL][X_COL] + hessians[i][Y_COL][Y_COL];
      (r.value[i] == 0.0 <==> hessians[i][T_COL_2D][T_COL_2D] == Mul(Sq(c), lap))
  {
    if !Known2D(cfg.modelType) then Err(UnknownModelType(cfg.modelType))
    else Ok(seq(|points|, i requires 0 <= i < |points| =>
      PointResidual2D(Velocity2D(cfg, points[i][X_COL], points[i][Y_COL]).value, hessians[i])))
  }

  /**
   * A constant-speed string and a "variavel" string with zero gradient and the same
   * base produce the same residuals.
   */
  lemma ConstantIsFlatVariable(cfgC: PhysicsConfig, cfgV: PhysicsConfig, points: seq<Row>,
                               hessians: seq<seq<Gradient>>)
    requires Shaped(points, hessians, 2)
    requires cfgC.modelType == CONSTANT_1D
    requires cfgV.modelType == VARIABLE_1D && cfgV.cBase == cfgC.c && cfgV.cGrad == 0.0
    ensures Residual1D(cfgC, points, hessians) == Residual1D(cfgV, points, hessians)
  {
    var rC := Residual1D(cfgC, points, hessians).value;
    var rV := Residual1D(cfgV, points, hessians).value;
    forall i | 0 <= i < |points|
      ensures rC[i] == rV[i]
    {
      assert Velocity1D(cfgV, points[i][X_COL]).value == cfgC.c;
    }
    assert rC == rV;
  }

  /**
   * A membrane that does not curve along y (`u_yy = 0`) in a field with no y-gradient
   * has the residual of the string on the `(x, t)` projection.
   */
  lemma FlatMembraneResidual(cfg2: PhysicsConfig, cfg1: PhysicsConfig,
                             points2: seq<Row>, h2: seq<seq<Gradient>>,
                             points1: seq<Row>, h1: seq<seq<Gradient>>)
    requires Shaped(points2, h2, 3) && Shaped(points1, h1, 2) && |points1| == |points2|
    requires cfg2.modelType == SIMULATION_2D && cfg2.cGradY == 0.0
    requires cfg1.modelType == VARIABLE_1D && cfg1.cBase == cfg2.cBase && cfg1.cGrad == cfg2.cGradX
    requires forall i :: 0 <= i < |points1| ==>
      && points1[i][X_COL] == points2[i][X_COL]
      && h1[i][X_COL][X_COL] == h2[i][X_COL][X_COL]
      && h1[i][T_COL_1D][T_COL_1D] == h2[i][T_COL_2D][T_COL_2D]
      && h2[i][Y_COL][Y_COL] == 0.0
    ensures Residual2D(cfg2, points2, h2) == Residual1D(cfg1, points1, h1)
  {
    var r2 := Residual2D(cfg2, points2, h2).value;
    var r1 := Residual1D(cfg1, points1, h1).value;
    forall i | 0 <= i < |points1|
      ensures r2[i] == r1[i]
    {
      FlatMembraneIsVariableString(cfg2, cfg1, points2[i][X_COL], points2[i][Y_COL]);
    }
    assert r2 == r1;
  }

  // ---------------------------------------------------------------- initial condition

  /** `compute_ic_derivatives`: the network's values and the time column of their gradients. */
  function IcDerivatives(outputs: seq<real>, grads: seq<Gradient>, tCol: nat): (r: (seq<real>, seq<real>))
    requires |grads| == |outputs| && forall i :: 0 <= i < |grads| ==> tCol < |grads[i]|
    ensures r.0 == outputs && |r.1| == |outputs|
    ensures forall i :: 0 <= i < |grads| ==> r.1[i] == grads[i][tCol]
  {
    (outputs, seq(|grads|, i requires 0 <= i < |grads| => grads[i][tCol]))
  }

  /**
   * The string's IC velocity is read from the gradient column of t, which is exactly
   * the column the sampler pins to `t_min` on every IC point.
   */
  lemma IcTimeColumn1D(b: Box1D, c: Counts, d: Draws1D, exp: real -> real)
    requires Sized1D(d, c)
    ensures forall i :: 0 <= i < c.nIc ==> Sample1D(b, c, d, exp).ic[i][T_COL_1D] == b.t.lo
    ensures forall i :: 0 <= i < c.nIc ==> |Sample1D(b, c, d, exp).ic[i]| == T_COL_1D + 1
  {
  }

  lemma IcTimeColumn2D(b: Box2D, c: Counts, d: Draws2D, exp: real -> real)
    requires Sized2D(d, c)
    ensures forall i :: 0 <= i < c.nIc ==> Sample2D(b, c, d, exp).ic[i][T_COL_2D] == b.t.lo
    ensures forall i :: 0 <= i < c.nIc ==> |Sample2D(b, c, d, exp).ic[i]| == T_COL_2D + 1
  {
  }
}

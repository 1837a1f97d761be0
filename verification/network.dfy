/**
 * The fully connected network (src/model.py `PINN`, `PINN2D`; src_2/model.py `PINN`):
 * layer shapes built from the width list, `PINN`'s zero biases at initialisation (`PINN2D`
 * keeps PyTorch's default initialisation, so its layers are arbitrary inputs), the forward
 * pass with the activation after every layer but the last, and the 2D variant's input
 * normalisation onto [-1, 1]. Activations are function parameters (tanh and sin are
 * not evaluated); Xavier weights are supplied as a parameter.
 */
module Network {
  import opened Results
  import opened Domain

  type Vector = seq<real>

  /** `nn.Linear` computes `W x + b` with `W` of shape out x in. */
  datatype Layer = Layer(weights: seq<Vector>, bias: Vector)

  datatype Shape = Shape(inputs: nat, outputs: nat)

  predicate HasShape(l: Layer, s: Shape) {
    && |l.weights| == s.outputs
    && |l.bias| == s.outputs
    && forall j :: 0 <= j < |l.weights| ==> |l.weights[j]| == s.inputs
  }

  /** The layer list of `PINN(layers)`: `nn.Linear(layers[i], layers[i+1])` for each i. */
  function LayerShapes(widths: seq<nat>): (r: seq<Shape>)
    ensures |r| == if |widths| == 0 then 0 else |widths| - 1
    ensures forall i :: 0 <= i < |r| ==> r[i].inputs == widths[i] && r[i].outputs == widths[i + 1]
    ensures forall i :: 0 < i < |r| ==> r[i - 1].outputs == r[i].inputs
  {
    if |widths| < 2 then []
    else [Shape(widths[0], widths[1])] + LayerShapes(widths[1..])
  }

  /** The network's layers match the shapes one to one. */
  predicate Fits(net: seq<Layer>, shapes: seq<Shape>) {
    |net| == |shapes| && forall i :: 0 <= i < |net| ==> HasShape(net[i], shapes[i])
  }

  /** Consecutive layers agree on widths and the first takes `inWidth` inputs. */
  predicate Chained(net: seq<Layer>, inWidth: nat) {
    && (|net| > 0 ==> forall j :: 0 <= j < |net[0].weights| ==> |net[0].weights[j]| == inWidth)
    && (forall i :: 0 <= i < |net| ==> |net[i].bias| == |net[i].weights|)
    && (forall i, j :: 0 < i < |net| && 0 <= j < |net[i].weights| ==> |net[i].weights[j]| == |net[i - 1].weights|)
  }

  /** A network built for `widths` accepts vectors of width `widths[0]`. */
  lemma FitsIsChained(net: seq<Layer>, widths: seq<nat>)
    requires |widths| > 0 && Fits(net, LayerShapes(widths))
    ensures Chained(net, widths[0])
  {
    var shapes := LayerShapes(widths);
    forall i, j | 0 < i < |net| && 0 <= j < |net[i].weights|
      ensures |net[i].weights[j]| == |net[i - 1].weights|
    {
      assert HasShape(net[i], shapes[i]) && HasShape(net[i - 1], shapes[i - 1]);
    }
  }

  function Zeros(n: nat): (v: Vector)
    ensures |v| == n && forall j :: 0 <= j < n ==> v[j] == 0.0
  {
    seq(n, j => 0.0)
  }

  /**
   * `PINN.__init__` followed by `init_weights`: one layer per consecutive pair of
   * widths, weights from the Xavier draw, every bias zero.
   */
  function Initialize(widths: seq<nat>, xavier: seq<seq<Vector>>): (net: seq<Layer>)
    requires |xavier| == |LayerShapes(widths)|
    requires forall i :: 0 <= i < |xavier| ==> HasShape(Layer(xavier[i], Zeros(widths[i + 1])), LayerShapes(widths)[i])
    ensures Fits(net, LayerShapes(widths))
    ensures forall i :: 0 <= i < |net| ==> net[i].weights == xavier[i]
    ensures forall i, j :: 0 <= i < |net| && 0 <= j < |net[i].bias| ==> net[i].bias[j] == 0.0
  {
    var net := seq(|xavier|, i requires 0 <= i < |xavier| => Layer(xavier[i], Zeros(widths[i + 1])));
    assert forall i :: 0 <= i < |net| ==> net[i] == Layer(xavier[i], Zeros(widths[i + 1]));
    net
  }

  function Dot(w: Vector, x: Vector): real
    requires |w| == |x|
  {
    if |w| == 0 then 0.0 else Dot(w[..|w| - 1], x[..|x| - 1]) + w[|w| - 1] * x[|x| - 1]
  }

  /** `layer(x)` on one row. */
  function Affine(l: Layer, x: Vector): (y: Vector)
    requires |l.bias| == |l.weights|
    requires forall j :: 0 <= j < |l.weights| ==> |l.weights[j]| == |x|
    ensures |y| == |l.weights|
  {
    seq(|l.weights|, j requires 0 <= j < |l.weights| => Dot(l.weights[j], x) + l.bias[j])
  }

  /** The activation applied element-wise. */
  function Activate(act: real -> real, v: Vector): (r: Vector)
    ensures |r| == |v| && forall j :: 0 <= j < |v| ==> r[j] == act(v[j])
  {
    seq(|v|, j requires 0 <= j < |v| => act(v[j]))
  }

  lemma ChainedTail(net: seq<Layer>, x: Vector)
    requires |net| > 0 && Chained(net, |x|)
    ensures Chained(net[1..], |Affine(net[0], x)|)
  {
  }

  /**
   * The network as a composition: hidden layers are `act . layer`, the output layer
   * is a bare `layer`, and an empty layer list is the identity.
   */
  function Compose(net: seq<Layer>, x: Vector, act: real -> real): (y: Vector)
    requires Chained(net, |x|)
    ensures |net| > 0 ==> |y| == |net[|net| - 1].weights|
    ensures |net| == 0 ==> y == x
    decreases |net|
  {
    if |net| == 0 then x
    else if |net| == 1 then Affine(net[0], x)
    else
      ChainedTail(net, x);
      Compose(net[1..], Activate(act, Affine(net[0], x)), act)
  }

  /**
   * `PINN.forward` (both copies): for each layer apply it, then apply the activation
   * unless it is the last one.
   */
  method Forward(net: seq<Layer>, x: Vector, act: real -> real) returns (y: Vector)
    requires Chained(net, |x|)
    ensures y == Compose(net, x, act)
    ensures |net| > 0 ==> |y| == |net[|net| - 1].weights|
  {
    y := x;
    var i := 0;
    while i < |net|
      invariant 0 <= i <= |net|
      invariant Chained(net[i..], |y|)
      invariant Compose(net[i..], y, act) == Compose(net, x, act)
    {
      assert net[i..][0] == net[i];
      ChainedTail(net[i..], y);
      assert net[i..][1..] == net[i + 1..];
      y := Affine(net[i], y);
      if i < |net| - 1 {
        y := Activate(act, y);
      }
      i := i + 1;
    }
  }

  /** Hidden layers of `PINN2D.forward`: `act(layer(x))` for every layer given. */
  function HiddenStack(hidden: seq<Layer>, x: Vector, act: real -> real): (y: Vector)
    requires Chained(hidden, |x|)
    ensures |hidden| > 0 ==> |y| == |hidden[|hidden| - 1].weights|
    ensures |hidden| == 0 ==> y == x
    decreases |hidden|
  {
    if |hidden| == 0 then x
    else
      ChainedTail(hidden, x);
      HiddenStack(hidden[1..], Activate(act, Affine(hidden[0], x)), act)
  }

  /**
   * The layer loop of `PINN2D.forward` on an already concatenated input: the hidden
   * stack over `layers[:-1]`, then `layers[-1]` without activation; an empty layer list
   * raises IndexError.
   */
  function StackForward(net: seq<Layer>, v: Vector, act: real -> real): (r: Option<Vector>)
    requires Chained(net, |v|)
    ensures r.None? <==> |net| == 0
    ensures r.Some? ==> |r.value| == |net[|net| - 1].weights|
  {
    if |net| == 0 then None
    else
      var hidden := net[..|net| - 1];
      assert Chained(hidden, |v|);
      var h := HiddenStack(hidden, v, act);
      Some(Affine(net[|net| - 1], h))
  }

  /** The two formulations of the layer loop agree on every non-empty network. */
  lemma {:induction false} StackForwardIsCompose(net: seq<Layer>, v: Vector, act: real -> real)
    requires Chained(net, |v|) && |net| > 0
    ensures StackForward(net, v, act) == Some(Compose(net, v, act))
    decreases |net|
  {
    if |net| > 1 {
      ChainedTail(net, v);
      var v' := Activate(act, Affine(net[0], v));
      StackForwardIsCompose(net[1..], v', act);
      assert net[1..][..|net[1..]| - 1] == net[..|net| - 1][1..];
      assert net[1..][|net[1..]| - 1] == net[|net| - 1];
    }
  }

  /**
   * `PINN2D.forward(x, y, t)` on one point: the columns are concatenated as `[x, y, t]`
   * and fed through the layers. Layers that do not chain from 3 inputs (PyTorch raises
   * a shape error) and an empty layer list (IndexError) give `None`.
   */
  function Pinn2DForward(net: seq<Layer>, x: real, y: real, t: real, act: real -> real): (r: Option<Vector>)
    ensures r.None? <==> |net| == 0 || !Chained(net, 3)
    ensures r.Some? ==> |r.value| == |net[|net| - 1].weights|
  {
    if !Chained(net, 3) then None
    else StackForward(net, [x, y, t], act)
  }

  /**
   * On layers that take 3 inputs, `PINN2D.forward(x, y, t)` is `PINN`'s forward pass
   * applied to the row `[x, y, t]`, in that column order.
   */
  lemma Pinn2DForwardIsCompose(net: seq<Layer>, x: real, y: real, t: real, act: real -> real)
    requires Chained(net, 3) && |net| > 0
    ensures Pinn2DForward(net, x, y, t, act) == Some(Compose(net, [x, y, t], act))
  {
    StackForwardIsCompose(net, [x, y, t], act);
  }

  /** The activation choice of `PINN2D`. */
  datatype Activation = Tanh | Sin

  /** "tanh" and every unrecognised name select tanh; only "sin" selects sin. */
  function SelectActivation(name: string): (a: Activation)
    ensures a == Sin <==> name == "sin"
    ensures name == "tanh" ==> a == Tanh
  {
    if name == "tanh" then Tanh
    else if name == "sin" then Sin
    else Tanh
  }

  /** `torch.tanh` or `torch.sin`, both given as parameters. */
  function ActivationFn(a: Activation, tanh: real -> real, sin: real -> real): real -> real {
    match a
    case Tanh => tanh
    case Sin => sin
  }

  /**
   * A `PINN2D` built with activation name `name` computes the layers with sin exactly
   * when the name is "sin", and with tanh for "tanh" and every other name.
   */
  lemma Pinn2DNamedActivation(net: seq<Layer>, x: real, y: real, t: real, name: string,
                              tanh: real -> real, sin: real -> real)
    requires Chained(net, 3) && |net| > 0
    ensures name == "sin" ==>
      Pinn2DForward(net, x, y, t, ActivationFn(SelectActivation(name), tanh, sin)) == Some(Compose(net, [x, y, t], sin))
    ensures name != "sin" ==>
      Pinn2DForward(net, x, y, t, ActivationFn(SelectActivation(name), tanh, sin)) == Some(Compose(net, [x, y, t], tanh))
  {
    Pinn2DForwardIsCompose(net, x, y, t, ActivationFn(SelectActivation(name), tanh, sin));
  }

  /** `PINN.normalize`: the affine map sending `lo` to -1 and `hi` to 1. */
  function Normalize(v: real, lo: real, hi: real): (r: real)
    requires lo != hi
    ensures v == lo ==> r == -1.0
    ensures v == hi ==> r == 1.0
    ensures lo < hi && lo <= v <= hi ==> -1.0 <= r <= 1.0
  {
    UnitRatio(v - lo, hi - lo);
    2.0 * (v - lo) / (hi - lo) - 1.0
  }

  lemma UnitRatio(a: real, d: real)
    requires d != 0.0
    ensures 2.0 * a / d == 2.0 * (a / d)
    ensures a == 0.0 ==> 2.0 * a / d == 0.0
    ensures a == d ==> 2.0 * a / d == 2.0
    ensures 0.0 <= a <= d ==> 0.0 <= a / d <= 1.0
  {
    if a == d {
      Cancel(1.0, d);
      assert 1.0 * d == d;
    }
  }

  /** The inverse of `Normalize`. */
  function Denormalize(n: real, lo: real, hi: real): real {
    lo + (n + 1.0) * (hi - lo) / 2.0
  }

  lemma NormalizeRoundTrip(v: real, n: real, lo: real, hi: real)
    requires lo != hi
    ensures Denormalize(Normalize(v, lo, hi), lo, hi) == v
    ensures Normalize(Denormalize(n, lo, hi), lo, hi) == n
  {
    var d := hi - lo;
    calc {
      Denormalize(Normalize(v, lo, hi), lo, hi);
      lo + (2.0 * (v - lo) / d) * d / 2.0;
      { assert (2.0 * (v - lo) / d) * d == 2.0 * (v - lo); }
      v;
    }
    var m := (n + 1.0) * d / 2.0;
    assert Denormalize(n, lo, hi) - lo == m;
    assert 2.0 * m == (n + 1.0) * d;
    Cancel(n + 1.0, d);
  }

  lemma Cancel(x: real, d: real)
    requires d != 0.0
    ensures x * d / d == x
  {
  }

  /** On a well-ordered interval `Normalize` is strictly increasing. */
  lemma NormalizeStrictlyIncreasing(v: real, w: real, lo: real, hi: real)
    requires lo < hi && v < w
    ensures Normalize(v, lo, hi) < Normalize(w, lo, hi)
  {
    var d := hi - lo;
    assert 2.0 * (w - lo) / d - 2.0 * (v - lo) / d == 2.0 * (w - v) / d;
  }

  /** The src_2 PINN: its layers and the bound buffers registered at construction. */
  datatype Pinn2D = Pinn2D(layers: seq<Layer>, bounds: Box2D)

  predicate Nondegenerate(b: Box2D) {
    b.x.lo != b.x.hi && b.y.lo != b.y.hi && b.t.lo != b.t.hi
  }

  /** The first step of src_2 `PINN.forward`: column 0 with the x bounds, 1 with y, 2 with t. */
  function NormalizeRow(p: Vector, b: Box2D): (r: Vector)
    requires |p| == 3 && Nondegenerate(b)
    ensures |r| == 3
    ensures WellOrdered2D(b) && InBox2D(b, p) ==> forall k :: 0 <= k < 3 ==> -1.0 <= r[k] <= 1.0
    ensures p[0] == b.x.lo && p[1] == b.y.lo && p[2] == b.t.lo ==> r == [-1.0, -1.0, -1.0]
    ensures p[0] == b.x.hi && p[1] == b.y.hi && p[2] == b.t.hi ==> r == [1.0, 1.0, 1.0]
  {
    [Normalize(p[0], b.x.lo, b.x.hi), Normalize(p[1], b.y.lo, b.y.hi), Normalize(p[2], b.t.lo, b.t.hi)]
  }

  /** Each normalised coordinate maps back to the original one, in the same column. */
  lemma NormalizeRowKeepsOrder(p: Vector, b: Box2D)
    requires |p| == 3 && Nondegenerate(b)
    ensures var r := NormalizeRow(p, b);
      && Denormalize(r[0], b.x.lo, b.x.hi) == p[0]
      && Denormalize(r[1], b.y.lo, b.y.hi) == p[1]
      && Denormalize(r[2], b.t.lo, b.t.hi) == p[2]
  {
    NormalizeRoundTrip(p[0], 0.0, b.x.lo, b.x.hi);
    NormalizeRoundTrip(p[1], 0.0, b.y.lo, b.y.hi);
    NormalizeRoundTrip(p[2], 0.0, b.t.lo, b.t.hi);
  }

  /** src_2 `PINN.forward` on one row `[x, y, t]`. */
  function Forward2D(m: Pinn2D, p: Vector, act: real -> real): (u: Vector)
    requires |p| == 3 && Nondegenerate(m.bounds) && Chained(m.layers, 3)
    ensures |m.layers| > 0 ==> |u| == |m.layers[|m.layers| - 1].weights|
  {
    Compose(m.layers, NormalizeRow(p, m.bounds), act)
  }

  /**
   * The layers see the row in normalised coordinates: if `r` denormalises column by
   * column (x, y, t, each with its own bounds) to `p`, the output at `p` is the layers
   * applied to `r`.
   */
  lemma Forward2DSeesNormalisedRow(m: Pinn2D, p: Vector, r: Vector, act: real -> real)
    requires |p| == 3 && Nondegenerate(m.bounds) && Chained(m.layers, 3) && |r| == 3
    requires Denormalize(r[0], m.bounds.x.lo, m.bounds.x.hi) == p[0]
    requires Denormalize(r[1], m.bounds.y.lo, m.bounds.y.hi) == p[1]
    requires Denormalize(r[2], m.bounds.t.lo, m.bounds.t.hi) == p[2]
    ensures Forward2D(m, p, act) == Compose(m.layers, r, act)
  {
    var b := m.bounds;
    NormalizeRoundTrip(p[0], r[0], b.x.lo, b.x.hi);
    NormalizeRoundTrip(p[1], r[1], b.y.lo, b.y.hi);
    NormalizeRoundTrip(p[2], r[2], b.t.lo, b.t.hi);
    assert NormalizeRow(p, b) == r;
  }

  /** At the low corner of the box the layers see `[-1, -1, -1]`. */
  lemma Forward2DAtLowCorner(m: Pinn2D, act: real -> real)
    requires Nondegenerate(m.bounds) && Chained(m.layers, 3)
    ensures Forward2D(m, [m.bounds.x.lo, m.bounds.y.lo, m.bounds.t.lo], act)
         == Compose(m.layers, [-1.0, -1.0, -1.0], act)
  {
    var b := m.bounds;
    var r := [-1.0, -1.0, -1.0];
    Forward2DSeesNormalisedRow(m, [b.x.lo, b.y.lo, b.t.lo], r, act);
  }
}

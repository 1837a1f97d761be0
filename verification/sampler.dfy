/**
 * The domain sampler (`get_training_data` in src/data_loader.py and src_2/data_loader.py).
 * Every `torch.rand` draw is a parameter `r` in [0, 1); a coordinate is `r*(max-min)+min`.
 * The Gaussian pulse's `exp` is a function parameter. Rows are `[x, t]` in 1D and
 * `[x, y, t]` in 2D.
 */
module Sampler {
  import opened Domain
  import opened Reals

  type Row = seq<real>

  predicate UnitDraw(r: real) {
    0.0 <= r < 1.0
  }

  predicate UnitDraws(rs: seq<real>) {
    forall i :: 0 <= i < |rs| ==> UnitDraw(rs[i])
  }

  /** `torch.rand(...) * (max - min) + min` for one draw. */
  function Draw(r: real, iv: Interval): (v: real)
    ensures UnitDraw(r) && iv.lo <= iv.hi ==> Contains(iv, v)
    ensures UnitDraw(r) && WellOrdered(iv) ==> v < iv.hi
  {
    var d := iv.hi - iv.lo;
    DrawBound(r, d);
    Mul(r, d) + iv.lo
  }

  /** A unit draw scales a non-negative width into `[0, d]`, short of `d` when `d > 0`. */
  lemma DrawBound(r: real, d: real)
    ensures UnitDraw(r) && 0.0 <= d ==> 0.0 <= Mul(r, d) <= d
    ensures UnitDraw(r) && 0.0 < d ==> Mul(r, d) < d
  {
    if UnitDraw(r) && 0.0 <= d {
      MulNonneg(r, d);
      MulNonneg(1.0 - r, d);
      MulSubLeft(1.0, r, d);
      if 0.0 < d {
        MulPos(1.0 - r, d);
      }
    }
  }

  /** Recovers the draw from a coordinate: the sampling map is a bijection onto [min, max). */
  function Undraw(v: real, iv: Interval): real
    requires iv.lo != iv.hi
  {
    (v - iv.lo) / (iv.hi - iv.lo)
  }

  lemma DrawRoundTrip(r: real, iv: Interval)
    requires iv.lo != iv.hi
    ensures Undraw(Draw(r, iv), iv) == r
  {
    var d := iv.hi - iv.lo;
    assert Draw(r, iv) - iv.lo == r * d;
  }

  /** `a = 100.0` in src/data_loader.py, `a = 50.0` in src_2/data_loader.py. */
  const PULSE_WIDTH_1D: real := 100.0
  const PULSE_WIDTH_2D: real := 50.0

  /** The exponent `-a * (x - center)^2` of the 1D pulse: never positive, zero only at the centre. */
  function PulseExponent1D(x: real, b: Box1D): (e: real)
    ensures e <= 0.0
    ensures e == 0.0 <==> x == Center(b.x)
  {
    SqSign(x - Center(b.x));
    -PULSE_WIDTH_1D * Sq(x - Center(b.x))
  }

  /** The exponent `-a * ((x - cx)^2 + (y - cy)^2)` of the 2D pulse. */
  function PulseExponent2D(x: real, y: real, b: Box2D): (e: real)
    ensures e <= 0.0
    ensures e == 0.0 <==> x == Center(b.x) && y == Center(b.y)
  {
    SqSign(x - Center(b.x));
    SqSign(y - Center(b.y));
    -PULSE_WIDTH_2D * (Sq(x - Center(b.x)) + Sq(y - Center(b.y)))
  }

  /** One coordinate column: a draw per row, mapped onto `iv`. */
  function Column(rs: seq<real>, iv: Interval): (col: seq<real>)
    ensures |col| == |rs| && forall i :: 0 <= i < |rs| ==> col[i] == Draw(rs[i], iv)
  {
    seq(|rs|, i requires 0 <= i < |rs| => Draw(rs[i], iv))
  }

  /** `torch.full_like(..., v)` / `torch.zeros_like(...)`. */
  function Filled(n: nat, v: real): (col: seq<real>)
    ensures |col| == n && forall i :: 0 <= i < n ==> col[i] == v
  {
    seq(n, i => v)
  }

  /** `torch.cat((a, b), dim=1)` of two columns. */
  function Rows2(a: seq<real>, b: seq<real>): (rows: seq<Row>)
    requires |a| == |b|
    ensures |rows| == |a| && forall i :: 0 <= i < |a| ==> rows[i] == [a[i], b[i]]
  {
    seq(|a|, i requires 0 <= i < |a| => [a[i], b[i]])
  }

  /** `torch.cat((a, b, c), dim=1)` of three columns. */
  function Rows3(a: seq<real>, b: seq<real>, c: seq<real>): (rows: seq<Row>)
    requires |a| == |b| == |c|
    ensures |rows| == |a| && forall i :: 0 <= i < |a| ==> rows[i] == [a[i], b[i], c[i]]
  {
    seq(|a|, i requires 0 <= i < |a| => [a[i], b[i], c[i]])
  }

  /** N_IC, N_BC (per edge) and N_PDE. */
  datatype Counts = Counts(nIc: nat, nBc: nat, nPde: nat)

  // ---------------------------------------------------------------- 1D

  /** The `torch.rand` draws of one call in 1D, in the order the code makes them. */
  datatype Draws1D = Draws1D(icX: seq<real>, bcT: seq<real>, pdeX: seq<real>, pdeT: seq<real>)

  predicate Sized1D(d: Draws1D, c: Counts) {
    |d.icX| == c.nIc && |d.bcT| == c.nBc && |d.pdeX| == c.nPde && |d.pdeT| == c.nPde
  }

  predicate AllUnit1D(d: Draws1D) {
    UnitDraws(d.icX) && UnitDraws(d.bcT) && UnitDraws(d.pdeX) && UnitDraws(d.pdeT)
  }

  /** What `get_training_data` returns in 1D; both edges share one target tensor. */
  datatype Batch1D = Batch1D(
    pde: seq<Row>, ic: seq<Row>, icU: seq<real>, icV: seq<real>,
    left: seq<Row>, right: seq<Row>, bcTarget: seq<real>)

  function Sample1D(b: Box1D, c: Counts, d: Draws1D, exp: real -> real): (r: Batch1D)
    requires Sized1D(d, c)
    ensures |r.ic| == |r.icU| == |r.icV| == c.nIc
    ensures |r.left| == |r.right| == |r.bcTarget| == c.nBc
    ensures |r.pde| == c.nPde
    ensures forall i :: 0 <= i < |r.ic| ==> |r.ic[i]| == 2 && r.ic[i][1] == b.t.lo && r.icV[i] == 0.0
    ensures forall i :: 0 <= i < |r.ic| ==> r.icU[i] == exp(PulseExponent1D(r.ic[i][0], b))
    ensures forall i :: 0 <= i < |r.left| ==> |r.left[i]| == 2 && |r.right[i]| == 2
    ensures forall i :: 0 <= i < |r.left| ==> r.left[i][0] == b.x.lo && r.right[i][0] == b.x.hi
    ensures forall i :: 0 <= i < |r.left| ==> r.left[i][1] == r.right[i][1]
    ensures forall i :: 0 <= i < |r.bcTarget| ==> r.bcTarget[i] == 0.0
    ensures forall i :: 0 <= i < |r.pde| ==> |r.pde[i]| == 2
  {
    var xIc := Column(d.icX, b.x);
    var ic := Rows2(xIc, Filled(c.nIc, b.t.lo));
    var icU := seq(c.nIc, i requires 0 <= i < c.nIc => exp(PulseExponent1D(xIc[i], b)));
    var tBc := Column(d.bcT, b.t);
    var left := Rows2(Filled(c.nBc, b.x.lo), tBc);
    var right := Rows2(Filled(c.nBc, b.x.hi), tBc);
    var pde := Rows2(Column(d.pdeX, b.x), Column(d.pdeT, b.t));
    Batch1D(pde, ic, icU, Filled(c.nIc, 0.0), left, right, Filled(c.nBc, 0.0))
  }

  /** With draws in [0, 1) and ordered bounds, every sampled row lies in the domain. */
  lemma Sample1DWithinDomain(b: Box1D, c: Counts, d: Draws1D, exp: real -> real)
    requires Sized1D(d, c) && AllUnit1D(d) && WellOrdered1D(b)
    ensures var r := Sample1D(b, c, d, exp);
      && (forall i :: 0 <= i < |r.ic| ==> InBox1D(b, r.ic[i]))
      && (forall i :: 0 <= i < |r.left| ==> InBox1D(b, r.left[i]) && InBox1D(b, r.right[i]))
      && (forall i :: 0 <= i < |r.pde| ==> InBox1D(b, r.pde[i]))
  {
  }

  /** The pulse target is exactly 1 at the centre of the string, given `exp(0) == 1`. */
  lemma PulsePeak1D(b: Box1D, exp: real -> real)
    requires exp(0.0) == 1.0
    ensures exp(PulseExponent1D(Center(b.x), b)) == 1.0
  {
  }

  // ---------------------------------------------------------------- 2D

  /** The `torch.rand` draws of one call in 2D, in the order the code makes them. */
  datatype Draws2D = Draws2D(
    icX: seq<real>, icY: seq<real>,
    bcT: seq<real>, bcY: seq<real>, bcX: seq<real>,
    pdeX: seq<real>, pdeY: seq<real>, pdeT: seq<real>)

  predicate Sized2D(d: Draws2D, c: Counts) {
    && |d.icX| == c.nIc && |d.icY| == c.nIc
    && |d.bcT| == c.nBc && |d.bcY| == c.nBc && |d.bcX| == c.nBc
    && |d.pdeX| == c.nPde && |d.pdeY| == c.nPde && |d.pdeT| == c.nPde
  }

  predicate AllUnit2D(d: Draws2D) {
    && UnitDraws(d.icX) && UnitDraws(d.icY)
    && UnitDraws(d.bcT) && UnitDraws(d.bcY) && UnitDraws(d.bcX)
    && UnitDraws(d.pdeX) && UnitDraws(d.pdeY) && UnitDraws(d.pdeT)
  }

  /** What `get_training_data` returns in 2D; all four edges share one target tensor. */
  datatype Batch2D = Batch2D(
    pde: seq<Row>, ic: seq<Row>, icU: seq<real>, icV: seq<real>,
    left: seq<Row>, right: seq<Row>, bottom: seq<Row>, top: seq<Row>, bcTarget: seq<real>)

  function Sample2D(b: Box2D, c: Counts, d: Draws2D, exp: real -> real): (r: Batch2D)
    requires Sized2D(d, c)
    ensures |r.ic| == |r.icU| == |r.icV| == c.nIc
    ensures |r.left| == |r.right| == |r.bottom| == |r.top| == |r.bcTarget| == c.nBc
    ensures |r.pde| == c.nPde
    ensures forall i :: 0 <= i < |r.ic| ==> |r.ic[i]| == 3 && r.ic[i][2] == b.t.lo && r.icV[i] == 0.0
    ensures forall i :: 0 <= i < |r.ic| ==> r.icU[i] == exp(PulseExponent2D(r.ic[i][0], r.ic[i][1], b))
    ensures forall i :: 0 <= i < |r.left| ==>
      |r.left[i]| == 3 && |r.right[i]| == 3 && |r.bottom[i]| == 3 && |r.top[i]| == 3
    ensures forall i :: 0 <= i < |r.left| ==> r.left[i][0] == b.x.lo && r.right[i][0] == b.x.hi
    ensures forall i :: 0 <= i < |r.left| ==> r.left[i][1..] == r.right[i][1..]
    ensures forall i :: 0 <= i < |r.bottom| ==> r.bottom[i][1] == b.y.lo && r.top[i][1] == b.y.hi
    ensures forall i :: 0 <= i < |r.bottom| ==> r.bottom[i][0] == r.top[i][0] && r.bottom[i][2] == r.top[i][2]
    ensures forall i :: 0 <= i < |r.left| ==> r.left[i][2] == r.bottom[i][2]
    ensures forall i :: 0 <= i < |r.bcTarget| ==> r.bcTarget[i] == 0.0
    ensures forall i :: 0 <= i < |r.pde| ==> |r.pde[i]| == 3
  {
    var xIc := Column(d.icX, b.x);
    var yIc := Column(d.icY, b.y);
    var ic := Rows3(xIc, yIc, Filled(c.nIc, b.t.lo));
    var icU := seq(c.nIc, i requires 0 <= i < c.nIc => exp(PulseExponent2D(xIc[i], yIc[i], b)));
    var tBc := Column(d.bcT, b.t);
    var yBcSides := Column(d.bcY, b.y);
    var left := Rows3(Filled(c.nBc, b.x.lo), yBcSides, tBc);
    var right := Rows3(Filled(c.nBc, b.x.hi), yBcSides, tBc);
    var xBcTopBot := Column(d.bcX, b.x);
    var bottom := Rows3(xBcTopBot, Filled(c.nBc, b.y.lo), tBc);
    var top := Rows3(xBcTopBot, Filled(c.nBc, b.y.hi), tBc);
    var pde := Rows3(Column(d.pdeX, b.x), Column(d.pdeY, b.y), Column(d.pdeT, b.t));
    assert forall i :: 0 <= i < c.nBc ==> left[i][1..] == right[i][1..];
    Batch2D(pde, ic, icU, Filled(c.nIc, 0.0), left, right, bottom, top, Filled(c.nBc, 0.0))
  }

  /** With draws in [0, 1) and ordered bounds, every sampled row lies in the domain. */
  lemma Sample2DWithinDomain(b: Box2D, c: Counts, d: Draws2D, exp: real -> real)
    requires Sized2D(d, c) && AllUnit2D(d) && WellOrdered2D(b)
    ensures var r := Sample2D(b, c, d, exp);
      && (forall i :: 0 <= i < |r.ic| ==> InBox2D(b, r.ic[i]))
      && (forall i :: 0 <= i < |r.left| ==>
            InBox2D(b, r.left[i]) && InBox2D(b, r.right[i]) && InBox2D(b, r.bottom[i]) && InBox2D(b, r.top[i]))
      && (forall i :: 0 <= i < |r.pde| ==> InBox2D(b, r.pde[i]))
  {
  }

  /** The pulse target is exactly 1 at the centre of the membrane, given `exp(0) == 1`. */
  lemma PulsePeak2D(b: Box2D, exp: real -> real)
    requires exp(0.0) == 1.0
    ensures exp(PulseExponent2D(Center(b.x), Center(b.y), b)) == 1.0
  {
  }
}

/** The space-time rectangle the wave equation is posed on (X_BOUNDS, Y_BOUNDS, T_BOUNDS). */
module Domain {

  /** A closed interval `[lo, hi]`, the Python pair `[min, max]`. */
  datatype Interval = Interval(lo: real, hi: real)

  predicate WellOrdered(iv: Interval) {
    iv.lo < iv.hi
  }

  predicate Contains(iv: Interval, v: real) {
    iv.lo <= v <= iv.hi
  }

  /** `(min + max) / 2`, the centre of the initial pulse. */
  function Center(iv: Interval): (c: real)
    ensures c - iv.lo == iv.hi - c
    ensures WellOrdered(iv) ==> iv.lo < c < iv.hi
  {
    (iv.hi + iv.lo) / 2.0
  }

  datatype Box1D = Box1D(x: Interval, t: Interval)

  datatype Box2D = Box2D(x: Interval, y: Interval, t: Interval)

  predicate WellOrdered1D(b: Box1D) {
    WellOrdered(b.x) && WellOrdered(b.t)
  }

  predicate WellOrdered2D(b: Box2D) {
    WellOrdered(b.x) && WellOrdered(b.y) && WellOrdered(b.t)
  }

  /** A row `[x, t]` lies in the 1D domain. */
  predicate InBox1D(b: Box1D, p: seq<real>) {
    |p| == 2 && Contains(b.x, p[0]) && Contains(b.t, p[1])
  }

  /** A row `[x, y, t]` lies in the 2D domain. */
  predicate InBox2D(b: Box2D, p: seq<real>) {
    |p| == 3 && Contains(b.x, p[0]) && Contains(b.y, p[1]) && Contains(b.t, p[2])
  }
}

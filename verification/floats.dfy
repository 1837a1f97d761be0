/**
 * The scalar loss values that the training loop inspects. Arithmetic is idealised
 * over `real`; what survives of IEEE 754 is the three non-finite values and the way
 * Python's `<` and `torch.isfinite` treat them.
 */
module Floats {

  datatype Float = Fin(value: real) | PosInf | NegInf | NaN

  /** `torch.isfinite` */
  predicate IsFinite(f: Float) {
    f.Fin?
  }

  /** Python's `a < b` on floats: every comparison with NaN is false. */
  predicate Less(a: Float, b: Float) {
    match (a, b)
    case (NaN, _) => false
    case (_, NaN) => false
    case (Fin(x), Fin(y)) => x < y
    case (NegInf, _) => !b.NegInf?
    case (_, PosInf) => !a.PosInf?
    case _ => false
  }

  /** IEEE 754 addition on the four kinds of value: NaN absorbs, opposite infinities give NaN. */
  function Add(a: Float, b: Float): (r: Float)
    ensures r.Fin? <==> a.Fin? && b.Fin?
    ensures a.NaN? || b.NaN? ==> r.NaN?
  {
    match (a, b)
    case (NaN, _) => NaN
    case (_, NaN) => NaN
    case (PosInf, NegInf) => NaN
    case (NegInf, PosInf) => NaN
    case (PosInf, _) => PosInf
    case (_, PosInf) => PosInf
    case (NegInf, _) => NegInf
    case (_, NegInf) => NegInf
    case (Fin(x), Fin(y)) => Fin(x + y)
  }

  /** A real weight times a value: an infinity times zero is NaN, as in IEEE 754. */
  function Scale(w: real, a: Float): (r: Float)
    ensures r.Fin? <==> a.Fin?
    ensures a.NaN? ==> r.NaN?
  {
    match a
    case NaN => NaN
    case Fin(x) => Fin(w * x)
    case PosInf => if w > 0.0 then PosInf else if w < 0.0 then NegInf else NaN
    case NegInf => if w > 0.0 then NegInf else if w < 0.0 then PosInf else NaN
  }

  /** `<` is a strict order: irreflexive and transitive. */
  lemma LessIsStrictOrder(a: Float, b: Float, c: Float)
    ensures !Less(a, a)
    ensures Less(a, b) && Less(b, c) ==> Less(a, c)
  {
  }

  /** Between two non-NaN values, `<` is total. */
  lemma LessIsTotal(a: Float, b: Float)
    requires !a.NaN? && !b.NaN?
    ensures Less(a, b) || a == b || Less(b, a)
  {
  }

  /**
   * `best` is the running minimum of `seen`: it is +inf or one of the values seen,
   * it is never NaN, and no value seen is strictly below it.
   */
  ghost predicate IsMinimum(best: Float, seen: seq<Float>) {
    && !best.NaN?
    && (best == PosInf || best in seen)
    && forall i :: 0 <= i < |seen| ==> !Less(seen[i], best)
  }

  /** `t` is strictly below +inf and strictly below every non-NaN value in `prior`. */
  ghost predicate StrictlyBelowAll(t: Float, prior: seq<Float>) {
    && Less(t, PosInf)
    && forall j :: 0 <= j < |prior| && !prior[j].NaN? ==> Less(t, prior[j])
  }

  /** Comparing against the running minimum is the same as comparing against every earlier value. */
  lemma BelowMinimumIff(t: Float, best: Float, prior: seq<Float>)
    requires IsMinimum(best, prior)
    ensures Less(t, best) <==> StrictlyBelowAll(t, prior)
  {
    if Less(t, best) {
      forall j | 0 <= j < |prior| && !prior[j].NaN?
        ensures Less(t, prior[j])
      {
        LessIsTotal(prior[j], best);
        LessIsStrictOrder(t, best, prior[j]);
      }
      assert Less(t, PosInf) by {
        if best != PosInf {
          LessIsStrictOrder(t, best, PosInf);
        }
      }
    }
    if StrictlyBelowAll(t, prior) && best != PosInf {
      var j :| 0 <= j < |prior| && prior[j] == best;
    }
  }

  /** The running minimum after seeing one more value `t`. */
  lemma MinimumStep(best: Float, seen: seq<Float>, t: Float)
    requires IsMinimum(best, seen)
    ensures IsMinimum(if Less(t, best) then t else best, seen + [t])
  {
    var seen' := seen + [t];
    if Less(t, best) {
      forall i | 0 <= i < |seen'|
        ensures !Less(seen'[i], t)
      {
        if i < |seen| {
          LessIsStrictOrder(seen'[i], t, best);
        } else {
          LessIsStrictOrder(t, t, t);
        }
      }
    } else {
      assert forall i :: 0 <= i < |seen| ==> seen'[i] == seen[i];
      if best != PosInf {
        var j :| 0 <= j < |seen| && seen[j] == best;
        assert seen'[j] == best;
      }
    }
  }
}

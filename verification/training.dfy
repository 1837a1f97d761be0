/**
 * The training-loop controllers (`run_training` in src_2/trainer.py for the membrane and
 * src/trainer.py for the string). Sampling, the optimiser and the scheduler are
 * abstracted away: a run is a fold over what `compute_loss` returned at each epoch, in
 * epoch order. The fold decides the history rows, the checkpoint events and why the
 * loop stopped.
 */
module Training {
  import opened Results
  import opened Floats
  import opened Paths
  import opened Physics
  import opened Loss
  import opened Persistence

  /** What `compute_loss` gave at one epoch: the report, or the exception it raised. */
  type EpochResult = Result<FloatReport, PhysicsError>

  /** One history row `[epoch, total, pde, ic, bc]`. */
  datatype Row = Row(epoch: nat, total: Float, pde: Float, ic: Float, bc: Float)

  function RowOf(e: nat, l: FloatReport): Row {
    Row(e, l.total, l.pde, l.ic, l.bc)
  }

  /**
   * A checkpoint write: a periodic one under an epoch-suffixed path, whose failure is
   * caught (`written` is false), or the best model under MODEL_PATH.
   */
  datatype Event =
    | PeriodicCheckpoint(epoch: nat, path: string, written: bool)
    | BestCheckpoint(epoch: nat, path: string)

  /** Still looping, stopped by the divergence check, or ended by an exception. */
  datatype Status = Running | Diverged(epoch: nat, loss: Float) | Raised(epoch: nat)

  datatype State = State(history: seq<Row>, best: Float, events: seq<Event>, status: Status)

  /** `history = []`, `best_loss = float('inf')`. */
  const INITIAL: State := State([], PosInf, [], Running)

  /** `getattr(config, 'CKPT_EVERY', 500)` and `getattr(config, 'LOG_EVERY', 50)`. */
  const DEFAULT_CKPT_EVERY: int := 500
  const DEFAULT_LOG_EVERY: int := 50

  /**
   * The membrane loop's settings. `failingWrites` holds the epochs whose periodic
   * `save_model` raises (a full disk, a permission error).
   */
  datatype LoopConfig = LoopConfig(modelPath: string, ckptEvery: int, logEvery: int, failingWrites: set<nat>)

  function DefaultLoop(modelPath: string, failingWrites: set<nat>): LoopConfig {
    LoopConfig(modelPath, DEFAULT_CKPT_EVERY, DEFAULT_LOG_EVERY, failingWrites)
  }

  /** Both `%` right-hand sides are non-zero; otherwise `%` raises ZeroDivisionError. */
  predicate StridesValid(cfg: LoopConfig) {
    cfg.ckptEvery != 0 && cfg.logEvery != 0
  }

  /** `f"epoch{epoch+1}"` */
  function PeriodicSuffix(e: nat): string {
    "epoch" + NatToString(e + 1)
  }

  function PeriodicPath(modelPath: string, e: nat): string {
    SavePath(modelPath, Some(PeriodicSuffix(e)))
  }

  /** A periodic checkpoint never lands on MODEL_PATH, and two epochs never share a file. */
  lemma PeriodicPathsAreFresh(modelPath: string, e1: nat, e2: nat)
    ensures PeriodicPath(modelPath, e1) != modelPath
    ensures e1 != e2 ==> PeriodicPath(modelPath, e1) != PeriodicPath(modelPath, e2)
  {
    if e1 != e2 {
      EpochCheckpointsDistinct(modelPath, e1 + 1, e2 + 1);
    }
  }

  /**
   * The common tail of both loop bodies: append the row, then any periodic events,
   * then overwrite the best checkpoint when the total is strictly below `best_loss`.
   */
  function Admit(st: State, e: nat, l: FloatReport, periodic: seq<Event>, modelPath: string): State {
    var history := st.history + [RowOf(e, l)];
    if Less(l.total, st.best) then
      State(history, l.total, st.events + periodic + [BestCheckpoint(e, modelPath)], st.status)
    else
      State(history, st.best, st.events + periodic, st.status)
  }

  /** One pass of the membrane's loop body at epoch `e`. */
  function Step2D(cfg: LoopConfig, st: State, e: nat, r: EpochResult): State {
    match r
    case Err(_) => st.(status := Raised(e))
    case Ok(l) =>
      if !IsFinite(l.total) then st.(status := Diverged(e, l.total))
      else if !StridesValid(cfg) then st.(history := st.history + [RowOf(e, l)], status := Raised(e))
      else Admit(st, e, l, PeriodicEvents(cfg, e), cfg.modelPath)
  }

  /** The periodic write of epoch `e`, if `(e+1) % ckpt_every == 0`; a failing write is caught. */
  function PeriodicEvents(cfg: LoopConfig, e: nat): seq<Event>
    requires StridesValid(cfg)
  {
    if (e + 1) % cfg.ckptEvery == 0
    then [PeriodicCheckpoint(e, PeriodicPath(cfg.modelPath, e), e !in cfg.failingWrites)]
    else []
  }

  /** The membrane's loop over `range(EPOCHS)`, one entry of `losses` per epoch; stops at a `break` or an exception. */
  function Run2D(cfg: LoopConfig, losses: seq<EpochResult>): (st: State)
    ensures |st.history| <= |losses|
    ensures st.status.Running? ==> |st.history| == |losses|
  {
    if |losses| == 0 then INITIAL
    else
      var prev := Run2D(cfg, losses[..|losses| - 1]);
      if !prev.status.Running? then prev
      else Step2D(cfg, prev, |losses| - 1, losses[|losses| - 1])
  }

  /** One pass of the string's loop body: no finiteness check and no periodic checkpoint. */
  function Step1D(modelPath: string, st: State, e: nat, r: EpochResult): State {
    match r
    case Err(_) => st.(status := Raised(e))
    case Ok(l) => Admit(st, e, l, [], modelPath)
  }

  function Run1D(modelPath: string, losses: seq<EpochResult>): (st: State)
    ensures |st.history| <= |losses|
    ensures st.status.Running? ==> |st.history| == |losses|
  {
    if |losses| == 0 then INITIAL
    else
      var prev := Run1D(modelPath, losses[..|losses| - 1]);
      if !prev.status.Running? then prev
      else Step1D(modelPath, prev, |losses| - 1, losses[|losses| - 1])
  }

  // ---------------------------------------------------------------- history and stopping

  /** Every epoch whose row is in the history succeeded with a finite total, and the row is that epoch's. */
  lemma {:induction false} Run2DHistory(cfg: LoopConfig, losses: seq<EpochResult>)
    ensures var h := Run2D(cfg, losses).history;
      forall i :: 0 <= i < |h| ==>
        losses[i].Ok? && IsFinite(losses[i].value.total) && h[i] == RowOf(i, losses[i].value)
  {
    if |losses| > 0 {
      var init := losses[..|losses| - 1];
      Run2DHistory(cfg, init);
      var h := Run2D(cfg, losses).history;
      forall i | 0 <= i < |h|
        ensures losses[i].Ok? && IsFinite(losses[i].value.total) && h[i] == RowOf(i, losses[i].value)
      {
        if i < |Run2D(cfg, init).history| {
          assert losses[i] == init[i];
        }
      }
    }
  }

  /** Why the membrane's loop stopped, and where. */
  lemma {:induction false} Run2DStatus(cfg: LoopConfig, losses: seq<EpochResult>)
    ensures var st := Run2D(cfg, losses);
      && (st.status.Running? ==> |losses| == 0 || StridesValid(cfg))
      && (st.status.Diverged? ==>
            && st.status.epoch == |st.history| < |losses|
            && losses[st.status.epoch].Ok?
            && st.status.loss == losses[st.status.epoch].value.total
            && !IsFinite(st.status.loss))
      && (st.status.Raised? ==>
            && st.status.epoch < |losses|
            && ((losses[st.status.epoch].Err? && st.status.epoch == |st.history|)
                || (!StridesValid(cfg) && st.status.epoch == 0 && |st.history| == 1)))
  {
    if |losses| > 0 {
      var init := losses[..|losses| - 1];
      Run2DStatus(cfg, init);
      var prev := Run2D(cfg, init);
      if prev.status.Running? && !StridesValid(cfg) {
        assert |init| == 0;
      }
    }
  }

  /** Once stopped, the loop runs no later epoch: the state is that of the stopping prefix. */
  lemma {:induction false} Run2DStops(cfg: LoopConfig, losses: seq<EpochResult>, k: nat)
    requires k < |losses| && !Run2D(cfg, losses[..k + 1]).status.Running?
    ensures Run2D(cfg, losses) == Run2D(cfg, losses[..k + 1])
  {
    if |losses| > k + 1 {
      var init := losses[..|losses| - 1];
      assert init[..k + 1] == losses[..k + 1];
      Run2DStops(cfg, init, k);
    } else {
      assert losses[..k + 1] == losses;
    }
  }

  /** Epochs that return a finite total, under valid strides, keep the loop running. */
  predicate Healthy(losses: seq<EpochResult>) {
    forall i :: 0 <= i < |losses| ==> losses[i].Ok? && IsFinite(losses[i].value.total)
  }

  lemma {:induction false} HealthyRun2D(cfg: LoopConfig, losses: seq<EpochResult>)
    requires StridesValid(cfg) && Healthy(losses)
    ensures Run2D(cfg, losses).status == Running
    ensures |Run2D(cfg, losses).history| == |losses|
  {
    if |losses| > 0 {
      var init := losses[..|losses| - 1];
      assert Healthy(init) by {
        forall i | 0 <= i < |init|
          ensures init[i].Ok? && IsFinite(init[i].value.total)
        {
          assert init[i] == losses[i];
        }
      }
      HealthyRun2D(cfg, init);
    }
  }

  /**
   * A non-finite total at epoch k after k healthy epochs breaks the loop there: k rows,
   * and nothing of epoch k or later is recorded.
   */
  lemma DivergesAtFirstNonFinite(cfg: LoopConfig, losses: seq<EpochResult>, k: nat)
    requires StridesValid(cfg) && k < |losses| && Healthy(losses[..k])
    requires losses[k].Ok? && !IsFinite(losses[k].value.total)
    ensures Run2D(cfg, losses).status == Diverged(k, losses[k].value.total)
    ensures Run2D(cfg, losses).history == Run2D(cfg, losses[..k]).history
    ensures |Run2D(cfg, losses).history| == k
  {
    HealthyRun2D(cfg, losses[..k]);
    assert losses[..k + 1][..k] == losses[..k];
    Run2DStops(cfg, losses, k);
  }

  /** A zero stride raises at the first epoch, right after its row is appended. */
  lemma ZeroStrideRaisesAtFirstEpoch(cfg: LoopConfig, losses: seq<EpochResult>)
    requires !StridesValid(cfg) && |losses| > 0
    requires losses[0].Ok? && IsFinite(losses[0].value.total)
    ensures Run2D(cfg, losses).status == Raised(0)
    ensures Run2D(cfg, losses).history == [RowOf(0, losses[0].value)]
    ensures Run2D(cfg, losses).events == []
  {
    assert losses[..1][..0] == [];
    Run2DStops(cfg, losses, 0);
  }

  /** The string's loop records a row for every epoch that returns, finite or not. */
  lemma {:induction false} Run1DHistory(modelPath: string, losses: seq<EpochResult>)
    ensures var st := Run1D(modelPath, losses);
      && (forall i :: 0 <= i < |st.history| ==> losses[i].Ok? && st.history[i] == RowOf(i, losses[i].value))
      && (st.status.Running? <==> forall i :: 0 <= i < |losses| ==> losses[i].Ok?)
      && (st.status.Raised? ==>
            st.status.epoch == |st.history| < |losses| && losses[st.status.epoch].Err?)
      && !st.status.Diverged?
  {
    if |losses| > 0 {
      var init := losses[..|losses| - 1];
      Run1DHistory(modelPath, init);
      var st := Run1D(modelPath, losses);
      forall i | 0 <= i < |st.history|
        ensures losses[i].Ok? && st.history[i] == RowOf(i, losses[i].value)
      {
        if i < |Run1D(modelPath, init).history| {
          assert losses[i] == init[i];
        }
      }
      assert (forall i :: 0 <= i < |losses| ==> losses[i].Ok?) <==>
        (forall i :: 0 <= i < |init| ==> init[i].Ok?) && losses[|losses| - 1].Ok?;
    }
  }

  // ---------------------------------------------------------------- checkpoint events

  function Totals(h: seq<Row>): (t: seq<Float>)
    ensures |t| == |h| && forall i :: 0 <= i < |h| ==> t[i] == h[i].total
  {
    seq(|h|, i requires 0 <= i < |h| => h[i].total)
  }

  /** The epochs of the best-checkpoint events (`best`) or of the periodic ones. */
  function EpochsOfKind(events: seq<Event>, best: bool): set<nat> {
    set i | 0 <= i < |events| && events[i].BestCheckpoint? == best :: events[i].epoch
  }

  function BestEpochs(events: seq<Event>): set<nat> {
    EpochsOfKind(events, true)
  }

  function PeriodicEpochs(events: seq<Event>): set<nat> {
    EpochsOfKind(events, false)
  }

  lemma EpochsOfKindAppend(a: seq<Event>, b: seq<Event>, best: bool)
    ensures EpochsOfKind(a + b, best) == EpochsOfKind(a, best) + EpochsOfKind(b, best)
  {
    var ab := a + b;
    forall x | x in EpochsOfKind(ab, best)
      ensures x in EpochsOfKind(a, best) + EpochsOfKind(b, best)
    {
      var i :| 0 <= i < |ab| && ab[i].BestCheckpoint? == best && ab[i].epoch == x;
      if i < |a| {
        assert a[i] == ab[i];
      } else {
        assert b[i - |a|] == ab[i];
      }
    }
    forall x | x in EpochsOfKind(a, best) + EpochsOfKind(b, best)
      ensures x in EpochsOfKind(ab, best)
    {
      if x in EpochsOfKind(a, best) {
        var i :| 0 <= i < |a| && a[i].BestCheckpoint? == best && a[i].epoch == x;
        assert ab[i] == a[i];
      } else {
        var j :| 0 <= j < |b| && b[j].BestCheckpoint? == best && b[j].epoch == x;
        assert ab[|a| + j] == b[j];
      }
    }
  }

  /** Every event belongs to an epoch below `n`. */
  predicate EpochsBelow(events: seq<Event>, n: nat) {
    forall i :: 0 <= i < |events| ==> events[i].epoch < n
  }

  lemma EpochsOfKindBelow(events: seq<Event>, n: nat, best: bool)
    requires EpochsBelow(events, n)
    ensures forall x :: x in EpochsOfKind(events, best) ==> x < n
  {
  }

  /**
   * The best checkpoint was written at exactly the epochs whose total was strictly
   * below every earlier one, and `best_loss` is the minimum of the recorded totals.
   */
  ghost predicate BestKept(st: State) {
    && IsMinimum(st.best, Totals(st.history))
    && forall e: nat :: e in BestEpochs(st.events) <==>
         e < |st.history| && StrictlyBelowAll(st.history[e].total, Totals(st.history)[..e])
  }

  /** The periodic events of epoch `e` that `Step2D` emits. */
  predicate PeriodicOf(events: seq<Event>, e: nat) {
    forall i :: 0 <= i < |events| ==> events[i].PeriodicCheckpoint? && events[i].epoch == e
  }

  lemma AdmitKeepsBest(st: State, e: nat, l: FloatReport, periodic: seq<Event>, modelPath: string)
    requires e == |st.history| && BestKept(st) && EpochsBelow(st.events, e) && PeriodicOf(periodic, e)
    ensures BestKept(Admit(st, e, l, periodic, modelPath))
    ensures EpochsBelow(Admit(st, e, l, periodic, modelPath).events, e + 1)
  {
    var st' := Admit(st, e, l, periodic, modelPath);
    var t := l.total;
    var tot := Totals(st.history);
    var tot' := Totals(st'.history);
    assert tot' == tot + [t];
    MinimumStep(st.best, tot, t);
    BelowMinimumIff(t, st.best, tot);
    EpochsOfKindBelow(st.events, e, true);
    EpochsOfKindAppend(st.events, periodic, true);
    assert EpochsOfKind(periodic, true) == {};
    if Less(t, st.best) {
      EpochsOfKindAppend(st.events + periodic, [BestCheckpoint(e, modelPath)], true);
      var one := [BestCheckpoint(e, modelPath)];
      assert one[0].BestCheckpoint? && one[0].epoch == e;
      assert EpochsOfKind(one, true) == {e};
    }
    forall x: nat
      ensures x in BestEpochs(st'.events) <==>
        x < |st'.history| && StrictlyBelowAll(st'.history[x].total, tot'[..x])
    {
      if x < e {
        assert st'.history[x] == st.history[x];
        assert tot'[..x] == tot[..x];
      } else if x == e {
        assert tot'[..x] == tot;
      }
    }
  }

  /** Periodic events sit at the epochs `(e+1) % ckpt_every == 0`, under the suffixed path. */
  ghost predicate PeriodicKept(cfg: LoopConfig, st: State) {
    && (forall e: nat :: e in PeriodicEpochs(st.events) <==> e < |st.history| && cfg.ckptEvery != 0 && (e + 1) % cfg.ckptEvery == 0)
    && (forall i :: 0 <= i < |st.events| && st.events[i].PeriodicCheckpoint? ==>
          st.events[i].path == PeriodicPath(cfg.modelPath, st.events[i].epoch)
          && st.events[i].written == (st.events[i].epoch !in cfg.failingWrites))
    && (forall i :: 0 <= i < |st.events| && st.events[i].BestCheckpoint? ==> st.events[i].path == cfg.modelPath)
  }

  /** Events in write order: by epoch, and within an epoch the periodic write first. */
  predicate Precedes(a: Event, b: Event) {
    a.epoch < b.epoch || (a.epoch == b.epoch && a.PeriodicCheckpoint? && b.BestCheckpoint?)
  }

  predicate Ordered(events: seq<Event>) {
    forall i, j :: 0 <= i < j < |events| ==> Precedes(events[i], events[j])
  }

  lemma OrderedAppend(events: seq<Event>, tail: seq<Event>, e: nat)
    requires Ordered(events) && EpochsBelow(events, e) && Ordered(tail)
    requires forall i :: 0 <= i < |tail| ==> tail[i].epoch == e
    ensures Ordered(events + tail) && EpochsBelow(events + tail, e + 1)
  {
    var all := events + tail;
    forall i, j | 0 <= i < j < |all|
      ensures Precedes(all[i], all[j])
    {
      if j < |events| {
        assert all[i] == events[i] && all[j] == events[j];
      } else if i < |events| {
        assert all[i] == events[i] && all[j] == tail[j - |events|];
      } else {
        assert all[i] == tail[i - |events|] && all[j] == tail[j - |events|];
      }
    }
  }

  lemma AdmitKeepsOrder(st: State, e: nat, l: FloatReport, periodic: seq<Event>, modelPath: string)
    requires e == |st.history| && Ordered(st.events) && EpochsBelow(st.events, e)
    requires PeriodicOf(periodic, e) && |periodic| <= 1
    ensures Ordered(Admit(st, e, l, periodic, modelPath).events)
    ensures EpochsBelow(Admit(st, e, l, periodic, modelPath).events, e + 1)
  {
    var tail := if Less(l.total, st.best) then periodic + [BestCheckpoint(e, modelPath)] else periodic;
    assert Admit(st, e, l, periodic, modelPath).events == st.events + tail;
    OrderedAppend(st.events, tail, e);
  }

  lemma AdmitKeepsPeriodic(cfg: LoopConfig, st: State, e: nat, l: FloatReport)
    requires StridesValid(cfg) && e == |st.history| && PeriodicKept(cfg, st) && EpochsBelow(st.events, e)
    ensures PeriodicKept(cfg, Admit(st, e, l, PeriodicEvents(cfg, e), cfg.modelPath))
  {
    var periodic := PeriodicEvents(cfg, e);
    var st' := Admit(st, e, l, periodic, cfg.modelPath);
    var best := [BestCheckpoint(e, cfg.modelPath)];
    var tail := if Less(l.total, st.best) then periodic + best else periodic;
    assert st'.events == st.events + tail;
    EpochsOfKindBelow(st.events, e, false);
    EpochsOfKindAppend(st.events, tail, false);
    if Less(l.total, st.best) {
      EpochsOfKindAppend(periodic, best, false);
      assert EpochsOfKind(best, false) == {};
    }
    if (e + 1) % cfg.ckptEvery == 0 {
      assert periodic[0].PeriodicCheckpoint? && periodic[0].epoch == e;
      assert EpochsOfKind(periodic, false) == {e};
    } else {
      assert EpochsOfKind(periodic, false) == {};
    }
    assert PeriodicEpochs(st'.events) == PeriodicEpochs(st.events) + EpochsOfKind(periodic, false);
    forall x: nat
      ensures x in PeriodicEpochs(st'.events) <==> x < e + 1 && (x + 1) % cfg.ckptEvery == 0
    {
      if x < e {
        assert x !in EpochsOfKind(periodic, false);
      }
    }
    forall i | 0 <= i < |st'.events|
      ensures st'.events[i].PeriodicCheckpoint? ==>
        st'.events[i].path == PeriodicPath(cfg.modelPath, st'.events[i].epoch)
        && st'.events[i].written == (st'.events[i].epoch !in cfg.failingWrites)
      ensures st'.events[i].BestCheckpoint? ==> st'.events[i].path == cfg.modelPath
    {
      if i < |st.events| {
        assert st'.events[i] == st.events[i];
      } else {
        assert st'.events[i] == tail[i - |st.events|];
      }
    }
  }

  /** One epoch of the membrane's loop keeps all four event invariants. */
  lemma StepKeeps2D(cfg: LoopConfig, st: State, e: nat, r: EpochResult)
    requires StridesValid(cfg) && st.status.Running? && e == |st.history|
    requires BestKept(st) && PeriodicKept(cfg, st) && Ordered(st.events) && EpochsBelow(st.events, e)
    ensures var st' := Step2D(cfg, st, e, r);
      BestKept(st') && PeriodicKept(cfg, st') && Ordered(st'.events) && EpochsBelow(st'.events, |st'.history|)
  {
    if r.Ok? && IsFinite(r.value.total) {
      var periodic := PeriodicEvents(cfg, e);
      AdmitKeepsBest(st, e, r.value, periodic, cfg.modelPath);
      AdmitKeepsOrder(st, e, r.value, periodic, cfg.modelPath);
      AdmitKeepsPeriodic(cfg, st, e, r.value);
    }
  }

  /**
   * Under valid strides, whatever stopped the membrane's loop: the best checkpoint was
   * written exactly at the strict new minima, periodic checkpoints exactly at the
   * multiples of the cadence, and the events are in write order.
   */
  lemma {:induction false} Run2DEvents(cfg: LoopConfig, losses: seq<EpochResult>)
    requires StridesValid(cfg)
    ensures var st := Run2D(cfg, losses);
      BestKept(st) && PeriodicKept(cfg, st) && Ordered(st.events) && EpochsBelow(st.events, |st.history|)
  {
    if |losses| > 0 {
      var init := losses[..|losses| - 1];
      Run2DEvents(cfg, init);
      var prev := Run2D(cfg, init);
      if prev.status.Running? {
        StepKeeps2D(cfg, prev, |losses| - 1, losses[|losses| - 1]);
      }
    } else {
      assert Totals([]) == [];
    }
  }

  /** The string's loop writes only best checkpoints, exactly at the strict new minima. */
  lemma {:induction false} Run1DEvents(modelPath: string, losses: seq<EpochResult>)
    ensures var st := Run1D(modelPath, losses);
      && BestKept(st) && Ordered(st.events) && EpochsBelow(st.events, |st.history|)
      && (forall i :: 0 <= i < |st.events| ==> st.events[i] == BestCheckpoint(st.events[i].epoch, modelPath))
  {
    if |losses| > 0 {
      var init := losses[..|losses| - 1];
      Run1DEvents(modelPath, init);
      var prev := Run1D(modelPath, init);
      var e := |losses| - 1;
      var r := losses[e];
      if prev.status.Running? && r.Ok? {
        AdmitKeepsBest(prev, e, r.value, [], modelPath);
        var st := Run1D(modelPath, losses);
        var tail := if Less(r.value.total, prev.best) then [BestCheckpoint(e, modelPath)] else [];
        assert st.events == prev.events + tail;
        OrderedAppend(prev.events, tail, e);
        forall i | 0 <= i < |st.events|
          ensures st.events[i] == BestCheckpoint(st.events[i].epoch, modelPath)
        {
          if i < |prev.events| {
            assert st.events[i] == prev.events[i];
          }
        }
      }
    } else {
      assert Totals([]) == [];
    }
  }

  // ---------------------------------------------------------------- examples

  /** An epoch whose `compute_loss` returned total `t`. */
  function TotalOnly(t: real): EpochResult {
    Ok(FloatReport(Fin(t), Fin(t), Fin(0.0), Fin(0.0)))
  }

  /** Totals 5, 3, 4, 1: the best checkpoint is written at epochs 0, 1 and 3, not at 2. */
  lemma BestExample(cfg: LoopConfig)
    requires StridesValid(cfg)
    ensures BestEpochs(Run2D(cfg, [TotalOnly(5.0), TotalOnly(3.0), TotalOnly(4.0), TotalOnly(1.0)]).events) == {0, 1, 3}
    ensures Run2D(cfg, [TotalOnly(5.0), TotalOnly(3.0), TotalOnly(4.0), TotalOnly(1.0)]).best == Fin(1.0)
  {
    var losses := [TotalOnly(5.0), TotalOnly(3.0), TotalOnly(4.0), TotalOnly(1.0)];
    HealthyRun2D(cfg, losses);
    Run2DHistory(cfg, losses);
    Run2DEvents(cfg, losses);
    var st := Run2D(cfg, losses);
    var tot := Totals(st.history);
    assert tot == [Fin(5.0), Fin(3.0), Fin(4.0), Fin(1.0)];
    assert tot[..0] == [] && tot[..1] == [Fin(5.0)] && tot[..2] == [Fin(5.0), Fin(3.0)];
    assert tot[..3] == [Fin(5.0), Fin(3.0), Fin(4.0)];
    assert !StrictlyBelowAll(Fin(4.0), tot[..2]) by {
      assert tot[..2][1] == Fin(3.0);
    }
    forall x: nat
      ensures x in BestEpochs(st.events) <==> x in {0, 1, 3}
    {
    }
  }

  /**
   * A recorded total that repeats an earlier recorded total is never a strict new
   * minimum, so the string's loop writes no best checkpoint at that epoch.
   */
  lemma EqualLossNeverSaves(modelPath: string, losses: seq<EpochResult>, j: nat, e: nat)
    requires j < e < |Run1D(modelPath, losses).history|
    requires Run1D(modelPath, losses).history[j].total == Run1D(modelPath, losses).history[e].total
    ensures e !in BestEpochs(Run1D(modelPath, losses).events)
  {
    Run1DEvents(modelPath, losses);
    RepeatNotStrictlyBelow(Run1D(modelPath, losses), j, e);
  }

  /**
   * With the attributes absent from the configuration, the membrane's loop writes a
   * periodic checkpoint after every 500th epoch it records, and at no other epoch.
   */
  lemma DefaultCadence(modelPath: string, failingWrites: set<nat>, losses: seq<EpochResult>)
    ensures StridesValid(DefaultLoop(modelPath, failingWrites))
    ensures var st := Run2D(DefaultLoop(modelPath, failingWrites), losses);
      forall e: nat :: e in PeriodicEpochs(st.events) <==> e < |st.history| && (e + 1) % 500 == 0
  {
    Run2DEvents(DefaultLoop(modelPath, failingWrites), losses);
  }

  /** The same for the membrane's loop, whatever stopped it. */
  lemma EqualLossNeverSaves2D(cfg: LoopConfig, losses: seq<EpochResult>, j: nat, e: nat)
    requires StridesValid(cfg)
    requires j < e < |Run2D(cfg, losses).history|
    requires Run2D(cfg, losses).history[j].total == Run2D(cfg, losses).history[e].total
    ensures e !in BestEpochs(Run2D(cfg, losses).events)
  {
    Run2DEvents(cfg, losses);
    RepeatNotStrictlyBelow(Run2D(cfg, losses), j, e);
  }

  lemma RepeatNotStrictlyBelow(st: State, j: nat, e: nat)
    requires j < e < |st.history| && st.history[j].total == st.history[e].total
    ensures !StrictlyBelowAll(st.history[e].total, Totals(st.history)[..e])
  {
    var t := st.history[e].total;
    var prior := Totals(st.history)[..e];
    assert prior[j] == t;
  }

  /** Totals 2, 2: the string's loop saves at epoch 0 only. */
  lemma EqualLossExample(modelPath: string)
    ensures BestEpochs(Run1D(modelPath, [TotalOnly(2.0), TotalOnly(2.0)]).events) == {0}
  {
    var losses := [TotalOnly(2.0), TotalOnly(2.0)];
    Run1DHistory(modelPath, losses);
    Run1DEvents(modelPath, losses);
    var st := Run1D(modelPath, losses);
    var tot := Totals(st.history);
    assert tot == [Fin(2.0), Fin(2.0)];
    assert tot[..0] == [] && tot[..1] == [Fin(2.0)];
    forall x: nat
      ensures x in BestEpochs(st.events) <==> x == 0
    {
    }
  }

  /**
   * `best_loss` starts at +inf, so the string's first epoch saves exactly when its
   * total is below +inf: any finite value or -inf, but neither NaN nor +inf.
   */
  lemma FirstEpochSaves(modelPath: string, losses: seq<EpochResult>)
    requires |losses| > 0 && losses[0].Ok?
    ensures 0 in BestEpochs(Run1D(modelPath, losses).events) <==>
      !losses[0].value.total.NaN? && !losses[0].value.total.PosInf?
  {
    Run1DHistory(modelPath, losses);
    Run1DEvents(modelPath, losses);
    var st := Run1D(modelPath, losses);
    assert Totals(st.history)[..0] == [];
  }

  // ---------------------------------------------------------------- swallowed failures

  /** The events with every periodic write marked as successful. */
  function Unflagged(events: seq<Event>): (u: seq<Event>)
    ensures |u| == |events|
  {
    if |events| == 0 then []
    else
      var last := events[|events| - 1];
      Unflagged(events[..|events| - 1]) + [if last.PeriodicCheckpoint? then last.(written := true) else last]
  }

  lemma {:induction false} UnflaggedAppend(a: seq<Event>, b: seq<Event>)
    ensures Unflagged(a + b) == Unflagged(a) + Unflagged(b)
  {
    if |b| > 0 {
      var b' := b[..|b| - 1];
      assert (a + b)[..|a + b| - 1] == a + b';
      UnflaggedAppend(a, b');
    } else {
      assert a + b == a;
    }
  }

  /**
   * A failing periodic write is caught: which writes fail changes nothing but the
   * `written` flags — not the history, not `best_loss`, not when the loop stops.
   */
  lemma {:induction false} WriteFailuresAreSwallowed(cfg: LoopConfig, failing: set<nat>, losses: seq<EpochResult>)
    ensures var a := Run2D(cfg, losses);
      var b := Run2D(cfg.(failingWrites := failing), losses);
      a.history == b.history && a.best == b.best && a.status == b.status
      && Unflagged(a.events) == Unflagged(b.events)
  {
    if |losses| > 0 {
      var cfg' := cfg.(failingWrites := failing);
      var init := losses[..|losses| - 1];
      WriteFailuresAreSwallowed(cfg, failing, init);
      var a := Run2D(cfg, init);
      var b := Run2D(cfg', init);
      var e := |losses| - 1;
      var r := losses[e];
      if a.status.Running? && r.Ok? && IsFinite(r.value.total) && StridesValid(cfg) {
        var pa := PeriodicEvents(cfg, e);
        var pb := PeriodicEvents(cfg', e);
        assert Unflagged(pa) == Unflagged(pb);
        var best := if Less(r.value.total, a.best) then [BestCheckpoint(e, cfg.modelPath)] else [];
        assert Run2D(cfg, losses).events == a.events + pa + best;
        assert Run2D(cfg', losses).events == b.events + pb + best;
        UnflaggedAppend(a.events + pa, best);
        UnflaggedAppend(a.events, pa);
        UnflaggedAppend(b.events + pb, best);
        UnflaggedAppend(b.events, pb);
      }
    }
  }

  // ---------------------------------------------------------------- the two loops compared

  /** The best-checkpoint events alone, in order. */
  function BestOnly(events: seq<Event>): (b: seq<Event>)
    ensures forall i :: 0 <= i < |b| ==> b[i].BestCheckpoint?
  {
    if |events| == 0 then []
    else
      var last := events[|events| - 1];
      BestOnly(events[..|events| - 1]) + (if last.BestCheckpoint? then [last] else [])
  }

  lemma {:induction false} BestOnlyAppend(a: seq<Event>, b: seq<Event>)
    ensures BestOnly(a + b) == BestOnly(a) + BestOnly(b)
  {
    if |b| > 0 {
      var b' := b[..|b| - 1];
      assert (a + b)[..|a + b| - 1] == a + b';
      BestOnlyAppend(a, b');
    } else {
      assert a + b == a;
    }
  }

  /**
   * On finite totals the two loops agree: the string's loop is the membrane's loop
   * with the periodic checkpoints removed.
   */
  lemma {:induction false} Run1DIsRun2DWithoutPeriodic(cfg: LoopConfig, losses: seq<EpochResult>)
    requires StridesValid(cfg) && Healthy(losses)
    ensures var a := Run1D(cfg.modelPath, losses);
      var b := Run2D(cfg, losses);
      a.history == b.history && a.best == b.best && a.status == b.status && a.events == BestOnly(b.events)
  {
    if |losses| > 0 {
      var init := losses[..|losses| - 1];
      assert Healthy(init) by {
        forall i | 0 <= i < |init|
          ensures init[i].Ok? && IsFinite(init[i].value.total)
        {
          assert init[i] == losses[i];
        }
      }
      Run1DIsRun2DWithoutPeriodic(cfg, init);
      HealthyRun2D(cfg, init);
      var a := Run1D(cfg.modelPath, init);
      var b := Run2D(cfg, init);
      var e := |losses| - 1;
      var l := losses[e].value;
      var p := PeriodicEvents(cfg, e);
      var best := if Less(l.total, b.best) then [BestCheckpoint(e, cfg.modelPath)] else [];
      assert Run1D(cfg.modelPath, losses).events == a.events + best;
      assert Run2D(cfg, losses).events == b.events + p + best;
      BestOnlyAppend(b.events + p, best);
      BestOnlyAppend(b.events, p);
      assert BestOnly(p) == [] by {
        if |p| == 1 {
          assert p[..0] == [];
        }
      }
      assert BestOnly(best) == best by {
        if |best| == 1 {
          assert best[..0] == [];
        }
      }
    }
  }

  // ---------------------------------------------------------------- the loop as written

  /**
   * The membrane's epoch loop in the source's imperative shape: mutable history,
   * `best_loss` and list of writes, leaving the loop at `break` or at the exception.
   * It computes exactly the fold `Run2D`.
   */
  method Train2D(cfg: LoopConfig, losses: seq<EpochResult>) returns (st: State)
    ensures st == Run2D(cfg, losses)
  {
    var history: seq<Row> := [];
    var best := PosInf;
    var events: seq<Event> := [];
    var epoch := 0;
    while epoch < |losses|
      invariant 0 <= epoch <= |losses|
      invariant Run2D(cfg, losses[..epoch]) == State(history, best, events, Running)
    {
      assert losses[..epoch + 1][..epoch] == losses[..epoch];
      var r := losses[epoch];
      if r.Err? {
        st := State(history, best, events, Raised(epoch));
        Run2DStops(cfg, losses, epoch);
        return;
      }
      var l := r.value;
      if !IsFinite(l.total) {
        st := State(history, best, events, Diverged(epoch, l.total));
        Run2DStops(cfg, losses, epoch);
        return;
      }
      history := history + [RowOf(epoch, l)];
      if !StridesValid(cfg) {
        st := State(history, best, events, Raised(epoch));
        Run2DStops(cfg, losses, epoch);
        return;
      }
      if (epoch + 1) % cfg.ckptEvery == 0 {
        var path := PeriodicPath(cfg.modelPath, epoch);
        events := events + [PeriodicCheckpoint(epoch, path, epoch !in cfg.failingWrites)];
      }
      if Less(l.total, best) {
        best := l.total;
        events := events + [BestCheckpoint(epoch, cfg.modelPath)];
      }
      epoch := epoch + 1;
    }
    assert losses[..|losses|] == losses;
    st := State(history, best, events, Running);
  }

  /** The string's epoch loop in the source's imperative shape; it computes `Run1D`. */
  method Train1D(modelPath: string, losses: seq<EpochResult>) returns (st: State)
    ensures st == Run1D(modelPath, losses)
  {
    var history: seq<Row> := [];
    var best := PosInf;
    var events: seq<Event> := [];
    var epoch := 0;
    while epoch < |losses|
      invariant 0 <= epoch <= |losses|
      invariant Run1D(modelPath, losses[..epoch]) == State(history, best, events, Running)
    {
      assert losses[..epoch + 1][..epoch] == losses[..epoch];
      var r := losses[epoch];
      if r.Err? {
        st := State(history, best, events, Raised(epoch));
        Run1DStops(modelPath, losses, epoch);
        return;
      }
      var l := r.value;
      history := history + [RowOf(epoch, l)];
      if Less(l.total, best) {
        best := l.total;
        events := events + [BestCheckpoint(epoch, modelPath)];
      }
      epoch := epoch + 1;
    }
    assert losses[..|losses|] == losses;
    st := State(history, best, events, Running);
  }

  /** Once the string's loop has stopped, later epochs change nothing. */
  lemma {:induction false} Run1DStops(modelPath: string, losses: seq<EpochResult>, k: nat)
    requires k < |losses| && !Run1D(modelPath, losses[..k + 1]).status.Running?
    ensures Run1D(modelPath, losses) == Run1D(modelPath, losses[..k + 1])
  {
    if |losses| > k + 1 {
      var init := losses[..|losses| - 1];
      assert init[..k + 1] == losses[..k + 1];
      Run1DStops(modelPath, init, k);
    } else {
      assert losses[..k + 1] == losses;
    }
  }
}

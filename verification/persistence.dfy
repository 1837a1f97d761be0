/**
 * Model persistence (src_2/utils.py `save_model`, `load_model`). The file system is a map
 * from paths to stored snapshots of the src_2 PINN. A state_dict holds the layers and the
 * six bound buffers, so a successful load yields exactly the stored snapshot; loading
 * fails softly, with the `None` sentinel, when the file is missing or the layer shapes
 * differ from those the configured widths build.
 */
module Persistence {
  import opened Results
  import opened Network
  import opened Paths

  type Storage = map<string, Pinn2D>

  /** `save_model(model, config, suffix)`: write the snapshot at the (possibly suffixed) path. */
  function SaveModel(st: Storage, modelPath: string, suffix: Option<string>, m: Pinn2D): (st': Storage)
    ensures SavePath(modelPath, suffix) in st' && st'[SavePath(modelPath, suffix)] == m
    ensures st'.Keys == st.Keys + {SavePath(modelPath, suffix)}
    ensures forall p :: p in st && p != SavePath(modelPath, suffix) ==> st'[p] == st[p]
  {
    st[SavePath(modelPath, suffix) := m]
  }

  /** Why `load_model` returned, printed as its diagnostic. */
  datatype LoadOutcome = Loaded(model: Pinn2D) | FileMissing | ArchitectureMismatch

  /**
   * `load_model(PINN, config, device)`: FileNotFoundError and the RuntimeError of a
   * state_dict whose layer shapes do not match are both caught.
   */
  function LoadModel(widths: seq<nat>, st: Storage, modelPath: string): (r: LoadOutcome)
    ensures r.FileMissing? <==> modelPath !in st
    ensures r.Loaded? <==> modelPath in st && Fits(st[modelPath].layers, LayerShapes(widths))
    ensures r.Loaded? ==> r.model == st[modelPath]
  {
    if modelPath !in st then FileMissing
    else if !Fits(st[modelPath].layers, LayerShapes(widths)) then ArchitectureMismatch
    else Loaded(st[modelPath])
  }

  /** The value `load_model` returns: the model, or `None` for both failures. */
  function LoadResult(o: LoadOutcome): (r: Option<Pinn2D>)
    ensures r.None? <==> !o.Loaded?
    ensures o.Loaded? ==> r == Some(o.model)
  {
    match o
    case Loaded(m) => Some(m)
    case _ => None
  }

  /** Saving the best model and loading it back with the same widths returns it unchanged. */
  lemma SaveThenLoad(widths: seq<nat>, st: Storage, modelPath: string, m: Pinn2D)
    requires Fits(m.layers, LayerShapes(widths))
    ensures LoadResult(LoadModel(widths, SaveModel(st, modelPath, None, m), modelPath)) == Some(m)
  {
  }

  /** A snapshot saved under other widths cannot be loaded: the sentinel comes back. */
  lemma LoadMismatchIsNone(widths: seq<nat>, st: Storage, modelPath: string, m: Pinn2D)
    requires !Fits(m.layers, LayerShapes(widths))
    ensures LoadResult(LoadModel(widths, SaveModel(st, modelPath, None, m), modelPath)) == None
  {
  }

  /** A periodic (suffixed) save leaves what `load_model` sees at MODEL_PATH untouched. */
  lemma PeriodicSaveKeepsBest(widths: seq<nat>, st: Storage, modelPath: string, suffix: string, m: Pinn2D)
    requires suffix != []
    ensures LoadModel(widths, SaveModel(st, modelPath, Some(suffix), m), modelPath) == LoadModel(widths, st, modelPath)
  {
  }

  /** Checkpoints of two different epochs are written to different files. */
  lemma EpochCheckpointsDistinct(modelPath: string, e1: nat, e2: nat)
    requires e1 != e2
    ensures SavePath(modelPath, Some("epoch" + NatToString(e1))) != SavePath(modelPath, Some("epoch" + NatToString(e2)))
  {
    NatToStringInjective(e1, e2);
    var s1 := "epoch" + NatToString(e1);
    var s2 := "epoch" + NatToString(e2);
    assert s1[5..] == NatToString(e1) && s2[5..] == NatToString(e2);
    DistinctSuffixesDistinctPaths(modelPath, s1, s2);
  }
}

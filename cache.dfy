/**
 * `get_data` around the split computation: the six processed artifacts are
 * looked up next to the input file; when all six exist they are loaded and
 * returned, otherwise the splits are computed, saved, loaded back and
 * returned. With reverse message passing each of the three graphs is
 * converted to the heterogeneous form.
 */
module Cache {
  import opened Failures
  import opened Edges
  import opened ProcessedPaths
  import opened Pipeline

  /** What a saved `.pt` file holds: a graph object or an index tensor. */
  datatype Artifact = GraphFile(graph: GraphData) | IndexFile(inds: seq<nat>)

  /**
   * A returned graph: the object as loaded, or the heterogeneous object built
   * from the loaded graph's nodes, labels, edges, attributes and timestamps
   * (represented by that graph).
   */
  datatype Dataset = AsLoaded(artifact: Artifact) | Hetero(source: GraphData)

  /** The six objects `get_data` returns. */
  datatype Output = Output(
    trData: Dataset,
    valData: Dataset,
    teData: Dataset,
    trInds: Artifact,
    valInds: Artifact,
    teInds: Artifact)

  /** The file system as seen by `get_data`: artifacts keyed by path. */
  class ArtifactStore {
    var files: map<string, Artifact>

    constructor (initial: map<string, Artifact>)
      ensures files == initial
    {
      files := initial;
    }

    /** `os.path.exists(path)`. */
    function Exists(path: string): (b: bool)
      reads this
      ensures b <==> path in files
    {
      path in files
    }

    /** `torch.load(path)` of a file that exists. */
    function Load(path: string): (a: Artifact)
      requires path in files
      reads this
      ensures a == files[path]
    {
      files[path]
    }

    /** `torch.save(obj, path)`: creates or overwrites the file at `path`, and only it. */
    method Save(path: string, a: Artifact)
      modifies this
      ensures files == old(files)[path := a]
    {
      files := files[path := a];
    }
  }

  /** A `file_path` dictionary: one path per artifact name, no two names sharing a path. */
  predicate ValidPaths(filePath: map<string, string>)
  {
    && (forall n :: n in FileNames ==> n in filePath)
    && (forall n1, n2 :: n1 in FileNames && n2 in FileNames && n1 != n2 ==> filePath[n1] != filePath[n2])
  }

  /** The dictionary `get_processed_path` builds for the input path `data`. */
  function PathsOf(data: string): (filePath: map<string, string>)
    ensures ValidPaths(filePath)
  {
    var filePath := map n | n in FileNames :: ProcessedPath(data, n);
    forall n1, n2 | n1 in FileNames && n2 in FileNames && n1 != n2
      ensures filePath[n1] != filePath[n2]
    {
      ProcessedPathsDistinct(data, n1, n2);
    }
    filePath
  }

  /** The six artifact paths of a `file_path` dictionary. */
  function ArtifactPaths(filePath: map<string, string>): set<string>
    requires ValidPaths(filePath)
  {
    {filePath["train"], filePath["val"], filePath["test"], filePath["train_inds"], filePath["val_inds"], filePath["test_inds"]}
  }

  /** The cache-hit test: all six artifact files exist. */
  predicate Cached(files: map<string, Artifact>, filePath: map<string, string>)
    requires ValidPaths(filePath)
  {
    ArtifactPaths(filePath) <= files.Keys
  }

  /** A loaded graph as returned: as is, or converted; converting something that is not a graph fails. */
  function Convert(a: Artifact, reverseMp: bool): (r: Result<Dataset>)
    ensures !reverseMp ==> r == Ok(AsLoaded(a))
    ensures reverseMp ==> (r.Ok? <==> a.GraphFile?)
    ensures reverseMp && r.Ok? ==> r.value == Hetero(a.graph)
    ensures r.Err? ==> r.failure == NotAGraph
  {
    if !reverseMp then Ok(AsLoaded(a))
    else match a
      case GraphFile(g) => Ok(Hetero(g))
      case IndexFile(_) => Err(NotAGraph)
  }

  /** The six loaded artifacts as returned: the three graphs converted in order train, val, test. */
  function Assemble(tr: Artifact, val: Artifact, te: Artifact, trI: Artifact, valI: Artifact, teI: Artifact, reverseMp: bool): Result<Output>
  {
    match Convert(tr, reverseMp)
    case Err(f) => Err(f)
    case Ok(trD) =>
      match Convert(val, reverseMp)
      case Err(f) => Err(f)
      case Ok(valD) =>
        match Convert(te, reverseMp)
        case Err(f) => Err(f)
        case Ok(teD) => Ok(Output(trD, valD, teD, trI, valI, teI))
  }

  /** Loading the six artifacts and returning them. */
  function ReadBack(files: map<string, Artifact>, filePath: map<string, string>, reverseMp: bool): Result<Output>
    requires ValidPaths(filePath) && Cached(files, filePath)
  {
    Assemble(
      files[filePath["train"]], files[filePath["val"]], files[filePath["test"]],
      files[filePath["train_inds"]], files[filePath["val_inds"]], files[filePath["test_inds"]],
      reverseMp)
  }

  /** The files after the six saves, in the order `get_data` saves them. */
  function SavedFiles(files: map<string, Artifact>, filePath: map<string, string>, sp: Splits): map<string, Artifact>
    requires ValidPaths(filePath)
  {
    files[filePath["train"] := GraphFile(sp.trData)]
         [filePath["train_inds"] := IndexFile(sp.trInds)]
         [filePath["val"] := GraphFile(sp.valData)]
         [filePath["val_inds"] := IndexFile(sp.valInds)]
         [filePath["test"] := GraphFile(sp.teData)]
         [filePath["test_inds"] := IndexFile(sp.teInds)]
  }

  /** What a freshly computed split looks like once returned. */
  function Fresh(sp: Splits, reverseMp: bool): Output
  {
    if reverseMp then
      Output(Hetero(sp.trData), Hetero(sp.valData), Hetero(sp.teData), IndexFile(sp.trInds), IndexFile(sp.valInds), IndexFile(sp.teInds))
    else
      Output(AsLoaded(GraphFile(sp.trData)), AsLoaded(GraphFile(sp.valData)), AsLoaded(GraphFile(sp.teData)),
             IndexFile(sp.trInds), IndexFile(sp.valInds), IndexFile(sp.teInds))
  }

  /** The six artifact paths of a valid dictionary are pairwise distinct. */
  lemma ArtifactPathsApart(filePath: map<string, string>)
    requires ValidPaths(filePath)
    ensures var tr, val, te := filePath["train"], filePath["val"], filePath["test"];
      var trI, valI, teI := filePath["train_inds"], filePath["val_inds"], filePath["test_inds"];
      && tr != val && tr != te && tr != trI && tr != valI && tr != teI
      && val != te && val != trI && val != valI && val != teI
      && te != trI && te != valI && te != teI
      && trI != valI && trI != teI && valI != teI
  {
    assert FileNames[0] == "train" && FileNames[1] == "val" && FileNames[2] == "test";
    assert FileNames[3] == "train_inds" && FileNames[4] == "val_inds" && FileNames[5] == "test_inds";
  }

  /** After the six saves each artifact file holds what was saved to it. */
  lemma SavedArtifacts(files: map<string, Artifact>, filePath: map<string, string>, sp: Splits)
    requires ValidPaths(filePath)
    ensures var saved := SavedFiles(files, filePath, sp);
      && saved[filePath["train"]] == GraphFile(sp.trData)
      && saved[filePath["val"]] == GraphFile(sp.valData)
      && saved[filePath["test"]] == GraphFile(sp.teData)
      && saved[filePath["train_inds"]] == IndexFile(sp.trInds)
      && saved[filePath["val_inds"]] == IndexFile(sp.valInds)
      && saved[filePath["test_inds"]] == IndexFile(sp.teInds)
  {
    ArtifactPathsApart(filePath);
  }

  /** The saves add exactly the six artifact files and leave every other file untouched. */
  lemma SavedOnlyArtifacts(files: map<string, Artifact>, filePath: map<string, string>, sp: Splits)
    requires ValidPaths(filePath)
    ensures var saved := SavedFiles(files, filePath, sp);
      && Cached(saved, filePath)
      && saved.Keys == files.Keys + ArtifactPaths(filePath)
      && (forall p :: p in files && p !in ArtifactPaths(filePath) ==> saved[p] == files[p])
  {
  }

  /** Loading back what was just saved returns the computed split, converted when asked to. */
  lemma ReloadReturnsSaved(files: map<string, Artifact>, filePath: map<string, string>, sp: Splits, reverseMp: bool)
    requires ValidPaths(filePath)
    ensures Cached(SavedFiles(files, filePath, sp), filePath)
    ensures ReadBack(SavedFiles(files, filePath, sp), filePath, reverseMp) == Ok(Fresh(sp, reverseMp))
  {
    SavedOnlyArtifacts(files, filePath, sp);
    SavedArtifacts(files, filePath, sp);
  }

  /**
   * `get_data` as a function of the files before the call and of `plan`, what
   * the split computation yields on the table when it runs: the result and
   * the files after the call.
   */
  function GetDataSpec(files: map<string, Artifact>, filePath: map<string, string>, reverseMp: bool,
                       plan: Result<Splits>): (r: (Result<Output>, map<string, Artifact>))
    requires ValidPaths(filePath)
    ensures Cached(files, filePath) || plan.Err? ==> r.1 == files
    ensures !Cached(files, filePath) && plan.Err? ==> r.0 == Err(plan.failure)
    ensures !Cached(files, filePath) && plan.Ok? ==> Cached(r.1, filePath) && r.0 == Ok(Fresh(plan.value, reverseMp))
    ensures forall p :: p in files && p !in ArtifactPaths(filePath) ==> p in r.1 && r.1[p] == files[p]
  {
    if Cached(files, filePath) then (ReadBack(files, filePath, reverseMp), files)
    else
      match plan
      case Err(f) => (Err(f), files)
      case Ok(sp) =>
        var saved := SavedFiles(files, filePath, sp);
        SavedOnlyArtifacts(files, filePath, sp);
        ReloadReturnsSaved(files, filePath, sp, reverseMp);
        (ReadBack(saved, filePath, reverseMp), saved)
  }

  /** The six `torch.load` calls followed by the optional conversion of the three graphs. */
  method LoadAll(store: ArtifactStore, filePath: map<string, string>, reverseMp: bool) returns (r: Result<Output>)
    requires ValidPaths(filePath) && Cached(store.files, filePath)
    ensures r == ReadBack(store.files, filePath, reverseMp)
  {
    var trData := store.Load(filePath["train"]);
    var valData := store.Load(filePath["val"]);
    var teData := store.Load(filePath["test"]);
    var trInds := store.Load(filePath["train_inds"]);
    var valInds := store.Load(filePath["val_inds"]);
    var teInds := store.Load(filePath["test_inds"]);
    r := Assemble(trData, valData, teData, trInds, valInds, teInds, reverseMp);
  }

  /** The six `torch.save` calls, in the order `get_data` makes them. */
  method SaveAll(store: ArtifactStore, filePath: map<string, string>, sp: Splits)
    requires ValidPaths(filePath)
    modifies store
    ensures store.files == SavedFiles(old(store.files), filePath, sp)
  {
    store.Save(filePath["train"], GraphFile(sp.trData));
    store.Save(filePath["train_inds"], IndexFile(sp.trInds));
    store.Save(filePath["val"], GraphFile(sp.valData));
    store.Save(filePath["val_inds"], IndexFile(sp.valInds));
    store.Save(filePath["test"], GraphFile(sp.teData));
    store.Save(filePath["test_inds"], IndexFile(sp.teInds));
  }

  /** The cache-miss tail of `get_data`: save the six artifacts, then load them back. */
  method SaveAndReload(store: ArtifactStore, filePath: map<string, string>, reverseMp: bool, sp: Splits)
    returns (r: Result<Output>)
    requires ValidPaths(filePath)
    modifies store
    ensures store.files == SavedFiles(old(store.files), filePath, sp)
    ensures r == Ok(Fresh(sp, reverseMp))
  {
    SaveAll(store, filePath, sp);
    ReloadReturnsSaved(old(store.files), filePath, sp, reverseMp);
    r := LoadAll(store, filePath, reverseMp);
  }

  /** The six `os.path.exists` tests of the cache lookup, joined by `and`. */
  method AllExist(store: ArtifactStore, filePath: map<string, string>) returns (hit: bool)
    requires ValidPaths(filePath)
    ensures hit <==> Cached(store.files, filePath)
  {
    hit := store.Exists(filePath["train"]) && store.Exists(filePath["val"]) && store.Exists(filePath["test"])
      && store.Exists(filePath["train_inds"]) && store.Exists(filePath["val_inds"]) && store.Exists(filePath["test_inds"]);
  }

  /**
   * The body of `get_data` once the artifact paths are known: when all six
   * files exist they are loaded and returned; otherwise the split is computed
   * from `rows` (the table read from the input file), the six artifacts are
   * saved, loaded back and returned. With `reverseMp` the three graphs are
   * converted on return.
   */
  method GetDataAt(store: ArtifactStore, filePath: map<string, string>, reverseMp: bool,
                   rows: seq<Transaction>, featurize: GraphData -> GraphData) returns (r: Result<Output>)
    requires ValidPaths(filePath)
    modifies store
    ensures (r, store.files) == GetDataSpec(old(store.files), filePath, reverseMp, PlanSplits(rows, featurize))
  {
    var hit := AllExist(store, filePath);
    if hit {
      r := LoadAll(store, filePath, reverseMp);
    } else {
      var plan := ComputeSplits(rows, featurize);
      if plan.Err? {
        return Err(plan.failure);
      }
      MissReturnsComputed(store.files, filePath, reverseMp, plan.value);
      r := SaveAndReload(store, filePath, reverseMp, plan.value);
    }
  }

  /** `get_data`: the artifact paths are built next to `data`, then the cache is used or filled. */
  method GetData(store: ArtifactStore, data: string, reverseMp: bool,
                 rows: seq<Transaction>, featurize: GraphData -> GraphData) returns (r: Result<Output>)
    modifies store
    ensures (r, store.files) == GetDataSpec(old(store.files), PathsOf(data), reverseMp, PlanSplits(rows, featurize))
  {
    var filePath := GetProcessedPath(data);
    assert filePath == PathsOf(data);
    r := GetDataAt(store, filePath, reverseMp, rows, featurize);
  }

  /** On a cache hit nothing is written and the split is never computed: the result does not depend on it. */
  lemma HitIgnoresTable(files: map<string, Artifact>, filePath: map<string, string>, reverseMp: bool,
                        plan1: Result<Splits>, plan2: Result<Splits>)
    requires ValidPaths(filePath) && Cached(files, filePath)
    ensures GetDataSpec(files, filePath, reverseMp, plan1).1 == files
    ensures GetDataSpec(files, filePath, reverseMp, plan1) == GetDataSpec(files, filePath, reverseMp, plan2)
  {
  }

  /**
   * On a cache hit without reverse message passing the six loaded objects are
   * returned as they are; with it, the call fails exactly when one of the
   * three graph files does not hold a graph, and otherwise returns the
   * heterogeneous form of each loaded graph with the three loaded index files.
   */
  lemma HitConversion(files: map<string, Artifact>, filePath: map<string, string>, reverseMp: bool, plan: Result<Splits>)
    requires ValidPaths(filePath) && Cached(files, filePath)
    ensures var r := GetDataSpec(files, filePath, reverseMp, plan).0;
      && (!reverseMp ==> r == Ok(Output(AsLoaded(files[filePath["train"]]), AsLoaded(files[filePath["val"]]),
                                        AsLoaded(files[filePath["test"]]), files[filePath["train_inds"]],
                                        files[filePath["val_inds"]], files[filePath["test_inds"]])))
      && (reverseMp ==> (r == Err(NotAGraph) <==>
            !(files[filePath["train"]].GraphFile? && files[filePath["val"]].GraphFile? && files[filePath["test"]].GraphFile?)))
      && (reverseMp && files[filePath["train"]].GraphFile? && files[filePath["val"]].GraphFile? && files[filePath["test"]].GraphFile? ==>
            r == Ok(Output(Hetero(files[filePath["train"]].graph), Hetero(files[filePath["val"]].graph),
                           Hetero(files[filePath["test"]].graph), files[filePath["train_inds"]],
                           files[filePath["val_inds"]], files[filePath["test_inds"]])))
  {
  }

  /** On a cache miss a failed split stops the call before anything is saved. */
  lemma MissFailureWritesNothing(files: map<string, Artifact>, filePath: map<string, string>, reverseMp: bool, f: Failure)
    requires ValidPaths(filePath) && !Cached(files, filePath)
    ensures GetDataSpec(files, filePath, reverseMp, Err(f)) == (Err(f), files)
  {
  }

  /**
   * On a cache miss a successful split is saved to the six artifact files,
   * every other file is kept, and what is returned is the computed split
   * itself (converted when asked to), never a conversion failure.
   */
  lemma MissReturnsComputed(files: map<string, Artifact>, filePath: map<string, string>, reverseMp: bool, sp: Splits)
    requires ValidPaths(filePath) && !Cached(files, filePath)
    ensures var (r, after) := GetDataSpec(files, filePath, reverseMp, Ok(sp));
      && r == Ok(Fresh(sp, reverseMp))
      && Cached(after, filePath)
      && after.Keys == files.Keys + ArtifactPaths(filePath)
      && (forall p :: p in files && p !in ArtifactPaths(filePath) ==> after[p] == files[p])
  {
    SavedOnlyArtifacts(files, filePath, sp);
    ReloadReturnsSaved(files, filePath, sp, reverseMp);
  }

  /**
   * A call that returns a result leaves the cache filled, so a second call
   * hits the cache and returns the same result without computing the split
   * again, whatever the table then holds.
   */
  lemma SecondCallHits(files: map<string, Artifact>, filePath: map<string, string>, reverseMp: bool,
                       plan: Result<Splits>, plan2: Result<Splits>)
    requires ValidPaths(filePath)
    requires GetDataSpec(files, filePath, reverseMp, plan).0.Ok?
    ensures var first := GetDataSpec(files, filePath, reverseMp, plan);
      && Cached(first.1, filePath)
      && GetDataSpec(first.1, filePath, reverseMp, plan2) == first
  {
    if !Cached(files, filePath) {
      SavedOnlyArtifacts(files, filePath, plan.value);
      ReloadReturnsSaved(files, filePath, plan.value, reverseMp);
    }
  }
}

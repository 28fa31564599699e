/**
 * Stale workspaces: a synthetic patch that replays what the epoch changed meanwhile, with the stale base as common
 * ancestor, so that a stale workspace cannot silently revert newer work (build_phase.rs, partition.rs).
 */
module EpochDelta {
  import opened Prelude
  import opened MergeAlgebra
  import opened LineMerge
  import opened SharedPath
  import opened Attribution
  import opened ResolvePartition
  import opened PartitionPaths

  /** The repository as the build reads it: the tree of each epoch, and merge bases (with their fallback). */
  datatype Repo<!C> = Repo(tree: EpochId -> map<Path, C>, mergeBase: (EpochId, EpochId) -> EpochId)

  const EPOCH_DELTA: WorkspaceId := "epoch-delta"

  // ----- what the injection is about

  function Touched<C>(sets: seq<PatchSet<C>>): set<Path> {
    set i, j | 0 <= i < |sets| && 0 <= j < |sets[i].changes| :: sets[i].changes[j].path
  }

  function StaleBases<C>(repo: Repo<C>, current: EpochId, sets: seq<PatchSet<C>>): set<EpochId> {
    set i | 0 <= i < |sets| && repo.mergeBase(sets[i].epoch, current) != current :: repo.mergeBase(sets[i].epoch, current)
  }

  predicate Differs<C(==)>(a: map<Path, C>, b: map<Path, C>, path: Path) {
    BaseOf(a, path) != BaseOf(b, path)
  }

  /** The paths on which two trees differ. */
  function TreeDiff<C(==)>(a: map<Path, C>, b: map<Path, C>): (r: set<Path>)
    ensures forall p :: p in r <==> Differs(a, b, p)
  {
    set p | p in a.Keys + b.Keys && Differs(a, b, p)
  }

  /** Touched paths that the epoch changed since some stale base. */
  function Contended<C(==)>(repo: Repo<C>, current: EpochId, sets: seq<PatchSet<C>>): set<Path> {
    set b, p | b in StaleBases(repo, current, sets) && p in TreeDiff(repo.tree(b), repo.tree(current)) && p in Touched(sets) :: p
  }

  ghost predicate Least(bases: set<EpochId>, b: EpochId) {
    b in bases && forall c :: c in bases ==> StringLe(b, c)
  }

  function DeltaChange<C>(tree: map<Path, C>, path: Path): FileChange<C> {
    if path in tree then FileChange(path, Modified, Some(tree[path]), None) else FileChange(path, Deleted, None, None)
  }

  /** What `InjectEpochDelta` returns: the patch sets and the base overrides. */
  ghost predicate Injected<C(!new)>(repo: Repo<C>, current: EpochId, sets: seq<PatchSet<C>>,
                                    sets': seq<PatchSet<C>>, overrides: map<Path, C>)
  {
    var overlap := Contended(repo, current, sets);
    if overlap == {} then sets' == sets && overrides == map[]
    else
      exists paths: seq<Path>, oldest ::
        && Distinct(paths) && (forall p :: p in paths <==> p in overlap)
        && Least(StaleBases(repo, current, sets), oldest)
        && sets' == sets + [PatchSet(EPOCH_DELTA, current, Map(p => DeltaChange(repo.tree(current), p), paths))]
        && overrides == Restrict(repo.tree(oldest), overlap)
  }

  /** The stale bases and the touched paths, collected in one pass over the patch sets. */
  method Survey<C>(repo: Repo<C>, current: EpochId, sets: seq<PatchSet<C>>) returns (stale: set<EpochId>, touched: set<Path>)
    ensures stale == StaleBases(repo, current, sets) && touched == Touched(sets)
  {
    stale, touched := {}, {};
    for i := 0 to |sets|
      invariant stale == StaleBases(repo, current, sets[..i]) && touched == Touched(sets[..i])
    {
      var creation := repo.mergeBase(sets[i].epoch, current);
      if creation != current { stale := stale + {creation}; }
      ghost var before := touched;
      for j := 0 to |sets[i].changes|
        invariant touched == before + set k | 0 <= k < j :: sets[i].changes[k].path
      {
        touched := touched + {sets[i].changes[j].path};
      }
      OneMoreSet(repo, current, sets, i);
    }
    assert sets[..|sets|] == sets;
  }

  lemma {:induction false} OneMoreSet<C>(repo: Repo<C>, current: EpochId, sets: seq<PatchSet<C>>, i: nat)
    requires i < |sets|
    ensures Touched(sets[..i + 1]) == Touched(sets[..i]) + set k | 0 <= k < |sets[i].changes| :: sets[i].changes[k].path
    ensures StaleBases(repo, current, sets[..i + 1])
         == StaleBases(repo, current, sets[..i])
            + if repo.mergeBase(sets[i].epoch, current) != current then {repo.mergeBase(sets[i].epoch, current)} else {}
  {
    var front, all := sets[..i], sets[..i + 1];
    assert forall k :: 0 <= k < i ==> front[k] == all[k];
    assert all[i] == sets[i];
  }

  method DeltaPaths<C(==)>(repo: Repo<C>, current: EpochId, bases: seq<EpochId>) returns (delta: set<Path>)
    ensures forall p :: p in delta <==> exists b :: b in bases && Differs(repo.tree(b), repo.tree(current), p)
  {
    delta := {};
    for i := 0 to |bases|
      invariant forall p :: p in delta <==> exists b :: b in bases[..i] && Differs(repo.tree(b), repo.tree(current), p)
    {
      delta := delta + TreeDiff(repo.tree(bases[i]), repo.tree(current));
      assert bases[..i + 1] == bases[..i] + [bases[i]];
    }
    assert bases[..|bases|] == bases;
  }

  function Restrict<C>(tree: map<Path, C>, paths: set<Path>): map<Path, C> {
    map p | p in paths && p in tree :: tree[p]
  }

  method DeltaPatch<C>(now: map<Path, C>, base: map<Path, C>, paths: seq<Path>)
    returns (changes: seq<FileChange<C>>, overrides: map<Path, C>)
    ensures changes == Map(p => DeltaChange(now, p), paths)
    ensures overrides == Restrict(base, set p | p in paths)
  {
    changes, overrides := [], map[];
    for i := 0 to |paths|
      invariant |changes| == i && forall k :: 0 <= k < i ==> changes[k] == DeltaChange(now, paths[k])
      invariant overrides == Restrict(base, set p | p in paths[..i])
    {
      changes := changes + [DeltaChange(now, paths[i])];
      if paths[i] in base { overrides := overrides[paths[i] := base[paths[i]]]; }
      assert paths[..i + 1] == paths[..i] + [paths[i]];
    }
    assert paths[..|paths|] == paths;
  }

  method InjectEpochDelta<C(==,!new)>(repo: Repo<C>, current: EpochId, sets: seq<PatchSet<C>>)
    returns (sets': seq<PatchSet<C>>, overrides: map<Path, C>)
    ensures Injected(repo, current, sets, sets', overrides)
  {
    var stale, touched := Survey(repo, current, sets);
    if stale == {} { return sets, map[]; }
    StringOrder();
    PathOrder();
    var bases := Ordered(stale, StringLe);
    var delta := DeltaPaths(repo, current, bases);
    var overlapping := delta * touched;
    assert overlapping == Contended(repo, current, sets);
    if overlapping == {} { return sets, map[]; }
    var oldest := bases[0];
    assert Least(stale, oldest);
    var paths := Ordered(overlapping, PathLe);
    var changes;
    changes, overrides := DeltaPatch(repo.tree(current), repo.tree(oldest), paths);
    assert (set p | p in paths) == overlapping;
    sets' := sets + [PatchSet(EPOCH_DELTA, current, changes)];
  }

  // ----- the pipeline

  method ReadBaseContents<C>(tree: map<Path, C>, paths: seq<Path>) returns (base: map<Path, C>)
    ensures base == Restrict(tree, set p | p in paths)
  {
    base := map[];
    for i := 0 to |paths|
      invariant base == Restrict(tree, set p | p in paths[..i])
    {
      if paths[i] in tree { base := base[paths[i] := tree[paths[i]]]; }
      assert paths[..i + 1] == paths[..i] + [paths[i]];
    }
    assert paths[..|paths|] == paths;
  }

  /** The partition and base contents of one run of the pipeline. */
  ghost predicate IsRun<C(!new)>(repo: Repo<C>, current: EpochId, sets: seq<PatchSet<C>>, partition: Partition<C>, base: map<Path, C>) {
    exists sets', overrides ::
      && Injected(repo, current, sets, sets', overrides)
      && IsPartition(sets', partition.unique, partition.shared)
      && base == Restrict(repo.tree(current), set p | p in partition.Paths()) + overrides
  }

  /** Injection, partition, base contents with overrides, resolution. `clashesOf` detects directory/file clashes. */
  method RunPipeline<C(==,!new), A, E>(repo: Repo<C>, current: EpochId, sets: seq<PatchSet<C>>,
                                       clashesOf: (seq<(Path, Entry<C>)>, seq<(Path, seq<Entry<C>>)>) -> seq<DfClash>,
                                       resolver: Resolver<C, A, E>)
    returns (r: Result<ResolveResult<C, A>, E>, partition: Partition<C>, base: map<Path, C>)
    ensures IsRun(repo, current, sets, partition, base)
    ensures partition.dfClashes == clashesOf(partition.unique, partition.shared)
    ensures r == ResolveAll(partition, base, resolver)
  {
    var sets', overrides := InjectEpochDelta(repo, current, sets);
    var unique, shared := PartitionByPath(sets');
    partition := Partition(unique, shared, clashesOf(unique, shared));
    base := ReadBaseContents(repo.tree(current), partition.Paths());
    base := base + overrides;
    r := ResolvePaths(partition, base, resolver);
  }

  // ----- what reaches resolution for one path

  ghost function DeltaEntry<C>(tree: map<Path, C>, path: Path): Entry<C> {
    ToEntry(EPOCH_DELTA, DeltaChange(tree, path))
  }

  lemma {:induction false} DeltaEntries<C>(tree: map<Path, C>, paths: seq<Path>, path: Path)
    requires Distinct(paths)
    ensures EntriesIn(EPOCH_DELTA, Map(p => DeltaChange(tree, p), paths), path)
         == if path in paths then [DeltaEntry(tree, path)] else []
  {
    if paths != [] {
      var n := |paths| - 1;
      var changes := Map(p => DeltaChange(tree, p), paths);
      DeltaEntries(tree, paths[..n], path);
      assert changes[..n] == Map(p => DeltaChange(tree, p), paths[..n]);
      assert paths == paths[..n] + [paths[n]];
    }
  }

  /** The changes to `path` that the run resolves: the workspaces' and, when the epoch changed it too, the epoch's. */
  ghost function Inputs<C>(repo: Repo<C>, current: EpochId, sets: seq<PatchSet<C>>, path: Path): seq<Entry<C>> {
    EntriesAt(sets, path) + if path in Contended(repo, current, sets) then [DeltaEntry(repo.tree(current), path)] else []
  }

  lemma {:induction false} EntriesTouch<C>(sets: seq<PatchSet<C>>, path: Path)
    ensures EntriesAt(sets, path) != [] <==> path in Touched(sets)
  {
    if sets != [] {
      var n := |sets| - 1;
      EntriesTouch(sets[..n], path);
      EntriesInTouch(sets[n].ws, sets[n].changes, path);
      assert forall i :: 0 <= i < n ==> sets[..n][i] == sets[i];
      if path in Touched(sets) {
        var i, j :| 0 <= i < |sets| && 0 <= j < |sets[i].changes| && sets[i].changes[j].path == path;
        assert i < n ==> sets[..n][i] == sets[i];
      }
    }
  }

  lemma {:induction false} EntriesInTouch<C>(ws: WorkspaceId, changes: seq<FileChange<C>>, path: Path)
    ensures EntriesIn(ws, changes, path) != [] <==> exists j :: 0 <= j < |changes| && changes[j].path == path
  {
    if changes != [] {
      var n := |changes| - 1;
      EntriesInTouch(ws, changes[..n], path);
      if j :| 0 <= j < |changes| && changes[j].path == path {
        assert j < n ==> changes[..n][j] == changes[j];
      }
      if j :| 0 <= j < n && changes[..n][j].path == path {
        assert changes[j].path == path;
      }
    }
  }

  /** The partition's records of one path, against the inputs of that path. */
  ghost predicate HoldsInputs<C(!new)>(partition: Partition<C>, path: Path, inputs: seq<Entry<C>>) {
    && (forall i :: 0 <= i < |partition.unique| && partition.unique[i].0 == path ==> inputs == [partition.unique[i].1])
    && (forall i :: 0 <= i < |partition.shared| && partition.shared[i].0 == path ==>
          |inputs| >= 2 && multiset(partition.shared[i].1) == multiset(inputs))
    && (inputs != [] ==> path in Keys(partition.unique) || path in Keys(partition.shared))
  }

  /** A touched path reaches resolution with its inputs, over the least stale base's content when there is one. */
  lemma {:induction false} RunAt<C(!new)>(repo: Repo<C>, current: EpochId, sets: seq<PatchSet<C>>,
        partition: Partition<C>, base: map<Path, C>,
        oldest: EpochId, path: Path)
    requires IsRun(repo, current, sets, partition, base) && Least(StaleBases(repo, current, sets), oldest)
    ensures HoldsInputs(partition, path, Inputs(repo, current, sets, path))
    ensures Inputs(repo, current, sets, path) != [] <==> path in Touched(sets)
    ensures path in Touched(sets) ==>
              BaseOf(base, path) == if path in repo.tree(oldest) then Some(repo.tree(oldest)[path])
                                    else BaseOf(repo.tree(current), path)
  {
    var sets', overrides :|
      && Injected(repo, current, sets, sets', overrides)
      && IsPartition(sets', partition.unique, partition.shared)
      && base == Restrict(repo.tree(current), set p | p in partition.Paths()) + overrides;
    InjectedEntries(repo, current, sets, sets', overrides, oldest, path);
    assert HoldsInputs(partition, path, EntriesAt(sets', path)) by { PartitionHolds(sets', partition, path); }
    EntriesTouch(sets, path);
    ContendedOver(repo, current, sets, oldest, path);
  }

  /** A touched path is contended exactly when some stale base differs from the epoch on it; the least base is one of them. */
  lemma {:induction false} ContendedOver<C(!new)>(repo: Repo<C>, current: EpochId, sets: seq<PatchSet<C>>, oldest: EpochId, path: Path)
    requires Least(StaleBases(repo, current, sets), oldest)
    ensures path in Contended(repo, current, sets)
            <==> && path in Touched(sets)
                 && exists b :: b in StaleBases(repo, current, sets) && Differs(repo.tree(b), repo.tree(current), path)
    ensures path in Touched(sets) && path !in Contended(repo, current, sets) ==>
              BaseOf(repo.tree(oldest), path) == BaseOf(repo.tree(current), path)
  {
  }

  lemma {:induction false} PartitionHolds<C(!new)>(sets: seq<PatchSet<C>>, partition: Partition<C>, path: Path)
    requires IsPartition(sets, partition.unique, partition.shared)
    ensures HoldsInputs(partition, path, EntriesAt(sets, path))
  {
  }

  lemma {:induction false} InjectedEntries<C(!new)>(repo: Repo<C>, current: EpochId, sets: seq<PatchSet<C>>,
        sets': seq<PatchSet<C>>,
        overrides: map<Path, C>, oldest: EpochId, path: Path)
    requires Injected(repo, current, sets, sets', overrides) && Least(StaleBases(repo, current, sets), oldest)
    ensures EntriesAt(sets', path) == Inputs(repo, current, sets, path)
    ensures BaseOf(overrides, path) == if path in Contended(repo, current, sets) then BaseOf(repo.tree(oldest), path) else None
  {
    var overlap := Contended(repo, current, sets);
    if overlap != {} {
      var paths: seq<Path>, first :|
        && Distinct(paths) && (forall p :: p in paths <==> p in overlap)
        && Least(StaleBases(repo, current, sets), first)
        && sets' == sets + [PatchSet(EPOCH_DELTA, current, Map(p => DeltaChange(repo.tree(current), p), paths))]
        && overrides == Restrict(repo.tree(first), overlap);
      LeastUnique(StaleBases(repo, current, sets), first, oldest);
      WithDelta(repo.tree(current), current, sets, paths, path);
    }
  }

  lemma {:induction false} LeastUnique(bases: set<EpochId>, a: EpochId, b: EpochId)
    requires Least(bases, a) && Least(bases, b)
    ensures a == b
  {
    StringOrder();
  }

  lemma {:induction false} WithDelta<C>(tree: map<Path, C>, current: EpochId, sets: seq<PatchSet<C>>,
        paths: seq<Path>, path: Path)
    requires Distinct(paths)
    ensures EntriesAt(sets + [PatchSet(EPOCH_DELTA, current, Map(p => DeltaChange(tree, p), paths))], path)
         == EntriesAt(sets, path) + if path in paths then [DeltaEntry(tree, path)] else []
  {
    var changes := Map(p => DeltaChange(tree, p), paths);
    var all := sets + [PatchSet(EPOCH_DELTA, current, changes)];
    assert all[..|all| - 1] == sets;
    DeltaEntries(tree, paths, path);
  }
}

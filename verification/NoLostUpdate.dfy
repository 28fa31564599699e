/**
 * What a run with stale workspaces does to the lines of a path (build_phase.rs on top of resolve.rs). Any number of stale
 * base epochs; the common ancestor comes from the least of them, whatever base each workspace started from.
 */
module NoLostUpdate {
  import opened Prelude
  import opened MergeAlgebra
  import opened LineMerge
  import opened SharedPath
  import opened Attribution
  import opened ResolvePartition
  import opened PartitionPaths
  import opened EpochDelta

  function NoAst<V, A>(): Path -> Option<AstEngine<seq<V>, A>> {
    p => None
  }

  /** One run of the pipeline: what it read, the least of its stale bases, what reached resolution, and what came out. */
  datatype Run<!V, !A, !E> = Run(
    repo: Repo<seq<V>>, current: EpochId, sets: seq<PatchSet<seq<V>>>, oldest: EpochId,
    partition: Partition<seq<V>>, base: map<Path, seq<V>>, tools: Tools<seq<V>, A, E>, result: ResolveResult<seq<V>, A>)
  {
    ghost function Bases(): set<EpochId> {
      StaleBases(repo, current, sets)
    }

    /** The workspaces' entries at a path. */
    function Entries(path: Path): seq<Entry<seq<V>>> {
      EntriesAt(sets, path)
    }

    /** The current epoch's file. */
    function Epoch(path: Path): Option<seq<V>> {
      BaseOf(repo.tree(current), path)
    }

    /** What is merged at a path: the workspaces' entries and, on a contended path, the epoch's. */
    ghost function MergedAt(path: Path): seq<Entry<seq<V>>> {
      Inputs(repo, current, sets, path)
    }

    /** The common ancestor a path is merged over: the least stale base's file, or the epoch's when there is none. */
    function Ancestor(path: Path): Option<seq<V>> {
      if path in repo.tree(oldest) then Some(repo.tree(oldest)[path]) else Epoch(path)
    }

    /** The epoch changed the path since some stale base. */
    ghost predicate ChangedSince(path: Path) {
      exists b :: b in Bases() && Differs(repo.tree(b), repo.tree(current), path)
    }
  }

  /** A finished run over line-wise diff3 with no AST and at least one stale workspace. */
  ghost predicate StaleRun<V(!new), A, E>(run: Run<V, A, E>) {
    && IsRun(run.repo, run.current, run.sets, run.partition, run.base)
    && Least(run.Bases(), run.oldest)
    && LineWise(run.tools)
    && ResolveAll(run.partition, run.base, AstResolver(run.tools, NoAst())) == Ok(run.result)
  }

  /** `out` has `edited` wherever it differs from `from`. */
  ghost predicate KeepsEdits<V>(from: seq<V>, edited: seq<V>, out: seq<V>) {
    && |from| == |edited| == |out|
    && forall l :: 0 <= l < |from| && edited[l] != from[l] ==> out[l] == edited[l]
  }

  ghost predicate EditsKept<V>(from: seq<V>, e: Entry<seq<V>>, out: seq<V>) {
    !e.kind.Deleted? && e.content.Some? && KeepsEdits(from, e.content.value, out)
  }

  /** Every file among `entries` has as many lines as `base`, and equal blobs have equal content. */
  ghost predicate AlignedWith<V(!new)>(base: seq<V>, entries: seq<Entry<seq<V>>>) {
    && (forall e :: e in entries && e.content.Some? ==> |e.content.value| == |base|)
    && (forall e, f :: e in entries && f in entries && e.blob.Some? && e.blob == f.blob ==> e.content == f.content)
  }

  lemma {:induction false} LiveWhenResolved<C(!new), A, E>(tools: Tools<C, A, E>, path: Path, entries: seq<Entry<C>>,
        base: Option<C>)
    requires var r := WithAst(tools, None, path, entries, base); r.Ok? && r.value.Resolved? && r.value.change.UpsertPath?
    ensures Live(entries)
  {
    if !Live(entries) { DeadSettles(entries, base); }
  }

  /** Every line of `out` that is not the ancestor's is some entry's. */
  ghost predicate FromEntries<V(!new)>(base: seq<V>, entries: seq<Entry<seq<V>>>, out: seq<V>) {
    |out| == |base| && forall l :: 0 <= l < |base| && out[l] != base[l] ==> WrittenBy(entries, l, out[l])
  }

  ghost predicate WrittenBy<V(!new)>(entries: seq<Entry<seq<V>>>, l: nat, v: V) {
    exists e :: e in entries && e.content.Some? && l < |e.content.value| && e.content.value[l] == v
  }

  /** Whatever the shared entries resolve to keeps the edits of each of them over the ancestor, and adds none. */
  lemma {:induction false} SharedKeepsEdits<V(!new), A, E>(tools: Tools<seq<V>, A, E>, path: Path,
        entries: seq<Entry<seq<V>>>, base: seq<V>, out: seq<V>)
    requires LineWise(tools) && AlignedWith(base, entries)
    requires WithAst(tools, None, path, entries, Some(base)) == Ok(Resolved(UpsertPath(path, out)))
    ensures forall e :: e in entries ==> EditsKept(base, e, out)
    ensures FromEntries(base, entries, out)
  {
    LiveWhenResolved(tools, path, entries, Some(base));
    LineOutcome(tools, path, entries, base);
    forall e | e in entries ensures EditsKept(base, e, out) {
      var i :| 0 <= i < |entries| && entries[i] == e;
      assert Values(entries)[i] in Values(entries);
    }
    forall l | 0 <= l < |base| && out[l] != base[l] ensures WrittenBy(entries, l, out[l]) {
      var v :| v in Values(entries) && v[l] == out[l];
      var i :| 0 <= i < |entries| && Values(entries)[i] == v;
      assert entries[i] in entries;
    }
  }

  // ----- the source of a resolved change

  /** Content that came from the only input, or from merging all of them. */
  ghost predicate ResolvedBy<C(!new), A, E>(tools: Tools<C, A, E>, path: Path, inputs: seq<Entry<C>>, base: Option<C>, out: C) {
    || (|inputs| == 1 && inputs[0].content == Some(out) && !inputs[0].kind.Deleted?)
    || exists entries :: multiset(entries) == multiset(inputs)
                      && WithAst(tools, None, path, entries, base) == Ok(Resolved(UpsertPath(path, out)))
  }

  lemma {:induction false} UniqueResolved<C(!new), A, E>(partition: Partition<C>, base: map<Path, C>, skip: set<Path>,
        inputs: seq<Entry<C>>, path: Path, out: C)
    requires HoldsInputs(partition, path, inputs)
    requires FromUnique<C, A>(partition.unique, base, skip, Resolved(UpsertPath(path, out)))
    ensures |inputs| == 1 && inputs[0].content == Some(out) && !inputs[0].kind.Deleted?
  {
    var i :| 0 <= i < |partition.unique|
          && SharedOutcome<C, A>.Resolved(UpsertPath(path, out)) == UniqueOutcome(partition.unique[i].0, partition.unique[i].1, base);
  }

  lemma {:induction false} SharedResolved<C(!new), A, E>(partition: Partition<C>, base: map<Path, C>, skip: set<Path>,
        tools: Tools<C, A, E>,
        ast: Path -> Option<AstEngine<C, A>>, inputs: seq<Entry<C>>, o: SharedOutcome<C, A>)
    returns (entries: seq<Entry<C>>)
    requires HoldsInputs(partition, PathOf(o), inputs)
    requires FromShared(partition.shared, base, skip, AstResolver(tools, ast), o)
    ensures |inputs| >= 2 && multiset(entries) == multiset(inputs)
    ensures WithAst(tools, ast(PathOf(o)), PathOf(o), entries, BaseOf(base, PathOf(o))) == Ok(o)
  {
    var i :| 0 <= i < |partition.shared|
          && Ok(o) == AstResolver(tools, ast)(partition.shared[i].0, partition.shared[i].1, BaseOf(base, partition.shared[i].0));
    var path := partition.shared[i].0;
    entries := partition.shared[i].1;
    AstKeepsPath(tools, ast(path), path, entries, BaseOf(base, path));
  }

  lemma {:induction false} WhoResolved<V(!new), A, E>(run: Run<V, A, E>, path: Path, out: seq<V>)
    requires StaleRun(run) && UpsertPath(path, out) in run.result.resolved
    ensures path in Touched(run.sets) && ResolvedBy(run.tools, path, run.MergedAt(path), run.Ancestor(path), out)
  {
    RunAt(run.repo, run.current, run.sets, run.partition, run.base, run.oldest, path);
    var skip, o := SkipSet(run.partition.dfClashes), SharedOutcome<seq<V>, A>.Resolved(UpsertPath(path, out));
    ResolvedComesFrom(run.partition, run.base, AstResolver<seq<V>, A, E>(run.tools, NoAst()), o.change);
    if FromUnique(run.partition.unique, run.base, skip, o) {
      UniqueResolved<seq<V>, A, E>(run.partition, run.base, skip, run.MergedAt(path), path, out);
    } else {
      var entries := SharedResolved(run.partition, run.base, skip, run.tools, NoAst(), run.MergedAt(path), o);
    }
  }

  // ----- no lost update

  lemma {:induction false} ResolvedKeepsEdits<V(!new), A, E>(tools: Tools<seq<V>, A, E>, path: Path,
        inputs: seq<Entry<seq<V>>>, base: seq<V>, out: seq<V>)
    requires LineWise(tools) && AlignedWith(base, inputs) && ResolvedBy(tools, path, inputs, Some(base), out)
    ensures forall e :: e in inputs ==> EditsKept(base, e, out)
    ensures FromEntries(base, inputs, out)
  {
    if |inputs| == 1 && inputs[0].content == Some(out) && !inputs[0].kind.Deleted? {
      assert inputs[0] in inputs;
    } else {
      var entries :| multiset(entries) == multiset(inputs)
                  && WithAst(tools, None, path, entries, Some(base)) == Ok(Resolved(UpsertPath(path, out)));
      SameMembers(entries, inputs);
      SharedKeepsEdits(tools, path, entries, base, out);
      forall l | 0 <= l < |base| && out[l] != base[l] ensures WrittenBy(inputs, l, out[l]) {
        assert WrittenBy(entries, l, out[l]);
      }
    }
  }

  /** The merged entries are the workspaces' and, on a path the epoch changed since some stale base, the epoch's. */
  lemma {:induction false} MergedEntries<V(!new), A, E>(run: Run<V, A, E>, path: Path)
    requires Least(run.Bases(), run.oldest) && path in Touched(run.sets)
    ensures run.Entries(path) != []
    ensures run.MergedAt(path)
         == if run.ChangedSince(path) then run.Entries(path) + [DeltaEntry(run.repo.tree(run.current), path)] else run.Entries(path)
    ensures !run.ChangedSince(path) ==> BaseOf(run.repo.tree(run.oldest), path) == run.Epoch(path)
  {
    EntriesTouch(run.sets, path);
    ContendedOver(run.repo, run.current, run.sets, run.oldest, path);
  }

  /**
   * A path with a common ancestor that resolves to content still exists at the epoch. Over that ancestor the result keeps
   * the edits of the epoch and of every workspace, and has no other line.
   */
  lemma {:induction false} ResultOverAncestor<V(!new), A, E>(run: Run<V, A, E>, path: Path, out: seq<V>)
    requires StaleRun(run) && UpsertPath(path, out) in run.result.resolved
    requires run.Ancestor(path).Some? && AlignedWith(run.Ancestor(path).value, run.MergedAt(path))
    ensures path in Touched(run.sets) && run.Epoch(path).Some?
    ensures KeepsEdits(run.Ancestor(path).value, run.Epoch(path).value, out)
    ensures forall e :: e in run.Entries(path) ==> EditsKept(run.Ancestor(path).value, e, out)
    ensures FromEntries(run.Ancestor(path).value, run.MergedAt(path), out)
  {
    WhoResolved(run, path, out);
    EverySideKept(run, path, out);
  }

  lemma {:induction false} EverySideKept<V(!new), A, E>(run: Run<V, A, E>, path: Path, out: seq<V>)
    requires Least(run.Bases(), run.oldest) && LineWise(run.tools) && path in Touched(run.sets)
    requires run.Ancestor(path).Some? && AlignedWith(run.Ancestor(path).value, run.MergedAt(path))
    requires ResolvedBy(run.tools, path, run.MergedAt(path), run.Ancestor(path), out)
    ensures run.Epoch(path).Some? && KeepsEdits(run.Ancestor(path).value, run.Epoch(path).value, out)
    ensures forall e :: e in run.Entries(path) ==> EditsKept(run.Ancestor(path).value, e, out)
    ensures FromEntries(run.Ancestor(path).value, run.MergedAt(path), out)
  {
    var ancestor := run.Ancestor(path).value;
    ResolvedKeepsEdits(run.tools, path, run.MergedAt(path), ancestor, out);
    MergedEntries(run, path);
    if run.ChangedSince(path) {
      assert DeltaEntry(run.repo.tree(run.current), path) in run.MergedAt(path);
    } else {
      assert EditsKept(ancestor, run.Entries(path)[0], out);
    }
  }

  ghost predicate NobodyEdits<V(!new)>(base: seq<V>, entries: seq<Entry<seq<V>>>, l: nat) {
    forall e :: e in entries && e.content.Some? && l < |e.content.value| && l < |base| ==> e.content.value[l] == base[l]
  }

  /**
   * Exactly when a line of the current epoch survives, with any number of stale bases: the epoch changed it since the
   * least stale base, or no workspace's file differs from that base on it. So a line that the epoch changed since the base
   * of one workspace, but not since the least one, is reverted by that workspace's unedited line.
   */
  lemma {:induction false} EpochLineSurvivesIff<V(!new), A, E>(run: Run<V, A, E>, path: Path, out: seq<V>)
    requires StaleRun(run) && UpsertPath(path, out) in run.result.resolved
    requires run.Ancestor(path).Some? && AlignedWith(run.Ancestor(path).value, run.MergedAt(path))
    ensures run.Epoch(path).Some? && |run.Epoch(path).value| == |run.Ancestor(path).value| == |out|
    ensures forall l :: 0 <= l < |out| ==>
              (out[l] == run.Epoch(path).value[l]
               <==> || run.Epoch(path).value[l] != run.Ancestor(path).value[l]
                    || NobodyEdits(run.Ancestor(path).value, run.Entries(path), l))
  {
    ResultOverAncestor(run, path, out);
    MergedEntries(run, path);
    SurvivesIff(run.Ancestor(path).value, run.Epoch(path).value, run.Entries(path), run.MergedAt(path), out);
  }

  lemma {:induction false} SurvivesIff<V(!new)>(base: seq<V>, epoch: seq<V>, entries: seq<Entry<seq<V>>>,
        merged: seq<Entry<seq<V>>>, out: seq<V>)
    requires KeepsEdits(base, epoch, out) && FromEntries(base, merged, out)
    requires forall e :: e in entries ==> EditsKept(base, e, out)
    requires forall e :: e in merged ==> e in entries || e.content == Some(epoch)
    ensures forall l :: 0 <= l < |out| ==> (out[l] == epoch[l] <==> epoch[l] != base[l] || NobodyEdits(base, entries, l))
  {
    forall l | 0 <= l < |out| && epoch[l] == base[l] ensures out[l] == epoch[l] <==> NobodyEdits(base, entries, l) {
      if out[l] != epoch[l] {
        assert WrittenBy(merged, l, out[l]);
        var e :| e in merged && e.content.Some? && l < |e.content.value| && e.content.value[l] == out[l];
        assert e in entries;
      }
    }
  }

  /**
   * A line that a workspace wrote differently from the current epoch survives exactly when it also differs from the
   * ancestor. So a workspace that is up to date, and puts a line back to what the ancestor had, loses that edit.
   */
  lemma {:induction false} EditSurvivesIff<V(!new), A, E>(run: Run<V, A, E>, path: Path, out: seq<V>)
    requires StaleRun(run) && UpsertPath(path, out) in run.result.resolved
    requires run.Ancestor(path).Some? && AlignedWith(run.Ancestor(path).value, run.MergedAt(path))
    ensures run.Epoch(path).Some? && |run.Epoch(path).value| == |run.Ancestor(path).value| == |out|
    ensures forall e :: e in run.Entries(path) ==> e.content.Some? && |e.content.value| == |out|
    ensures forall e, l :: e in run.Entries(path) && 0 <= l < |out| && e.content.value[l] != run.Epoch(path).value[l] ==>
              (out[l] == e.content.value[l] <==> e.content.value[l] != run.Ancestor(path).value[l])
  {
    ResultOverAncestor(run, path, out);
  }

  /**
   * With one stale base nothing is lost: a path of that base that resolves to content still exists at the epoch, holds the
   * epoch's value on every line changed since that base, and holds every workspace's own edits over that base.
   */
  lemma {:induction false} StaleWorkspaceLosesNothing<V(!new), A, E>(run: Run<V, A, E>, stale: EpochId, path: Path, out: seq<V>)
    requires StaleRun(run) && UpsertPath(path, out) in run.result.resolved && run.Bases() == {stale}
    requires path in run.repo.tree(stale) && AlignedWith(run.repo.tree(stale)[path], run.MergedAt(path))
    ensures path in run.repo.tree(run.current) && KeepsEdits(run.repo.tree(stale)[path], run.repo.tree(run.current)[path], out)
    ensures forall e :: e in run.Entries(path) ==> EditsKept(run.repo.tree(stale)[path], e, out)
  {
    assert run.oldest == stale;
    ResultOverAncestor(run, path, out);
  }

  // ----- what every run reports for a shared path

  lemma {:induction false} ReportsShared<C(!new), A, E>(partition: Partition<C>, base: map<Path, C>, tools: Tools<C, A, E>,
        ast: Path -> Option<AstEngine<C, A>>, r: ResolveResult<C, A>, path: Path, inputs: seq<Entry<C>>)
    returns (entries: seq<Entry<C>>)
    requires ResolveAll(partition, base, AstResolver(tools, ast)) == Ok(r)
    requires HoldsInputs(partition, path, inputs) && |inputs| >= 2 && path !in SkipSet(partition.dfClashes)
    ensures multiset(entries) == multiset(inputs)
    ensures var w := WithAst(tools, ast(path), path, entries, BaseOf(base, path));
            w.Ok? ==> if w.value.Resolved? then w.value.change in r.resolved else w.value.record in r.conflicts
  {
    assert path !in Keys(partition.unique);
    var i :| 0 <= i < |partition.shared| && Keys(partition.shared)[i] == path;
    entries := partition.shared[i].1;
    var w := WithAst(tools, ast(path), path, entries, BaseOf(base, path));
    if w.Ok? {
      assert FromShared(partition.shared, base, SkipSet(partition.dfClashes), AstResolver(tools, ast), w.value);
      if w.value.Resolved? {
        ResolvedComesFrom(partition, base, AstResolver(tools, ast), w.value.change);
      } else {
        ConflictIsReported(partition, base, AstResolver(tools, ast), w.value.record);
      }
    }
  }

  ghost predicate AllNamed<C(!new), A>(entries: seq<Entry<C>>, record: ConflictRecord<C, A>) {
    forall e :: e in entries ==> Side(e.ws, e.kind, e.content) in record.sides
  }

  lemma {:induction false} MixedIsModifyDelete<C(!new), A, E>(tools: Tools<C, A, E>, path: Path,
        entries: seq<Entry<C>>, base: Option<C>, gone: Entry<C>, kept: Entry<C>)
    requires gone in entries && gone.kind.Deleted? && kept in entries && !kept.kind.Deleted?
    ensures WithAst(tools, None, path, entries, base) == Ok(Conflicted(Record(path, entries, base, ModifyDelete, [])))
    ensures AllNamed(entries, Record<C, A>(path, entries, base, ModifyDelete, []))
  {
    var i :| 0 <= i < |entries| && entries[i] == gone;
    var j :| 0 <= j < |entries| && entries[j] == kept;
    assert Kinds(entries)[i].Deleted? && !Kinds(entries)[j].Deleted?;
    var sides := Record<C, A>(path, entries, base, ModifyDelete, []).sides;
    forall e | e in entries ensures Side(e.ws, e.kind, e.content) in sides {
      var k :| 0 <= k < |entries| && entries[k] == e;
      assert sides[k] == Side(e.ws, e.kind, e.content);
    }
  }

  /** A path with two inputs is merged over its ancestor, and the outcome is in the output. */
  lemma {:induction false} RunReports<V(!new), A, E>(run: Run<V, A, E>, path: Path) returns (entries: seq<Entry<seq<V>>>)
    requires StaleRun(run) && path !in SkipSet(run.partition.dfClashes) && |run.MergedAt(path)| >= 2
    ensures multiset(entries) == multiset(run.MergedAt(path))
    ensures var w := WithAst(run.tools, None, path, entries, run.Ancestor(path));
            w.Ok? ==> if w.value.Resolved? then w.value.change in run.result.resolved else w.value.record in run.result.conflicts
  {
    RunAt(run.repo, run.current, run.sets, run.partition, run.base, run.oldest, path);
    entries := ReportsShared(run.partition, run.base, run.tools, NoAst(), run.result, path, run.MergedAt(path));
  }

  /** On a path that the epoch changed since some stale base, the epoch is merged besides the workspaces. */
  lemma {:induction false} TwoInputs<V(!new), A, E>(run: Run<V, A, E>, path: Path)
    requires Least(run.Bases(), run.oldest) && run.Entries(path) != [] && run.ChangedSince(path)
    ensures run.MergedAt(path) == run.Entries(path) + [DeltaEntry(run.repo.tree(run.current), path)]
    ensures |run.MergedAt(path)| >= 2
  {
    EntriesTouch(run.sets, path);
    MergedEntries(run, path);
  }

  /**
   * A path that the epoch deleted since some stale base, and that some workspace did not delete, is always reported as a
   * modify/delete conflict with the epoch and every workspace that touched it as sides.
   */
  lemma {:induction false} EpochDeletionConflicts<V(!new), A, E>(run: Run<V, A, E>, b: EpochId, path: Path, kept: Entry<seq<V>>)
    returns (record: ConflictRecord<seq<V>, A>)
    requires StaleRun(run) && path !in SkipSet(run.partition.dfClashes)
    requires b in run.Bases() && path in run.repo.tree(b) && path !in run.repo.tree(run.current)
    requires kept in run.Entries(path) && !kept.kind.Deleted?
    ensures record in run.result.conflicts && record.path == path && record.reason == ModifyDelete
    ensures record.base == run.Ancestor(path)
    ensures Side(EPOCH_DELTA, Deleted, None) in record.sides && AllNamed(run.Entries(path), record)
  {
    assert Differs(run.repo.tree(b), run.repo.tree(run.current), path);
    TwoInputs(run, path);
    var entries := RunReports(run, path);
    MixedOutcome(run, path, entries, DeltaEntry(run.repo.tree(run.current), path), kept);
    record := Record(path, entries, run.Ancestor(path), ModifyDelete, []);
  }

  lemma {:induction false} OneMoreEntry<C(!new)>(all: seq<Entry<C>>, some: seq<Entry<C>>, last: Entry<C>)
    requires multiset(all) == multiset(some + [last])
    ensures last in all && forall i :: 0 <= i < |some| ==> some[i] in all
  {
    SameMembers(all, some + [last]);
    forall i | 0 <= i < |some| ensures some[i] in all { assert (some + [last])[i] == some[i]; }
  }

  /** The epoch's entry and the workspaces' ones, of which one is a deletion and one is not. */
  lemma {:induction false} MixedOutcome<V(!new), A, E>(run: Run<V, A, E>, path: Path, entries: seq<Entry<seq<V>>>,
        gone: Entry<seq<V>>, kept: Entry<seq<V>>)
    requires var delta := DeltaEntry(run.repo.tree(run.current), path);
             && multiset(entries) == multiset(run.Entries(path) + [delta])
             && (gone == delta || gone in run.Entries(path)) && (kept == delta || kept in run.Entries(path))
    requires gone.kind.Deleted? && !kept.kind.Deleted?
    ensures var record := Record<seq<V>, A>(path, entries, run.Ancestor(path), ModifyDelete, []);
            var delta := DeltaEntry(run.repo.tree(run.current), path);
            && WithAst(run.tools, None, path, entries, run.Ancestor(path)) == Ok(Conflicted(record))
            && Side(delta.ws, delta.kind, delta.content) in record.sides && AllNamed(run.Entries(path), record)
  {
    var delta := DeltaEntry(run.repo.tree(run.current), path);
    OneMoreEntry(entries, run.Entries(path), delta);
    assert gone in entries && kept in entries;
    MixedIsModifyDelete(run.tools, path, entries, run.Ancestor(path), gone, kept);
    var record := Record<seq<V>, A>(path, entries, run.Ancestor(path), ModifyDelete, []);
    assert AllNamed(entries, record);
    assert Side(delta.ws, delta.kind, delta.content) in record.sides;
    forall e | e in run.Entries(path) ensures Side(e.ws, e.kind, e.content) in record.sides {
      assert e in entries;
    }
  }

  // ----- the outcome of a path in closed form

  lemma {:induction false} SameMerge<V(!new)>(base: seq<V>, vs: seq<seq<V>>, ws: seq<seq<V>>, out: Option<seq<V>>)
    requires Aligned(base, vs) && (forall v :: v in vs <==> v in ws) && IsLineMerge(base, vs, out)
    ensures Aligned(base, ws) && IsLineMerge(base, ws, out)
  {
  }

  lemma {:induction false} ValuesMembers<C(!new)>(entries: seq<Entry<C>>, v: C)
    requires AllHaveContent(entries)
    ensures v in Values(entries) <==> exists e :: e in entries && e.content == Some(v)
  {
    if v in Values(entries) {
      var i :| 0 <= i < |entries| && Values(entries)[i] == v;
      assert entries[i] in entries;
    }
    if e :| e in entries && e.content == Some(v) {
      var i :| 0 <= i < |entries| && entries[i] == e;
      assert Values(entries)[i] == v;
    }
  }

  lemma {:induction false} SameValues<C(!new)>(a: seq<Entry<C>>, b: seq<Entry<C>>)
    requires AllHaveContent(a) && AllHaveContent(b) && multiset(a) == multiset(b)
    ensures forall v :: v in Values(a) <==> v in Values(b)
  {
    SameMembers(a, b);
    forall v ensures v in Values(a) <==> v in Values(b) {
      ValuesMembers(a, v);
      ValuesMembers(b, v);
    }
  }

  ghost predicate LiveAligned<V(!new)>(base: seq<V>, entries: seq<Entry<seq<V>>>) {
    Live(entries) && Aligned(base, Values(entries)) && BlobsFaithful(entries)
  }

  lemma {:induction false} PermutedIsLive<V(!new)>(base: seq<V>, a: seq<Entry<seq<V>>>, b: seq<Entry<seq<V>>>)
    requires LiveAligned(base, a) && multiset(a) == multiset(b)
    ensures LiveAligned(base, b)
  {
    SameMembers(a, b);
    forall i | 0 <= i < |b| ensures !b[i].kind.Deleted? && b[i].content.Some? {
      assert b[i] in a;
    }
    SameValues(a, b);
    forall i, j | 0 <= i < |b| && 0 <= j < |b| && b[i].blob.Some? && b[i].blob == b[j].blob ensures b[i].content == b[j].content {
      assert b[i] in a && b[j] in a;
      var k :| 0 <= k < |a| && a[k] == b[i];
      var m :| 0 <= m < |a| && a[m] == b[j];
    }
  }

  lemma {:induction false} PermutedOutcome<V(!new), A, E>(tools: Tools<seq<V>, A, E>, path: Path,
        entries: seq<Entry<seq<V>>>, base: seq<V>,
        inputs: seq<Entry<seq<V>>>)
    requires LineWise(tools) && LiveAligned(base, inputs) && multiset(entries) == multiset(inputs)
    ensures var w := WithAst(tools, None, path, entries, Some(base));
            && w.Ok?
            && (w.value.Conflicted? ==> w.value.record.reason == Diff3Conflict && w.value.record.path == path)
            && (w.value.Resolved? ==> w.value.change.UpsertPath? && w.value.change.path == path)
            && IsLineMerge(base, Values(inputs), if w.value.Resolved? then Some(w.value.change.content) else None)
  {
    PermutedIsLive(base, inputs, entries);
    LineOutcome(tools, path, entries, base);
    var w := WithAst(tools, None, path, entries, Some(base));
    SameValues(entries, inputs);
    SameMerge(base, Values(entries), Values(inputs), if w.value.Resolved? then Some(w.value.change.content) else None);
  }

  ghost predicate Reported<V(!new), A>(r: ResolveResult<seq<V>, A>, path: Path, out: Option<seq<V>>) {
    if out.Some? then UpsertPath(path, out.value) in r.resolved
    else exists record :: record in r.conflicts && record.path == path && record.reason == Diff3Conflict
  }

  /** With two live inputs: a diff3 conflict exactly when two of them clash over the ancestor, otherwise their join. */
  lemma {:induction false} RunClosedForm<V(!new), A, E>(run: Run<V, A, E>, path: Path, ancestor: seq<V>) returns (out: Option<seq<V>>)
    requires StaleRun(run) && path !in SkipSet(run.partition.dfClashes)
    requires run.Ancestor(path) == Some(ancestor) && |run.MergedAt(path)| >= 2 && LiveAligned(ancestor, run.MergedAt(path))
    ensures Reported(run.result, path, out) && IsLineMerge(ancestor, Values(run.MergedAt(path)), out)
  {
    var entries := RunReports(run, path);
    PermutedOutcome(run.tools, path, entries, ancestor, run.MergedAt(path));
    var w := WithAst(run.tools, None, path, entries, Some(ancestor));
    out := if w.value.Resolved? then Some(w.value.change.content) else None;
  }

  // ----- a path that appeared since the least stale base

  /** A conflict of a path some of whose entries are deleted or lack content. */
  ghost predicate ReportedDead<V(!new), A>(result: ResolveResult<seq<V>, A>, path: Path, entries: seq<Entry<seq<V>>>) {
    exists record ::
      && record in result.conflicts && record.path == path
      && record.reason == if exists e :: e in entries && e.kind.Deleted? then ModifyDelete else MissingContent
  }

  /**
   * The epoch holds a path that the least stale base lacks. The merge does have a base then, the epoch's own file, so this
   * is never an add/add conflict: with every entry live, the epoch's file survives exactly when every workspace wrote that
   * same file, and a single workspace always overwrites it; an entry that deletes it or lacks content is a conflict.
   */
  lemma {:induction false} AddedSinceSurvivesIff<V(!new), A, E>(run: Run<V, A, E>, path: Path) returns (out: Option<seq<V>>)
    requires StaleRun(run) && path !in SkipSet(run.partition.dfClashes)
    requires path !in run.repo.tree(run.oldest) && path in run.repo.tree(run.current) && run.Entries(path) != []
    requires Live(run.Entries(path)) ==> LiveAligned(run.repo.tree(run.current)[path], run.Entries(path))
    ensures !Live(run.Entries(path)) ==> ReportedDead(run.result, path, run.Entries(path))
    ensures Live(run.Entries(path)) ==>
              var epoch, written := run.repo.tree(run.current)[path], Values(run.Entries(path));
              && Reported(run.result, path, out)
              && (out.None? <==> Clash(epoch, written))
              && (out.Some? ==> (out.value == epoch <==> forall w :: w in written ==> w == epoch))
              && (|written| == 1 ==> out == Some(written[0]))
  {
    var epoch := run.repo.tree(run.current)[path];
    assert Differs(run.repo.tree(run.oldest), run.repo.tree(run.current), path);
    TwoInputs(run, path);
    if Live(run.Entries(path)) {
      WithEpoch(epoch, run.Entries(path), DeltaEntry(run.repo.tree(run.current), path));
      out := RunClosedForm(run, path, epoch);
      MergedWithItself(epoch, Values(run.Entries(path)), out);
    } else {
      out := None;
      DeadIsReported(run, path);
    }
  }

  /** A single live entry replaces the epoch's file, whatever that holds. */
  lemma {:induction false} LoneWriterOverwrites<V(!new), A, E>(run: Run<V, A, E>, path: Path, written: seq<V>)
    requires StaleRun(run) && path !in SkipSet(run.partition.dfClashes)
    requires path !in run.repo.tree(run.oldest) && path in run.repo.tree(run.current) && |run.Entries(path)| == 1
    requires LiveAligned(run.repo.tree(run.current)[path], run.Entries(path)) && Values(run.Entries(path)) == [written]
    ensures UpsertPath(path, written) in run.result.resolved
  {
    var out := AddedSinceSurvivesIff(run, path);
  }

  lemma {:induction false} DeadIsReported<V(!new), A, E>(run: Run<V, A, E>, path: Path)
    requires StaleRun(run) && path !in SkipSet(run.partition.dfClashes)
    requires path in run.repo.tree(run.current) && run.Entries(path) != [] && !Live(run.Entries(path)) && run.ChangedSince(path)
    ensures ReportedDead(run.result, path, run.Entries(path))
  {
    TwoInputs(run, path);
    var entries := RunReports(run, path);
    DeadOutcome(run.tools, path, run.Entries(path), DeltaEntry(run.repo.tree(run.current), path), entries, run.Ancestor(path));
  }

  lemma {:induction false} DeadOutcome<C(!new), A, E>(tools: Tools<C, A, E>, path: Path, written: seq<Entry<C>>,
        delta: Entry<C>, entries: seq<Entry<C>>, base: Option<C>)
    requires multiset(entries) == multiset(written + [delta]) && !delta.kind.Deleted? && delta.content.Some?
    requires written != [] && !Live(written)
    ensures var reason := if exists e :: e in written && e.kind.Deleted? then ModifyDelete else MissingContent;
            WithAst(tools, None, path, entries, base) == Ok(Conflicted(Record(path, entries, base, reason, [])))
  {
    OneMoreEntry(entries, written, delta);
    SameMembers(entries, written + [delta]);
    var d :| 0 <= d < |entries| && entries[d] == delta;
    assert !Kinds(entries)[d].Deleted?;
    if e :| e in written && e.kind.Deleted? {
      MixedIsModifyDelete(tools, path, entries, base, e, delta);
    } else {
      var i :| 0 <= i < |written| && written[i].content.None?;
      var j :| 0 <= j < |entries| && entries[j] == written[i];
      forall k | 0 <= k < |entries| ensures !Kinds(entries)[k].Deleted? {
        assert entries[k] in written + [delta];
      }
    }
  }

  lemma {:induction false} WithEpoch<V(!new)>(epoch: seq<V>, written: seq<Entry<seq<V>>>, delta: Entry<seq<V>>)
    requires LiveAligned(epoch, written) && delta.content == Some(epoch) && !delta.kind.Deleted? && delta.blob.None?
    ensures LiveAligned(epoch, written + [delta]) && Values(written + [delta]) == Values(written) + [epoch]
  {
    assert Values(written + [delta]) == Values(written) + [epoch];
  }

  lemma {:induction false} MergedWithItself<V(!new)>(epoch: seq<V>, written: seq<seq<V>>, out: Option<seq<V>>)
    requires Aligned(epoch, written) && written != [] && Aligned(epoch, written + [epoch]) && IsLineMerge(epoch, written + [epoch], out)
    ensures out.None? <==> Clash(epoch, written)
    ensures out.Some? ==> (out.value == epoch <==> forall w :: w in written ==> w == epoch)
    ensures |written| == 1 ==> out == Some(written[0])
  {
    var all := written + [epoch];
    if |written| == 1 {
      assert written == [written[0]];
      AloneOverItself(epoch, written[0], out);
    }
    assert forall v :: v in all <==> v in written || v == epoch;
    if Clash(epoch, all) {
      var u, v, l :| u in all && v in all && 0 <= l < |epoch| && Apart(epoch[l], u[l], v[l]);
      assert u in written && v in written;
    } else {
      if out.value == epoch {
        forall w | w in written ensures w == epoch {
          assert forall l :: 0 <= l < |epoch| ==> w[l] == epoch[l];
        }
      }
    }
  }

  lemma {:induction false} AloneOverItself<V(!new)>(epoch: seq<V>, w: seq<V>, out: Option<seq<V>>)
    requires |w| == |epoch| && IsLineMerge(epoch, [w] + [epoch], out)
    ensures out == Some(w)
  {
    var all := [w] + [epoch];
    assert w in all && forall v :: v in all <==> v == w || v == epoch;
    if Clash(epoch, all) {
      assert false;
    } else {
      assert out.value == w;
    }
  }

  // ----- runs over line-wise diff3 never fail

  lemma {:induction false} FoldNeverFails<V(!new), A, E>(tools: Tools<seq<V>, A, E>, base: seq<V>, merged: seq<V>,
        variants: seq<seq<V>>, i: nat)
    requires LineWise(tools) && i <= |variants|
    ensures !FoldFrom(tools, base, merged, variants, i).Failed?
    decreases |variants| - i
  {
    if i < |variants| {
      if merged == variants[i] {
        FoldNeverFails(tools, base, merged, variants, i + 1);
      } else if tools.diff3(base, merged, variants[i]).value.CleanMerge? {
        FoldNeverFails(tools, base, tools.diff3(base, merged, variants[i]).value.merged, variants, i + 1);
      }
    }
  }

  lemma {:induction false} PathNeverFails<V(!new), A, E>(tools: Tools<seq<V>, A, E>, path: Path, entries: seq<Entry<seq<V>>>,
        base: Option<seq<V>>)
    requires LineWise(tools)
    ensures WithAst(tools, None, path, entries, base).Ok?
  {
    if AllHaveContent(entries) && entries != [] && base.Some? {
      FoldNeverFails(tools, base.value, Values(entries)[0], Values(entries), 1);
    }
  }

  lemma {:induction false} SharedNeverFail<V(!new), A, E>(tools: Tools<seq<V>, A, E>, shared: seq<(Path, seq<Entry<seq<V>>>)>,
        base: map<Path, seq<V>>, skip: set<Path>)
    requires LineWise(tools)
    ensures SharedOutcomes(shared, base, skip, AstResolver(tools, NoAst())).Ok?
  {
    if shared != [] {
      var n := |shared| - 1;
      SharedNeverFail(tools, shared[..n], base, skip);
      PathNeverFails(tools, shared[n].0, shared[n].1, BaseOf(base, shared[n].0));
    }
  }

  /** Without AST and over line-wise diff3 every partition resolves, whatever it holds. */
  lemma {:induction false} ResolutionSucceeds<V(!new), A, E>(tools: Tools<seq<V>, A, E>, partition: Partition<seq<V>>,
        base: map<Path, seq<V>>)
    requires LineWise(tools)
    ensures ResolveAll(partition, base, AstResolver(tools, NoAst())).Ok?
  {
    SharedNeverFail(tools, partition.shared, base, SkipSet(partition.dfClashes));
  }
}

/** From one patch set per workspace to unique and shared paths (partition.rs). Clash detection is not part of it. */
module PartitionPaths {
  import opened Prelude
  import opened MergeAlgebra
  import opened SharedPath
  import opened ResolvePartition

  type EpochId = string

  datatype FileChange<+C> = FileChange(path: Path, kind: ChangeKind, content: Option<C>, blob: Option<string>)

  datatype PatchSet<+C> = PatchSet(ws: WorkspaceId, epoch: EpochId, changes: seq<FileChange<C>>)

  // ----- the inverted index

  function ToEntry<C>(ws: WorkspaceId, change: FileChange<C>): Entry<C> {
    Entry(ws, change.kind, change.content, change.blob)
  }

  function EntriesIn<C>(ws: WorkspaceId, changes: seq<FileChange<C>>, path: Path): seq<Entry<C>> {
    if changes == [] then []
    else
      var front, last := EntriesIn(ws, changes[..|changes| - 1], path), changes[|changes| - 1];
      if last.path == path then front + [ToEntry(ws, last)] else front
  }

  /** Every change to `path`, in patch-set order. */
  function EntriesAt<C>(sets: seq<PatchSet<C>>, path: Path): seq<Entry<C>> {
    if sets == [] then []
    else
      var last := sets[|sets| - 1];
      EntriesAt(sets[..|sets| - 1], path) + EntriesIn(last.ws, last.changes, path)
  }

  function EntryWs<C>(e: Entry<C>): WorkspaceId { e.ws }

  /** The partition holds each touched path once, in order, with its changes sorted by workspace. */
  ghost predicate IsPartition<C(!new)>(sets: seq<PatchSet<C>>, unique: seq<(Path, Entry<C>)>, shared: seq<(Path, seq<Entry<C>>)>) {
    && StrictlySorted(Keys(unique)) && StrictlySorted(Keys(shared))
    && Distinct(Keys(unique) + Keys(shared))
    && (forall i :: 0 <= i < |unique| ==> EntriesAt(sets, unique[i].0) == [unique[i].1])
    && (forall i :: 0 <= i < |shared| ==>
          |EntriesAt(sets, shared[i].0)| >= 2 && shared[i].1 == Sort(EntriesAt(sets, shared[i].0), EntryWs, StringLe))
    && (forall p :: EntriesAt(sets, p) != [] ==> p in Keys(unique) || p in Keys(shared))
  }

  function At<C>(index: map<Path, seq<Entry<C>>>, path: Path): seq<Entry<C>> {
    if path in index then index[path] else []
  }

  ghost predicate NoEmptyLists<C>(index: map<Path, seq<Entry<C>>>) {
    forall p :: p in index ==> index[p] != []
  }

  lemma {:induction false} IndexOne<C>(index: map<Path, seq<Entry<C>>>, before: map<Path, seq<Entry<C>>>, ws: WorkspaceId,
        changes: seq<FileChange<C>>, j: nat)
    requires j < |changes| && NoEmptyLists(before) && forall p :: At(before, p) == At(index, p) + EntriesIn(ws, changes[..j], p)
    ensures var path, entry := changes[j].path, ToEntry(ws, changes[j]);
            var after := before[path := At(before, path) + [entry]];
            NoEmptyLists(after) && forall p :: At(after, p) == At(index, p) + EntriesIn(ws, changes[..j + 1], p)
  {
    var path, entry := changes[j].path, ToEntry(ws, changes[j]);
    var after := before[path := At(before, path) + [entry]];
    forall p ensures At(after, p) == At(index, p) + EntriesIn(ws, changes[..j + 1], p) {
      OneMoreIn(ws, changes, j, p);
      Append(At(index, p), EntriesIn(ws, changes[..j], p), entry);
      assert At(after, p) == if p == path then At(before, p) + [entry] else At(before, p);
    }
  }

  lemma {:induction false} Append<T>(a: seq<T>, b: seq<T>, x: T)
    ensures a + (b + [x]) == a + b + [x]
  {
  }

  lemma {:induction false} OneMoreIn<C>(ws: WorkspaceId, changes: seq<FileChange<C>>, j: nat, path: Path)
    requires j < |changes|
    ensures EntriesIn(ws, changes[..j + 1], path)
         == if changes[j].path == path then EntriesIn(ws, changes[..j], path) + [ToEntry(ws, changes[j])]
            else EntriesIn(ws, changes[..j], path)
  {
    assert changes[..j + 1][..j] == changes[..j];
  }

  method IndexChanges<C>(index: map<Path, seq<Entry<C>>>, ws: WorkspaceId, changes: seq<FileChange<C>>)
    returns (index': map<Path, seq<Entry<C>>>)
    requires NoEmptyLists(index)
    ensures NoEmptyLists(index') && forall p :: At(index', p) == At(index, p) + EntriesIn(ws, changes, p)
  {
    index' := index;
    for j := 0 to |changes|
      invariant NoEmptyLists(index') && forall p :: At(index', p) == At(index, p) + EntriesIn(ws, changes[..j], p)
    {
      IndexOne(index, index', ws, changes, j);
      var path, entry := changes[j].path, ToEntry(ws, changes[j]);
      index' := index'[path := At(index', path) + [entry]];
    }
    assert changes[..|changes|] == changes;
  }

  method BuildIndex<C>(sets: seq<PatchSet<C>>) returns (index: map<Path, seq<Entry<C>>>)
    ensures NoEmptyLists(index) && forall p :: At(index, p) == EntriesAt(sets, p)
  {
    index := map[];
    for i := 0 to |sets|
      invariant NoEmptyLists(index) && forall p :: At(index, p) == EntriesAt(sets[..i], p)
    {
      assert sets[..i + 1][..i] == sets[..i];
      index := IndexChanges(index, sets[i].ws, sets[i].changes);
    }
    assert sets[..|sets|] == sets;
  }

  ghost predicate SplitAt<C(!new)>(index: map<Path, seq<Entry<C>>>, paths: seq<Path>,
                                   unique: seq<(Path, Entry<C>)>, shared: seq<(Path, seq<Entry<C>>)>)
  {
    && (forall k :: 0 <= k < |unique| ==> At(index, unique[k].0) == [unique[k].1])
    && (forall k :: 0 <= k < |shared| ==>
          |At(index, shared[k].0)| >= 2 && shared[k].1 == Sort(At(index, shared[k].0), EntryWs, StringLe))
    && (forall p :: p in paths <==> p in Keys(unique) || p in Keys(shared))
    && StrictlySorted(Keys(unique)) && StrictlySorted(Keys(shared))
  }

  method SplitIndex<C(!new)>(index: map<Path, seq<Entry<C>>>, paths: seq<Path>)
    returns (unique: seq<(Path, Entry<C>)>, shared: seq<(Path, seq<Entry<C>>)>)
    requires NoEmptyLists(index) && StrictlySorted(paths) && forall p :: p in paths ==> p in index
    ensures SplitAt(index, paths, unique, shared)
  {
    unique, shared := [], [];
    for i := 0 to |paths|
      invariant SplitAt(index, paths[..i], unique, shared)
    {
      var path, entries := paths[i], index[paths[i]];
      assert paths[..i + 1] == paths[..i] + [path];
      if |entries| == 1 {
        KeysGrow(unique, path, entries[0], paths, i);
        unique := unique + [(path, entries[0])];
      } else {
        KeysGrow(shared, path, Sort(entries, EntryWs, StringLe), paths, i);
        shared := shared + [(path, Sort(entries, EntryWs, StringLe))];
      }
    }
    assert paths[..|paths|] == paths;
  }

  lemma {:induction false} KeysGrow<T>(s: seq<(Path, T)>, path: Path, t: T, paths: seq<Path>, i: nat)
    requires StrictlySorted(paths) && i < |paths| && paths[i] == path
    requires StrictlySorted(Keys(s)) && forall p :: p in Keys(s) ==> p in paths[..i]
    ensures Keys(s + [(path, t)]) == Keys(s) + [path]
    ensures StrictlySorted(Keys(s + [(path, t)]))
  {
    assert Keys(s + [(path, t)]) == Keys(s) + [path];
    forall k | 0 <= k < |s| ensures PathLe(Keys(s)[k], path) && Keys(s)[k] != path {
      assert Keys(s)[k] in paths[..i];
    }
  }

  method PartitionByPath<C(!new)>(sets: seq<PatchSet<C>>)
    returns (unique: seq<(Path, Entry<C>)>, shared: seq<(Path, seq<Entry<C>>)>)
    ensures IsPartition(sets, unique, shared)
  {
    var index := BuildIndex(sets);
    PathOrder();
    var paths := Ordered(index.Keys, PathLe);
    unique, shared := SplitIndex(index, paths);
    KeysApart(index, unique, shared);
    forall p ensures EntriesAt(sets, p) != [] <==> p in index { assert At(index, p) == EntriesAt(sets, p); }
  }

  /** A shared path's entries are its changes, ordered by workspace, and those of one workspace in the order it listed them. */
  lemma {:induction false} SharedByWorkspace<C(!new)>(sets: seq<PatchSet<C>>, unique: seq<(Path, Entry<C>)>,
        shared: seq<(Path, seq<Entry<C>>)>, k: nat)
    requires IsPartition(sets, unique, shared) && k < |shared|
    ensures multiset(shared[k].1) == multiset(EntriesAt(sets, shared[k].0))
    ensures forall i, j :: 0 <= i < j < |shared[k].1| ==> StringLe(shared[k].1[i].ws, shared[k].1[j].ws)
    ensures forall ws :: WithKey(shared[k].1, EntryWs, ws) == WithKey(EntriesAt(sets, shared[k].0), EntryWs, ws)
  {
    StringOrder();
    forall ws ensures WithKey(shared[k].1, EntryWs, ws) == WithKey(EntriesAt(sets, shared[k].0), EntryWs, ws) {
      SortStable(EntriesAt(sets, shared[k].0), EntryWs, StringLe, ws);
    }
    SortSorts(EntriesAt(sets, shared[k].0), EntryWs, StringLe);
  }

  /** The changes to a path are those of every patch set that lists it, each under its own workspace. */
  lemma {:induction false} EntriesExact<C(!new)>(sets: seq<PatchSet<C>>, path: Path, e: Entry<C>)
    ensures e in EntriesAt(sets, path)
            <==> exists i, j :: 0 <= i < |sets| && 0 <= j < |sets[i].changes| && IsChangeAt(sets, i, j, path, e)
  {
    if sets != [] {
      var n := |sets| - 1;
      EntriesExact(sets[..n], path, e);
      ChangesExact(sets[n].ws, sets[n].changes, path, e);
      assert forall i :: 0 <= i < n ==> sets[..n][i] == sets[i];
      if i, j :| 0 <= i < |sets| && 0 <= j < |sets[i].changes| && IsChangeAt(sets, i, j, path, e) {
        assert i < n ==> IsChangeAt(sets[..n], i, j, path, e);
      }
      if i, j :| 0 <= i < n && 0 <= j < |sets[..n][i].changes| && IsChangeAt(sets[..n], i, j, path, e) {
        assert IsChangeAt(sets, i, j, path, e);
      }
      if j :| 0 <= j < |sets[n].changes| && sets[n].changes[j].path == path && IsEntryOf(e, sets[n].ws, sets[n].changes[j]) {
        assert IsChangeAt(sets, n, j, path, e);
      }
    }
  }

  ghost predicate IsEntryOf<C>(e: Entry<C>, ws: WorkspaceId, change: FileChange<C>) {
    e.ws == ws && e.kind == change.kind && e.content == change.content && e.blob == change.blob
  }

  ghost predicate IsChangeAt<C>(sets: seq<PatchSet<C>>, i: nat, j: nat, path: Path, e: Entry<C>) {
    && i < |sets| && j < |sets[i].changes|
    && sets[i].changes[j].path == path && IsEntryOf(e, sets[i].ws, sets[i].changes[j])
  }

  lemma {:induction false} ChangesExact<C(!new)>(ws: WorkspaceId, changes: seq<FileChange<C>>, path: Path, e: Entry<C>)
    ensures e in EntriesIn(ws, changes, path)
            <==> exists j :: 0 <= j < |changes| && changes[j].path == path && IsEntryOf(e, ws, changes[j])
  {
    if changes != [] {
      var n := |changes| - 1;
      ChangesExact(ws, changes[..n], path, e);
      assert changes == changes[..n] + [changes[n]];
      assert forall j :: 0 <= j < n ==> changes[..n][j] == changes[j];
    }
  }

  lemma {:induction false} KeysApart<C>(index: map<Path, seq<Entry<C>>>, unique: seq<(Path, Entry<C>)>,
        shared: seq<(Path, seq<Entry<C>>)>)
    requires forall k :: 0 <= k < |unique| ==> |At(index, unique[k].0)| == 1
    requires forall k :: 0 <= k < |shared| ==> |At(index, shared[k].0)| >= 2
    requires StrictlySorted(Keys(unique)) && StrictlySorted(Keys(shared))
    ensures Distinct(Keys(unique) + Keys(shared))
  {
    var all := Keys(unique) + Keys(shared);
    forall i, j | 0 <= i < j < |all| ensures all[i] != all[j] {
      assert i < |unique| ==> |At(index, all[i])| == 1;
      assert j >= |unique| ==> |At(index, all[j])| >= 2;
    }
  }
}

/** Resolving every path of a partition, and what the output accounts for (resolve.rs). */
module ResolvePartition {
  import opened Prelude
  import opened MergeAlgebra
  import opened SharedPath

  /** A path that is a file on one side and a directory on another. */
  datatype DfClash = DfClash(filePath: Path, fileWs: WorkspaceId, dirChildExample: Path, dirWs: WorkspaceId)

  function Keys<T>(s: seq<(Path, T)>): (r: seq<Path>)
    ensures |r| == |s| && forall i :: 0 <= i < |r| ==> r[i] == s[i].0
  {
    seq(|s|, i requires 0 <= i < |s| => s[i].0)
  }

  datatype Partition<+C> =
    Partition(unique: seq<(Path, Entry<C>)>, shared: seq<(Path, seq<Entry<C>>)>, dfClashes: seq<DfClash>)
  {
    function Paths(): (r: seq<Path>)
      ensures |r| == |unique| + |shared|
    {
      Keys(unique) + Keys(shared)
    }
  }

  datatype ResolveResult<+C, +A> = ResolveResult(resolved: seq<ResolvedChange<C>>, conflicts: seq<ConflictRecord<C, A>>)

  type Resolver<!C, !A, !E> = (Path, seq<Entry<C>>, Option<C>) -> Result<SharedOutcome<C, A>, E>

  function ChangePath<C>(c: ResolvedChange<C>): Path { c.path }

  function RecordPath<C, A>(c: ConflictRecord<C, A>): Path { c.path }

  function ClashFile(c: DfClash): Path { c.filePath }

  function PathOf<C, A>(o: SharedOutcome<C, A>): Path {
    if o.Resolved? then o.change.path else o.record.path
  }

  // ----- directory/file clashes

  /** Every path that takes part in a clash; these are kept away from normal resolution. */
  function ClashPaths(clashes: seq<DfClash>): set<Path> {
    set c | c in clashes :: c.filePath
  }

  function SkipSet(clashes: seq<DfClash>): set<Path> {
    ClashPaths(clashes) + set c | c in clashes :: c.dirChildExample
  }

  /** The first clash of each file path. */
  function FirstByFile(clashes: seq<DfClash>): (r: seq<DfClash>)
    ensures ClashPaths(r) == ClashPaths(clashes)
    ensures forall i, j :: 0 <= i < j < |r| ==> r[i].filePath != r[j].filePath
  {
    if clashes == [] then []
    else
      var n := |clashes| - 1;
      var front := FirstByFile(clashes[..n]);
      assert clashes == clashes[..n] + [clashes[n]];
      assert ClashPaths(clashes) == ClashPaths(clashes[..n]) + {clashes[n].filePath};
      if clashes[n].filePath in ClashPaths(clashes[..n]) then front
      else
        assert forall c :: c in front ==> c.filePath in ClashPaths(front);
        assert ClashPaths(front + [clashes[n]]) == ClashPaths(front) + {clashes[n].filePath};
        front + [clashes[n]]
  }

  function ClashRecord<C, A>(clash: DfClash): ConflictRecord<C, A> {
    ConflictRecord(clash.filePath, None, [Side(clash.fileWs, Added, None), Side(clash.dirWs, Added, None)],
                   FileDirectory(clash.fileWs, clash.dirChildExample), [])
  }

  function ClashRecords<C, A>(clashes: seq<DfClash>): (r: seq<ConflictRecord<C, A>>) {
    Map(ClashRecord, Sort(FirstByFile(clashes), ClashFile, PathLe))
  }

  method EmitDfClashConflicts<C, A>(clashes: seq<DfClash>) returns (conflicts: seq<ConflictRecord<C, A>>)
    ensures conflicts == ClashRecords(clashes)
  {
    var byFile: seq<DfClash> := [];
    var seen: set<Path> := {};
    for i := 0 to |clashes|
      invariant byFile == FirstByFile(clashes[..i]) && seen == ClashPaths(clashes[..i])
    {
      assert clashes[..i + 1][..i] == clashes[..i];
      if clashes[i].filePath !in seen {
        byFile, seen := byFile + [clashes[i]], seen + {clashes[i].filePath};
      }
    }
    assert clashes[..|clashes|] == clashes;
    conflicts := RecordClashes(Sort(byFile, ClashFile, PathLe));
  }

  method RecordClashes<C, A>(ordered: seq<DfClash>) returns (conflicts: seq<ConflictRecord<C, A>>)
    ensures conflicts == Map<DfClash, ConflictRecord<C, A>>(ClashRecord, ordered)
  {
    conflicts := [];
    for i := 0 to |ordered|
      invariant |conflicts| == i && forall k :: 0 <= k < i ==> conflicts[k] == ClashRecord(ordered[k])
    {
      conflicts := conflicts + [ClashRecord(ordered[i])];
    }
  }

  // ----- one outcome per path

  function BaseOf<C>(base: map<Path, C>, path: Path): Option<C> {
    if path in base then Some(base[path]) else None
  }

  function UniqueOutcome<C, A>(path: Path, entry: Entry<C>, base: map<Path, C>): SharedOutcome<C, A> {
    if entry.kind.Deleted? then Resolved(DeletePath(path))
    else if entry.content.Some? then Resolved(UpsertPath(path, entry.content.value))
    else Conflicted(ConflictRecord(path, BaseOf(base, path), [Side(entry.ws, entry.kind, None)], MissingContent, []))
  }

  function UniqueOutcomes<C, A>(unique: seq<(Path, Entry<C>)>, base: map<Path, C>, skip: set<Path>): seq<SharedOutcome<C, A>> {
    if unique == [] then []
    else
      var (path, entry) := unique[|unique| - 1];
      var front := UniqueOutcomes(unique[..|unique| - 1], base, skip);
      if path in skip then front else front + [UniqueOutcome(path, entry, base)]
  }

  function SharedOutcomes<C, A, E>(shared: seq<(Path, seq<Entry<C>>)>, base: map<Path, C>, skip: set<Path>, resolver: Resolver<C, A, E>)
    : Result<seq<SharedOutcome<C, A>>, E>
  {
    if shared == [] then Ok([])
    else
      var (path, entries) := shared[|shared| - 1];
      match SharedOutcomes(shared[..|shared| - 1], base, skip, resolver)
      case Err(e) => Err(e)
      case Ok(outcomes) =>
        if path in skip then Ok(outcomes)
        else match resolver(path, entries, BaseOf(base, path))
             case Err(e) => Err(e)
             case Ok(o) => Ok(outcomes + [o])
  }

  function Changes<C, A>(outcomes: seq<SharedOutcome<C, A>>): seq<ResolvedChange<C>> {
    if outcomes == [] then []
    else
      var front, last := Changes(outcomes[..|outcomes| - 1]), outcomes[|outcomes| - 1];
      if last.Resolved? then front + [last.change] else front
  }

  function Conflicts<C, A>(outcomes: seq<SharedOutcome<C, A>>): seq<ConflictRecord<C, A>> {
    if outcomes == [] then []
    else
      var front, last := Conflicts(outcomes[..|outcomes| - 1]), outcomes[|outcomes| - 1];
      if last.Conflicted? then front + [last.record] else front
  }

  function SortedResult<C, A>(clashes: seq<ConflictRecord<C, A>>, outcomes: seq<SharedOutcome<C, A>>): ResolveResult<C, A> {
    ResolveResult(Sort(Changes(outcomes), ChangePath, PathLe),
                  Sort(clashes + Conflicts(outcomes), RecordPath, PathLe))
  }

  function ResolveAll<C, A, E>(partition: Partition<C>, base: map<Path, C>, resolver: Resolver<C, A, E>)
    : Result<ResolveResult<C, A>, E>
  {
    var skip := SkipSet(partition.dfClashes);
    match SharedOutcomes(partition.shared, base, skip, resolver)
    case Err(e) => Err(e)
    case Ok(outcomes) =>
      Ok(SortedResult(ClashRecords(partition.dfClashes), UniqueOutcomes(partition.unique, base, skip) + outcomes))
  }

  method ResolvePaths<C, A, E>(partition: Partition<C>, base: map<Path, C>, resolver: Resolver<C, A, E>)
    returns (r: Result<ResolveResult<C, A>, E>)
    ensures r == ResolveAll(partition, base, resolver)
  {
    var skip := SkipSet(partition.dfClashes);
    var clashes: seq<ConflictRecord<C, A>> := EmitDfClashConflicts(partition.dfClashes);
    var resolved, conflicts := PassUnique(partition.unique, base, skip, clashes);
    var pushed := PassShared(partition.shared, base, skip, resolver, clashes,
                             UniqueOutcomes(partition.unique, base, skip), resolved, conflicts);
    if pushed.Err? { return Err(pushed.error); }
    resolved := Sort(pushed.value.0, ChangePath, PathLe);
    conflicts := Sort(pushed.value.1, RecordPath, PathLe);
    return Ok(ResolveResult(resolved, conflicts));
  }

  /** Shared paths are resolved one by one onto what is already there, up to the first failure. */
  method PassShared<C, A, E>(shared: seq<(Path, seq<Entry<C>>)>, base: map<Path, C>, skip: set<Path>, resolver: Resolver<C, A, E>,
                             ghost clashes: seq<ConflictRecord<C, A>>, ghost uniques: seq<SharedOutcome<C, A>>,
                             resolved: seq<ResolvedChange<C>>, conflicts: seq<ConflictRecord<C, A>>)
    returns (r: Result<(seq<ResolvedChange<C>>, seq<ConflictRecord<C, A>>), E>)
    requires resolved == Changes(uniques) && conflicts == clashes + Conflicts(uniques)
    ensures var shareds := SharedOutcomes(shared, base, skip, resolver);
            if shareds.Err? then r == Err(shareds.error)
            else r == Ok((Changes(uniques + shareds.value), clashes + Conflicts(uniques + shareds.value)))
  {
    var changes, records := resolved, conflicts;
    ghost var shareds: seq<SharedOutcome<C, A>> := [];
    assert uniques + shareds == uniques;
    for i := 0 to |shared|
      invariant SharedOutcomes(shared[..i], base, skip, resolver) == Ok(shareds)
      invariant changes == Changes(uniques + shareds) && records == clashes + Conflicts(uniques + shareds)
    {
      var (path, entries) := shared[i];
      assert shared[..i + 1][..i] == shared[..i];
      if path !in skip {
        match resolver(path, entries, BaseOf(base, path)) {
          case Err(e) =>
            FirstErrorWins(shared, base, skip, resolver, i + 1);
            return Err(e);
          case Ok(o) =>
            OneMore(clashes, uniques + shareds, o);
            assert uniques + (shareds + [o]) == (uniques + shareds) + [o];
            shareds := shareds + [o];
            match o {
              case Resolved(change) => changes := changes + [change];
              case Conflicted(record) => records := records + [record];
            }
        }
      }
    }
    assert shared[..|shared|] == shared;
    return Ok((changes, records));
  }

  /** Paths touched by one workspace go straight through, onto the clash conflicts already emitted. */
  method PassUnique<C, A>(unique: seq<(Path, Entry<C>)>, base: map<Path, C>, skip: set<Path>, clashes: seq<ConflictRecord<C, A>>)
    returns (resolved: seq<ResolvedChange<C>>, conflicts: seq<ConflictRecord<C, A>>)
    ensures resolved == Changes<C, A>(UniqueOutcomes(unique, base, skip))
    ensures conflicts == clashes + Conflicts(UniqueOutcomes(unique, base, skip))
  {
    resolved, conflicts := [], clashes;
    for i := 0 to |unique|
      invariant resolved == Changes<C, A>(UniqueOutcomes(unique[..i], base, skip))
      invariant conflicts == clashes + Conflicts(UniqueOutcomes(unique[..i], base, skip))
    {
      var (path, entry) := unique[i];
      assert unique[..i + 1][..i] == unique[..i];
      if path !in skip {
        OneMore(clashes, UniqueOutcomes(unique[..i], base, skip), UniqueOutcome(path, entry, base));
        if entry.kind.Deleted? {
          resolved := resolved + [DeletePath(path)];
        } else if entry.content.Some? {
          resolved := resolved + [UpsertPath(path, entry.content.value)];
        } else {
          conflicts := conflicts
            + [ConflictRecord(path, BaseOf(base, path), [Side(entry.ws, entry.kind, None)], MissingContent, [])];
        }
      }
    }
    assert unique[..|unique|] == unique;
  }

  lemma {:induction false} OneMore<C, A>(clashes: seq<ConflictRecord<C, A>>, outcomes: seq<SharedOutcome<C, A>>,
        o: SharedOutcome<C, A>)
    ensures Changes(outcomes + [o]) == Changes(outcomes) + if o.Resolved? then [o.change] else []
    ensures clashes + Conflicts(outcomes + [o]) == (clashes + Conflicts(outcomes)) + if o.Conflicted? then [o.record] else []
  {
    assert (outcomes + [o])[..|outcomes|] == outcomes;
  }

  lemma {:induction false} FirstErrorWins<C, A, E>(shared: seq<(Path, seq<Entry<C>>)>, base: map<Path, C>, skip: set<Path>,
        resolver: Resolver<C, A, E>, k: nat)
    requires k <= |shared| && SharedOutcomes(shared[..k], base, skip, resolver).Err?
    ensures SharedOutcomes(shared, base, skip, resolver) == SharedOutcomes(shared[..k], base, skip, resolver)
    decreases |shared|
  {
    if k < |shared| {
      assert shared[..|shared| - 1][..k] == shared[..k];
      FirstErrorWins(shared[..|shared| - 1], base, skip, resolver, k);
    } else {
      assert shared[..k] == shared;
    }
  }

  // ----- accounting

  /** A resolver answers for the path it was asked about. */
  ghost predicate KeepsPath<C(!new), A, E>(resolver: Resolver<C, A, E>) {
    forall p: Path, es: seq<Entry<C>>, b: Option<C> ::
      resolver(p, es, b).Ok? ==> PathOf(resolver(p, es, b).value) == p
  }

  function ChangePaths<C>(s: seq<ResolvedChange<C>>): seq<Path> { Map(ChangePath, s) }

  function RecordPaths<C, A>(s: seq<ConflictRecord<C, A>>): seq<Path> { Map(RecordPath, s) }

  function Kept(paths: seq<Path>, skip: set<Path>): seq<Path> {
    if paths == [] then []
    else
      var front, last := Kept(paths[..|paths| - 1], skip), paths[|paths| - 1];
      if last in skip then front else front + [last]
  }

  lemma {:induction false} SplitPaths<C, A>(outcomes: seq<SharedOutcome<C, A>>)
    ensures multiset(ChangePaths(Changes(outcomes))) + multiset(RecordPaths(Conflicts(outcomes)))
         == multiset(Map<SharedOutcome<C, A>, Path>(PathOf, outcomes))
  {
    var path := PathOf;
    if outcomes != [] {
      var front, last := outcomes[..|outcomes| - 1], outcomes[|outcomes| - 1];
      SplitPaths(front);
      assert Map(path, outcomes) == Map(path, front) + [PathOf(last)];
      if last.Resolved? {
        assert ChangePaths(Changes(outcomes)) == ChangePaths(Changes(front)) + [last.change.path];
        assert Conflicts(outcomes) == Conflicts(front);
      } else {
        assert RecordPaths(Conflicts(outcomes)) == RecordPaths(Conflicts(front)) + [last.record.path];
        assert Changes(outcomes) == Changes(front);
      }
    }
  }

  lemma {:induction false} UniquePaths<C, A>(unique: seq<(Path, Entry<C>)>, base: map<Path, C>, skip: set<Path>)
    ensures Map<SharedOutcome<C, A>, Path>(PathOf, UniqueOutcomes(unique, base, skip))
         == Kept(Keys(unique), skip)
  {
    if unique != [] {
      var n := |unique| - 1;
      UniquePaths<C, A>(unique[..n], base, skip);
      assert Keys(unique)[..n] == Keys(unique[..n]);
    }
  }

  lemma {:induction false} SharedPaths<C(!new), A, E>(shared: seq<(Path, seq<Entry<C>>)>, base: map<Path, C>,
        skip: set<Path>,
        resolver: Resolver<C, A, E>)
    requires KeepsPath(resolver)
    ensures var r := SharedOutcomes(shared, base, skip, resolver);
            r.Err? || Map<SharedOutcome<C, A>, Path>(PathOf, r.value)
                   == Kept(Keys(shared), skip)
  {
    if shared != [] {
      var n := |shared| - 1;
      SharedPaths(shared[..n], base, skip, resolver);
      assert Keys(shared)[..n] == Keys(shared[..n]);
    }
  }

  lemma {:induction false} KeptAppend(a: seq<Path>, b: seq<Path>, skip: set<Path>)
    ensures Kept(a + b, skip) == Kept(a, skip) + Kept(b, skip)
  {
    if b == [] {
      assert a + b == a;
    } else {
      assert (a + b)[..|a + b| - 1] == a + b[..|b| - 1];
      KeptAppend(a, b[..|b| - 1], skip);
    }
  }

  lemma {:induction false} ClashAccounting<C, A>(clashes: seq<DfClash>)
    ensures multiset(RecordPaths(ClashRecords<C, A>(clashes))) == multiset(ClashPaths(clashes))
  {
    var firsts := FirstByFile(clashes);
    var ordered := Sort(firsts, ClashFile, PathLe);
    assert RecordPaths(ClashRecords<C, A>(clashes)) == Map(ClashFile, ordered);
    MapPermutation(ClashFile, ordered, firsts);
    DistinctIsSet(Map(ClashFile, firsts));
    FilesOf(firsts);
  }

  lemma {:induction false} FilesOf(clashes: seq<DfClash>)
    ensures (set p | p in Map(ClashFile, clashes)) == ClashPaths(clashes)
  {
    assert forall i :: 0 <= i < |clashes| ==> clashes[i] in clashes && Map(ClashFile, clashes)[i] == clashes[i].filePath;
    assert forall c :: c in clashes ==> c.filePath in Map(ClashFile, clashes);
  }

  /**
   * Conservation: the paths of `resolved` and of `conflicts`, counted with multiplicity, are the partition's paths
   * outside clashes plus each clash's file path once.
   */
  lemma {:induction false} OutputAccounting<C(!new), A, E>(partition: Partition<C>, base: map<Path, C>,
        resolver: Resolver<C, A, E>)
    requires KeepsPath(resolver) && ResolveAll(partition, base, resolver).Ok?
    ensures ResultPaths(ResolveAll(partition, base, resolver).value)
         == multiset(Kept(partition.Paths(), SkipSet(partition.dfClashes))) + multiset(ClashPaths(partition.dfClashes))
  {
    var skip := SkipSet(partition.dfClashes);
    var outcomes := UniqueOutcomes(partition.unique, base, skip) + SharedOutcomes(partition.shared, base, skip, resolver).value;
    SortedAccounting(ClashRecords(partition.dfClashes), outcomes);
    ClashAccounting<C, A>(partition.dfClashes);
    OutcomePaths(partition, base, skip, resolver);
  }

  lemma {:induction false} OutcomePaths<C(!new), A, E>(partition: Partition<C>, base: map<Path, C>, skip: set<Path>,
        resolver: Resolver<C, A, E>)
    requires KeepsPath(resolver) && SharedOutcomes(partition.shared, base, skip, resolver).Ok?
    ensures Map<SharedOutcome<C, A>, Path>(
              PathOf, UniqueOutcomes(partition.unique, base, skip) + SharedOutcomes(partition.shared, base, skip, resolver).value)
         == Kept(partition.Paths(), skip)
  {
    var uniques: seq<SharedOutcome<C, A>> := UniqueOutcomes(partition.unique, base, skip);
    var shareds := SharedOutcomes(partition.shared, base, skip, resolver).value;
    UniquePaths<C, A>(partition.unique, base, skip);
    SharedPaths(partition.shared, base, skip, resolver);
    KeptAppend(Keys(partition.unique),
               Keys(partition.shared), skip);
    assert Map<SharedOutcome<C, A>, Path>(PathOf, uniques + shareds)
        == Map<SharedOutcome<C, A>, Path>(PathOf, uniques) + Map<SharedOutcome<C, A>, Path>(PathOf, shareds);
  }

  function ResultPaths<C, A>(r: ResolveResult<C, A>): multiset<Path> {
    multiset(ChangePaths(r.resolved)) + multiset(RecordPaths(r.conflicts))
  }

  lemma {:induction false} SortedAccounting<C, A>(clashes: seq<ConflictRecord<C, A>>, outcomes: seq<SharedOutcome<C, A>>)
    ensures ResultPaths(SortedResult(clashes, outcomes))
         == multiset(RecordPaths(clashes)) + multiset(Map<SharedOutcome<C, A>, Path>(PathOf, outcomes))
  {
    var r := SortedResult(clashes, outcomes);
    MapPermutation(ChangePath, r.resolved, Changes(outcomes));
    MapPermutation<ConflictRecord<C, A>, Path>(RecordPath, r.conflicts, clashes + Conflicts(outcomes));
    assert RecordPaths(clashes + Conflicts(outcomes)) == RecordPaths(clashes) + RecordPaths(Conflicts(outcomes));
    SplitPaths(outcomes);
  }

  ghost predicate StrictlySorted(paths: seq<Path>) {
    forall i, j :: 0 <= i < j < |paths| ==> PathLe(paths[i], paths[j]) && paths[i] != paths[j]
  }

  lemma {:induction false} KeptMembers(paths: seq<Path>, skip: set<Path>)
    ensures forall p :: p in Kept(paths, skip) <==> p in paths && p !in skip
    ensures Distinct(paths) ==> Distinct(Kept(paths, skip))
  {
    if paths != [] {
      var n := |paths| - 1;
      KeptMembers(paths[..n], skip);
      assert paths == paths[..n] + [paths[n]];
      if Distinct(paths) {
        assert paths[n] !in paths[..n];
      }
    }
  }

  /** With distinct partition paths, each accounted path is in exactly one of two strictly sorted lists. */
  lemma {:induction false} OutputSortedAndDisjoint<C(!new), A, E>(partition: Partition<C>, base: map<Path, C>,
        resolver: Resolver<C, A, E>)
    requires KeepsPath(resolver) && ResolveAll(partition, base, resolver).Ok?
    requires Distinct(partition.Paths())
    ensures var r := ResolveAll(partition, base, resolver).value;
            && StrictlySorted(ChangePaths(r.resolved)) && StrictlySorted(RecordPaths(r.conflicts))
            && forall p :: && !(p in ChangePaths(r.resolved) && p in RecordPaths(r.conflicts))
                           && (p in ChangePaths(r.resolved) || p in RecordPaths(r.conflicts)
                               <==> || (p in partition.Paths() && p !in SkipSet(partition.dfClashes))
                                    || p in ClashPaths(partition.dfClashes))
  {
    var skip, clashed := SkipSet(partition.dfClashes), ClashPaths(partition.dfClashes);
    var r := ResolveAll(partition, base, resolver).value;
    var kept := Kept(partition.Paths(), skip);
    OutputAccounting(partition, base, resolver);
    KeptMembers(partition.Paths(), skip);
    DistinctIsSet(kept);
    var all := multiset(kept) + multiset(clashed);
    assert forall p :: all[p] <= 1;
    OnceEachOf(ChangePaths(r.resolved), all);
    OnceEachOf(RecordPaths(r.conflicts), all);
    ResultSorted(partition, base, resolver);
    OnceInOne(ChangePaths(r.resolved), RecordPaths(r.conflicts), kept, clashed);
  }

  /** Two lists that hold each of some paths once between them are disjoint and hold nothing else. */
  lemma {:induction false} OnceInOne(a: seq<Path>, b: seq<Path>, kept: seq<Path>, clashed: set<Path>)
    requires multiset(a) + multiset(b) == multiset(kept) + multiset(clashed)
    requires forall p :: (multiset(kept) + multiset(clashed))[p] <= 1
    ensures forall p :: !(p in a && p in b) && (p in a || p in b <==> p in kept || p in clashed)
  {
    forall p ensures !(p in a && p in b) && (p in a || p in b <==> p in kept || p in clashed) {
      assert (multiset(a) + multiset(b))[p] == (multiset(kept) + multiset(clashed))[p];
      assert p in a <==> multiset(a)[p] > 0;
      assert p in b <==> multiset(b)[p] > 0;
      assert p in kept <==> multiset(kept)[p] > 0;
    }
  }

  lemma {:induction false} ResultSorted<C, A, E>(partition: Partition<C>, base: map<Path, C>, resolver: Resolver<C, A, E>)
    requires ResolveAll(partition, base, resolver).Ok?
    ensures SortedBy(ResolveAll(partition, base, resolver).value.resolved, ChangePath, PathLe)
    ensures SortedBy(ResolveAll(partition, base, resolver).value.conflicts, RecordPath, PathLe)
  {
    PathOrder();
    var skip := SkipSet(partition.dfClashes);
    var outcomes := UniqueOutcomes(partition.unique, base, skip) + SharedOutcomes(partition.shared, base, skip, resolver).value;
    SortSorts(Changes(outcomes), ChangePath, PathLe);
    SortSorts(ClashRecords(partition.dfClashes) + Conflicts(outcomes), RecordPath, PathLe);
  }

  // ----- where each resolved change comes from

  lemma {:induction false} ChangeMembers<C, A>(outcomes: seq<SharedOutcome<C, A>>, change: ResolvedChange<C>)
    ensures change in Changes(outcomes) <==> Resolved(change) in outcomes
  {
    if outcomes != [] {
      var n := |outcomes| - 1;
      ChangeMembers(outcomes[..n], change);
      assert outcomes == outcomes[..n] + [outcomes[n]];
    }
  }

  lemma {:induction false} ConflictMembers<C, A>(outcomes: seq<SharedOutcome<C, A>>, record: ConflictRecord<C, A>)
    ensures record in Conflicts(outcomes) <==> Conflicted(record) in outcomes
  {
    if outcomes != [] {
      var n := |outcomes| - 1;
      ConflictMembers(outcomes[..n], record);
      assert outcomes == outcomes[..n] + [outcomes[n]];
    }
  }

  ghost predicate FromUnique<C, A>(unique: seq<(Path, Entry<C>)>, base: map<Path, C>, skip: set<Path>, o: SharedOutcome<C, A>) {
    exists i :: 0 <= i < |unique| && unique[i].0 !in skip && o == UniqueOutcome(unique[i].0, unique[i].1, base)
  }

  ghost predicate FromShared<C, A, E>(shared: seq<(Path, seq<Entry<C>>)>, base: map<Path, C>, skip: set<Path>,
                                      resolver: Resolver<C, A, E>, o: SharedOutcome<C, A>)
  {
    exists i :: 0 <= i < |shared| && shared[i].0 !in skip && Ok(o) == resolver(shared[i].0, shared[i].1, BaseOf(base, shared[i].0))
  }

  lemma {:induction false} UniqueSource<C, A>(unique: seq<(Path, Entry<C>)>, base: map<Path, C>, skip: set<Path>,
        o: SharedOutcome<C, A>)
    ensures o in UniqueOutcomes(unique, base, skip) <==> FromUnique(unique, base, skip, o)
  {
    if unique != [] {
      var n := |unique| - 1;
      UniqueSource(unique[..n], base, skip, o);
      assert forall i :: 0 <= i < n ==> unique[..n][i] == unique[i];
      if i :| 0 <= i < |unique| && unique[i].0 !in skip && o == UniqueOutcome(unique[i].0, unique[i].1, base) {
        assert i < n ==> unique[..n][i] == unique[i];
      }
    }
  }

  lemma {:induction false} SharedSource<C, A, E>(shared: seq<(Path, seq<Entry<C>>)>, base: map<Path, C>, skip: set<Path>,
        resolver: Resolver<C, A, E>, o: SharedOutcome<C, A>)
    requires SharedOutcomes(shared, base, skip, resolver).Ok?
    ensures o in SharedOutcomes(shared, base, skip, resolver).value <==> FromShared(shared, base, skip, resolver, o)
  {
    if shared != [] {
      var n := |shared| - 1;
      SharedSource(shared[..n], base, skip, resolver, o);
      assert forall i :: 0 <= i < n ==> shared[..n][i] == shared[i];
      if i :| 0 <= i < |shared| && shared[i].0 !in skip && Ok(o) == resolver(shared[i].0, shared[i].1, BaseOf(base, shared[i].0)) {
        assert i < n ==> shared[..n][i] == shared[i];
      }
    }
  }

  /** A resolved change is the outcome of its own path, and nothing else is resolved. */
  lemma {:induction false} ResolvedComesFrom<C(!new), A, E>(partition: Partition<C>, base: map<Path, C>,
        resolver: Resolver<C, A, E>, change: ResolvedChange<C>)
    requires ResolveAll(partition, base, resolver).Ok?
    ensures change in ResolveAll(partition, base, resolver).value.resolved
            <==> || FromUnique<C, A>(partition.unique, base, SkipSet(partition.dfClashes), Resolved(change))
                 || FromShared(partition.shared, base, SkipSet(partition.dfClashes), resolver, Resolved(change))
  {
    var skip := SkipSet(partition.dfClashes);
    var uniques: seq<SharedOutcome<C, A>> := UniqueOutcomes(partition.unique, base, skip);
    var outcomes := uniques + SharedOutcomes(partition.shared, base, skip, resolver).value;
    var r := ResolveAll(partition, base, resolver).value;
    SameMembers(r.resolved, Changes(outcomes));
    ChangeMembers(outcomes, change);
    UniqueSource(partition.unique, base, skip, SharedOutcome<C, A>.Resolved(change));
    SharedSource(partition.shared, base, skip, resolver, Resolved(change));
  }

  /** Every conflict of a shared path outside clashes is in the output. */
  lemma {:induction false} ConflictIsReported<C(!new), A, E>(partition: Partition<C>, base: map<Path, C>,
        resolver: Resolver<C, A, E>,
        record: ConflictRecord<C, A>)
    requires ResolveAll(partition, base, resolver).Ok?
    requires FromShared(partition.shared, base, SkipSet(partition.dfClashes), resolver, Conflicted(record))
    ensures record in ResolveAll(partition, base, resolver).value.conflicts
  {
    var skip := SkipSet(partition.dfClashes);
    var outcomes := UniqueOutcomes(partition.unique, base, skip) + SharedOutcomes(partition.shared, base, skip, resolver).value;
    SharedSource(partition.shared, base, skip, resolver, Conflicted(record));
    ConflictMembers(outcomes, record);
    SameMembers(ResolveAll(partition, base, resolver).value.conflicts, ClashRecords(partition.dfClashes) + Conflicts(outcomes));
  }

  // ----- what each kind of path comes out as

  /** No clash has the path as its file or as its example below the directory. */
  ghost predicate OutsideClashes(clashes: seq<DfClash>, path: Path) {
    forall c :: c in clashes ==> c.filePath != path && c.dirChildExample != path
  }

  lemma {:induction false} SkippedIff(clashes: seq<DfClash>, path: Path)
    ensures path in SkipSet(clashes) <==> !OutsideClashes(clashes, path)
  {
  }

  /**
   * A path that one workspace touched, outside clashes, goes straight through: a deletion deletes it, content is written as
   * it is, and a change without content is a conflict over the base with that workspace as its one side.
   */
  lemma {:induction false} UniqueExact<C(!new), A, E>(partition: Partition<C>, base: map<Path, C>, resolver: Resolver<C, A, E>, i: nat)
    requires ResolveAll(partition, base, resolver).Ok? && i < |partition.unique|
    requires OutsideClashes(partition.dfClashes, partition.unique[i].0)
    ensures var (path, entry), r := partition.unique[i], ResolveAll(partition, base, resolver).value;
            && (entry.kind.Deleted? ==> DeletePath(path) in r.resolved)
            && (!entry.kind.Deleted? && entry.content.Some? ==> UpsertPath(path, entry.content.value) in r.resolved)
            && (!entry.kind.Deleted? && entry.content.None? ==>
                  ConflictRecord(path, if path in base then Some(base[path]) else None, [Side(entry.ws, entry.kind, None)],
                                 MissingContent, []) in r.conflicts)
  {
    var (path, entry) := partition.unique[i];
    SkippedIff(partition.dfClashes, path);
    var o: SharedOutcome<C, A> := UniqueOutcome(path, entry, base);
    assert FromUnique(partition.unique, base, SkipSet(partition.dfClashes), o);
    UniqueIsReported(partition, base, resolver, o);
  }

  lemma {:induction false} UniqueIsReported<C(!new), A, E>(partition: Partition<C>, base: map<Path, C>, resolver: Resolver<C, A, E>,
        o: SharedOutcome<C, A>)
    requires ResolveAll(partition, base, resolver).Ok?
    requires FromUnique(partition.unique, base, SkipSet(partition.dfClashes), o)
    ensures o.Resolved? ==> o.change in ResolveAll(partition, base, resolver).value.resolved
    ensures o.Conflicted? ==> o.record in ResolveAll(partition, base, resolver).value.conflicts
  {
    var skip := SkipSet(partition.dfClashes);
    if o.Resolved? {
      ResolvedComesFrom(partition, base, resolver, o.change);
    } else {
      var outcomes := UniqueOutcomes(partition.unique, base, skip) + SharedOutcomes(partition.shared, base, skip, resolver).value;
      UniqueSource(partition.unique, base, skip, o);
      ConflictMembers(outcomes, o.record);
      SameMembers(ResolveAll(partition, base, resolver).value.conflicts, ClashRecords(partition.dfClashes) + Conflicts(outcomes));
    }
  }

  /** A path that takes part in a clash is not resolved, on either side of it. */
  lemma {:induction false} ClashesHeldBack<C(!new), A, E>(partition: Partition<C>, base: map<Path, C>, resolver: Resolver<C, A, E>,
        clash: DfClash, change: ResolvedChange<C>)
    requires KeepsPath(resolver) && ResolveAll(partition, base, resolver).Ok?
    requires clash in partition.dfClashes && change.path in {clash.filePath, clash.dirChildExample}
    ensures change !in ResolveAll(partition, base, resolver).value.resolved
  {
    SkippedIff(partition.dfClashes, change.path);
    ResolvedComesFrom(partition, base, resolver, change);
    NotFromSkipped(partition, base, resolver, SkipSet(partition.dfClashes), change);
  }

  lemma {:induction false} NotFromSkipped<C(!new), A, E>(partition: Partition<C>, base: map<Path, C>, resolver: Resolver<C, A, E>,
        skip: set<Path>, change: ResolvedChange<C>)
    requires KeepsPath(resolver) && change.path in skip
    ensures !FromUnique<C, A>(partition.unique, base, skip, Resolved(change))
    ensures !FromShared(partition.shared, base, skip, resolver, Resolved(change))
  {
    forall i | 0 <= i < |partition.shared| && partition.shared[i].0 !in skip
      ensures Ok(SharedOutcome<C, A>.Resolved(change))
                != resolver(partition.shared[i].0, partition.shared[i].1, BaseOf(base, partition.shared[i].0))
    {
      var r := resolver(partition.shared[i].0, partition.shared[i].1, BaseOf(base, partition.shared[i].0));
      assert r.Ok? ==> PathOf(r.value) == partition.shared[i].0;
    }
  }

  lemma {:induction false} FirstsKept(clashes: seq<DfClash>, i: nat)
    requires i < |clashes| && forall j :: 0 <= j < i ==> clashes[j].filePath != clashes[i].filePath
    ensures clashes[i] in FirstByFile(clashes)
  {
    var n := |clashes| - 1;
    assert clashes == clashes[..n] + [clashes[n]];
    if i < n { FirstsKept(clashes[..n], i); }
  }

  lemma {:induction false} FirstRecorded<C, A>(clashes: seq<DfClash>, c: DfClash)
    requires c in FirstByFile(clashes)
    ensures ConflictRecord(c.filePath, None, [Side(c.fileWs, Added, None), Side(c.dirWs, Added, None)],
                           FileDirectory(c.fileWs, c.dirChildExample), []) in ClashRecords<C, A>(clashes)
  {
    var firsts := Sort(FirstByFile(clashes), ClashFile, PathLe);
    SameMembers(firsts, FirstByFile(clashes));
    var k :| 0 <= k < |firsts| && firsts[k] == c;
    var records: seq<ConflictRecord<C, A>> := ClashRecords(clashes);
    assert records[k] in records;
  }

  /**
   * The first clash of each file is reported as a conflict over no base, with the workspace that has the file and then the
   * one that has the directory as its sides, and the example below the directory in its reason.
   */
  lemma {:induction false} ClashReported<C(!new), A, E>(partition: Partition<C>, base: map<Path, C>, resolver: Resolver<C, A, E>, i: nat)
    requires ResolveAll(partition, base, resolver).Ok? && i < |partition.dfClashes|
    requires forall j :: 0 <= j < i ==> partition.dfClashes[j].filePath != partition.dfClashes[i].filePath
    ensures var c := partition.dfClashes[i];
            ConflictRecord(c.filePath, None, [Side(c.fileWs, Added, None), Side(c.dirWs, Added, None)],
                           FileDirectory(c.fileWs, c.dirChildExample), [])
            in ResolveAll(partition, base, resolver).value.conflicts
  {
    FirstsKept(partition.dfClashes, i);
    FirstRecorded<C, A>(partition.dfClashes, partition.dfClashes[i]);
    var records: seq<ConflictRecord<C, A>> := ClashRecords(partition.dfClashes);
    var skip := SkipSet(partition.dfClashes);
    var outcomes := UniqueOutcomes(partition.unique, base, skip) + SharedOutcomes(partition.shared, base, skip, resolver).value;
    SameMembers(ResolveAll(partition, base, resolver).value.conflicts, records + Conflicts(outcomes));
  }

  // ----- the two resolvers

  function PlainResolver<C(==), A, E>(tools: Tools<C, A, E>): Resolver<C, A, E> {
    (path: Path, entries: seq<Entry<C>>, base: Option<C>) => Plain(tools, path, entries, base)
  }

  function AstResolver<C(==), A, E>(tools: Tools<C, A, E>, ast: Path -> Option<AstEngine<C, A>>): Resolver<C, A, E> {
    (path: Path, entries: seq<Entry<C>>, base: Option<C>) => WithAst(tools, ast(path), path, entries, base)
  }

  /** The accounting theorems apply to both pipelines. */
  lemma {:induction false} ResolversKeepPaths<C(!new), A, E>(tools: Tools<C, A, E>, ast: Path -> Option<AstEngine<C, A>>)
    ensures KeepsPath(PlainResolver(tools)) && KeepsPath(AstResolver(tools, ast))
  {
    forall p: Path, es: seq<Entry<C>>, b: Option<C>
      ensures Plain(tools, p, es, b).Ok? ==> PathOf(Plain(tools, p, es, b).value) == p
      ensures WithAst(tools, ast(p), p, es, b).Ok? ==> PathOf(WithAst(tools, ast(p), p, es, b).value) == p
    {
      PlainKeepsPath(tools, p, es, b);
      AstKeepsPath(tools, ast(p), p, es, b);
    }
  }

  lemma {:induction false} PlainKeepsPath<C, A, E>(tools: Tools<C, A, E>, path: Path, entries: seq<Entry<C>>,
        base: Option<C>)
    ensures Plain(tools, path, entries, base).Ok? ==> PathOf(Plain(tools, path, entries, base).value) == path
  {
  }

  lemma {:induction false} AstKeepsPath<C, A, E>(tools: Tools<C, A, E>, ast: Option<AstEngine<C, A>>, path: Path,
        entries: seq<Entry<C>>, base: Option<C>)
    ensures WithAst(tools, ast, path, entries, base).Ok? ==> PathOf(WithAst(tools, ast, path, entries, base).value) == path
  {
  }
}

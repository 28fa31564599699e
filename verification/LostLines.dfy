/** Concrete runs of the pipeline in which lines are lost without a conflict (build_phase.rs). */
module LostLines {
  import opened Prelude
  import opened MergeAlgebra
  import opened LineMerge
  import opened SharedPath
  import opened Attribution
  import opened ResolvePartition
  import opened PartitionPaths
  import opened EpochDelta
  import opened NoLostUpdate

  type IntRun = Run<int, int, int>

  function NoClashes<V>(): (seq<(Path, Entry<seq<V>>)>, seq<(Path, seq<Entry<seq<V>>>)>) -> seq<DfClash> {
    (unique: seq<(Path, Entry<seq<V>>)>, shared: seq<(Path, seq<Entry<seq<V>>>)>) => []
  }

  lemma {:induction false} LineToolsAreLineWise()
    ensures LineWise<int, int, int>(LineTools())
  {
  }

  /** The pipeline carried out over line-wise diff3, from patch sets to output; such a run never fails. */
  method LineRun(repo: Repo<seq<int>>, current: EpochId, sets: seq<PatchSet<seq<int>>>, ghost oldest: EpochId)
    returns (result: ResolveResult<seq<int>, int>, ghost run: IntRun)
    requires Least(StaleBases(repo, current, sets), oldest)
    ensures StaleRun(run) && run.result == result && run.partition.dfClashes == []
    ensures run.repo == repo && run.current == current && run.sets == sets && run.oldest == oldest
  {
    var tools: Tools<seq<int>, int, int> := LineTools();
    var r, partition, base := RunPipeline(repo, current, sets, NoClashes(), AstResolver(tools, NoAst()));
    LineToolsAreLineWise();
    ResolutionSucceeds(tools, partition, base);
    result := r.value;
    run := Run(repo, current, sets, oldest, partition, base, tools, result);
  }

  const FILE: Path := ["f"]
  const OTHER: Path := ["g"]

  function Edit(path: Path, lines: seq<int>): FileChange<seq<int>> {
    FileChange(path, Modified, Some(lines), None)
  }

  function OneEdit(ws: WorkspaceId, epoch: EpochId, path: Path, lines: seq<int>): PatchSet<seq<int>> {
    PatchSet(ws, epoch, [Edit(path, lines)])
  }

  function EditEntry(ws: WorkspaceId, lines: seq<int>): Entry<seq<int>> {
    Entry(ws, Modified, Some(lines), None)
  }

  /** Every workspace's epoch is its own merge base with the current one. */
  function Trees(tree: EpochId -> map<Path, seq<int>>): Repo<seq<int>> {
    Repo(tree, (a: EpochId, b: EpochId) => a)
  }

  lemma {:induction false} TwoEdits(a: PatchSet<seq<int>>, b: PatchSet<seq<int>>, path: Path)
    ensures EntriesAt([a], path) == EntriesIn(a.ws, a.changes, path)
    ensures EntriesAt([a, b], path) == EntriesIn(a.ws, a.changes, path) + EntriesIn(b.ws, b.changes, path)
  {
    assert [a][..0] == [] && [a, b][..1] == [a];
  }

  lemma {:induction false} ChangeIn(ws: WorkspaceId, change: FileChange<seq<int>>, path: Path)
    ensures EntriesIn(ws, [change], path) == if change.path == path then [ToEntry(ws, change)] else []
  {
    assert [change][..0] == [];
  }

  /** Live entries whose join over the ancestor is `joined` resolve to it. */
  lemma {:induction false} ResolvesTo(run: IntRun, path: Path, ancestor: seq<int>, joined: seq<int>)
    requires StaleRun(run) && run.partition.dfClashes == [] && run.Ancestor(path) == Some(ancestor)
    requires |run.MergedAt(path)| >= 2 && LiveAligned(ancestor, run.MergedAt(path))
    requires !Clash(ancestor, Values(run.MergedAt(path))) && Joins(ancestor, Values(run.MergedAt(path)), joined)
    ensures UpsertPath(path, joined) in run.result.resolved
  {
    var out := RunClosedForm(run, path, ancestor);
    var values := Values(run.MergedAt(path));
    JoinUnique(ancestor, values, values, joined, out.value);
  }

  // ----- an up-to-date edit is lost because another workspace is stale

  /** The epoch moved from "old" to "new" by changing line 0 from 0 to 1. */
  function MovedTree(e: EpochId): map<Path, seq<int>> {
    if e == "old" then map[FILE := [0, 0]] else map[FILE := [1, 0]]
  }

  /** A stale workspace edits line 1; an up-to-date workspace puts line 0 back to 0. */
  function MixedSets(): seq<PatchSet<seq<int>>> {
    [OneEdit("a", "old", FILE, [0, 7]), OneEdit("b", "new", FILE, [0, 0])]
  }

  lemma {:induction false} MixedBases()
    ensures StaleBases(Trees(MovedTree), "new", MixedSets()) == {"old"} && Least({"old"}, "old")
  {
    var sets := MixedSets();
    assert "new"[0] != "old"[0];
    assert sets[0].epoch == "old" && sets[1].epoch == "new";
  }

  lemma {:induction false} MixedWritten()
    ensures EntriesAt(MixedSets(), FILE) == [EditEntry("a", [0, 7]), EditEntry("b", [0, 0])]
  {
    TwoEdits(MixedSets()[0], MixedSets()[1], FILE);
    ChangeIn("a", Edit(FILE, [0, 7]), FILE);
    ChangeIn("b", Edit(FILE, [0, 0]), FILE);
  }

  lemma {:induction false} MixedEntries(run: IntRun)
    requires Least(run.Bases(), run.oldest) && run.oldest == "old"
    requires run.repo == Trees(MovedTree) && run.current == "new" && run.sets == MixedSets()
    ensures run.Ancestor(FILE) == Some([0, 0])
    ensures run.MergedAt(FILE) == [EditEntry("a", [0, 7]), EditEntry("b", [0, 0]), EditEntry(EPOCH_DELTA, [1, 0])]
  {
    assert "new"[0] != "old"[0] && [0, 0][0] != [1, 0][0];
    MixedWritten();
    assert Differs(run.repo.tree("old"), run.repo.tree("new"), FILE);
    TwoInputs(run, FILE);
  }

  lemma {:induction false} MixedJoin(entries: seq<Entry<seq<int>>>)
    requires entries == [EditEntry("a", [0, 7]), EditEntry("b", [0, 0]), EditEntry(EPOCH_DELTA, [1, 0])]
    ensures LiveAligned([0, 0], entries) && !Clash([0, 0], Values(entries)) && Joins([0, 0], Values(entries), [1, 7])
  {
    var values := Values(entries);
    assert values == [[0, 7], [0, 0], [1, 0]];
    assert values[0] in values && values[2] in values && values[0][1] == 7 && values[2][0] == 1;
  }

  /** In every run on that input the up-to-date workspace's edit disappears without a conflict. */
  lemma {:induction false} FreshRevertIsLost(run: IntRun)
    requires StaleRun(run) && run.partition.dfClashes == [] && run.oldest == "old"
    requires run.repo == Trees(MovedTree) && run.current == "new" && run.sets == MixedSets()
    ensures UpsertPath(FILE, [1, 7]) in run.result.resolved
  {
    MixedEntries(run);
    MixedJoin(run.MergedAt(FILE));
    ResolvesTo(run, FILE, [0, 0], [1, 7]);
  }

  /** The up-to-date workspace wrote 0 over the epoch's 1, and 1 comes out. */
  method MixedRun() returns (result: ResolveResult<seq<int>, int>)
    ensures UpsertPath(FILE, [1, 7]) in result.resolved
  {
    MixedBases();
    ghost var run;
    result, run := LineRun(Trees(MovedTree), "new", MixedSets(), "old");
    FreshRevertIsLost(run);
  }

  // ----- the epoch's line is lost because two workspaces are stale at different bases

  /** Line 0 changed from 0 to 1 after "b"; epochs "a" and "c" both have it. */
  function ThreeTrees(e: EpochId): map<Path, seq<int>> {
    if e == "b" then map[FILE := [0, 0]] else map[FILE := [1, 0]]
  }

  /** One workspace is stale at "b" and edits line 1; another is stale at "a" and adds an unrelated file. */
  function TwoBaseSets(): seq<PatchSet<seq<int>>> {
    [OneEdit("w1", "b", FILE, [0, 7]), OneEdit("w2", "a", OTHER, [5])]
  }

  lemma {:induction false} TwoBases()
    ensures StaleBases(Trees(ThreeTrees), "c", TwoBaseSets()) == {"a", "b"} && Least({"a", "b"}, "a")
  {
    var sets := TwoBaseSets();
    assert "a"[0] == 'a' && "b"[0] == 'b' && "c"[0] == 'c';
    assert sets[0].epoch == "b" && sets[1].epoch == "a";
  }

  lemma {:induction false} TwoBaseEntries(run: IntRun)
    requires Least(run.Bases(), run.oldest) && run.oldest == "a" && run.Bases() == {"a", "b"}
    requires run.repo == Trees(ThreeTrees) && run.current == "c" && run.sets == TwoBaseSets()
    ensures run.Ancestor(FILE) == Some([1, 0])
    ensures run.MergedAt(FILE) == [EditEntry("w1", [0, 7]), EditEntry(EPOCH_DELTA, [1, 0])]
  {
    assert "a"[0] == 'a' && "b"[0] == 'b' && "c"[0] == 'c' && FILE[0][0] != OTHER[0][0] && [0, 0][0] != [1, 0][0];
    TwoEdits(TwoBaseSets()[0], TwoBaseSets()[1], FILE);
    ChangeIn("w1", Edit(FILE, [0, 7]), FILE);
    ChangeIn("w2", Edit(OTHER, [5]), FILE);
    assert Differs(run.repo.tree("b"), run.repo.tree("c"), FILE);
    TwoInputs(run, FILE);
  }

  lemma {:induction false} TwoBaseJoin(entries: seq<Entry<seq<int>>>)
    requires entries == [EditEntry("w1", [0, 7]), EditEntry(EPOCH_DELTA, [1, 0])]
    ensures LiveAligned([1, 0], entries) && !Clash([1, 0], Values(entries)) && Joins([1, 0], Values(entries), [0, 7])
  {
    var values := Values(entries);
    assert values == [[0, 7], [1, 0]];
    assert values[0] in values && values[0][0] == 0 && values[0][1] == 7;
  }

  /** In every run on that input the epoch's line is gone without a conflict. */
  lemma {:induction false} SecondBaseReverts(run: IntRun)
    requires StaleRun(run) && run.partition.dfClashes == [] && run.oldest == "a"
    requires run.repo == Trees(ThreeTrees) && run.current == "c" && run.sets == TwoBaseSets()
    ensures UpsertPath(FILE, [0, 7]) in run.result.resolved
  {
    TwoBases();
    TwoBaseEntries(run);
    TwoBaseJoin(run.MergedAt(FILE));
    ResolvesTo(run, FILE, [1, 0], [0, 7]);
  }

  /** The first workspace never edited line 0, and its stale 0 replaces the epoch's 1. */
  method TwoBaseRun() returns (result: ResolveResult<seq<int>, int>)
    ensures UpsertPath(FILE, [0, 7]) in result.resolved
  {
    TwoBases();
    ghost var run;
    result, run := LineRun(Trees(ThreeTrees), "c", TwoBaseSets(), "a");
    SecondBaseReverts(run);
  }

  // ----- a file the epoch added is overwritten

  /** The file exists since "new". */
  function AddedTree(e: EpochId): map<Path, seq<int>> {
    if e == "old" then map[] else map[FILE := [1]]
  }

  /** A workspace that is stale at "old" adds the file too, with other content. */
  function AddedSets(): seq<PatchSet<seq<int>>> {
    [PatchSet("a", "old", [FileChange(FILE, Added, Some([2]), None)])]
  }

  lemma {:induction false} AddedBases()
    ensures StaleBases(Trees(AddedTree), "new", AddedSets()) == {"old"} && Least({"old"}, "old")
  {
    assert "new"[0] != "old"[0];
    assert AddedSets()[0].epoch == "old";
  }

  lemma {:induction false} AddedEntries(run: IntRun)
    requires run.oldest == "old" && run.repo == Trees(AddedTree) && run.current == "new" && run.sets == AddedSets()
    ensures FILE !in run.repo.tree(run.oldest) && FILE in run.repo.tree(run.current) && run.repo.tree(run.current)[FILE] == [1]
    ensures run.Entries(FILE) == [Entry("a", Added, Some([2]), None)]
  {
    assert "new"[0] != "old"[0];
    TwoEdits(AddedSets()[0], AddedSets()[0], FILE);
    ChangeIn("a", FileChange(FILE, Added, Some([2]), None), FILE);
  }

  lemma {:induction false} LoneAligned(entries: seq<Entry<seq<int>>>)
    requires entries == [Entry("a", Added, Some([2]), None)]
    ensures LiveAligned([1], entries) && Values(entries) == [[2]]
  {
  }

  /** Both sides created the file; the epoch's version disappears without an add/add conflict. */
  method AddedRun() returns (result: ResolveResult<seq<int>, int>)
    ensures UpsertPath(FILE, [2]) in result.resolved
  {
    AddedBases();
    ghost var run;
    result, run := LineRun(Trees(AddedTree), "new", AddedSets(), "old");
    AddedEntries(run);
    LoneAligned(run.Entries(FILE));
    LoneWriterOverwrites(run, FILE, [2]);
  }
}

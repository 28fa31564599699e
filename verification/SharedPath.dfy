/**
 * The two hand-written pipelines that resolve one shared path: the plain one, which goes through the generic algebra
 * and replays the fold to attribute a conflict, and the AST-aware one, which folds on its own (resolve.rs).
 * Content is any type; diff3, block alignment, the atom parser and the AST engine are deterministic parameters.
 */
module SharedPath {
  import opened Prelude
  import opened MergeAlgebra

  /** One workspace's change to a path. `blob` is the content's object id, when known. */
  datatype Entry<+C> = Entry(ws: WorkspaceId, kind: ChangeKind, content: Option<C>, blob: Option<string>)

  datatype Side<+C> = Side(ws: WorkspaceId, kind: ChangeKind, content: Option<C>)

  datatype ConflictRecord<+C, +A> =
    ConflictRecord(path: Path, base: Option<C>, sides: seq<Side<C>>, reason: ConflictReason, atoms: seq<A>)

  datatype ResolvedChange<+C> = DeletePath(path: Path) | UpsertPath(path: Path, content: C)

  datatype SharedOutcome<+C, +A> = Resolved(change: ResolvedChange<C>) | Conflicted(record: ConflictRecord<C, A>)

  datatype Diff3Outcome<+C> = CleanMerge(merged: C) | Markers(output: C)

  datatype AstResult<+C, +A> = AstClean(merged: C) | AstConflict(atoms: seq<A>) | Unsupported

  datatype Tools<!C, !A, !E> = Tools(
    diff3: (C, C, C) -> Result<Diff3Outcome<C>, E>,
    align: (C, C) -> Option<C>,          // base, variant: the variant with its blocks back in base order
    atoms: (C, string, string) -> seq<A>, // marker output, ours label, theirs label
    editors: A -> seq<WorkspaceId>)       // the workspaces named by an atom's edits

  type AstEngine<!C, !A> = (C, seq<(WorkspaceId, C)>) -> AstResult<C, A>

  // ----- small pure pieces

  predicate AllBlobsEqual<C>(entries: seq<Entry<C>>) {
    entries == [] || (entries[0].blob.Some? && forall i | 0 <= i < |entries| :: entries[i].blob == entries[0].blob)
  }

  predicate AllEqual<C(==)>(contents: seq<C>) {
    forall i | 0 <= i < |contents| :: contents[i] == contents[0]
  }

  function Kinds<C>(entries: seq<Entry<C>>): (r: seq<ChangeKind>)
    ensures |r| == |entries| && forall i :: 0 <= i < |r| ==> r[i] == entries[i].kind
  {
    seq(|entries|, i requires 0 <= i < |entries| => entries[i].kind)
  }

  function Contents<C>(entries: seq<Entry<C>>): (r: seq<Option<C>>)
    ensures |r| == |entries| && forall i :: 0 <= i < |r| ==> r[i] == entries[i].content
  {
    seq(|entries|, i requires 0 <= i < |entries| => entries[i].content)
  }

  predicate AllHaveContent<C>(entries: seq<Entry<C>>) {
    forall i | 0 <= i < |entries| :: entries[i].content.Some?
  }

  function Values<C>(entries: seq<Entry<C>>): (r: seq<C>)
    requires AllHaveContent(entries)
    ensures |r| == |entries| && forall i :: 0 <= i < |r| ==> entries[i].content == Some(r[i])
  {
    seq(|entries|, i requires 0 <= i < |entries| => entries[i].content.value)
  }

  function Ids<C>(entries: seq<Entry<C>>): (r: seq<WorkspaceId>)
    ensures |r| == |entries| && forall i :: 0 <= i < |r| ==> r[i] == entries[i].ws
  {
    seq(|entries|, i requires 0 <= i < |entries| => entries[i].ws)
  }

  function JoinWith(ids: seq<string>, separator: string): string {
    if ids == [] then "" else if |ids| == 1 then ids[0] else ids[0] + separator + JoinWith(ids[1..], separator)
  }

  /** The entries whose workspace is one of `ids`, in entry order. */
  function Only<C>(entries: seq<Entry<C>>, ids: seq<WorkspaceId>): (r: seq<Entry<C>>) {
    if entries == [] then []
    else (if entries[0].ws in ids then [entries[0]] else []) + Only(entries[1..], ids)
  }

  function Record<C, A>(path: Path, entries: seq<Entry<C>>, base: Option<C>, reason: ConflictReason, atoms: seq<A>)
    : ConflictRecord<C, A>
  {
    var sides := seq(|entries|, i requires 0 <= i < |entries| => Side(entries[i].ws, entries[i].kind, entries[i].content));
    ConflictRecord(path, base, sides, reason, atoms)
  }

  // ----- diff3 with the aligned retry

  /** A second diff3 after moving shifted blocks back, tried only when some side moves. */
  function RetryWithShiftedAlignment<C, A, E>(tools: Tools<C, A, E>, base: C, ours: C, theirs: C)
    : Result<Option<C>, E>
  {
    var alignedOurs, alignedTheirs := tools.align(base, ours), tools.align(base, theirs);
    if alignedOurs.None? && alignedTheirs.None? then Ok(None)
    else
      match tools.diff3(base, if alignedOurs.Some? then alignedOurs.value else ours,
                        if alignedTheirs.Some? then alignedTheirs.value else theirs)
      case Err(e) => Err(e)
      case Ok(CleanMerge(out)) => Ok(Some(out))
      case Ok(Markers(_)) => Ok(None)
  }

  function Diff3OrRetry<C, A, E>(tools: Tools<C, A, E>, base: C, ours: C, theirs: C): Result<Diff3Result<C>, E> {
    match tools.diff3(base, ours, theirs)
    case Err(e) => Err(e)
    case Ok(CleanMerge(out)) => Ok(Clean(out))
    case Ok(Markers(_)) =>
      match RetryWithShiftedAlignment(tools, base, ours, theirs)
      case Err(e) => Err(e)
      case Ok(None) => Ok(Overlap)
      case Ok(Some(out)) => Ok(Clean(out))
  }

  function WithRetry<C, A, E>(tools: Tools<C, A, E>): Diff3<C, E> {
    (base: C, ours: C, theirs: C) => Diff3OrRetry(tools, base, ours, theirs)
  }

  // ----- the fold with plain diff3

  datatype FoldEnd<+C, +E> = Merged(out: C) | StuckAt(trigger: nat, output: C) | Failed(error: E)

  /** Fold `variants[i..]` into `merged`; the workspaces folded in so far are exactly the first `i`. */
  function FoldFrom<C(==), A, E>(tools: Tools<C, A, E>, base: C, merged: C, variants: seq<C>, i: nat): (r: FoldEnd<C, E>)
    requires i <= |variants|
    ensures r.StuckAt? ==> i <= r.trigger < |variants|
    decreases |variants| - i
  {
    if i == |variants| then Merged(merged)
    else if merged == variants[i] then FoldFrom(tools, base, merged, variants, i + 1)
    else match tools.diff3(base, merged, variants[i])
      case Err(e) => Failed(e)
      case Ok(Markers(output)) => StuckAt(i, output)
      case Ok(CleanMerge(out)) => FoldFrom(tools, base, out, variants, i + 1)
  }

  // ----- attribution

  predicate PairwiseClean<C, A, E>(tools: Tools<C, A, E>, base: C, member: C, trigger: C) {
    var r := tools.diff3(base, member, trigger);
    r.Ok? && r.value.CleanMerge?
  }

  /** The members that do not merge cleanly with the trigger on their own. */
  function Overlapping<C, A, E>(tools: Tools<C, A, E>, base: C, ids: seq<WorkspaceId>, members: seq<C>, trigger: C)
    : (r: seq<WorkspaceId>)
    requires |ids| == |members|
    ensures forall id :: id in r ==> id in ids
  {
    if members == [] then []
    else
      var rest := Overlapping(tools, base, ids[..|ids| - 1], members[..|members| - 1], trigger);
      if PairwiseClean(tools, base, members[|members| - 1], trigger) then rest else rest + [ids[|ids| - 1]]
  }

  /** The exclusion probe: with nobody overlapping, everybody is kept. */
  function Probe<C, A, E>(tools: Tools<C, A, E>, base: C, ids: seq<WorkspaceId>, members: seq<C>, trigger: C)
    : seq<WorkspaceId>
    requires |ids| == |members|
  {
    var folded := Overlapping(tools, base, ids, members, trigger);
    if folded == [] then ids else folded
  }

  method ProbeFoldedParticipants<C, A, E>(tools: Tools<C, A, E>, base: C, ids: seq<WorkspaceId>, members: seq<C>, trigger: C)
    returns (folded: seq<WorkspaceId>)
    requires |ids| == |members|
    ensures folded == Probe(tools, base, ids, members, trigger)
  {
    folded := [];
    for k := 0 to |members|
      invariant folded == Overlapping(tools, base, ids[..k], members[..k], trigger)
    {
      assert ids[..k + 1][..k] == ids[..k] && members[..k + 1][..k] == members[..k];
      match tools.diff3(base, members[k], trigger) {
        case Ok(CleanMerge(_)) =>
        case _ => folded := folded + [ids[k]];
      }
    }
    assert ids[..|ids|] == ids && members[..|members|] == members;
    if folded == [] { folded := ids; }
  }

  /** The k-way fold with its member bookkeeping; a fold that gets stuck is probed for the members at fault. */
  method FoldAndProbe<C(==), A, E>(tools: Tools<C, A, E>, base: C, ids: seq<WorkspaceId>, variants: seq<C>)
    returns (end: FoldEnd<C, E>, folded: seq<WorkspaceId>)
    requires |ids| >= |variants| > 0
    ensures end == FoldFrom(tools, base, variants[0], variants, 1)
    ensures end.StuckAt? ==>
              folded == Probe(tools, base, ids[..end.trigger], variants[..end.trigger], variants[end.trigger])
  {
    var merged := variants[0];
    var oursIds, oursMembers := [ids[0]], [variants[0]];
    folded := [];
    for i := 1 to |variants|
      invariant oursIds == ids[..i] && oursMembers == variants[..i]
      invariant FoldFrom(tools, base, merged, variants, i) == FoldFrom(tools, base, variants[0], variants, 1)
    {
      if merged != variants[i] {
        match tools.diff3(base, merged, variants[i]) {
          case Err(e) => return Failed(e), [];
          case Ok(CleanMerge(out)) => merged := out;
          case Ok(Markers(output)) =>
            folded := ProbeFoldedParticipants(tools, base, oursIds, oursMembers, variants[i]);
            return StuckAt(i, output), folded;
        }
      }
      oursIds, oursMembers := oursIds + [ids[i]], oursMembers + [variants[i]];
    }
    return Merged(merged), [];
  }

  /** Atoms and participants of a conflict with `trigger`, given the members that are party to it. */
  function Attribution<C, A, E>(tools: Tools<C, A, E>, folded: seq<WorkspaceId>, trigger: WorkspaceId, output: C)
    : (seq<A>, seq<WorkspaceId>)
  {
    (tools.atoms(output, JoinWith(folded, "+"), trigger), folded + [trigger])
  }

  /**
   * What the replay returns. It pairs the i-th present content with the i-th entry's workspace, as the program does;
   * on the conflict path every entry has content, so the two agree.
   */
  function Recovered<C(==), A, E>(tools: Tools<C, A, E>, entries: seq<Entry<C>>, base: Option<C>)
    : (seq<A>, seq<WorkspaceId>)
  {
    var variants := Present(Contents(entries));
    if base.None? || |variants| < 2 then ([], Ids(entries))
    else
      match FoldFrom(tools, base.value, variants[0], variants, 1)
      case Merged(_) => ([], Ids(entries))
      case Failed(_) => ([], Ids(entries))
      case StuckAt(t, output) =>
        var ids := Ids(entries);
        Attribution(tools, Probe(tools, base.value, ids[..t], variants[..t], variants[t]), ids[t], output)
  }

  method RecoverDiff3AtomsWithParticipants<C(==), A, E>(tools: Tools<C, A, E>, entries: seq<Entry<C>>, base: Option<C>)
    returns (r: (seq<A>, seq<WorkspaceId>))
    ensures r == Recovered(tools, entries, base)
  {
    var ids := Ids(entries);
    var variants := Present(Contents(entries));
    if base.None? || |variants| < 2 { return ([], ids); }
    var end, folded := FoldAndProbe(tools, base.value, ids, variants);
    match end {
      case StuckAt(t, output) => return Attribution(tools, folded, ids[t], output);
      case _ => return ([], ids);
    }
  }

  // ----- the plain pipeline

  /** Identical blobs stand in for a byte comparison. */
  function EffectiveContents<C>(entries: seq<Entry<C>>): (r: seq<Option<C>>)
    ensures |r| == |entries|
  {
    var contents := Contents(entries);
    if AllBlobsEqual(entries) && |Present(contents)| >= 2 then
      seq(|contents|, i requires 0 <= i < |contents| => if contents[i].Some? then Some(Present(contents)[0]) else None)
    else contents
  }

  function Plain<C(==), A, E>(tools: Tools<C, A, E>, path: Path, entries: seq<Entry<C>>, base: Option<C>)
    : Result<SharedOutcome<C, A>, E>
  {
    Reported(tools, path, entries, base, Resolve(Kinds(entries), EffectiveContents(entries), base, WithRetry(tools)))
  }

  /** A merge outcome as the plain pipeline reports it for its path. */
  function Reported<C(==), A, E>(tools: Tools<C, A, E>, path: Path, entries: seq<Entry<C>>, base: Option<C>,
                                 outcome: Result<MergeOutcome<C>, E>)
    : Result<SharedOutcome<C, A>, E>
  {
    match outcome
    case Err(e) => Err(e)
    case Ok(Delete) => Ok(Resolved(DeletePath(path)))
    case Ok(Upsert(c)) => Ok(Resolved(UpsertPath(path, c)))
    case Ok(Conflict(reason)) =>
      var recordBase := if reason in {AddAddDifferent, MissingBase} then None else base;
      if reason == Diff3Conflict then
        var (atoms, ids) := Recovered(tools, entries, base);
        Ok(Conflicted(Record(path, Only(entries, ids), recordBase, reason, atoms)))
      else Ok(Conflicted(Record(path, entries, recordBase, reason, [])))
  }

  method ResolveSharedPath<C(==), A, E>(tools: Tools<C, A, E>, path: Path, entries: seq<Entry<C>>, base: Option<C>)
    returns (r: Result<SharedOutcome<C, A>, E>)
    ensures r == Plain(tools, path, entries, base)
  {
    var outcome := ResolveEntries(Kinds(entries), EffectiveContents(entries), base, WithRetry(tools));
    match outcome {
      case Err(e) => return Err(e);
      case Ok(Delete) => return Ok(Resolved(DeletePath(path)));
      case Ok(Upsert(c)) => return Ok(Resolved(UpsertPath(path, c)));
      case Ok(Conflict(reason)) =>
        var recordBase := if reason in {AddAddDifferent, MissingBase} then None else base;
        if reason == Diff3Conflict {
          var recovered := RecoverDiff3AtomsWithParticipants(tools, entries, base);
          return Ok(Conflicted(Record(path, Only(entries, recovered.1), recordBase, reason, recovered.0)));
        }
        return Ok(Conflicted(Record(path, entries, recordBase, reason, [])));
    }
  }

  // ----- the AST-aware pipeline

  /** The entries' workspaces named by some atom, in order of first mention. */
  function NamedBy<C, A, E>(tools: Tools<C, A, E>, entries: seq<Entry<C>>, atoms: seq<A>, found: seq<WorkspaceId>)
    : seq<WorkspaceId>
  {
    if atoms == [] then found
    else NamedBy(tools, entries, atoms[1..], AddNamed(entries, tools.editors(atoms[0]), found))
  }

  function AddNamed<C>(entries: seq<Entry<C>>, names: seq<WorkspaceId>, found: seq<WorkspaceId>): seq<WorkspaceId> {
    if names == [] then found
    else if names[0] in Ids(entries) && names[0] !in found then AddNamed(entries, names[1..], found + [names[0]])
    else AddNamed(entries, names[1..], found)
  }

  /** The outcome once plain diff3 is stuck at `trigger`, with `folded` party to the conflict. */
  function AfterStuck<C, A, E>(tools: Tools<C, A, E>, ast: Option<AstEngine<C, A>>, path: Path, entries: seq<Entry<C>>,
                               base: C, variants: seq<C>, folded: seq<WorkspaceId>, trigger: WorkspaceId, output: C)
    : (r: SharedOutcome<C, A>)
    requires |variants| == |entries|
    ensures (if r.Resolved? then r.change.path else r.record.path) == path
  {
    var (atoms, participants) := Attribution(tools, folded, trigger, output);
    var fallback := Conflicted(Record(path, Only(entries, participants), Some(base), Diff3Conflict, atoms));
    if ast.None? then fallback
    else
      match ast.value(base, seq(|entries|, i requires 0 <= i < |entries| => (entries[i].ws, variants[i])))
      case AstClean(merged) => Resolved(UpsertPath(path, merged))
      case Unsupported => fallback
      case AstConflict(astAtoms) =>
        var named := NamedBy(tools, entries, astAtoms, []);
        var chosen := if |named| >= 2 then named else participants;
        Conflicted(Record(path, Only(entries, chosen), Some(base), Diff3Conflict, astAtoms))
  }

  function WithAst<C(==), A, E>(tools: Tools<C, A, E>, ast: Option<AstEngine<C, A>>, path: Path,
                               entries: seq<Entry<C>>, base: Option<C>)
    : Result<SharedOutcome<C, A>, E>
  {
    if AllDeleted(Kinds(entries)) then Ok(Resolved(DeletePath(path)))
    else if AnyDeleted(Kinds(entries)) then Ok(Conflicted(Record(path, entries, base, ModifyDelete, [])))
    else if !AllHaveContent(entries) then Ok(Conflicted(Record(path, entries, base, MissingContent, [])))
    else
      var variants := Values(entries);
      if AllBlobsEqual(entries) || AllEqual(variants) then Ok(Resolved(UpsertPath(path, variants[0])))
      else if base.None? then
        var reason := if AllAdded(Kinds(entries)) then AddAddDifferent else MissingBase;
        Ok(Conflicted(Record(path, entries, None, reason, [])))
      else
        match FoldFrom(tools, base.value, variants[0], variants, 1)
        case Failed(e) => Err(e)
        case Merged(out) => Ok(Resolved(UpsertPath(path, out)))
        case StuckAt(t, output) =>
          var ids := Ids(entries);
          var folded := Probe(tools, base.value, ids[..t], variants[..t], variants[t]);
          Ok(AfterStuck(tools, ast, path, entries, base.value, variants, folded, ids[t], output))
  }

  method ResolveSharedPathWithAst<C(==), A, E>(tools: Tools<C, A, E>, ast: Option<AstEngine<C, A>>, path: Path,
                                               entries: seq<Entry<C>>, base: Option<C>)
    returns (r: Result<SharedOutcome<C, A>, E>)
    ensures r == WithAst(tools, ast, path, entries, base)
  {
    if AllDeleted(Kinds(entries)) { return Ok(Resolved(DeletePath(path))); }
    if AnyDeleted(Kinds(entries)) { return Ok(Conflicted(Record(path, entries, base, ModifyDelete, []))); }
    var collected := CollectContents(entries);
    if collected.None? { return Ok(Conflicted(Record(path, entries, base, MissingContent, []))); }
    var variants := collected.value;
    if AllBlobsEqual(entries) || AllEqual(variants) { return Ok(Resolved(UpsertPath(path, variants[0]))); }
    if base.None? {
      var reason := if AllAdded(Kinds(entries)) then AddAddDifferent else MissingBase;
      return Ok(Conflicted(Record(path, entries, None, reason, [])));
    }
    var ids := Ids(entries);
    var end, folded := FoldAndProbe(tools, base.value, ids, variants);
    match end {
      case Failed(e) => return Err(e);
      case Merged(out) => return Ok(Resolved(UpsertPath(path, out)));
      case StuckAt(t, output) =>
        return Ok(AfterStuck(tools, ast, path, entries, base.value, variants, folded, ids[t], output));
    }
  }

  /** The contents of all entries, or `None` at the first entry without content. */
  method CollectContents<C>(entries: seq<Entry<C>>) returns (r: Option<seq<C>>)
    ensures r.Some? <==> AllHaveContent(entries)
    ensures r.Some? ==> r.value == Values(entries)
  {
    var variants := [];
    for i := 0 to |entries|
      invariant |variants| == i
      invariant forall k :: 0 <= k < i ==> entries[k].content == Some(variants[k])
    {
      if entries[i].content.None? { return None; }
      variants := variants + [entries[i].content.value];
    }
    return Some(variants);
  }
}

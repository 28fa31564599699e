/** The generic k-way merge: classification of a shared path, then a left fold of diff3 (resolve.rs). */
module MergeAlgebra {
  import opened Prelude

  datatype ChangeKind = Added | Modified | Deleted

  datatype ConflictReason =
    | AddAddDifferent
    | ModifyDelete
    | Diff3Conflict
    | MissingBase
    | MissingContent
    | FileDirectory(fileSide: WorkspaceId, dirChildExample: Path)

  datatype MergeOutcome<+C> = Delete | Upsert(content: C) | Conflict(reason: ConflictReason)

  datatype Diff3Result<+C> = Clean(merged: C) | Overlap

  /** A deterministic three-way merge of (base, ours, theirs), which may also fail to run. */
  type Diff3<!C, !E> = (C, C, C) -> Result<Diff3Result<C>, E>

  // ----- classification

  datatype SharedClassification =
    | ResolvedDelete
    | ResolvedIdentical
    | ConflictModifyDelete
    | ConflictMissingContent
    | ConflictAddAddDifferent
    | ConflictMissingBase
    | NeedsDiff3

  predicate AllDeleted(kinds: seq<ChangeKind>) {
    forall i | 0 <= i < |kinds| :: kinds[i].Deleted?
  }

  predicate AnyDeleted(kinds: seq<ChangeKind>) {
    exists i | 0 <= i < |kinds| :: kinds[i].Deleted?
  }

  predicate AllAdded(kinds: seq<ChangeKind>) {
    forall i | 0 <= i < |kinds| :: kinds[i].Added?
  }

  function ClassifySharedPath(kinds: seq<ChangeKind>, allHaveContent: bool, allContentEqual: bool, hasBase: bool)
    : SharedClassification
  {
    if AllDeleted(kinds) then ResolvedDelete
    else if AnyDeleted(kinds) then ConflictModifyDelete
    else if !allHaveContent then ConflictMissingContent
    else if allContentEqual then ResolvedIdentical
    else if !hasBase then
      if AllAdded(kinds) then ConflictAddAddDifferent else ConflictMissingBase
    else NeedsDiff3
  }

  /** The contents that are present, in entry order. */
  function Present<C>(contents: seq<Option<C>>): (r: seq<C>)
    ensures |r| <= |contents|
    ensures (forall i :: 0 <= i < |contents| ==> contents[i].Some?) ==>
              |r| == |contents| && forall i :: 0 <= i < |r| ==> contents[i] == Some(r[i])
  {
    if contents == [] then []
    else (if contents[0].Some? then [contents[0].value] else []) + Present(contents[1..])
  }

  lemma {:induction false} PresentMembers<C>(contents: seq<Option<C>>, c: C)
    ensures c in Present(contents) <==> Some(c) in contents
  {
    if contents != [] {
      PresentMembers(contents[1..], c);
      assert contents == [contents[0]] + contents[1..];
    }
  }

  predicate AdjacentEqual<C(==)>(s: seq<C>) {
    |s| >= 2 ==> forall i | 0 <= i < |s| - 1 :: s[i] == s[i + 1]
  }

  function Classify<C(==)>(kinds: seq<ChangeKind>, contents: seq<Option<C>>, base: Option<C>): SharedClassification
    requires |kinds| == |contents|
  {
    ClassifySharedPath(
      kinds,
      forall i | 0 <= i < |kinds| :: kinds[i].Deleted? || contents[i].Some?,
      AdjacentEqual(Present(contents)),
      base.Some?)
  }

  // ----- the fold

  function Fold<C(==), E>(diff3: Diff3<C, E>, base: C, merged: C, rest: seq<C>): Result<Diff3Result<C>, E> {
    if rest == [] then Ok(Clean(merged))
    else if merged == rest[0] then Fold(diff3, base, merged, rest[1..])
    else match diff3(base, merged, rest[0])
      case Err(e) => Err(e)
      case Ok(Overlap) => Ok(Overlap)
      case Ok(Clean(out)) => Fold(diff3, base, out, rest[1..])
  }

  /** The outcome that a classification leads to, on the contents that are present. */
  function OutcomeOf<C(==), E>(verdict: SharedClassification, present: seq<C>, base: Option<C>, diff3: Diff3<C, E>)
    : Result<MergeOutcome<C>, E>
    requires verdict in {ResolvedIdentical, NeedsDiff3} ==> present != []
    requires verdict.NeedsDiff3? ==> base.Some?
  {
    match verdict
    case ResolvedDelete => Ok(Delete)
    case ConflictModifyDelete => Ok(Conflict(ModifyDelete))
    case ConflictMissingContent => Ok(Conflict(MissingContent))
    case ConflictAddAddDifferent => Ok(Conflict(AddAddDifferent))
    case ConflictMissingBase => Ok(Conflict(MissingBase))
    case ResolvedIdentical => Ok(Upsert(present[0]))
    case NeedsDiff3 =>
      match Fold(diff3, base.value, present[0], present[1..])
      case Err(e) => Err(e)
      case Ok(Clean(c)) => Ok(Upsert(c))
      case Ok(Overlap) => Ok(Conflict(Diff3Conflict))
  }

  /** What `ResolveEntries` computes. */
  function Resolve<C(==), E>(kinds: seq<ChangeKind>, contents: seq<Option<C>>, base: Option<C>, diff3: Diff3<C, E>)
    : Result<MergeOutcome<C>, E>
    requires |kinds| == |contents|
  {
    var verdict := Classify(kinds, contents, base);
    assert verdict in {ResolvedIdentical, NeedsDiff3} ==> |Present(contents)| > 0 by {
      if verdict in {ResolvedIdentical, NeedsDiff3} { DefiniteHasContent(kinds, contents, base); }
    }
    OutcomeOf(verdict, Present(contents), base, diff3)
  }

  lemma {:induction false} DefiniteHasContent<C>(kinds: seq<ChangeKind>, contents: seq<Option<C>>, base: Option<C>)
    requires |kinds| == |contents|
    requires Classify(kinds, contents, base) in {ResolvedIdentical, NeedsDiff3}
    ensures |Present(contents)| == |contents| > 0
    ensures forall i :: 0 <= i < |contents| ==> contents[i] == Some(Present(contents)[i])
  {
  }

  lemma {:induction false} ResolveFolds<C, E>(kinds: seq<ChangeKind>, contents: seq<Option<C>>, base: C,
        diff3: Diff3<C, E>, present: seq<C>)
    requires |kinds| == |contents| && Classify(kinds, contents, Some(base)).NeedsDiff3?
    requires present == Present(contents) && present != []
    ensures var folded := Fold(diff3, base, present[0], present[1..]);
            Resolve(kinds, contents, Some(base), diff3)
            == if folded.Err? then Err(folded.error)
               else if folded.value.Clean? then Ok(Upsert(folded.value.merged))
               else Ok(Conflict(Diff3Conflict))
  {
  }

  /** The k-way merge as the program runs it: one running `merged` value, stopped by the first overlap. */
  method ResolveEntries<C(==), E>(kinds: seq<ChangeKind>, contents: seq<Option<C>>, base: Option<C>, diff3: Diff3<C, E>)
    returns (r: Result<MergeOutcome<C>, E>)
    requires |kinds| == |contents|
    ensures r == Resolve(kinds, contents, base, diff3)
  {
    var variants := Present(contents);
    match Classify(kinds, contents, base) {
      case ResolvedDelete => return Ok(Delete);
      case ConflictModifyDelete => return Ok(Conflict(ModifyDelete));
      case ConflictMissingContent => return Ok(Conflict(MissingContent));
      case ConflictAddAddDifferent => return Ok(Conflict(AddAddDifferent));
      case ConflictMissingBase => return Ok(Conflict(MissingBase));
      case ResolvedIdentical =>
        DefiniteHasContent(kinds, contents, base);
        return Ok(Upsert(variants[0]));
      case NeedsDiff3 =>
    }
    var merged := variants[0];
    for i := 1 to |variants|
      invariant Fold(diff3, base.value, merged, variants[i..]) == Fold(diff3, base.value, variants[0], variants[1..])
    {
      assert variants[i..][1..] == variants[i + 1..];
      if merged != variants[i] {
        match diff3(base.value, merged, variants[i]) {
          case Err(e) => return Err(e);
          case Ok(Overlap) => return Ok(Conflict(Diff3Conflict));
          case Ok(Clean(out)) => merged := out;
        }
      }
    }
    return Ok(Upsert(merged));
  }
}

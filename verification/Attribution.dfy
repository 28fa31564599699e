/** How the two pipelines relate, and who is named as a side of a diff3 conflict. */
module Attribution {
  import opened Prelude
  import opened MergeAlgebra
  import opened LineMerge
  import opened SharedPath

  // ----- the two folds

  ghost predicate RetryNeverHelps<C(!new), A, E>(tools: Tools<C, A, E>) {
    forall b: C, o: C, t: C {:trigger RetryWithShiftedAlignment(tools, b, o, t)} ::
      tools.diff3(b, o, t).Ok? && tools.diff3(b, o, t).value.Markers? ==> RetryWithShiftedAlignment(tools, b, o, t) == Ok(None)
  }

  /** The fold with retry follows the plain fold for as long as the plain one is not stuck. */
  lemma {:induction false} FoldsRelate<C(!new), A, E>(tools: Tools<C, A, E>, base: C, merged: C, variants: seq<C>, i: nat)
    requires i <= |variants|
    ensures var plain := FoldFrom(tools, base, merged, variants, i);
            var retried := Fold(WithRetry(tools), base, merged, variants[i..]);
            && (plain.Merged? ==> retried == Ok(Clean(plain.out)))
            && (plain.Failed? ==> retried == Err(plain.error))
            && (plain.StuckAt? ==>
                  var before := Fold(WithRetry(tools), base, merged, variants[i..plain.trigger]);
                  before.Ok? && before.value.Clean?)
            && (plain.StuckAt? && RetryNeverHelps(tools) ==> retried == Ok(Overlap))
    decreases |variants| - i
  {
    if i < |variants| {
      var plain := FoldFrom(tools, base, merged, variants, i);
      assert variants[i..][0] == variants[i] && variants[i..][1..] == variants[i + 1..];
      if plain.StuckAt? && i < plain.trigger {
        assert variants[i..plain.trigger][0] == variants[i];
        assert variants[i..plain.trigger][1..] == variants[i + 1..plain.trigger];
      }
      if merged == variants[i] {
        FoldsRelate(tools, base, merged, variants, i + 1);
      } else {
        match tools.diff3(base, merged, variants[i]) {
          case Ok(CleanMerge(out)) => FoldsRelate(tools, base, out, variants, i + 1);
          case _ =>
        }
      }
    }
  }

  // ----- classification seen by both pipelines

  /** Nothing deleted, nothing missing. */
  ghost predicate Live<C>(entries: seq<Entry<C>>) {
    && entries != []
    && AllHaveContent(entries)
    && forall i :: 0 <= i < |entries| ==> !entries[i].kind.Deleted?
  }

  lemma {:induction false} PresentIsValues<C>(entries: seq<Entry<C>>)
    requires AllHaveContent(entries)
    ensures Present(Contents(entries)) == Values(entries)
  {
  }

  lemma {:induction false} BlobsSettle<C(!new)>(entries: seq<Entry<C>>)
    requires AllHaveContent(entries) && entries != [] && AllBlobsEqual(entries)
    ensures AdjacentEqual(Present(EffectiveContents(entries)))
    ensures Present(EffectiveContents(entries))[0] == Values(entries)[0]
  {
    PresentIsValues(entries);
    var ps := Present(EffectiveContents(entries));
    forall i | 0 <= i < |ps| ensures ps[i] == Values(entries)[0] {
      assert EffectiveContents(entries)[i] == Some(ps[i]);
    }
  }

  lemma {:induction false} AllEqualIsAdjacent<C(!new)>(s: seq<C>)
    ensures AllEqual(s) <==> AdjacentEqual(s)
  {
    if AdjacentEqual(s) {
      forall i | 0 <= i < |s| ensures s[i] == s[0] { AllLikeFirst(s, i); }
    }
  }

  /** How live entries are classified, and on which contents the plain pipeline then works. */
  lemma {:induction false} LiveSettles<C(!new)>(entries: seq<Entry<C>>, base: Option<C>)
    requires Live(entries)
    ensures Classify(Kinds(entries), EffectiveContents(entries), base)
         == if AllBlobsEqual(entries) || AllEqual(Values(entries)) then ResolvedIdentical
            else if base.None? then if AllAdded(Kinds(entries)) then ConflictAddAddDifferent else ConflictMissingBase
            else NeedsDiff3
    ensures if AllBlobsEqual(entries) then
              Present(EffectiveContents(entries)) != [] && Present(EffectiveContents(entries))[0] == Values(entries)[0]
            else Present(EffectiveContents(entries)) == Values(entries)
  {
    PresentIsValues(entries);
    AllEqualIsAdjacent(Values(entries));
    LiveVerdict(entries, base);
    if AllBlobsEqual(entries) {
      BlobsSettle(entries);
      assert EffectiveContents(entries)[0].Some?;
    }
  }

  lemma {:induction false} LiveVerdict<C(!new)>(entries: seq<Entry<C>>, base: Option<C>)
    requires Live(entries)
    ensures Classify(Kinds(entries), EffectiveContents(entries), base)
         == if AdjacentEqual(Present(EffectiveContents(entries))) then ResolvedIdentical
            else if base.None? then if AllAdded(Kinds(entries)) then ConflictAddAddDifferent else ConflictMissingBase
            else NeedsDiff3
  {
    assert !Kinds(entries)[0].Deleted?;
    forall i | 0 <= i < |entries| ensures EffectiveContents(entries)[i].Some? && !Kinds(entries)[i].Deleted? {
      assert Contents(entries)[i].Some?;
    }
  }

  // ----- the pipelines agree

  /** The conflict that both pipelines report once the plain fold is stuck. */
  function StuckOutcome<C(==), A, E>(tools: Tools<C, A, E>, path: Path, entries: seq<Entry<C>>, base: C, t: nat, output: C)
    : SharedOutcome<C, A>
    requires AllHaveContent(entries) && t < |entries|
  {
    var values, ids := Values(entries), Ids(entries);
    AfterStuck(tools, None, path, entries, base, values, Probe(tools, base, ids[..t], values[..t], values[t]), ids[t], output)
  }

  function PathOutcome<C(==), A, E>(tools: Tools<C, A, E>, path: Path, entries: seq<Entry<C>>, base: C, end: FoldEnd<C, E>)
    : Result<SharedOutcome<C, A>, E>
    requires AllHaveContent(entries) && (end.StuckAt? ==> end.trigger < |entries|)
  {
    match end
    case Failed(e) => Err(e)
    case Merged(out) => Ok(Resolved(UpsertPath(path, out)))
    case StuckAt(t, output) => Ok(StuckOutcome(tools, path, entries, base, t, output))
  }

  /** Where the plain fold over the entries' contents ends. */
  function EndOf<C(==), A, E>(tools: Tools<C, A, E>, entries: seq<Entry<C>>, base: C): (end: FoldEnd<C, E>)
    requires AllHaveContent(entries) && entries != []
    ensures end.StuckAt? ==> 1 <= end.trigger < |entries|
  {
    FoldFrom(tools, base, Values(entries)[0], Values(entries), 1)
  }

  lemma {:induction false} AstFollowsFold<C(!new), A, E>(tools: Tools<C, A, E>, path: Path, entries: seq<Entry<C>>, base: C)
    requires Live(entries) && !AllBlobsEqual(entries) && !AllEqual(Values(entries))
    ensures WithAst(tools, None, path, entries, Some(base)) == PathOutcome(tools, path, entries, base, EndOf(tools, entries, base))
  {
    assert !AllDeleted(Kinds(entries)) by { assert !Kinds(entries)[0].Deleted?; }
  }

  /** The plain pipeline in terms of its own fold, which retries, and of the plain fold that it replays. */
  lemma {:induction false} PlainFollowsFold<C(!new), A, E>(tools: Tools<C, A, E>, path: Path, entries: seq<Entry<C>>,
        base: C,
        folded: Result<Diff3Result<C>, E>)
    requires Live(entries) && |entries| >= 2 && Present(EffectiveContents(entries)) == Values(entries)
    requires Classify(Kinds(entries), EffectiveContents(entries), Some(base)).NeedsDiff3?
    requires folded == Fold(WithRetry(tools), base, Values(entries)[0], Values(entries)[1..])
    requires folded == Ok(Overlap) ==> EndOf(tools, entries, base).StuckAt?
    ensures var end := if folded.Err? then Failed(folded.error)
                       else if folded.value.Clean? then Merged(folded.value.merged)
                       else EndOf(tools, entries, base);
            Plain(tools, path, entries, Some(base)) == PathOutcome(tools, path, entries, base, end)
  {
    PlainNeedsDiff3(tools, path, entries, base, folded);
    if folded.Ok? {
      if folded.value.Overlap? { RecoveredIsStuck(tools, path, entries, base); }
    }
  }

  lemma {:induction false} PlainNeedsDiff3<C(!new), A, E>(tools: Tools<C, A, E>, path: Path, entries: seq<Entry<C>>, base: C,
        folded: Result<Diff3Result<C>, E>)
    requires AllHaveContent(entries) && entries != [] && Present(EffectiveContents(entries)) == Values(entries)
    requires Classify(Kinds(entries), EffectiveContents(entries), Some(base)).NeedsDiff3?
    requires folded == Fold(WithRetry(tools), base, Values(entries)[0], Values(entries)[1..])
    ensures Plain(tools, path, entries, Some(base))
         == if folded.Err? then Err(folded.error)
            else if folded.value.Clean? then Ok(Resolved(UpsertPath(path, folded.value.merged)))
            else Ok(Conflicted(Record(path, Only(entries, Recovered(tools, entries, Some(base)).1), Some(base), Diff3Conflict,
                                      Recovered(tools, entries, Some(base)).0)))
  {
    ResolveFolds(Kinds(entries), EffectiveContents(entries), base, WithRetry(tools), Values(entries));
    ReportedFold(tools, path, entries, base, folded);
  }

  lemma {:induction false} ReportedFold<C(!new), A, E>(tools: Tools<C, A, E>, path: Path, entries: seq<Entry<C>>, base: C,
        folded: Result<Diff3Result<C>, E>)
    ensures Reported(tools, path, entries, Some(base),
                     if folded.Err? then Err(folded.error)
                     else if folded.value.Clean? then Ok(Upsert(folded.value.merged))
                     else Ok(Conflict(Diff3Conflict)))
         == if folded.Err? then Err(folded.error)
            else if folded.value.Clean? then Ok(Resolved(UpsertPath(path, folded.value.merged)))
            else Ok(Conflicted(Record(path, Only(entries, Recovered(tools, entries, Some(base)).1), Some(base), Diff3Conflict,
                                      Recovered(tools, entries, Some(base)).0)))
  {
  }

  lemma {:induction false} RecoveredIsStuck<C(!new), A, E>(tools: Tools<C, A, E>, path: Path, entries: seq<Entry<C>>,
        base: C)
    requires AllHaveContent(entries) && |entries| >= 2 && EndOf(tools, entries, base).StuckAt?
    ensures Conflicted(Record(path, Only(entries, Recovered(tools, entries, Some(base)).1), Some(base), Diff3Conflict,
                              Recovered(tools, entries, Some(base)).0))
         == StuckOutcome(tools, path, entries, base, EndOf(tools, entries, base).trigger, EndOf(tools, entries, base).output)
  {
    PresentIsValues(entries);
  }

  /**
   * Without gitattributes and with no AST language for the path: what the AST pipeline resolves or fails on, the plain
   * one resolves or fails on identically; what the plain one reports as a conflict, the AST one reports identically
   * (content, reason, base, sides and atoms). The one difference left is a conflict that the plain pipeline's retry
   * turned into something else; when the retry never helps there is none.
   */
  lemma {:induction false} PipelinesAgree<C(!new), A, E>(tools: Tools<C, A, E>, path: Path, entries: seq<Entry<C>>,
        base: Option<C>)
    ensures var ast, plain := WithAst(tools, None, path, entries, base), Plain(tools, path, entries, base);
            && (ast.Err? || ast.value.Resolved? ==> plain == ast)
            && (plain.Ok? && plain.value.Conflicted? ==> plain == ast)
            && (RetryNeverHelps(tools) ==> plain == ast)
  {
    if Live(entries) {
      LiveAgree(tools, path, entries, base);
    } else {
      DeadAgree(tools, path, entries, base);
    }
  }

  lemma {:induction false} DeadAgree<C(!new), A, E>(tools: Tools<C, A, E>, path: Path, entries: seq<Entry<C>>,
        base: Option<C>)
    requires !Live(entries)
    ensures Plain(tools, path, entries, base) == WithAst(tools, None, path, entries, base)
  {
    DeadSettles(entries, base);
    DeadPlain(tools, path, entries, base, Classify(Kinds(entries), EffectiveContents(entries), base));
  }

  lemma {:induction false} DeadPlain<C(!new), A, E>(tools: Tools<C, A, E>, path: Path, entries: seq<Entry<C>>,
        base: Option<C>,
        verdict: SharedClassification)
    requires verdict == Classify(Kinds(entries), EffectiveContents(entries), base)
    requires verdict in {ResolvedDelete, ConflictModifyDelete, ConflictMissingContent}
    ensures Plain(tools, path, entries, base)
         == if verdict.ResolvedDelete? then Ok(Resolved(DeletePath(path)))
            else Ok(Conflicted(Record(path, entries, base, if verdict.ConflictModifyDelete? then ModifyDelete else MissingContent, [])))
  {
  }

  lemma {:induction false} DeadSettles<C(!new)>(entries: seq<Entry<C>>, base: Option<C>)
    requires !Live(entries)
    ensures Classify(Kinds(entries), EffectiveContents(entries), base)
         == if AllDeleted(Kinds(entries)) then ResolvedDelete
            else if AnyDeleted(Kinds(entries)) then ConflictModifyDelete
            else ConflictMissingContent
    ensures !AllDeleted(Kinds(entries)) && !AnyDeleted(Kinds(entries)) ==> !AllHaveContent(entries)
  {
    assert forall i :: 0 <= i < |entries| ==> Kinds(entries)[i] == entries[i].kind;
    if !AllDeleted(Kinds(entries)) && !AnyDeleted(Kinds(entries)) {
      var i :| 0 <= i < |entries| && entries[i].content.None?;
      assert EffectiveContents(entries)[i].None?;
    }
  }

  lemma {:induction false} LiveAgree<C(!new), A, E>(tools: Tools<C, A, E>, path: Path, entries: seq<Entry<C>>,
        base: Option<C>)
    requires Live(entries)
    ensures var ast, plain := WithAst(tools, None, path, entries, base), Plain(tools, path, entries, base);
            && (ast.Err? || ast.value.Resolved? ==> plain == ast)
            && (plain.Ok? && plain.value.Conflicted? ==> plain == ast)
            && (RetryNeverHelps(tools) ==> plain == ast)
  {
    if AllBlobsEqual(entries) || AllEqual(Values(entries)) || base.None? {
      SettledAgree(tools, path, entries, base);
    } else {
      FoldsAgree(tools, path, entries, base.value);
    }
  }

  lemma {:induction false} SettledAgree<C(!new), A, E>(tools: Tools<C, A, E>, path: Path, entries: seq<Entry<C>>,
        base: Option<C>)
    requires Live(entries) && (AllBlobsEqual(entries) || AllEqual(Values(entries)) || base.None?)
    ensures Plain(tools, path, entries, base) == WithAst(tools, None, path, entries, base)
    ensures AllBlobsEqual(entries) || AllEqual(Values(entries)) ==>
              Plain(tools, path, entries, base) == Ok(Resolved(UpsertPath(path, Values(entries)[0])))
  {
    LiveSettles(entries, base);
    assert !AllDeleted(Kinds(entries)) by { assert !Kinds(entries)[0].Deleted?; }
  }

  lemma {:induction false} FoldsAgree<C(!new), A, E>(tools: Tools<C, A, E>, path: Path, entries: seq<Entry<C>>, base: C)
    requires Live(entries) && !AllBlobsEqual(entries) && !AllEqual(Values(entries))
    ensures var ast, plain := WithAst(tools, None, path, entries, Some(base)), Plain(tools, path, entries, Some(base));
            && (ast.Err? || ast.value.Resolved? ==> plain == ast)
            && (plain.Ok? && plain.value.Conflicted? ==> plain == ast)
            && (RetryNeverHelps(tools) ==> plain == ast)
  {
    LiveSettles(entries, Some(base));
    AstFollowsFold(tools, path, entries, base);
    var values := Values(entries);
    FoldsRelate(tools, base, values[0], values, 1);
    PlainFollowsFold(tools, path, entries, base, Fold(WithRetry(tools), base, values[0], values[1..]));
  }

  // ----- what the aligned retry computes

  /** A second diff3, of each side with its blocks moved back where they can be, and as it is otherwise. */
  function SecondTry<C, A, E>(tools: Tools<C, A, E>, base: C, ours: C, theirs: C): Result<Diff3Outcome<C>, E> {
    var alignedOurs, alignedTheirs := tools.align(base, ours), tools.align(base, theirs);
    tools.diff3(base, if alignedOurs.Some? then alignedOurs.value else ours, if alignedTheirs.Some? then alignedTheirs.value else theirs)
  }

  ghost predicate SomeSideMoves<C, A, E>(tools: Tools<C, A, E>, base: C, ours: C, theirs: C) {
    tools.align(base, ours).Some? || tools.align(base, theirs).Some?
  }

  /** What one merge with retry comes to: diff3 decides unless it conflicts and a side moves; then diff3 of the moved sides does. */
  lemma {:induction false} RetryExact<C(!new), A, E>(tools: Tools<C, A, E>, base: C, ours: C, theirs: C)
    ensures var r, first := Diff3OrRetry(tools, base, ours, theirs), tools.diff3(base, ours, theirs);
            var second := SecondTry(tools, base, ours, theirs);
            var decides := if first.Ok? && first.value.Markers? && SomeSideMoves(tools, base, ours, theirs) then second else first;
            && (decides.Err? ==> r == Err(decides.error))
            && (decides.Ok? && decides.value.CleanMerge? ==> r == Ok(Clean(decides.value.merged)))
            && (decides.Ok? && decides.value.Markers? ==> r == Ok(Overlap))
  {
  }

  /** The retry never helps exactly when, after every conflict, no side moves or the moved sides conflict again. */
  lemma {:induction false} RetryNeverHelpsIff<C(!new), A, E>(tools: Tools<C, A, E>)
    ensures RetryNeverHelps(tools)
            <==> forall b: C, o: C, t: C {:trigger tools.diff3(b, o, t)} ::
                   tools.diff3(b, o, t).Ok? && tools.diff3(b, o, t).value.Markers? && SomeSideMoves(tools, b, o, t) ==>
                     SecondTry(tools, b, o, t).Ok? && SecondTry(tools, b, o, t).value.Markers?
  {
    if RetryNeverHelps(tools) {
      forall b: C, o: C, t: C | tools.diff3(b, o, t).Ok? && tools.diff3(b, o, t).value.Markers? && SomeSideMoves(tools, b, o, t)
        ensures SecondTry(tools, b, o, t).Ok? && SecondTry(tools, b, o, t).value.Markers?
      {
        assert RetryWithShiftedAlignment(tools, b, o, t) == Ok(None);
      }
    }
  }

  /** The conflict of two workspaces: both are sides, over the base, with the atoms of the marker output under their names. */
  function PairConflict<C, A, E>(tools: Tools<C, A, E>, path: Path, x: Entry<C>, y: Entry<C>, base: C, output: C): SharedOutcome<C, A> {
    Conflicted(ConflictRecord(path, Some(base), [Side(x.ws, x.kind, x.content), Side(y.ws, y.kind, y.content)], Diff3Conflict,
                              tools.atoms(output, x.ws, y.ws)))
  }

  /** Two live entries with different contents, in terms of diff3 and alignment alone. */
  ghost predicate TwoEntries<C>(entries: seq<Entry<C>>) {
    && |entries| == 2 && Live(entries) && entries[0].ws != entries[1].ws
    && entries[0].content != entries[1].content && !AllBlobsEqual(entries)
  }

  lemma {:induction false} PairFold<C(!new), A, E>(tools: Tools<C, A, E>, path: Path, entries: seq<Entry<C>>, base: C)
    requires TwoEntries(entries)
    ensures var x, y := entries[0], entries[1];
            var first := tools.diff3(base, x.content.value, y.content.value);
            var end := EndOf(tools, entries, base);
            && (first.Err? ==> end == Failed(first.error))
            && (first.Ok? && first.value.CleanMerge? ==> end == Merged(first.value.merged))
            && (first.Ok? && first.value.Markers? ==>
                   end == StuckAt(1, first.value.output)
                   && StuckOutcome(tools, path, entries, base, 1, first.value.output)
                          == PairConflict(tools, path, x, y, base, first.value.output))
    ensures !AllEqual(Values(entries))
  {
    var values, ids := Values(entries), Ids(entries);
    assert values == [entries[0].content.value, entries[1].content.value] && ids == [entries[0].ws, entries[1].ws];
    var first := tools.diff3(base, values[0], values[1]);
    if first.Ok? && first.value.CleanMerge? {
      assert FoldFrom(tools, base, first.value.merged, values, 2) == Merged(first.value.merged);
    }
    if first.Ok? && first.value.Markers? {
      assert ids[..1] == [ids[0]] && values[..1] == [values[0]];
      assert Overlapping(tools, base, ids[..1], values[..1], values[1]) == [ids[0]] by {
        assert ids[..1][..0] == [] && values[..1][..0] == [];
      }
      assert entries[1..] == [entries[1]] && entries[1..][1..] == [];
      assert Only(entries[1..], [ids[0], ids[1]]) == [entries[1]] + Only(entries[1..][1..], [ids[0], ids[1]]);
      assert Only(entries, [ids[0], ids[1]]) == [entries[0], entries[1]];
      assert [ids[0]] + [ids[1]] == [ids[0], ids[1]];
    }
  }

  /** The AST-off pipeline on two workspaces: one diff3, and no retry. */
  lemma {:induction false} AstOffPair<C(!new), A, E>(tools: Tools<C, A, E>, path: Path, entries: seq<Entry<C>>, base: C)
    requires TwoEntries(entries)
    ensures var x, y := entries[0], entries[1];
            var first := tools.diff3(base, x.content.value, y.content.value);
            WithAst(tools, None, path, entries, Some(base))
            == if first.Err? then Err(first.error)
               else if first.value.CleanMerge? then Ok(Resolved(UpsertPath(path, first.value.merged)))
               else Ok(PairConflict(tools, path, x, y, base, first.value.output))
  {
    PairFold(tools, path, entries, base);
    AstFollowsFold(tools, path, entries, base);
  }

  /**
   * The plain pipeline on two workspaces: the first diff3 decides unless it conflicts and a side can be moved; then the
   * second one does, and when that conflicts too the conflict shown is the first one's.
   */
  lemma {:induction false} PlainPair<C(!new), A, E>(tools: Tools<C, A, E>, path: Path, entries: seq<Entry<C>>, base: C)
    requires TwoEntries(entries)
    ensures var x, y := entries[0], entries[1];
            var first := tools.diff3(base, x.content.value, y.content.value);
            var second := SecondTry(tools, base, x.content.value, y.content.value);
            var decides := if first.Ok? && first.value.Markers? && SomeSideMoves(tools, base, x.content.value, y.content.value) then second
                           else first;
            Plain(tools, path, entries, Some(base))
            == if decides.Err? then Err(decides.error)
               else if decides.value.CleanMerge? then Ok(Resolved(UpsertPath(path, decides.value.merged)))
               else Ok(PairConflict(tools, path, x, y, base, first.value.output))
  {
    var values := Values(entries);
    PairFold(tools, path, entries, base);
    LiveSettles(entries, Some(base));
    RetryExact(tools, base, values[0], values[1]);
    assert values[1..] == [values[1]] && values[1..][1..] == [];
    PlainFollowsFold(tools, path, entries, base, Fold(WithRetry(tools), base, values[0], values[1..]));
  }

  /** Turning the AST engine on changes nothing but diff3 conflicts. */
  lemma {:induction false} AstOnlyTouchesConflicts<C(!new), A, E>(tools: Tools<C, A, E>, ast: AstEngine<C, A>, path: Path,
        entries: seq<Entry<C>>, base: Option<C>)
    ensures var on, off := WithAst(tools, Some(ast), path, entries, base), WithAst(tools, None, path, entries, base);
            || on == off
            || (&& off.Ok? && off.value.Conflicted? && off.value.record.reason == Diff3Conflict && on.Ok?
                && (on.value.Conflicted? ==>
                      && on.value.record.reason == Diff3Conflict && on.value.record.base == base
                      && forall s :: s in on.value.record.sides ==> exists e :: e in entries && s == Side(e.ws, e.kind, e.content)))
  {
    var off := WithAst(tools, None, path, entries, base);
    if off.Ok? && off.value.Conflicted? && off.value.record.reason == Diff3Conflict {
      var values, ids, end := Values(entries), Ids(entries), EndOf(tools, entries, base.value);
      var folded := Probe(tools, base.value, ids[..end.trigger], values[..end.trigger], values[end.trigger]);
      AstConflictSides(tools, ast, path, entries, base.value, values, folded, ids[end.trigger], end.output);
    }
  }

  lemma {:induction false} AstConflictSides<C(!new), A, E>(tools: Tools<C, A, E>, ast: AstEngine<C, A>, path: Path,
        entries: seq<Entry<C>>,
        base: C, values: seq<C>, folded: seq<WorkspaceId>, trigger: WorkspaceId, output: C)
    requires |values| == |entries|
    ensures var r := AfterStuck(tools, Some(ast), path, entries, base, values, folded, trigger, output);
            r.Conflicted? ==>
              && r.record.reason == Diff3Conflict && r.record.base == Some(base)
              && forall s :: s in r.record.sides ==> exists e :: e in entries && s == Side(e.ws, e.kind, e.content)
  {
    forall ids: seq<WorkspaceId>, e: Entry<C> ensures e in Only(entries, ids) <==> e in entries && e.ws in ids {
      OnlyMembers(entries, ids, e);
    }
  }

  lemma {:induction false} OnlyMembers<C>(entries: seq<Entry<C>>, ids: seq<WorkspaceId>, e: Entry<C>)
    ensures e in Only(entries, ids) <==> e in entries && e.ws in ids
  {
    if entries != [] { OnlyMembers(entries[1..], ids, e); }
  }

  // ----- the replay

  lemma {:induction false} ConflictNeedsLive<C(!new), A, E>(tools: Tools<C, A, E>, entries: seq<Entry<C>>, base: Option<C>)
    requires Resolve(Kinds(entries), EffectiveContents(entries), base, WithRetry(tools)) == Ok(Conflict(Diff3Conflict))
    ensures Live(entries) && base.Some? && !AllBlobsEqual(entries) && !AllEqual(Values(entries))
  {
    if Live(entries) { LiveSettles(entries, base); } else { DeadSettles(entries, base); }
  }

  /**
   * Whatever diff3 and the retry are: when the real merge reports a diff3 conflict, the replay does reach its conflict
   * arm, and the real fold had got cleanly past every variant before the replay's trigger.
   */
  lemma {:induction false} ReplayFindsTheConflict<C(!new), A, E>(tools: Tools<C, A, E>, entries: seq<Entry<C>>,
        base: Option<C>)
    requires Resolve(Kinds(entries), EffectiveContents(entries), base, WithRetry(tools)) == Ok(Conflict(Diff3Conflict))
    ensures Live(entries) && base.Some?
    ensures var values, ids, end := Values(entries), Ids(entries), EndOf(tools, entries, base.value);
            && end.StuckAt?
            && (var before := Fold(WithRetry(tools), base.value, values[0], values[1..end.trigger]);
                before.Ok? && before.value.Clean?)
            && Recovered(tools, entries, base).1
               == Probe(tools, base.value, ids[..end.trigger], values[..end.trigger], values[end.trigger]) + [ids[end.trigger]]
  {
    ConflictNeedsLive(tools, entries, base);
    LiveSettles(entries, base);
    FoldsRelate(tools, base.value, Values(entries)[0], Values(entries), 1);
    RecoveredNames(tools, entries, base.value);
  }

  lemma {:induction false} RecoveredNames<C(!new), A, E>(tools: Tools<C, A, E>, entries: seq<Entry<C>>, base: C)
    requires AllHaveContent(entries) && |entries| >= 2
    ensures var values, ids, end := Values(entries), Ids(entries), EndOf(tools, entries, base);
            end.StuckAt? ==>
              Recovered(tools, entries, Some(base)).1
              == Probe(tools, base, ids[..end.trigger], values[..end.trigger], values[end.trigger]) + [ids[end.trigger]]
  {
    PresentIsValues(entries);
  }

  // ----- conflicts under any diff3

  predicate IsClean<C, E>(r: Result<Diff3Outcome<C>, E>) {
    r.Ok? && r.value.CleanMerge?
  }

  /** The merges after each entry in turn: an entry equal to the merge so far changes nothing, any other goes through diff3. */
  ghost predicate IsTrace<C(!new), A, E>(tools: Tools<C, A, E>, base: C, values: seq<C>, trace: seq<C>) {
    && |trace| == |values| > 0 && trace[0] == values[0]
    && forall i :: 1 <= i < |trace| ==>
         if values[i] == trace[i - 1] then trace[i] == trace[i - 1]
         else tools.diff3(base, trace[i - 1], values[i]) == Ok(CleanMerge(trace[i]))
  }

  lemma {:induction false} TraceMerges<C(!new), A, E>(tools: Tools<C, A, E>, base: C, values: seq<C>, trace: seq<C>, i: nat)
    requires IsTrace(tools, base, values, trace) && 1 <= i <= |values|
    ensures FoldFrom(tools, base, trace[i - 1], values, i) == Merged(trace[|trace| - 1])
    decreases |values| - i
  {
    if i < |values| { TraceMerges(tools, base, values, trace, i + 1); }
  }

  lemma {:induction false} MergedHasTrace<C(!new), A, E>(tools: Tools<C, A, E>, base: C, values: seq<C>, trace: seq<C>)
    returns (all: seq<C>)
    requires 1 <= |trace| <= |values| && IsTrace(tools, base, values[..|trace|], trace)
    requires FoldFrom(tools, base, trace[|trace| - 1], values, |trace|).Merged?
    ensures IsTrace(tools, base, values, all)
    ensures FoldFrom(tools, base, trace[|trace| - 1], values, |trace|) == Merged(all[|all| - 1])
    decreases |values| - |trace|
  {
    var i, merged := |trace|, trace[|trace| - 1];
    if i == |values| {
      assert values[..i] == values;
      all := trace;
    } else {
      var next := if values[i] == merged then merged else tools.diff3(base, merged, values[i]).value.merged;
      assert forall k :: 0 <= k < i ==> values[..i + 1][k] == values[..i][k];
      all := MergedHasTrace(tools, base, values, trace + [next]);
    }
  }

  /** The AST-off pipeline merges `values` to `out` exactly when going through them one by one does. */
  lemma {:induction false} MergedIff<C(!new), A, E>(tools: Tools<C, A, E>, base: C, values: seq<C>, out: C)
    requires values != []
    ensures FoldFrom(tools, base, values[0], values, 1) == Merged(out)
            <==> exists trace :: IsTrace(tools, base, values, trace) && trace[|trace| - 1] == out
  {
    if FoldFrom(tools, base, values[0], values, 1) == Merged(out) {
      assert values[..1] == [values[0]];
      var all := MergedHasTrace(tools, base, values, [values[0]]);
    }
    if trace :| IsTrace(tools, base, values, trace) && trace[|trace| - 1] == out {
      TraceMerges(tools, base, values, trace, 1);
    }
  }

  /** Where the fold got stuck: everything before merged, and diff3 of that merge with the next file printed the markers. */
  lemma {:induction false} StuckStep<C(!new), A, E>(tools: Tools<C, A, E>, base: C, merged: C, variants: seq<C>, i: nat)
    requires i <= |variants| && FoldFrom(tools, base, merged, variants, i).StuckAt?
    ensures var end := FoldFrom(tools, base, merged, variants, i);
            var before := FoldFrom(tools, base, merged, variants[..end.trigger], i);
            before.Merged? && tools.diff3(base, before.out, variants[end.trigger]) == Ok(Markers(end.output))
    decreases |variants| - i
  {
    var end := FoldFrom(tools, base, merged, variants, i);
    assert end.trigger > i ==> variants[..end.trigger][i] == variants[i];
    if merged == variants[i] {
      StuckStep(tools, base, merged, variants, i + 1);
    } else if tools.diff3(base, merged, variants[i]).value.CleanMerge? {
      StuckStep(tools, base, tools.diff3(base, merged, variants[i]).value.merged, variants, i + 1);
    }
  }

  lemma {:induction false} OverlappingIff<C, A, E>(tools: Tools<C, A, E>, base: C, ids: seq<WorkspaceId>, members: seq<C>,
        trigger: C, k: nat)
    requires |ids| == |members| && Distinct(ids) && k < |ids|
    ensures ids[k] in Overlapping(tools, base, ids, members, trigger) <==> !IsClean(tools.diff3(base, members[k], trigger))
    decreases |members|
  {
    var n := |members| - 1;
    if k < n {
      OverlappingIff(tools, base, ids[..n], members[..n], trigger, k);
    } else {
      assert ids[n] !in ids[..n];
    }
  }

  /** The probe keeps the members that do not merge cleanly with the trigger on their own, and everybody when all of them do. */
  lemma {:induction false} ProbeExact<C(!new), A, E>(tools: Tools<C, A, E>, base: C, ids: seq<WorkspaceId>, members: seq<C>,
        trigger: C, k: nat)
    requires |ids| == |members| && Distinct(ids) && k < |ids|
    ensures ids[k] in Probe(tools, base, ids, members, trigger)
            <==> || !IsClean(tools.diff3(base, members[k], trigger))
                 || forall j :: 0 <= j < |members| ==> IsClean(tools.diff3(base, members[j], trigger))
  {
    forall j | 0 <= j < |ids|
      ensures ids[j] in Overlapping(tools, base, ids, members, trigger) <==> !IsClean(tools.diff3(base, members[j], trigger))
    {
      OverlappingIff(tools, base, ids, members, trigger, j);
    }
    var folded := Overlapping(tools, base, ids, members, trigger);
    if folded != [] {
      assert folded[0] in folded;
      var j :| 0 <= j < |ids| && ids[j] == folded[0];
    }
  }

  /** A conflict over `base` whose trigger is entry `t`; its atoms are those of `output` under the names of both parties. */
  ghost predicate IsStuckRecord<C(!new), A, E>(tools: Tools<C, A, E>, entries: seq<Entry<C>>, base: C, t: nat, output: C,
                                               record: ConflictRecord<C, A>)
    requires AllHaveContent(entries) && t < |entries|
  {
    var values := Values(entries);
    var allClean := forall j :: 0 <= j < t ==> IsClean(tools.diff3(base, values[j], values[t]));
    && record.base == Some(base) && record.reason == Diff3Conflict
    && (forall k :: 0 <= k < |entries| ==>
          (Side(entries[k].ws, entries[k].kind, entries[k].content) in record.sides
           <==> k == t || (k < t && (allClean || !IsClean(tools.diff3(base, values[k], values[t]))))))
    && exists folded: seq<WorkspaceId> ::
         && record.atoms == tools.atoms(output, JoinWith(folded, "+"), entries[t].ws)
         && forall k :: 0 <= k < |entries| ==>
              (entries[k].ws in folded <==> k < t && (allClean || !IsClean(tools.diff3(base, values[k], values[t]))))
  }

  /**
   * Every diff3 conflict of the AST-off pipeline, whatever diff3 is: some entry does not merge into the merge of those before
   * it. Its sides are that entry and the earlier ones that conflict with it on their own, or all of them when none does; and
   * its atoms are read from the markers of that one diff3, labelled with the earlier sides and with the entry.
   */
  lemma {:induction false} StuckExact<C(!new), A, E>(tools: Tools<C, A, E>, path: Path, entries: seq<Entry<C>>, base: C)
    returns (t: nat, merged: C, output: C)
    requires Live(entries) && Distinct(Ids(entries))
    requires var r := WithAst(tools, None, path, entries, Some(base)); r.Ok? && r.value.Conflicted?
    ensures 1 <= t < |entries|
    ensures FoldFrom(tools, base, Values(entries)[0], Values(entries)[..t], 1) == Merged(merged)
    ensures tools.diff3(base, merged, Values(entries)[t]) == Ok(Markers(output))
    ensures IsStuckRecord(tools, entries, base, t, output, WithAst(tools, None, path, entries, Some(base)).value.record)
  {
    ConflictIsStuck(tools, path, entries, base);
    var end := EndOf(tools, entries, base);
    t, output := end.trigger, end.output;
    StuckStep(tools, base, Values(entries)[0], Values(entries), 1);
    merged := FoldFrom(tools, base, Values(entries)[0], Values(entries)[..t], 1).out;
    StuckIsRecorded(tools, path, entries, base, t, output);
  }

  lemma {:induction false} StuckIsRecorded<C(!new), A, E>(tools: Tools<C, A, E>, path: Path, entries: seq<Entry<C>>, base: C,
        t: nat, output: C)
    requires Live(entries) && Distinct(Ids(entries)) && t < |entries|
    ensures IsStuckRecord(tools, entries, base, t, output, StuckOutcome(tools, path, entries, base, t, output).record)
  {
    var values, ids := Values(entries), Ids(entries);
    var folded := Probe(tools, base, ids[..t], values[..t], values[t]);
    var allClean := forall j :: 0 <= j < t ==> IsClean(tools.diff3(base, values[j], values[t]));
    forall k | 0 <= k < |entries|
      ensures ids[k] in folded <==> k < t && (allClean || !IsClean(tools.diff3(base, values[k], values[t])))
    {
      OneFolded(tools, base, ids, values, t, k);
    }
    var record := StuckOutcome(tools, path, entries, base, t, output).record;
    var ps := folded + [ids[t]];
    forall k | 0 <= k < |entries|
      ensures Side(entries[k].ws, entries[k].kind, entries[k].content) in record.sides <==> ids[k] in ps
    {
      SideIffNamed(path, entries, base, ps, record.atoms, k);
    }
  }

  lemma {:induction false} OneFolded<C(!new), A, E>(tools: Tools<C, A, E>, base: C, ids: seq<WorkspaceId>, values: seq<C>,
        t: nat, k: nat)
    requires |ids| == |values| && Distinct(ids) && t < |ids| && k < |ids|
    ensures ids[k] in Probe(tools, base, ids[..t], values[..t], values[t])
            <==> && k < t
                 && (|| !IsClean(tools.diff3(base, values[k], values[t]))
                     || forall j :: 0 <= j < t ==> IsClean(tools.diff3(base, values[j], values[t])))
  {
    assert forall j :: 0 <= j < t ==> values[..t][j] == values[j] && ids[..t][j] == ids[j];
    if k < t {
      ProbeExact(tools, base, ids[..t], values[..t], values[t], k);
    } else {
      assert ids[k] !in ids[..t];
    }
  }

  lemma {:induction false} SideIffNamed<C(!new), A>(path: Path, entries: seq<Entry<C>>, base: C, ps: seq<WorkspaceId>,
        atoms: seq<A>, k: nat)
    requires k < |entries|
    ensures var sides := Record(path, Only(entries, ps), Some(base), Diff3Conflict, atoms).sides;
            Side(entries[k].ws, entries[k].kind, entries[k].content) in sides <==> entries[k].ws in ps
  {
    var chosen := Only(entries, ps);
    var sides := Record(path, chosen, Some(base), Diff3Conflict, atoms).sides;
    var side := Side(entries[k].ws, entries[k].kind, entries[k].content);
    OnlyMembers(entries, ps, entries[k]);
    if entries[k] in chosen {
      var j :| 0 <= j < |chosen| && chosen[j] == entries[k];
      assert sides[j] == side;
    }
    if side in sides {
      var j :| 0 <= j < |chosen| && sides[j] == side;
      OnlyMembers(entries, ps, chosen[j]);
    }
  }

  // ----- what is settled without diff3

  /** Every entry is a side, in order. */
  ghost predicate AllSides<C>(entries: seq<Entry<C>>, sides: seq<Side<C>>) {
    |sides| == |entries| && forall k :: 0 <= k < |entries| ==> sides[k] == Side(entries[k].ws, entries[k].kind, entries[k].content)
  }

  ghost predicate IsPlainConflict<C, A, E>(r: Result<SharedOutcome<C, A>, E>, path: Path, entries: seq<Entry<C>>, base: Option<C>,
                                           reason: ConflictReason)
  {
    && r.Ok? && r.value.Conflicted?
    && r.value.record.path == path && r.value.record.base == base && r.value.record.reason == reason && r.value.record.atoms == []
    && AllSides(entries, r.value.record.sides)
  }

  /** What a path comes to before any diff3, given which of five questions about its entries have the answer yes. */
  ghost predicate Settled<C(!new), A, E>(r: Result<SharedOutcome<C, A>, E>, path: Path, entries: seq<Entry<C>>, base: Option<C>,
                                         allDeleted: bool, anyDeleted: bool, anyMissing: bool, allSame: bool, allAdded: bool)
    requires !allDeleted && !anyDeleted && !anyMissing ==> Live(entries)
  {
    if allDeleted then r == Ok(Resolved(DeletePath(path)))
    else if anyDeleted then IsPlainConflict(r, path, entries, base, ModifyDelete)
    else if anyMissing then IsPlainConflict(r, path, entries, base, MissingContent)
    else if allSame then r == Ok(Resolved(UpsertPath(path, entries[0].content.value)))
    else if base.None? && !AllBlobsEqual(entries) then
      IsPlainConflict(r, path, entries, None, if allAdded then AddAddDifferent else MissingBase)
    else true
  }

  ghost predicate EveryDeleted<C(!new)>(entries: seq<Entry<C>>) { forall e :: e in entries ==> e.kind.Deleted? }

  ghost predicate SomeDeleted<C(!new)>(entries: seq<Entry<C>>) { exists e :: e in entries && e.kind.Deleted? }

  ghost predicate SomeMissing<C(!new)>(entries: seq<Entry<C>>) { exists e :: e in entries && e.content.None? }

  ghost predicate SameContents<C(!new)>(entries: seq<Entry<C>>) { forall e, f :: e in entries && f in entries ==> e.content == f.content }

  ghost predicate EveryAdded<C(!new)>(entries: seq<Entry<C>>) { forall e :: e in entries ==> e.kind.Added? }

  lemma {:induction false} NothingWrongIsLive<C(!new)>(entries: seq<Entry<C>>)
    ensures !EveryDeleted(entries) && !SomeDeleted(entries) && !SomeMissing(entries) ==> Live(entries)
  {
    KindsSettle(entries);
    assert forall i :: 0 <= i < |entries| ==> entries[i] in entries;
  }

  ghost predicate IsSettled<C(!new), A, E>(r: Result<SharedOutcome<C, A>, E>, path: Path, entries: seq<Entry<C>>, base: Option<C>) {
    NothingWrongIsLive(entries);
    Settled(r, path, entries, base, EveryDeleted(entries), SomeDeleted(entries), SomeMissing(entries),
            SameContents(entries), EveryAdded(entries))
  }

  /**
   * Both pipelines, before any diff3: deletions only delete the path; a deletion beside something else is a modify/delete
   * conflict; else missing content is a conflict of its own; else equal contents are written; and without a base different
   * contents are an add/add conflict when every workspace added the path, and a missing base otherwise. Every entry is a side.
   */
  lemma {:induction false} SettledExact<C(!new), A, E>(tools: Tools<C, A, E>, path: Path, entries: seq<Entry<C>>, base: Option<C>)
    ensures IsSettled(WithAst(tools, None, path, entries, base), path, entries, base)
    ensures IsSettled(Plain(tools, path, entries, base), path, entries, base)
  {
    KindsSettle(entries);
    NothingWrongIsLive(entries);
    AstIsSettled(tools, path, entries, base);
    PlainAgrees(tools, path, entries, base);
  }

  lemma {:induction false} PlainAgrees<C(!new), A, E>(tools: Tools<C, A, E>, path: Path, entries: seq<Entry<C>>, base: Option<C>)
    ensures !Live(entries) || SameContents(entries) || base.None? ==>
              Plain(tools, path, entries, base) == WithAst(tools, None, path, entries, base)
  {
    if !Live(entries) {
      DeadAgree(tools, path, entries, base);
    } else if SameContents(entries) || base.None? {
      EqualContents(entries);
      SettledAgree(tools, path, entries, base);
    }
  }

  lemma {:induction false} EqualContents<C(!new)>(entries: seq<Entry<C>>)
    requires Live(entries)
    ensures AllEqual(Values(entries)) <==> SameContents(entries)
  {
    if SameContents(entries) { assert forall i :: 0 <= i < |entries| ==> entries[i] in entries; }
    if AllEqual(Values(entries)) {
      forall e | e in entries ensures e.content == entries[0].content {
        var i :| 0 <= i < |entries| && entries[i] == e;
        assert Values(entries)[i] == Values(entries)[0];
      }
    }
  }

  lemma {:induction false} KindsSettle<C(!new)>(entries: seq<Entry<C>>)
    ensures AllDeleted(Kinds(entries)) <==> EveryDeleted(entries)
    ensures AnyDeleted(Kinds(entries)) <==> SomeDeleted(entries)
    ensures AllAdded(Kinds(entries)) <==> EveryAdded(entries)
    ensures AllHaveContent(entries) <==> !SomeMissing(entries)
  {
    assert forall i :: 0 <= i < |entries| ==> entries[i] in entries && Kinds(entries)[i] == entries[i].kind;
  }

  lemma {:induction false} RecordIsPlain<C(!new), A, E>(path: Path, entries: seq<Entry<C>>, base: Option<C>, reason: ConflictReason)
    ensures IsPlainConflict<C, A, E>(Ok(Conflicted(Record(path, entries, base, reason, []))), path, entries, base, reason)
  {
  }

  lemma {:induction false} AstIsSettled<C(!new), A, E>(tools: Tools<C, A, E>, path: Path, entries: seq<Entry<C>>, base: Option<C>)
    ensures IsSettled(WithAst(tools, None, path, entries, base), path, entries, base)
  {
    KindsSettle(entries);
    NothingWrongIsLive(entries);
    if Live(entries) { EqualContents(entries); }
    AnswersSettle(tools, path, entries, base);
  }

  lemma {:induction false} AnswersSettle<C(!new), A, E>(tools: Tools<C, A, E>, path: Path, entries: seq<Entry<C>>, base: Option<C>)
    requires !AllDeleted(Kinds(entries)) && !AnyDeleted(Kinds(entries)) && AllHaveContent(entries) ==> Live(entries)
    ensures Settled(WithAst(tools, None, path, entries, base), path, entries, base, AllDeleted(Kinds(entries)),
                    AnyDeleted(Kinds(entries)), !AllHaveContent(entries), AllHaveContent(entries) && AllEqual(Values(entries)),
                    AllAdded(Kinds(entries)))
  {
    RecordIsPlain<C, A, E>(path, entries, base, ModifyDelete);
    RecordIsPlain<C, A, E>(path, entries, base, MissingContent);
    RecordIsPlain<C, A, E>(path, entries, None, if AllAdded(Kinds(entries)) then AddAddDifferent else MissingBase);
  }

  // ----- line-wise attribution

  ghost predicate LineWise<V(!new), A, E>(tools: Tools<seq<V>, A, E>) {
    forall b: seq<V>, o: seq<V>, t: seq<V> ::
      && tools.diff3(b, o, t).Ok?
      && match LineDiff3(b, o, t)
         case Overlap => tools.diff3(b, o, t).value.Markers?
         case Clean(c) => tools.diff3(b, o, t).value == CleanMerge(c)
  }

  lemma {:induction false} StuckAtFirstClash<V(!new), A, E>(tools: Tools<seq<V>, A, E>, base: seq<V>, merged: seq<V>,
        variants: seq<seq<V>>, i: nat)
    requires LineWise(tools) && i <= |variants| && Aligned(base, variants) && Aligned(base, variants[..i])
    requires !Clash(base, variants[..i]) && Joins(base, variants[..i], merged)
    ensures forall k :: 0 <= k <= |variants| ==> Aligned(base, variants[..k])
    ensures match FoldFrom(tools, base, merged, variants, i)
            case Failed(_) => false
            case Merged(out) => !Clash(base, variants) && Joins(base, variants, out)
            case StuckAt(t, _) => !Clash(base, variants[..t]) && Clash(base, variants[..t + 1])
    decreases |variants| - i
  {
    if i == |variants| {
      assert variants[..i] == variants;
    } else {
      var next := variants[i];
      NextJoins(base, merged, variants, i);
      if merged == next {
        StuckAtFirstClash(tools, base, merged, variants, i + 1);
      } else if LineDiff3(base, merged, next).Clean? {
        StuckAtFirstClash(tools, base, LineDiff3(base, merged, next).merged, variants, i + 1);
      }
    }
  }

  lemma {:induction false} NextJoins<V(!new)>(base: seq<V>, merged: seq<V>, variants: seq<seq<V>>, i: nat)
    requires i < |variants| && Aligned(base, variants) && Aligned(base, variants[..i])
    requires !Clash(base, variants[..i]) && Joins(base, variants[..i], merged)
    ensures forall k :: 0 <= k <= |variants| ==> Aligned(base, variants[..k])
    ensures merged == variants[i] ==> !Clash(base, variants[..i + 1]) && Joins(base, variants[..i + 1], merged)
    ensures LineDiff3(base, merged, variants[i]).Overlap? <==> Clash(base, variants[..i + 1])
    ensures LineDiff3(base, merged, variants[i]).Clean? ==> Joins(base, variants[..i + 1], LineDiff3(base, merged, variants[i]).merged)
  {
    assert variants[..i + 1] == variants[..i] + [variants[i]];
    JoinStep(base, variants[..i], merged, variants[i]);
  }

  /** Two files change one line to different values. */
  ghost predicate PairOverlaps<V(!new)>(base: seq<V>, a: seq<V>, b: seq<V>)
    requires |a| == |b| == |base|
  {
    exists l :: 0 <= l < |base| && Apart(base[l], a[l], b[l])
  }

  lemma {:induction false} PairOverlapIsDiff3<V(!new)>(base: seq<V>, a: seq<V>, b: seq<V>)
    requires |a| == |b| == |base|
    ensures PairOverlaps(base, a, b) <==> LineDiff3(base, a, b).Overlap?
  {
    if PairOverlaps(base, a, b) {
      var l :| 0 <= l < |base| && Apart(base[l], a[l], b[l]);
      assert StubDiff3(base[l], a[l], b[l]).Overlap?;
    }
  }

  /** Index `t` is the first entry that overlaps an entry before it. */
  ghost predicate FirstOverlap<V(!new)>(base: seq<V>, variants: seq<seq<V>>, t: nat)
    requires Aligned(base, variants)
  {
    && t < |variants|
    && (exists i :: 0 <= i < t && PairOverlaps(base, variants[i], variants[t]))
    && (forall i, j :: 0 <= i < j < t ==> !PairOverlaps(base, variants[i], variants[j]))
  }

  lemma {:induction false} FirstClashIsFirstOverlap<V(!new)>(base: seq<V>, variants: seq<seq<V>>, t: nat)
    requires Aligned(base, variants) && t < |variants|
    requires Aligned(base, variants[..t]) && Aligned(base, variants[..t + 1])
    requires !Clash(base, variants[..t]) && Clash(base, variants[..t + 1])
    ensures FirstOverlap(base, variants, t)
  {
    var u, v, l :| u in variants[..t + 1] && v in variants[..t + 1] && 0 <= l < |base| && Apart(base[l], u[l], v[l]);
    assert variants[..t + 1] == variants[..t] + [variants[t]];
    var w := if v in variants[..t] then v else u;
    assert w in variants[..t];
    var i :| 0 <= i < t && variants[..t][i] == w;
    assert PairOverlaps(base, variants[i], variants[t]);
    forall i, j | 0 <= i < j < t ensures !PairOverlaps(base, variants[i], variants[j]) {
      assert variants[..t][i] in variants[..t] && variants[..t][j] in variants[..t];
    }
  }

  /** A member named `id` overlaps the trigger. */
  ghost predicate OverlapsAs<V(!new)>(base: seq<V>, ids: seq<WorkspaceId>, members: seq<seq<V>>, trigger: seq<V>, id: WorkspaceId)
    requires |ids| == |members| && Aligned(base, members) && |trigger| == |base|
  {
    exists i :: 0 <= i < |ids| && ids[i] == id && PairOverlaps(base, members[i], trigger)
  }

  lemma {:induction false} PairwiseExact<V(!new), A, E>(tools: Tools<seq<V>, A, E>, base: seq<V>, member: seq<V>, trigger: seq<V>)
    requires LineWise(tools) && |member| == |trigger| == |base|
    ensures PairwiseClean(tools, base, member, trigger) <==> !PairOverlaps(base, member, trigger)
  {
    PairOverlapIsDiff3(base, member, trigger);
  }

  lemma {:induction false} OneMoreMember<V(!new)>(base: seq<V>, ids: seq<WorkspaceId>, members: seq<seq<V>>, trigger: seq<V>,
        id: WorkspaceId)
    requires |ids| == |members| > 0 && Aligned(base, members) && |trigger| == |base|
    ensures var n := |ids| - 1;
            Aligned(base, members[..n])
            && (OverlapsAs(base, ids, members, trigger, id)
                <==> || (ids[n] == id && PairOverlaps(base, members[n], trigger))
                     || OverlapsAs(base, ids[..n], members[..n], trigger, id))
  {
    var n := |ids| - 1;
    if i :| 0 <= i < |ids| && ids[i] == id && PairOverlaps(base, members[i], trigger) {
      assert i < n ==> ids[..n][i] == id && members[..n][i] == members[i];
    }
    if i :| 0 <= i < n && ids[..n][i] == id && PairOverlaps(base, members[..n][i], trigger) {
      assert ids[i] == id && members[i] == members[..n][i];
    }
  }

  lemma {:induction false} OverlappingExact<V(!new), A, E>(tools: Tools<seq<V>, A, E>, base: seq<V>, ids: seq<WorkspaceId>,
        members: seq<seq<V>>, trigger: seq<V>, id: WorkspaceId)
    requires LineWise(tools) && |ids| == |members| && Aligned(base, members) && |trigger| == |base|
    ensures id in Overlapping(tools, base, ids, members, trigger) <==> OverlapsAs(base, ids, members, trigger, id)
    decreases |members|
  {
    if members != [] {
      var n := |members| - 1;
      OverlappingExact(tools, base, ids[..n], members[..n], trigger, id);
      PairwiseExact(tools, base, members[n], trigger);
      OneMoreMember(base, ids, members, trigger, id);
    }
  }

  ghost predicate SidesAre<V(!new), A>(entries: seq<Entry<seq<V>>>, base: seq<V>, t: nat, record: ConflictRecord<seq<V>, A>)
    requires t < |entries| && LineEntries(entries, base)
  {
    && record.reason == Diff3Conflict
    && |record.sides| >= 2
    && forall k :: 0 <= k < |entries| ==>
         (Side(entries[k].ws, entries[k].kind, entries[k].content) in record.sides
          <==> k == t || (k < t && PairOverlaps(base, Values(entries)[k], Values(entries)[t])))
  }

  /** Entries of one path whose files all have base's lines, from distinct workspaces. */
  ghost predicate LineEntries<V(!new)>(entries: seq<Entry<seq<V>>>, base: seq<V>) {
    && Live(entries)
    && Distinct(Ids(entries))
    && Aligned(base, Values(entries))
  }

  /**
   * The same with no AST language for the path, where no retry can turn the conflict into something else: every conflict
   * of that pipeline names the first entry that overlaps an earlier one, and the earlier entries that overlap it.
   */
  lemma {:induction false} AstOffSidesExact<V(!new), A, E>(tools: Tools<seq<V>, A, E>, path: Path,
        entries: seq<Entry<seq<V>>>, base: seq<V>)
    returns (t: nat)
    requires LineWise(tools) && LineEntries(entries, base)
    requires var r := WithAst(tools, None, path, entries, Some(base)); r.Ok? && r.value.Conflicted?
    ensures FirstOverlap(base, Values(entries), t)
    ensures SidesAre(entries, base, t, WithAst(tools, None, path, entries, Some(base)).value.record)
  {
    ConflictIsStuck(tools, path, entries, base);
    var end := EndOf(tools, entries, base);
    t := end.trigger;
    StuckTrigger(tools, entries, base);
    StuckSidesExact(tools, path, entries, base, t, end.output);
  }

  /**
   * Under line-wise diff3, with any alignment retry: a conflict names exactly the first entry that overlaps an earlier
   * one, and the earlier entries that overlap it on their own. There are at least two of them, so the probe's
   * keep-everybody fallback is never what produced them.
   */
  lemma {:induction false} SidesExact<V(!new), A, E>(tools: Tools<seq<V>, A, E>, path: Path,
        entries: seq<Entry<seq<V>>>, base: seq<V>)
    returns (t: nat)
    requires LineWise(tools) && LineEntries(entries, base)
    requires var r := Plain(tools, path, entries, Some(base)); r.Ok? && r.value.Conflicted?
    ensures FirstOverlap(base, Values(entries), t)
    ensures SidesAre(entries, base, t, Plain(tools, path, entries, Some(base)).value.record)
  {
    PipelinesAgree(tools, path, entries, Some(base));
    t := AstOffSidesExact(tools, path, entries, base);
  }

  lemma {:induction false} StuckTrigger<V(!new), A, E>(tools: Tools<seq<V>, A, E>, entries: seq<Entry<seq<V>>>, base: seq<V>)
    requires LineWise(tools) && LineEntries(entries, base) && EndOf(tools, entries, base).StuckAt?
    ensures FirstOverlap(base, Values(entries), EndOf(tools, entries, base).trigger)
  {
    var values := Values(entries);
    assert values[..1] == [values[0]];
    StuckAtFirstClash(tools, base, values[0], values, 1);
    FirstClashIsFirstOverlap(base, values, EndOf(tools, entries, base).trigger);
  }

  lemma {:induction false} ConflictIsStuck<C(!new), A, E>(tools: Tools<C, A, E>, path: Path, entries: seq<Entry<C>>, base: C)
    requires Live(entries)
    requires var r := WithAst(tools, None, path, entries, Some(base)); r.Ok? && r.value.Conflicted?
    ensures var end := EndOf(tools, entries, base);
            && end.StuckAt?
            && WithAst(tools, None, path, entries, Some(base)) == Ok(StuckOutcome(tools, path, entries, base, end.trigger, end.output))
  {
    if AllBlobsEqual(entries) || AllEqual(Values(entries)) {
      SettledAgree(tools, path, entries, Some(base));
    } else {
      AstFollowsFold(tools, path, entries, base);
    }
  }

  lemma {:induction false} StuckSidesExact<V(!new), A, E>(tools: Tools<seq<V>, A, E>, path: Path,
        entries: seq<Entry<seq<V>>>, base: seq<V>,
        t: nat, output: seq<V>)
    requires LineWise(tools) && LineEntries(entries, base) && FirstOverlap(base, Values(entries), t)
    ensures SidesAre(entries, base, t, StuckOutcome(tools, path, entries, base, t, output).record)
  {
    var values, ids := Values(entries), Ids(entries);
    var folded := Probe(tools, base, ids[..t], values[..t], values[t]);
    ParticipantsExact(tools, base, ids, values, t);
    SidesFromParticipants(path, entries, base, t, folded + [ids[t]], tools.atoms(output, JoinWith(folded, "+"), ids[t]));
  }

  lemma {:induction false} ParticipantsExact<V(!new), A, E>(tools: Tools<seq<V>, A, E>, base: seq<V>,
        ids: seq<WorkspaceId>, values: seq<seq<V>>, t: nat)
    requires LineWise(tools) && |ids| == |values| && Distinct(ids) && Aligned(base, values) && FirstOverlap(base, values, t)
    ensures Overlapping(tools, base, ids[..t], values[..t], values[t]) != []
    ensures var ps := Probe(tools, base, ids[..t], values[..t], values[t]) + [ids[t]];
            forall k :: 0 <= k < |ids| ==>
              (ids[k] in ps <==> k == t || (k < t && PairOverlaps(base, values[k], values[t])))
  {
    var folded := Overlapping(tools, base, ids[..t], values[..t], values[t]);
    forall k | 0 <= k < |ids| ensures ids[k] in folded <==> k < t && PairOverlaps(base, values[k], values[t]) {
      OneParticipant(tools, base, ids, values, t, k);
    }
    var i :| 0 <= i < t && PairOverlaps(base, values[i], values[t]);
    assert ids[i] in folded;
  }

  lemma {:induction false} OneParticipant<V(!new), A, E>(tools: Tools<seq<V>, A, E>, base: seq<V>,
        ids: seq<WorkspaceId>, values: seq<seq<V>>, t: nat, k: nat)
    requires LineWise(tools) && |ids| == |values| && Distinct(ids) && Aligned(base, values) && t < |ids| && k < |ids|
    ensures ids[k] in Overlapping(tools, base, ids[..t], values[..t], values[t])
            <==> k < t && PairOverlaps(base, values[k], values[t])
  {
    assert Aligned(base, values[..t]) by { assert forall v :: v in values[..t] ==> v in values; }
    OverlappingExact(tools, base, ids[..t], values[..t], values[t], ids[k]);
    if k < t { assert ids[..t][k] == ids[k] && values[..t][k] == values[k]; }
  }

  lemma {:induction false} SidesFromParticipants<V(!new), A>(path: Path, entries: seq<Entry<seq<V>>>, base: seq<V>, t: nat,
        ps: seq<WorkspaceId>, atoms: seq<A>)
    requires LineEntries(entries, base) && t < |entries|
    requires forall k :: 0 <= k < |entries| ==>
               (entries[k].ws in ps <==> k == t || (k < t && PairOverlaps(base, Values(entries)[k], Values(entries)[t])))
    requires exists i :: 0 <= i < t && PairOverlaps(base, Values(entries)[i], Values(entries)[t])
    ensures SidesAre(entries, base, t, Record(path, Only(entries, ps), Some(base), Diff3Conflict, atoms))
  {
    var record := Record(path, Only(entries, ps), Some(base), Diff3Conflict, atoms);
    forall k | 0 <= k < |entries|
      ensures Side(entries[k].ws, entries[k].kind, entries[k].content) in record.sides <==> entries[k].ws in ps
    {
      SideIffNamed(path, entries, base, ps, atoms, k);
    }
    var i :| 0 <= i < t && PairOverlaps(base, Values(entries)[i], Values(entries)[t]);
    assert Ids(entries)[i] != Ids(entries)[t];
    TwoMembers(record.sides, Side(entries[i].ws, entries[i].kind, entries[i].content),
               Side(entries[t].ws, entries[t].kind, entries[t].content));
  }

  lemma {:induction false} TwoMembers<T>(s: seq<T>, x: T, y: T)
    requires x in s && y in s && x != y
    ensures |s| >= 2
  {
  }

  /** Every workspace that touched the path is a side exactly when the last entry overlaps each earlier one. */
  lemma {:induction false} EverybodyIsASideIff<V(!new), A, E>(tools: Tools<seq<V>, A, E>, path: Path,
        entries: seq<Entry<seq<V>>>, base: seq<V>)
    requires LineWise(tools) && LineEntries(entries, base)
    requires var r := Plain(tools, path, entries, Some(base)); r.Ok? && r.value.Conflicted?
    ensures var record, values, last := Plain(tools, path, entries, Some(base)).value.record, Values(entries), |entries| - 1;
            (forall k :: 0 <= k < |entries| ==> Side(entries[k].ws, entries[k].kind, entries[k].content) in record.sides)
            <==> forall k :: 0 <= k < last ==>
                   && PairOverlaps(base, values[k], values[last])
                   && forall j :: 0 <= j < k ==> !PairOverlaps(base, values[j], values[k])
  {
    var t := SidesExact(tools, path, entries, base);
    EverybodyNamedIff(entries, base, t, Plain(tools, path, entries, Some(base)).value.record);
  }

  lemma {:induction false} EverybodyNamedIff<V(!new), A>(entries: seq<Entry<seq<V>>>, base: seq<V>, t: nat,
        record: ConflictRecord<seq<V>, A>)
    requires LineEntries(entries, base) && FirstOverlap(base, Values(entries), t) && SidesAre(entries, base, t, record)
    ensures var values, last := Values(entries), |entries| - 1;
            (forall k :: 0 <= k < |entries| ==> Side(entries[k].ws, entries[k].kind, entries[k].content) in record.sides)
            <==> forall k :: 0 <= k < last ==>
                   && PairOverlaps(base, values[k], values[last])
                   && forall j :: 0 <= j < k ==> !PairOverlaps(base, values[j], values[k])
  {
    LastOverlapsAll(base, Values(entries), t);
  }

  lemma {:induction false} LastOverlapsAll<V(!new)>(base: seq<V>, values: seq<seq<V>>, t: nat)
    requires Aligned(base, values) && FirstOverlap(base, values, t)
    ensures (forall k :: 0 <= k < |values| ==> k == t || (k < t && PairOverlaps(base, values[k], values[t])))
            <==> forall k :: 0 <= k < |values| - 1 ==>
                   && PairOverlaps(base, values[k], values[|values| - 1])
                   && forall j :: 0 <= j < k ==> !PairOverlaps(base, values[j], values[k])
  {
    var i :| 0 <= i < t && PairOverlaps(base, values[i], values[t]);
  }

  // ----- the AST-off pipeline under line-wise diff3, in closed form

  /** Equal object ids mean equal content, as git guarantees. */
  ghost predicate BlobsFaithful<C(!new)>(entries: seq<Entry<C>>) {
    forall i, j :: 0 <= i < |entries| && 0 <= j < |entries| && entries[i].blob.Some? && entries[i].blob == entries[j].blob
      ==> entries[i].content == entries[j].content
  }

  /** With everything live: a conflict exactly when two files clash on a line, otherwise the join of all files. */
  lemma {:induction false} LineOutcome<V(!new), A, E>(tools: Tools<seq<V>, A, E>, path: Path,
        entries: seq<Entry<seq<V>>>, base: seq<V>)
    requires LineWise(tools) && Live(entries) && BlobsFaithful(entries) && Aligned(base, Values(entries))
    ensures var r := WithAst(tools, None, path, entries, Some(base));
            && r.Ok?
            && (r.value.Conflicted? ==> r.value.record.reason == Diff3Conflict && r.value.record.path == path)
            && (r.value.Resolved? ==> r.value.change.UpsertPath? && r.value.change.path == path)
            && IsLineMerge(base, Values(entries), if r.value.Resolved? then Some(r.value.change.content) else None)
  {
    var values := Values(entries);
    assert values[0] in values;
    if AllBlobsEqual(entries) || AllEqual(values) {
      assert AllEqual(values);
      SettledAgree(tools, path, entries, Some(base));
    } else {
      AstFollowsFold(tools, path, entries, base);
      assert values[..1] == [values[0]];
      StuckAtFirstClash(tools, base, values[0], values, 1);
      ClashGrows(base, values);
    }
  }

  lemma {:induction false} ClashGrows<V(!new)>(base: seq<V>, values: seq<seq<V>>)
    requires Aligned(base, values)
    ensures forall k :: 0 <= k <= |values| ==> Aligned(base, values[..k]) && (Clash(base, values[..k]) ==> Clash(base, values))
  {
    forall k | 0 <= k <= |values| ensures Aligned(base, values[..k]) && (Clash(base, values[..k]) ==> Clash(base, values)) {
      assert forall v :: v in values[..k] ==> v in values;
    }
  }

  // ----- a bystander

  /** A line-wise tool set: no alignment, no atoms. */
  function LineTools<V(==), E>(): Tools<seq<V>, int, E> {
    Tools((b: seq<V>, o: seq<V>, t: seq<V>) =>
            Ok(if LineDiff3(b, o, t).Clean? then CleanMerge(LineDiff3(b, o, t).merged) else Markers(b)),
          (b: seq<V>, v: seq<V>) => None,
          (m: seq<V>, o: string, t: string) => [],
          (a: int) => [])
  }

  /** Three workspaces touched the path, two of them fight over line 0: the third, on line 1, is not a side. */
  lemma {:induction false} BystanderIsNotASide(path: Path) returns (entries: seq<Entry<seq<int>>>)
    ensures LineEntries(entries, [0, 0]) && |entries| == 3
    ensures var r := Plain<seq<int>, int, int>(LineTools(), path, entries, Some([0, 0]));
            r.Ok? && r.value.Conflicted? && Side(entries[0].ws, entries[0].kind, entries[0].content) !in r.value.record.sides
  {
    entries := ThreeEntries();
    var tools: Tools<seq<int>, int, int> := LineTools();
    TwoFight(tools, path, entries);
    var t := SidesExact(tools, path, entries, [0, 0]);
    var values := Values(entries);
    assert !PairOverlaps([0, 0], values[0], values[1]) && !PairOverlaps([0, 0], values[0], values[2]);
  }

  lemma {:induction false} ThreeEntries() returns (entries: seq<Entry<seq<int>>>)
    ensures LineEntries(entries, [0, 0]) && BlobsFaithful(entries) && |entries| == 3
    ensures Values(entries) == [[0, 9], [1, 0], [2, 0]]
  {
    entries := [Entry("a", Modified, Some([0, 9]), None), Entry("b", Modified, Some([1, 0]), None),
                Entry("c", Modified, Some([2, 0]), None)];
    var ids := Ids(entries);
    assert ids == ["a", "b", "c"] && ids[0][0] != ids[1][0] && ids[1][0] != ids[2][0] && ids[0][0] != ids[2][0];
    assert Values(entries) == [[0, 9], [1, 0], [2, 0]];
  }

  lemma {:induction false} TwoFight(tools: Tools<seq<int>, int, int>, path: Path, entries: seq<Entry<seq<int>>>)
    requires tools == LineTools() && LineEntries(entries, [0, 0]) && BlobsFaithful(entries)
    requires Values(entries) == [[0, 9], [1, 0], [2, 0]]
    ensures LineWise(tools)
    ensures var r := Plain(tools, path, entries, Some([0, 0])); r.Ok? && r.value.Conflicted?
  {
    var values := Values(entries);
    LineOutcome(tools, path, entries, [0, 0]);
    assert values[1] in values && values[2] in values && Apart([0, 0][0], values[1][0], values[2][0]);
    assert RetryNeverHelps(tools);
    PipelinesAgree(tools, path, entries, Some([0, 0]));
  }
}

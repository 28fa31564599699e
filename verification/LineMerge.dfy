/**
 * The k-way merge under line-wise diff3: the essential contract of a three-way merge (agreeing sides win, the only
 * changed side wins, two different changes overlap), applied at every line of equally long files.
 */
module LineMerge {
  import opened Prelude
  import opened MergeAlgebra

  /** The contract of diff3 on one indivisible value. */
  function StubDiff3<V(==)>(base: V, ours: V, theirs: V): Diff3Result<V> {
    if ours == theirs then Clean(ours)
    else if ours == base then Clean(theirs)
    else if theirs == base then Clean(ours)
    else Overlap
  }

  /** That contract at every line; files that are not line-aligned are treated as one value. */
  function LineDiff3<V(==)>(base: seq<V>, ours: seq<V>, theirs: seq<V>): Diff3Result<seq<V>> {
    if |base| == |ours| == |theirs| then
      if exists l | 0 <= l < |base| :: StubDiff3(base[l], ours[l], theirs[l]).Overlap? then Overlap
      else Clean(seq(|base|, l requires 0 <= l < |base| => StubDiff3(base[l], ours[l], theirs[l]).merged))
    else StubDiff3(base, ours, theirs)
  }

  function LineTool<V(==), E>(base: seq<V>, ours: seq<V>, theirs: seq<V>): Result<Diff3Result<seq<V>>, E> {
    Ok(LineDiff3(base, ours, theirs))
  }

  function StubTool<V(==), E>(base: V, ours: V, theirs: V): Result<Diff3Result<V>, E> {
    Ok(StubDiff3(base, ours, theirs))
  }

  // ----- the closed form

  ghost predicate Aligned<V(!new)>(base: seq<V>, variants: seq<seq<V>>) {
    forall v :: v in variants ==> |v| == |base|
  }

  ghost predicate Apart<V>(base: V, x: V, y: V) {
    x != base && y != base && x != y
  }

  /** Some line got two different new values. */
  ghost predicate Clash<V(!new)>(base: seq<V>, variants: seq<seq<V>>)
    requires Aligned(base, variants)
  {
    exists u, v, l :: u in variants && v in variants && 0 <= l < |base| && Apart(base[l], u[l], v[l])
  }

  /** Every line of `out` is the new value some variant gave it, or base's value when no variant changed it. */
  ghost predicate Joins<V(!new)>(base: seq<V>, variants: seq<seq<V>>, out: seq<V>)
    requires Aligned(base, variants)
  {
    && |out| == |base|
    && (forall v, l :: v in variants && 0 <= l < |base| && v[l] != base[l] ==> out[l] == v[l])
    && (forall l :: 0 <= l < |base| && out[l] != base[l] ==> exists v :: v in variants && v[l] == out[l])
  }

  /** The closed form of a line-wise merge: nothing when two files clash, otherwise their join. */
  ghost predicate IsLineMerge<V(!new)>(base: seq<V>, variants: seq<seq<V>>, out: Option<seq<V>>)
    requires Aligned(base, variants)
  {
    if Clash(base, variants) then out.None? else out.Some? && Joins(base, variants, out.value)
  }

  lemma {:induction false} JoinUnique<V(!new)>(base: seq<V>, vs: seq<seq<V>>, ws: seq<seq<V>>, a: seq<V>, b: seq<V>)
    requires Aligned(base, vs) && Aligned(base, ws)
    requires forall v :: v in vs <==> v in ws
    requires Joins(base, vs, a) && Joins(base, ws, b)
    ensures a == b
  {
  }

  /** One step of the fold, on a prefix already joined. */
  lemma {:induction false} JoinStep<V(!new)>(base: seq<V>, done: seq<seq<V>>, merged: seq<V>, next: seq<V>)
    requires Aligned(base, done + [next])
    requires Aligned(base, done) && !Clash(base, done) && Joins(base, done, merged)
    ensures merged == next ==> !Clash(base, done + [next]) && Joins(base, done + [next], merged)
    ensures LineDiff3(base, merged, next).Overlap? <==> Clash(base, done + [next])
    ensures LineDiff3(base, merged, next).Clean? ==> Joins(base, done + [next], LineDiff3(base, merged, next).merged)
  {
    var all := done + [next];
    assert next in all && forall v :: v in all <==> v in done || v == next;
    if LineDiff3(base, merged, next).Overlap? {
      var l :| 0 <= l < |base| && StubDiff3(base[l], merged[l], next[l]).Overlap?;
      var v :| v in done && v[l] == merged[l];
      assert v in all && Apart(base[l], v[l], next[l]);
    }
    if Clash(base, all) {
      var u, v, l :| u in all && v in all && 0 <= l < |base| && Apart(base[l], u[l], v[l]);
      assert StubDiff3(base[l], merged[l], next[l]).Overlap?;
    }
  }

  lemma {:induction false} FoldJoins<V(!new), E>(base: seq<V>, done: seq<seq<V>>, merged: seq<V>, rest: seq<seq<V>>)
    requires Aligned(base, done + rest)
    requires Aligned(base, done) && !Clash(base, done) && Joins(base, done, merged)
    ensures var r := Fold<seq<V>, E>(LineTool<V, E>, base, merged, rest);
            r.Ok? && if Clash(base, done + rest) then r.value.Overlap?
                     else r.value.Clean? && Joins(base, done + rest, r.value.merged)
    decreases |rest|
  {
    if rest == [] {
      assert done + rest == done;
    } else {
      var next := rest[0];
      assert done + rest == (done + [next]) + rest[1..];
      assert Aligned(base, done + [next]) by {
        assert forall v :: v in done + [next] ==> v in done + rest;
      }
      JoinStep(base, done, merged, next);
      if Clash(base, done + [next]) {
        var u, v, l :| u in done + [next] && v in done + [next] && 0 <= l < |base| && Apart(base[l], u[l], v[l]);
        assert u in done + rest && v in done + rest;
      } else if merged == next {
        FoldJoins<V, E>(base, done + [next], merged, rest[1..]);
      } else {
        FoldJoins<V, E>(base, done + [next], LineDiff3(base, merged, next).merged, rest[1..]);
      }
    }
  }

  /** The fold over any number of variants: an overlap exactly when two variants clash, and otherwise their join. */
  lemma {:induction false} FoldIsJoin<V(!new), E>(base: seq<V>, variants: seq<seq<V>>)
    requires variants != [] && Aligned(base, variants)
    ensures var r := Fold<seq<V>, E>(LineTool<V, E>, base, variants[0], variants[1..]);
            r.Ok? && IsLineMerge(base, variants, if r.value.Clean? then Some(r.value.merged) else None)
  {
    assert [variants[0]] + variants[1..] == variants;
    FoldJoins<V, E>(base, [variants[0]], variants[0], variants[1..]);
  }

  // ----- the whole merge

  /** The entries of one path, whose order must not matter. */
  function Entries<C>(kinds: seq<ChangeKind>, contents: seq<Option<C>>): (r: seq<(ChangeKind, Option<C>)>)
    requires |kinds| == |contents|
    ensures |r| == |kinds| && forall i :: 0 <= i < |r| ==> r[i] == (kinds[i], contents[i])
  {
    seq(|kinds|, i requires 0 <= i < |kinds| => (kinds[i], contents[i]))
  }

  ghost predicate LiveHaveContent<C(!new)>(entries: seq<(ChangeKind, Option<C>)>) {
    forall e :: e in entries ==> e.0.Deleted? || e.1.Some?
  }

  lemma {:induction false} HaveContentByMembers<C(!new)>(kinds: seq<ChangeKind>, contents: seq<Option<C>>)
    requires |kinds| == |contents|
    ensures (forall i | 0 <= i < |kinds| :: kinds[i].Deleted? || contents[i].Some?)
            <==> LiveHaveContent(Entries(kinds, contents))
  {
    var es := Entries(kinds, contents);
    assert forall i :: 0 <= i < |kinds| ==> es[i] in es;
  }

  /** Classification sees the entries only as a set. */
  lemma {:induction false} ClassifyOrderFree<C(!new)>(kinds: seq<ChangeKind>, contents: seq<Option<C>>,
        kinds': seq<ChangeKind>, contents': seq<Option<C>>, base: Option<C>)
    requires |kinds| == |contents| && |kinds'| == |contents'|
    requires multiset(Entries(kinds, contents)) == multiset(Entries(kinds', contents'))
    ensures Classify(kinds, contents, base) == Classify(kinds', contents', base)
    ensures forall c :: c in Present(contents) <==> c in Present(contents')
  {
    SameMembers(Entries(kinds, contents), Entries(kinds', contents'));
    SamePresent(kinds, contents, kinds', contents');
    KindsByMembers(kinds, kinds');
    HaveContentByMembers(kinds, contents);
    HaveContentByMembers(kinds', contents');
    assert AdjacentEqual(Present(contents)) <==> AdjacentEqual(Present(contents')) by {
      AdjacentMeansAll(Present(contents));
      AdjacentMeansAll(Present(contents'));
    }
  }

  lemma {:induction false} KindsByMembers(kinds: seq<ChangeKind>, kinds': seq<ChangeKind>)
    requires forall k :: k in kinds <==> k in kinds'
    ensures AllDeleted(kinds) == AllDeleted(kinds') && AnyDeleted(kinds) == AnyDeleted(kinds')
    ensures AllAdded(kinds) == AllAdded(kinds')
  {
    assert forall i :: 0 <= i < |kinds| ==> kinds[i] in kinds';
    assert forall i :: 0 <= i < |kinds'| ==> kinds'[i] in kinds;
  }

  lemma {:induction false} SamePresent<C(!new)>(kinds: seq<ChangeKind>, contents: seq<Option<C>>,
        kinds': seq<ChangeKind>, contents': seq<Option<C>>)
    requires |kinds| == |contents| && |kinds'| == |contents'|
    requires forall e :: e in Entries(kinds, contents) <==> e in Entries(kinds', contents')
    ensures forall k :: k in kinds <==> k in kinds'
    ensures forall c :: c in Present(contents) <==> c in Present(contents')
  {
    KeepsMembers(kinds, contents, kinds', contents');
    KeepsMembers(kinds', contents', kinds, contents);
    forall c ensures c in Present(contents) <==> c in Present(contents') {
      PresentMembers(contents, c);
      PresentMembers(contents', c);
    }
  }

  lemma {:induction false} KeepsMembers<C(!new)>(kinds: seq<ChangeKind>, contents: seq<Option<C>>,
        kinds': seq<ChangeKind>, contents': seq<Option<C>>)
    requires |kinds| == |contents| && |kinds'| == |contents'|
    requires forall e :: e in Entries(kinds, contents) ==> e in Entries(kinds', contents')
    ensures forall k :: k in kinds ==> k in kinds'
    ensures forall c :: c in contents ==> c in contents'
  {
    var es, es' := Entries(kinds, contents), Entries(kinds', contents');
    forall i | 0 <= i < |kinds| ensures kinds[i] in kinds' && contents[i] in contents' {
      assert es[i] in es';
      var j :| 0 <= j < |es'| && es'[j] == es[i];
    }
  }

  lemma {:induction false} AdjacentMeansAll<C(!new)>(s: seq<C>)
    ensures AdjacentEqual(s) <==> forall a, b :: a in s && b in s ==> a == b
  {
    if AdjacentEqual(s) {
      forall i | 0 <= i < |s| ensures s[i] == s[0] {
        AllLikeFirst(s, i);
      }
    } else {
      var i :| 0 <= i < |s| - 1 && s[i] != s[i + 1];
      assert s[i] in s && s[i + 1] in s;
    }
  }

  lemma {:induction false} AllLikeFirst<C>(s: seq<C>, i: nat)
    requires AdjacentEqual(s) && i < |s|
    ensures s[i] == s[0]
  {
    if i > 0 { AllLikeFirst(s, i - 1); }
  }

  ghost predicate AlignedEntries<V(!new)>(contents: seq<Option<seq<V>>>, base: Option<seq<V>>) {
    base.Some? ==> forall c :: c in contents && c.Some? ==> |c.value| == |base.value|
  }

  lemma {:induction false} AlignedPresent<V(!new)>(contents: seq<Option<seq<V>>>, base: Option<seq<V>>)
    requires AlignedEntries(contents, base) && base.Some?
    ensures Aligned(base.value, Present(contents))
  {
    forall v | v in Present(contents) ensures |v| == |base.value| {
      PresentMembers(contents, v);
    }
  }

  /** Any number of entries, any permutation of them: the same outcome. */
  lemma {:induction false} MergeOrderFree<V(!new), E>(kinds: seq<ChangeKind>, contents: seq<Option<seq<V>>>,
        kinds': seq<ChangeKind>, contents': seq<Option<seq<V>>>, base: Option<seq<V>>)
    requires |kinds| == |contents| && |kinds'| == |contents'|
    requires multiset(Entries(kinds, contents)) == multiset(Entries(kinds', contents'))
    requires AlignedEntries(contents, base)
    ensures Resolve<seq<V>, E>(kinds, contents, base, LineTool<V, E>)
         == Resolve<seq<V>, E>(kinds', contents', base, LineTool<V, E>)
  {
    ClassifyOrderFree(kinds, contents, kinds', contents', base);
    var verdict := Classify(kinds, contents, base);
    if verdict in {ResolvedIdentical, NeedsDiff3} {
      DefiniteHasContent(kinds, contents, base);
      DefiniteHasContent(kinds', contents', base);
      if verdict.NeedsDiff3? { AlignedPresent(contents, base); }
    }
    OutcomeOrderFree<V, E>(verdict, Present(contents), Present(contents'), base);
  }

  lemma {:induction false} OutcomeOrderFree<V(!new), E>(verdict: SharedClassification, vs: seq<seq<V>>,
        vs': seq<seq<V>>, base: Option<seq<V>>)
    requires forall v :: v in vs <==> v in vs'
    requires verdict in {ResolvedIdentical, NeedsDiff3} ==> vs != [] && vs' != []
    requires verdict.ResolvedIdentical? ==> AdjacentEqual(vs)
    requires verdict.NeedsDiff3? ==> base.Some? && Aligned(base.value, vs)
    ensures OutcomeOf<seq<V>, E>(verdict, vs, base, LineTool<V, E>) == OutcomeOf<seq<V>, E>(verdict, vs', base, LineTool<V, E>)
  {
    if verdict.ResolvedIdentical? {
      AdjacentMeansAll(vs);
      assert vs[0] in vs && vs'[0] in vs;
    } else if verdict.NeedsDiff3? {
      FoldOrderFree<V, E>(base.value, vs, vs');
    }
  }

  lemma {:induction false} FoldOrderFree<V(!new), E>(base: seq<V>, vs: seq<seq<V>>, vs': seq<seq<V>>)
    requires vs != [] && vs' != [] && Aligned(base, vs) && forall v :: v in vs <==> v in vs'
    ensures Fold<seq<V>, E>(LineTool<V, E>, base, vs[0], vs[1..]) == Fold<seq<V>, E>(LineTool<V, E>, base, vs'[0], vs'[1..])
  {
    FoldIsJoin<V, E>(base, vs);
    FoldIsJoin<V, E>(base, vs');
    assert Clash(base, vs) <==> Clash(base, vs');
    if !Clash(base, vs) {
      var a := Fold<seq<V>, E>(LineTool<V, E>, base, vs[0], vs[1..]).value.merged;
      var b := Fold<seq<V>, E>(LineTool<V, E>, base, vs'[0], vs'[1..]).value.merged;
      JoinUnique(base, vs, vs', a, b);
    }
  }

  lemma {:induction false} LiveWithBase<C>(kinds: seq<ChangeKind>, contents: seq<Option<C>>, base: Option<C>)
    requires |kinds| == |contents| && base.Some? && kinds != []
    requires forall i :: 0 <= i < |kinds| ==> !kinds[i].Deleted? && contents[i].Some?
    ensures |Present(contents)| == |contents|
    ensures Classify(kinds, contents, base) == if AdjacentEqual(Present(contents)) then ResolvedIdentical else NeedsDiff3
  {
  }

  /** Outcome of the merge in closed form, with no fold in it. */
  lemma {:induction false} MergeClosedForm<V(!new), E>(kinds: seq<ChangeKind>, contents: seq<Option<seq<V>>>,
        base: Option<seq<V>>)
    requires |kinds| == |contents| && AlignedEntries(contents, base)
    requires base.Some? && kinds != []
    requires forall i :: 0 <= i < |kinds| ==> !kinds[i].Deleted? && contents[i].Some?
    ensures Aligned(base.value, Present(contents))
    ensures var r := Resolve<seq<V>, E>(kinds, contents, base, LineTool<V, E>);
            && r.Ok? && (r.value.Upsert? || r.value == Conflict(Diff3Conflict))
            && IsLineMerge(base.value, Present(contents), if r.value.Upsert? then Some(r.value.content) else None)
  {
    AlignedPresent(contents, base);
    LiveWithBase(kinds, contents, base);
    if AdjacentEqual(Present(contents)) {
      IdenticalJoins(base.value, Present(contents));
    } else {
      FoldIsJoin<V, E>(base.value, Present(contents));
    }
  }

  lemma {:induction false} IdenticalJoins<V(!new)>(base: seq<V>, vs: seq<seq<V>>)
    requires Aligned(base, vs) && vs != [] && AdjacentEqual(vs)
    ensures !Clash(base, vs) && Joins(base, vs, vs[0])
  {
    AdjacentMeansAll(vs);
    assert vs[0] in vs;
  }

  // ----- values without lines: the stub itself

  function Singletons<V>(s: seq<V>): (r: seq<seq<V>>)
    ensures |r| == |s| && forall i :: 0 <= i < |s| ==> r[i] == [s[i]]
  {
    seq(|s|, i requires 0 <= i < |s| => [s[i]])
  }

  function SingletonOptions<V>(s: seq<Option<V>>): (r: seq<Option<seq<V>>>)
    ensures |r| == |s| && forall i :: 0 <= i < |s| ==> r[i] == if s[i].Some? then Some([s[i].value]) else None
  {
    seq(|s|, i requires 0 <= i < |s| => if s[i].Some? then Some([s[i].value]) else None)
  }

  lemma {:induction false} StubFoldIsLineFold<V(!new), E>(base: V, merged: V, rest: seq<V>)
    ensures var one := Fold<V, E>(StubTool<V, E>, base, merged, rest);
            var line := Fold<seq<V>, E>(LineTool<V, E>, [base], [merged], Singletons(rest));
            one.Ok? && line.Ok? && line.value == if one.value.Overlap? then Overlap else Clean([one.value.merged])
    decreases |rest|
  {
    if rest != [] {
      assert Singletons(rest)[1..] == Singletons(rest[1..]);
      var o, n := [merged], [rest[0]];
      assert o == n <==> o[0] == n[0];
      match StubDiff3(base, merged, rest[0]) {
        case Overlap =>
          assert StubDiff3([base][0], o[0], n[0]).Overlap?;
        case Clean(c) =>
          assert StubDiff3([base][0], o[0], n[0]) == Clean(c);
          assert LineDiff3([base], o, n).merged == [c];
          StubFoldIsLineFold<V, E>(base, c, rest[1..]);
      }
    }
  }

  lemma {:induction false} PresentSingletons<V>(contents: seq<Option<V>>)
    ensures Present(SingletonOptions(contents)) == Singletons(Present(contents))
  {
    if contents != [] {
      PresentSingletons(contents[1..]);
      assert SingletonOptions(contents)[1..] == SingletonOptions(contents[1..]);
    }
  }

  function OneLine<V>(r: MergeOutcome<V>): MergeOutcome<seq<V>> {
    match r
    case Delete => Delete
    case Upsert(c) => Upsert([c])
    case Conflict(reason) => Conflict(reason)
  }

  lemma {:induction false} OneLineClassify<V(!new)>(kinds: seq<ChangeKind>, contents: seq<Option<V>>, base: Option<V>)
    requires |kinds| == |contents|
    ensures Classify(kinds, SingletonOptions(contents), OneLineBase(base)) == Classify(kinds, contents, base)
    ensures Present(SingletonOptions(contents)) == Singletons(Present(contents))
  {
    PresentSingletons(contents);
    var vs, lines := Present(contents), Singletons(Present(contents));
    assert AdjacentEqual(vs) <==> AdjacentEqual(lines) by {
      assert forall i :: 0 <= i < |vs| ==> lines[i][0] == vs[i];
    }
  }

  function OneLineBase<V>(base: Option<V>): Option<seq<V>> {
    if base.Some? then Some([base.value]) else None
  }

  /** Content that is one value is content of one line. */
  lemma {:induction false} StubIsOneLine<V(!new), E>(kinds: seq<ChangeKind>, contents: seq<Option<V>>, base: Option<V>)
    requires |kinds| == |contents|
    ensures var one := Resolve<V, E>(kinds, contents, base, StubTool<V, E>);
            one.Ok? && Ok(OneLine(one.value))
                       == Resolve<seq<V>, E>(kinds, SingletonOptions(contents), OneLineBase(base), LineTool<V, E>)
  {
    OneLineClassify(kinds, contents, base);
    var verdict := Classify(kinds, contents, base);
    if verdict in {ResolvedIdentical, NeedsDiff3} { DefiniteHasContent(kinds, contents, base); }
    OneLineOutcome<V, E>(verdict, Present(contents), base);
  }

  lemma {:induction false} OneLineOutcome<V(!new), E>(verdict: SharedClassification, vs: seq<V>, base: Option<V>)
    requires verdict in {ResolvedIdentical, NeedsDiff3} ==> vs != []
    requires verdict.NeedsDiff3? ==> base.Some?
    ensures var one := OutcomeOf<V, E>(verdict, vs, base, StubTool<V, E>);
            one.Ok? && Ok(OneLine(one.value)) == OutcomeOf<seq<V>, E>(verdict, Singletons(vs), OneLineBase(base), LineTool<V, E>)
  {
    if vs != [] { StubFoldsAlike<V, E>(base, vs); }
  }

  lemma {:induction false} StubFoldsAlike<V(!new), E>(base: Option<V>, vs: seq<V>)
    requires vs != []
    ensures Singletons(vs)[0] == [vs[0]]
    ensures base.Some? ==>
              var one := Fold<V, E>(StubTool<V, E>, base.value, vs[0], vs[1..]);
              var line := Fold<seq<V>, E>(LineTool<V, E>, [base.value], Singletons(vs)[0], Singletons(vs)[1..]);
              one.Ok? && line == Ok(if one.value.Overlap? then Overlap else Clean([one.value.merged]))
  {
    assert Singletons(vs)[1..] == Singletons(vs[1..]);
    if base.Some? { StubFoldIsLineFold<V, E>(base.value, vs[0], vs[1..]); }
  }

  /** Order independence of the merge over the stub: every number of entries, every content type. */
  lemma {:induction false} StubOrderFree<V(!new), E>(kinds: seq<ChangeKind>, contents: seq<Option<V>>,
        kinds': seq<ChangeKind>, contents': seq<Option<V>>, base: Option<V>)
    requires |kinds| == |contents| && |kinds'| == |contents'|
    requires multiset(Entries(kinds, contents)) == multiset(Entries(kinds', contents'))
    ensures Resolve<V, E>(kinds, contents, base, StubTool<V, E>) == Resolve<V, E>(kinds', contents', base, StubTool<V, E>)
  {
    StubIsOneLine<V, E>(kinds, contents, base);
    StubIsOneLine<V, E>(kinds', contents', base);
    EntriesSingletons(kinds, contents, kinds', contents');
    MergeOrderFree<V, E>(kinds, SingletonOptions(contents), kinds', SingletonOptions(contents'), OneLineBase(base));
    OneLineInjective(Resolve<V, E>(kinds, contents, base, StubTool<V, E>).value,
                     Resolve<V, E>(kinds', contents', base, StubTool<V, E>).value);
  }

  lemma {:induction false} OneLineInjective<V>(a: MergeOutcome<V>, b: MergeOutcome<V>)
    requires OneLine(a) == OneLine(b)
    ensures a == b
  {
    if a.Upsert? { assert OneLine(a).content[0] == a.content; }
  }

  lemma {:induction false} EntriesSingletons<V>(kinds: seq<ChangeKind>, contents: seq<Option<V>>,
        kinds': seq<ChangeKind>, contents': seq<Option<V>>)
    requires |kinds| == |contents| && |kinds'| == |contents'|
    requires multiset(Entries(kinds, contents)) == multiset(Entries(kinds', contents'))
    ensures multiset(Entries(kinds, SingletonOptions(contents))) == multiset(Entries(kinds', SingletonOptions(contents')))
  {
    var f := (e: (ChangeKind, Option<V>)) => (e.0, if e.1.Some? then Some([e.1.value]) else None);
    assert Entries(kinds, SingletonOptions(contents)) == Map(f, Entries(kinds, contents));
    assert Entries(kinds', SingletonOptions(contents')) == Map(f, Entries(kinds', contents'));
    MapPermutation(f, Entries(kinds, contents), Entries(kinds', contents'));
  }
}

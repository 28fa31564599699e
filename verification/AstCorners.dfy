/** Concrete AST merges in which edits are put back, dropped or misplaced without a conflict (ast_merge.rs). */
module AstCorners {
  import opened Prelude
  import opened AstItems
  import opened AstRebuild
  import opened AstMerge
  import opened AstTheorems
  import opened AstGaps
  import opened AstUses
  import opened AstPath
  import opened MergeAlgebra
  import opened LineMerge
  import SharedPath
  import Attribution

  // ----- a gap that moved

  const BASE: Bytes := [97, 32, 98]
  const MOVED: Bytes := [32, 65, 98]

  function TwoItems(source: Bytes): Option<seq<Item>> {
    if source == BASE then Some([Item("fn", Some("a"), 0, 1, [97]), Item("fn", Some("b"), 2, 3, [98])])
    else if source == MOVED then Some([Item("fn", Some("a"), 1, 2, [65]), Item("fn", Some("b"), 2, 3, [98])])
    else None
  }

  /**
   * Empty gaps are left out of the comparison, so white space that moved from between two items to the front passes it,
   * and the clean result puts it back where the base had it.
   */
  lemma {:induction false} MovedGapIsUndone(trivia: Trivia, r: Outcome)
    requires Faithful(TwoItems) && IsMerge(TwoItems, trivia, BASE, [("w", MOVED)], r)
    ensures r == SharedPath.AstClean([65, 32, 98]) && r != SharedPath.AstClean(MOVED)
  {
    var items, items' := TwoItems(BASE).value, TwoItems(MOVED).value;
    TwoItemsAlike();
    LoneVariant(TwoItems, trivia, BASE, "w", MOVED, r);
    GapPassesUnseen(items, items');
  }

  lemma {:induction false} GapPassesUnseen(items: seq<Item>, items': seq<Item>)
    requires WellParsed(BASE, items) && WellParsed(MOVED, items') && |items| == |items'| == 2
    requires items[0].start == 0 && items[0].end == 1 && items[1].start == 2 && items[1].end == 3
    requires items'[0].start == 1 && items'[0].end == 2 && items'[1].start == 2 && items'[1].end == 3
    ensures !InterstitialDiffers(BASE, items, MOVED, items')
    ensures Woven(BASE, items, OwnBodies(items')) == [65, 32, 98] && Woven(BASE, items, OwnBodies(items'))[0] != MOVED[0]
  {
    assert Gap(BASE, items, 0) == [] && Gap(BASE, items, 1) == [32] && Gap(BASE, items, 2) == [];
    assert Gap(MOVED, items', 0) == [32] && Gap(MOVED, items', 1) == [] && Gap(MOVED, items', 2) == [];
    RegionsOfTwo(BASE, items);
    RegionsOfTwo(MOVED, items');
    assert MOVED[1..2] == [65] && MOVED[2..3] == [98];
    WovenOfTwo(BASE, items, OwnBodies(items'));
  }

  lemma {:induction false} TwoItemsAlike()
    ensures TwoItems(BASE) == Some([Item("fn", Some("a"), 0, 1, [97]), Item("fn", Some("b"), 2, 3, [98])])
    ensures TwoItems(MOVED) == Some([Item("fn", Some("a"), 1, 2, [65]), Item("fn", Some("b"), 2, 3, [98])])
    ensures SameKeys(TwoItems(BASE).value, TwoItems(MOVED).value)
    ensures !SameContents(TwoItems(BASE).value, TwoItems(MOVED).value)
  {
    assert BASE[0] != MOVED[0];
    var items, items' := TwoItems(BASE).value, TwoItems(MOVED).value;
    assert "a"[0] != "b"[0];
    assert items[0].content[0] != items'[0].content[0];
  }

  lemma {:induction false} RegionsOfTwo(source: Bytes, items: seq<Item>)
    requires WellParsed(source, items) && |items| == 2
    ensures InterstitialRegions(source, items)
         == (if Gap(source, items, 0) == [] then [] else [Gap(source, items, 0)])
          + (if Gap(source, items, 1) == [] then [] else [Gap(source, items, 1)])
          + (if Gap(source, items, 2) == [] then [] else [Gap(source, items, 2)])
  {
    assert RegionsBefore(source, items, 0) == [];
    assert RegionsBefore(source, items, 1) == if Gap(source, items, 0) == [] then [] else [Gap(source, items, 0)];
  }

  lemma {:induction false} WovenOfTwo(source: Bytes, items: seq<Item>, bodies: Bodies)
    requires WellParsed(source, items) && |items| == |bodies| == 2 && bodies[0].Some? && bodies[1].Some?
    ensures Woven(source, items, bodies)
         == Gap(source, items, 0) + bodies[0].value + Gap(source, items, 1) + bodies[1].value + Gap(source, items, 2)
  {
    assert WovenTo(source, items, bodies, 0) == [];
    assert WovenTo(source, items, bodies, 1) == Gap(source, items, 0) + bodies[0].value;
  }

  lemma {:induction false} TwoItemsFaithful()
    ensures Faithful(TwoItems)
  {
    assert BASE[0..1] == [97] && BASE[2..3] == [98] && MOVED[1..2] == [65] && MOVED[2..3] == [98];
    forall source | TwoItems(source).Some? ensures WellParsed(source, TwoItems(source).value) {
    }
  }

  /** The merge itself, on that input. */
  method MergeMovedGap(trivia: Trivia) returns (r: Outcome)
    ensures r == SharedPath.AstClean([65, 32, 98])
  {
    TwoItemsFaithful();
    r := TryAstMerge(TwoItems, trivia, BASE, [("w", MOVED)]);
    MovedGapIsUndone(trivia, r);
  }

  // ----- two items with one key

  /** Three one-byte items: two impl blocks of one type, and a function. */
  function TwoImpls(source: Bytes): Option<seq<Item>> {
    if |source| != 3 then None
    else Some([Item("impl_item", Some("Foo"), 0, 1, source[0..1]), Item("impl_item", Some("Foo"), 1, 2, source[1..2]),
               Item("function_item", Some("c"), 2, 3, source[2..3])])
  }

  const IMPL: ItemKey := Named("impl_item", "Foo")
  const FUNCTION: ItemKey := Named("function_item", "c")

  lemma {:induction false} TwoImplsKeyed(source: Bytes)
    requires |source| == 3
    ensures Faithful(TwoImpls)
    ensures var items := TwoImpls(source).value;
            Key(items, 0) == Key(items, 1) == IMPL && Key(items, 2) == FUNCTION && IMPL != FUNCTION
    ensures Keyed(TwoImpls(source).value) == map[IMPL := TwoImpls(source).value[1], FUNCTION := TwoImpls(source).value[2]]
    ensures !DistinctKeys(TwoImpls(source).value)
  {
    assert "impl_item"[0] != "function_item"[0];
    var items := TwoImpls(source).value;
    assert IdentityKey(items[0], 0) == IdentityKey(items[1], 1);
    assert Keyed(items[..2][..1]) == map[IMPL := items[0]] by { assert items[..2][..1][..0] == []; }
    assert Keyed(items[..2]) == map[IMPL := items[1]];
  }

  lemma {:induction false} FirstImplUnseen(base: Bytes, variant: Bytes)
    requires |base| == |variant| == 3 && base[1..] == variant[1..]
    ensures forall key :: ContentAt(Keyed(TwoImpls(variant).value), key) == ContentAt(Keyed(TwoImpls(base).value), key)
  {
    TwoImplsKeyed(base);
    TwoImplsKeyed(variant);
    assert base[1..][0] == variant[1..][0] && base[1..][1] == variant[1..][1];
    assert base[1..2] == variant[1..2] && base[2..3] == variant[2..3];
  }

  lemma {:induction false} FirstImplsUnseen(base: Bytes, variants: seq<Variant>)
    requires |base| == 3 && AllParse(TwoImpls, variants)
    requires forall v :: 0 <= v < |variants| ==> |variants[v].1| == 3 && variants[v].1[1..] == base[1..]
    ensures !SomeItemChanged(Keyed(TwoImpls(base).value), ParsedOf(TwoImpls, variants))
  {
    forall v | 0 <= v < |variants|
      ensures forall key :: ContentAt(ParsedOf(TwoImpls, variants)[v].1, key) == ContentAt(Keyed(TwoImpls(base).value), key)
    {
      FirstImplUnseen(base, variants[v].1);
    }
  }

  lemma {:induction false} FirstImplsDropped(trivia: Trivia, base: Bytes, a: Bytes, b: Bytes, r: Outcome)
    requires Faithful(TwoImpls) && |base| == |a| == |b| == 3 && a[1..] == base[1..] && b[1..] == base[1..]
    requires IsMerge(TwoImpls, trivia, base, [("w1", a), ("w2", b)], r)
    ensures r == SharedPath.AstClean(base)
  {
    var variants := [("w1", a), ("w2", b)];
    assert forall v :: 0 <= v < |variants| ==> variants[v].1 == a || variants[v].1 == b;
    FirstImplsUnseen(base, variants);
    UnchangedIsBase(TwoImpls, trivia, base, variants, r);
  }

  /** Two workspaces rewrite the first of the two impl blocks differently: neither edit is seen. */
  lemma {:induction false} HiddenEditsDropped(trivia: Trivia, r: Outcome)
    requires Faithful(TwoImpls)
    requires IsMerge(TwoImpls, trivia, [97, 98, 99], [("w1", [120, 98, 99]), ("w2", [121, 98, 99])], r)
    ensures r == SharedPath.AstClean([97, 98, 99])
  {
    var base: Bytes, a: Bytes, b: Bytes := [97, 98, 99], [120, 98, 99], [121, 98, 99];
    assert base[1..] == [98, 99] && a[1..] == [98, 99] && b[1..] == [98, 99];
    FirstImplsDropped(trivia, base, a, b, r);
  }

  /** That merge itself. */
  method MergeHiddenEdits(trivia: Trivia) returns (r: Outcome)
    ensures r == SharedPath.AstClean([97, 98, 99])
  {
    TwoImplsKeyed([97, 98, 99]);
    r := TryAstMerge(TwoImpls, trivia, [97, 98, 99], [("w1", [120, 98, 99]), ("w2", [121, 98, 99])]);
    HiddenEditsDropped(trivia, r);
  }

  lemma {:induction false} TwoImplsGaps(source: Bytes)
    requires |source| == 3 && WellParsed(source, TwoImpls(source).value)
    ensures InterstitialRegions(source, TwoImpls(source).value) == []
    ensures forall i :: 0 <= i <= 3 ==> Gap(source, TwoImpls(source).value, i) == []
  {
    var items := TwoImpls(source).value;
    assert RegionsBefore(source, items, 0) == [] && RegionsBefore(source, items, 1) == [] && RegionsBefore(source, items, 2) == [];
  }

  lemma {:induction false} WovenStep(source: Bytes, items: seq<Item>, bodies: Bodies, n: nat)
    requires WellParsed(source, items) && |bodies| == |items| && 0 < n <= |items|
    requires Gap(source, items, n - 1) == [] && bodies[n - 1].Some?
    ensures WovenTo(source, items, bodies, n) == WovenTo(source, items, bodies, n - 1) + bodies[n - 1].value
  {
    assert KeptGap(source, items, bodies, n - 1) == [];
    assert WovenTo(source, items, bodies, n - 1) + [] == WovenTo(source, items, bodies, n - 1);
  }

  lemma {:induction false} WovenEnd(source: Bytes, items: seq<Item>, bodies: Bodies)
    requires WellParsed(source, items) && |bodies| == |items| && Gap(source, items, |items|) == []
    ensures Woven(source, items, bodies) == WovenTo(source, items, bodies, |items|)
  {
    assert KeptGap(source, items, bodies, |items|) == [];
  }

  lemma {:induction false} WovenOfThree(source: Bytes, items: seq<Item>, bodies: Bodies)
    requires WellParsed(source, items) && |items| == |bodies| == 3 && forall i :: 0 <= i <= 3 ==> Gap(source, items, i) == []
    requires bodies[0].Some? && bodies[1].Some? && bodies[2].Some?
    ensures Woven(source, items, bodies) == [] + bodies[0].value + bodies[1].value + bodies[2].value
  {
    WovenStep(source, items, bodies, 1);
    WovenStep(source, items, bodies, 2);
    WovenStep(source, items, bodies, 3);
    WovenEnd(source, items, bodies);
  }

  lemma {:induction false} TwoImplsContents(source: Bytes)
    requires |source| == 3
    ensures ContentAt(Keyed(TwoImpls(source).value), IMPL) == Some([source[1]])
    ensures ContentAt(Keyed(TwoImpls(source).value), FUNCTION) == Some([source[2]])
    ensures Keyed(TwoImpls(source).value).Keys == {IMPL, FUNCTION}
    ensures var items := TwoImpls(source).value; Key(items, 0) == Key(items, 1) == IMPL && Key(items, 2) == FUNCTION
  {
    TwoImplsKeyed(source);
    assert source[1..2] == [source[1]] && source[2..3] == [source[2]];
  }

  /** What one variant of such a file leaves at each key. */
  lemma {:induction false} TwoImplsDecided(base: Bytes, variant: Bytes, own: Bytes, body: Option<Bytes>)
    requires |base| == |variant| == 3 && base[1] != variant[1] && base[2] == variant[2]
    ensures IsMergedBody(Keyed(TwoImpls(base).value), [("w", Keyed(TwoImpls(variant).value))], IMPL, own, body) ==>
              body == Some([variant[1]])
    ensures IsMergedBody(Keyed(TwoImpls(base).value), [("w", Keyed(TwoImpls(variant).value))], FUNCTION, own, body) ==>
              body == Some(own)
  {
    var keyed, keyed' := Keyed(TwoImpls(base).value), Keyed(TwoImpls(variant).value);
    TwoImplsContents(base);
    TwoImplsContents(variant);
    assert [base[1]][0] != [variant[1]][0];
    if IsMergedBody(keyed, [("w", keyed')], IMPL, own, body) { LoneDecides(keyed, keyed', "w", IMPL, own, body); }
    if IsMergedBody(keyed, [("w", keyed')], FUNCTION, own, body) { LoneDecides(keyed, keyed', "w", FUNCTION, own, body); }
  }

  lemma {:induction false} MergedAt(items: seq<Item>, parsed: seq<KeyedVariant>, bodies: Bodies, i: nat)
    requires AreMergedBodies(items, parsed, bodies) && i < |items|
    ensures IsMergedBody(Keyed(items), parsed, Key(items, i), items[i].content, bodies[i])
  {
  }

  lemma {:induction false} TwoImplsBodies(base: Bytes, variant: Bytes, bodies: Bodies)
    requires |base| == |variant| == 3 && base[1] != variant[1] && base[2] == variant[2]
    requires AreMergedBodies(TwoImpls(base).value, [("w", Keyed(TwoImpls(variant).value))], bodies)
    ensures bodies == [Some([variant[1]]), Some([variant[1]]), Some([base[2]])]
  {
    TwoImplsBodyAt(base, variant, bodies, 0);
    TwoImplsBodyAt(base, variant, bodies, 1);
    TwoImplsBodyAt(base, variant, bodies, 2);
  }

  lemma {:induction false} TwoImplsBodyAt(base: Bytes, variant: Bytes, bodies: Bodies, i: nat)
    requires |base| == |variant| == 3 && base[1] != variant[1] && base[2] == variant[2] && i < 3
    requires AreMergedBodies(TwoImpls(base).value, [("w", Keyed(TwoImpls(variant).value))], bodies)
    ensures |bodies| == 3 && bodies[i] == Some([if i < 2 then variant[1] else base[2]])
  {
    var items := TwoImpls(base).value;
    TwoImplsContents(base);
    MergedAt(items, [("w", Keyed(TwoImpls(variant).value))], bodies, i);
    TwoImplsDecided(base, variant, items[i].content, bodies[i]);
    assert base[2..3] == [base[2]];
  }

  lemma {:induction false} LastImplAccepted(trivia: Trivia, base: Bytes, variant: Bytes, r: Outcome)
    requires Faithful(TwoImpls) && |base| == |variant| == 3 && IsMerge(TwoImpls, trivia, base, [("w", variant)], r)
    ensures r.AstClean? && ParsedOf(TwoImpls, [("w", variant)]) == [("w", Keyed(TwoImpls(variant).value))]
  {
    TwoImplsGaps(base);
    TwoImplsGaps(variant);
    LoneIsRefusedIff(TwoImpls, trivia, base, "w", variant, r);
  }

  lemma {:induction false} LastImplClean(trivia: Trivia, base: Bytes, variant: Bytes, r: Outcome)
    requires Faithful(TwoImpls) && |base| == |variant| == 3 && base[1] != variant[1] && base[2] == variant[2]
    requires IsMerge(TwoImpls, trivia, base, [("w", variant)], r) && r.AstClean?
    requires ParsedOf(TwoImpls, [("w", variant)]) == [("w", Keyed(TwoImpls(variant).value))]
    ensures r.merged == Woven(base, TwoImpls(base).value, [Some([variant[1]]), Some([variant[1]]), Some([base[2]])])
  {
    TwoImplsContents(base);
    TwoImplsContents(variant);
    var bodies := CleanIsThreeWay(TwoImpls, trivia, base, [("w", variant)], r);
    TwoImplsBodies(base, variant, bodies);
  }

  lemma {:induction false} TwoImplsWoven(base: Bytes, x: Byte, y: Byte, z: Byte)
    requires |base| == 3 && WellParsed(base, TwoImpls(base).value)
    ensures Woven(base, TwoImpls(base).value, [Some([x]), Some([y]), Some([z])]) == [x, y, z]
  {
    TwoImplsGaps(base);
    WovenOfThree(base, TwoImpls(base).value, [Some([x]), Some([y]), Some([z])]);
  }

  lemma {:induction false} LastImplMerged(trivia: Trivia, base: Bytes, variant: Bytes, r: Outcome)
    requires Faithful(TwoImpls) && |base| == |variant| == 3 && base[1] != variant[1] && base[2] == variant[2]
    requires IsMerge(TwoImpls, trivia, base, [("w", variant)], r)
    ensures r == SharedPath.AstClean([variant[1], variant[1], base[2]])
  {
    LastImplAccepted(trivia, base, variant, r);
    LastImplClean(trivia, base, variant, r);
    TwoImplsWoven(base, variant[1], variant[1], base[2]);
  }

  /** A workspace rewrites the second impl block only: it is written in both places. */
  lemma {:induction false} LastImplWrittenTwice(trivia: Trivia, r: Outcome)
    requires Faithful(TwoImpls) && IsMerge(TwoImpls, trivia, [97, 98, 99], [("w", [97, 121, 99])], r)
    ensures r == SharedPath.AstClean([121, 121, 99])
  {
    LastImplMerged(trivia, [97, 98, 99], [97, 121, 99], r);
  }

  /** That merge itself. */
  method MergeLastImpl(trivia: Trivia) returns (r: Outcome)
    ensures r == SharedPath.AstClean([121, 121, 99])
  {
    TwoImplsKeyed([97, 98, 99]);
    r := TryAstMerge(TwoImpls, trivia, [97, 98, 99], [("w", [97, 121, 99])]);
    LastImplWrittenTwice(trivia, r);
  }

  // ----- a comment that two workspaces edit

  /** One comment byte and a function. */
  function Commented(source: Bytes): Option<seq<Item>> {
    if |source| != 2 then None else Some([Item("function_item", Some("a"), 1, 2, source[1..2])])
  }

  lemma {:induction false} CommentedFaithful()
    ensures Faithful(Commented)
  {
  }

  /** Two workspaces rewrite the comment differently. */
  function CommentEntries(): seq<SharedPath.Entry<Bytes>> {
    [SharedPath.Entry("w1", MergeAlgebra.Modified, Some([50, 97]), None),
     SharedPath.Entry("w2", MergeAlgebra.Modified, Some([51, 97]), None)]
  }

  /** Line-wise diff3 over bytes, no alignment, and atoms that name the workspaces of their edits. */
  function ByteTools(): SharedPath.Tools<Bytes, AstAtom, int> {
    SharedPath.Tools(
      (b: Bytes, o: Bytes, t: Bytes) =>
        Ok(if LineDiff3(b, o, t).Clean? then SharedPath.CleanMerge(LineDiff3(b, o, t).merged) else SharedPath.Markers(b)),
      (b: Bytes, v: Bytes) => None,
      (m: Bytes, o: string, t: string) => [],
      (a: AstAtom) => Map((e: NodeEdit) => e.ws, a.edits))
  }

  lemma {:induction false} CommentIsStuck(path: Path)
    ensures Diff3IsStuck(ByteTools(), path, CommentEntries(), Some([49, 97]))
    ensures SharedPath.Values(CommentEntries()) == [[50, 97], [51, 97]]
  {
    var entries, base: Bytes, values := CommentEntries(), [49, 97], SharedPath.Values(CommentEntries());
    assert values == [[50, 97], [51, 97]];
    assert values[0] in values && values[1] in values && Apart(base[0], values[0][0], values[1][0]);
    assert Attribution.LineWise<Byte, AstAtom, int>(ByteTools());
    Attribution.LineOutcome(ByteTools(), path, entries, base);
  }

  lemma {:induction false} CommentChangesNoItem()
    ensures AllParse(Commented, VariantsOf(CommentEntries())) && Applicable(Commented, [49, 97], VariantsOf(CommentEntries()))
    ensures !SomeItemChanged(Keyed(Commented([49, 97]).value), ParsedOf(Commented, VariantsOf(CommentEntries())))
  {
    var base: Bytes, variants := [49, 97], VariantsOf(CommentEntries());
    assert variants == [("w1", [50, 97]), ("w2", [51, 97])];
    forall v | 0 <= v < |variants|
      ensures SameKeys(Commented(base).value, Commented(variants[v].1).value)
      ensures SameContents(Commented(base).value, Commented(variants[v].1).value)
    {
      assert base[1..2] == [97] && variants[v].1[1..2] == [97];
    }
    AlikeChangesNothing(Commented, base, variants);
  }

  /**
   * The path from its two entries to its outcome: diff3 alone reports a conflict over the comment; with the AST merge the
   * path is resolved to the base, and both comments are gone.
   */
  method ResolveCommentEdits(path: Path, trivia: Trivia) returns (r: Result<SharedPath.SharedOutcome<Bytes, AstAtom>, int>)
    ensures Diff3IsStuck(ByteTools(), path, CommentEntries(), Some([49, 97]))
    ensures r == Ok(SharedPath.Resolved(SharedPath.UpsertPath(path, [49, 97])))
  {
    var entries, base: Bytes := CommentEntries(), [49, 97];
    CommentedFaithful();
    CommentIsStuck(path);
    CommentChangesNoItem();
    var answer := TryAstMerge(Commented, trivia, base, VariantsOf(entries));
    var engine: SharedPath.AstEngine<Bytes, AstAtom> := (b: Bytes, variants: seq<Variant>) => answer;
    UnchangedItemsGiveBase(Commented, trivia, ByteTools(), engine, path, entries, base);
    r := SharedPath.ResolveSharedPathWithAst(ByteTools(), Some(engine), path, entries, Some(base));
  }

  // ----- a comment edited together with an addition

  /** Two functions with a byte between them, and a third function at the end of longer files. */
  function Spaced(source: Bytes): Option<seq<Item>> {
    if |source| == 3 then
      Some([Item("function_item", Some("a"), 0, 1, source[0..1]), Item("function_item", Some("b"), 2, 3, source[2..3])])
    else if |source| == 4 then
      Some([Item("function_item", Some("a"), 0, 1, source[0..1]), Item("function_item", Some("b"), 2, 3, source[2..3]),
            Item("function_item", Some("c"), 3, 4, source[3..4])])
    else None
  }

  lemma {:induction false} SpacedKeyed(base: Bytes, variant: Bytes)
    requires |base| == 3 && |variant| == 4
    ensures Faithful(Spaced)
    ensures var items := Spaced(base).value;
            Keyed(items) == map[Named("function_item", "a") := items[0], Named("function_item", "b") := items[1]]
    ensures var items := Spaced(variant).value;
            Keyed(items) == map[Named("function_item", "a") := items[0], Named("function_item", "b") := items[1], FUNCTION := items[2]]
  {
    assert "a"[0] == 'a' && "b"[0] == 'b' && "c"[0] == 'c';
    var items, items' := Spaced(base).value, Spaced(variant).value;
    assert Keyed(items[..1]) == map[Named("function_item", "a") := items[0]] by { assert items[..1][..0] == []; }
    assert items'[..2][..1] == [items'[0]];
    assert Keyed(items'[..2][..1]) == map[Named("function_item", "a") := items'[0]] by { assert items'[..2][..1][..0] == []; }
    assert Keyed(items'[..2]) == map[Named("function_item", "a") := items'[0], Named("function_item", "b") := items'[1]];
  }

  lemma {:induction false} SpacedAddsOnly(base: Bytes, variant: Bytes)
    requires |base| == 3 && |variant| == 4 && base[0] == variant[0] && base[2] == variant[2]
    ensures forall key, o :: key in Keyed(Spaced(base).value) ==>
              !IsOutcome(Keyed(Spaced(base).value), [("w", Keyed(Spaced(variant).value))], key, o)
    ensures forall key :: key in Keyed(Spaced(variant).value) ==> !IsUse(Keyed(Spaced(variant).value)[key])
  {
    SpacedKeyed(base, variant);
    var keyed, keyed' := Keyed(Spaced(base).value), Keyed(Spaced(variant).value);
    assert base[0..1] == variant[0..1] && base[2..3] == variant[2..3];
    forall key, o | key in keyed ensures !IsOutcome(keyed, [("w", keyed')], key, o) { LoneOutcome(keyed, keyed', "w", key, o); }
    assert "function_item"[0] == 'f' && "use_declaration"[0] == 'u' && "extern_crate_declaration"[0] == 'e';
  }

  lemma {:induction false} SpacedKeepsBase(trivia: Trivia, base: Bytes, variant: Bytes, r: Outcome)
    requires Faithful(Spaced) && |base| == 3 && |variant| == 4 && base[0] == variant[0] && base[2] == variant[2]
    requires IsMerge(Spaced, trivia, base, [("w", variant)], r) && r.AstClean?
    requires ParsedOf(Spaced, [("w", variant)]) == [("w", Keyed(Spaced(variant).value))]
    ensures base <= r.merged
  {
    SpacedAddsOnly(base, variant);
    OnlyItemsAddedBehind(Spaced, trivia, base, [("w", variant)], r);
  }

  /** A workspace edits the comment between two functions and adds a third: the base's comment is what stays. */
  lemma {:induction false} CommentWithAdditionDropped(trivia: Trivia, r: Outcome)
    requires Faithful(Spaced) && IsMerge(Spaced, trivia, [97, 32, 98], [("w", [97, 35, 98, 99])], r)
    ensures r.AstClean? && [97, 32, 98] <= r.merged
  {
    var base: Bytes, variant: Bytes := [97, 32, 98], [97, 35, 98, 99];
    LoneIsRefusedIff(Spaced, trivia, base, "w", variant, r);
    SpacedKeepsBase(trivia, base, variant, r);
  }

  /** That merge itself. */
  method MergeCommentWithAddition(trivia: Trivia) returns (r: Outcome)
    ensures r.AstClean? && [97, 32, 98] <= r.merged
  {
    SpacedKeyed([97, 32, 98], [97, 35, 98, 99]);
    r := TryAstMerge(Spaced, trivia, [97, 32, 98], [("w", [97, 35, 98, 99])]);
    CommentWithAdditionDropped(trivia, r);
  }

  // ----- added uses

  predicate IsAscii(bytes: Bytes) {
    forall i | 0 <= i < |bytes| :: bytes[i] < 128
  }

  /** The text of ASCII bytes; other bytes count as unreadable here. */
  function Text(bytes: Bytes): (r: string)
    ensures IsAscii(bytes) ==> |r| == |bytes| && forall i :: 0 <= i < |r| ==> r[i] == bytes[i] as char
    ensures !IsAscii(bytes) ==> r == ""
  {
    if IsAscii(bytes) then seq(|bytes|, i requires 0 <= i < |bytes| => bytes[i] as char) else ""
  }

  function UseAt(source: Bytes, start: nat): Item
    requires start < |source|
  {
    Item("use_declaration", Some(Text(source[start..start + 1])), start, start + 1, source[start..start + 1])
  }

  function UseKey(b: Byte): ItemKey {
    Named("use_declaration", Text([b]))
  }

  /** Files of one use each and, when longer by two bytes, of a second one at the end. */
  function OneOrTwoUses(start: nat): Parser {
    (source: Bytes) =>
      if |source| == start + 1 then Some([UseAt(source, start)])
      else if |source| == start + 3 then Some([UseAt(source, start), UseAt(source, start + 2)])
      else None
  }

  lemma {:induction false} TextInjective(a: Bytes, b: Bytes)
    requires Text(a) == Text(b) && Text(a) != ""
    ensures a == b
  {
    forall i | 0 <= i < |a| ensures a[i] == b[i] { assert Text(a)[i] == Text(b)[i]; }
  }

  lemma {:induction false} UsesAreNamed(start: nat)
    ensures Faithful(OneOrTwoUses(start)) && NamesUses(OneOrTwoUses(start), Text)
  {
    forall a, b | Text(a) == Text(b) && Text(a) != "" ensures a == b { TextInjective(a, b); }
    forall source: Bytes | OneOrTwoUses(start)(source).Some?
      ensures WellParsed(source, OneOrTwoUses(start)(source).value) && AreNamed(OneOrTwoUses(start)(source).value, Text)
    {
      OneOrTwoParsed(start, source);
    }
  }

  lemma {:induction false} OneOrTwoParsed(start: nat, source: Bytes)
    requires OneOrTwoUses(start)(source).Some?
    ensures WellParsed(source, OneOrTwoUses(start)(source).value) && AreNamed(OneOrTwoUses(start)(source).value, Text)
  {
  }

  lemma {:induction false} UsesKeyed(start: nat, base: Bytes, variant: Bytes)
    requires |base| == start + 1 && |variant| == start + 3 && UseKey(variant[start]) != UseKey(variant[start + 2])
    ensures Keyed(OneOrTwoUses(start)(base).value) == map[UseKey(base[start]) := UseAt(base, start)]
    ensures Keyed(OneOrTwoUses(start)(variant).value)
         == map[UseKey(variant[start]) := UseAt(variant, start), UseKey(variant[start + 2]) := UseAt(variant, start + 2)]
  {
    assert base[start..start + 1] == [base[start]];
    assert variant[start..start + 1] == [variant[start]] && variant[start + 2..start + 3] == [variant[start + 2]];
    var items := OneOrTwoUses(start)(variant).value;
    assert items[..1] == [items[0]] && items[..1][..0] == [];
  }

  lemma {:induction false} OnlyOne<T>(s: seq<T>, x: T)
    requires Distinct(s) && x in s && forall y :: y in s ==> y == x
    ensures s == [x]
  {
    DistinctIsSet(s);
    assert (set y | y in s) == {x};
    assert |multiset(s)| == 1;
  }

  lemma {:induction false} OneAdded(base: KeyedItems, variant: KeyedItems, ws: WorkspaceId, key: ItemKey, keys: seq<ItemKey>,
        found: seq<Addition>, additions: seq<Addition>)
    requires AreAddedItems(base, [(ws, variant)], keys, found, additions)
    requires key in variant && key !in base && forall k :: k in variant && k !in base ==> k == key
    ensures additions == [(ws, variant[key])]
  {
    var parsed := [(ws, variant)];
    assert parsed[0].1 == variant && AddsKey(base, parsed, key);
    assert key in keys && forall k :: k in keys ==> AddsKey(base, parsed, k);
    OnlyOne(keys, key);
    assert IsAddedItem(parsed, keys[0], found[0]) && found == [found[0]];
    SameMembers(additions, found);
    assert additions[0] in found;
  }

  /** One use written on a line of its own at `at`. */
  function Behind(core: Bytes, at: nat, content: Bytes): Bytes
    requires at <= |core|
  {
    core[..at] + ([NEWLINE] + content) + core[at..]
  }

  lemma {:induction false} OneUseSpliced(core: Bytes, items: seq<Item>, bodies: Bodies, a: Addition, variants: seq<Variant>,
        trivia: Trivia, at: nat, separators: seq<Bytes>, out: Bytes)
    requires |bodies| == |items| && IsUse(a.1)
    requires WithAdditions(core, items, bodies, [a], variants, trivia, Some(at), separators, out)
    ensures at <= |core| && out == Behind(core, at, a.1.content)
  {
    OneUse(a);
    var spliced := core[..at] + ([NEWLINE] + a.1.content) + core[at..];
    assert separators == [] && Tail([], [], variants, trivia) == [];
    assert spliced + [] == spliced;
  }

  lemma {:induction false} OneUse(a: Addition)
    requires IsUse(a.1)
    ensures AtEnd([a], true) == [] && Uses([a]) == [a] && WrittenUses([a]) == [NEWLINE] + a.1.content
  {
    assert [a][..0] == [] && [] + [NEWLINE] == [NEWLINE];
  }

  lemma {:induction false} SecondUseOnlyAdded(start: nat, base: Bytes, variant: Bytes)
    requires |base| == start + 1 && |variant| == start + 3 && base[start] == variant[start]
    requires UseKey(variant[start]) != UseKey(variant[start + 2])
    ensures var keyed, keyed' := Keyed(OneOrTwoUses(start)(base).value), Keyed(OneOrTwoUses(start)(variant).value);
            && (forall key, o :: key in keyed ==> !IsOutcome(keyed, [("w", keyed')], key, o))
            && UseKey(variant[start + 2]) in keyed' && UseKey(variant[start + 2]) !in keyed
            && keyed'[UseKey(variant[start + 2])] == UseAt(variant, start + 2)
            && forall k :: k in keyed' && k !in keyed ==> k == UseKey(variant[start + 2])
  {
    UsesKeyed(start, base, variant);
    var keyed, keyed' := Keyed(OneOrTwoUses(start)(base).value), Keyed(OneOrTwoUses(start)(variant).value);
    assert base[start..start + 1] == [base[start]] && variant[start..start + 1] == [variant[start]];
    forall key, o | key in keyed ensures !IsOutcome(keyed, [("w", keyed')], key, o) { LoneOutcome(keyed, keyed', "w", key, o); }
  }

  lemma {:induction false} SecondUseAdded(start: nat, trivia: Trivia, base: Bytes, variant: Bytes, r: Outcome)
    returns (at: Option<nat>, separators: seq<Bytes>)
    requires |base| == start + 1 && |variant| == start + 3 && base[start] == variant[start]
    requires UseKey(variant[start]) != UseKey(variant[start + 2])
    requires Faithful(OneOrTwoUses(start)) && IsMerge(OneOrTwoUses(start), trivia, base, [("w", variant)], r)
    ensures var items := OneOrTwoUses(start)(base).value;
            && r.AstClean?
            && WithAdditions(base, items, OwnBodies(items), [("w", UseAt(variant, start + 2))], [("w", variant)], trivia, at,
                             separators, r.merged)
  {
    var parse := OneOrTwoUses(start);
    LoneIsRefusedIff(parse, trivia, base, "w", variant, r);
    SecondUseOnlyAdded(start, base, variant);
    var keys, found, additions;
    keys, found, additions, at, separators := OnlyAdditionsKeepBase(parse, trivia, base, [("w", variant)], r);
    OneAdded(Keyed(parse(base).value), Keyed(parse(variant).value), "w", UseKey(variant[start + 2]), keys, found, additions);
  }

  lemma {:induction false} KeysDiffer(a: Byte, b: Byte)
    requires a < 128 && b < 128 && a != b
    ensures UseKey(a) != UseKey(b)
  {
    assert Text([a])[0] == a as char && Text([b])[0] == b as char;
  }

  /** Adding one use behind a use that was left alone: it goes behind the first occurrence of that use's byte. */
  lemma {:induction false} SecondUseMerged(start: nat, trivia: Trivia, base: Bytes, variant: Bytes, p: nat, r: Outcome)
    requires |base| == start + 1 && |variant| == start + 3 && base[start] == variant[start]
    requires UseKey(variant[start]) != UseKey(variant[start + 2])
    requires p <= start && base[p] == base[start] && forall q :: 0 <= q < p ==> base[q] != base[start]
    requires Faithful(OneOrTwoUses(start)) && IsMerge(OneOrTwoUses(start), trivia, base, [("w", variant)], r)
    ensures r == SharedPath.AstClean(Behind(base, p + 1, UseAt(variant, start + 2).content))
  {
    var at, separators := SecondUseAdded(start, trivia, base, variant, r);
    SplicedBehind(start, trivia, base, variant, p, at, separators, r.merged);
  }

  lemma {:induction false} SplicedBehind(start: nat, trivia: Trivia, base: Bytes, variant: Bytes, p: nat, at: Option<nat>,
        separators: seq<Bytes>, out: Bytes)
    requires |base| == start + 1 && |variant| == start + 3
    requires p <= start && base[p] == base[start] && forall q :: 0 <= q < p ==> base[q] != base[start]
    requires WithAdditions(base, [UseAt(base, start)], OwnBodies([UseAt(base, start)]), [("w", UseAt(variant, start + 2))],
                           [("w", variant)], trivia, at, separators, out)
    ensures out == Behind(base, p + 1, UseAt(variant, start + 2).content)
  {
    var items, a := [UseAt(base, start)], ("w", UseAt(variant, start + 2));
    FirstByteIsPosition(start, base, [a], a, at, p);
    OneUseSpliced(base, items, OwnBodies(items), a, [("w", variant)], trivia, p + 1, separators, out);
  }

  lemma {:induction false} FirstByteIsPosition(start: nat, base: Bytes, additions: seq<Addition>, a: Addition, at: Option<nat>,
        p: nat)
    requires |base| == start + 1 && a in additions && IsUse(a.1)
    requires p <= start && base[p] == base[start] && forall q :: 0 <= q < p ==> base[q] != base[start]
    requires IsUsePosition(base, [UseAt(base, start)], OwnBodies([UseAt(base, start)]), additions, at)
    ensures at == Some(p + 1)
  {
    var items, bodies := [UseAt(base, start)], OwnBodies([UseAt(base, start)]);
    var content := items[0].content;
    assert IsAnchor(items, bodies, 0) && content == [base[start]];
    AnchorUnique(items, bodies, 0);
    forall q: nat ensures OccursAt(base, content, q) <==> q <= start && base[q] == base[start] {
      if q <= start { assert base[q..q + 1] == [base[q]]; }
    }
    assert OccursAt(base, content, p);
  }

  /** A comment ends in the letter of the only use: an added use goes into the comment's line, in front of that use. */
  lemma {:induction false} UseGoesIntoComment(trivia: Trivia, r: Outcome)
    requires Faithful(OneOrTwoUses(4))
    requires IsMerge(OneOrTwoUses(4), trivia, [47, 47, 117, 10, 117], [("w", [47, 47, 117, 10, 117, 10, 118])], r)
    ensures r == SharedPath.AstClean([47, 47, 117, 10, 118, 10, 117])
  {
    CommentBytes([47, 47, 117, 10, 117], [47, 47, 117, 10, 117, 10, 118]);
    UseBehindByte(4, trivia, [47, 47, 117, 10, 117], [47, 47, 117, 10, 117, 10, 118], r);
  }

  lemma {:induction false} CommentBytes(base: Bytes, variant: Bytes)
    requires base == [47, 47, 117, 10, 117] && variant == [47, 47, 117, 10, 117, 10, 118]
    ensures |base| == 5 && |variant| == 7 && base[4] == variant[4] && UseKey(variant[4]) != UseKey(variant[6])
    ensures base[0] != base[4] && base[1] != base[4] && base[2] == base[4]
    ensures Behind(base, 3, variant[6..7]) == [47, 47, 117, 10, 118, 10, 117]
  {
    KeysDiffer(117, 118);
    FiveBytes(base, variant[6..7]);
  }

  lemma {:induction false} UseBehindByte(start: nat, trivia: Trivia, base: Bytes, variant: Bytes, r: Outcome)
    requires start == 4 && |base| == 5 && |variant| == 7 && base[4] == variant[4] && UseKey(variant[4]) != UseKey(variant[6])
    requires base[0] != base[4] && base[1] != base[4] && base[2] == base[4]
    requires Faithful(OneOrTwoUses(start)) && IsMerge(OneOrTwoUses(start), trivia, base, [("w", variant)], r)
    ensures r == SharedPath.AstClean(Behind(base, 3, variant[6..7]))
  {
    FirstLetter(start, base, variant);
    SecondUseMerged(start, trivia, base, variant, 2, r);
    assert UseAt(variant, start + 2).content == variant[6..7];
  }

  lemma {:induction false} FirstLetter(start: nat, base: Bytes, variant: Bytes)
    requires start == 4 && |base| == 5 && |variant| == 7 && base[4] == variant[4] && UseKey(variant[4]) != UseKey(variant[6])
    requires base[0] != base[4] && base[1] != base[4] && base[2] == base[4]
    ensures base[start] == variant[start] && UseKey(variant[start]) != UseKey(variant[start + 2])
    ensures forall q :: 0 <= q < 2 ==> base[q] != base[start]
  {
  }

  lemma {:induction false} FiveBytes(base: Bytes, content: Bytes)
    requires |base| == 5 && |content| == 1
    ensures Behind(base, 3, content) == [base[0], base[1], base[2], NEWLINE, content[0], base[3], base[4]]
  {
  }

  /** That merge itself. */
  method MergeUseIntoComment(trivia: Trivia) returns (r: Outcome)
    ensures r == SharedPath.AstClean([47, 47, 117, 10, 118, 10, 117])
  {
    UsesAreNamed(4);
    r := TryAstMerge(OneOrTwoUses(4), trivia, [47, 47, 117, 10, 117], [("w", [47, 47, 117, 10, 117, 10, 118])]);
    UseGoesIntoComment(trivia, r);
  }

  // ----- a use that is not readable

  lemma {:induction false} OneAppended(core: Bytes, items: seq<Item>, bodies: Bodies, a: Addition, variants: seq<Variant>,
        trivia: Trivia, separators: seq<Bytes>, out: Bytes)
    requires |bodies| == |items| && core != [] && core[|core| - 1] != NEWLINE
    requires WithAdditions(core, items, bodies, [a], variants, trivia, None, separators, out)
    ensures out == core + ([NEWLINE, NEWLINE] + Written(variants, trivia, a))
  {
    OneAtEnd(a);
    assert SeparatesAt(core, separators, [a], variants, trivia, 0);
    OneSeparator(core, separators, a, variants, trivia);
    OneTail(separators, a, variants, trivia);
  }

  lemma {:induction false} OneAtEnd(a: Addition)
    ensures AtEnd([a], false) == [a]
  {
    assert [a][..0] == [];
  }

  lemma {:induction false} OneTail(separators: seq<Bytes>, a: Addition, variants: seq<Variant>, trivia: Trivia)
    requires |separators| == 1
    ensures Tail(separators, [a], variants, trivia) == separators[0] + Written(variants, trivia, a)
  {
    assert separators[..0] == [] && [a][..0] == [] && [] + separators[0] == separators[0];
  }

  lemma {:induction false} OneSeparator(core: Bytes, separators: seq<Bytes>, a: Addition, variants: seq<Variant>, trivia: Trivia)
    requires |separators| == 1 && core != [] && core[|core| - 1] != NEWLINE
    requires SeparatesAt(core, separators, [a], variants, trivia, 0)
    ensures separators[0] == [NEWLINE, NEWLINE]
  {
    assert separators[..0] == [] && [a][..0] == [] && core + [] == core;
    LastBytes(core + separators[0]);
  }

  lemma {:induction false} UnreadableKeys(base: Bytes, variant: Bytes)
    requires |base| == 1 && |variant| == 3 && base[0] >= 128 && variant[0] >= 128 && variant[2] < 128
    ensures UseKey(base[0]) == UseKey(variant[0]) == Named("use_declaration", "") && UseKey(variant[0]) != UseKey(variant[2])
  {
    assert !IsAscii([base[0]]) by { assert [base[0]][0] >= 128; }
    assert !IsAscii([variant[0]]) by { assert [variant[0]][0] >= 128; }
    assert |Text([variant[2]])| == 1;
  }

  /** What the keyed views of such files hold: the one unreadable use in both, and the added use. */
  lemma {:induction false} UnreadableKeyed(base: Bytes, variant: Bytes)
    requires |base| == 1 && |variant| == 3 && base[0] >= 128 && variant[0] >= 128 && variant[2] < 128
    ensures var keyed, keyed' := Keyed(OneOrTwoUses(0)(base).value), Keyed(OneOrTwoUses(0)(variant).value);
            && ContentAt(keyed, UseKey(base[0])) == Some([base[0]]) && ContentAt(keyed', UseKey(base[0])) == Some([variant[0]])
            && UseKey(variant[2]) in keyed' && UseKey(variant[2]) !in keyed && keyed'[UseKey(variant[2])] == UseAt(variant, 2)
            && forall k :: k in keyed' && k !in keyed ==> k == UseKey(variant[2])
    ensures Key(OneOrTwoUses(0)(base).value, 0) == UseKey(base[0])
  {
    UnreadableKeys(base, variant);
    UsesKeyed(0, base, variant);
    assert base[0..1] == [base[0]] && variant[0..1] == [variant[0]];
  }

  lemma {:induction false} UnreadableWoven(base: Bytes, x: Bytes)
    requires |base| == 1 && WellParsed(base, [UseAt(base, 0)])
    ensures Woven(base, [UseAt(base, 0)], [Some(x)]) == x
  {
    var items, bodies: Bodies := [UseAt(base, 0)], [Some(x)];
    WovenStep(base, items, bodies, 1);
    WovenEnd(base, items, bodies);
    assert WovenTo(base, items, bodies, 0) == [] && [] + x == x;
  }

  lemma {:induction false} UnreadablePosition(core: Bytes, base: Bytes, additions: seq<Addition>, at: Option<nat>)
    requires |core| == |base| == 1 && core != base
    requires IsUsePosition(core, [UseAt(base, 0)], [Some(core)], additions, at)
    ensures at == None
  {
    forall p: nat ensures !OccursAt(core, base[0..1], p) {
      if p == 0 { assert core[0..1] == core && base[0..1] == base; }
    }
  }

  lemma {:induction false} UnreadableBody(base: Bytes, variant: Bytes, bodies: Bodies)
    requires |base| == 1 && |variant| == 3 && base[0] >= 128 && variant[0] >= 128 && base[0] != variant[0] && variant[2] < 128
    requires AreMergedBodies(OneOrTwoUses(0)(base).value, [("w", Keyed(OneOrTwoUses(0)(variant).value))], bodies)
    ensures bodies == [Some([variant[0]])]
  {
    var keyed, keyed' := Keyed(OneOrTwoUses(0)(base).value), Keyed(OneOrTwoUses(0)(variant).value);
    UnreadableKeyed(base, variant);
    assert [base[0]][0] != [variant[0]][0];
    LoneDecides(keyed, keyed', "w", UseKey(base[0]), base[0..1], bodies[0]);
  }

  lemma {:induction false} UnreadableAdded(base: Bytes, variant: Bytes, keys: seq<ItemKey>, found: seq<Addition>, additions: seq<Addition>)
    requires |base| == 1 && |variant| == 3 && base[0] >= 128 && variant[0] >= 128 && variant[2] < 128
    requires AreAddedItems(Keyed(OneOrTwoUses(0)(base).value), [("w", Keyed(OneOrTwoUses(0)(variant).value))], keys, found, additions)
    ensures additions == [("w", UseAt(variant, 2))]
  {
    UnreadableKeyed(base, variant);
    OneAdded(Keyed(OneOrTwoUses(0)(base).value), Keyed(OneOrTwoUses(0)(variant).value), "w", UseKey(variant[2]), keys, found,
             additions);
  }

  lemma {:induction false} UnreadableAssembled(trivia: Trivia, base: Bytes, variant: Bytes, r: Outcome)
    returns (at: Option<nat>, separators: seq<Bytes>)
    requires |base| == 1 && |variant| == 3 && base[0] >= 128 && variant[0] >= 128 && base[0] != variant[0] && variant[2] < 128
    requires Faithful(OneOrTwoUses(0)) && IsMerge(OneOrTwoUses(0), trivia, base, [("w", variant)], r)
    ensures r.AstClean?
    ensures WithAdditions(Woven(base, [UseAt(base, 0)], [Some([variant[0]])]), [UseAt(base, 0)], [Some([variant[0]])],
                          [("w", UseAt(variant, 2))], [("w", variant)], trivia, at, separators, r.merged)
  {
    var parse := OneOrTwoUses(0);
    LoneIsRefusedIff(parse, trivia, base, "w", variant, r);
    var bodies, keys, found, additions;
    bodies, keys, found, additions, at, separators := CleanMergeExact(parse, trivia, base, [("w", variant)], r);
    UnreadableBody(base, variant, bodies);
    UnreadableAdded(base, variant, keys, found, additions);
  }

  lemma {:induction false} UnreadableMerged(trivia: Trivia, base: Bytes, variant: Bytes, r: Outcome)
    requires |base| == 1 && |variant| == 3 && base[0] >= 128 && variant[0] >= 128 && base[0] != variant[0] && variant[2] < 128
    requires Faithful(OneOrTwoUses(0)) && IsMerge(OneOrTwoUses(0), trivia, base, [("w", variant)], r)
    ensures r == SharedPath.AstClean([variant[0]] + ([NEWLINE, NEWLINE] + Written([("w", variant)], trivia, ("w", UseAt(variant, 2)))))
  {
    var at, separators := UnreadableAssembled(trivia, base, variant, r);
    var core, a := [variant[0]], ("w", UseAt(variant, 2));
    UnreadableWoven(base, core);
    UnreadablePosition(core, base, [a], at);
    OneAppended(core, [UseAt(base, 0)], [Some(core)], a, [("w", variant)], trivia, separators, r.merged);
  }

  /** The only use holds a byte that is not text, and is changed: an added use goes to the end of the file, not behind it. */
  lemma {:induction false} UnreadableUseLost(trivia: Trivia, r: Outcome)
    requires Faithful(OneOrTwoUses(0)) && IsMerge(OneOrTwoUses(0), trivia, [200], [("w", [201, 10, 118])], r)
    ensures r == SharedPath.AstClean([201] + ([10, 10] + Written([("w", [201, 10, 118])], trivia, ("w", UseAt([201, 10, 118], 2)))))
  {
    UnreadableMerged(trivia, [200], [201, 10, 118], r);
  }

  /** That merge itself. */
  method MergeUnreadableUse(trivia: Trivia) returns (r: Outcome)
    ensures r == SharedPath.AstClean([201] + ([10, 10] + Written([("w", [201, 10, 118])], trivia, ("w", UseAt([201, 10, 118], 2)))))
  {
    UsesAreNamed(0);
    r := TryAstMerge(OneOrTwoUses(0), trivia, [200], [("w", [201, 10, 118])]);
    UnreadableUseLost(trivia, r);
  }
}

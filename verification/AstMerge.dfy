/** The AST merge: per-item constraints of all variants, the conflict verdict, and the clean merge (ast_merge.rs). */
module AstMerge {
  import opened Prelude
  import opened AstItems
  import opened AstRebuild
  import SharedPath

  type Variant = (WorkspaceId, Bytes)

  type Parser = Bytes -> Option<seq<Item>>

  /** Items come out of the parser in order, disjoint and non-empty. */
  ghost predicate Faithful(parse: Parser) {
    forall source :: parse(source).Some? ==> WellParsed(source, parse(source).value)
  }

  type KeyedVariant = (WorkspaceId, KeyedItems)

  // ----- constraints

  /** The constraints on one key, in variant order: at most one per variant. */
  function ConstraintsAt(base: KeyedItems, parsed: seq<KeyedVariant>, key: ItemKey): (r: seq<Constraint>)
    ensures |r| <= |parsed|
    ensures forall i :: 0 <= i < |r| ==> r[i].change.key == key
  {
    if parsed == [] then []
    else
      var (ws, items) := parsed[|parsed| - 1];
      var front, change := ConstraintsAt(base, parsed[..|parsed| - 1], key), ChangeAt(base, items, key);
      if change.Some? then front + [Constraint(ws, change.value)] else front
  }

  function Select(all: seq<Constraint>, key: ItemKey): seq<Constraint> {
    if all == [] then []
    else
      var front, last := Select(all[..|all| - 1], key), all[|all| - 1];
      if last.change.key == key then front + [last] else front
  }

  predicate AllSameChange(constraints: seq<Constraint>): (r: bool)
    ensures |constraints| <= 1 ==> r
  {
    forall i | 1 <= i < |constraints| :: ChangeContent(constraints[i].change) == ChangeContent(constraints[0].change)
  }

  /** Some variant changes the item at `key`, to `outcome`. */
  ghost predicate IsOutcome(base: KeyedItems, parsed: seq<KeyedVariant>, key: ItemKey, outcome: Option<Bytes>) {
    outcome != ContentAt(base, key) && exists i :: 0 <= i < |parsed| && ContentAt(parsed[i].1, key) == outcome
  }

  /** Two variants change the item at `key`, to different outcomes. */
  ghost predicate KeyConflict(base: KeyedItems, parsed: seq<KeyedVariant>, key: ItemKey) {
    exists o, o' :: IsOutcome(base, parsed, key, o) && IsOutcome(base, parsed, key, o') && o != o'
  }

  function Contents(constraints: seq<Constraint>): (r: seq<Option<Bytes>>)
    ensures |r| == |constraints| && forall i :: 0 <= i < |r| ==> r[i] == ChangeContent(constraints[i].change)
  {
    seq(|constraints|, i requires 0 <= i < |constraints| => ChangeContent(constraints[i].change))
  }

  lemma {:induction false} ConstraintsAreOutcomes(base: KeyedItems, parsed: seq<KeyedVariant>, key: ItemKey, o: Option<Bytes>)
    ensures o in Contents(ConstraintsAt(base, parsed, key)) <==> IsOutcome(base, parsed, key, o)
  {
    if parsed != [] {
      var n := |parsed| - 1;
      ConstraintsAreOutcomes(base, parsed[..n], key, o);
      OneMoreOutcome(base, parsed, key, o);
      var front, cs := ConstraintsAt(base, parsed[..n], key), ConstraintsAt(base, parsed, key);
      assert Contents(cs) == if |cs| == |front| then Contents(front) else Contents(front) + [ContentAt(parsed[n].1, key)];
    }
  }

  lemma {:induction false} OneMoreOutcome(base: KeyedItems, parsed: seq<KeyedVariant>, key: ItemKey, o: Option<Bytes>)
    requires parsed != []
    ensures IsOutcome(base, parsed, key, o)
            <==> || IsOutcome(base, parsed[..|parsed| - 1], key, o)
                 || (o != ContentAt(base, key) && o == ContentAt(parsed[|parsed| - 1].1, key))
  {
    var n := |parsed| - 1;
    if i :| 0 <= i < |parsed| && ContentAt(parsed[i].1, key) == o { assert i < n ==> parsed[..n][i] == parsed[i]; }
    if i :| 0 <= i < n && ContentAt(parsed[..n][i].1, key) == o { assert parsed[i] == parsed[..n][i]; }
  }

  lemma {:induction false} AllSameMembers(constraints: seq<Constraint>)
    ensures AllSameChange(constraints) <==> forall o, o' :: o in Contents(constraints) && o' in Contents(constraints) ==> o == o'
  {
    var contents := Contents(constraints);
    if AllSameChange(constraints) {
      assert forall i :: 0 <= i < |contents| ==> contents[i] == contents[0];
    } else {
      var i :| 1 <= i < |contents| && contents[i] != contents[0];
      assert contents[0] in contents && contents[i] in contents;
    }
  }

  /** The verdict on one key: a conflict exactly when two variants change it to different outcomes. */
  lemma {:induction false} VerdictExact(base: KeyedItems, parsed: seq<KeyedVariant>, key: ItemKey)
    ensures AllSameChange(ConstraintsAt(base, parsed, key)) <==> !KeyConflict(base, parsed, key)
    ensures ConstraintsAt(base, parsed, key) != [] <==> exists o :: IsOutcome(base, parsed, key, o)
  {
    var cs := ConstraintsAt(base, parsed, key);
    var contents := Contents(cs);
    forall o ensures o in contents <==> IsOutcome(base, parsed, key, o) { ConstraintsAreOutcomes(base, parsed, key, o); }
    AllSameMembers(cs);
    if contents != [] { assert contents[0] in contents; }
  }

  // ----- conflict atoms

  datatype NodeRegion = NodeRegion(kind: string, name: Option<string>, start: nat, end: nat)

  datatype NodeEdit = NodeEdit(ws: WorkspaceId, region: NodeRegion, content: Bytes)

  /** `lifecycle` marks a modify/delete mismatch. */
  datatype AstAtom = AstAtom(region: NodeRegion, edits: seq<NodeEdit>, lifecycle: bool)

  function RegionOf(item: Item): NodeRegion {
    NodeRegion(item.kind, item.name, item.start, item.end)
  }

  function EditOf(c: Constraint): NodeEdit {
    if c.change.Deleted? then NodeEdit(c.ws, RegionOf(c.change.base), [])
    else NodeEdit(c.ws, RegionOf(c.change.variant), c.change.variant.content)
  }

  function AtomOf(constraints: seq<Constraint>): AstAtom
    requires constraints != []
  {
    var first := constraints[0].change;
    AstAtom(
      RegionOf(if first.Added? then first.variant else first.base),
      Map(EditOf, constraints),
      (exists i | 0 <= i < |constraints| :: constraints[i].change.Deleted?)
      && (exists i | 0 <= i < |constraints| :: constraints[i].change.Modified?))
  }

  function AtomStart(a: AstAtom): nat { a.region.start }

  /** The constraints of each changed key. */
  type Groups = map<ItemKey, seq<Constraint>>

  ghost predicate GroupsAt(groups: Groups, base: KeyedItems, parsed: seq<KeyedVariant>) {
    forall key :: (key in groups <==> ConstraintsAt(base, parsed, key) != [])
               && (key in groups ==> groups[key] == ConstraintsAt(base, parsed, key))
  }

  ghost predicate ConflictAt(groups: Groups, key: ItemKey) {
    key in groups && !AllSameChange(groups[key])
  }

  /** The atom of each listed key. */
  ghost function AtomsAt(groups: Groups, keys: seq<ItemKey>): (r: seq<AstAtom>)
    requires forall k :: k in keys ==> ConflictAt(groups, k)
    ensures |r| == |keys|
  {
    if keys == [] then []
    else
      assert ConflictAt(groups, keys[|keys| - 1]);
      AtomsAt(groups, keys[..|keys| - 1]) + [AtomOf(groups[keys[|keys| - 1]])]
  }

  /** One atom per conflicting key, in base order. */
  ghost predicate AreAtoms(groups: Groups, atoms: seq<AstAtom>) {
    exists keys: seq<ItemKey> ::
      && SortedKeys(keys)
      && (forall k :: k in keys <==> ConflictAt(groups, k))
      && atoms == Sort(AtomsAt(groups, keys), AtomStart, NatLe)
  }

  /** The first constraint of every changed key. */
  ghost predicate AreResolutions(groups: Groups, resolutions: Resolutions) {
    && resolutions.Keys == groups.Keys
    && forall k :: k in groups ==> groups[k] != [] && resolutions[k] == groups[k][0]
  }

  // ----- gaps

  /** The non-empty gaps up to item `n`. */
  function RegionsBefore(source: Bytes, items: seq<Item>, n: nat): seq<Bytes>
    requires WellParsed(source, items) && n <= |items|
  {
    if n == 0 then []
    else
      var front, gap := RegionsBefore(source, items, n - 1), Gap(source, items, n - 1);
      if gap == [] then front else front + [gap]
  }

  function InterstitialRegions(source: Bytes, items: seq<Item>): seq<Bytes>
    requires WellParsed(source, items)
  {
    var front, gap := RegionsBefore(source, items, |items|), Gap(source, items, |items|);
    if gap == [] then front else front + [gap]
  }

  method CollectRegions(source: Bytes, items: seq<Item>) returns (regions: seq<Bytes>)
    requires WellParsed(source, items)
    ensures regions == InterstitialRegions(source, items)
  {
    regions := [];
    var cursor := 0;
    for i := 0 to |items|
      invariant regions == RegionsBefore(source, items, i) && cursor == EndBefore(items, i)
    {
      if items[i].start > cursor { regions := regions + [source[cursor..items[i].start]]; }
      cursor := items[i].end;
    }
    assert Gap(source, items, |items|) == source[cursor..];
    if cursor < |source| { regions := regions + [source[cursor..]]; }
  }

  predicate InterstitialDiffers(base: Bytes, baseItems: seq<Item>, variant: Bytes, variantItems: seq<Item>)
    requires WellParsed(base, baseItems) && WellParsed(variant, variantItems)
  {
    |baseItems| == |variantItems| && InterstitialRegions(base, baseItems) != InterstitialRegions(variant, variantItems)
  }

  // ----- the merge

  type Outcome = SharedPath.AstResult<Bytes, AstAtom>

  predicate AllParse(parse: Parser, variants: seq<Variant>) {
    forall i | 0 <= i < |variants| :: parse(variants[i].1).Some?
  }

  function ParsedOf(parse: Parser, variants: seq<Variant>): (r: seq<KeyedVariant>)
    requires AllParse(parse, variants)
    ensures |r| == |variants|
  {
    seq(|variants|, i requires 0 <= i < |variants| => (variants[i].0, Keyed(parse(variants[i].1).value)))
  }

  ghost predicate AnyConflict(groups: Groups) {
    exists k :: ConflictAt(groups, k)
  }

  predicate AnyGapDiffers(parse: Parser, base: Bytes, items: seq<Item>, variants: seq<Variant>)
    requires WellParsed(base, items) && AllParse(parse, variants)
    requires forall i :: 0 <= i < |variants| ==> WellParsed(variants[i].1, parse(variants[i].1).value)
  {
    exists i | 0 <= i < |variants| :: InterstitialDiffers(base, items, variants[i].1, parse(variants[i].1).value)
  }

  /** What a clean merge writes. */
  ghost predicate IsCleanMerge(trivia: Trivia, base: Bytes, items: seq<Item>, groups: Groups, variants: seq<Variant>, out: Bytes)
    requires WellParsed(base, items)
  {
    exists resolutions :: AreResolutions(groups, resolutions) && IsRebuilt(base, items, resolutions, variants, trivia, out)
  }

  /** The outcome of merging files that all parse, given the constraints of each changed key. */
  ghost predicate IsVerdict(parse: Parser, trivia: Trivia, base: Bytes, items: seq<Item>, variants: seq<Variant>,
                            groups: Groups, r: Outcome)
    requires Faithful(parse) && parse(base) == Some(items) && AllParse(parse, variants)
  {
    if groups == map[] then r == SharedPath.AstClean(base)
    else if AnyConflict(groups) then r.AstConflict? && AreAtoms(groups, r.atoms)
    else if AnyGapDiffers(parse, base, items, variants) then r.Unsupported?
    else r.AstClean? && IsCleanMerge(trivia, base, items, groups, variants, r.merged)
  }

  /** The outcome of a merge attempt. */
  ghost predicate IsMerge(parse: Parser, trivia: Trivia, base: Bytes, variants: seq<Variant>, r: Outcome)
    requires Faithful(parse)
  {
    var items := parse(base);
    if items.None? || items.value == [] || !AllParse(parse, variants) then r.Unsupported?
    else
      exists groups :: && GroupsAt(groups, Keyed(items.value), ParsedOf(parse, variants))
                       && IsVerdict(parse, trivia, base, items.value, variants, groups, r)
  }

  // ----- the algorithm

  lemma {:induction false} SelectAppend(a: seq<Constraint>, b: seq<Constraint>, key: ItemKey)
    ensures Select(a + b, key) == Select(a, key) + Select(b, key)
  {
    if b == [] {
      assert a + b == a;
    } else {
      assert (a + b)[..|a + b| - 1] == a + b[..|b| - 1];
      SelectAppend(a, b[..|b| - 1], key);
    }
  }

  function FromScript(ws: WorkspaceId, script: seq<ItemChange>): (r: seq<Constraint>)
    ensures |r| == |script| && forall i :: 0 <= i < |r| ==> r[i] == Constraint(ws, script[i])
  {
    seq(|script|, i requires 0 <= i < |script| => Constraint(ws, script[i]))
  }

  lemma {:induction false} SelectOne(ws: WorkspaceId, script: seq<ItemChange>, key: ItemKey)
    requires forall i, j :: 0 <= i < j < |script| ==> script[i].key != script[j].key
    ensures (forall i :: 0 <= i < |script| ==> script[i].key != key) ==> Select(FromScript(ws, script), key) == []
    ensures forall i :: 0 <= i < |script| && script[i].key == key ==> Select(FromScript(ws, script), key) == [Constraint(ws, script[i])]
  {
    if script != [] {
      SelectOne(ws, script[..|script| - 1], key);
      assert FromScript(ws, script)[..|script| - 1] == FromScript(ws, script[..|script| - 1]);
    }
  }

  lemma {:induction false} SelectScript(base: KeyedItems, variant: KeyedItems, ws: WorkspaceId,
        script: seq<ItemChange>, key: ItemKey)
    requires IsEditScript(base, variant, script)
    ensures var c := ChangeAt(base, variant, key);
            Select(FromScript(ws, script), key) == if c.Some? then [Constraint(ws, c.value)] else []
  {
    SelectOne(ws, script, key);
    if ContentAt(base, key) != ContentAt(variant, key) {
      var i :| 0 <= i < |script| && script[i].key == key;
    }
  }

  /** The edit scripts of all variants, one after the other; nothing when one does not parse. */
  method CollectConstraints(parse: Parser, items: seq<Item>, variants: seq<Variant>) returns (all: Option<seq<Constraint>>)
    ensures all.Some? <==> AllParse(parse, variants)
    ensures all.Some? ==> forall key :: Select(all.value, key) == ConstraintsAt(Keyed(items), ParsedOf(parse, variants), key)
  {
    var constraints: seq<Constraint> := [];
    for i := 0 to |variants|
      invariant AllParse(parse, variants[..i])
      invariant forall key :: Select(constraints, key) == ConstraintsAt(Keyed(items), ParsedOf(parse, variants[..i]), key)
    {
      assert variants[..i + 1][..i] == variants[..i];
      var parsed := parse(variants[i].1);
      if parsed.None? { return None; }
      var script := ComputeEditScript(items, parsed.value);
      var more := FromScript(variants[i].0, script);
      assert ParsedOf(parse, variants[..i + 1])[..i] == ParsedOf(parse, variants[..i]);
      forall key ensures Select(constraints + more, key) == ConstraintsAt(Keyed(items), ParsedOf(parse, variants[..i + 1]), key) {
        SelectAppend(constraints, more, key);
        SelectScript(Keyed(items), Keyed(parsed.value), variants[i].0, script, key);
      }
      constraints := constraints + more;
    }
    assert variants[..|variants|] == variants;
    return Some(constraints);
  }

  /** Constraints grouped by key, in the order they were collected. */
  ghost predicate AreGroups(groups: Groups, all: seq<Constraint>) {
    forall key :: (key in groups <==> Select(all, key) != []) && (key in groups ==> groups[key] == Select(all, key))
  }

  method GroupConstraints(all: seq<Constraint>) returns (groups: Groups)
    ensures AreGroups(groups, all)
  {
    groups := map[];
    for i := 0 to |all|
      invariant AreGroups(groups, all[..i])
    {
      assert all[..i + 1][..i] == all[..i];
      var key := all[i].change.key;
      groups := groups[key := (if key in groups then groups[key] else []) + [all[i]]];
    }
    assert all[..|all|] == all;
  }

  ghost function Conflicting(groups: Groups, keys: seq<ItemKey>): (r: seq<ItemKey>)
    ensures forall k :: k in r <==> k in keys && ConflictAt(groups, k)
  {
    if keys == [] then []
    else
      var front, last := Conflicting(groups, keys[..|keys| - 1]), keys[|keys| - 1];
      assert keys == keys[..|keys| - 1] + [last];
      if ConflictAt(groups, last) then front + [last] else front
  }

  lemma {:induction false} ConflictingSorted(groups: Groups, keys: seq<ItemKey>)
    requires SortedKeys(keys)
    ensures SortedKeys(Conflicting(groups, keys))
  {
    if keys != [] {
      var n := |keys| - 1;
      ConflictingSorted(groups, keys[..n]);
      var front := Conflicting(groups, keys[..n]);
      forall i | 0 <= i < |front| ensures KeyLe(front[i], keys[n]) && front[i] != keys[n] {
        assert front[i] in keys[..n];
      }
    }
  }

  /** The first constraint of every key among `keys` on which the variants agree. */
  ghost predicate ResolvedAmong(groups: Groups, keys: seq<ItemKey>, resolutions: Resolutions) {
    forall k :: && (k in resolutions <==> k in keys && k in groups && !ConflictAt(groups, k))
                && (k in resolutions ==> groups[k] != [] && resolutions[k] == groups[k][0])
  }

  /** The atoms of the conflicting keys among `keys`, and the resolutions of the others. */
  ghost predicate JudgedAmong(groups: Groups, keys: seq<ItemKey>, atoms: seq<AstAtom>, resolutions: Resolutions) {
    atoms == AtomsAt(groups, Conflicting(groups, keys)) && ResolvedAmong(groups, keys, resolutions)
  }

  /** One pass over the changed keys in order: an atom for each conflict, a resolution for every other key. */
  method Judge(groups: Groups, keys: seq<ItemKey>) returns (atoms: seq<AstAtom>, resolutions: Resolutions)
    requires forall k :: k in keys ==> k in groups && groups[k] != []
    ensures JudgedAmong(groups, keys, atoms, resolutions)
  {
    atoms, resolutions := [], map[];
    for i := 0 to |keys|
      invariant JudgedAmong(groups, keys[..i], atoms, resolutions)
    {
      var constraints := groups[keys[i]];
      JudgeOneMore(groups, keys, i, atoms, resolutions);
      if AllSameChange(constraints) {
        resolutions := resolutions[keys[i] := constraints[0]];
      } else {
        atoms := atoms + [AtomOf(constraints)];
      }
    }
    assert keys[..|keys|] == keys;
  }

  lemma {:induction false} JudgeOneMore(groups: Groups, keys: seq<ItemKey>, i: nat, atoms: seq<AstAtom>,
        resolutions: Resolutions)
    requires i < |keys| && keys[i] in groups && groups[keys[i]] != [] && JudgedAmong(groups, keys[..i], atoms, resolutions)
    ensures if AllSameChange(groups[keys[i]]) then
              JudgedAmong(groups, keys[..i + 1], atoms, resolutions[keys[i] := groups[keys[i]][0]])
            else
              JudgedAmong(groups, keys[..i + 1], atoms + [AtomOf(groups[keys[i]])], resolutions)
  {
    OneMoreAtom(groups, keys, i);
    OneMoreResolved(groups, keys[..i], keys[i], resolutions);
    assert keys[..i + 1] == keys[..i] + [keys[i]];
    if ConflictAt(groups, keys[i]) { AtomsGrow(groups, Conflicting(groups, keys[..i]), keys[i]); }
  }

  lemma {:induction false} OneMoreAtom(groups: Groups, keys: seq<ItemKey>, i: nat)
    requires i < |keys|
    ensures Conflicting(groups, keys[..i + 1])
         == if ConflictAt(groups, keys[i]) then Conflicting(groups, keys[..i]) + [keys[i]] else Conflicting(groups, keys[..i])
  {
    assert keys[..i + 1][..i] == keys[..i];
  }

  lemma {:induction false} AtomsGrow(groups: Groups, before: seq<ItemKey>, key: ItemKey)
    requires (forall k :: k in before ==> ConflictAt(groups, k)) && ConflictAt(groups, key)
    ensures AtomsAt(groups, before + [key]) == AtomsAt(groups, before) + [AtomOf(groups[key])]
  {
    assert (before + [key])[..|before|] == before;
  }

  lemma {:induction false} OneMoreResolved(groups: Groups, keys: seq<ItemKey>, key: ItemKey, resolutions: Resolutions)
    requires key in groups && groups[key] != [] && ResolvedAmong(groups, keys, resolutions)
    ensures ResolvedAmong(groups, keys + [key], if ConflictAt(groups, key) then resolutions else resolutions[key := groups[key][0]])
  {
  }

  /** Judging every changed key in key order gives either the atoms of a conflict or a full set of resolutions. */
  lemma {:induction false} Judged(groups: Groups, keys: seq<ItemKey>, resolutions: Resolutions)
    requires SortedKeys(keys) && forall k :: k in keys <==> k in groups
    requires ResolvedAmong(groups, keys, resolutions)
    ensures Conflicting(groups, keys) != [] <==> AnyConflict(groups)
    ensures AreAtoms(groups, Sort(AtomsAt(groups, Conflicting(groups, keys)), AtomStart, NatLe))
    ensures !AnyConflict(groups) ==> AreResolutions(groups, resolutions)
  {
    ConflictingSorted(groups, keys);
    ConflictingIsAll(groups, keys);
    if !AnyConflict(groups) { AllResolved(groups, keys, resolutions); }
  }

  lemma {:induction false} AllResolved(groups: Groups, keys: seq<ItemKey>, resolutions: Resolutions)
    requires (forall k :: k in keys <==> k in groups) && ResolvedAmong(groups, keys, resolutions) && !AnyConflict(groups)
    ensures AreResolutions(groups, resolutions)
  {
    assert forall k :: k in groups ==> k in resolutions;
  }

  lemma {:induction false} ConflictingIsAll(groups: Groups, keys: seq<ItemKey>)
    requires forall k :: k in keys <==> k in groups
    ensures Conflicting(groups, keys) != [] <==> AnyConflict(groups)
    ensures forall k :: k in Conflicting(groups, keys) <==> ConflictAt(groups, k)
  {
    var conflicting := Conflicting(groups, keys);
    if conflicting != [] { assert conflicting[0] in conflicting; }
  }

  method TryAstMerge(parse: Parser, trivia: Trivia, base: Bytes, variants: seq<Variant>) returns (r: Outcome)
    requires Faithful(parse)
    ensures IsMerge(parse, trivia, base, variants, r)
  {
    var items := parse(base);
    if items.None? || items.value == [] { return SharedPath.Unsupported; }
    var all := CollectConstraints(parse, items.value, variants);
    if all.None? { return SharedPath.Unsupported; }
    ghost var keyed, parsed := Keyed(items.value), ParsedOf(parse, variants);
    if all.value == [] {
      assert forall key :: Select(all.value, key) == [];
      assert GroupsAt(map[], keyed, parsed);
      return SharedPath.AstClean(base);
    }
    var groups := GroupConstraints(all.value);
    assert GroupsAt(groups, keyed, parsed);
    SomeSelected(all.value);
    KeyOrder();
    var keys := Ordered(groups.Keys, KeyLe);
    var atoms, resolutions := Judge(groups, keys);
    Judged(groups, keys, resolutions);
    if atoms != [] { return SharedPath.AstConflict(Sort(atoms, AtomStart, NatLe)); }
    r := CheckGapsAndRebuild(parse, trivia, base, items.value, groups, resolutions, variants);
  }

  method CheckGapsAndRebuild(parse: Parser, trivia: Trivia, base: Bytes, items: seq<Item>, ghost groups: Groups,
                             resolutions: Resolutions, variants: seq<Variant>)
    returns (r: Outcome)
    requires Faithful(parse) && parse(base) == Some(items) && AllParse(parse, variants)
    requires AreResolutions(groups, resolutions)
    ensures if AnyGapDiffers(parse, base, items, variants) then r.Unsupported?
            else r.AstClean? && IsCleanMerge(trivia, base, items, groups, variants, r.merged)
  {
    for i := 0 to |variants|
      invariant forall k :: 0 <= k < i ==> !InterstitialDiffers(base, items, variants[k].1, parse(variants[k].1).value)
    {
      var differs := GapsDiffer(base, items, variants[i].1, parse(variants[i].1).value);
      if differs { return SharedPath.Unsupported; }
    }
    var merged := ReconstructMergedFile(base, items, resolutions, variants, trivia);
    return SharedPath.AstClean(merged);
  }

  lemma {:induction false} SomeSelected(all: seq<Constraint>)
    requires all != []
    ensures exists key :: Select(all, key) != []
  {
    assert Select(all, all[|all| - 1].change.key) != [];
  }

  method GapsDiffer(base: Bytes, baseItems: seq<Item>, variant: Bytes, variantItems: seq<Item>) returns (differs: bool)
    requires WellParsed(base, baseItems) && WellParsed(variant, variantItems)
    ensures differs == InterstitialDiffers(base, baseItems, variant, variantItems)
  {
    if |baseItems| != |variantItems| { return false; }
    var baseRegions := CollectRegions(base, baseItems);
    var variantRegions := CollectRegions(variant, variantItems);
    return baseRegions != variantRegions;
  }
}

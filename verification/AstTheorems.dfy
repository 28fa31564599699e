/** What the AST merge guarantees: the exact conflict verdict, order independence, the clean three-way merge (ast_merge.rs). */
module AstTheorems {
  import opened Prelude
  import opened AstItems
  import opened AstRebuild
  import opened AstMerge
  import SharedPath

  /** All files parse, and the base has items. */
  ghost predicate Applicable(parse: Parser, base: Bytes, variants: seq<Variant>) {
    parse(base).Some? && parse(base).value != [] && AllParse(parse, variants)
  }

  // ----- the conflict verdict

  lemma {:induction false} ConflictAtExact(groups: Groups, base: KeyedItems, parsed: seq<KeyedVariant>, key: ItemKey)
    requires GroupsAt(groups, base, parsed)
    ensures ConflictAt(groups, key) <==> KeyConflict(base, parsed, key)
    ensures key in groups <==> exists o :: IsOutcome(base, parsed, key, o)
  {
    VerdictExact(base, parsed, key);
  }

  /** The atoms are those of `keys`, one each. */
  ghost predicate AtomsOfKeys(groups: Groups, keys: seq<ItemKey>, atoms: seq<AstAtom>) {
    && (forall k :: k in keys ==> ConflictAt(groups, k))
    && multiset(atoms) == multiset(AtomsAt(groups, keys))
    && SortedBy(atoms, AtomStart, NatLe)
  }

  /**
   * A conflict is returned exactly when two variants change one key to different outcomes, with one atom per such key,
   * in the order of their place in the base.
   */
  lemma {:induction false} ConflictExact(parse: Parser, trivia: Trivia, base: Bytes, variants: seq<Variant>, r: Outcome)
    returns (groups: Groups, keys: seq<ItemKey>)
    requires Faithful(parse) && Applicable(parse, base, variants) && IsMerge(parse, trivia, base, variants, r)
    ensures var keyed, parsed := Keyed(parse(base).value), ParsedOf(parse, variants);
            && GroupsAt(groups, keyed, parsed)
            && (r.AstConflict? <==> exists key :: KeyConflict(keyed, parsed, key))
            && (r.AstConflict? ==>
                  && SortedKeys(keys) && (forall k :: k in keys <==> KeyConflict(keyed, parsed, k))
                  && |r.atoms| == |keys| && AtomsOfKeys(groups, keys, r.atoms))
  {
    var keyed, parsed := Keyed(parse(base).value), ParsedOf(parse, variants);
    groups :| GroupsAt(groups, keyed, parsed) && IsVerdict(parse, trivia, base, parse(base).value, variants, groups, r);
    ConflictsExact(groups, keyed, parsed);
    keys := [];
    if r.AstConflict? {
      keys := AtomKeys(groups, r.atoms);
    }
  }

  lemma {:induction false} ConflictsExact(groups: Groups, base: KeyedItems, parsed: seq<KeyedVariant>)
    requires GroupsAt(groups, base, parsed)
    ensures forall key :: ConflictAt(groups, key) <==> KeyConflict(base, parsed, key)
  {
    forall key ensures ConflictAt(groups, key) <==> KeyConflict(base, parsed, key) {
      ConflictAtExact(groups, base, parsed, key);
    }
  }

  lemma {:induction false} AtomKeys(groups: Groups, atoms: seq<AstAtom>) returns (keys: seq<ItemKey>)
    requires AreAtoms(groups, atoms)
    ensures SortedKeys(keys) && (forall k :: k in keys <==> ConflictAt(groups, k))
    ensures |atoms| == |keys| && AtomsOfKeys(groups, keys, atoms)
  {
    keys :| && SortedKeys(keys)
            && (forall k :: k in keys <==> ConflictAt(groups, k))
            && atoms == Sort(AtomsAt(groups, keys), AtomStart, NatLe);
    SameMembers(atoms, AtomsAt(groups, keys));
    SortSorts(AtomsAt(groups, keys), AtomStart, NatLe);
  }

  // ----- the order of the variants

  lemma {:induction false} OutcomesOrderFree(base: KeyedItems, parsed: seq<KeyedVariant>, parsed': seq<KeyedVariant>,
        key: ItemKey, o: Option<Bytes>)
    requires multiset(parsed) == multiset(parsed')
    ensures IsOutcome(base, parsed, key, o) <==> IsOutcome(base, parsed', key, o)
  {
    SameMembers(parsed, parsed');
    if i :| 0 <= i < |parsed| && ContentAt(parsed[i].1, key) == o {
      assert parsed[i] in parsed';
      var j :| 0 <= j < |parsed'| && parsed'[j] == parsed[i];
    }
    if i :| 0 <= i < |parsed'| && ContentAt(parsed'[i].1, key) == o {
      assert parsed'[i] in parsed;
      var j :| 0 <= j < |parsed| && parsed[j] == parsed'[i];
    }
  }

  lemma {:induction false} ParsedPermuted(parse: Parser, variants: seq<Variant>, variants': seq<Variant>)
    requires AllParse(parse, variants) && multiset(variants) == multiset(variants')
    ensures AllParse(parse, variants') && multiset(ParsedOf(parse, variants)) == multiset(ParsedOf(parse, variants'))
  {
    SameMembers(variants, variants');
    assert forall i :: 0 <= i < |variants'| ==> variants'[i] in variants;
    var f := (v: Variant) => (v.0, Keyed(if parse(v.1).Some? then parse(v.1).value else []));
    MapPermutation(f, variants, variants');
    assert Map(f, variants) == ParsedOf(parse, variants) && Map(f, variants') == ParsedOf(parse, variants');
  }

  /** The set of conflicting keys does not depend on the order of the variants; neither does the verdict. */
  lemma {:induction false} ConflictOrderFree(parse: Parser, trivia: Trivia, base: Bytes, variants: seq<Variant>,
        variants': seq<Variant>, r: Outcome, r': Outcome)
    requires Faithful(parse) && multiset(variants) == multiset(variants')
    requires IsMerge(parse, trivia, base, variants, r) && IsMerge(parse, trivia, base, variants', r')
    ensures r.AstConflict? <==> r'.AstConflict?
    ensures r.AstConflict? ==> |r.atoms| == |r'.atoms|
    ensures Applicable(parse, base, variants) <==> Applicable(parse, base, variants')
    ensures Applicable(parse, base, variants) ==> forall key ::
              KeyConflict(Keyed(parse(base).value), ParsedOf(parse, variants), key)
              <==> KeyConflict(Keyed(parse(base).value), ParsedOf(parse, variants'), key)
  {
    if Applicable(parse, base, variants) {
      ParsedPermuted(parse, variants, variants');
      var keyed, parsed, parsed' := Keyed(parse(base).value), ParsedOf(parse, variants), ParsedOf(parse, variants');
      forall key ensures KeyConflict(keyed, parsed, key) <==> KeyConflict(keyed, parsed', key) {
        forall o ensures IsOutcome(keyed, parsed, key, o) <==> IsOutcome(keyed, parsed', key, o) {
          OutcomesOrderFree(keyed, parsed, parsed', key, o);
        }
      }
      var groups, keys := ConflictExact(parse, trivia, base, variants, r);
      var groups', keys' := ConflictExact(parse, trivia, base, variants', r');
      if r.AstConflict? { SameLength(keys, keys'); }
    } else {
      NeverApplicable(parse, base, variants, variants');
    }
  }

  lemma {:induction false} SameLength(keys: seq<ItemKey>, keys': seq<ItemKey>)
    requires SortedKeys(keys) && SortedKeys(keys') && forall k :: k in keys <==> k in keys'
    ensures |keys| == |keys'|
  {
    DistinctIsSet(keys);
    DistinctIsSet(keys');
    assert (set k | k in keys) == set k | k in keys';
    assert |multiset(keys)| == |multiset(keys')|;
  }

  lemma {:induction false} NeverApplicable(parse: Parser, base: Bytes, variants: seq<Variant>, variants': seq<Variant>)
    requires multiset(variants) == multiset(variants') && !Applicable(parse, base, variants)
    ensures !Applicable(parse, base, variants')
  {
    SameMembers(variants, variants');
    if !AllParse(parse, variants) {
      var i :| 0 <= i < |variants| && parse(variants[i].1).None?;
      assert variants[i] in variants';
    }
  }

  // ----- the clean merge

  /** A base item becomes what the variants that changed its key have there, and stays itself when none did. */
  ghost predicate IsMergedBody(base: KeyedItems, parsed: seq<KeyedVariant>, key: ItemKey, own: Bytes, body: Option<Bytes>) {
    && (forall o :: IsOutcome(base, parsed, key, o) ==> body == o)
    && ((forall o :: !IsOutcome(base, parsed, key, o)) ==> body == Some(own))
  }

  ghost predicate AreMergedBodies(items: seq<Item>, parsed: seq<KeyedVariant>, bodies: Bodies) {
    |bodies| == |items| && forall i :: 0 <= i < |items| ==> IsMergedBody(Keyed(items), parsed, Key(items, i), items[i].content, bodies[i])
  }

  ghost predicate NothingAdded(base: KeyedItems, parsed: seq<KeyedVariant>) {
    forall i :: 0 <= i < |parsed| ==> parsed[i].1.Keys <= base.Keys
  }

  lemma {:induction false} ConstraintsInBase(base: KeyedItems, parsed: seq<KeyedVariant>, key: ItemKey)
    ensures key in base ==> forall i :: 0 <= i < |ConstraintsAt(base, parsed, key)| ==> !ConstraintsAt(base, parsed, key)[i].change.Added?
    ensures key !in base && NothingAdded(base, parsed) ==> ConstraintsAt(base, parsed, key) == []
  {
    if parsed != [] { ConstraintsInBase(base, parsed[..|parsed| - 1], key); }
  }

  lemma {:induction false} BodyIsOutcome(items: seq<Item>, parsed: seq<KeyedVariant>, groups: Groups,
        resolutions: Resolutions, i: nat)
    requires i < |items| && GroupsAt(groups, Keyed(items), parsed) && AreResolutions(groups, resolutions)
    ensures Key(items, i) !in groups ==> Body(items, resolutions, i) == Some(items[i].content)
    ensures Key(items, i) in groups ==> IsOutcome(Keyed(items), parsed, Key(items, i), Body(items, resolutions, i))
  {
    var key := Key(items, i);
    if key in groups {
      ConstraintsInBase(Keyed(items), parsed, key);
      var content := ChangeContent(groups[key][0].change);
      assert Contents(groups[key])[0] in Contents(groups[key]);
      ConstraintsAreOutcomes(Keyed(items), parsed, key, content);
    }
  }

  lemma {:induction false} ResolvedBodies(items: seq<Item>, parsed: seq<KeyedVariant>, groups: Groups, resolutions: Resolutions)
    requires GroupsAt(groups, Keyed(items), parsed) && AreResolutions(groups, resolutions) && !AnyConflict(groups)
    ensures AreMergedBodies(items, parsed, BodiesOf(items, resolutions))
  {
    forall i | 0 <= i < |items|
      ensures IsMergedBody(Keyed(items), parsed, Key(items, i), items[i].content, Body(items, resolutions, i))
    {
      BodyIsOutcome(items, parsed, groups, resolutions, i);
      ConflictAtExact(groups, Keyed(items), parsed, Key(items, i));
    }
  }

  lemma {:induction false} NoneAdded(resolutions: Resolutions, keys: seq<ItemKey>)
    requires forall k :: k in keys ==> k in resolutions && !resolutions[k].change.Added?
    ensures AdditionsAt(resolutions, keys) == []
  {
    if keys != [] { NoneAdded(resolutions, keys[..|keys| - 1]); }
  }

  lemma {:induction false} RebuiltWithoutAdditions(base: Bytes, items: seq<Item>, resolutions: Resolutions,
        additions: seq<Addition>,
        variants: seq<Variant>, trivia: Trivia)
    requires WellParsed(base, items) && AreAdditions(resolutions, additions)
    requires forall k :: k in resolutions ==> !resolutions[k].change.Added?
    ensures additions == []
    ensures Rebuilt(base, items, resolutions, additions, variants, trivia) == Woven(base, items, BodiesOf(items, resolutions))
  {
    var keys :| SortedKeys(keys) && (forall k :: k in keys <==> k in resolutions)
             && additions == Sort(AdditionsAt(resolutions, keys), AdditionKey, AdditionLe);
    NoneAdded(resolutions, keys);
    CoreIsWoven(base, items, resolutions);
  }

  /**
   * When no variant adds a key, a clean merge is the base's gaps interleaved, item by item, with what the variants that
   * changed the item's key have there, and with the base's item when none did. Base items with one key get one body.
   */
  lemma {:induction false} CleanIsThreeWay(parse: Parser, trivia: Trivia, base: Bytes, variants: seq<Variant>,
        r: Outcome) returns (bodies: Bodies)
    requires Faithful(parse) && Applicable(parse, base, variants) && IsMerge(parse, trivia, base, variants, r)
    requires NothingAdded(Keyed(parse(base).value), ParsedOf(parse, variants)) && r.AstClean?
    ensures AreMergedBodies(parse(base).value, ParsedOf(parse, variants), bodies)
    ensures r.merged == Woven(base, parse(base).value, bodies)
  {
    var items, parsed := parse(base).value, ParsedOf(parse, variants);
    var groups :| GroupsAt(groups, Keyed(items), parsed) && IsVerdict(parse, trivia, base, items, variants, groups, r);
    if groups == map[] {
      bodies := OwnBodies(items);
      UntouchedBodies(items, parsed, groups);
      SourceIsWoven(base, items);
    } else {
      bodies := RebuiltBodies(base, items, parsed, groups, variants, trivia, r.merged);
    }
  }

  lemma {:induction false} UntouchedBodies(items: seq<Item>, parsed: seq<KeyedVariant>, groups: Groups)
    requires GroupsAt(groups, Keyed(items), parsed) && groups == map[]
    ensures AreMergedBodies(items, parsed, OwnBodies(items))
  {
    forall key, o ensures !IsOutcome(Keyed(items), parsed, key, o) {
      ConflictAtExact(groups, Keyed(items), parsed, key);
    }
  }

  lemma {:induction false} RebuiltBodies(base: Bytes, items: seq<Item>, parsed: seq<KeyedVariant>, groups: Groups,
        variants: seq<Variant>,
        trivia: Trivia, out: Bytes)
    returns (bodies: Bodies)
    requires WellParsed(base, items) && GroupsAt(groups, Keyed(items), parsed) && NothingAdded(Keyed(items), parsed)
    requires !AnyConflict(groups) && IsCleanMerge(trivia, base, items, groups, variants, out)
    ensures AreMergedBodies(items, parsed, bodies) && out == Woven(base, items, bodies)
  {
    var resolutions: Resolutions :| AreResolutions(groups, resolutions) && IsRebuilt(base, items, resolutions, variants, trivia, out);
    var additions :| AreAdditions(resolutions, additions) && out == Rebuilt(base, items, resolutions, additions, variants, trivia);
    forall k | k in resolutions ensures !resolutions[k].change.Added? {
      ConstraintsInBase(Keyed(items), parsed, k);
    }
    bodies := BodiesOf(items, resolutions);
    ResolvedBodies(items, parsed, groups, resolutions);
    RebuiltWithoutAdditions(base, items, resolutions, additions, variants, trivia);
  }

  // ----- the clean merge with additions

  /** `a` is what the first variant that has `key` puts there. */
  ghost predicate IsAddedItem(parsed: seq<KeyedVariant>, key: ItemKey, a: Addition) {
    exists i ::
      && 0 <= i < |parsed| && key in parsed[i].1 && a == (parsed[i].0, parsed[i].1[key])
      && forall j :: 0 <= j < i ==> key !in parsed[j].1
  }

  /** Some variant has `key`, which the base lacks. */
  ghost predicate AddsKey(base: KeyedItems, parsed: seq<KeyedVariant>, key: ItemKey) {
    key !in base && exists i :: 0 <= i < |parsed| && key in parsed[i].1
  }

  /** One addition for each key that some variant adds, whichever variants add it, in order of workspace and position. */
  ghost predicate AreAddedItems(base: KeyedItems, parsed: seq<KeyedVariant>, keys: seq<ItemKey>, found: seq<Addition>,
                                additions: seq<Addition>)
  {
    && Distinct(keys) && |found| == |keys|
    && (forall k :: k in keys <==> AddsKey(base, parsed, k))
    && (forall i :: 0 <= i < |keys| ==> IsAddedItem(parsed, keys[i], found[i]))
    && multiset(additions) == multiset(found)
    && SortedBy(additions, AdditionKey, AdditionLe)
  }

  lemma {:induction false} FirstAdder(base: KeyedItems, parsed: seq<KeyedVariant>, key: ItemKey)
    requires key !in base
    ensures ConstraintsAt(base, parsed, key) != [] <==> AddsKey(base, parsed, key)
    ensures ConstraintsAt(base, parsed, key) != [] ==>
              var c := ConstraintsAt(base, parsed, key)[0];
              c.change.Added? && IsAddedItem(parsed, key, (c.ws, c.change.variant))
  {
    if parsed != [] {
      var n := |parsed| - 1;
      var front := parsed[..n];
      FirstAdder(base, front, key);
      if AddsKey(base, front, key) {
        StillAdded(parsed, key);
        var i :| 0 <= i < |front| && key in front[i].1;
        assert key in parsed[i].1;
      } else {
        NotAddedBefore(base, parsed, key);
      }
    }
  }

  lemma {:induction false} StillAdded(parsed: seq<KeyedVariant>, key: ItemKey)
    requires parsed != []
    ensures forall a :: IsAddedItem(parsed[..|parsed| - 1], key, a) ==> IsAddedItem(parsed, key, a)
  {
    var front := parsed[..|parsed| - 1];
    forall a | IsAddedItem(front, key, a) ensures IsAddedItem(parsed, key, a) {
      var i :| && 0 <= i < |front| && key in front[i].1 && a == (front[i].0, front[i].1[key])
               && forall j :: 0 <= j < i ==> key !in front[j].1;
      assert parsed[i] == front[i] && forall j :: 0 <= j < i ==> parsed[j] == front[j];
    }
  }

  lemma {:induction false} NotAddedBefore(base: KeyedItems, parsed: seq<KeyedVariant>, key: ItemKey)
    requires parsed != [] && key !in base && !AddsKey(base, parsed[..|parsed| - 1], key)
    ensures forall i :: 0 <= i < |parsed| - 1 ==> key !in parsed[i].1
  {
    var front := parsed[..|parsed| - 1];
    forall i | 0 <= i < |front| ensures key !in parsed[i].1 {
      assert front[i] == parsed[i];
    }
  }

  /** The keys behind the additions, in the order they are gathered. */
  lemma {:induction false} AddedKeys(resolutions: Resolutions, keys: seq<ItemKey>) returns (added: seq<ItemKey>)
    requires Distinct(keys) && forall k :: k in keys ==> k in resolutions
    ensures Distinct(added) && forall k :: k in added <==> k in keys && resolutions[k].change.Added?
    ensures |AdditionsAt(resolutions, keys)| == |added|
    ensures forall i :: 0 <= i < |added| ==> AddedAs(resolutions, added[i], AdditionsAt(resolutions, keys)[i])
  {
    if keys == [] {
      added := [];
    } else {
      var n := |keys| - 1;
      var front := AddedKeys(resolutions, keys[..n]);
      assert keys == keys[..n] + [keys[n]];
      assert keys[n] !in keys[..n];
      added := if resolutions[keys[n]].change.Added? then front + [keys[n]] else front;
    }
  }

  lemma {:induction false} ResolvedAdditions(base: KeyedItems, parsed: seq<KeyedVariant>, groups: Groups, resolutions: Resolutions,
        additions: seq<Addition>)
    returns (keys: seq<ItemKey>, found: seq<Addition>)
    requires GroupsAt(groups, base, parsed) && AreResolutions(groups, resolutions) && AreAdditions(resolutions, additions)
    ensures AreAddedItems(base, parsed, keys, found, additions)
  {
    var all :| SortedKeys(all) && (forall k :: k in all <==> k in resolutions)
            && additions == Sort(AdditionsAt(resolutions, all), AdditionKey, AdditionLe);
    found := AdditionsAt(resolutions, all);
    keys := AddedKeys(resolutions, all);
    AdditionOrder();
    SortSorts(found, AdditionKey, AdditionLe);
    AddedAreAdds(base, parsed, groups, resolutions);
  }

  lemma {:induction false} AddedAreAdds(base: KeyedItems, parsed: seq<KeyedVariant>, groups: Groups, resolutions: Resolutions)
    requires GroupsAt(groups, base, parsed) && AreResolutions(groups, resolutions)
    ensures forall k :: k in resolutions && resolutions[k].change.Added? <==> AddsKey(base, parsed, k)
    ensures forall k, a :: AddedAs(resolutions, k, a) ==> IsAddedItem(parsed, k, a)
  {
    forall k
      ensures k in resolutions && resolutions[k].change.Added? <==> AddsKey(base, parsed, k)
      ensures forall a :: AddedAs(resolutions, k, a) ==> IsAddedItem(parsed, k, a)
    {
      if k in base { ConstraintsInBase(base, parsed, k); } else { FirstAdder(base, parsed, k); }
    }
  }

  /**
   * Every clean merge, additions included, as the keyed views show it: each base item becomes what the variants that
   * changed its key have there; each key that variants add is written exactly once; and the file consists of the base's
   * gaps, those bodies and those additions, and of nothing else but the comments in front of added items and the newlines
   * around them.
   */
  lemma {:induction false} CleanMergeExact(parse: Parser, trivia: Trivia, base: Bytes, variants: seq<Variant>, r: Outcome)
    returns (bodies: Bodies, keys: seq<ItemKey>, found: seq<Addition>, additions: seq<Addition>, at: Option<nat>, separators: seq<Bytes>)
    requires Faithful(parse) && Applicable(parse, base, variants) && IsMerge(parse, trivia, base, variants, r) && r.AstClean?
    ensures AreMergedBodies(parse(base).value, ParsedOf(parse, variants), bodies)
    ensures AreAddedItems(Keyed(parse(base).value), ParsedOf(parse, variants), keys, found, additions)
    ensures IsAssembled(base, parse(base).value, bodies, additions, variants, trivia, at, separators, r.merged)
    ensures forall key :: !KeyConflict(Keyed(parse(base).value), ParsedOf(parse, variants), key)
  {
    var items, parsed := parse(base).value, ParsedOf(parse, variants);
    var groups :| GroupsAt(groups, Keyed(items), parsed) && IsVerdict(parse, trivia, base, items, variants, groups, r);
    ConflictsExact(groups, Keyed(items), parsed);
    if groups == map[] {
      bodies, keys, found, additions, at, separators := OwnBodies(items), [], [], [], None, [];
      UntouchedBodies(items, parsed, groups);
      NothingAddedAt(Keyed(items), parsed, groups);
      BaseIsAssembled(base, items, variants, trivia);
    } else {
      var resolutions: Resolutions :| && AreResolutions(groups, resolutions)
                                      && IsRebuilt(base, items, resolutions, variants, trivia, r.merged);
      additions :| AreAdditions(resolutions, additions) && r.merged == Rebuilt(base, items, resolutions, additions, variants, trivia);
      bodies := BodiesOf(items, resolutions);
      ResolvedBodies(items, parsed, groups, resolutions);
      keys, found := ResolvedAdditions(Keyed(items), parsed, groups, resolutions, additions);
      at, separators := RebuiltConserves(base, items, resolutions, additions, variants, trivia);
    }
  }

  lemma {:induction false} NothingAddedAt(base: KeyedItems, parsed: seq<KeyedVariant>, groups: Groups)
    requires GroupsAt(groups, base, parsed) && groups == map[]
    ensures AreAddedItems(base, parsed, [], [], [])
  {
    forall k ensures !AddsKey(base, parsed, k) {
      if k !in base { FirstAdder(base, parsed, k); }
    }
  }

  lemma {:induction false} BaseIsAssembled(base: Bytes, items: seq<Item>, variants: seq<Variant>, trivia: Trivia)
    requires WellParsed(base, items)
    ensures IsAssembled(base, items, OwnBodies(items), [], variants, trivia, None, [], base)
  {
    SourceIsWoven(base, items);
    assert base + [] == base;
  }

  /** What any variant has under a changed key is in a clean merge: in the place of the base's items, or among the additions. */
  lemma {:induction false} OutcomesKept(items: seq<Item>, parsed: seq<KeyedVariant>, bodies: Bodies, keys: seq<ItemKey>,
        found: seq<Addition>, additions: seq<Addition>, v: nat)
    requires v < |parsed| && AreMergedBodies(items, parsed, bodies)
    requires AreAddedItems(Keyed(items), parsed, keys, found, additions)
    requires forall key :: !KeyConflict(Keyed(items), parsed, key)
    ensures forall i :: 0 <= i < |items| && ContentAt(parsed[v].1, Key(items, i)) != ContentAt(Keyed(items), Key(items, i)) ==>
              bodies[i] == ContentAt(parsed[v].1, Key(items, i))
    ensures forall key :: key in parsed[v].1 && key !in Keyed(items) ==>
              exists k :: 0 <= k < |keys| && keys[k] == key && found[k] in additions && found[k].1.content == parsed[v].1[key].content
  {
    forall i | 0 <= i < |items| && ContentAt(parsed[v].1, Key(items, i)) != ContentAt(Keyed(items), Key(items, i))
      ensures bodies[i] == ContentAt(parsed[v].1, Key(items, i))
    {
      assert IsOutcome(Keyed(items), parsed, Key(items, i), ContentAt(parsed[v].1, Key(items, i)));
    }
    SameMembers(additions, found);
    forall key | key in parsed[v].1 && key !in Keyed(items)
      ensures exists k :: 0 <= k < |keys| && keys[k] == key && found[k] in additions && found[k].1.content == parsed[v].1[key].content
    {
      assert AddsKey(Keyed(items), parsed, key);
      var k :| 0 <= k < |keys| && keys[k] == key;
      AddedContent(Keyed(items), parsed, key, found[k], v);
    }
  }

  lemma {:induction false} AddedContent(base: KeyedItems, parsed: seq<KeyedVariant>, key: ItemKey, a: Addition, v: nat)
    requires v < |parsed| && key in parsed[v].1 && key !in base && IsAddedItem(parsed, key, a) && !KeyConflict(base, parsed, key)
    ensures a.1.content == parsed[v].1[key].content
  {
    var i :| && 0 <= i < |parsed| && key in parsed[i].1 && a == (parsed[i].0, parsed[i].1[key]);
    assert ContentAt(parsed[i].1, key) == Some(a.1.content) && ContentAt(parsed[v].1, key) == Some(parsed[v].1[key].content);
    assert IsOutcome(base, parsed, key, Some(a.1.content)) && IsOutcome(base, parsed, key, Some(parsed[v].1[key].content));
  }

  // ----- item by item

  predicate HasItem(items: seq<Item>, key: ItemKey, content: Bytes) {
    exists m | 0 <= m < |items| :: Key(items, m) == key && items[m].content == content
  }

  predicate LacksKey(items: seq<Item>, key: ItemKey) {
    forall m | 0 <= m < |items| :: Key(items, m) != key
  }

  /** Base item `i` became what the files that changed it have under its key, nothing when one lacks it, else itself. */
  ghost predicate IsItemMerge(items: seq<Item>, files: seq<seq<Item>>, i: nat, body: Option<Bytes>)
    requires i < |items|
  {
    && (forall v, content :: 0 <= v < |files| && HasItem(files[v], Key(items, i), content) && content != items[i].content ==>
          body == Some(content))
    && (forall v :: 0 <= v < |files| && LacksKey(files[v], Key(items, i)) ==> body == None)
    && ((forall v :: 0 <= v < |files| ==> HasItem(files[v], Key(items, i), items[i].content)) ==> body == Some(items[i].content))
  }

  /** Every item of a file that the base has no key for is among the additions. */
  ghost predicate AddsItems(items: seq<Item>, file: seq<Item>, additions: seq<Addition>) {
    forall m :: 0 <= m < |file| && LacksKey(items, Key(file, m)) ==>
      exists a :: a in additions && a.1.content == file[m].content
  }

  /** Distinct keys make the keyed view faithful to the items. */
  lemma {:induction false} ContentOfItem(items: seq<Item>, key: ItemKey)
    requires DistinctKeys(items)
    ensures forall content :: HasItem(items, key, content) <==> ContentAt(Keyed(items), key) == Some(content)
    ensures LacksKey(items, key) <==> ContentAt(Keyed(items), key) == None
  {
    forall m | 0 <= m < |items| && Key(items, m) == key ensures ContentAt(Keyed(items), key) == Some(items[m].content) {
      KeyedAt(items, m);
    }
    if key in Keyed(items) {
      var m :| 0 <= m < |items| && IdentityKey(items[m], m) == key;
      assert Key(items, m) == key;
    }
  }

  function FilesOf(parse: Parser, variants: seq<Variant>): (r: seq<seq<Item>>)
    requires AllParse(parse, variants)
    ensures |r| == |variants| && forall v :: 0 <= v < |r| ==> r[v] == parse(variants[v].1).value
  {
    seq(|variants|, v requires 0 <= v < |variants| => parse(variants[v].1).value)
  }

  lemma {:induction false} BodyByItem(items: seq<Item>, files: seq<seq<Item>>, parsed: seq<KeyedVariant>, i: nat, body: Option<Bytes>)
    requires DistinctKeys(items) && i < |items|
    requires |files| == |parsed| && forall v :: 0 <= v < |files| ==> DistinctKeys(files[v]) && parsed[v].1 == Keyed(files[v])
    requires IsMergedBody(Keyed(items), parsed, Key(items, i), items[i].content, body)
    ensures IsItemMerge(items, files, i, body)
  {
    var key := Key(items, i);
    assert ContentAt(Keyed(items), key) == Some(items[i].content) by { KeyedAt(items, i); }
    forall v | 0 <= v < |files|
      ensures forall content :: HasItem(files[v], key, content) <==> ContentAt(parsed[v].1, key) == Some(content)
      ensures LacksKey(files[v], key) <==> ContentAt(parsed[v].1, key) == None
      ensures ContentAt(parsed[v].1, key) != Some(items[i].content) ==> IsOutcome(Keyed(items), parsed, key, ContentAt(parsed[v].1, key))
    {
      ContentOfItem(files[v], key);
    }
  }

  /**
   * When neither the base nor any file has two items with one key, a clean merge is right item by item: a base item that
   * some file changed or dropped became that, an item that nobody touched is the base's, and every new item is added.
   */
  lemma {:induction false} CleanMergeByItem(parse: Parser, trivia: Trivia, base: Bytes, variants: seq<Variant>, r: Outcome)
    returns (bodies: Bodies, additions: seq<Addition>, at: Option<nat>, separators: seq<Bytes>)
    requires Faithful(parse) && Applicable(parse, base, variants) && IsMerge(parse, trivia, base, variants, r) && r.AstClean?
    requires DistinctKeys(parse(base).value)
    requires forall v :: 0 <= v < |variants| ==> DistinctKeys(parse(variants[v].1).value)
    ensures |bodies| == |parse(base).value|
    ensures IsAssembled(base, parse(base).value, bodies, additions, variants, trivia, at, separators, r.merged)
    ensures forall i :: 0 <= i < |bodies| ==> IsItemMerge(parse(base).value, FilesOf(parse, variants), i, bodies[i])
    ensures forall v :: 0 <= v < |variants| ==> AddsItems(parse(base).value, parse(variants[v].1).value, additions)
  {
    var items, files, parsed := parse(base).value, FilesOf(parse, variants), ParsedOf(parse, variants);
    var keys, found;
    bodies, keys, found, additions, at, separators := CleanMergeExact(parse, trivia, base, variants, r);
    forall i | 0 <= i < |items| ensures IsItemMerge(items, files, i, bodies[i]) {
      BodyByItem(items, files, parsed, i, bodies[i]);
    }
    forall v | 0 <= v < |variants| ensures AddsItems(items, files[v], additions) {
      OutcomesKept(items, parsed, bodies, keys, found, additions, v);
      ItemsAdded(items, files[v], keys, found, additions);
    }
  }

  lemma {:induction false} ItemsAdded(items: seq<Item>, file: seq<Item>, keys: seq<ItemKey>, found: seq<Addition>, additions: seq<Addition>)
    requires DistinctKeys(items) && DistinctKeys(file) && |keys| == |found|
    requires forall key :: key in Keyed(file) && key !in Keyed(items) ==>
               exists k :: 0 <= k < |keys| && keys[k] == key && found[k] in additions && found[k].1.content == Keyed(file)[key].content
    ensures AddsItems(items, file, additions)
  {
    forall m | 0 <= m < |file| && LacksKey(items, Key(file, m)) ensures exists a :: a in additions && a.1.content == file[m].content {
      KeyedAt(file, m);
      ContentOfItem(items, Key(file, m));
      var k :| 0 <= k < |keys| && keys[k] == Key(file, m) && found[k] in additions && found[k].1.content == file[m].content;
    }
  }

  // ----- what the merge sees of a file

  /** Some variant changes some item, as the keyed view shows it. */
  ghost predicate SomeItemChanged(base: KeyedItems, parsed: seq<KeyedVariant>) {
    exists key, o :: IsOutcome(base, parsed, key, o)
  }

  /** The four outcomes of merging files that all parse, in order of precedence. */
  lemma {:induction false} VerdictTable(parse: Parser, trivia: Trivia, base: Bytes, variants: seq<Variant>, r: Outcome)
    requires Faithful(parse) && Applicable(parse, base, variants) && IsMerge(parse, trivia, base, variants, r)
    ensures var items, parsed := parse(base).value, ParsedOf(parse, variants);
            if !SomeItemChanged(Keyed(items), parsed) then r == SharedPath.AstClean(base)
            else if exists key :: KeyConflict(Keyed(items), parsed, key) then r.AstConflict?
            else if AnyGapDiffers(parse, base, items, variants) then r.Unsupported?
            else r.AstClean?
  {
    var items, parsed := parse(base).value, ParsedOf(parse, variants);
    var groups :| GroupsAt(groups, Keyed(items), parsed) && IsVerdict(parse, trivia, base, items, variants, groups, r);
    GroupsChanged(groups, Keyed(items), parsed);
    ConflictsExact(groups, Keyed(items), parsed);
    VerdictByGroups(parse, trivia, base, items, variants, groups, r);
  }

  lemma {:induction false} VerdictByGroups(parse: Parser, trivia: Trivia, base: Bytes, items: seq<Item>,
        variants: seq<Variant>, groups: Groups, r: Outcome)
    requires Faithful(parse) && parse(base) == Some(items) && AllParse(parse, variants)
    requires IsVerdict(parse, trivia, base, items, variants, groups, r)
    ensures if groups == map[] then r == SharedPath.AstClean(base)
            else if exists key :: ConflictAt(groups, key) then r.AstConflict?
            else if AnyGapDiffers(parse, base, items, variants) then r.Unsupported?
            else r.AstClean?
  {
  }

  lemma {:induction false} GroupsChanged(groups: Groups, base: KeyedItems, parsed: seq<KeyedVariant>)
    requires GroupsAt(groups, base, parsed)
    ensures groups == map[] <==> !SomeItemChanged(base, parsed)
  {
    forall key ensures key in groups <==> exists o :: IsOutcome(base, parsed, key, o) {
      ConflictAtExact(groups, base, parsed, key);
    }
    if key :| key in groups {
      var o :| IsOutcome(base, parsed, key, o);
    }
    if key, o :| IsOutcome(base, parsed, key, o) { assert key in groups; }
  }

  lemma {:induction false} UnchangedIsBase(parse: Parser, trivia: Trivia, base: Bytes, variants: seq<Variant>, r: Outcome)
    requires Faithful(parse) && Applicable(parse, base, variants) && IsMerge(parse, trivia, base, variants, r)
    requires !SomeItemChanged(Keyed(parse(base).value), ParsedOf(parse, variants))
    ensures r == SharedPath.AstClean(base)
  {
    VerdictTable(parse, trivia, base, variants, r);
  }

  /** Two lists of files with the same contents under each key, file by file. */
  ghost predicate AlikeByKey(parsed: seq<KeyedVariant>, parsed': seq<KeyedVariant>) {
    && |parsed| == |parsed'|
    && forall v, key :: 0 <= v < |parsed| ==> ContentAt(parsed[v].1, key) == ContentAt(parsed'[v].1, key)
  }

  lemma {:induction false} SameOutcomes(base: KeyedItems, parsed: seq<KeyedVariant>, parsed': seq<KeyedVariant>)
    requires AlikeByKey(parsed, parsed')
    ensures forall key, o :: IsOutcome(base, parsed, key, o) <==> IsOutcome(base, parsed', key, o)
  {
    forall key, o ensures IsOutcome(base, parsed, key, o) <==> IsOutcome(base, parsed', key, o) {
      if v :| 0 <= v < |parsed| && ContentAt(parsed[v].1, key) == o { assert ContentAt(parsed'[v].1, key) == o; }
      if v :| 0 <= v < |parsed'| && ContentAt(parsed'[v].1, key) == o { assert ContentAt(parsed[v].1, key) == o; }
    }
  }

  /** A clean result with these bodies, whatever the additions. */
  ghost predicate IsCleanFile(trivia: Trivia, base: Bytes, items: seq<Item>, variants: seq<Variant>, bodies: Bodies, out: Bytes)
    requires WellParsed(base, items)
  {
    |bodies| == |items| && exists additions, at, separators ::
      IsAssembled(base, items, bodies, additions, variants, trivia, at, separators, out)
  }

  /**
   * The gaps of a file, and items hidden behind a later item with their key, never enter a clean result: whatever they
   * are, the verdict is a conflict or not all the same, and two clean results consist of the same base gaps and bodies.
   */
  lemma {:induction false} MergeSeesContentsOnly(parse: Parser, trivia: Trivia, base: Bytes, variants: seq<Variant>,
        variants': seq<Variant>, r: Outcome, r': Outcome)
    returns (bodies: Bodies)
    requires Faithful(parse) && Applicable(parse, base, variants) && Applicable(parse, base, variants')
    requires IsMerge(parse, trivia, base, variants, r) && IsMerge(parse, trivia, base, variants', r')
    requires AlikeByKey(ParsedOf(parse, variants), ParsedOf(parse, variants'))
    ensures r.AstConflict? <==> r'.AstConflict?
    ensures r.AstClean? && r'.AstClean? ==>
              && IsCleanFile(trivia, base, parse(base).value, variants, bodies, r.merged)
              && IsCleanFile(trivia, base, parse(base).value, variants', bodies, r'.merged)
    ensures r.AstClean? && r'.AstClean? && NothingAdded(Keyed(parse(base).value), ParsedOf(parse, variants)) ==> r == r'
  {
    var items, parsed, parsed' := parse(base).value, ParsedOf(parse, variants), ParsedOf(parse, variants');
    SameOutcomes(Keyed(items), parsed, parsed');
    var groups, keys := ConflictExact(parse, trivia, base, variants, r);
    var groups', keys' := ConflictExact(parse, trivia, base, variants', r');
    assert forall key :: KeyConflict(Keyed(items), parsed, key) <==> KeyConflict(Keyed(items), parsed', key);
    bodies := [];
    if r.AstClean? && r'.AstClean? {
      bodies := CleanAlike(parse, trivia, base, variants, variants', r, r');
    }
  }

  lemma {:induction false} CleanAlike(parse: Parser, trivia: Trivia, base: Bytes, variants: seq<Variant>,
        variants': seq<Variant>, r: Outcome, r': Outcome)
    returns (bodies: Bodies)
    requires Faithful(parse) && Applicable(parse, base, variants) && Applicable(parse, base, variants')
    requires IsMerge(parse, trivia, base, variants, r) && IsMerge(parse, trivia, base, variants', r')
    requires AlikeByKey(ParsedOf(parse, variants), ParsedOf(parse, variants')) && r.AstClean? && r'.AstClean?
    ensures IsCleanFile(trivia, base, parse(base).value, variants, bodies, r.merged)
    ensures IsCleanFile(trivia, base, parse(base).value, variants', bodies, r'.merged)
    ensures NothingAdded(Keyed(parse(base).value), ParsedOf(parse, variants)) ==> r == r'
  {
    var items, parsed, parsed' := parse(base).value, ParsedOf(parse, variants), ParsedOf(parse, variants');
    var keys, found, additions, at, separators;
    bodies, keys, found, additions, at, separators := CleanMergeExact(parse, trivia, base, variants, r);
    var bodies', keys', found', additions', at', separators' := CleanMergeExact(parse, trivia, base, variants', r');
    BodiesAlike(items, parsed, parsed', bodies, bodies');
    if NothingAdded(Keyed(items), parsed) {
      NothingAddedAlike(Keyed(items), parsed, parsed');
      var three := CleanIsThreeWay(parse, trivia, base, variants, r);
      var three' := CleanIsThreeWay(parse, trivia, base, variants', r');
      BodiesAlike(items, parsed, parsed', three, three');
    }
  }

  lemma {:induction false} NothingAddedAlike(base: KeyedItems, parsed: seq<KeyedVariant>, parsed': seq<KeyedVariant>)
    requires AlikeByKey(parsed, parsed') && NothingAdded(base, parsed)
    ensures NothingAdded(base, parsed')
  {
    forall v, key | 0 <= v < |parsed'| && key in parsed'[v].1 ensures key in base {
      assert ContentAt(parsed[v].1, key) == ContentAt(parsed'[v].1, key);
    }
  }

  lemma {:induction false} BodiesAlike(items: seq<Item>, parsed: seq<KeyedVariant>, parsed': seq<KeyedVariant>,
        bodies: Bodies, bodies': Bodies)
    requires AlikeByKey(parsed, parsed') && AreMergedBodies(items, parsed, bodies) && AreMergedBodies(items, parsed', bodies')
    ensures bodies == bodies'
  {
    SameOutcomes(Keyed(items), parsed, parsed');
    forall i | 0 <= i < |items| ensures bodies[i] == bodies'[i] {
      assert IsMergedBody(Keyed(items), parsed, Key(items, i), items[i].content, bodies[i]);
      assert IsMergedBody(Keyed(items), parsed', Key(items, i), items[i].content, bodies'[i]);
    }
  }

  /** When variants only add items, a clean result is the whole base, gaps included, with the additions in it. */
  lemma {:induction false} OnlyAdditionsKeepBase(parse: Parser, trivia: Trivia, base: Bytes, variants: seq<Variant>, r: Outcome)
    returns (keys: seq<ItemKey>, found: seq<Addition>, additions: seq<Addition>, at: Option<nat>, separators: seq<Bytes>)
    requires Faithful(parse) && Applicable(parse, base, variants) && IsMerge(parse, trivia, base, variants, r) && r.AstClean?
    requires forall key, o :: key in Keyed(parse(base).value) ==> !IsOutcome(Keyed(parse(base).value), ParsedOf(parse, variants), key, o)
    ensures AreAddedItems(Keyed(parse(base).value), ParsedOf(parse, variants), keys, found, additions)
    ensures WithAdditions(base, parse(base).value, OwnBodies(parse(base).value), additions, variants, trivia, at, separators, r.merged)
    ensures at.None? ==> base <= r.merged
  {
    var items := parse(base).value;
    var bodies;
    bodies, keys, found, additions, at, separators := CleanMergeExact(parse, trivia, base, variants, r);
    assert bodies == OwnBodies(items) by {
      forall i | 0 <= i < |items| ensures bodies[i] == Some(items[i].content) {
        assert Key(items, i) in Keyed(items);
        assert IsMergedBody(Keyed(items), ParsedOf(parse, variants), Key(items, i), items[i].content, bodies[i]);
      }
    }
    SourceIsWoven(base, items);
  }

  /** No use is added when no variant holds one. */
  lemma {:induction false} NoUsesAdded(base: KeyedItems, parsed: seq<KeyedVariant>, keys: seq<ItemKey>, found: seq<Addition>,
        additions: seq<Addition>)
    requires AreAddedItems(base, parsed, keys, found, additions)
    requires forall v, key :: 0 <= v < |parsed| && key in parsed[v].1 ==> !IsUse(parsed[v].1[key])
    ensures !AnyUse(additions)
  {
    SameMembers(additions, found);
    forall k | 0 <= k < |found| ensures !IsUse(found[k].1) { assert IsAddedItem(parsed, keys[k], found[k]); }
  }

  /** When variants only add items, and hold no uses, a clean result is the base with the additions behind it. */
  lemma {:induction false} OnlyItemsAddedBehind(parse: Parser, trivia: Trivia, base: Bytes, variants: seq<Variant>, r: Outcome)
    requires Faithful(parse) && Applicable(parse, base, variants) && IsMerge(parse, trivia, base, variants, r) && r.AstClean?
    requires forall key, o :: key in Keyed(parse(base).value) ==> !IsOutcome(Keyed(parse(base).value), ParsedOf(parse, variants), key, o)
    requires forall v, key :: 0 <= v < |variants| && key in ParsedOf(parse, variants)[v].1 ==> !IsUse(ParsedOf(parse, variants)[v].1[key])
    ensures base <= r.merged
  {
    var keys, found, additions, at, separators := OnlyAdditionsKeepBase(parse, trivia, base, variants, r);
    NoUsesAdded(Keyed(parse(base).value), ParsedOf(parse, variants), keys, found, additions);
  }

  lemma {:induction false} SameBodies(items: seq<Item>, parsed: seq<KeyedVariant>, parsed': seq<KeyedVariant>, bodies: Bodies,
        bodies': Bodies)
    requires multiset(parsed) == multiset(parsed')
    requires AreMergedBodies(items, parsed, bodies) && AreMergedBodies(items, parsed', bodies')
    ensures bodies == bodies'
  {
    forall i | 0 <= i < |items| ensures bodies[i] == bodies'[i] {
      forall o ensures IsOutcome(Keyed(items), parsed, Key(items, i), o) <==> IsOutcome(Keyed(items), parsed', Key(items, i), o) {
        OutcomesOrderFree(Keyed(items), parsed, parsed', Key(items, i), o);
      }
    }
  }

  lemma {:induction false} SameGapsDiffer(parse: Parser, base: Bytes, items: seq<Item>, variants: seq<Variant>,
        variants': seq<Variant>)
    requires Faithful(parse) && parse(base) == Some(items) && AllParse(parse, variants) && AllParse(parse, variants')
    requires multiset(variants) == multiset(variants')
    requires AnyGapDiffers(parse, base, items, variants)
    ensures AnyGapDiffers(parse, base, items, variants')
  {
    var i :| 0 <= i < |variants| && InterstitialDiffers(base, items, variants[i].1, parse(variants[i].1).value);
    SameMembers(variants, variants');
    assert variants[i] in variants';
    var j :| 0 <= j < |variants'| && variants'[j] == variants[i];
  }

  lemma {:induction false} SameTouched(base: KeyedItems, parsed: seq<KeyedVariant>, parsed': seq<KeyedVariant>, groups: Groups,
        groups': Groups)
    requires multiset(parsed) == multiset(parsed') && GroupsAt(groups, base, parsed) && GroupsAt(groups', base, parsed')
    ensures groups.Keys == groups'.Keys
    ensures AnyConflict(groups) <==> AnyConflict(groups')
  {
    forall key ensures (key in groups <==> key in groups') && (ConflictAt(groups, key) <==> ConflictAt(groups', key)) {
      forall o ensures IsOutcome(base, parsed, key, o) <==> IsOutcome(base, parsed', key, o) {
        OutcomesOrderFree(base, parsed, parsed', key, o);
      }
      ConflictAtExact(groups, base, parsed, key);
      ConflictAtExact(groups', base, parsed', key);
    }
  }

  /** The kind of result does not depend on the order of the variants; without additions neither do the merged bytes. */
  lemma {:induction false} CleanOrderFree(parse: Parser, trivia: Trivia, base: Bytes, variants: seq<Variant>,
        variants': seq<Variant>, r: Outcome, r': Outcome)
    requires Faithful(parse) && multiset(variants) == multiset(variants')
    requires IsMerge(parse, trivia, base, variants, r) && IsMerge(parse, trivia, base, variants', r')
    ensures (r.AstClean? <==> r'.AstClean?) && (r.Unsupported? <==> r'.Unsupported?)
    ensures Applicable(parse, base, variants) && NothingAdded(Keyed(parse(base).value), ParsedOf(parse, variants)) && r.AstClean? ==>
              r == r'
  {
    if Applicable(parse, base, variants) {
      ParsedPermuted(parse, variants, variants');
      SameKind(parse, trivia, base, variants, variants', r, r');
      if NothingAdded(Keyed(parse(base).value), ParsedOf(parse, variants)) && r.AstClean? {
        SameBytes(parse, trivia, base, variants, variants', r, r');
      }
    } else {
      NeverApplicable(parse, base, variants, variants');
    }
  }

  lemma {:induction false} NothingAddedPermuted(base: KeyedItems, parsed: seq<KeyedVariant>, parsed': seq<KeyedVariant>)
    requires multiset(parsed) == multiset(parsed') && NothingAdded(base, parsed)
    ensures NothingAdded(base, parsed')
  {
    SameMembers(parsed, parsed');
    assert forall i :: 0 <= i < |parsed'| ==> parsed'[i] in parsed;
  }

  lemma {:induction false} SameBytes(parse: Parser, trivia: Trivia, base: Bytes, variants: seq<Variant>,
        variants': seq<Variant>, r: Outcome, r': Outcome)
    requires Faithful(parse) && Applicable(parse, base, variants) && Applicable(parse, base, variants')
    requires multiset(ParsedOf(parse, variants)) == multiset(ParsedOf(parse, variants'))
    requires IsMerge(parse, trivia, base, variants, r) && IsMerge(parse, trivia, base, variants', r') && r.AstClean? && r'.AstClean?
    requires NothingAdded(Keyed(parse(base).value), ParsedOf(parse, variants))
    ensures r == r'
  {
    NothingAddedPermuted(Keyed(parse(base).value), ParsedOf(parse, variants), ParsedOf(parse, variants'));
    var bodies := CleanIsThreeWay(parse, trivia, base, variants, r);
    var bodies' := CleanIsThreeWay(parse, trivia, base, variants', r');
    SameBodies(parse(base).value, ParsedOf(parse, variants), ParsedOf(parse, variants'), bodies, bodies');
  }

  lemma {:induction false} SameKind(parse: Parser, trivia: Trivia, base: Bytes, variants: seq<Variant>,
        variants': seq<Variant>, r: Outcome, r': Outcome)
    requires Faithful(parse) && multiset(variants) == multiset(variants')
    requires Applicable(parse, base, variants) && Applicable(parse, base, variants')
    requires IsMerge(parse, trivia, base, variants, r) && IsMerge(parse, trivia, base, variants', r')
    ensures (r.AstClean? <==> r'.AstClean?) && (r.Unsupported? <==> r'.Unsupported?)
  {
    var items, parsed, parsed' := parse(base).value, ParsedOf(parse, variants), ParsedOf(parse, variants');
    ParsedPermuted(parse, variants, variants');
    var groups :| GroupsAt(groups, Keyed(items), parsed) && IsVerdict(parse, trivia, base, items, variants, groups, r);
    var groups' :| GroupsAt(groups', Keyed(items), parsed') && IsVerdict(parse, trivia, base, items, variants', groups', r');
    SameTouched(Keyed(items), parsed, parsed', groups, groups');
    GapsOrderFree(parse, base, items, variants, variants');
    assert (groups == map[] <==> groups.Keys == {}) && (groups' == map[] <==> groups'.Keys == {});
  }

  lemma {:induction false} GapsOrderFree(parse: Parser, base: Bytes, items: seq<Item>, variants: seq<Variant>,
        variants': seq<Variant>)
    requires Faithful(parse) && parse(base) == Some(items) && AllParse(parse, variants) && AllParse(parse, variants')
    requires multiset(variants) == multiset(variants')
    ensures AnyGapDiffers(parse, base, items, variants) <==> AnyGapDiffers(parse, base, items, variants')
  {
    if AnyGapDiffers(parse, base, items, variants) { SameGapsDiffer(parse, base, items, variants, variants'); }
    if AnyGapDiffers(parse, base, items, variants') { SameGapsDiffer(parse, base, items, variants', variants); }
  }
}

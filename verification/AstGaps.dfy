/** What a clean AST merge does to the text between items, and what the gap check sees of it (ast_merge.rs). */
module AstGaps {
  import opened Prelude
  import opened AstItems
  import opened AstRebuild
  import opened AstMerge
  import opened AstTheorems
  import SharedPath

  // ----- one variant with the base's keys

  ghost predicate SameKeys(items: seq<Item>, items': seq<Item>) {
    && |items| == |items'| && DistinctKeys(items)
    && forall i :: 0 <= i < |items| ==> Key(items, i) == Key(items', i)
  }

  /** The same contents, item by item. */
  ghost predicate SameContents(items: seq<Item>, items': seq<Item>) {
    |items| == |items'| && forall i :: 0 <= i < |items| ==> items[i].content == items'[i].content
  }

  /** As many gaps, and the same text in each. */
  ghost predicate SameGaps(base: Bytes, items: seq<Item>, variant: Bytes, items': seq<Item>)
    requires WellParsed(base, items) && WellParsed(variant, items')
  {
    |items| == |items'| && forall i :: 0 <= i <= |items| ==> Gap(base, items, i) == Gap(variant, items', i)
  }

  lemma {:induction false} KeyedAlike(items: seq<Item>, items': seq<Item>)
    requires SameKeys(items, items')
    ensures Keyed(items).Keys == Keyed(items').Keys
    ensures forall i :: 0 <= i < |items| ==>
              ContentAt(Keyed(items), Key(items, i)) == Some(items[i].content)
              && ContentAt(Keyed(items'), Key(items, i)) == Some(items'[i].content)
  {
    forall i, j | 0 <= i < j < |items'| ensures IdentityKey(items'[i], i) != IdentityKey(items'[j], j) {
      assert Key(items, i) != Key(items, j);
    }
    forall i | 0 <= i < |items|
      ensures ContentAt(Keyed(items), Key(items, i)) == Some(items[i].content)
      ensures ContentAt(Keyed(items'), Key(items, i)) == Some(items'[i].content)
    {
      KeyedAt(items, i);
      KeyedAt(items', i);
    }
    forall k ensures k in Keyed(items) <==> k in Keyed(items') {
      if i :| 0 <= i < |items| && IdentityKey(items[i], i) == k { assert Key(items', i) == k; }
      if i :| 0 <= i < |items'| && IdentityKey(items'[i], i) == k { assert Key(items, i) == k; }
    }
  }

  lemma {:induction false} LoneOutcome(base: KeyedItems, variant: KeyedItems, ws: WorkspaceId, key: ItemKey,
        o: Option<Bytes>)
    ensures IsOutcome(base, [(ws, variant)], key, o) <==> o == ContentAt(variant, key) && o != ContentAt(base, key)
  {
    assert [(ws, variant)][0].1 == variant;
  }

  lemma {:induction false} LoneBody(base: KeyedItems, variant: KeyedItems, ws: WorkspaceId, key: ItemKey, own: Bytes,
        body: Option<Bytes>)
    requires IsMergedBody(base, [(ws, variant)], key, own, body) && ContentAt(base, key) == Some(own)
    ensures body == ContentAt(variant, key)
  {
    LoneDecides(base, variant, ws, key, own, body);
  }

  /** One variant decides on a key: its content where that is not the base's, else the item stays. */
  lemma {:induction false} LoneDecides(base: KeyedItems, variant: KeyedItems, ws: WorkspaceId, key: ItemKey, own: Bytes,
        body: Option<Bytes>)
    requires IsMergedBody(base, [(ws, variant)], key, own, body)
    ensures body == if ContentAt(variant, key) != ContentAt(base, key) then ContentAt(variant, key) else Some(own)
  {
    forall o ensures IsOutcome(base, [(ws, variant)], key, o) <==> o == ContentAt(variant, key) && o != ContentAt(base, key) {
      LoneOutcome(base, variant, ws, key, o);
    }
    if ContentAt(variant, key) != ContentAt(base, key) {
      assert IsOutcome(base, [(ws, variant)], key, ContentAt(variant, key));
    }
  }

  /** With one variant over the base's keys, the merged bodies are the variant's own. */
  lemma {:induction false} LoneBodies(items: seq<Item>, items': seq<Item>, ws: WorkspaceId, bodies: Bodies)
    requires SameKeys(items, items') && AreMergedBodies(items, [(ws, Keyed(items'))], bodies)
    ensures bodies == OwnBodies(items')
  {
    KeyedAlike(items, items');
    forall i | 0 <= i < |items| ensures bodies[i] == Some(items'[i].content) {
      LoneBody(Keyed(items), Keyed(items'), ws, Key(items, i), items[i].content, bodies[i]);
    }
  }

  lemma {:induction false} LoneConflict(groups: Groups, base: KeyedItems, variant: KeyedItems, ws: WorkspaceId, key: ItemKey)
    requires GroupsAt(groups, base, [(ws, variant)])
    ensures !ConflictAt(groups, key)
    ensures key in groups <==> ContentAt(variant, key) != ContentAt(base, key)
  {
    forall o ensures IsOutcome(base, [(ws, variant)], key, o) <==> o == ContentAt(variant, key) && o != ContentAt(base, key) {
      LoneOutcome(base, variant, ws, key, o);
    }
    ConflictAtExact(groups, base, [(ws, variant)], key);
  }

  lemma {:induction false} LoneGroups(items: seq<Item>, items': seq<Item>, ws: WorkspaceId, groups: Groups)
    requires SameKeys(items, items') && GroupsAt(groups, Keyed(items), [(ws, Keyed(items'))])
    ensures !AnyConflict(groups)
    ensures groups == map[] <==> SameContents(items, items')
  {
    KeyedAlike(items, items');
    forall key ensures !ConflictAt(groups, key) && (key in groups <==> ContentAt(Keyed(items'), key) != ContentAt(Keyed(items), key)) {
      LoneConflict(groups, Keyed(items), Keyed(items'), ws, key);
    }
    KeysCovered(items, groups);
  }

  lemma {:induction false} KeysCovered(items: seq<Item>, groups: Groups)
    requires groups.Keys <= Keyed(items).Keys
    ensures groups == map[] <==> forall i :: 0 <= i < |items| ==> Key(items, i) !in groups
  {
    if groups != map[] {
      var key :| key in groups;
      assert key in Keyed(items);
      var i :| 0 <= i < |items| && IdentityKey(items[i], i) == key;
      assert Key(items, i) == key;
    }
  }

  lemma {:induction false} LoneVerdict(parse: Parser, trivia: Trivia, base: Bytes, ws: WorkspaceId, variant: Bytes,
        r: Outcome)
    requires Faithful(parse) && Applicable(parse, base, [(ws, variant)]) && IsMerge(parse, trivia, base, [(ws, variant)], r)
    requires parse(variant).Some? && SameKeys(parse(base).value, parse(variant).value)
    ensures ParsedOf(parse, [(ws, variant)]) == [(ws, Keyed(parse(variant).value))]
    ensures var items, items' := parse(base).value, parse(variant).value;
            if SameContents(items, items') then r == SharedPath.AstClean(base)
            else if InterstitialDiffers(base, items, variant, items') then r.Unsupported?
            else r.AstClean?
  {
    var items, items', variants := parse(base).value, parse(variant).value, [(ws, variant)];
    assert variants[0].1 == variant;
    assert ParsedOf(parse, variants) == [(ws, Keyed(items'))];
    var groups :| GroupsAt(groups, Keyed(items), ParsedOf(parse, variants)) && IsVerdict(parse, trivia, base, items, variants, groups, r);
    LoneGroups(items, items', ws, groups);
  }

  /** One variant over the base's keys, in closed form: the base when no item changed, otherwise base gaps, variant items. */
  lemma {:induction false} LoneVariant(parse: Parser, trivia: Trivia, base: Bytes, ws: WorkspaceId, variant: Bytes,
        r: Outcome)
    requires Faithful(parse) && Applicable(parse, base, [(ws, variant)]) && IsMerge(parse, trivia, base, [(ws, variant)], r)
    requires parse(variant).Some? && SameKeys(parse(base).value, parse(variant).value)
    ensures var items, items' := parse(base).value, parse(variant).value;
            if SameContents(items, items') then r == SharedPath.AstClean(base)
            else if InterstitialDiffers(base, items, variant, items') then r.Unsupported?
            else r == SharedPath.AstClean(Woven(base, items, OwnBodies(items')))
  {
    LoneVerdict(parse, trivia, base, ws, variant, r);
    if r.AstClean? { LoneClean(parse, trivia, base, ws, variant, r); }
  }

  lemma {:induction false} LoneClean(parse: Parser, trivia: Trivia, base: Bytes, ws: WorkspaceId, variant: Bytes, r: Outcome)
    requires Faithful(parse) && Applicable(parse, base, [(ws, variant)]) && IsMerge(parse, trivia, base, [(ws, variant)], r)
    requires parse(variant).Some? && SameKeys(parse(base).value, parse(variant).value) && r.AstClean?
    requires ParsedOf(parse, [(ws, variant)]) == [(ws, Keyed(parse(variant).value))]
    ensures r == SharedPath.AstClean(Woven(base, parse(base).value, OwnBodies(parse(variant).value)))
  {
    KeyedAlike(parse(base).value, parse(variant).value);
    var bodies := CleanIsThreeWay(parse, trivia, base, [(ws, variant)], r);
    LoneBodies(parse(base).value, parse(variant).value, ws, bodies);
  }

  lemma {:induction false} SameRegions(base: Bytes, items: seq<Item>, variant: Bytes, items': seq<Item>, n: nat)
    requires WellParsed(base, items) && WellParsed(variant, items') && |items| == |items'|
    requires SameGaps(base, items, variant, items') && n <= |items|
    ensures RegionsBefore(base, items, n) == RegionsBefore(variant, items', n)
  {
    if n > 0 { SameRegions(base, items, variant, items', n - 1); }
  }

  lemma {:induction false} SameWovenTo(base: Bytes, items: seq<Item>, variant: Bytes, items': seq<Item>, n: nat)
    requires WellParsed(base, items) && WellParsed(variant, items') && |items| == |items'|
    requires SameGaps(base, items, variant, items') && n <= |items|
    ensures WovenTo(base, items, OwnBodies(items'), n) == WovenTo(variant, items', OwnBodies(items'), n)
  {
    if n > 0 { SameWovenTo(base, items, variant, items', n - 1); }
  }

  lemma {:induction false} GapsDecide(base: Bytes, items: seq<Item>, variant: Bytes, items': seq<Item>)
    requires WellParsed(base, items) && WellParsed(variant, items') && |items| == |items'|
    requires SameGaps(base, items, variant, items')
    ensures Woven(base, items, OwnBodies(items')) == variant && !InterstitialDiffers(base, items, variant, items')
  {
    SameWovenTo(base, items, variant, items', |items|);
    SameRegions(base, items, variant, items', |items|);
    SourceIsWoven(variant, items');
  }

  /** A variant over the base's keys whose gaps are the base's, position by position, is reproduced byte for byte. */
  lemma {:induction false} LoneVariantReproduced(parse: Parser, trivia: Trivia, base: Bytes, ws: WorkspaceId,
        variant: Bytes, r: Outcome)
    requires Faithful(parse) && Applicable(parse, base, [(ws, variant)]) && IsMerge(parse, trivia, base, [(ws, variant)], r)
    requires parse(variant).Some? && SameKeys(parse(base).value, parse(variant).value)
    requires SameGaps(base, parse(base).value, variant, parse(variant).value)
    ensures r == SharedPath.AstClean(variant)
  {
    var items, items' := parse(base).value, parse(variant).value;
    LoneVariant(parse, trivia, base, ws, variant, r);
    GapsDecide(base, items, variant, items');
    if SameContents(items, items') {
      assert OwnBodies(items) == OwnBodies(items');
      SourceIsWoven(base, items);
    }
  }

  // ----- no item changed

  /** Two files with the same items and the same gaps, position by position, are one file. */
  lemma {:induction false} SameFile(base: Bytes, items: seq<Item>, variant: Bytes, items': seq<Item>)
    requires WellParsed(base, items) && WellParsed(variant, items')
    requires SameContents(items, items') && SameGaps(base, items, variant, items')
    ensures base == variant
  {
    GapsDecide(base, items, variant, items');
    assert OwnBodies(items) == OwnBodies(items');
    SourceIsWoven(base, items);
  }

  /**
   * When no variant changes an item, the result is the base, before gaps are ever compared, however many variants there
   * are and whatever they did to the gaps. A variant is reproduced exactly when its items and gaps are the base's.
   */
  lemma {:induction false} GapEditsDroppedUnless(parse: Parser, trivia: Trivia, base: Bytes, variants: seq<Variant>, r: Outcome, v: nat)
    requires Faithful(parse) && Applicable(parse, base, variants) && IsMerge(parse, trivia, base, variants, r) && v < |variants|
    requires !SomeItemChanged(Keyed(parse(base).value), ParsedOf(parse, variants))
    ensures r == SharedPath.AstClean(base)
    ensures var items, items' := parse(base).value, parse(variants[v].1).value;
            r == SharedPath.AstClean(variants[v].1) <==> SameContents(items, items') && SameGaps(base, items, variants[v].1, items')
  {
    UnchangedIsBase(parse, trivia, base, variants, r);
    var items, items' := parse(base).value, parse(variants[v].1).value;
    if SameContents(items, items') && SameGaps(base, items, variants[v].1, items') { SameFile(base, items, variants[v].1, items'); }
  }

  /** Variants with the base's keys and contents, position by position, change no item. */
  lemma {:induction false} AlikeChangesNothing(parse: Parser, base: Bytes, variants: seq<Variant>)
    requires Applicable(parse, base, variants)
    requires forall v :: 0 <= v < |variants| ==>
               SameKeys(parse(base).value, parse(variants[v].1).value) && SameContents(parse(base).value, parse(variants[v].1).value)
    ensures !SomeItemChanged(Keyed(parse(base).value), ParsedOf(parse, variants))
  {
    var items, parsed := parse(base).value, ParsedOf(parse, variants);
    forall key, v | 0 <= v < |parsed| ensures ContentAt(parsed[v].1, key) == ContentAt(Keyed(items), key) {
      KeyedAlike(items, parse(variants[v].1).value);
      if key in Keyed(items) {
        var i :| 0 <= i < |items| && IdentityKey(items[i], i) == key;
        assert Key(items, i) == key;
      }
    }
  }

  // ----- what the gap check sees

  /** As many gaps, and a gap is empty in one file where it is empty in the other. */
  ghost predicate SameEmptiness(base: Bytes, items: seq<Item>, variant: Bytes, items': seq<Item>)
    requires WellParsed(base, items) && WellParsed(variant, items')
  {
    |items| == |items'| && forall i :: 0 <= i <= |items| ==> (Gap(base, items, i) == [] <==> Gap(variant, items', i) == [])
  }

  lemma {:induction false} GapsFromRegions(base: Bytes, items: seq<Item>, variant: Bytes, items': seq<Item>, n: nat)
    requires WellParsed(base, items) && WellParsed(variant, items') && |items| == |items'| && n <= |items|
    requires SameEmptiness(base, items, variant, items') && RegionsBefore(base, items, n) == RegionsBefore(variant, items', n)
    ensures forall i :: 0 <= i < n ==> Gap(base, items, i) == Gap(variant, items', i)
  {
    if n > 0 {
      LastRegion(RegionsBefore(base, items, n - 1), Gap(base, items, n - 1),
                 RegionsBefore(variant, items', n - 1), Gap(variant, items', n - 1));
      GapsFromRegions(base, items, variant, items', n - 1);
    }
  }

  lemma {:induction false} LastRegion(front: seq<Bytes>, gap: Bytes, front': seq<Bytes>, gap': Bytes)
    requires gap == [] <==> gap' == []
    requires (if gap == [] then front else front + [gap]) == if gap' == [] then front' else front' + [gap']
    ensures front == front' && gap == gap'
  {
    if gap != [] {
      assert (front + [gap])[..|front|] == front && (front' + [gap'])[..|front'|] == front';
      assert (front + [gap])[|front|] == gap && (front' + [gap'])[|front'|] == gap';
    }
  }

  /**
   * The gap check never refuses a file whose gaps are the base's. It lets a file with other gaps through exactly when it
   * passes and either the file has another number of items, which is never refused, or some gap is empty on one side only.
   */
  lemma {:induction false} GapCheckExact(base: Bytes, items: seq<Item>, variant: Bytes, items': seq<Item>)
    requires WellParsed(base, items) && WellParsed(variant, items')
    ensures SameGaps(base, items, variant, items') ==> !InterstitialDiffers(base, items, variant, items')
    ensures SameEmptiness(base, items, variant, items') ==>
              (InterstitialDiffers(base, items, variant, items') <==> !SameGaps(base, items, variant, items'))
    ensures !InterstitialDiffers(base, items, variant, items') ==>
              (SameGaps(base, items, variant, items') <==> SameEmptiness(base, items, variant, items'))
    ensures |items| != |items'| ==> !InterstitialDiffers(base, items, variant, items')
  {
    if SameGaps(base, items, variant, items') { GapsDecide(base, items, variant, items'); }
    if SameEmptiness(base, items, variant, items') && !InterstitialDiffers(base, items, variant, items') {
      var n := |items|;
      LastRegion(RegionsBefore(base, items, n), Gap(base, items, n), RegionsBefore(variant, items', n), Gap(variant, items', n));
      GapsFromRegions(base, items, variant, items', n);
    }
  }

  /**
   * One variant over the base's keys that changes an item, and whose empty gaps are the base's: it is reproduced byte for
   * byte exactly when its gaps are the base's, and refused otherwise.
   */
  lemma {:induction false} LoneVariantReproducedOrRefused(parse: Parser, trivia: Trivia, base: Bytes, ws: WorkspaceId,
        variant: Bytes, r: Outcome)
    requires Faithful(parse) && Applicable(parse, base, [(ws, variant)]) && IsMerge(parse, trivia, base, [(ws, variant)], r)
    requires parse(variant).Some? && SameKeys(parse(base).value, parse(variant).value)
    requires !SameContents(parse(base).value, parse(variant).value)
    requires SameEmptiness(base, parse(base).value, variant, parse(variant).value)
    ensures r == if SameGaps(base, parse(base).value, variant, parse(variant).value) then SharedPath.AstClean(variant)
                 else SharedPath.Unsupported
  {
    LoneVariant(parse, trivia, base, ws, variant, r);
    GapCheckExact(base, parse(base).value, variant, parse(variant).value);
    if SameGaps(base, parse(base).value, variant, parse(variant).value) {
      GapsDecide(base, parse(base).value, variant, parse(variant).value);
    }
  }

  /** A gap that is empty on one side only and passes the check is not the variant's: the base's takes its place. */
  lemma {:induction false} MissedGapIsTheBases(parse: Parser, trivia: Trivia, base: Bytes, ws: WorkspaceId, variant: Bytes, r: Outcome)
    requires Faithful(parse) && Applicable(parse, base, [(ws, variant)]) && IsMerge(parse, trivia, base, [(ws, variant)], r)
    requires parse(variant).Some? && SameKeys(parse(base).value, parse(variant).value)
    requires !SameEmptiness(base, parse(base).value, variant, parse(variant).value) && !r.Unsupported?
    ensures r == SharedPath.AstClean(Woven(base, parse(base).value, OwnBodies(parse(variant).value)))
    ensures !SameGaps(base, parse(base).value, variant, parse(variant).value)
  {
    LoneVariant(parse, trivia, base, ws, variant, r);
    if SameContents(parse(base).value, parse(variant).value) {
      assert OwnBodies(parse(base).value) == OwnBodies(parse(variant).value);
      SourceIsWoven(base, parse(base).value);
    }
  }

  /**
   * Any number of variants, some item changed: a clean merge has let a variant with other gaps than the base's through
   * exactly when that variant has another number of items or some gap is empty in one of the two files only.
   */
  lemma {:induction false} CleanKeepsGapsIff(parse: Parser, trivia: Trivia, base: Bytes, variants: seq<Variant>, r: Outcome, v: nat)
    requires Faithful(parse) && Applicable(parse, base, variants) && IsMerge(parse, trivia, base, variants, r) && r.AstClean?
    requires SomeItemChanged(Keyed(parse(base).value), ParsedOf(parse, variants)) && v < |variants|
    ensures SameGaps(base, parse(base).value, variants[v].1, parse(variants[v].1).value)
            <==> SameEmptiness(base, parse(base).value, variants[v].1, parse(variants[v].1).value)
  {
    VerdictTable(parse, trivia, base, variants, r);
    GapCheckExact(base, parse(base).value, variants[v].1, parse(variants[v].1).value);
  }

  /** One variant never conflicts; it is refused exactly when it changes an item and the gap check sees other gaps. */
  lemma {:induction false} LoneIsRefusedIff(parse: Parser, trivia: Trivia, base: Bytes, ws: WorkspaceId, variant: Bytes, r: Outcome)
    requires Faithful(parse) && Applicable(parse, base, [(ws, variant)]) && IsMerge(parse, trivia, base, [(ws, variant)], r)
    requires parse(variant).Some?
    ensures ParsedOf(parse, [(ws, variant)]) == [(ws, Keyed(parse(variant).value))]
    ensures r.AstClean? || r.Unsupported?
    ensures r.Unsupported? <==> && SomeItemChanged(Keyed(parse(base).value), ParsedOf(parse, [(ws, variant)]))
                                && InterstitialDiffers(base, parse(base).value, variant, parse(variant).value)
  {
    var items, items', variants := parse(base).value, parse(variant).value, [(ws, variant)];
    assert variants[0].1 == variant;
    assert ParsedOf(parse, variants) == [(ws, Keyed(items'))];
    VerdictTable(parse, trivia, base, variants, r);
    forall key ensures !KeyConflict(Keyed(items), ParsedOf(parse, variants), key) {
      forall o ensures IsOutcome(Keyed(items), [(ws, Keyed(items'))], key, o) ==> o == ContentAt(Keyed(items'), key) {
        LoneOutcome(Keyed(items), Keyed(items'), ws, key, o);
      }
    }
    LoneGapDiffers(parse, base, items, variants);
  }

  lemma {:induction false} LoneGapDiffers(parse: Parser, base: Bytes, items: seq<Item>, variants: seq<Variant>)
    requires WellParsed(base, items) && AllParse(parse, variants) && |variants| == 1
    requires WellParsed(variants[0].1, parse(variants[0].1).value)
    ensures AnyGapDiffers(parse, base, items, variants) <==> InterstitialDiffers(base, items, variants[0].1, parse(variants[0].1).value)
  {
  }
}

/** What the atoms of an AST conflict tell about each workspace's file (ast_merge.rs). */
module AstAtoms {
  import opened Prelude
  import opened AstItems
  import opened AstRebuild
  import opened AstMerge
  import opened AstTheorems

  /** The node of an item, byte range and all. */
  ghost predicate IsNodeOf(region: NodeRegion, item: Item) {
    region.kind == item.kind && region.name == item.name && region.start == item.start && region.end == item.end
  }

  /** What one variant did to the key: its item and that item's text, or no text at the base's item where it dropped it. */
  ghost predicate TellsEdit(edit: NodeEdit, base: KeyedItems, variant: KeyedVariant, key: ItemKey) {
    && edit.ws == variant.0
    && (if key in variant.1 then edit.content == variant.1[key].content && IsNodeOf(edit.region, variant.1[key])
        else key in base && edit.content == [] && IsNodeOf(edit.region, base[key]))
  }

  /** `at` lists, in order, the variants whose content at `key` is not the base's. */
  ghost predicate ChangersAt(base: KeyedItems, parsed: seq<KeyedVariant>, key: ItemKey, at: seq<nat>) {
    && (forall i, j :: 0 <= i < j < |at| ==> at[i] < at[j])
    && (forall i :: 0 <= i < |at| ==> at[i] < |parsed|)
    && (forall v :: 0 <= v < |parsed| ==> (v in at <==> ContentAt(parsed[v].1, key) != ContentAt(base, key)))
  }

  /** Some variant dropped the base's item and some other changed it. */
  ghost predicate DroppedAndChanged(base: KeyedItems, parsed: seq<KeyedVariant>, key: ItemKey) {
    && key in base
    && (exists v :: 0 <= v < |parsed| && key !in parsed[v].1)
    && (exists v :: 0 <= v < |parsed| && key in parsed[v].1 && parsed[v].1[key].content != base[key].content)
  }

  ghost predicate TellsEdits(edits: seq<NodeEdit>, base: KeyedItems, parsed: seq<KeyedVariant>, key: ItemKey, at: seq<nat>) {
    && ChangersAt(base, parsed, key, at) && |edits| == |at|
    && forall i :: 0 <= i < |at| ==> TellsEdit(edits[i], base, parsed[at[i]], key)
  }

  /** An atom tells everything about one key: one edit per variant that changed it, the place, and whether it was also dropped. */
  ghost predicate TellsKey(atom: AstAtom, base: KeyedItems, parsed: seq<KeyedVariant>, key: ItemKey) {
    && (exists at: seq<nat> :: TellsEdits(atom.edits, base, parsed, key, at))
    && (key in base ==> IsNodeOf(atom.region, base[key]))
    && (key !in base ==> exists v :: 0 <= v < |parsed| && key in parsed[v].1 && IsNodeOf(atom.region, parsed[v].1[key])
                                  && forall u :: 0 <= u < v ==> key !in parsed[u].1)
    && (atom.lifecycle <==> DroppedAndChanged(base, parsed, key))
  }

  // ----- edits

  lemma {:induction false} EditTells(base: KeyedItems, variant: KeyedVariant, key: ItemKey)
    requires ChangeAt(base, variant.1, key).Some?
    ensures TellsEdit(EditOf(Constraint(variant.0, ChangeAt(base, variant.1, key).value)), base, variant, key)
  {
  }

  lemma {:induction false} OneMoreEdit(edits: seq<NodeEdit>, base: KeyedItems, parsed: seq<KeyedVariant>, key: ItemKey, at: seq<nat>)
    requires parsed != [] && TellsEdits(edits, base, parsed[..|parsed| - 1], key, at)
    ensures var n := |parsed| - 1;
            if ContentAt(parsed[n].1, key) == ContentAt(base, key) then TellsEdits(edits, base, parsed, key, at)
            else forall e :: TellsEdit(e, base, parsed[n], key) ==> TellsEdits(edits + [e], base, parsed, key, at + [n])
  {
    var n := |parsed| - 1;
    assert forall v :: 0 <= v < n ==> parsed[..n][v] == parsed[v];
    assert forall i :: 0 <= i < |at| ==> at[i] in at;
  }

  lemma {:induction false} EditsTell(base: KeyedItems, parsed: seq<KeyedVariant>, key: ItemKey) returns (at: seq<nat>)
    ensures TellsEdits(Map(EditOf, ConstraintsAt(base, parsed, key)), base, parsed, key, at)
  {
    if parsed == [] {
      at := [];
    } else {
      var n := |parsed| - 1;
      var front := ConstraintsAt(base, parsed[..n], key);
      at := EditsTell(base, parsed[..n], key);
      OneMoreEdit(Map(EditOf, front), base, parsed, key, at);
      if ContentAt(parsed[n].1, key) != ContentAt(base, key) {
        EditTells(base, parsed[n], key);
        var last := Constraint(parsed[n].0, ChangeAt(base, parsed[n].1, key).value);
        assert Map(EditOf, front + [last]) == Map(EditOf, front) + [EditOf(last)];
        at := at + [n];
      }
    }
  }

  // ----- the mark of a drop against a change

  ghost predicate AnyDeletedAmong(constraints: seq<Constraint>) {
    exists i :: 0 <= i < |constraints| && constraints[i].change.Deleted?
  }

  ghost predicate AnyModifiedAmong(constraints: seq<Constraint>) {
    exists i :: 0 <= i < |constraints| && constraints[i].change.Modified?
  }

  lemma {:induction false} MarksExact(base: KeyedItems, parsed: seq<KeyedVariant>, key: ItemKey)
    ensures AnyDeletedAmong(ConstraintsAt(base, parsed, key)) <==> key in base && exists v :: 0 <= v < |parsed| && key !in parsed[v].1
    ensures AnyModifiedAmong(ConstraintsAt(base, parsed, key))
            <==> && key in base
                 && exists v :: 0 <= v < |parsed| && key in parsed[v].1 && parsed[v].1[key].content != base[key].content
  {
    if parsed != [] {
      var n := |parsed| - 1;
      MarksExact(base, parsed[..n], key);
      assert parsed == parsed[..n] + [parsed[n]];
      var front := ConstraintsAt(base, parsed[..n], key);
      OneMoreMark(front, Constraint(parsed[n].0, if ChangeAt(base, parsed[n].1, key).Some? then ChangeAt(base, parsed[n].1, key).value
                                                 else Added(key, Item("", None, 0, 0, []))));
      OneMoreVariant(base, parsed, key);
    }
  }

  lemma {:induction false} OneMoreMark(front: seq<Constraint>, last: Constraint)
    ensures AnyDeletedAmong(front + [last]) <==> AnyDeletedAmong(front) || last.change.Deleted?
    ensures AnyModifiedAmong(front + [last]) <==> AnyModifiedAmong(front) || last.change.Modified?
  {
    var all := front + [last];
    assert all[|front|] == last && forall i :: 0 <= i < |front| ==> all[i] == front[i];
  }

  lemma {:induction false} OneMoreVariant(base: KeyedItems, parsed: seq<KeyedVariant>, key: ItemKey)
    requires parsed != []
    ensures var n := |parsed| - 1;
            && ((exists v :: 0 <= v < |parsed| && key !in parsed[v].1)
                <==> (exists v :: 0 <= v < n && key !in parsed[..n][v].1) || key !in parsed[n].1)
            && (key in base ==>
                  ((exists v :: 0 <= v < |parsed| && key in parsed[v].1 && parsed[v].1[key].content != base[key].content)
                   <==> || (exists v :: 0 <= v < n && key in parsed[..n][v].1 && parsed[..n][v].1[key].content != base[key].content)
                        || (key in parsed[n].1 && parsed[n].1[key].content != base[key].content)))
  {
    var n := |parsed| - 1;
    assert forall v :: 0 <= v < n ==> parsed[..n][v] == parsed[v];
  }

  // ----- the atom

  lemma {:induction false} FirstConstraint(base: KeyedItems, parsed: seq<KeyedVariant>, key: ItemKey)
    requires ConstraintsAt(base, parsed, key) != []
    ensures var c := ConstraintsAt(base, parsed, key)[0].change;
            if key in base then !c.Added? && c.base == base[key]
            else c.Added? && exists v :: 0 <= v < |parsed| && key in parsed[v].1 && c.variant == parsed[v].1[key]
                                      && forall u :: 0 <= u < v ==> key !in parsed[u].1
  {
    if key in base {
      BaseOfConstraint(base, parsed, key);
    } else {
      FirstAdder(base, parsed, key);
    }
  }

  lemma {:induction false} BaseOfConstraint(base: KeyedItems, parsed: seq<KeyedVariant>, key: ItemKey)
    requires key in base
    ensures forall i :: 0 <= i < |ConstraintsAt(base, parsed, key)| ==>
              var c := ConstraintsAt(base, parsed, key)[i].change; !c.Added? && c.base == base[key]
  {
    if parsed != [] { BaseOfConstraint(base, parsed[..|parsed| - 1], key); }
  }

  lemma {:induction false} AtomTells(base: KeyedItems, parsed: seq<KeyedVariant>, key: ItemKey)
    requires ConstraintsAt(base, parsed, key) != []
    ensures TellsKey(AtomOf(ConstraintsAt(base, parsed, key)), base, parsed, key)
  {
    var at := EditsTell(base, parsed, key);
    MarksExact(base, parsed, key);
    FirstConstraint(base, parsed, key);
  }

  lemma {:induction false} AtomOfKey(groups: Groups, keys: seq<ItemKey>, k: nat)
    requires (forall key :: key in keys ==> ConflictAt(groups, key)) && k < |keys|
    ensures keys[k] in keys && ConflictAt(groups, keys[k]) && AtomsAt(groups, keys)[k] == AtomOf(groups[keys[k]])
  {
    if k < |keys| - 1 { AtomOfKey(groups, keys[..|keys| - 1], k); }
  }

  /** Each key on which two variants disagree has its atom, and each atom tells such a key. */
  ghost predicate TellConflicts(base: KeyedItems, parsed: seq<KeyedVariant>, atoms: seq<AstAtom>) {
    && (forall key :: KeyConflict(base, parsed, key) ==> exists a :: a in atoms && TellsKey(a, base, parsed, key))
    && (forall a :: a in atoms ==> exists key :: KeyConflict(base, parsed, key) && TellsKey(a, base, parsed, key))
  }

  /**
   * Every conflict is told in full: each key on which two variants disagree has its atom, and each atom tells such a key,
   * with one edit per variant that changed it, holding that variant's text; and the atoms stand in the order of the base.
   */
  lemma {:induction false} ConflictTold(parse: Parser, trivia: Trivia, base: Bytes, variants: seq<Variant>, r: Outcome)
    requires Faithful(parse) && Applicable(parse, base, variants) && IsMerge(parse, trivia, base, variants, r) && r.AstConflict?
    ensures TellConflicts(Keyed(parse(base).value), ParsedOf(parse, variants), r.atoms)
    ensures forall i, j :: 0 <= i < j < |r.atoms| ==> r.atoms[i].region.start <= r.atoms[j].region.start
  {
    var groups, keys := ConflictExact(parse, trivia, base, variants, r);
    GroupsTold(groups, Keyed(parse(base).value), ParsedOf(parse, variants), keys, r.atoms);
    StartsInOrder(r.atoms);
  }

  lemma {:induction false} GroupsTold(groups: Groups, base: KeyedItems, parsed: seq<KeyedVariant>, keys: seq<ItemKey>, atoms: seq<AstAtom>)
    requires GroupsAt(groups, base, parsed) && AtomsOfKeys(groups, keys, atoms)
    requires forall key :: key in keys <==> KeyConflict(base, parsed, key)
    ensures TellConflicts(base, parsed, atoms)
  {
    KeysTold(groups, base, parsed, keys);
    SameMembers(atoms, AtomsAt(groups, keys));
    AllTold(base, parsed, keys, AtomsAt(groups, keys), atoms);
  }

  lemma {:induction false} StartsInOrder(atoms: seq<AstAtom>)
    requires SortedBy(atoms, AtomStart, NatLe)
    ensures forall i, j :: 0 <= i < j < |atoms| ==> atoms[i].region.start <= atoms[j].region.start
  {
  }

  lemma {:induction false} KeysTold(groups: Groups, base: KeyedItems, parsed: seq<KeyedVariant>, keys: seq<ItemKey>)
    requires GroupsAt(groups, base, parsed) && forall key :: key in keys ==> ConflictAt(groups, key)
    ensures forall k :: 0 <= k < |keys| ==> TellsKey(AtomsAt(groups, keys)[k], base, parsed, keys[k])
  {
    forall k | 0 <= k < |keys| ensures TellsKey(AtomsAt(groups, keys)[k], base, parsed, keys[k]) {
      AtomOfKey(groups, keys, k);
      AtomTells(base, parsed, keys[k]);
    }
  }

  lemma {:induction false} AllTold(base: KeyedItems, parsed: seq<KeyedVariant>, keys: seq<ItemKey>, told: seq<AstAtom>,
        atoms: seq<AstAtom>)
    requires |told| == |keys| && (forall a :: a in atoms <==> a in told)
    requires forall k :: 0 <= k < |keys| ==> TellsKey(told[k], base, parsed, keys[k])
    ensures forall key :: key in keys ==> exists a :: a in atoms && TellsKey(a, base, parsed, key)
    ensures forall a :: a in atoms ==> exists key :: key in keys && TellsKey(a, base, parsed, key)
  {
    forall key | key in keys ensures exists a :: a in atoms && TellsKey(a, base, parsed, key) {
      var k :| 0 <= k < |keys| && keys[k] == key;
      assert told[k] in told;
    }
    forall a | a in atoms ensures exists key :: key in keys && TellsKey(a, base, parsed, key) {
      var k :| 0 <= k < |told| && told[k] == a;
      assert keys[k] in keys;
    }
  }
}

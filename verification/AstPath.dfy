/**
 * A shared path on which diff3 is stuck and the AST merge has its say: what of each workspace's file is in the result, and
 * who the sides of a conflict are (resolve.rs with ast_merge.rs).
 */
module AstPath {
  import opened Prelude
  import opened MergeAlgebra
  import opened AstItems
  import opened AstRebuild
  import opened AstMerge
  import opened AstTheorems
  import opened SharedPath
  import Attribution

  /** The files handed to the engine. */
  function VariantsOf(entries: seq<Entry<Bytes>>): (r: seq<Variant>)
    requires AllHaveContent(entries)
    ensures |r| == |entries|
  {
    seq(|entries|, i requires 0 <= i < |entries| => (entries[i].ws, Values(entries)[i]))
  }

  /** On this path the engine of the AST-aware pipeline answers as the AST merge does. */
  ghost predicate IsAstEngine(parse: Parser, trivia: Trivia, engine: AstEngine<Bytes, AstAtom>, entries: seq<Entry<Bytes>>, base: Bytes)
    requires Faithful(parse)
  {
    AllHaveContent(entries) ==> IsMerge(parse, trivia, base, VariantsOf(entries), engine(base, VariantsOf(entries)))
  }

  /** Plain diff3 is stuck on the path: without the AST merge it would be a conflict. */
  ghost predicate Diff3IsStuck<E>(tools: Tools<Bytes, AstAtom, E>, path: Path, entries: seq<Entry<Bytes>>, base: Option<Bytes>) {
    var off := WithAst(tools, None, path, entries, base);
    off.Ok? && off.value.Conflicted? && off.value.record.reason == Diff3Conflict
  }

  /** Once diff3 is stuck, the engine's answer decides. */
  lemma {:induction false} EngineDecides<E>(tools: Tools<Bytes, AstAtom, E>, engine: AstEngine<Bytes, AstAtom>, path: Path,
        entries: seq<Entry<Bytes>>, base: Option<Bytes>)
    returns (participants: seq<WorkspaceId>)
    requires Diff3IsStuck(tools, path, entries, base)
    ensures base.Some? && AllHaveContent(entries)
    ensures WithAst(tools, Some(engine), path, entries, base)
         == match engine(base.value, VariantsOf(entries))
            case AstClean(merged) => Ok(Resolved(UpsertPath(path, merged)))
            case Unsupported => WithAst(tools, None, path, entries, base)
            case AstConflict(atoms) =>
              var named := NamedBy(tools, entries, atoms, []);
              Ok(Conflicted(Record(path, Only(entries, if |named| >= 2 then named else participants), base, Diff3Conflict, atoms)))
  {
    var values, ids := Values(entries), Ids(entries);
    var end := FoldFrom(tools, base.value, values[0], values, 1);
    participants := Probe(tools, base.value, ids[..end.trigger], values[..end.trigger], values[end.trigger]) + [ids[end.trigger]];
    assert VariantsOf(entries) == seq(|entries|, i requires 0 <= i < |entries| => (entries[i].ws, values[i]));
  }

  // ----- a resolved path

  /** What one workspace made of the base's items, key by key, is in place, and what it added is among the additions. */
  ghost predicate KeepsEdits(items: seq<Item>, items': seq<Item>, bodies: Bodies, additions: seq<Addition>)
    requires |bodies| == |items|
  {
    && (forall i :: 0 <= i < |items| && ContentAt(Keyed(items'), Key(items, i)) != ContentAt(Keyed(items), Key(items, i)) ==>
          bodies[i] == ContentAt(Keyed(items'), Key(items, i)))
    && (forall key :: key in Keyed(items') && key !in Keyed(items) ==>
          exists a :: a in additions && a.1.content == Keyed(items')[key].content)
  }

  /** Every item that the workspace's file has otherwise than the base, or lacks, or adds, is so in the result. */
  ghost predicate KeepsItems(items: seq<Item>, items': seq<Item>, bodies: Bodies, additions: seq<Addition>)
    requires |bodies| == |items|
  {
    && (forall i, content :: 0 <= i < |items| && HasItem(items', Key(items, i), content) && content != items[i].content ==>
          bodies[i] == Some(content))
    && (forall i :: 0 <= i < |items| && LacksKey(items', Key(items, i)) ==> bodies[i] == None)
    && AddsItems(items, items', additions)
  }

  lemma {:induction false} KeysAreItems(items: seq<Item>, items': seq<Item>, bodies: Bodies, additions: seq<Addition>)
    requires |bodies| == |items| && DistinctKeys(items) && DistinctKeys(items') && KeepsEdits(items, items', bodies, additions)
    ensures KeepsItems(items, items', bodies, additions)
  {
    forall i | 0 <= i < |items|
      ensures forall content :: HasItem(items', Key(items, i), content) && content != items[i].content ==> bodies[i] == Some(content)
      ensures LacksKey(items', Key(items, i)) ==> bodies[i] == None
    {
      KeyedAt(items, i);
      ContentOfItem(items', Key(items, i));
    }
    forall m | 0 <= m < |items'| && LacksKey(items, Key(items', m)) ensures exists a :: a in additions && a.1.content == items'[m].content {
      KeyedAt(items', m);
      ContentOfItem(items, Key(items', m));
    }
  }

  /**
   * When diff3 is stuck on a path and the AST merge resolves it, the file holds every workspace's edits to items, though
   * not to the text between them: what a workspace has under a key otherwise than the base is there, and so are the keys
   * it adds. For a workspace whose file, like the base, has no two items with one key, that is every item it edited.
   */
  lemma {:induction false} AstResolutionKeepsEdits<E>(parse: Parser, trivia: Trivia, tools: Tools<Bytes, AstAtom, E>,
        engine: AstEngine<Bytes, AstAtom>, path: Path, entries: seq<Entry<Bytes>>, base: Bytes)
    returns (bodies: Bodies, additions: seq<Addition>, at: Option<nat>, separators: seq<Bytes>)
    requires Faithful(parse) && IsAstEngine(parse, trivia, engine, entries, base)
    requires Diff3IsStuck(tools, path, entries, Some(base))
    requires WithAst(tools, Some(engine), path, entries, Some(base)).value.Resolved?
    ensures AllHaveContent(entries) && Applicable(parse, base, VariantsOf(entries)) && |bodies| == |parse(base).value|
    ensures var change := WithAst(tools, Some(engine), path, entries, Some(base)).value.change;
            && change.UpsertPath? && change.path == path
            && IsAssembled(base, parse(base).value, bodies, additions, VariantsOf(entries), trivia, at, separators, change.content)
    ensures forall v :: 0 <= v < |entries| ==>
              && parse(Values(entries)[v]).Some?
              && KeepsEdits(parse(base).value, parse(Values(entries)[v]).value, bodies, additions)
              && (DistinctKeys(parse(base).value) && DistinctKeys(parse(Values(entries)[v]).value) ==>
                    KeepsItems(parse(base).value, parse(Values(entries)[v]).value, bodies, additions))
  {
    var participants := EngineDecides(tools, engine, path, entries, Some(base));
    var variants := VariantsOf(entries);
    var keys, found;
    bodies, keys, found, additions, at, separators := CleanMergeExact(parse, trivia, base, variants, engine(base, variants));
    forall v | 0 <= v < |entries|
      ensures parse(Values(entries)[v]).Some?
      ensures KeepsEdits(parse(base).value, parse(Values(entries)[v]).value, bodies, additions)
      ensures DistinctKeys(parse(base).value) && DistinctKeys(parse(Values(entries)[v]).value) ==>
                KeepsItems(parse(base).value, parse(Values(entries)[v]).value, bodies, additions)
    {
      assert variants[v].1 == Values(entries)[v];
      OutcomesKept(parse(base).value, ParsedOf(parse, variants), bodies, keys, found, additions, v);
      if DistinctKeys(parse(base).value) && DistinctKeys(parse(Values(entries)[v]).value) {
        KeysAreItems(parse(base).value, parse(Values(entries)[v]).value, bodies, additions);
      }
    }
  }

  /**
   * When diff3 is stuck on a path and no workspace changed an item, the AST merge resolves it to the base: whatever the
   * workspaces did to the text between items is gone, and nothing is reported.
   */
  lemma {:induction false} UnchangedItemsGiveBase<E>(parse: Parser, trivia: Trivia, tools: Tools<Bytes, AstAtom, E>,
        engine: AstEngine<Bytes, AstAtom>, path: Path, entries: seq<Entry<Bytes>>, base: Bytes)
    requires Faithful(parse) && IsAstEngine(parse, trivia, engine, entries, base)
    requires Diff3IsStuck(tools, path, entries, Some(base)) && AllHaveContent(entries)
    requires Applicable(parse, base, VariantsOf(entries))
    requires !SomeItemChanged(Keyed(parse(base).value), ParsedOf(parse, VariantsOf(entries)))
    ensures WithAst(tools, Some(engine), path, entries, Some(base)) == Ok(Resolved(UpsertPath(path, base)))
  {
    var participants := EngineDecides(tools, engine, path, entries, Some(base));
    UnchangedIsBase(parse, trivia, base, VariantsOf(entries), engine(base, VariantsOf(entries)));
  }

  // ----- the sides of an AST conflict

  /** An atom names the workspaces of its edits. */
  ghost predicate EditorsAreEdits<E>(tools: Tools<Bytes, AstAtom, E>) {
    forall a :: tools.editors(a) == Map((e: NodeEdit) => e.ws, a.edits)
  }

  lemma {:induction false} AddNamedExact<C>(entries: seq<Entry<C>>, names: seq<WorkspaceId>, found: seq<WorkspaceId>, id: WorkspaceId)
    ensures id in AddNamed(entries, names, found) <==> id in found || (id in names && id in Ids(entries))
  {
    if names != [] {
      AddNamedExact(entries, names[1..], if names[0] in Ids(entries) && names[0] !in found then found + [names[0]] else found, id);
    }
  }

  lemma {:induction false} NamedByExact<C, A, E>(tools: Tools<C, A, E>, entries: seq<Entry<C>>, atoms: seq<A>,
        found: seq<WorkspaceId>, id: WorkspaceId)
    ensures id in NamedBy(tools, entries, atoms, found)
            <==> id in found || (id in Ids(entries) && exists k :: 0 <= k < |atoms| && id in tools.editors(atoms[k]))
  {
    if atoms != [] {
      AddNamedExact(entries, tools.editors(atoms[0]), found, id);
      NamedByExact(tools, entries, atoms[1..], AddNamed(entries, tools.editors(atoms[0]), found), id);
      assert atoms == [atoms[0]] + atoms[1..];
    }
  }

  ghost predicate Constrains(constraints: seq<Constraint>, id: WorkspaceId) {
    exists c :: c in constraints && c.ws == id
  }

  /** A variant of workspace `id` has other content at `key` than the base. */
  ghost predicate Changes(base: KeyedItems, parsed: seq<KeyedVariant>, key: ItemKey, id: WorkspaceId) {
    exists v :: 0 <= v < |parsed| && parsed[v].0 == id && ContentAt(parsed[v].1, key) != ContentAt(base, key)
  }

  lemma {:induction false} OneMoreChanger(base: KeyedItems, parsed: seq<KeyedVariant>, key: ItemKey, id: WorkspaceId)
    requires parsed != []
    ensures var n := |parsed| - 1;
            Changes(base, parsed, key, id)
            <==> Changes(base, parsed[..n], key, id) || (parsed[n].0 == id && ContentAt(parsed[n].1, key) != ContentAt(base, key))
  {
    var n := |parsed| - 1;
    if v :| 0 <= v < |parsed| && parsed[v].0 == id && ContentAt(parsed[v].1, key) != ContentAt(base, key) {
      assert v < n ==> parsed[..n][v] == parsed[v];
    }
    if v :| 0 <= v < n && parsed[..n][v].0 == id && ContentAt(parsed[..n][v].1, key) != ContentAt(base, key) {
      assert parsed[v] == parsed[..n][v];
    }
  }

  lemma {:induction false} OneMoreConstraint(front: seq<Constraint>, last: Constraint, id: WorkspaceId)
    ensures Constrains(front + [last], id) <==> Constrains(front, id) || last.ws == id
  {
    assert last in front + [last];
    if c :| c in front && c.ws == id { assert c in front + [last]; }
  }

  /** The constraints on a key come from the workspaces that change it. */
  lemma {:induction false} ConstrainersExact(base: KeyedItems, parsed: seq<KeyedVariant>, key: ItemKey, id: WorkspaceId)
    ensures Constrains(ConstraintsAt(base, parsed, key), id) <==> Changes(base, parsed, key, id)
  {
    if parsed != [] {
      var n := |parsed| - 1;
      ConstrainersExact(base, parsed[..n], key, id);
      OneMoreChanger(base, parsed, key, id);
      var change := ChangeAt(base, parsed[n].1, key);
      if change.Some? { OneMoreConstraint(ConstraintsAt(base, parsed[..n], key), Constraint(parsed[n].0, change.value), id); }
    }
  }

  /** Workspace `id` changed some key on which the variants conflict. */
  ghost predicate ChangedConflict(base: KeyedItems, parsed: seq<KeyedVariant>, id: WorkspaceId) {
    exists key :: KeyConflict(base, parsed, key) && Changes(base, parsed, key, id)
  }

  lemma {:induction false} EditorsExact<E>(tools: Tools<Bytes, AstAtom, E>, constraints: seq<Constraint>, id: WorkspaceId)
    requires EditorsAreEdits(tools) && constraints != []
    ensures id in tools.editors(AtomOf(constraints)) <==> Constrains(constraints, id)
  {
    var names := tools.editors(AtomOf(constraints));
    assert |names| == |constraints| && forall i :: 0 <= i < |names| ==> names[i] == constraints[i].ws;
    if Constrains(constraints, id) {
      var c :| c in constraints && c.ws == id;
      var i :| 0 <= i < |constraints| && constraints[i] == c;
      assert names[i] == id;
    }
    if id in names {
      var i :| 0 <= i < |names| && names[i] == id;
      assert constraints[i] in constraints;
    }
  }

  lemma {:induction false} OneMoreNaming<E>(tools: Tools<Bytes, AstAtom, E>, front: seq<AstAtom>, last: AstAtom, id: WorkspaceId)
    ensures (exists a :: a in front + [last] && id in tools.editors(a))
            <==> (exists a :: a in front && id in tools.editors(a)) || id in tools.editors(last)
  {
    assert last in front + [last] && forall a :: a in front ==> a in front + [last];
  }

  lemma {:induction false} OneMoreChanged(base: KeyedItems, parsed: seq<KeyedVariant>, keys: seq<ItemKey>, id: WorkspaceId)
    requires keys != []
    ensures (exists k :: k in keys && Changes(base, parsed, k, id))
            <==> || (exists k :: k in keys[..|keys| - 1] && Changes(base, parsed, k, id))
                 || Changes(base, parsed, keys[|keys| - 1], id)
  {
    assert keys == keys[..|keys| - 1] + [keys[|keys| - 1]];
  }

  /** Some atom names `id` exactly when `id` changed some of the keys behind the atoms. */
  lemma {:induction false} AtomEditors<E>(tools: Tools<Bytes, AstAtom, E>, groups: Groups, base: KeyedItems,
        parsed: seq<KeyedVariant>, keys: seq<ItemKey>, id: WorkspaceId)
    requires EditorsAreEdits(tools) && GroupsAt(groups, base, parsed) && forall k :: k in keys ==> ConflictAt(groups, k)
    ensures (exists a :: a in AtomsAt(groups, keys) && id in tools.editors(a))
            <==> exists k :: k in keys && Changes(base, parsed, k, id)
  {
    if keys != [] {
      var n := |keys| - 1;
      assert ConflictAt(groups, keys[n]);
      AtomEditors(tools, groups, base, parsed, keys[..n], id);
      EditorsExact(tools, groups[keys[n]], id);
      ConstrainersExact(base, parsed, keys[n], id);
      OneMoreNaming(tools, AtomsAt(groups, keys[..n]), AtomOf(groups[keys[n]]), id);
      OneMoreChanged(base, parsed, keys, id);
    }
  }

  lemma {:induction false} NamedExact<E>(parse: Parser, trivia: Trivia, tools: Tools<Bytes, AstAtom, E>, base: Bytes,
        entries: seq<Entry<Bytes>>, r: Outcome, id: WorkspaceId)
    requires Faithful(parse) && EditorsAreEdits(tools) && AllHaveContent(entries)
    requires IsMerge(parse, trivia, base, VariantsOf(entries), r) && r.AstConflict?
    ensures Applicable(parse, base, VariantsOf(entries))
    ensures id in NamedBy(tools, entries, r.atoms, [])
            <==> && id in Ids(entries)
                 && ChangedConflict(Keyed(parse(base).value), ParsedOf(parse, VariantsOf(entries)), id)
  {
    var keyed, parsed := Keyed(parse(base).value), ParsedOf(parse, VariantsOf(entries));
    var groups, keys := ConflictExact(parse, trivia, base, VariantsOf(entries), r);
    NamedByExact(tools, entries, r.atoms, [], id);
    AtomEditors(tools, groups, keyed, parsed, keys, id);
    SameEditors(tools, r.atoms, AtomsAt(groups, keys), id);
  }

  lemma {:induction false} SameEditors<E>(tools: Tools<Bytes, AstAtom, E>, atoms: seq<AstAtom>, atoms': seq<AstAtom>, id: WorkspaceId)
    requires multiset(atoms) == multiset(atoms')
    ensures (exists k :: 0 <= k < |atoms| && id in tools.editors(atoms[k])) <==> exists a :: a in atoms' && id in tools.editors(a)
  {
    SameMembers(atoms, atoms');
    if k :| 0 <= k < |atoms| && id in tools.editors(atoms[k]) { assert atoms[k] in atoms'; }
    if a :| a in atoms' && id in tools.editors(a) { assert a in atoms; }
  }

  /** Behind a conflict there are two different variants that changed a conflicting key. */
  lemma {:induction false} TwoChangers(base: KeyedItems, parsed: seq<KeyedVariant>) returns (v: nat, w: nat)
    requires exists key :: KeyConflict(base, parsed, key)
    ensures v < |parsed| && w < |parsed| && v != w
    ensures ChangedConflict(base, parsed, parsed[v].0) && ChangedConflict(base, parsed, parsed[w].0)
  {
    var key :| KeyConflict(base, parsed, key);
    var o, o' :| IsOutcome(base, parsed, key, o) && IsOutcome(base, parsed, key, o') && o != o';
    v :| 0 <= v < |parsed| && ContentAt(parsed[v].1, key) == o;
    w :| 0 <= w < |parsed| && ContentAt(parsed[w].1, key) == o';
    assert Changes(base, parsed, key, parsed[v].0) && Changes(base, parsed, key, parsed[w].0);
  }

  /**
   * When diff3 is stuck on a path and the AST merge finds a conflict, its sides are exactly the workspaces that changed a
   * key on which two of them disagree; there are at least two, so diff3's participants never stand in for them.
   */
  lemma {:induction false} AstConflictSidesExact<E>(parse: Parser, trivia: Trivia, tools: Tools<Bytes, AstAtom, E>,
        engine: AstEngine<Bytes, AstAtom>, path: Path, entries: seq<Entry<Bytes>>, base: Bytes)
    requires Faithful(parse) && IsAstEngine(parse, trivia, engine, entries, base) && EditorsAreEdits(tools)
    requires Diff3IsStuck(tools, path, entries, Some(base)) && Distinct(Ids(entries)) && AllHaveContent(entries)
    requires engine(base, VariantsOf(entries)).AstConflict?
    ensures Applicable(parse, base, VariantsOf(entries))
    ensures var on := WithAst(tools, Some(engine), path, entries, Some(base));
            && on.Ok? && on.value.Conflicted? && on.value.record.atoms == engine(base, VariantsOf(entries)).atoms
            && |on.value.record.sides| >= 2
            && forall k :: 0 <= k < |entries| ==>
                 (Side(entries[k].ws, entries[k].kind, entries[k].content) in on.value.record.sides
                  <==> ChangedConflict(Keyed(parse(base).value), ParsedOf(parse, VariantsOf(entries)), entries[k].ws))
  {
    var r := engine(base, VariantsOf(entries));
    var participants := EngineDecides(tools, engine, path, entries, Some(base));
    var v, w := NamedPair(parse, trivia, tools, base, entries, r);
    var named := NamedBy(tools, entries, r.atoms, []);
    SidesOfNamed(path, entries, base, named, r.atoms, v, w);
    forall k | 0 <= k < |entries|
      ensures entries[k].ws in named <==> ChangedConflict(Keyed(parse(base).value), ParsedOf(parse, VariantsOf(entries)), entries[k].ws)
    {
      NamedExact(parse, trivia, tools, base, entries, r, entries[k].ws);
      assert Ids(entries)[k] in Ids(entries);
    }
  }

  lemma {:induction false} NamedPair<E>(parse: Parser, trivia: Trivia, tools: Tools<Bytes, AstAtom, E>, base: Bytes,
        entries: seq<Entry<Bytes>>, r: Outcome)
    returns (v: nat, w: nat)
    requires Faithful(parse) && EditorsAreEdits(tools) && AllHaveContent(entries)
    requires IsMerge(parse, trivia, base, VariantsOf(entries), r) && r.AstConflict?
    ensures Applicable(parse, base, VariantsOf(entries))
    ensures v < |entries| && w < |entries| && v != w
    ensures entries[v].ws in NamedBy(tools, entries, r.atoms, []) && entries[w].ws in NamedBy(tools, entries, r.atoms, [])
  {
    var groups, keys := ConflictExact(parse, trivia, base, VariantsOf(entries), r);
    v, w := TwoChangers(Keyed(parse(base).value), ParsedOf(parse, VariantsOf(entries)));
    NamedExact(parse, trivia, tools, base, entries, r, entries[v].ws);
    NamedExact(parse, trivia, tools, base, entries, r, entries[w].ws);
    assert Ids(entries)[v] in Ids(entries) && Ids(entries)[w] in Ids(entries);
  }

  /** A record over the named entries has each of them as a side, and no other. */
  lemma {:induction false} SidesOfNamed(path: Path, entries: seq<Entry<Bytes>>, base: Bytes, named: seq<WorkspaceId>, atoms: seq<AstAtom>,
        v: nat, w: nat)
    requires Distinct(Ids(entries)) && v < |entries| && w < |entries| && v != w && entries[v].ws in named && entries[w].ws in named
    ensures |named| >= 2
    ensures var sides := Record(path, Only(entries, named), Some(base), Diff3Conflict, atoms).sides;
            && |sides| >= 2
            && forall k :: 0 <= k < |entries| ==>
                 (Side(entries[k].ws, entries[k].kind, entries[k].content) in sides <==> entries[k].ws in named)
  {
    var sides := Record(path, Only(entries, named), Some(base), Diff3Conflict, atoms).sides;
    forall k | 0 <= k < |entries|
      ensures Side(entries[k].ws, entries[k].kind, entries[k].content) in sides <==> entries[k].ws in named
    {
      Attribution.SideIffNamed(path, entries, base, named, atoms, k);
    }
    assert Ids(entries)[v] != Ids(entries)[w];
    Attribution.TwoMembers(named, entries[v].ws, entries[w].ws);
    Attribution.TwoMembers(sides, Side(entries[v].ws, entries[v].kind, entries[v].content),
                           Side(entries[w].ws, entries[w].kind, entries[w].content));
  }
}

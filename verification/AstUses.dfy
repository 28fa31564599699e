/** Added use declarations: a use is keyed by its own text, so that its place in a clean merge is always found (ast_merge.rs). */
module AstUses {
  import opened Prelude
  import opened AstItems
  import opened AstRebuild
  import opened AstMerge
  import opened AstTheorems

  /** How a use gets its name: `text` decodes its bytes, and gives "" for bytes that are not UTF-8. */
  ghost predicate NamesUses(parse: Parser, text: Bytes -> string) {
    && (forall a, b :: text(a) == text(b) && text(a) != "" ==> a == b)
    && forall source :: parse(source).Some? ==> AreNamed(parse(source).value, text)
  }

  ghost predicate AreNamed(items: seq<Item>, text: Bytes -> string) {
    forall i :: 0 <= i < |items| && IsUse(items[i]) ==> items[i].name == Some(text(items[i].content))
  }

  /** In any file, what stands under the key of a readable use is that very use. */
  lemma {:induction false} SameUse(items: seq<Item>, use: Item, index: nat, text: Bytes -> string)
    requires AreNamed(items, text) && forall a, b :: text(a) == text(b) && text(a) != "" ==> a == b
    requires IsUse(use) && use.name == Some(text(use.content)) && text(use.content) != ""
    ensures ContentAt(Keyed(items), IdentityKey(use, index)) in {None, Some(use.content)}
  {
    var key := IdentityKey(use, index);
    if key in Keyed(items) {
      KeyedIsItem(items, key);
      var i :| 0 <= i < |items| && IdentityKey(items[i], i) == key && Keyed(items)[key] == items[i];
      assert items[i].name == use.name && items[i].kind == use.kind;
    }
  }

  /** A readable use of the base can only be deleted: to change it is to add another. */
  lemma {:induction false} UseIsOnlyDeleted(parse: Parser, text: Bytes -> string, items: seq<Item>, variants: seq<Variant>, j: nat,
        o: Option<Bytes>)
    requires NamesUses(parse, text) && AllParse(parse, variants) && AreNamed(items, text)
    requires j < |items| && IsUse(items[j]) && text(items[j].content) != ""
    requires IsOutcome(Keyed(items), ParsedOf(parse, variants), Key(items, j), o)
    ensures o == None
  {
    var v :| 0 <= v < |variants| && ContentAt(ParsedOf(parse, variants)[v].1, Key(items, j)) == o;
    SameUse(parse(variants[v].1).value, items[j], j, text);
    SameUse(items, items[j], j, text);
    assert Key(items, j) in Keyed(items);
  }

  /** A surviving readable use is what the base has. */
  lemma {:induction false} SurvivingUseIsTheBases(parse: Parser, text: Bytes -> string, items: seq<Item>, variants: seq<Variant>,
        bodies: Bodies, j: nat)
    requires NamesUses(parse, text) && AllParse(parse, variants) && AreNamed(items, text)
    requires AreMergedBodies(items, ParsedOf(parse, variants), bodies)
    requires j < |items| && IsUse(items[j]) && text(items[j].content) != "" && bodies[j].Some?
    ensures bodies[j] == Some(items[j].content)
  {
    assert IsMergedBody(Keyed(items), ParsedOf(parse, variants), Key(items, j), items[j].content, bodies[j]);
    if o :| IsOutcome(Keyed(items), ParsedOf(parse, variants), Key(items, j), o) {
      UseIsOnlyDeleted(parse, text, items, variants, j, o);
    }
  }

  /** Where the uses of a clean merge went, when the last surviving use is item `j` and readable. */
  ghost predicate UsesPlaced(base: Bytes, items: seq<Item>, bodies: Bodies, at: Option<nat>, j: nat)
    requires WellParsed(base, items) && |bodies| == |items| && j < |items|
  {
    var core := Woven(base, items, bodies);
    && at.Some? && at.value <= |WovenTo(base, items, bodies, j + 1)| <= |core|
    && (core[..at.value] == WovenTo(base, items, bodies, j + 1)
        <==> forall q: nat :: q < BodyStart(base, items, bodies, j) ==> !OccursAt(core, items[j].content, q))
  }

  /**
   * In every clean merge in which some use of the base survives, the last of them readable: added uses find a place, never
   * behind the end of that use; and they go right behind it exactly when its bytes occur nowhere before it.
   */
  lemma {:induction false} AddedUsesArePlaced(parse: Parser, text: Bytes -> string, trivia: Trivia, base: Bytes,
        variants: seq<Variant>, r: Outcome)
    returns (bodies: Bodies, additions: seq<Addition>, at: Option<nat>, separators: seq<Bytes>)
    requires Faithful(parse) && Applicable(parse, base, variants) && IsMerge(parse, trivia, base, variants, r) && r.AstClean?
    requires NamesUses(parse, text)
    ensures AreMergedBodies(parse(base).value, ParsedOf(parse, variants), bodies)
    ensures IsAssembled(base, parse(base).value, bodies, additions, variants, trivia, at, separators, r.merged)
    ensures forall j: nat ::
              IsAnchor(parse(base).value, bodies, j) && text(parse(base).value[j].content) != "" && AnyUse(additions) ==>
                UsesPlaced(base, parse(base).value, bodies, at, j)
  {
    var items := parse(base).value;
    var keys, found;
    bodies, keys, found, additions, at, separators := CleanMergeExact(parse, trivia, base, variants, r);
    forall j: nat | IsAnchor(items, bodies, j) && text(items[j].content) != "" && AnyUse(additions)
      ensures UsesPlaced(base, items, bodies, at, j)
    {
      SurvivingUseIsTheBases(parse, text, items, variants, bodies, j);
      UsesGoBehindAnchorIff(base, items, bodies, additions, at, j);
    }
  }
}

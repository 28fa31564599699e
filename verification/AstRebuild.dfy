/** Rebuilding a merged file from the base and one resolution per changed item (ast_merge.rs). */
module AstRebuild {
  import opened Prelude
  import opened AstItems

  type Resolutions = map<ItemKey, Constraint>

  /** The bytes of comments and attributes in front of an item of `source`. */
  type Trivia = (Bytes, Item) -> Bytes

  const NEWLINE: Byte := 10

  // ----- white space

  predicate IsWhite(b: Byte) {
    b in {32, 9, 10, 13}
  }

  function SkipFrom(source: Bytes, from: nat): (r: nat)
    requires from <= |source|
    ensures from <= r <= |source|
    ensures forall k :: from <= k < r ==> IsWhite(source[k])
    ensures r < |source| ==> !IsWhite(source[r])
    decreases |source| - from
  {
    if from < |source| && IsWhite(source[from]) then SkipFrom(source, from + 1) else from
  }

  method SkipTrailingWhitespace(source: Bytes, from: nat) returns (pos: nat)
    requires from <= |source|
    ensures pos == SkipFrom(source, from)
  {
    pos := from;
    while pos < |source| && IsWhite(source[pos])
      invariant from <= pos <= |source| && SkipFrom(source, pos) == SkipFrom(source, from)
    {
      pos := pos + 1;
    }
  }

  function StripLeading(bytes: Bytes): Bytes {
    bytes[SkipFrom(bytes, 0)..]
  }

  // ----- the base, item by item

  function Key(items: seq<Item>, i: nat): ItemKey
    requires i < |items|
  {
    IdentityKey(items[i], i)
  }

  /** What becomes of a base item: new content, or nothing when it was deleted. */
  function Body(items: seq<Item>, resolutions: Resolutions, i: nat): Option<Bytes>
    requires i < |items|
  {
    if Key(items, i) in resolutions && !resolutions[Key(items, i)].change.Added? then
      ChangeContent(resolutions[Key(items, i)].change)
    else Some(items[i].content)
  }

  /** Result and cursor after the first `n` items. */
  function Walk(base: Bytes, items: seq<Item>, resolutions: Resolutions, n: nat): (r: (Bytes, nat))
    requires WellParsed(base, items) && n <= |items|
    ensures r.1 <= |base|
  {
    if n == 0 then ([], 0)
    else
      var (result, cursor) := Walk(base, items, resolutions, n - 1);
      var item := items[n - 1];
      var filled := if item.start > cursor then result + base[cursor..item.start] else result;
      match Body(items, resolutions, n - 1)
      case Some(content) => (filled + content, item.end)
      case None => (filled, SkipFrom(base, item.end))
  }

  /** The merged file before any addition. */
  function Core(base: Bytes, items: seq<Item>, resolutions: Resolutions): Bytes
    requires WellParsed(base, items)
  {
    var (result, cursor) := Walk(base, items, resolutions, |items|);
    result + base[cursor..]
  }

  method WalkBase(base: Bytes, items: seq<Item>, resolutions: Resolutions) returns (result: Bytes)
    requires WellParsed(base, items)
    ensures result == Core(base, items, resolutions)
  {
    result := [];
    var cursor := 0;
    for i := 0 to |items|
      invariant (result, cursor) == Walk(base, items, resolutions, i)
    {
      var item := items[i];
      var key := Key(items, i);
      if item.start > cursor { result := result + base[cursor..item.start]; }
      if key in resolutions {
        match resolutions[key].change {
          case Modified(_, _, variant) => result := result + variant.content;
          case Deleted(_, _) =>
            cursor := SkipTrailingWhitespace(base, item.end);
            continue;
          case Added(_, _) => result := result + item.content;
        }
      } else {
        result := result + item.content;
      }
      cursor := item.end;
    }
    if cursor < |base| { result := result + base[cursor..]; }
  }

  // ----- the core in closed form

  type Bodies = seq<Option<Bytes>>

  function BodiesOf(items: seq<Item>, resolutions: Resolutions): (r: Bodies)
    ensures |r| == |items| && forall i :: 0 <= i < |r| ==> r[i] == Body(items, resolutions, i)
  {
    seq(|items|, i requires 0 <= i < |items| => Body(items, resolutions, i))
  }

  /** A gap as it survives: after a deleted item without its leading white space. */
  function KeptGap(base: Bytes, items: seq<Item>, bodies: Bodies, i: nat): Bytes
    requires WellParsed(base, items) && |bodies| == |items| && i <= |items|
  {
    if i > 0 && bodies[i - 1].None? then StripLeading(Gap(base, items, i)) else Gap(base, items, i)
  }

  /** The first `n` gaps and items, each gap as it survives and each item as it was resolved. */
  function WovenTo(base: Bytes, items: seq<Item>, bodies: Bodies, n: nat): Bytes
    requires WellParsed(base, items) && |bodies| == |items| && n <= |items|
  {
    if n == 0 then []
    else
      WovenTo(base, items, bodies, n - 1) + KeptGap(base, items, bodies, n - 1)
      + if bodies[n - 1].Some? then bodies[n - 1].value else []
  }

  /** The base's gaps interleaved with one body per item; a deleted item takes the white space after it along. */
  function Woven(base: Bytes, items: seq<Item>, bodies: Bodies): Bytes
    requires WellParsed(base, items) && |bodies| == |items|
  {
    WovenTo(base, items, bodies, |items|) + KeptGap(base, items, bodies, |items|)
  }

  /** What is kept of a gap after a deleted item: everything from its first byte that is not white space. */
  lemma {:induction false} KeptGapExact(base: Bytes, items: seq<Item>, bodies: Bodies, i: nat)
    requires WellParsed(base, items) && |bodies| == |items| && i <= |items|
    ensures i == 0 || bodies[i - 1].Some? ==> KeptGap(base, items, bodies, i) == Gap(base, items, i)
    ensures i > 0 && bodies[i - 1].None? ==>
              exists n: nat ::
                && n <= |Gap(base, items, i)| && KeptGap(base, items, bodies, i) == Gap(base, items, i)[n..]
                && (forall k :: 0 <= k < n ==> Gap(base, items, i)[k] in {32, 9, 10, 13})
                && (n < |Gap(base, items, i)| ==> Gap(base, items, i)[n] !in {32, 9, 10, 13})
  {
    if i > 0 && bodies[i - 1].None? {
      var n := SkipFrom(Gap(base, items, i), 0);
      assert KeptGap(base, items, bodies, i) == Gap(base, items, i)[n..];
    }
  }

  lemma {:induction false} SkipInSlice(source: Bytes, from: nat, hi: nat, lo: nat)
    requires lo <= from <= hi <= |source|
    ensures SkipFrom(source[lo..hi], from - lo) + lo == if SkipFrom(source, from) < hi then SkipFrom(source, from) else hi
    decreases hi - from
  {
    if from < hi && IsWhite(source[from]) { SkipInSlice(source, from + 1, hi, lo); }
  }

  /** Copying up to `hi` from past the white space at `from` copies the stripped slice. */
  lemma {:induction false} SkippedSlice(source: Bytes, from: nat, hi: nat)
    requires from <= hi <= |source|
    ensures StripLeading(source[from..hi]) == if SkipFrom(source, from) < hi then source[SkipFrom(source, from)..hi] else []
  {
    SkipInSlice(source, from, hi, from);
    var n := SkipFrom(source[from..hi], 0);
    assert source[from..hi][n..] == source[from + n..hi];
  }

  function Cursor(base: Bytes, items: seq<Item>, bodies: Bodies, i: nat): nat
    requires WellParsed(base, items) && |bodies| == |items| && i <= |items|
  {
    if i > 0 && bodies[i - 1].None? then SkipFrom(base, items[i - 1].end) else EndBefore(items, i)
  }

  lemma {:induction false} GapFromCursor(base: Bytes, items: seq<Item>, bodies: Bodies, i: nat)
    requires WellParsed(base, items) && |bodies| == |items| && i <= |items|
    ensures var cursor, hi := Cursor(base, items, bodies, i), if i < |items| then items[i].start else |base|;
            KeptGap(base, items, bodies, i) == if cursor < hi then base[cursor..hi] else []
  {
    SkippedSlice(base, EndBefore(items, i), if i < |items| then items[i].start else |base|);
  }

  lemma {:induction false} WalkIsWoven(base: Bytes, items: seq<Item>, resolutions: Resolutions, n: nat)
    requires WellParsed(base, items) && n <= |items|
    ensures Walk(base, items, resolutions, n)
         == (WovenTo(base, items, BodiesOf(items, resolutions), n), Cursor(base, items, BodiesOf(items, resolutions), n))
  {
    if n > 0 {
      var bodies := BodiesOf(items, resolutions);
      WalkIsWoven(base, items, resolutions, n - 1);
      var before := WovenTo(base, items, bodies, n - 1);
      FillsGap(base, items, bodies, n - 1, before);
      WalkStep(base, items, resolutions, n, before + KeptGap(base, items, bodies, n - 1));
      WovenStepOf(base, items, bodies, n);
    }
  }

  lemma {:induction false} WovenStepOf(base: Bytes, items: seq<Item>, bodies: Bodies, n: nat)
    requires WellParsed(base, items) && |bodies| == |items| && 0 < n <= |items|
    ensures WovenTo(base, items, bodies, n)
         == (WovenTo(base, items, bodies, n - 1) + KeptGap(base, items, bodies, n - 1))
            + if bodies[n - 1].Some? then bodies[n - 1].value else []
    ensures Cursor(base, items, bodies, n)
         == if bodies[n - 1].Some? then items[n - 1].end else SkipFrom(base, items[n - 1].end)
  {
  }

  /** One step of the walk, given what it has filled in before its item. */
  lemma {:induction false} WalkStep(base: Bytes, items: seq<Item>, resolutions: Resolutions, n: nat, filled: Bytes)
    requires WellParsed(base, items) && 0 < n <= |items|
    requires var (result, cursor) := Walk(base, items, resolutions, n - 1);
             filled == if items[n - 1].start > cursor then result + base[cursor..items[n - 1].start] else result
    ensures var body := Body(items, resolutions, n - 1);
            Walk(base, items, resolutions, n)
            == if body.Some? then (filled + body.value, items[n - 1].end) else (filled, SkipFrom(base, items[n - 1].end))
  {
  }

  /** Copying from the cursor appends the gap as it survives; and so does appending a deleted body after it. */
  lemma {:induction false} FillsGap(base: Bytes, items: seq<Item>, bodies: Bodies, i: nat, before: Bytes)
    requires WellParsed(base, items) && |bodies| == |items| && i < |items|
    ensures var cursor, start := Cursor(base, items, bodies, i), items[i].start;
            (if start > cursor then before + base[cursor..start] else before) == before + KeptGap(base, items, bodies, i)
    ensures before + KeptGap(base, items, bodies, i) + [] == before + KeptGap(base, items, bodies, i)
  {
    GapFromCursor(base, items, bodies, i);
  }

  /** The core is the base with deleted items and the white space after each cut out and modified items replaced. */
  lemma {:induction false} CoreIsWoven(base: Bytes, items: seq<Item>, resolutions: Resolutions)
    requires WellParsed(base, items)
    ensures Core(base, items, resolutions) == Woven(base, items, BodiesOf(items, resolutions))
  {
    WalkIsWoven(base, items, resolutions, |items|);
    GapFromCursor(base, items, BodiesOf(items, resolutions), |items|);
  }

  function OwnBodies(items: seq<Item>): (r: Bodies)
    ensures |r| == |items| && forall i :: 0 <= i < |r| ==> r[i] == Some(items[i].content)
  {
    seq(|items|, i requires 0 <= i < |items| => Some(items[i].content))
  }

  lemma {:induction false} PrefixIsWoven(source: Bytes, items: seq<Item>, n: nat)
    requires WellParsed(source, items) && n <= |items|
    ensures WovenTo(source, items, OwnBodies(items), n) == source[..EndBefore(items, n)]
  {
    if n > 0 {
      PrefixIsWoven(source, items, n - 1);
      assert KeptGap(source, items, OwnBodies(items), n - 1) == Gap(source, items, n - 1);
      assert OwnBodies(items)[n - 1] == Some(source[items[n - 1].start..items[n - 1].end]);
      ThreeSlices(source, EndBefore(items, n - 1), items[n - 1].start, items[n - 1].end);
    }
  }

  lemma {:induction false} ThreeSlices(source: Bytes, lo: nat, mid: nat, hi: nat)
    requires lo <= mid <= hi <= |source|
    ensures source[..lo] + source[lo..mid] + source[mid..hi] == source[..hi]
  {
  }

  /** A file is its own gaps interleaved with its own items. */
  lemma {:induction false} SourceIsWoven(source: Bytes, items: seq<Item>)
    requires WellParsed(source, items)
    ensures Woven(source, items, OwnBodies(items)) == source
  {
    PrefixIsWoven(source, items, |items|);
    var lo := EndBefore(items, |items|);
    assert source[..lo] + source[lo..] == source;
  }

  // ----- additions

  type Addition = (WorkspaceId, Item)

  predicate IsUse(item: Item) {
    item.kind == "use_declaration" || item.kind == "extern_crate_declaration"
  }

  function AdditionKey(a: Addition): (WorkspaceId, nat) { (a.0, a.1.start) }

  predicate AdditionLe(a: (WorkspaceId, nat), b: (WorkspaceId, nat)) {
    if a.0 == b.0 then a.1 <= b.1 else StringLe(a.0, b.0)
  }

  function AdditionsAt(resolutions: Resolutions, keys: seq<ItemKey>): (r: seq<Addition>)
    requires forall k :: k in keys ==> k in resolutions
  {
    if keys == [] then []
    else
      var n := |keys| - 1;
      var front, c := AdditionsAt(resolutions, keys[..n]), resolutions[keys[n]];
      if c.change.Added? then front + [(c.ws, c.change.variant)] else front
  }

  /** The added items, gathered in key order and sorted by workspace and position. */
  ghost predicate AreAdditions(resolutions: Resolutions, additions: seq<Addition>) {
    exists keys :: SortedKeys(keys) && (forall k :: k in keys <==> k in resolutions)
                && additions == Sort(AdditionsAt(resolutions, keys), AdditionKey, AdditionLe)
  }

  ghost predicate SortedKeys(keys: seq<ItemKey>) {
    forall i, j :: 0 <= i < j < |keys| ==> KeyLe(keys[i], keys[j]) && keys[i] != keys[j]
  }

  method AddedResolutionItems(resolutions: Resolutions) returns (added: seq<Addition>)
    ensures AreAdditions(resolutions, added)
  {
    KeyOrder();
    var keys := Ordered(resolutions.Keys, KeyLe);
    added := [];
    for i := 0 to |keys|
      invariant added == AdditionsAt(resolutions, keys[..i])
    {
      assert keys[..i + 1][..i] == keys[..i];
      match resolutions[keys[i]].change {
        case Added(_, variant) => added := added + [(resolutions[keys[i]].ws, variant)];
        case _ =>
      }
    }
    assert keys[..|keys|] == keys && SortedKeys(keys);
    added := Sort(added, AdditionKey, AdditionLe);
  }

  /** The last use declaration of the base that was not deleted. */
  function LastSurvivingUse(items: seq<Item>, resolutions: Resolutions, n: nat): Option<Item>
    requires n <= |items|
  {
    if n == 0 then None
    else if IsUse(items[n - 1]) && Body(items, resolutions, n - 1).Some? then Some(items[n - 1])
    else LastSurvivingUse(items, resolutions, n - 1)
  }

  predicate OccursAt(bytes: Bytes, needle: Bytes, p: nat) {
    p + |needle| <= |bytes| && bytes[p..p + |needle|] == needle
  }

  /** The first occurrence of `needle` at or after `from`. */
  function FindFrom(bytes: Bytes, needle: Bytes, from: nat): (r: Option<nat>)
    requires from <= |bytes|
    ensures r.Some? ==> from <= r.value && OccursAt(bytes, needle, r.value)
    ensures forall p :: from <= p && OccursAt(bytes, needle, p) ==> r.Some? && r.value <= p
    decreases |bytes| - from
  {
    if OccursAt(bytes, needle, from) then Some(from)
    else if from == |bytes| then None
    else FindFrom(bytes, needle, from + 1)
  }

  function UseBlock(additions: seq<Addition>): Bytes {
    if additions == [] then []
    else
      var front, last := UseBlock(additions[..|additions| - 1]), additions[|additions| - 1];
      if IsUse(last.1) then front + [NEWLINE] + last.1.content else front
  }

  predicate AnyUse(additions: seq<Addition>) {
    exists a :: a in additions && IsUse(a.1)
  }

  /** Where the added use declarations go: right after the first occurrence of the anchor's content. */
  function InsertPosition(core: Bytes, items: seq<Item>, resolutions: Resolutions, additions: seq<Addition>): (r: Option<nat>)
    ensures r.Some? ==> r.value <= |core|
  {
    var anchor := LastSurvivingUse(items, resolutions, |items|);
    if anchor.None? || !AnyUse(additions) then None
    else
      var found := FindFrom(core, anchor.value.content, 0);
      if found.None? then None else Some(found.value + |anchor.value.content|)
  }

  function Spliced(core: Bytes, items: seq<Item>, resolutions: Resolutions, additions: seq<Addition>): Bytes {
    var at := InsertPosition(core, items, resolutions, additions);
    if at.None? then core else core[..at.value] + UseBlock(additions) + core[at.value..]
  }

  predicate EndsWith(bytes: Bytes, suffix: Bytes) {
    |suffix| <= |bytes| && bytes[|bytes| - |suffix|..] == suffix
  }

  /** The newlines that bring `bytes` to a blank line, if it is not empty. */
  function Separator(bytes: Bytes): Bytes {
    if bytes == [] || EndsWith(bytes, [NEWLINE, NEWLINE]) then []
    else if EndsWith(bytes, [NEWLINE]) then [NEWLINE]
    else [NEWLINE, NEWLINE]
  }

  function SourceOf(variants: seq<(WorkspaceId, Bytes)>, ws: WorkspaceId): Option<Bytes> {
    if variants == [] then None else if variants[0].0 == ws then Some(variants[0].1) else SourceOf(variants[1..], ws)
  }

  /** An added item as it is written out: its leading comments, its content, a newline. */
  function Written(variants: seq<(WorkspaceId, Bytes)>, trivia: Trivia, a: Addition): Bytes {
    var source := SourceOf(variants, a.0);
    (if source.Some? then trivia(source.value, a.1) else []) + a.1.content + [NEWLINE]
  }

  /** `result` with the additions appended one after the other, the use declarations left out when they are in already. */
  function Appended(variants: seq<(WorkspaceId, Bytes)>, trivia: Trivia, result: Bytes, additions: seq<Addition>, usesDone: bool): Bytes {
    if additions == [] then result
    else
      var front := Appended(variants, trivia, result, additions[..|additions| - 1], usesDone);
      var last := additions[|additions| - 1];
      if usesDone && IsUse(last.1) then front
      else front + Separator(front) + Written(variants, trivia, last)
  }

  function Rebuilt(base: Bytes, items: seq<Item>, resolutions: Resolutions, additions: seq<Addition>,
                   variants: seq<(WorkspaceId, Bytes)>, trivia: Trivia): Bytes
    requires WellParsed(base, items)
  {
    var core := Core(base, items, resolutions);
    Appended(variants, trivia, Spliced(core, items, resolutions, additions), additions,
             InsertPosition(core, items, resolutions, additions).Some?)
  }

  /** `out` is rebuilt with exactly the added resolutions as additions. */
  ghost predicate IsRebuilt(base: Bytes, items: seq<Item>, resolutions: Resolutions, variants: seq<(WorkspaceId, Bytes)>,
                            trivia: Trivia, out: Bytes)
    requires WellParsed(base, items)
  {
    exists additions ::
      AreAdditions(resolutions, additions) && out == Rebuilt(base, items, resolutions, additions, variants, trivia)
  }

  // ----- the algorithm

  method FindLastSurvivingUse(items: seq<Item>, resolutions: Resolutions) returns (anchor: Option<Item>)
    ensures anchor == LastSurvivingUse(items, resolutions, |items|)
  {
    for i := |items| downto 0
      invariant LastSurvivingUse(items, resolutions, i) == LastSurvivingUse(items, resolutions, |items|)
    {
      var key := Key(items, i);
      if IsUse(items[i]) && (key !in resolutions || !resolutions[key].change.Deleted?) { return Some(items[i]); }
    }
    return None;
  }

  lemma {:induction false} OneMoreUse(additions: seq<Addition>, i: nat)
    requires i < |additions|
    ensures AnyUse(additions[..i + 1]) == (AnyUse(additions[..i]) || IsUse(additions[i].1))
    ensures UseBlock(additions[..i + 1])
         == if IsUse(additions[i].1) then UseBlock(additions[..i]) + [NEWLINE] + additions[i].1.content else UseBlock(additions[..i])
  {
    assert additions[..i + 1] == additions[..i] + [additions[i]];
    assert additions[..i + 1][..i] == additions[..i];
  }

  method CollectUses(additions: seq<Addition>) returns (found: bool, block: Bytes, inserted: set<nat>)
    ensures found == AnyUse(additions)
    ensures block == UseBlock(additions)
    ensures inserted == set i | 0 <= i < |additions| && IsUse(additions[i].1)
  {
    found, block, inserted := false, [], {};
    for i := 0 to |additions|
      invariant found == AnyUse(additions[..i])
      invariant block == UseBlock(additions[..i])
      invariant inserted == set k | 0 <= k < i && IsUse(additions[k].1)
    {
      OneMoreUse(additions, i);
      if IsUse(additions[i].1) {
        found := true;
        block := block + [NEWLINE] + additions[i].1.content;
        inserted := inserted + {i};
      }
    }
    assert additions[..|additions|] == additions;
  }

  lemma {:induction false} LastBytes(bytes: Bytes)
    ensures EndsWith(bytes, [NEWLINE]) <==> |bytes| >= 1 && bytes[|bytes| - 1] == NEWLINE
    ensures EndsWith(bytes, [NEWLINE, NEWLINE])
            <==> |bytes| >= 2 && bytes[|bytes| - 2] == NEWLINE && bytes[|bytes| - 1] == NEWLINE
  {
    if |bytes| >= 1 { assert bytes[|bytes| - 1..] == [bytes[|bytes| - 1]]; }
    if |bytes| >= 2 { assert bytes[|bytes| - 2..] == [bytes[|bytes| - 2], bytes[|bytes| - 1]]; }
  }

  /** Pushing a newline unless there is one, and another unless there are two, is appending the separator. */
  lemma {:induction false} TwoNewlines(before: Bytes)
    ensures var once := if before != [] && !EndsWith(before, [NEWLINE]) then before + [NEWLINE] else before;
            before + Separator(before)
            == if once != [] && !EndsWith(once, [NEWLINE, NEWLINE]) then once + [NEWLINE] else once
  {
    LastBytes(before);
    LastBytes(before + [NEWLINE]);
    assert before + [] == before && before + [NEWLINE] + [NEWLINE] == before + [NEWLINE, NEWLINE];
  }

  method AppendAddition(before: Bytes, variants: seq<(WorkspaceId, Bytes)>, trivia: Trivia, a: Addition) returns (result: Bytes)
    ensures result == before + Separator(before) + Written(variants, trivia, a)
  {
    result := PushSeparator(before);
    var source := SourceOf(variants, a.0);
    Regroup3(result, if source.Some? then trivia(source.value, a.1) else [], a.1.content);
    if source.Some? { result := result + trivia(source.value, a.1); }
    result := result + a.1.content;
    result := result + [NEWLINE];
  }

  lemma {:induction false} Regroup3(before: Bytes, comments: Bytes, content: Bytes)
    ensures ((before + comments) + content) + [NEWLINE] == before + ((comments + content) + [NEWLINE])
    ensures before + [] == before
  {
  }

  method PushSeparator(before: Bytes) returns (result: Bytes)
    ensures result == before + Separator(before)
  {
    result := before;
    if result != [] && !EndsWith(result, [NEWLINE]) { result := result + [NEWLINE]; }
    if result != [] && !EndsWith(result, [NEWLINE, NEWLINE]) { result := result + [NEWLINE]; }
    TwoNewlines(before);
  }

  /** The added use declarations, spliced in behind their anchor when there is one. */
  method SpliceUses(core: Bytes, items: seq<Item>, resolutions: Resolutions, additions: seq<Addition>)
    returns (result: Bytes, inserted: set<nat>)
    ensures result == Spliced(core, items, resolutions, additions)
    ensures forall i :: 0 <= i < |additions| ==>
              (i in inserted <==> InsertPosition(core, items, resolutions, additions).Some? && IsUse(additions[i].1))
  {
    result, inserted := core, {};
    var anchor := FindLastSurvivingUse(items, resolutions);
    if anchor.None? { return; }
    var found, block, uses := CollectUses(additions);
    if !found { return; }
    var start := FindFrom(core, anchor.value.content, 0);
    if start.None? { return; }
    var pos := start.value + |anchor.value.content|;
    assert InsertPosition(core, items, resolutions, additions) == Some(pos);
    return core[..pos] + block + core[pos..], uses;
  }

  method ReconstructMergedFile(base: Bytes, items: seq<Item>, resolutions: Resolutions,
                               variants: seq<(WorkspaceId, Bytes)>, trivia: Trivia)
    returns (result: Bytes)
    requires WellParsed(base, items)
    ensures IsRebuilt(base, items, resolutions, variants, trivia, result)
  {
    result := WalkBase(base, items, resolutions);
    var added := AddedResolutionItems(resolutions);
    ghost var usesDone := InsertPosition(result, items, resolutions, added).Some?;
    var inserted;
    result, inserted := SpliceUses(result, items, resolutions, added);
    result := AppendRest(result, added, inserted, usesDone, variants, trivia);
  }

  /** Everything that has not gone in with the use declarations is appended at the end. */
  method AppendRest(spliced: Bytes, additions: seq<Addition>, inserted: set<nat>, ghost usesDone: bool,
                    variants: seq<(WorkspaceId, Bytes)>, trivia: Trivia)
    returns (result: Bytes)
    requires forall i :: 0 <= i < |additions| ==> (i in inserted <==> usesDone && IsUse(additions[i].1))
    ensures result == Appended(variants, trivia, spliced, additions, usesDone)
  {
    result := spliced;
    for i := 0 to |additions|
      invariant result == Appended(variants, trivia, spliced, additions[..i], usesDone)
    {
      assert additions[..i + 1][..i] == additions[..i];
      if i !in inserted { result := AppendAddition(result, variants, trivia, additions[i]); }
    }
    assert additions[..|additions|] == additions;
  }

  // ----- what a rebuilt file consists of

  /** The additions appended at the end: all of them, or those that are not use declarations. */
  function AtEnd(additions: seq<Addition>, usesDone: bool): seq<Addition> {
    if additions == [] then []
    else
      var front, last := AtEnd(additions[..|additions| - 1], usesDone), additions[|additions| - 1];
      if usesDone && IsUse(last.1) then front else front + [last]
  }

  function Uses(additions: seq<Addition>): seq<Addition> {
    if additions == [] then []
    else
      var front, last := Uses(additions[..|additions| - 1]), additions[|additions| - 1];
      if IsUse(last.1) then front + [last] else front
  }

  /** Separator and text of each appended addition in turn. */
  function Tail(separators: seq<Bytes>, appended: seq<Addition>, variants: seq<(WorkspaceId, Bytes)>, trivia: Trivia): Bytes
    requires |separators| == |appended|
  {
    if appended == [] then []
    else
      var n := |appended| - 1;
      Tail(separators[..n], appended[..n], variants, trivia) + separators[n] + Written(variants, trivia, appended[n])
  }

  function WrittenUses(additions: seq<Addition>): Bytes {
    if additions == [] then []
    else WrittenUses(additions[..|additions| - 1]) + [NEWLINE] + additions[|additions| - 1].1.content
  }

  /** Separator `k` is at most two newlines, and just enough to leave a blank line in front of what follows it. */
  ghost predicate SeparatesAt(before: Bytes, separators: seq<Bytes>, appended: seq<Addition>,
                              variants: seq<(WorkspaceId, Bytes)>, trivia: Trivia, k: nat)
    requires |separators| == |appended| && k < |separators|
  {
    var written := before + Tail(separators[..k], appended[..k], variants, trivia);
    && separators[k] in [[], [NEWLINE], [NEWLINE, NEWLINE]]
    && BlankLineEnds(written + separators[k])
    && (separators[k] != [] ==> !BlankLineEnds(written + separators[k][1..]))
  }

  ghost predicate SeparatesFrom(before: Bytes, separators: seq<Bytes>, appended: seq<Addition>,
                                variants: seq<(WorkspaceId, Bytes)>, trivia: Trivia)
  {
    && |separators| == |appended|
    && forall k :: 0 <= k < |separators| ==> SeparatesAt(before, separators, appended, variants, trivia, k)
  }

  predicate BlankLineEnds(bytes: Bytes) {
    bytes == [] || EndsWith(bytes, [NEWLINE, NEWLINE])
  }

  lemma {:induction false} SeparatorWorks(bytes: Bytes)
    ensures Separator(bytes) in [[], [NEWLINE], [NEWLINE, NEWLINE]] && BlankLineEnds(bytes + Separator(bytes))
    ensures Separator(bytes) != [] ==> !BlankLineEnds(bytes + Separator(bytes)[1..])
  {
    LastBytes(bytes);
    LastBytes(bytes + [NEWLINE]);
    assert [NEWLINE][1..] == [] && [NEWLINE, NEWLINE][1..] == [NEWLINE];
    if EndsWith(bytes, [NEWLINE]) && !EndsWith(bytes, [NEWLINE, NEWLINE]) {
      assert bytes[|bytes| - 1..][0] == NEWLINE;
      assert (bytes + [NEWLINE])[|bytes| - 1..] == [NEWLINE, NEWLINE];
    }
    assert bytes + [] == bytes;
  }

  lemma {:induction false} AppendedIsTail(variants: seq<(WorkspaceId, Bytes)>, trivia: Trivia, result: Bytes,
        additions: seq<Addition>, usesDone: bool)
    returns (separators: seq<Bytes>)
    ensures SeparatesFrom(result, separators, AtEnd(additions, usesDone), variants, trivia)
    ensures Appended(variants, trivia, result, additions, usesDone)
         == result + Tail(separators, AtEnd(additions, usesDone), variants, trivia)
  {
    if additions == [] {
      separators := [];
    } else {
      var n := |additions| - 1;
      var front := AppendedIsTail(variants, trivia, result, additions[..n], usesDone);
      if usesDone && IsUse(additions[n].1) {
        separators := front;
      } else {
        separators := OneMoreAppended(variants, trivia, result, AtEnd(additions[..n], usesDone), front, additions[n]);
      }
    }
  }

  lemma {:induction false} OneMoreAppended(variants: seq<(WorkspaceId, Bytes)>, trivia: Trivia, result: Bytes,
        appended: seq<Addition>,
        front: seq<Bytes>, last: Addition)
    returns (separators: seq<Bytes>)
    requires SeparatesFrom(result, front, appended, variants, trivia)
    ensures SeparatesFrom(result, separators, appended + [last], variants, trivia)
    ensures var before := result + Tail(front, appended, variants, trivia);
            result + Tail(separators, appended + [last], variants, trivia)
            == before + Separator(before) + Written(variants, trivia, last)
  {
    var before := result + Tail(front, appended, variants, trivia);
    separators := front + [Separator(before)];
    var all := appended + [last];
    forall k | 0 <= k < |separators| ensures SeparatesAt(result, separators, all, variants, trivia, k) {
      if k < |front| {
        StillSeparates(variants, trivia, result, appended, front, last, Separator(before), k);
      } else {
        LastSeparates(variants, trivia, result, appended, front, last);
      }
    }
    assert all[..|appended|] == appended && separators[..|front|] == front;
    Regroup(result, Tail(front, appended, variants, trivia), Separator(before), Written(variants, trivia, last));
  }

  lemma {:induction false} Regroup(a: Bytes, b: Bytes, c: Bytes, d: Bytes)
    ensures a + ((b + c) + d) == ((a + b) + c) + d
  {
  }

  lemma {:induction false} StillSeparates(variants: seq<(WorkspaceId, Bytes)>, trivia: Trivia, result: Bytes,
        appended: seq<Addition>,
        front: seq<Bytes>, last: Addition, separator: Bytes, k: nat)
    requires |front| == |appended| && k < |front| && SeparatesAt(result, front, appended, variants, trivia, k)
    ensures SeparatesAt(result, front + [separator], appended + [last], variants, trivia, k)
  {
    assert (front + [separator])[..k] == front[..k] && (appended + [last])[..k] == appended[..k];
  }

  lemma {:induction false} LastSeparates(variants: seq<(WorkspaceId, Bytes)>, trivia: Trivia, result: Bytes,
        appended: seq<Addition>,
        front: seq<Bytes>, last: Addition)
    requires |front| == |appended|
    ensures SeparatesAt(result, front + [Separator(result + Tail(front, appended, variants, trivia))], appended + [last],
                        variants, trivia, |front|)
  {
    var before := result + Tail(front, appended, variants, trivia);
    SeparatorWorks(before);
    assert (front + [Separator(before)])[..|front|] == front && (appended + [last])[..|front|] == appended;
  }

  lemma {:induction false} UseBlockIsUses(additions: seq<Addition>)
    ensures UseBlock(additions) == WrittenUses(Uses(additions))
    ensures multiset(Uses(additions)) + multiset(AtEnd(additions, true)) == multiset(additions)
    ensures AtEnd(additions, false) == additions
  {
    if additions != [] {
      var n := |additions| - 1;
      var front, last := additions[..n], additions[n];
      UseBlockIsUses(front);
      assert additions == front + [last];
      if IsUse(last.1) { OneMoreWritten(Uses(front), last); }
      OneMoreSplit(front, Uses(front), AtEnd(front, true), last);
    }
  }

  lemma {:induction false} OneMoreWritten(uses: seq<Addition>, last: Addition)
    ensures WrittenUses(uses + [last]) == WrittenUses(uses) + [NEWLINE] + last.1.content
  {
    assert (uses + [last])[..|uses|] == uses;
  }

  lemma {:induction false} OneMoreSplit(all: seq<Addition>, a: seq<Addition>, b: seq<Addition>, last: Addition)
    requires multiset(a) + multiset(b) == multiset(all)
    ensures multiset(a + [last]) + multiset(b) == multiset(all + [last])
    ensures multiset(a) + multiset(b + [last]) == multiset(all + [last])
  {
  }

  // ----- where the added use declarations go

  /** Base item `j` is the last use declaration among the first `n` items that is still there. */
  ghost predicate IsAnchorBefore(items: seq<Item>, bodies: Bodies, n: nat, j: nat)
    requires |bodies| == |items| && n <= |items|
  {
    && j < n && IsUse(items[j]) && bodies[j].Some?
    && forall k :: j < k < n ==> !(IsUse(items[k]) && bodies[k].Some?)
  }

  ghost predicate IsAnchor(items: seq<Item>, bodies: Bodies, j: nat)
    requires |bodies| == |items|
  {
    IsAnchorBefore(items, bodies, |items|, j)
  }

  ghost predicate FirstAt(bytes: Bytes, needle: Bytes, p: nat) {
    OccursAt(bytes, needle, p) && forall q: nat :: OccursAt(bytes, needle, q) ==> p <= q
  }

  /** `at` is the end of the first occurrence of the anchor's base content, if there are uses to add and it occurs at all. */
  ghost predicate IsUsePosition(core: Bytes, items: seq<Item>, bodies: Bodies, additions: seq<Addition>, at: Option<nat>)
    requires |bodies| == |items|
  {
    if at.Some? then
      && AnyUse(additions)
      && exists j: nat, p: nat :: IsAnchor(items, bodies, j) && FirstAt(core, items[j].content, p) && at.value == p + |items[j].content|
    else
      AnyUse(additions) ==> forall j: nat, p: nat :: IsAnchor(items, bodies, j) ==> !OccursAt(core, items[j].content, p)
  }

  lemma {:induction false} AnchorIsLast(items: seq<Item>, resolutions: Resolutions, n: nat)
    requires n <= |items|
    ensures forall j: nat :: IsAnchorBefore(items, BodiesOf(items, resolutions), n, j) ==>
              LastSurvivingUse(items, resolutions, n) == Some(items[j])
    ensures LastSurvivingUse(items, resolutions, n).Some? ==>
              exists j: nat :: IsAnchorBefore(items, BodiesOf(items, resolutions), n, j)
  {
    if n > 0 {
      var bodies := BodiesOf(items, resolutions);
      AnchorIsLast(items, resolutions, n - 1);
      if IsUse(items[n - 1]) && bodies[n - 1].Some? {
        assert IsAnchorBefore(items, bodies, n, n - 1);
      } else {
        forall j: nat ensures IsAnchorBefore(items, bodies, n, j) <==> IsAnchorBefore(items, bodies, n - 1, j) {
        }
        if LastSurvivingUse(items, resolutions, n).Some? {
          var j: nat :| IsAnchorBefore(items, bodies, n - 1, j);
          assert IsAnchorBefore(items, bodies, n, j);
        }
      }
    }
  }

  lemma {:induction false} FoundIsUsePosition(core: Bytes, items: seq<Item>, resolutions: Resolutions, additions: seq<Addition>)
    ensures IsUsePosition(core, items, BodiesOf(items, resolutions), additions, InsertPosition(core, items, resolutions, additions))
  {
    AnchorIsLast(items, resolutions, |items|);
    var bodies, at := BodiesOf(items, resolutions), InsertPosition(core, items, resolutions, additions);
    if at.Some? {
      var j: nat :| IsAnchorBefore(items, bodies, |items|, j);
      assert IsAnchor(items, bodies, j);
      var p := FindFrom(core, items[j].content, 0).value;
      assert FirstAt(core, items[j].content, p);
    }
  }

  /** What follows the first `m` gaps and items among the first `n`. */
  lemma {:induction false} WovenSplits(base: Bytes, items: seq<Item>, bodies: Bodies, m: nat, n: nat) returns (rest: Bytes)
    requires WellParsed(base, items) && |bodies| == |items| && m <= n <= |items|
    ensures WovenTo(base, items, bodies, n) == WovenTo(base, items, bodies, m) + rest
  {
    if m == n {
      rest := [];
    } else {
      var front := WovenSplits(base, items, bodies, m, n - 1);
      var gap, body := KeptGap(base, items, bodies, n - 1), if bodies[n - 1].Some? then bodies[n - 1].value else [];
      rest := front + gap + body;
      Regroup4(WovenTo(base, items, bodies, m), front, gap, body);
    }
  }

  lemma {:induction false} Regroup4(a: Bytes, b: Bytes, c: Bytes, d: Bytes)
    ensures ((a + b) + c) + d == a + ((b + c) + d)
  {
  }

  /** Where the body of item `j` starts in the core. */
  function BodyStart(base: Bytes, items: seq<Item>, bodies: Bodies, j: nat): nat
    requires WellParsed(base, items) && |bodies| == |items| && j < |items|
  {
    |WovenTo(base, items, bodies, j) + KeptGap(base, items, bodies, j)|
  }

  lemma {:induction false} SplitOccurs(before: Bytes, needle: Bytes, rest: Bytes, end: Bytes)
    ensures var all := ((before + needle) + rest) + end;
            OccursAt(all, needle, |before|) && all[..|before| + |needle|] == before + needle
  {
  }

  /** A body occurs in the core, where the woven prefix that ends with it says. */
  lemma {:induction false} BodyOccurs(base: Bytes, items: seq<Item>, bodies: Bodies, j: nat)
    requires WellParsed(base, items) && |bodies| == |items| && j < |items| && bodies[j].Some?
    ensures var core, start := Woven(base, items, bodies), BodyStart(base, items, bodies, j);
            && OccursAt(core, bodies[j].value, start)
            && core[..start + |bodies[j].value|] == WovenTo(base, items, bodies, j + 1)
  {
    var rest := WovenSplits(base, items, bodies, j + 1, |items|);
    SplitOccurs(WovenTo(base, items, bodies, j) + KeptGap(base, items, bodies, j), bodies[j].value, rest,
                KeptGap(base, items, bodies, |items|));
  }

  /**
   * Behind a last surviving use that nobody modified, the added uses always find a place, never later than the end of
   * that use; and it is that end, so that the file reads on from there, exactly when its bytes occur nowhere before it.
   */
  lemma {:induction false} UsesGoBehindAnchorIff(base: Bytes, items: seq<Item>, bodies: Bodies, additions: seq<Addition>,
        at: Option<nat>, j: nat)
    requires WellParsed(base, items) && |bodies| == |items|
    requires IsUsePosition(Woven(base, items, bodies), items, bodies, additions, at)
    requires AnyUse(additions) && IsAnchor(items, bodies, j) && bodies[j] == Some(items[j].content)
    ensures at.Some? && at.value <= |WovenTo(base, items, bodies, j + 1)| <= |Woven(base, items, bodies)|
    ensures Woven(base, items, bodies)[..at.value] == WovenTo(base, items, bodies, j + 1)
            <==> forall q: nat :: q < BodyStart(base, items, bodies, j) ==> !OccursAt(Woven(base, items, bodies), items[j].content, q)
  {
    BodyOccurs(base, items, bodies, j);
    assert |WovenTo(base, items, bodies, j + 1)| == BodyStart(base, items, bodies, j) + |items[j].content|;
    AnchorUnique(items, bodies, j);
  }

  lemma {:induction false} AnchorUnique(items: seq<Item>, bodies: Bodies, j: nat)
    requires |bodies| == |items| && IsAnchor(items, bodies, j)
    ensures forall k: nat :: IsAnchor(items, bodies, k) ==> k == j
  {
  }

  // ----- the rebuilt file

  /**
   * `out` is `core` with every addition written exactly once: the use declarations together at `at`, when there is one;
   * the others at the end, each after a blank line.
   */
  ghost predicate WithAdditions(core: Bytes, items: seq<Item>, bodies: Bodies, additions: seq<Addition>,
                                variants: seq<(WorkspaceId, Bytes)>, trivia: Trivia, at: Option<nat>, separators: seq<Bytes>, out: Bytes)
    requires |bodies| == |items|
  {
    var appended := AtEnd(additions, at.Some?);
    && IsUsePosition(core, items, bodies, additions, at)
    && (at.Some? ==> at.value <= |core|)
    && multiset(appended) + (if at.Some? then multiset(Uses(additions)) else multiset{}) == multiset(additions)
    && var spliced := if at.None? then core else core[..at.value] + WrittenUses(Uses(additions)) + core[at.value..];
       && SeparatesFrom(spliced, separators, appended, variants, trivia)
       && out == spliced + Tail(separators, appended, variants, trivia)
  }

  /** The core is the base with deleted items and the white space after each cut out, and modified items replaced. */
  ghost predicate IsAssembled(base: Bytes, items: seq<Item>, bodies: Bodies, additions: seq<Addition>, variants: seq<(WorkspaceId, Bytes)>,
                              trivia: Trivia, at: Option<nat>, separators: seq<Bytes>, out: Bytes)
    requires WellParsed(base, items) && |bodies| == |items|
  {
    WithAdditions(Woven(base, items, bodies), items, bodies, additions, variants, trivia, at, separators, out)
  }

  /** A rebuilt file is assembled from the resolved bodies and the additions. */
  lemma {:induction false} RebuiltConserves(base: Bytes, items: seq<Item>, resolutions: Resolutions,
        additions: seq<Addition>, variants: seq<(WorkspaceId, Bytes)>, trivia: Trivia)
    returns (at: Option<nat>, separators: seq<Bytes>)
    requires WellParsed(base, items)
    ensures IsAssembled(base, items, BodiesOf(items, resolutions), additions, variants, trivia, at, separators,
                        Rebuilt(base, items, resolutions, additions, variants, trivia))
  {
    CoreIsWoven(base, items, resolutions);
    UseBlockIsUses(additions);
    var core := Core(base, items, resolutions);
    at := InsertPosition(core, items, resolutions, additions);
    FoundIsUsePosition(core, items, resolutions, additions);
    separators := AppendedIsTail(variants, trivia, Spliced(core, items, resolutions, additions), additions, at.Some?);
  }

  // ----- the additions are the added resolutions

  predicate AddedAs(resolutions: Resolutions, key: ItemKey, a: Addition) {
    key in resolutions && resolutions[key].change.Added? && (resolutions[key].ws, resolutions[key].change.variant) == a
  }

  lemma {:induction false} CountAdditions(resolutions: Resolutions, keys: seq<ItemKey>, a: Addition)
    requires Distinct(keys) && forall k :: k in keys ==> k in resolutions
    ensures multiset(AdditionsAt(resolutions, keys))[a] == |set k | k in keys && AddedAs(resolutions, k, a)|
  {
    if keys != [] {
      var n := |keys| - 1;
      CountAdditions(resolutions, keys[..n], a);
      OneMoreAddition(resolutions, keys, a);
      OneMoreAdded(resolutions, keys, a);
    }
  }

  lemma {:induction false} OneMoreAddition(resolutions: Resolutions, keys: seq<ItemKey>, a: Addition)
    requires keys != [] && forall k :: k in keys ==> k in resolutions
    ensures var n := |keys| - 1;
            multiset(AdditionsAt(resolutions, keys))[a]
            == multiset(AdditionsAt(resolutions, keys[..n]))[a] + if AddedAs(resolutions, keys[n], a) then 1 else 0
  {
  }

  lemma {:induction false} OneMoreAdded(resolutions: Resolutions, keys: seq<ItemKey>, a: Addition)
    requires keys != [] && Distinct(keys)
    ensures var n := |keys| - 1;
            |set k | k in keys && AddedAs(resolutions, k, a)|
            == |set k | k in keys[..n] && AddedAs(resolutions, k, a)| + if AddedAs(resolutions, keys[n], a) then 1 else 0
  {
    var n := |keys| - 1;
    assert keys == keys[..n] + [keys[n]];
    var before, after := set k | k in keys[..n] && AddedAs(resolutions, k, a), set k | k in keys && AddedAs(resolutions, k, a);
    assert after == if AddedAs(resolutions, keys[n], a) then before + {keys[n]} else before;
    assert keys[n] !in before;
  }

  lemma {:induction false} AdditionOrder()
    ensures TotalOrder(AdditionLe)
  {
    StringOrder();
  }

  /** What is written for an addition: the comments that its own workspace's file has in front of it, its text, a newline. */
  lemma {:induction false} WrittenExact(variants: seq<(WorkspaceId, Bytes)>, trivia: Trivia, a: Addition)
    ensures forall v :: 0 <= v < |variants| && variants[v].0 == a.0 && (forall u :: 0 <= u < v ==> variants[u].0 != a.0) ==>
              Written(variants, trivia, a) == trivia(variants[v].1, a.1) + a.1.content + [NEWLINE]
    ensures (forall v :: 0 <= v < |variants| ==> variants[v].0 != a.0) ==> Written(variants, trivia, a) == a.1.content + [NEWLINE]
  {
    SourceExact(variants, a.0);
    assert [] + a.1.content == a.1.content;
  }

  lemma {:induction false} SourceExact(variants: seq<(WorkspaceId, Bytes)>, ws: WorkspaceId)
    ensures forall v :: 0 <= v < |variants| && variants[v].0 == ws && (forall u :: 0 <= u < v ==> variants[u].0 != ws) ==>
              SourceOf(variants, ws) == Some(variants[v].1)
    ensures (forall v :: 0 <= v < |variants| ==> variants[v].0 != ws) ==> SourceOf(variants, ws) == None
  {
    if variants != [] {
      SourceExact(variants[1..], ws);
      assert forall v :: 0 < v < |variants| ==> variants[1..][v - 1] == variants[v];
    }
  }

  /** One addition per key resolved as added, in order of workspace and then of position in its file. */
  lemma {:induction false} AdditionsExact(resolutions: Resolutions, additions: seq<Addition>, a: Addition)
    requires AreAdditions(resolutions, additions)
    ensures multiset(additions)[a] == |set k | k in resolutions && AddedAs(resolutions, k, a)|
    ensures SortedBy(additions, AdditionKey, AdditionLe)
    ensures forall i, j :: 0 <= i < j < |additions| ==>
              if additions[i].0 == additions[j].0 then additions[i].1.start <= additions[j].1.start
              else StringLe(additions[i].0, additions[j].0)
  {
    var keys :| SortedKeys(keys) && (forall k :: k in keys <==> k in resolutions)
             && additions == Sort(AdditionsAt(resolutions, keys), AdditionKey, AdditionLe);
    CountAdditions(resolutions, keys, a);
    assert (set k | k in keys && AddedAs(resolutions, k, a)) == set k | k in resolutions && AddedAs(resolutions, k, a);
    AdditionOrder();
    SortSorts(AdditionsAt(resolutions, keys), AdditionKey, AdditionLe);
  }
}

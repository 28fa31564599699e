/** Moving the blocks of a variant back towards base order before a second diff3 (resolve.rs). */
module ShiftedBlocks {
  import opened Prelude
  import opened Blocks

  // ----- anchors

  /** A block without its trailing white space. */
  function Signature(block: string): string {
    if block != "" && IsSpace(block[|block| - 1]) then Signature(block[..|block| - 1]) else block
  }

  /** The signature is the block up to its last character that is not white space. */
  lemma {:induction false} SignatureExact(block: string)
    ensures |Signature(block)| <= |block| && Signature(block) == block[..|Signature(block)|]
    ensures forall i :: |Signature(block)| <= i < |block| ==> IsSpace(block[i])
    ensures Signature(block) != "" ==> !IsSpace(block[|Signature(block)| - 1])
  {
    if block != "" && IsSpace(block[|block| - 1]) {
      var front := block[..|block| - 1];
      SignatureExact(front);
      var n := |Signature(front)|;
      assert Signature(block) == Signature(front) && front[..n] == block[..n];
      assert forall i :: 0 <= i < |front| ==> front[i] == block[i];
    } else {
      assert block[..|block|] == block;
    }
  }

  function PositionsOf(blocks: seq<string>, signature: string): (r: seq<nat>) {
    if blocks == [] then []
    else
      var n := |blocks| - 1;
      var front := PositionsOf(blocks[..n], signature);
      if Signature(blocks[n]) == signature then front + [n] else front
  }

  lemma {:induction false} PositionsExact(blocks: seq<string>, signature: string)
    ensures forall i :: i in PositionsOf(blocks, signature) <==> 0 <= i < |blocks| && Signature(blocks[i]) == signature
  {
    if blocks != [] { PositionsExact(blocks[..|blocks| - 1], signature); }
  }

  /** The base position of a block whose signature is unique on both sides. */
  function AnchorOf(base: seq<string>, blocks: seq<string>, i: nat): Option<nat>
    requires i < |blocks|
  {
    var signature := Signature(blocks[i]);
    var there := PositionsOf(base, signature);
    if |there| == 1 && |PositionsOf(blocks, signature)| == 1 then Some(there[0]) else None
  }

  type Anchors = seq<Option<nat>>

  function AnchorsOf(base: seq<string>, blocks: seq<string>): (r: Anchors)
    ensures |r| == |blocks| && forall i :: 0 <= i < |r| ==> r[i] == AnchorOf(base, blocks, i)
  {
    seq(|blocks|, i requires 0 <= i < |blocks| => AnchorOf(base, blocks, i))
  }

  ghost predicate DistinctAnchors(anchors: Anchors) {
    forall i, j :: 0 <= i < j < |anchors| && anchors[i].Some? ==> anchors[i] != anchors[j]
  }

  ghost predicate AscendingAnchors(anchors: Anchors) {
    forall i, j :: 0 <= i < j < |anchors| && anchors[i].Some? && anchors[j].Some? ==> anchors[i].value < anchors[j].value
  }

  /** An anchored block is the only one with its signature on either side. */
  lemma {:induction false} AnchorExact(base: seq<string>, blocks: seq<string>, i: nat)
    requires i < |blocks| && AnchorOf(base, blocks, i).Some?
    ensures var a := AnchorOf(base, blocks, i).value;
            && a < |base| && Signature(base[a]) == Signature(blocks[i])
            && (forall k :: 0 <= k < |base| && Signature(base[k]) == Signature(blocks[i]) ==> k == a)
            && (forall k :: 0 <= k < |blocks| && Signature(blocks[k]) == Signature(blocks[i]) ==> k == i)
  {
    var there, here := PositionsOf(base, Signature(blocks[i])), PositionsOf(blocks, Signature(blocks[i]));
    PositionsExact(base, Signature(blocks[i]));
    PositionsExact(blocks, Signature(blocks[i]));
    assert there[0] in there && i in here && here == [i];
    assert forall k :: k in there ==> k == there[0];
  }

  lemma {:induction false} AnchorsAreDistinct(base: seq<string>, blocks: seq<string>)
    ensures DistinctAnchors(AnchorsOf(base, blocks))
  {
    forall i | 0 <= i < |blocks| && AnchorOf(base, blocks, i).Some?
      ensures forall k :: 0 <= k < |blocks| && k != i ==> AnchorOf(base, blocks, k) != AnchorOf(base, blocks, i)
    {
      AnchorExact(base, blocks, i);
      forall k | 0 <= k < |blocks| && k != i ensures AnchorOf(base, blocks, k) != AnchorOf(base, blocks, i) {
        if AnchorOf(base, blocks, k).Some? { AnchorExact(base, blocks, k); }
      }
    }
  }

  predicate AnyMoved(anchors: Anchors) {
    exists i | 0 <= i < |anchors| :: anchors[i].Some? && anchors[i].value != i
  }

  // ----- ranks

  /** The last anchor at or before position `i`. */
  function Previous(anchors: Anchors, i: nat): Option<nat>
    requires i < |anchors|
  {
    if anchors[i].Some? || i == 0 then anchors[i] else Previous(anchors, i - 1)
  }

  /** The first anchor at or after position `i`. */
  function Next(anchors: Anchors, i: nat): Option<nat>
    requires i < |anchors|
    decreases |anchors| - i
  {
    if anchors[i].Some? || i + 1 == |anchors| then anchors[i] else Next(anchors, i + 1)
  }

  function Rank(anchors: Anchors, baseCount: nat, i: nat): nat
    requires i < |anchors|
  {
    if anchors[i].Some? then anchors[i].value * 4 + 2
    else if Previous(anchors, i).Some? then Previous(anchors, i).value * 4 + 3
    else if Next(anchors, i).Some? then Next(anchors, i).value * 4 + 1
    else baseCount * 4 + i
  }

  datatype Ranked = Ranked(rank: nat, idx: nat, block: string)

  function RankKey(r: Ranked): (nat, nat) { (r.rank, r.idx) }

  predicate RankLe(a: (nat, nat), b: (nat, nat)) {
    a.0 < b.0 || (a.0 == b.0 && a.1 <= b.1)
  }

  function RankAll(anchors: Anchors, baseCount: nat, blocks: seq<string>): (r: seq<Ranked>)
    requires |anchors| == |blocks|
    ensures |r| == |blocks| && forall i :: 0 <= i < |r| ==> r[i] == Ranked(Rank(anchors, baseCount, i), i, blocks[i])
  {
    seq(|blocks|, i requires 0 <= i < |blocks| => Ranked(Rank(anchors, baseCount, i), i, blocks[i]))
  }

  function Reordered(anchors: Anchors, baseCount: nat, blocks: seq<string>): (r: seq<Ranked>)
    requires |anchors| == |blocks|
    ensures multiset(r) == multiset(RankAll(anchors, baseCount, blocks))
  {
    Sort(RankAll(anchors, baseCount, blocks), RankKey, RankLe)
  }

  function BlocksOf(rs: seq<Ranked>): (r: seq<string>)
    ensures |r| == |rs| && forall i :: 0 <= i < |r| ==> r[i] == rs[i].block
  {
    seq(|rs|, i requires 0 <= i < |rs| => rs[i].block)
  }

  function Normalized(base: string, variant: string): Option<string> {
    var there, here := Split(base), Split(variant);
    if |there| < 2 || |here| < 2 then None
    else
      var anchors := AnchorsOf(there, here);
      if !AnyMoved(anchors) then None
      else
        var text := Concat(BlocksOf(Reordered(anchors, |there|, here)));
        if text == variant then None else Some(text)
  }

  // ----- the algorithm

  type Index = map<string, seq<nat>>

  ghost predicate IsIndex(index: Index, blocks: seq<string>) {
    forall s :: (s in index <==> PositionsOf(blocks, s) != []) && (s in index ==> index[s] == PositionsOf(blocks, s))
  }

  method IndexBySignature(blocks: seq<string>) returns (index: Index)
    ensures IsIndex(index, blocks)
  {
    index := map[];
    for i := 0 to |blocks|
      invariant IsIndex(index, blocks[..i])
    {
      assert blocks[..i + 1][..i] == blocks[..i];
      var signature := Signature(blocks[i]);
      index := index[signature := (if signature in index then index[signature] else []) + [i]];
    }
    assert blocks[..|blocks|] == blocks;
  }

  method LookUp(basePositions: Index, variantPositions: Index, signature: string,
                ghost there: seq<string>, ghost here: seq<string>, ghost i: nat)
    returns (anchor: Option<nat>)
    requires IsIndex(basePositions, there) && IsIndex(variantPositions, here) && i < |here| && signature == Signature(here[i])
    ensures anchor == AnchorOf(there, here, i)
  {
    if signature !in basePositions || signature !in variantPositions { return None; }
    if |basePositions[signature]| == 1 && |variantPositions[signature]| == 1 { return Some(basePositions[signature][0]); }
    return None;
  }

  method FindAnchors(there: seq<string>, here: seq<string>) returns (anchors: Anchors)
    ensures anchors == AnchorsOf(there, here)
  {
    var basePositions := IndexBySignature(there);
    var variantPositions := IndexBySignature(here);
    var found := new Option<nat>[|here|](_ => None);
    for i := 0 to |here|
      invariant found[..i] == AnchorsOf(there, here)[..i]
    {
      var anchor := LookUp(basePositions, variantPositions, Signature(here[i]), there, here, i);
      found[i] := anchor;
      assert found[..i + 1] == found[..i] + [anchor];
    }
    anchors := found[..];
    assert found[..|here|] == found[..];
  }

  method NormalizeShiftedBlocks(base: string, variant: string) returns (r: Option<string>)
    ensures r == Normalized(base, variant)
  {
    var there := SplitBlocks(base);
    var here := SplitBlocks(variant);
    if |there| < 2 || |here| < 2 { return None; }
    var anchors := FindAnchors(there, here);
    var moved := CountMoved(anchors);
    if moved == 0 { return None; }
    var ranked := RankBlocks(anchors, |there|, here);
    ranked := Sort(ranked, RankKey, RankLe);
    var normalized := Join(ranked);
    r := if normalized == variant then None else Some(normalized);
  }

  method CountMoved(anchors: Anchors) returns (moved: nat)
    ensures moved > 0 <==> AnyMoved(anchors)
  {
    moved := 0;
    for i := 0 to |anchors|
      invariant moved > 0 <==> exists k :: 0 <= k < i && anchors[k].Some? && anchors[k].value != k
    {
      if anchors[i].Some? && anchors[i].value != i { moved := moved + 1; }
    }
  }

  method Join(ranked: seq<Ranked>) returns (text: string)
    ensures text == Concat(BlocksOf(ranked))
  {
    text := "";
    for i := 0 to |ranked|
      invariant text == Concat(BlocksOf(ranked)[..i])
    {
      assert BlocksOf(ranked)[..i + 1][..i] == BlocksOf(ranked)[..i];
      text := text + ranked[i].block;
    }
    assert BlocksOf(ranked)[..|ranked|] == BlocksOf(ranked);
  }

  /** The last anchor seen, going forwards. */
  method PreviousAnchors(anchors: Anchors) returns (previous: Anchors)
    ensures |previous| == |anchors| && forall k :: 0 <= k < |anchors| ==> previous[k] == Previous(anchors, k)
  {
    var filled := new Option<nat>[|anchors|](_ => None);
    var last := None;
    for i := 0 to |anchors|
      invariant last == if i == 0 then None else Previous(anchors, i - 1)
      invariant forall k :: 0 <= k < i ==> filled[k] == Previous(anchors, k)
    {
      if anchors[i].Some? { last := anchors[i]; }
      assert last == Previous(anchors, i);
      filled[i] := last;
    }
    previous := filled[..];
  }

  /** The last anchor seen, going backwards. */
  method NextAnchors(anchors: Anchors) returns (next: Anchors)
    ensures |next| == |anchors| && forall k :: 0 <= k < |anchors| ==> next[k] == Next(anchors, k)
  {
    var filled := new Option<nat>[|anchors|](_ => None);
    var following := None;
    for i := |anchors| downto 0
      invariant following == if i == |anchors| then None else Next(anchors, i)
      invariant forall k :: i <= k < |anchors| ==> filled[k] == Next(anchors, k)
    {
      if anchors[i].Some? { following := anchors[i]; }
      assert following == Next(anchors, i);
      filled[i] := following;
    }
    next := filled[..];
  }

  method RankBlocks(anchors: Anchors, baseCount: nat, blocks: seq<string>) returns (ranked: seq<Ranked>)
    requires |anchors| == |blocks|
    ensures ranked == RankAll(anchors, baseCount, blocks)
  {
    var previous := PreviousAnchors(anchors);
    var next := NextAnchors(anchors);
    ranked := [];
    for i := 0 to |anchors|
      invariant |ranked| == i
      invariant forall k :: 0 <= k < i ==> ranked[k] == Ranked(Rank(anchors, baseCount, k), k, blocks[k])
    {
      var rank :=
        if anchors[i].Some? then anchors[i].value * 4 + 2
        else if previous[i].Some? then previous[i].value * 4 + 3
        else if next[i].Some? then next[i].value * 4 + 1
        else baseCount * 4 + i;
      ranked := ranked + [Ranked(rank, i, blocks[i])];
    }
  }

  // ----- groups

  /** Positions `lo..hi`: an anchored block and the unanchored blocks after it, or before it at the very start. */
  datatype Group = Group(anchor: nat, lo: nat, hi: nat)

  function GroupAnchor(g: Group): nat { g.anchor }

  function NextAnchored(anchors: Anchors, i: nat): (j: nat)
    requires i <= |anchors|
    ensures i <= j <= |anchors| && (j < |anchors| ==> anchors[j].Some?)
    ensures forall k :: i <= k < j ==> anchors[k].None?
    decreases |anchors| - i
  {
    if i == |anchors| || anchors[i].Some? then i else NextAnchored(anchors, i + 1)
  }

  function GroupsFrom(anchors: Anchors, i: nat): seq<Group>
    requires i <= |anchors| && (i < |anchors| ==> anchors[i].Some?)
    decreases |anchors| - i
  {
    if i == |anchors| then []
    else
      var j := NextAnchored(anchors, i + 1);
      [Group(anchors[i].value, i, j)] + GroupsFrom(anchors, j)
  }

  ghost predicate AnyAnchor(anchors: Anchors) {
    exists i :: 0 <= i < |anchors| && anchors[i].Some?
  }

  /** The list cut at its anchors; the blocks before the first anchor belong to the first group. */
  function Groups(anchors: Anchors): seq<Group>
    requires AnyAnchor(anchors)
  {
    var i := NextAnchored(anchors, 0);
    var j := NextAnchored(anchors, i + 1);
    [Group(anchors[i].value, 0, j)] + GroupsFrom(anchors, j)
  }

  ghost predicate WithinGroups<T>(items: seq<T>, groups: seq<Group>) {
    forall g :: g in groups ==> g.lo <= g.hi <= |items|
  }

  /** The items of each group in turn. */
  function Flatten<T>(items: seq<T>, groups: seq<Group>): seq<T>
    requires WithinGroups(items, groups)
  {
    if groups == [] then [] else items[groups[0].lo..groups[0].hi] + Flatten(items, groups[1..])
  }

  lemma {:induction false} FlattenFrom<T>(items: seq<T>, anchors: Anchors, i: nat)
    requires |items| == |anchors| && i <= |anchors| && (i < |anchors| ==> anchors[i].Some?)
    ensures WithinGroups(items, GroupsFrom(anchors, i)) && Flatten(items, GroupsFrom(anchors, i)) == items[i..]
    decreases |anchors| - i
  {
    if i < |anchors| {
      var j := NextAnchored(anchors, i + 1);
      FlattenFrom(items, anchors, j);
      assert items[i..] == items[i..j] + items[j..];
    }
  }

  /** Cutting into groups loses nothing. */
  lemma {:induction false} FlattenGroups<T>(items: seq<T>, anchors: Anchors)
    requires |items| == |anchors| && AnyAnchor(anchors)
    ensures WithinGroups(items, Groups(anchors)) && Flatten(items, Groups(anchors)) == items
  {
    var j := NextAnchored(anchors, NextAnchored(anchors, 0) + 1);
    FlattenFrom(items, anchors, j);
    assert items[0..j] + items[j..] == items;
  }

  lemma {:induction false} FlattenSplit<T>(items: seq<T>, p: seq<Group>, q: seq<Group>)
    requires WithinGroups(items, p) && WithinGroups(items, q)
    ensures WithinGroups(items, p + q) && Flatten(items, p + q) == Flatten(items, p) + Flatten(items, q)
  {
    if p == [] {
      assert p + q == q;
    } else {
      FlattenSplit(items, p[1..], q);
      assert p + q == [p[0]] + (p[1..] + q);
    }
  }

  lemma {:induction false} FlattenMoved<T>(items: seq<T>, p: seq<Group>, g: Group, q: seq<Group>)
    requires WithinGroups(items, p) && WithinGroups(items, q) && WithinGroups(items, [g])
    ensures WithinGroups(items, p + [g] + q) && WithinGroups(items, p + q)
    ensures multiset(Flatten(items, p + [g] + q)) == multiset(Flatten(items, [g])) + multiset(Flatten(items, p + q))
  {
    FlattenSplit(items, p, q);
    FlattenSplit(items, p, [g]);
    FlattenSplit(items, p + [g], q);
  }

  lemma {:induction false} FlattenPermutation<T>(items: seq<T>, a: seq<Group>, b: seq<Group>)
    requires multiset(a) == multiset(b) && WithinGroups(items, a)
    ensures WithinGroups(items, b) && multiset(Flatten(items, a)) == multiset(Flatten(items, b))
    decreases |a|
  {
    SameMembers(a, b);
    if a != [] {
      var g, rest := a[0], a[1..];
      var p, q := Without(a, b);
      assert a == [] + [g] + rest && [] + rest == rest && g in a;
      FlattenPermutation(items, rest, p + q);
      FlattenMoved(items, p, g, q);
      FlattenMoved(items, [], g, rest);
    } else {
      assert b == [];
    }
  }

  // ----- sorting by rank moves whole groups

  lemma {:induction false} RankOrder()
    ensures TotalOrder(RankLe)
  {
  }

  /** The ranks of a group lie in a band of their own around its anchor, and ascend with position. */
  ghost predicate InBand(anchors: Anchors, baseCount: nat, g: Group) {
    && g.lo < g.hi <= |anchors|
    && (forall i :: g.lo <= i < g.hi ==> g.anchor * 4 + 1 <= Rank(anchors, baseCount, i) <= g.anchor * 4 + 3)
    && (forall i, j :: g.lo <= i < j < g.hi ==> Rank(anchors, baseCount, i) <= Rank(anchors, baseCount, j))
  }

  lemma {:induction false} PreviousInRun(anchors: Anchors, lo: nat, i: nat)
    requires lo <= i < |anchors| && anchors[lo].Some? && forall k :: lo < k <= i ==> anchors[k].None?
    ensures Previous(anchors, i) == anchors[lo]
  {
    if lo < i { PreviousInRun(anchors, lo, i - 1); }
  }

  lemma {:induction false} NothingBefore(anchors: Anchors, i: nat)
    requires i < |anchors| && forall k :: 0 <= k <= i ==> anchors[k].None?
    ensures Previous(anchors, i).None?
  {
    if i > 0 { NothingBefore(anchors, i - 1); }
  }

  lemma {:induction false} NextAfterRun(anchors: Anchors, i: nat, hi: nat)
    requires i <= hi < |anchors| && anchors[hi].Some? && forall k :: i <= k < hi ==> anchors[k].None?
    ensures Next(anchors, i) == anchors[hi]
    decreases hi - i
  {
    if i < hi { NextAfterRun(anchors, i + 1, hi); }
  }

  lemma {:induction false} BandsFrom(anchors: Anchors, baseCount: nat, i: nat)
    requires i <= |anchors| && (i < |anchors| ==> anchors[i].Some?)
    ensures forall g :: g in GroupsFrom(anchors, i) ==> InBand(anchors, baseCount, g) && i <= g.lo && anchors[g.lo] == Some(g.anchor)
    ensures forall a, b :: 0 <= a < b < |GroupsFrom(anchors, i)| ==> GroupsFrom(anchors, i)[a].lo < GroupsFrom(anchors, i)[b].lo
    decreases |anchors| - i
  {
    if i < |anchors| {
      var j := NextAnchored(anchors, i + 1);
      BandsFrom(anchors, baseCount, j);
      forall k | i < k < j ensures Rank(anchors, baseCount, k) == anchors[i].value * 4 + 3 {
        PreviousInRun(anchors, i, k);
      }
    }
  }

  /** The first group, with whatever stands before the first anchor. */
  lemma {:induction false} FirstBand(anchors: Anchors, baseCount: nat)
    requires AnyAnchor(anchors)
    ensures InBand(anchors, baseCount, Groups(anchors)[0])
  {
    var i := NextAnchored(anchors, 0);
    var j := NextAnchored(anchors, i + 1);
    forall k | 0 <= k < i ensures Rank(anchors, baseCount, k) == anchors[i].value * 4 + 1 {
      NothingBefore(anchors, k);
      NextAfterRun(anchors, k, i);
    }
    forall k | i < k < j ensures Rank(anchors, baseCount, k) == anchors[i].value * 4 + 3 {
      PreviousInRun(anchors, i, k);
    }
  }

  ghost predicate AscendingGroups(groups: seq<Group>) {
    forall a, b :: 0 <= a < b < |groups| ==> groups[a].anchor < groups[b].anchor
  }

  lemma {:induction false} FlattenMember<T>(items: seq<T>, groups: seq<Group>, x: T) returns (g: Group, i: nat)
    requires WithinGroups(items, groups) && x in Flatten(items, groups)
    ensures g in groups && g.lo <= i < g.hi && items[i] == x
  {
    var slice := items[groups[0].lo..groups[0].hi];
    if x in slice {
      var k :| 0 <= k < |slice| && slice[k] == x;
      g, i := groups[0], groups[0].lo + k;
    } else {
      g, i := FlattenMember(items, groups[1..], x);
    }
  }

  lemma {:induction false} FlattenSorted(anchors: Anchors, baseCount: nat, blocks: seq<string>, groups: seq<Group>)
    requires |anchors| == |blocks| && AscendingGroups(groups)
    requires forall g :: g in groups ==> InBand(anchors, baseCount, g)
    ensures WithinGroups(blocks, groups) && SortedBy(Flatten(RankAll(anchors, baseCount, blocks), groups), RankKey, RankLe)
  {
    if groups != [] {
      var items, g := RankAll(anchors, baseCount, blocks), groups[0];
      FlattenSorted(anchors, baseCount, blocks, groups[1..]);
      assert InBand(anchors, baseCount, g);
      var slice, rest := items[g.lo..g.hi], Flatten(items, groups[1..]);
      forall x | x in rest ensures x.rank > g.anchor * 4 + 3 {
        var g', i := FlattenMember(items, groups[1..], x);
        assert InBand(anchors, baseCount, g');
      }
      assert SortedBy(slice, RankKey, RankLe);
      SortedJoin(slice, rest);
    }
  }

  lemma {:induction false} SortedJoin(a: seq<Ranked>, b: seq<Ranked>)
    requires SortedBy(a, RankKey, RankLe) && SortedBy(b, RankKey, RankLe)
    requires forall x, y :: x in a && y in b ==> RankLe(RankKey(x), RankKey(y))
    ensures SortedBy(a + b, RankKey, RankLe)
  {
    forall i, j | 0 <= i < j < |a + b| ensures RankLe(RankKey((a + b)[i]), RankKey((a + b)[j])) {
      if i < |a| && j >= |a| { assert a[i] in a && b[j - |a|] in b; }
    }
  }

  lemma {:induction false} GroupsInBand(anchors: Anchors, baseCount: nat)
    requires AnyAnchor(anchors)
    ensures forall g :: g in Groups(anchors) ==> InBand(anchors, baseCount, g)
  {
    FirstBand(anchors, baseCount);
    BandsFrom(anchors, baseCount, NextAnchored(anchors, NextAnchored(anchors, 0) + 1));
  }

  /** Where a group's anchor stands. */
  ghost predicate StandsAt(anchors: Anchors, g: Group, i: nat) {
    i < |anchors| && anchors[i] == Some(g.anchor)
  }

  lemma {:induction false} GroupsDiffer(anchors: Anchors)
    requires AnyAnchor(anchors) && DistinctAnchors(anchors)
    ensures Distinct(Map(GroupAnchor, Groups(anchors)))
  {
    var i := NextAnchored(anchors, 0);
    var j := NextAnchored(anchors, i + 1);
    BandsFrom(anchors, 0, j);
    var tail := GroupsFrom(anchors, j);
    forall a | 0 <= a < |tail| ensures tail[a].anchor != anchors[i].value && StandsAt(anchors, tail[a], tail[a].lo) {
      assert tail[a] in tail;
    }
  }

  /** The groups in ascending order of their anchors. */
  ghost function InBaseOrder(anchors: Anchors): seq<Group>
    requires AnyAnchor(anchors)
  {
    Sort(Groups(anchors), GroupAnchor, NatLe)
  }

  lemma {:induction false} BaseOrderAscends(anchors: Anchors)
    requires AnyAnchor(anchors) && DistinctAnchors(anchors)
    ensures AscendingGroups(InBaseOrder(anchors)) && multiset(InBaseOrder(anchors)) == multiset(Groups(anchors))
  {
    var groups, sorted := Groups(anchors), InBaseOrder(anchors);
    SortSorts(groups, GroupAnchor, NatLe);
    GroupsDiffer(anchors);
    MapPermutation(GroupAnchor, sorted, groups);
    NoRepeats(Map(GroupAnchor, groups), Map(GroupAnchor, sorted));
  }

  lemma {:induction false} NoRepeats<T(!new)>(a: seq<T>, b: seq<T>)
    requires Distinct(a) && multiset(a) == multiset(b)
    ensures Distinct(b)
  {
    DistinctIsSet(a);
    OnceEachOf(b, multiset(a));
  }

  /** The same blocks, group by group: a sorted permutation of the ranked list. */
  lemma {:induction false} GroupedIsSorted(anchors: Anchors, baseCount: nat, blocks: seq<string>)
    requires |anchors| == |blocks| && AnyAnchor(anchors) && DistinctAnchors(anchors)
    ensures WithinGroups(blocks, InBaseOrder(anchors))
    ensures var grouped := Flatten(RankAll(anchors, baseCount, blocks), InBaseOrder(anchors));
            && SortedBy(grouped, RankKey, RankLe)
            && multiset(grouped) == multiset(RankAll(anchors, baseCount, blocks))
  {
    var ranked, groups, sorted := RankAll(anchors, baseCount, blocks), Groups(anchors), InBaseOrder(anchors);
    BaseOrderAscends(anchors);
    FlattenGroups(ranked, anchors);
    FlattenPermutation(ranked, groups, sorted);
    GroupsInBand(anchors, baseCount);
    SameMembers(groups, sorted);
    FlattenSorted(anchors, baseCount, blocks, sorted);
  }

  lemma {:induction false} OneItemPerPosition(anchors: Anchors, baseCount: nat, blocks: seq<string>, r: seq<Ranked>)
    requires |anchors| == |blocks| && multiset(r) == multiset(RankAll(anchors, baseCount, blocks))
    ensures |r| == |blocks|
    ensures forall k :: 0 <= k < |r| ==> r[k].idx < |blocks| && r[k] == RankAll(anchors, baseCount, blocks)[r[k].idx]
    ensures forall x, y :: x in r && y in r && RankKey(x) == RankKey(y) ==> x == y
    ensures forall p, q :: 0 <= p < q < |r| ==> r[p].idx != r[q].idx
  {
    var ranked := RankAll(anchors, baseCount, blocks);
    SameMembers(r, ranked);
    assert forall x :: x in r ==> x.idx < |ranked| && ranked[x.idx] == x;
    NoRepeats(ranked, r);
  }

  /**
   * The normalisation moves whole groups: its block list is the variant's groups, each intact and in its old order,
   * arranged by ascending base position of their anchors.
   */
  lemma {:induction false} GroupsMove(anchors: Anchors, baseCount: nat, blocks: seq<string>)
    requires |anchors| == |blocks| && AnyAnchor(anchors) && DistinctAnchors(anchors)
    ensures AscendingGroups(InBaseOrder(anchors)) && multiset(InBaseOrder(anchors)) == multiset(Groups(anchors))
    ensures WithinGroups(blocks, InBaseOrder(anchors))
    ensures Reordered(anchors, baseCount, blocks) == Flatten(RankAll(anchors, baseCount, blocks), InBaseOrder(anchors))
  {
    BaseOrderAscends(anchors);
    GroupedIsSorted(anchors, baseCount, blocks);
    var ranked, r := RankAll(anchors, baseCount, blocks), Reordered(anchors, baseCount, blocks);
    RankOrder();
    SortSorts(ranked, RankKey, RankLe);
    OneItemPerPosition(anchors, baseCount, blocks, r);
    SortedUnique(r, Flatten(ranked, InBaseOrder(anchors)), RankKey, RankLe);
  }

  // ----- after the move

  /** The anchors of the blocks in their new order. */
  function AnchorsAfter(anchors: Anchors, baseCount: nat, blocks: seq<string>): (r: Anchors)
    requires |anchors| == |blocks|
    ensures |r| == |blocks|
  {
    var order := Reordered(anchors, baseCount, blocks);
    OneItemPerPosition(anchors, baseCount, blocks, order);
    seq(|order|, k requires 0 <= k < |order| => anchors[order[k].idx])
  }

  lemma {:induction false} AnchorsAscend(anchors: Anchors, baseCount: nat, blocks: seq<string>)
    requires |anchors| == |blocks| && DistinctAnchors(anchors)
    ensures AscendingAnchors(AnchorsAfter(anchors, baseCount, blocks))
  {
    var ranked, order := RankAll(anchors, baseCount, blocks), Reordered(anchors, baseCount, blocks);
    RankOrder();
    SortSorts(ranked, RankKey, RankLe);
    OneItemPerPosition(anchors, baseCount, blocks, order);
    forall p, q | 0 <= p < q < |order| && anchors[order[p].idx].Some? && anchors[order[q].idx].Some?
      ensures anchors[order[p].idx].value < anchors[order[q].idx].value
    {
      assert RankLe(RankKey(order[p]), RankKey(order[q]));
      assert anchors[order[p].idx] != anchors[order[q].idx];
    }
  }

  lemma {:induction false} AscendingGroupsStay(anchors: Anchors)
    requires AnyAnchor(anchors) && AscendingAnchors(anchors)
    ensures InBaseOrder(anchors) == Groups(anchors)
  {
    GroupsAscend(anchors);
    SortOfAscending(Groups(anchors));
  }

  lemma {:induction false} GroupsAscend(anchors: Anchors)
    requires AnyAnchor(anchors) && AscendingAnchors(anchors)
    ensures AscendingGroups(Groups(anchors))
  {
    var i := NextAnchored(anchors, 0);
    var tail := GroupsFrom(anchors, NextAnchored(anchors, i + 1));
    BandsFrom(anchors, 0, NextAnchored(anchors, i + 1));
    forall k | 0 <= k < |tail| ensures StandsAt(anchors, tail[k], tail[k].lo) && i < tail[k].lo { assert tail[k] in tail; }
    TailAscends(anchors, Group(anchors[i].value, 0, NextAnchored(anchors, i + 1)), i, tail);
  }

  lemma {:induction false} TailAscends(anchors: Anchors, head: Group, i: nat, tail: seq<Group>)
    requires AscendingAnchors(anchors) && StandsAt(anchors, head, i)
    requires forall k :: 0 <= k < |tail| ==> StandsAt(anchors, tail[k], tail[k].lo) && i < tail[k].lo
    requires forall a, b :: 0 <= a < b < |tail| ==> tail[a].lo < tail[b].lo
    ensures AscendingGroups([head] + tail)
  {
    var groups := [head] + tail;
    forall a, b | 0 <= a < b < |groups| ensures groups[a].anchor < groups[b].anchor {
      assert groups[b] == tail[b - 1] && (a > 0 ==> groups[a] == tail[a - 1]);
    }
  }

  lemma {:induction false} SortOfAscending(groups: seq<Group>)
    requires AscendingGroups(groups)
    ensures Sort(groups, GroupAnchor, NatLe) == groups
  {
    if groups != [] { SortOfAscending(groups[1..]); }
  }

  lemma {:induction false} AscendingIsStable(anchors: Anchors, baseCount: nat, blocks: seq<string>)
    requires |anchors| == |blocks| && AnyAnchor(anchors) && AscendingAnchors(anchors)
    ensures Reordered(anchors, baseCount, blocks) == RankAll(anchors, baseCount, blocks)
  {
    AscendingGroupsStay(anchors);
    GroupsMove(anchors, baseCount, blocks);
    FlattenGroups(RankAll(anchors, baseCount, blocks), anchors);
  }

  lemma {:induction false} CountPositions(blocks: seq<string>, signature: string)
    ensures |PositionsOf(blocks, signature)| == multiset(Map(Signature, blocks))[signature]
  {
    if blocks != [] {
      var n := |blocks| - 1;
      CountPositions(blocks[..n], signature);
      OneMoreSigned(blocks, signature);
    }
  }

  lemma {:induction false} OneMoreSigned(blocks: seq<string>, signature: string)
    requires blocks != []
    ensures var n := |blocks| - 1;
            multiset(Map(Signature, blocks))[signature]
            == multiset(Map(Signature, blocks[..n]))[signature] + if Signature(blocks[n]) == signature then 1 else 0
  {
    var n := |blocks| - 1;
    assert Map(Signature, blocks) == Map(Signature, blocks[..n]) + [Signature(blocks[n])];
  }

  /** Permuting the blocks permutes their anchors with them. */
  lemma {:induction false} AnchorsFollow(base: seq<string>, blocks: seq<string>, moved: seq<string>, i: nat, k: nat)
    requires multiset(blocks) == multiset(moved) && i < |blocks| && k < |moved| && moved[k] == blocks[i]
    ensures AnchorOf(base, moved, k) == AnchorOf(base, blocks, i)
  {
    CountPositions(blocks, Signature(blocks[i]));
    CountPositions(moved, Signature(blocks[i]));
    MapPermutation(Signature, blocks, moved);
  }

  lemma {:induction false} BlocksPermuted(anchors: Anchors, baseCount: nat, blocks: seq<string>)
    requires |anchors| == |blocks|
    ensures multiset(BlocksOf(Reordered(anchors, baseCount, blocks))) == multiset(blocks)
  {
    var ranked, order := RankAll(anchors, baseCount, blocks), Reordered(anchors, baseCount, blocks);
    var block := (r: Ranked) => r.block;
    MapPermutation(block, order, ranked);
    assert Map(block, order) == BlocksOf(order) && Map(block, ranked) == blocks;
  }

  lemma {:induction false} AnchorsOfMoved(base: seq<string>, blocks: seq<string>, moved: seq<string>)
    requires moved == BlocksOf(Reordered(AnchorsOf(base, blocks), |base|, blocks))
    ensures AnchorsOf(base, moved) == AnchorsAfter(AnchorsOf(base, blocks), |base|, blocks)
  {
    var anchors := AnchorsOf(base, blocks);
    var order := Reordered(anchors, |base|, blocks);
    BlocksPermuted(anchors, |base|, blocks);
    OneItemPerPosition(anchors, |base|, blocks, order);
    forall k | 0 <= k < |moved| ensures AnchorOf(base, moved, k) == anchors[order[k].idx] {
      AnchorsFollow(base, blocks, moved, order[k].idx, k);
    }
  }

  /** Anchoring and ranking the reordered block list again changes nothing. */
  lemma {:induction false} ReorderingIsStable(base: seq<string>, blocks: seq<string>)
    requires AnyAnchor(AnchorsOf(base, blocks))
    ensures var moved := BlocksOf(Reordered(AnchorsOf(base, blocks), |base|, blocks));
            && AscendingAnchors(AnchorsOf(base, moved))
            && BlocksOf(Reordered(AnchorsOf(base, moved), |base|, moved)) == moved
  {
    var moved := BlocksOf(Reordered(AnchorsOf(base, blocks), |base|, blocks));
    MovedAscend(base, blocks, moved);
    AscendingStays(AnchorsOf(base, moved), |base|, moved);
  }

  lemma {:induction false} MovedAscend(base: seq<string>, blocks: seq<string>, moved: seq<string>)
    requires AnyAnchor(AnchorsOf(base, blocks)) && moved == BlocksOf(Reordered(AnchorsOf(base, blocks), |base|, blocks))
    ensures AscendingAnchors(AnchorsOf(base, moved)) && AnyAnchor(AnchorsOf(base, moved))
  {
    AnchorsAreDistinct(base, blocks);
    AnchorsAscend(AnchorsOf(base, blocks), |base|, blocks);
    SomeAnchorStays(AnchorsOf(base, blocks), |base|, blocks);
    AnchorsOfMoved(base, blocks, moved);
  }

  lemma {:induction false} AscendingStays(anchors: Anchors, baseCount: nat, blocks: seq<string>)
    requires |anchors| == |blocks| && AnyAnchor(anchors) && AscendingAnchors(anchors)
    ensures BlocksOf(Reordered(anchors, baseCount, blocks)) == blocks
  {
    AscendingIsStable(anchors, baseCount, blocks);
    assert BlocksOf(RankAll(anchors, baseCount, blocks)) == blocks;
  }

  lemma {:induction false} SomeAnchorStays(anchors: Anchors, baseCount: nat, blocks: seq<string>)
    requires |anchors| == |blocks| && AnyAnchor(anchors)
    ensures AnyAnchor(AnchorsAfter(anchors, baseCount, blocks))
  {
    var ranked, order := RankAll(anchors, baseCount, blocks), Reordered(anchors, baseCount, blocks);
    var i :| 0 <= i < |anchors| && anchors[i].Some?;
    SameMembers(order, ranked);
    assert ranked[i] in order;
    var k :| 0 <= k < |order| && order[k] == ranked[i];
    assert AnchorsAfter(anchors, baseCount, blocks)[k] == anchors[i];
  }

  lemma {:induction false} BlocksOfFlatten(ranked: seq<Ranked>, blocks: seq<string>, groups: seq<Group>)
    requires BlocksOf(ranked) == blocks && WithinGroups(blocks, groups)
    ensures BlocksOf(Flatten(ranked, groups)) == Flatten(blocks, groups)
  {
    if groups != [] {
      BlocksOfFlatten(ranked, blocks, groups[1..]);
      assert forall g :: g in groups ==> g.lo <= g.hi <= |ranked|;
    }
  }

  /** What a successful normalisation returns, down to the text. */
  lemma {:induction false} NormalizedText(base: string, variant: string)
    requires Normalized(base, variant).Some?
    ensures var blocks, anchors := Split(variant), AnchorsOf(Split(base), Split(variant));
            && AnyAnchor(anchors) && WithinGroups(blocks, InBaseOrder(anchors)) && AscendingGroups(InBaseOrder(anchors))
            && multiset(Flatten(blocks, InBaseOrder(anchors))) == multiset(blocks)
            && Normalized(base, variant) == Some(Concat(Flatten(blocks, InBaseOrder(anchors))))
  {
    var there, blocks := Split(base), Split(variant);
    var anchors := AnchorsOf(there, blocks);
    AnchorsAreDistinct(there, blocks);
    GroupsMove(anchors, |there|, blocks);
    BlocksOfFlatten(RankAll(anchors, |there|, blocks), blocks, InBaseOrder(anchors));
    BlocksPermuted(anchors, |there|, blocks);
  }

  lemma {:induction false} SortedStays(rs: seq<Ranked>)
    requires forall i, j :: 0 <= i < j < |rs| ==> RankLe(RankKey(rs[i]), RankKey(rs[j]))
    ensures Sort(rs, RankKey, RankLe) == rs
  {
    if rs != [] { SortedStays(rs[1..]); }
  }

  /** Without any anchor, or with every anchor in place, no block moves. */
  lemma {:induction false} UnmovedStay(anchors: Anchors, baseCount: nat, blocks: seq<string>)
    requires |anchors| == |blocks| && !AnyMoved(anchors)
    ensures BlocksOf(Reordered(anchors, baseCount, blocks)) == blocks
  {
    var ranked := RankAll(anchors, baseCount, blocks);
    if AnyAnchor(anchors) {
      assert AscendingAnchors(anchors) by {
        forall i | 0 <= i < |anchors| && anchors[i].Some? ensures anchors[i].value == i {
        }
      }
      AscendingIsStable(anchors, baseCount, blocks);
    } else {
      forall i | 0 <= i < |anchors| ensures Rank(anchors, baseCount, i) == baseCount * 4 + i {
        NoAnchorNear(anchors, i);
      }
      SortedStays(ranked);
    }
  }

  lemma {:induction false} NoAnchorNear(anchors: Anchors, i: nat)
    requires i < |anchors| && !AnyAnchor(anchors)
    ensures Previous(anchors, i).None? && Next(anchors, i).None?
  {
    NoneBefore(anchors, i);
    NoneAfter(anchors, i);
  }

  lemma {:induction false} NoneBefore(anchors: Anchors, i: nat)
    requires i < |anchors| && !AnyAnchor(anchors)
    ensures Previous(anchors, i).None?
  {
    assert anchors[i].None?;
    if i > 0 { NoneBefore(anchors, i - 1); }
  }

  lemma {:induction false} NoneAfter(anchors: Anchors, i: nat)
    requires i < |anchors| && !AnyAnchor(anchors)
    ensures Next(anchors, i).None?
    decreases |anchors| - i
  {
    assert anchors[i].None?;
    if i + 1 < |anchors| { NoneAfter(anchors, i + 1); }
  }

  /**
   * Exactly when there is something to retry with: both texts have two blocks at least, and ranking the variant's blocks
   * changes the text. The test for a moved anchor only saves the work.
   */
  lemma {:induction false} NormalizedIff(base: string, variant: string)
    ensures var there, here := Split(base), Split(variant);
            var text := Concat(BlocksOf(Reordered(AnchorsOf(there, here), |there|, here)));
            Normalized(base, variant) == if |there| >= 2 && |here| >= 2 && text != variant then Some(text) else None
  {
    var there, here := Split(base), Split(variant);
    var anchors := AnchorsOf(there, here);
    if !AnyMoved(anchors) {
      UnmovedStay(anchors, |there|, here);
      ConcatSplit(variant);
    }
  }

  /** Once some anchor exists, every block has an anchor at, before or after it: the last-resort rank is never given. */
  lemma {:induction false} LastResortUnused(anchors: Anchors, i: nat)
    requires AnyAnchor(anchors) && i < |anchors|
    ensures anchors[i].Some? || Previous(anchors, i).Some? || Next(anchors, i).Some?
  {
    var k :| 0 <= k < |anchors| && anchors[k].Some?;
    if k <= i { SeenBefore(anchors, k, i); } else { SeenAfter(anchors, i, k); }
  }

  lemma {:induction false} SeenBefore(anchors: Anchors, k: nat, i: nat)
    requires k <= i < |anchors| && anchors[k].Some?
    ensures Previous(anchors, i).Some?
  {
    if k < i { SeenBefore(anchors, k, i - 1); }
  }

  lemma {:induction false} SeenAfter(anchors: Anchors, i: nat, k: nat)
    requires i <= k < |anchors| && anchors[k].Some?
    ensures Next(anchors, i).Some?
    decreases k - i
  {
    if i < k { SeenAfter(anchors, i + 1, k); }
  }
}

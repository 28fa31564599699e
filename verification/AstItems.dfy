/** Top-level items of a parsed file, their identity keys, and keyed edit scripts (ast_merge.rs). */
module AstItems {
  import opened Prelude

  type Byte = b: int | 0 <= b < 256

  type Bytes = seq<Byte>

  /** An item of a file: its syntax node and the bytes `start..end` of the source. */
  datatype Item = Item(kind: string, name: Option<string>, start: nat, end: nat, content: Bytes)

  datatype ItemKey = Named(kind: string, name: string) | Positional(kind: string, index: nat)

  function IdentityKey(item: Item, index: nat): ItemKey {
    if item.name.Some? then Named(item.kind, item.name.value) else Positional(item.kind, index)
  }

  /** Two items have one key exactly when they are of one kind and one name, or of one kind, nameless, and in one place. */
  lemma {:induction false} SameKeyIff(a: Item, i: nat, b: Item, j: nat)
    ensures IdentityKey(a, i) == IdentityKey(b, j) <==> a.kind == b.kind && a.name == b.name && (a.name.Some? || i == j)
  {
  }

  // ----- the order of keys

  predicate KeyLe(a: ItemKey, b: ItemKey) {
    if a.Named? && b.Named? then if a.kind == b.kind then StringLe(a.name, b.name) else StringLe(a.kind, b.kind)
    else if a.Positional? && b.Positional? then if a.kind == b.kind then a.index <= b.index else StringLe(a.kind, b.kind)
    else a.Named?
  }

  lemma {:induction false} KeyOrder()
    ensures TotalOrder(KeyLe)
  {
    StringOrder();
  }

  // ----- keyed items

  type KeyedItems = map<ItemKey, Item>

  /** The items by key; of two items with one key the later wins. */
  function Keyed(items: seq<Item>): (m: KeyedItems)
    ensures forall k :: k in m <==> exists i :: 0 <= i < |items| && IdentityKey(items[i], i) == k
  {
    if items == [] then map[]
    else
      var n := |items| - 1;
      Keyed(items[..n])[IdentityKey(items[n], n) := items[n]]
  }

  method KeyItems(items: seq<Item>) returns (m: KeyedItems)
    ensures m == Keyed(items)
  {
    m := map[];
    for i := 0 to |items|
      invariant m == Keyed(items[..i])
    {
      assert items[..i + 1][..i] == items[..i];
      m := m[IdentityKey(items[i], i) := items[i]];
    }
    assert items[..|items|] == items;
  }

  ghost predicate DistinctKeys(items: seq<Item>) {
    forall i, j :: 0 <= i < j < |items| ==> IdentityKey(items[i], i) != IdentityKey(items[j], j)
  }

  lemma {:induction false} KeyedAt(items: seq<Item>, i: nat)
    requires DistinctKeys(items) && i < |items|
    ensures IdentityKey(items[i], i) in Keyed(items) && Keyed(items)[IdentityKey(items[i], i)] == items[i]
  {
    var n := |items| - 1;
    if i < n { KeyedAt(items[..n], i); }
  }

  /** An entry of the keyed view is one of the items with that key. */
  lemma {:induction false} KeyedIsItem(items: seq<Item>, key: ItemKey)
    requires key in Keyed(items)
    ensures exists i :: 0 <= i < |items| && IdentityKey(items[i], i) == key && Keyed(items)[key] == items[i]
  {
    var n := |items| - 1;
    if key == IdentityKey(items[n], n) {
      assert Keyed(items)[key] == items[n];
    } else {
      KeyedIsItem(items[..n], key);
      var i :| 0 <= i < n && IdentityKey(items[..n][i], i) == key && Keyed(items[..n])[key] == items[..n][i];
      assert items[i] == items[..n][i];
    }
  }

  /** No item after item `i`, among the first `n`, has its key. */
  ghost predicate LastOfKey(items: seq<Item>, n: nat, i: nat)
    requires i < n <= |items|
  {
    forall j :: i < j < n ==> IdentityKey(items[j], j) != IdentityKey(items[i], i)
  }

  function KeyedTo(items: seq<Item>, n: nat): KeyedItems
    requires n <= |items|
  {
    if n == 0 then map[] else KeyedTo(items, n - 1)[IdentityKey(items[n - 1], n - 1) := items[n - 1]]
  }

  lemma {:induction false} KeyedToIsKeyed(items: seq<Item>, n: nat)
    requires n <= |items|
    ensures KeyedTo(items, n) == Keyed(items[..n])
  {
    if n > 0 {
      KeyedToIsKeyed(items, n - 1);
      assert items[..n][..n - 1] == items[..n - 1];
    }
  }

  /** `m` has something under the key of item `i`: the item itself exactly when it is the last of its key. */
  ghost predicate Sees(m: KeyedItems, items: seq<Item>, n: nat, i: nat)
    requires i < n <= |items|
  {
    IdentityKey(items[i], i) in m && (m[IdentityKey(items[i], i)] == items[i] <==> LastOfKey(items, n, i))
  }

  lemma {:induction false} SeesStep(m: KeyedItems, items: seq<Item>, n: nat, i: nat)
    requires i <= n < |items| && (i < n ==> items[n] != items[i] && Sees(m, items, n, i))
    ensures Sees(m[IdentityKey(items[n], n) := items[n]], items, n + 1, i)
  {
  }

  lemma {:induction false} SeenAmong(items: seq<Item>, i: nat, n: nat)
    requires i < n <= |items| && forall j :: i < j < |items| ==> items[j] != items[i]
    ensures Sees(KeyedTo(items, n), items, n, i)
  {
    if i < n - 1 { SeenAmong(items, i, n - 1); }
    SeesStep(KeyedTo(items, n - 1), items, n - 1, i);
  }

  /** The keyed view holds an item exactly when no later item has its key. */
  lemma {:induction false} SeenIff(source: Bytes, items: seq<Item>, i: nat)
    requires WellParsed(source, items) && i < |items|
    ensures Keyed(items)[IdentityKey(items[i], i)] == items[i] <==> LastOfKey(items, |items|, i)
  {
    forall j | i < j < |items| ensures items[j] != items[i] { Ascending(source, items, i, j); }
    SeenAmong(items, i, |items|);
    KeyedToIsKeyed(items, |items|);
    assert items[..|items|] == items;
  }

  // ----- changes

  datatype ItemChange =
    | Modified(key: ItemKey, base: Item, variant: Item)
    | Added(key: ItemKey, variant: Item)
    | Deleted(key: ItemKey, base: Item)

  /** One workspace's change to one item. */
  datatype Constraint = Constraint(ws: WorkspaceId, change: ItemChange)

  /** What a change leaves at its key: new content, or nothing. */
  function ChangeContent(c: ItemChange): Option<Bytes> {
    if c.Deleted? then None else Some(c.variant.content)
  }

  function ContentAt(m: KeyedItems, key: ItemKey): Option<Bytes> {
    if key in m then Some(m[key].content) else None
  }

  /** The change at one key between two keyed files. */
  function ChangeAt(base: KeyedItems, variant: KeyedItems, key: ItemKey): Option<ItemChange> {
    if key in base && key in variant then
      if base[key].content != variant[key].content then Some(Modified(key, base[key], variant[key])) else None
    else if key in base then Some(Deleted(key, base[key]))
    else if key in variant then Some(Added(key, variant[key]))
    else None
  }

  /** The change at each key whose content differs, once, and nothing else. */
  ghost predicate IsEditScript(base: KeyedItems, variant: KeyedItems, script: seq<ItemChange>) {
    && (forall i :: 0 <= i < |script| ==> ChangeAt(base, variant, script[i].key) == Some(script[i]))
    && (forall i, j :: 0 <= i < j < |script| ==> script[i].key != script[j].key)
    && (forall key :: ContentAt(base, key) != ContentAt(variant, key) ==> exists i :: 0 <= i < |script| && script[i].key == key)
  }

  method ComputeEditScript(baseItems: seq<Item>, variantItems: seq<Item>) returns (changes: seq<ItemChange>)
    ensures IsEditScript(Keyed(baseItems), Keyed(variantItems), changes)
  {
    var base := KeyItems(baseItems);
    var variant := KeyItems(variantItems);
    KeyOrder();
    var baseKeys := Ordered(base.Keys, KeyLe);
    var variantKeys := Ordered(variant.Keys, KeyLe);
    changes := ChangedAndDeleted(base, variant, baseKeys);
    changes := WithAdded(base, variant, variantKeys, changes);
  }

  function SetOf(keys: seq<ItemKey>): set<ItemKey> {
    set k | k in keys
  }

  lemma {:induction false} SetOfPrefix(keys: seq<ItemKey>, i: nat)
    requires i < |keys|
    ensures SetOf(keys[..i + 1]) == SetOf(keys[..i]) + {keys[i]}
  {
    assert keys[..i + 1] == keys[..i] + [keys[i]];
  }

  /** An edit script for the keys in `seen`, and no others. */
  ghost predicate IsPartialScript(base: KeyedItems, variant: KeyedItems, script: seq<ItemChange>, seen: set<ItemKey>) {
    && (forall i :: 0 <= i < |script| ==> script[i].key in seen && ChangeAt(base, variant, script[i].key) == Some(script[i]))
    && (forall i, j :: 0 <= i < j < |script| ==> script[i].key != script[j].key)
    && (forall key :: key in seen && ChangeAt(base, variant, key).Some? ==> exists i :: 0 <= i < |script| && script[i].key == key)
  }

  lemma {:induction false} OneMoreKey(base: KeyedItems, variant: KeyedItems, before: seq<ItemChange>,
        after: seq<ItemChange>, seen: set<ItemKey>, key: ItemKey)
    requires IsPartialScript(base, variant, before, seen)
    requires key !in seen || after == before
    requires var c := ChangeAt(base, variant, key);
             key !in seen ==> after == if c.Some? then before + [c.value] else before
    ensures IsPartialScript(base, variant, after, seen + {key})
  {
    forall k | k in seen + {key} && ChangeAt(base, variant, k).Some? ensures exists i :: 0 <= i < |after| && after[i].key == k {
      if k in seen {
        var i :| 0 <= i < |before| && before[i].key == k;
        assert after[i].key == k;
      } else {
        assert after[|before|].key == k;
      }
    }
  }

  /** The first half of a script: what happened to the base's items. */
  method ChangedAndDeleted(base: KeyedItems, variant: KeyedItems, baseKeys: seq<ItemKey>) returns (changes: seq<ItemChange>)
    requires Distinct(baseKeys) && forall k :: k in baseKeys <==> k in base
    ensures IsPartialScript(base, variant, changes, base.Keys)
  {
    changes := [];
    for i := 0 to |baseKeys|
      invariant IsPartialScript(base, variant, changes, SetOf(baseKeys[..i]))
    {
      var key := baseKeys[i];
      ghost var before := changes;
      if key in variant {
        if base[key].content != variant[key].content {
          changes := changes + [Modified(key, base[key], variant[key])];
        }
      } else {
        changes := changes + [Deleted(key, base[key])];
      }
      OneMoreKey(base, variant, before, changes, SetOf(baseKeys[..i]), key);
      SetOfPrefix(baseKeys, i);
    }
    assert baseKeys[..|baseKeys|] == baseKeys;
    assert SetOf(baseKeys) == base.Keys;
  }

  /** The second half: the variant's keys that the base lacks. */
  method WithAdded(base: KeyedItems, variant: KeyedItems, variantKeys: seq<ItemKey>, first: seq<ItemChange>)
    returns (changes: seq<ItemChange>)
    requires IsPartialScript(base, variant, first, base.Keys)
    requires Distinct(variantKeys) && forall k :: k in variantKeys <==> k in variant
    ensures IsEditScript(base, variant, changes)
  {
    changes := first;
    for i := 0 to |variantKeys|
      invariant IsPartialScript(base, variant, changes, base.Keys + SetOf(variantKeys[..i]))
    {
      var key := variantKeys[i];
      ghost var before := changes;
      if key !in base { changes := changes + [Added(key, variant[key])]; }
      OneMoreKey(base, variant, before, changes, base.Keys + SetOf(variantKeys[..i]), key);
      SetOfPrefix(variantKeys, i);
      assert base.Keys + SetOf(variantKeys[..i + 1]) == base.Keys + SetOf(variantKeys[..i]) + {key};
    }
    assert variantKeys[..|variantKeys|] == variantKeys;
    forall key | ContentAt(base, key) != ContentAt(variant, key) ensures exists i :: 0 <= i < |changes| && changes[i].key == key {
      assert key in base.Keys + SetOf(variantKeys) && ChangeAt(base, variant, key).Some?;
    }
  }

  // ----- scripts are faithful

  function Apply(m: KeyedItems, script: seq<ItemChange>): KeyedItems {
    if script == [] then m
    else
      var c := script[|script| - 1];
      var front := Apply(m, script[..|script| - 1]);
      if c.Deleted? then front - {c.key} else front[c.key := c.variant]
  }

  lemma {:induction false} ApplyAt(m: KeyedItems, script: seq<ItemChange>, key: ItemKey)
    requires forall i, j :: 0 <= i < j < |script| ==> script[i].key != script[j].key
    ensures (forall i :: 0 <= i < |script| ==> script[i].key != key) ==> ContentAt(Apply(m, script), key) == ContentAt(m, key)
    ensures forall i :: 0 <= i < |script| && script[i].key == key ==> ContentAt(Apply(m, script), key) == ChangeContent(script[i])
  {
    if script != [] { ApplyAt(m, script[..|script| - 1], key); }
  }

  /** Applying the edit script to the base's items gives the variant's items, key by key and with nothing left over. */
  lemma {:induction false} ScriptIsFaithful(base: KeyedItems, variant: KeyedItems, script: seq<ItemChange>)
    requires IsEditScript(base, variant, script)
    ensures Apply(base, script).Keys == variant.Keys
    ensures forall key :: ContentAt(Apply(base, script), key) == ContentAt(variant, key)
  {
    forall key ensures ContentAt(Apply(base, script), key) == ContentAt(variant, key) {
      ApplyAt(base, script, key);
      if ContentAt(base, key) != ContentAt(variant, key) {
        var i :| 0 <= i < |script| && script[i].key == key;
      }
    }
    forall key ensures key in Apply(base, script) <==> key in variant {
      assert ContentAt(Apply(base, script), key) == ContentAt(variant, key);
    }
  }

  /** No change is listed exactly when the two keyed files agree on content. */
  lemma {:induction false} EmptyScriptIff(base: KeyedItems, variant: KeyedItems, script: seq<ItemChange>)
    requires IsEditScript(base, variant, script)
    ensures script == [] <==> forall key :: ContentAt(base, key) == ContentAt(variant, key)
  {
    if script != [] { assert ContentAt(base, script[0].key) != ContentAt(variant, script[0].key); }
  }

  // ----- parsed files

  /** Items in source order, disjoint and non-empty, each holding its own bytes. */
  ghost predicate WellParsed(source: Bytes, items: seq<Item>) {
    && (forall i :: 0 <= i < |items| ==> items[i].start < items[i].end <= |source|)
    && (forall i :: 0 <= i < |items| - 1 ==> items[i].end <= items[i + 1].start)
    && (forall i :: 0 <= i < |items| ==> items[i].content == source[items[i].start..items[i].end])
  }

  lemma {:induction false} Ascending(source: Bytes, items: seq<Item>, i: nat, j: nat)
    requires WellParsed(source, items) && i < j < |items|
    ensures items[i].end <= items[j].start
  {
    if i + 1 < j { Ascending(source, items, i, j - 1); }
  }

  /** The keyed view holds every item of a file exactly when no two items share a key. */
  lemma {:induction false} AllSeenIff(source: Bytes, items: seq<Item>)
    requires WellParsed(source, items)
    ensures (forall i :: 0 <= i < |items| ==> Keyed(items)[IdentityKey(items[i], i)] == items[i]) <==> DistinctKeys(items)
  {
    forall i | 0 <= i < |items|
      ensures Keyed(items)[IdentityKey(items[i], i)] == items[i] <==> LastOfKey(items, |items|, i)
    {
      SeenIff(source, items, i);
    }
  }

  function EndBefore(items: seq<Item>, i: nat): nat
    requires i <= |items|
  {
    if i == 0 then 0 else items[i - 1].end
  }

  /** The bytes between item `i - 1` and item `i`; gap `|items|` follows the last item. */
  function Gap(source: Bytes, items: seq<Item>, i: nat): Bytes
    requires WellParsed(source, items) && i <= |items|
  {
    source[EndBefore(items, i)..if i < |items| then items[i].start else |source|]
  }
}

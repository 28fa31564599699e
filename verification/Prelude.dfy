/** Option, Result, and the orders and sorting used by every other module. */
module Prelude {

  datatype Option<+T> = None | Some(value: T)

  datatype Result<+T, +E> = Ok(value: T) | Err(error: E)

  type Path = seq<string>  // a path is its list of components, compared component by component
  type WorkspaceId = string

  // ----- total orders

  ghost predicate TotalOrder<T(!new)>(le: (T, T) -> bool) {
    && (forall a, b :: le(a, b) || le(b, a))
    && (forall a, b :: le(a, b) && le(b, a) ==> a == b)
    && (forall a, b, c :: le(a, b) && le(b, c) ==> le(a, c))
  }

  /** Lexicographic order on sequences over an order on elements. */
  predicate Lex<T(==)>(le: (T, T) -> bool, a: seq<T>, b: seq<T>) {
    a == [] || (b != [] && if a[0] == b[0] then Lex(le, a[1..], b[1..]) else le(a[0], b[0]))
  }

  predicate StringLe(a: string, b: string) {
    Lex((x: char, y: char) => x <= y, a, b)
  }

  predicate PathLe(a: Path, b: Path) {
    Lex(StringLe, a, b)
  }

  predicate NatLe(a: nat, b: nat) { a <= b }

  lemma {:induction false} LexTotal<T(!new)>(le: (T, T) -> bool, a: seq<T>, b: seq<T>)
    requires TotalOrder(le)
    ensures Lex(le, a, b) || Lex(le, b, a)
    ensures Lex(le, a, b) && Lex(le, b, a) ==> a == b
    decreases |a|
  {
    if a != [] && b != [] && a[0] == b[0] {
      LexTotal(le, a[1..], b[1..]);
      assert a == [a[0]] + a[1..] && b == [b[0]] + b[1..];
    }
  }

  lemma {:induction false} LexTransitive<T(!new)>(le: (T, T) -> bool, a: seq<T>, b: seq<T>, c: seq<T>)
    requires TotalOrder(le)
    requires Lex(le, a, b) && Lex(le, b, c)
    ensures Lex(le, a, c)
    decreases |a|
  {
    if a != [] && a[0] == b[0] == c[0] {
      LexTransitive(le, a[1..], b[1..], c[1..]);
    }
  }

  lemma {:induction false} StringOrder()
    ensures TotalOrder(StringLe)
  {
    var le := (x: char, y: char) => x <= y;
    forall a: string, b: string
      ensures StringLe(a, b) || StringLe(b, a)
      ensures StringLe(a, b) && StringLe(b, a) ==> a == b
    {
      LexTotal(le, a, b);
    }
    forall a: string, b: string, c: string | StringLe(a, b) && StringLe(b, c)
      ensures StringLe(a, c)
    {
      LexTransitive(le, a, b, c);
    }
  }

  lemma {:induction false} PathOrder()
    ensures TotalOrder(PathLe)
  {
    StringOrder();
    forall a: Path, b: Path
      ensures PathLe(a, b) || PathLe(b, a)
      ensures PathLe(a, b) && PathLe(b, a) ==> a == b
    {
      LexTotal(StringLe, a, b);
    }
    forall a: Path, b: Path, c: Path | PathLe(a, b) && PathLe(b, c)
      ensures PathLe(a, c)
    {
      LexTransitive(StringLe, a, b, c);
    }
  }

  // ----- stable sorting by a key

  ghost predicate SortedBy<T, K>(s: seq<T>, key: T -> K, le: (K, K) -> bool) {
    forall i, j :: 0 <= i < j < |s| ==> le(key(s[i]), key(s[j]))
  }

  function Insert<T, K>(x: T, s: seq<T>, key: T -> K, le: (K, K) -> bool): (r: seq<T>)
    ensures multiset(r) == multiset{x} + multiset(s)
  {
    if s == [] || le(key(x), key(s[0])) then
      [x] + s
    else
      assert s == [s[0]] + s[1..];
      [s[0]] + Insert(x, s[1..], key, le)
  }

  /** Insertion sort: equal keys keep their order. */
  function Sort<T, K>(s: seq<T>, key: T -> K, le: (K, K) -> bool): (r: seq<T>)
    ensures multiset(r) == multiset(s)
  {
    if s == [] then []
    else
      assert s == [s[0]] + s[1..];
      Insert(s[0], Sort(s[1..], key, le), key, le)
  }

  lemma {:induction false} InsertSorted<T, K(!new)>(x: T, s: seq<T>, key: T -> K, le: (K, K) -> bool)
    requires TotalOrder(le) && SortedBy(s, key, le)
    ensures SortedBy(Insert(x, s, key, le), key, le)
  {
    if s != [] && !le(key(x), key(s[0])) {
      InsertSorted(x, s[1..], key, le);
      var r := Insert(x, s[1..], key, le);
      forall y | y in r ensures le(key(s[0]), key(y)) {
        assert y in multiset(r);
        assert y == x || y in s[1..];
      }
    }
  }

  lemma {:induction false} SortSorts<T, K(!new)>(s: seq<T>, key: T -> K, le: (K, K) -> bool)
    requires TotalOrder(le)
    ensures SortedBy(Sort(s, key, le), key, le)
  {
    if s != [] {
      SortSorts(s[1..], key, le);
      InsertSorted(s[0], Sort(s[1..], key, le), key, le);
    }
  }

  /** The elements with one key, in order. */
  function WithKey<T, K(==)>(s: seq<T>, key: T -> K, k: K): seq<T> {
    if s == [] then [] else (if key(s[0]) == k then [s[0]] else []) + WithKey(s[1..], key, k)
  }

  lemma {:induction false} InsertStable<T, K(!new)>(x: T, s: seq<T>, key: T -> K, le: (K, K) -> bool, k: K)
    requires TotalOrder(le)
    ensures WithKey(Insert(x, s, key, le), key, k) == (if key(x) == k then [x] else []) + WithKey(s, key, k)
  {
    if s != [] && !le(key(x), key(s[0])) {
      InsertStable(x, s[1..], key, le, k);
      assert key(x) != key(s[0]);
      WithKeyHead(s[0], Insert(x, s[1..], key, le), key, k);
    } else {
      WithKeyHead(x, s, key, k);
    }
  }

  lemma {:induction false} WithKeyHead<T, K>(x: T, s: seq<T>, key: T -> K, k: K)
    ensures WithKey([x] + s, key, k) == (if key(x) == k then [x] else []) + WithKey(s, key, k)
  {
    assert ([x] + s)[1..] == s;
  }

  /** Sorting keeps elements with equal keys in their order. */
  lemma {:induction false} SortStable<T, K(!new)>(s: seq<T>, key: T -> K, le: (K, K) -> bool, k: K)
    requires TotalOrder(le)
    ensures WithKey(Sort(s, key, le), key, k) == WithKey(s, key, k)
  {
    if s != [] {
      SortStable(s[1..], key, le, k);
      InsertStable(s[0], Sort(s[1..], key, le), key, le, k);
    }
  }

  lemma {:induction false} SameMembers<T>(a: seq<T>, b: seq<T>)
    requires multiset(a) == multiset(b)
    ensures |a| == |b|
    ensures forall x :: x in a <==> x in b
  {
    assert |multiset(a)| == |multiset(b)|;
    forall x ensures x in a <==> x in b {
      assert x in a <==> x in multiset(a);
      assert x in b <==> x in multiset(b);
    }
  }

  ghost predicate Distinct<T>(s: seq<T>) {
    forall i, j :: 0 <= i < j < |s| ==> s[i] != s[j]
  }

  function Map<T, U>(f: T -> U, s: seq<T>): (r: seq<U>)
    ensures |r| == |s| && forall i :: 0 <= i < |s| ==> r[i] == f(s[i])
  {
    seq(|s|, i requires 0 <= i < |s| => f(s[i]))
  }

  lemma {:induction false} Extract<T>(p: seq<T>, x: T, q: seq<T>)
    ensures multiset(p + [x] + q) == multiset{x} + multiset(p + q)
  {
  }

  lemma {:induction false} CancelOne<T>(x: T, a: multiset<T>, b: multiset<T>)
    requires multiset{x} + a == multiset{x} + b
    ensures a == b
  {
    assert a == (multiset{x} + a) - multiset{x};
    assert b == (multiset{x} + b) - multiset{x};
  }

  lemma {:induction false} MapAppend<T, U>(f: T -> U, a: seq<T>, b: seq<T>)
    ensures Map(f, a + b) == Map(f, a) + Map(f, b)
  {
  }

  /** Mapping permuted lists gives permuted lists. */
  lemma {:induction false} MapPermutation<T, U>(f: T -> U, a: seq<T>, b: seq<T>)
    requires multiset(a) == multiset(b)
    ensures multiset(Map(f, a)) == multiset(Map(f, b))
    decreases |a|
  {
    if a == [] {
      assert |multiset(b)| == 0;
    } else {
      var x, a' := a[0], a[1..];
      var p, q := Without(a, b);
      MapPermutation(f, a', p + q);
      MapSplit(f, p, x, q);
      MapHead(f, a);
    }
  }

  lemma {:induction false} MapHead<T, U>(f: T -> U, a: seq<T>)
    requires a != []
    ensures multiset(Map(f, a)) == multiset{f(a[0])} + multiset(Map(f, a[1..]))
  {
    assert Map(f, a) == [f(a[0])] + Map(f, a[1..]);
  }

  /** Taking the head of `a` out of a permutation of `a` leaves a permutation of the rest. */
  lemma {:induction false} Without<T>(a: seq<T>, b: seq<T>) returns (p: seq<T>, q: seq<T>)
    requires a != [] && multiset(a) == multiset(b)
    ensures b == p + [a[0]] + q && multiset(a[1..]) == multiset(p + q)
  {
    assert a == [] + [a[0]] + a[1..] && [] + a[1..] == a[1..];
    Extract([], a[0], a[1..]);
    assert a[0] in multiset(b);
    var k :| 0 <= k < |b| && b[k] == a[0];
    p, q := b[..k], b[k + 1..];
    assert b == p + [a[0]] + q;
    Extract(p, a[0], q);
    CancelOne(a[0], multiset(a[1..]), multiset(p + q));
  }

  lemma {:induction false} MapSplit<T, U>(f: T -> U, p: seq<T>, x: T, q: seq<T>)
    ensures multiset(Map(f, p + [x] + q)) == multiset{f(x)} + multiset(Map(f, p + q))
  {
    MapAppend(f, p + [x], q);
    MapAppend(f, p, [x]);
    MapAppend(f, p, q);
    Extract(Map(f, p), f(x), Map(f, q));
    assert Map(f, [x]) == [f(x)];
  }

  // ----- sets in order

  lemma {:induction false} DistinctIsSet<T>(s: seq<T>)
    requires Distinct(s)
    ensures multiset(s) == multiset(set x | x in s)
  {
    if s != [] {
      var front, last := s[..|s| - 1], s[|s| - 1];
      assert s == front + [last];
      DistinctIsSet(front);
      assert (set x | x in s) == (set x | x in front) + {last};
      assert last !in front;
    }
  }

  lemma {:induction false} DropHead<T>(a: seq<T>, b: seq<T>)
    requires multiset(a) == multiset(b) && a != [] && b != [] && a[0] == b[0]
    ensures multiset(a[1..]) == multiset(b[1..])
  {
    assert a == [a[0]] + a[1..] && b == [b[0]] + b[1..];
    CancelOne(a[0], multiset(a[1..]), multiset(b[1..]));
  }

  lemma {:induction false} HeadIsLeast<T, K>(a: seq<T>, key: T -> K, le: (K, K) -> bool, x: T)
    requires SortedBy(a, key, le) && x in a && le(key(x), key(x))
    ensures le(key(a[0]), key(x))
  {
  }

  /** A list sorted by an injective key is determined by its members. */
  lemma {:induction false} SortedUnique<T, K(!new)>(a: seq<T>, b: seq<T>, key: T -> K, le: (K, K) -> bool)
    requires TotalOrder(le) && SortedBy(a, key, le) && SortedBy(b, key, le) && multiset(a) == multiset(b)
    requires forall x, y :: x in a && y in a && key(x) == key(y) ==> x == y
    ensures a == b
    decreases |a|
  {
    SameMembers(a, b);
    if a != [] {
      assert a[0] == b[0] by {
        assert a[0] in b && b[0] in a;
        HeadIsLeast(a, key, le, b[0]);
        HeadIsLeast(b, key, le, a[0]);
      }
      DropHead(a, b);
      SortedUnique(a[1..], b[1..], key, le);
    }
  }

  method Ordered<T(==,!new)>(s: set<T>, le: (T, T) -> bool) returns (r: seq<T>)
    requires TotalOrder(le)
    ensures forall x :: x in r <==> x in s
    ensures Distinct(r) && SortedBy(r, (x: T) => x, le)
  {
    var rest, list := s, [];
    while rest != {}
      invariant rest <= s && forall x :: x in list <==> x in s - rest
      invariant Distinct(list)
      decreases rest
    {
      var x :| x in rest;
      assert x !in list;
      list, rest := list + [x], rest - {x};
    }
    var key := (x: T) => x;
    r := Sort(list, key, le);
    SortSorts(list, key, le);
    SameMembers(r, list);
    DistinctIsSet(list);
    OnceEachOf(r, multiset(list));
  }

  lemma {:induction false} OnceEachOf<T(!new)>(s: seq<T>, all: multiset<T>)
    requires multiset(s) <= all && forall p :: all[p] <= 1
    ensures Distinct(s)
  {
    forall i, j | 0 <= i < j < |s| ensures s[i] != s[j] {
      assert s == s[..i] + [s[i]] + s[i + 1..j] + [s[j]] + s[j + 1..];
      assert multiset(s)[s[i]] <= 1;
    }
  }
}

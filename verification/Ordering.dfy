/** Byte-lexicographic order on identifiers and on tuples of identifiers, and the
    sorting and deduplication steps the planner performs with it. */
module Ordering {

  predicate CharLess(x: char, y: char) {
    x < y
  }

  /** Lexicographic lifting of an element order. */
  predicate LexLess<T(==)>(less: (T, T) -> bool, a: seq<T>, b: seq<T>) {
    b != [] && (a == [] || less(a[0], b[0]) || (a[0] == b[0] && LexLess(less, a[1..], b[1..])))
  }

  predicate StringLess(a: string, b: string) {
    LexLess(CharLess, a, b)
  }

  /** Tuples of strings compare component by component. */
  predicate KeyLess(a: seq<string>, b: seq<string>) {
    LexLess(StringLess, a, b)
  }

  /** a comes before b at position k: they agree up to k, where a ends or has the smaller element. */
  predicate FirstDifference<T(==)>(less: (T, T) -> bool, a: seq<T>, b: seq<T>, k: nat) {
    && k <= |a| && k < |b| && a[..k] == b[..k]
    && (k < |a| ==> a[k] != b[k] && less(a[k], b[k]))
  }

  lemma {:induction false} LexLessAt<T>(less: (T, T) -> bool, a: seq<T>, b: seq<T>)
    requires forall x :: !less(x, x)
    ensures LexLess(less, a, b) <==> exists k: nat :: FirstDifference(less, a, b, k)
  {
    if a != [] && b != [] && a[0] == b[0] {
      LexLessAt(less, a[1..], b[1..]);
      if j: nat :| FirstDifference(less, a[1..], b[1..], j) {
        assert a[..j + 1] == [a[0]] + a[1..][..j] && b[..j + 1] == [b[0]] + b[1..][..j];
        assert FirstDifference(less, a, b, j + 1);
      }
      if k: nat :| FirstDifference(less, a, b, k) {
        assert k > 0 ==> a[1..][..k - 1] == a[..k][1..] && b[1..][..k - 1] == b[..k][1..];
        assert FirstDifference(less, a[1..], b[1..], k - 1);
      }
    } else {
      if LexLess(less, a, b) { assert FirstDifference(less, a, b, 0); }
      if k: nat :| FirstDifference(less, a, b, k) {
        assert k > 0 ==> a[..k][0] == b[..k][0];
      }
    }
  }

  /** Ids are ordered by the first character in which they differ, a prefix before its extension;
      tuples by the first component. */
  lemma OrdersMean(a: string, b: string, s: seq<string>, t: seq<string>)
    ensures StringLess(a, b) <==>
            exists k: nat :: k <= |a| && k < |b| && a[..k] == b[..k] && (k < |a| ==> a[k] < b[k])
    ensures KeyLess(s, t) <==>
            exists k: nat :: k <= |s| && k < |t| && s[..k] == t[..k] && (k < |s| ==> StringLess(s[k], t[k]))
  {
    StringOrderIsTotal();
    LexLessAt(CharLess, a, b);
    LexLessAt(StringLess, s, t);
    if k: nat :| FirstDifference(CharLess, a, b, k) {}
    if k: nat :| k <= |a| && k < |b| && a[..k] == b[..k] && (k < |a| ==> a[k] < b[k]) {
      assert FirstDifference(CharLess, a, b, k);
    }
    if k: nat :| FirstDifference(StringLess, s, t, k) {}
    if k: nat :| k <= |s| && k < |t| && s[..k] == t[..k] && (k < |s| ==> StringLess(s[k], t[k])) {
      assert FirstDifference(StringLess, s, t, k);
    }
  }

  ghost predicate StrictTotal<T(!new)>(less: (T, T) -> bool) {
    && (forall x :: !less(x, x))
    && (forall x, y :: less(x, y) || less(y, x) || x == y)
    && (forall x, y, z :: less(x, y) && less(y, z) ==> less(x, z))
  }

  lemma {:induction false} LexConnected<T(!new)>(less: (T, T) -> bool, a: seq<T>, b: seq<T>)
    requires StrictTotal(less)
    ensures LexLess(less, a, b) || LexLess(less, b, a) || a == b
    ensures !LexLess(less, a, a)
  {
    if a != [] {
      LexConnected(less, a[1..], a[1..]);
      if b != [] && a[0] == b[0] {
        LexConnected(less, a[1..], b[1..]);
        assert a == [a[0]] + a[1..] && b == [b[0]] + b[1..];
      }
    }
  }

  lemma {:induction false} LexTransitive<T(!new)>(less: (T, T) -> bool, a: seq<T>, b: seq<T>, c: seq<T>)
    requires StrictTotal(less) && LexLess(less, a, b) && LexLess(less, b, c)
    ensures LexLess(less, a, c)
  {
    if a != [] && a[0] == b[0] && b[0] == c[0] {
      LexTransitive(less, a[1..], b[1..], c[1..]);
    }
  }

  lemma StringOrderIsTotal()
    ensures StrictTotal(StringLess)
  {
    forall x: string, y: string, z: string
      ensures !StringLess(x, x) && (StringLess(x, y) || StringLess(y, x) || x == y)
      ensures StringLess(x, y) && StringLess(y, z) ==> StringLess(x, z)
    {
      LexConnected(CharLess, x, y);
      if StringLess(x, y) && StringLess(y, z) {
        LexTransitive(CharLess, x, y, z);
      }
    }
  }

  lemma KeyOrderIsTotal()
    ensures StrictTotal(KeyLess)
  {
    StringOrderIsTotal();
    forall x: seq<string>, y: seq<string>, z: seq<string>
      ensures !KeyLess(x, x) && (KeyLess(x, y) || KeyLess(y, x) || x == y)
      ensures KeyLess(x, y) && KeyLess(y, z) ==> KeyLess(x, z)
    {
      LexConnected(StringLess, x, y);
      if KeyLess(x, y) && KeyLess(y, z) {
        LexTransitive(StringLess, x, y, z);
      }
    }
  }

  lemma AtMostTransitive(a: seq<string>, b: seq<string>, c: seq<string>)
    requires !KeyLess(b, a) && !KeyLess(c, b)
    ensures !KeyLess(c, a)
  {
    KeyOrderIsTotal();
    assert KeyLess(a, b) || a == b;
  }

  lemma AtMostTotal(a: seq<string>, b: seq<string>)
    requires KeyLess(a, b)
    ensures !KeyLess(b, a)
  {
    KeyOrderIsTotal();
    assert !KeyLess(a, a);
  }

  // ----- stable sorting by a key

  function Insert<T>(key: T -> seq<string>, x: T, s: seq<T>): seq<T> {
    if s == [] || !KeyLess(key(s[0]), key(x)) then [x] + s else [s[0]] + Insert(key, x, s[1..])
  }

  function SortBy<T>(key: T -> seq<string>, s: seq<T>): seq<T> {
    if s == [] then [] else Insert(key, s[0], SortBy(key, s[1..]))
  }

  ghost predicate SortedBy<T>(key: T -> seq<string>, s: seq<T>) {
    forall i, j :: 0 <= i < j < |s| ==> !KeyLess(key(s[j]), key(s[i]))
  }

  lemma {:induction false} InsertSorts<T>(key: T -> seq<string>, x: T, s: seq<T>)
    requires SortedBy(key, s)
    ensures SortedBy(key, Insert(key, x, s))
    ensures multiset(Insert(key, x, s)) == multiset(s) + multiset{x}
  {
    if s == [] {
    } else if !KeyLess(key(s[0]), key(x)) {
      forall j | 0 <= j < |s|
        ensures !KeyLess(key(s[j]), key(x))
      {
        if j > 0 { AtMostTransitive(key(x), key(s[0]), key(s[j])); }
      }
    } else {
      var rest := Insert(key, x, s[1..]);
      InsertSorts(key, x, s[1..]);
      assert s == [s[0]] + s[1..];
      forall j | 0 <= j < |rest|
        ensures !KeyLess(key(rest[j]), key(s[0]))
      {
        assert rest[j] in multiset(rest);
        if rest[j] == x {
          AtMostTotal(key(s[0]), key(x));
        } else {
          assert rest[j] in multiset(s[1..]);
          assert rest[j] in s[1..];
        }
      }
    }
  }

  lemma {:induction false} SortBySorts<T>(key: T -> seq<string>, s: seq<T>)
    ensures SortedBy(key, SortBy(key, s))
    ensures multiset(SortBy(key, s)) == multiset(s)
    ensures |SortBy(key, s)| == |s|
  {
    if s != [] {
      SortBySorts(key, s[1..]);
      InsertSorts(key, s[0], SortBy(key, s[1..]));
      assert s == [s[0]] + s[1..];
    }
    assert |multiset(SortBy(key, s))| == |SortBy(key, s)|;
    assert |multiset(s)| == |s|;
  }

  lemma TailElements<T>(s: seq<T>)
    requires s != []
    ensures multiset(s[1..]) == multiset(s) - multiset{s[0]}
    ensures s == [s[0]] + s[1..]
  {
    assert s == [s[0]] + s[1..];
  }

  lemma SameHead<T>(key: T -> seq<string>, s: seq<T>, t: seq<T>)
    requires s != [] && t != [] && SortedBy(key, s) && SortedBy(key, t) && multiset(s) == multiset(t)
    requires forall x, y :: x in s && y in s && key(x) == key(y) ==> x == y
    ensures s[0] == t[0]
  {
    KeyOrderIsTotal();
    assert s[0] in multiset(t) && t[0] in multiset(s);
  }

  /** Two sorted arrangements of the same elements coincide when the key identifies the element. */
  lemma {:induction false} SortedUnique<T>(key: T -> seq<string>, s: seq<T>, t: seq<T>)
    requires SortedBy(key, s) && SortedBy(key, t) && multiset(s) == multiset(t)
    requires forall x, y :: x in s && y in s && key(x) == key(y) ==> x == y
    ensures s == t
  {
    assert |s| == |multiset(s)| == |multiset(t)| == |t|;
    if s != [] {
      SameHead(key, s, t);
      TailElements(s);
      TailElements(t);
      SortedUnique(key, s[1..], t[1..]);
    }
  }

  // ----- sorted sets of strings (the iteration order of an ordered set)

  ghost predicate StrictlyAscending(s: seq<string>) {
    forall i, j :: 0 <= i < j < |s| ==> StringLess(s[i], s[j])
  }

  lemma {:induction false} LeastExists(s: set<string>)
    requires s != {}
    ensures exists x :: x in s && forall y :: y in s ==> !StringLess(y, x)
  {
    StringOrderIsTotal();
    var x :| x in s;
    if s == {x} {
    } else {
      var rest := s - {x};
      LeastExists(rest);
      var m :| m in rest && forall y :: y in rest ==> !StringLess(y, m);
      assert s == rest + {x};
      var best := if StringLess(x, m) then x else m;
      assert best in s && forall y :: y in s ==> !StringLess(y, best);
    }
  }

  ghost function Least(s: set<string>): (x: string)
    requires s != {}
    ensures x in s && forall y :: y in s ==> !StringLess(y, x)
  {
    LeastExists(s);
    var x :| x in s && forall y :: y in s ==> !StringLess(y, x);
    x
  }

  /** The iteration order of an ordered set. */
  ghost function Ascending(s: set<string>): (r: seq<string>)
    ensures StrictlyAscending(r)
    ensures forall x :: x in r <==> x in s
  {
    StringOrderIsTotal();
    if s == {} then [] else [Least(s)] + Ascending(s - {Least(s)})
  }

  lemma {:induction false} AscendingUnique(s: seq<string>, t: seq<string>)
    requires StrictlyAscending(s) && StrictlyAscending(t)
    requires forall x :: x in s <==> x in t
    ensures s == t
  {
    StringOrderIsTotal();
    assert s != [] ==> s[0] in t;
    assert t != [] ==> t[0] in s;
    if s != [] && t != [] {
      assert s[0] in t && t[0] in s;
      assert s[0] == t[0];
      forall x
        ensures x in s[1..] <==> x in t[1..]
      {
        if x in s[1..] { assert x in s && x != s[0]; assert x in t; }
        if x in t[1..] { assert x in t && x != t[0]; assert x in s; }
      }
      AscendingUnique(s[1..], t[1..]);
    }
  }

  function SingleKey(x: string): seq<string> {
    [x]
  }

  /** Removes adjacent repetitions. */
  function Dedup(s: seq<string>): seq<string> {
    if |s| <= 1 then s
    else if s[0] == s[1] then Dedup(s[1..])
    else [s[0]] + Dedup(s[1..])
  }

  function SortDedup(s: seq<string>): seq<string> {
    Dedup(SortBy(SingleKey, s))
  }

  lemma {:induction false} DedupAscends(s: seq<string>)
    requires SortedBy(SingleKey, s)
    ensures StrictlyAscending(Dedup(s))
    ensures forall x :: x in Dedup(s) <==> x in s
    ensures s != [] ==> Dedup(s) != [] && Dedup(s)[0] == s[0]
  {
    StringOrderIsTotal();
    if |s| > 1 {
      assert !KeyLess([s[1]], [s[0]]);
      assert !StringLess(s[1], s[0]);
      DedupAscends(s[1..]);
      assert s == [s[0]] + s[1..];
      var d := Dedup(s[1..]);
      if s[0] != s[1] {
        forall j | 0 <= j < |d|
          ensures StringLess(s[0], d[j])
        {
          if j > 0 { assert StringLess(d[0], d[j]); }
        }
      }
    }
  }

  lemma SortDedupAscends(s: seq<string>)
    ensures StrictlyAscending(SortDedup(s))
    ensures forall x :: x in SortDedup(s) <==> x in s
  {
    SortBySorts(SingleKey, s);
    DedupAscends(SortBy(SingleKey, s));
    forall x
      ensures x in SortBy(SingleKey, s) <==> x in s
    {
      assert x in multiset(s) <==> x in s;
      assert x in multiset(SortBy(SingleKey, s)) <==> x in SortBy(SingleKey, s);
    }
  }

  /** The sorted, deduplicated list depends only on which strings occur. */
  lemma SortDedupDependsOnElements(s: seq<string>, t: seq<string>)
    requires forall x :: x in s <==> x in t
    ensures SortDedup(s) == SortDedup(t)
  {
    SortDedupAscends(s);
    SortDedupAscends(t);
    AscendingUnique(SortDedup(s), SortDedup(t));
  }
}

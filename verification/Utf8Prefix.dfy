/** Cutting UTF-8 text to a byte budget at a character boundary. */
module Utf8Prefix {
  import opened Basics

  predicate Between(b: seq<byte>, i: nat, lo: int, hi: int) {
    i < |b| && lo <= b[i] <= hi
  }

  /** Length of the well-formed UTF-8 sequence at the front (Unicode table 3-7), 0 if there is none. */
  function CharLength(b: seq<byte>): nat {
    if b == [] then 0
    else if b[0] < 0x80 then 1
    else if 0xC2 <= b[0] <= 0xDF && Between(b, 1, 0x80, 0xBF) then 2
    else if 0xE0 <= b[0] <= 0xEF && Between(b, 1, if b[0] == 0xE0 then 0xA0 else 0x80,
                                            if b[0] == 0xED then 0x9F else 0xBF)
            && Between(b, 2, 0x80, 0xBF) then 3
    else if 0xF0 <= b[0] <= 0xF4 && Between(b, 1, if b[0] == 0xF0 then 0x90 else 0x80,
                                            if b[0] == 0xF4 then 0x8F else 0xBF)
            && Between(b, 2, 0x80, 0xBF) && Between(b, 3, 0x80, 0xBF) then 4
    else 0
  }

  predicate Utf8Valid(b: seq<byte>) {
    b == [] || (CharLength(b) > 0 && Utf8Valid(b[CharLength(b)..]))
  }

  /** The text of a string: bytes that are valid UTF-8. */
  type Text = b: seq<byte> | Utf8Valid(b) witness []

  predicate IsCharBoundary(b: seq<byte>, i: nat) {
    i == 0 || i == |b| || (i < |b| && (b[i] < 0x80 || b[i] >= 0xC0))
  }

  /** The longest boundary not beyond the budget. */
  ghost predicate LongestPrefix(b: seq<byte>, budget: nat, n: nat) {
    && n <= budget && n <= |b| && IsCharBoundary(b, n)
    && forall m :: n < m <= budget && m <= |b| ==> !IsCharBoundary(b, m)
  }

  lemma {:induction false} PrefixIsValid(b: seq<byte>, n: nat)
    requires Utf8Valid(b) && n <= |b| && IsCharBoundary(b, n)
    ensures Utf8Valid(b[..n])
    decreases |b|
  {
    if n > 0 {
      var k := CharLength(b);
      assert n >= k;
      PrefixIsValid(b[k..], n - k);
      assert b[..n][k..] == b[k..n] == b[k..][..n - k];
      assert CharLength(b[..n]) == k;
    }
  }

  lemma {:induction false} PrefixUnique(b: seq<byte>, budget: nat, m: nat, n: nat)
    requires LongestPrefix(b, budget, m) && LongestPrefix(b, budget, n)
    ensures m == n
  {
    assert !(m < n) && !(n < m);
  }

  /** A non-empty text keeps at least its first character, and a text that fits is kept whole. */
  lemma PrefixKeepsEnough(b: seq<byte>, budget: nat, n: nat)
    requires Utf8Valid(b) && LongestPrefix(b, budget, n)
    ensures |b| <= budget ==> n == |b|
    ensures b != [] && budget >= 4 ==> n > 0
  {
    assert IsCharBoundary(b, |b|);
    if b != [] && budget >= 4 {
      var k := CharLength(b);
      assert IsCharBoundary(b, k) by {
        if k < |b| { assert CharLength(b[k..]) > 0; assert b[k..][0] == b[k]; }
      }
    }
  }

  ghost function PrefixLength(b: seq<byte>, budget: nat): (n: nat)
    ensures LongestPrefix(b, budget, n)
  {
    LongestExists(b, budget, if |b| <= budget then |b| else budget);
    var n: nat :| LongestPrefix(b, budget, n);
    n
  }

  lemma {:induction false} LongestExists(b: seq<byte>, budget: nat, from: nat)
    requires from <= budget && from <= |b|
    requires forall m :: from < m <= budget && m <= |b| ==> !IsCharBoundary(b, m)
    ensures exists n: nat :: LongestPrefix(b, budget, n)
  {
    if IsCharBoundary(b, from) {
      assert LongestPrefix(b, budget, from);
    } else {
      LongestExists(b, budget, from - 1);
    }
  }

  /** The text as a shared record keeps it. */
  ghost function Cut(b: Text, budget: nat): (r: Text)
    ensures |b| <= budget ==> r == b
    ensures r <= b && |r| <= budget
  {
    PrefixIsValid(b, PrefixLength(b, budget));
    PrefixKeepsEnough(b, budget, PrefixLength(b, budget));
    b[..PrefixLength(b, budget)]
  }

  /** Copies the longest fitting prefix into the target and reports its length. */
  method CopyUtf8Prefix(source: seq<byte>, target: array<byte>) returns (length: nat)
    requires Utf8Valid(source)
    modifies target
    ensures length == PrefixLength(source, target.Length)
    ensures target[..length] == Cut(source, target.Length)
    ensures target[length..] == old(target[..])[length..]
  {
    length := if |source| <= target.Length then |source| else target.Length;
    while length > 0 && !IsCharBoundary(source, length)
      invariant length <= target.Length && length <= |source|
      invariant forall m :: length < m <= target.Length && m <= |source| ==> !IsCharBoundary(source, m)
    {
      length := length - 1;
    }
    PrefixUnique(source, target.Length, length, PrefixLength(source, target.Length));
    for i := 0 to length
      invariant target[..i] == source[..i]
      invariant target[i..] == old(target[..])[i..]
    {
      target[i] := source[i];
    }
  }
}

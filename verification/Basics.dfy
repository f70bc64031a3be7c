/** Small definitions shared by the models. */
module Basics {

  const U64_MAX := 0xFFFF_FFFF_FFFF_FFFF

  datatype Option<+T> = None | Some(value: T)

  function Min(a: nat, b: nat): nat {
    if a <= b then a else b
  }

  function Max(a: nat, b: nat): nat {
    if a >= b then a else b
  }

  type byte = x: int | 0 <= x < 256

  predicate Distinct(ids: seq<string>) {
    forall i, j :: 0 <= i < j < |ids| ==> ids[i] != ids[j]
  }

  function Elements(ids: seq<string>): set<string> {
    set id | id in ids
  }

  /** One value per row, as a column of a table. */
  function Mapped<S, T>(f: S -> T, s: seq<S>): (r: seq<T>)
    ensures |r| == |s|
  {
    seq(|s|, i requires 0 <= i < |s| => f(s[i]))
  }

  lemma MappedHead<S, T>(f: S -> T, s: seq<S>)
    requires s != []
    ensures Mapped(f, s) == [f(s[0])] + Mapped(f, s[1..])
  {
  }

  lemma MappedOne<S, T>(f: S -> T, s: seq<S>)
    requires |s| == 1
    ensures Mapped(f, s) == [f(s[0])]
  {
  }
}

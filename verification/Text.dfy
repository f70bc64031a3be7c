/** Alphabets, whitespace trimming and ASCII case folding. */
module Text {

  predicate IsWhitespace(c: char) {
    || '\t' <= c <= '\r' || c == ' ' || c == '\U{85}' || c == '\U{A0}' || c == '\U{1680}'
    || '\U{2000}' <= c <= '\U{200A}' || c == '\U{2028}' || c == '\U{2029}' || c == '\U{202F}'
    || c == '\U{205F}' || c == '\U{3000}'
  }

  function LowerChar(c: char): char {
    if 'A' <= c <= 'Z' then c - 'A' + 'a' else c
  }

  function Lower(s: string): (r: string)
    ensures |r| == |s|
  {
    seq(|s|, i requires 0 <= i < |s| => LowerChar(s[i]))
  }

  function TrimStart(s: string): string {
    if s != [] && IsWhitespace(s[0]) then TrimStart(s[1..]) else s
  }

  function TrimEnd(s: string): string {
    if s != [] && IsWhitespace(s[|s| - 1]) then TrimEnd(s[..|s| - 1]) else s
  }

  function Trim(s: string): string {
    TrimEnd(TrimStart(s))
  }

  // ----- alphabets

  const LOWER := "abcdefghijklmnopqrstuvwxyz"
  const UPPER := "ABCDEFGHIJKLMNOPQRSTUVWXYZ"
  const DIGITS := "0123456789"

  predicate MadeOf(s: string, alphabet: string) {
    forall i :: 0 <= i < |s| ==> s[i] in alphabet
  }

  lemma LowerLetters(c: char)
    ensures c in LOWER <==> 'a' <= c <= 'z'
  {
    if 'a' <= c <= 'z' { assert LOWER[c as int - 'a' as int] == c; }
  }

  lemma UpperLetters(c: char)
    ensures c in UPPER <==> 'A' <= c <= 'Z'
  {
    if 'A' <= c <= 'Z' { assert UPPER[c as int - 'A' as int] == c; }
  }

  lemma Digits(c: char)
    ensures c in DIGITS <==> '0' <= c <= '9'
  {
  }

  /** Letters, digits and some marks, in one alphabet. */
  lemma AlphabetWith(c: char, marks: string)
    ensures c in LOWER + UPPER + DIGITS + marks <==>
            'a' <= c <= 'z' || 'A' <= c <= 'Z' || '0' <= c <= '9' || c in marks
  {
    LowerLetters(c);
    UpperLetters(c);
    Digits(c);
  }

  /** The characters with the White_Space property of Unicode. */
  lemma WhitespaceIs(c: char)
    ensures IsWhitespace(c) <==>
            c as int in {0x09, 0x0A, 0x0B, 0x0C, 0x0D, 0x20, 0x85, 0xA0, 0x1680,
                         0x2000, 0x2001, 0x2002, 0x2003, 0x2004, 0x2005, 0x2006, 0x2007, 0x2008, 0x2009, 0x200A,
                         0x2028, 0x2029, 0x202F, 0x205F, 0x3000}
  {
  }

  // ----- what trimming and folding mean

  ghost predicate Spaces(s: string) {
    forall i :: 0 <= i < |s| ==> IsWhitespace(s[i])
  }

  lemma {:induction false} TrimStartMeans(s: string) returns (lead: string)
    ensures s == lead + TrimStart(s) && Spaces(lead)
    ensures TrimStart(s) != [] ==> !IsWhitespace(TrimStart(s)[0])
  {
    if s != [] && IsWhitespace(s[0]) {
      var rest := TrimStartMeans(s[1..]);
      lead := [s[0]] + rest;
      assert s == [s[0]] + s[1..];
    } else {
      lead := [];
    }
  }

  lemma {:induction false} TrimEndMeans(s: string) returns (trail: string)
    ensures s == TrimEnd(s) + trail && Spaces(trail)
    ensures TrimEnd(s) != [] ==> !IsWhitespace(TrimEnd(s)[|TrimEnd(s)| - 1])
  {
    if s != [] && IsWhitespace(s[|s| - 1]) {
      var rest := TrimEndMeans(s[..|s| - 1]);
      trail := rest + [s[|s| - 1]];
      assert s == s[..|s| - 1] + [s[|s| - 1]];
    } else {
      trail := [];
    }
  }

  /** Trimming removes whitespace at both ends and nothing else. */
  lemma TrimMeans(s: string) returns (lead: string, trail: string)
    ensures s == lead + Trim(s) + trail && Spaces(lead) && Spaces(trail)
    ensures Trim(s) != [] ==> !IsWhitespace(Trim(s)[0]) && !IsWhitespace(Trim(s)[|Trim(s)| - 1])
  {
    lead := TrimStartMeans(s);
    trail := TrimEndMeans(TrimStart(s));
    var inner := TrimStart(s);
    assert Trim(s) != [] ==> inner[0] == Trim(s)[0];
  }

  lemma {:induction false} TrimStartOf(lead: string, core: string)
    requires Spaces(lead) && (core == [] || !IsWhitespace(core[0]))
    ensures TrimStart(lead + core) == core
  {
    if lead == [] {
      assert lead + core == core;
    } else {
      assert (lead + core)[1..] == lead[1..] + core;
      TrimStartOf(lead[1..], core);
    }
  }

  lemma {:induction false} TrimEndOf(core: string, trail: string)
    requires Spaces(trail) && (core == [] || !IsWhitespace(core[|core| - 1]))
    ensures TrimEnd(core + trail) == core
  {
    if trail == [] {
      assert core + trail == core;
    } else {
      assert (core + trail)[..|core + trail| - 1] == core + trail[..|trail| - 1];
      TrimEndOf(core, trail[..|trail| - 1]);
    }
  }

  /** Text between whitespace, with none at its own ends, is what trimming leaves. */
  lemma TrimOf(lead: string, core: string, trail: string)
    requires Spaces(lead) && Spaces(trail) && core != []
    requires !IsWhitespace(core[0]) && !IsWhitespace(core[|core| - 1])
    ensures Trim(lead + core + trail) == core
  {
    assert lead + core + trail == lead + (core + trail);
    assert (core + trail)[0] == core[0];
    TrimStartOf(lead, core + trail);
    TrimEndOf(core, trail);
  }

  lemma TrimTrailing(core: string, trail: string)
    requires Spaces(trail) && core != [] && !IsWhitespace(core[0]) && !IsWhitespace(core[|core| - 1])
    ensures Trim(core + trail) == core
  {
    assert (core + trail)[0] == core[0];
    TrimEndOf(core, trail);
  }

  /** Folding maps each capital letter to its small one and keeps every other character. */
  lemma LowerMeans(s: string, i: nat)
    requires i < |s|
    ensures s[i] !in UPPER ==> Lower(s)[i] == s[i]
    ensures forall k :: 0 <= k < 26 && s[i] == UPPER[k] ==> Lower(s)[i] == LOWER[k]
  {
    UpperLetters(s[i]);
  }
}

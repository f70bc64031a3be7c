/** The LIKE pattern built for a catalogue query, and what it matches under ESCAPE '\'. */
module LikePattern {

  const ESCAPE := '\\'

  /** Replaces every occurrence of one character by a string. */
  function Replace(s: string, c: char, to: string): string {
    if s == [] then [] else (if s[0] == c then to else [s[0]]) + Replace(s[1..], c, to)
  }

  function Escaped(query: string): string {
    Replace(Replace(Replace(query, '\\', "\\\\"), '%', "\\%"), '_', "\\_")
  }

  function CatalogLikePattern(query: string): string {
    "%" + Escaped(query) + "%"
  }

  /** SQL LIKE with ESCAPE '\': % stands for any run of characters, _ for any one, and an
      escaped character for itself. `same` is the collation's character equality. A pattern
      ending in a lone escape character matches nothing. */
  ghost predicate Like(pattern: string, text: string, same: (char, char) -> bool)
    decreases |pattern|, |text|
  {
    if pattern == [] then text == []
    else if pattern[0] == '%' then
      Like(pattern[1..], text, same) || (text != [] && Like(pattern, text[1..], same))
    else if pattern[0] == ESCAPE then
      |pattern| > 1 && text != [] && same(pattern[1], text[0]) && Like(pattern[2..], text[1..], same)
    else
      text != [] && (pattern[0] == '_' || same(pattern[0], text[0])) && Like(pattern[1..], text[1..], same)
  }

  ghost predicate PrefixMatches(query: string, text: string, same: (char, char) -> bool) {
    |query| <= |text| && forall i :: 0 <= i < |query| ==> same(query[i], text[i])
  }

  /** The query occurs in the text as a literal substring. */
  ghost predicate Occurs(query: string, text: string, same: (char, char) -> bool) {
    exists k :: 0 <= k <= |text| && PrefixMatches(query, text[k..], same)
  }

  predicate Special(c: char) {
    c == '\\' || c == '%' || c == '_'
  }

  lemma SpecialCharacters(c: char)
    ensures Special(c) <==> c in "_%\\"
  {
  }

  /** The three chained replacements amount to one escape in front of each special character. */
  lemma {:induction false} EscapedByCharacter(query: string)
    ensures Escaped(query) ==
            if query == [] then []
            else (if Special(query[0]) then ['\\', query[0]] else [query[0]]) + Escaped(query[1..])
  {
    if query != [] {
      var c, rest := query[0], query[1..];
      var once := Replace(query, '\\', "\\\\");
      var restOnce := Replace(rest, '\\', "\\\\");
      var head := if c == '\\' then "\\\\" else [c];
      assert once == head + restOnce;
      ReplaceConcat(head, restOnce, '%', "\\%");
      ReplaceHead(head, '%', "\\%");
      var restTwice := Replace(restOnce, '%', "\\%");
      var headTwice := Replace(head, '%', "\\%");
      ReplaceConcat(headTwice, restTwice, '_', "\\_");
      ReplaceHead(headTwice, '_', "\\_");
    }
  }

  lemma {:induction false} ReplaceConcat(a: string, b: string, c: char, to: string)
    ensures Replace(a + b, c, to) == Replace(a, c, to) + Replace(b, c, to)
  {
    if a == [] {
      assert a + b == b;
    } else {
      assert (a + b)[1..] == a[1..] + b;
      ReplaceConcat(a[1..], b, c, to);
    }
  }

  lemma ReplaceHead(head: string, c: char, to: string)
    requires 1 <= |head| <= 2
    ensures Replace(head, c, to) == (if head[0] == c then to else [head[0]])
                                    + (if |head| == 1 then [] else if head[1] == c then to else [head[1]])
  {
    assert Replace(head[1..], c, to) ==
           (if |head| == 1 then [] else if head[1] == c then to else [head[1]]) by {
      if |head| == 2 {
        assert head[1..][1..] == [];
      }
    }
  }

  lemma {:induction false} PercentTakesAnySuffix(rest: string, text: string, same: (char, char) -> bool)
    ensures Like("%" + rest, text, same) <==> exists k :: 0 <= k <= |text| && Like(rest, text[k..], same)
    decreases |text|
  {
    var pattern := "%" + rest;
    assert pattern[1..] == rest;
    assert text[0..] == text;
    if text != [] {
      PercentTakesAnySuffix(rest, text[1..], same);
      if Like(pattern, text[1..], same) {
        var k :| 0 <= k <= |text[1..]| && Like(rest, text[1..][k..], same);
        assert text[1..][k..] == text[k + 1..];
      }
      if k :| 0 <= k <= |text| && Like(rest, text[k..], same) {
        if k > 0 { assert text[1..][k - 1..] == text[k..]; }
      }
    }
  }

  /** An escaped query followed by % matches exactly the texts that start with the query. */
  lemma {:induction false} EscapedMatchesPrefix(query: string, text: string, same: (char, char) -> bool)
    ensures Like(Escaped(query) + "%", text, same) <==> PrefixMatches(query, text, same)
    decreases |query|
  {
    EscapedByCharacter(query);
    var pattern := Escaped(query) + "%";
    if query == [] {
      PercentTakesAnySuffix("", text, same);
      assert pattern == "%" + "";
      assert text[|text|..] == [];
    } else {
      var rest := Escaped(query[1..]) + "%";
      if Special(query[0]) {
        assert pattern == [ESCAPE, query[0]] + rest;
        assert pattern[2..] == rest;
      } else {
        assert pattern == [query[0]] + rest;
        assert pattern[1..] == rest;
      }
      if text != [] {
        EscapedMatchesPrefix(query[1..], text[1..], same);
        assert PrefixMatches(query, text, same) <==>
               same(query[0], text[0]) && PrefixMatches(query[1..], text[1..], same) by {
          if same(query[0], text[0]) && PrefixMatches(query[1..], text[1..], same) {
            forall i | 0 <= i < |query|
              ensures same(query[i], text[i])
            {
              if i > 0 { assert query[i] == query[1..][i - 1] && text[i] == text[1..][i - 1]; }
            }
          }
        }
      }
    }
  }

  /** The pattern matches a text exactly when the query occurs in it literally. */
  lemma PatternMeansSubstring(query: string, text: string, same: (char, char) -> bool)
    ensures Like(CatalogLikePattern(query), text, same) <==> Occurs(query, text, same)
  {
    assert CatalogLikePattern(query) == "%" + (Escaped(query) + "%");
    PercentTakesAnySuffix(Escaped(query) + "%", text, same);
    forall k | 0 <= k <= |text|
      ensures Like(Escaped(query) + "%", text[k..], same) <==> PrefixMatches(query, text[k..], same)
    {
      EscapedMatchesPrefix(query, text[k..], same);
    }
  }
}

/** The header grammar the parameter parser accepts, and that it accepts exactly that. */
module ChallengeGrammar {
  import opened Basics
  import opened Text
  import opened ChallengeParameters

  // ----- the grammar

  /** A character that stands for itself between quotes. */
  predicate Plain(c: char) {
    c != '"' && c != '\\' && !IsControl(c)
  }

  /** A quoted body spells a text: each character as itself or behind a backslash. */
  ghost predicate Spells(body: string, text: string)
    decreases |text|
  {
    if text == [] then body == []
    else
      || (body != [] && Plain(body[0]) && body[0] == text[0] && Spells(body[1..], text[1..]))
      || (|body| >= 2 && body[0] == '\\' && body[1] == text[0] && Spells(body[2..], text[1..]))
  }

  const TOKEN_CHARACTERS := LOWER + UPPER + DIGITS + "_-"

  /** One parameter as written: a name, an equals sign and a quoted text, with whitespace around
      each of them. */
  ghost predicate Writes(raw: string, name: string, text: string) {
    exists a, b, c, body, d :: WrittenAs(raw, name, text, a, b, c, body, d)
  }

  ghost predicate WrittenAs(raw: string, name: string, text: string, a: string, b: string, c: string, body: string,
                            d: string) {
    && Spaces(a) && Spaces(b) && Spaces(c) && Spaces(d) && Spells(body, text)
    && name != [] && MadeOf(name, TOKEN_CHARACTERS)
    && raw == a + Core(name, b, c, body) + d
  }

  function Quoted(body: string): string {
    "\"" + body + "\""
  }

  function Core(name: string, b: string, c: string, body: string): string {
    name + b + "=" + (c + Quoted(body))
  }

  /** Pieces with commas between them. */
  function Joined(raws: seq<string>): string {
    if raws == [] then []
    else if |raws| == 1 then raws[0]
    else raws[0] + "," + Joined(raws[1..])
  }

  ghost predicate DistinctNames(list: Parameters) {
    forall i, j :: 0 <= i < j < |list| ==> Lower(list[i].0) != Lower(list[j].0)
  }

  ghost predicate WritesList(raws: seq<string>, list: Parameters) {
    |raws| == |list| && forall i :: 0 <= i < |list| ==> Writes(raws[i], list[i].0, list[i].1)
  }

  /** A header value that lists the parameters, at least one, names distinct ignoring case. */
  ghost predicate Header(value: string, list: Parameters) {
    list != [] && DistinctNames(list) && exists raws :: value == Joined(raws) && WritesList(raws, list)
  }

  // ----- one parameter

  /** The decoder accepts exactly the bodies that spell a text, as that text. */
  lemma {:induction false} DecodeMeansSpelling(body: string, text: string)
    ensures Decode(body, false) == Some(text) <==> Spells(body, text)
    decreases |body|
  {
    if body != [] && text != [] {
      DecodeMeansSpelling(body[1..], text[1..]);
      assert text == [text[0]] + text[1..];
      if |body| >= 2 {
        assert body[1..][1..] == body[2..];
        DecodeMeansSpelling(body[2..], text[1..]);
      }
    }
  }

  lemma Tokens(name: string)
    ensures IsToken(name) <==> name != [] && MadeOf(name, TOKEN_CHARACTERS)
  {
    forall i | 0 <= i < |name|
      ensures name[i] in TOKEN_CHARACTERS <==> IsTokenChar(name[i])
    {
      AlphabetWith(name[i], "_-");
    }
  }

  /** Control characters may not stand for themselves between quotes. */
  lemma PlainCharacters(c: char)
    ensures Plain(c) <==> (32 <= c as int < 127 || c as int > 159) && c != '"' && c != '\\'
  {
  }

  lemma EqualsAt(before: string, after: string)
    requires forall i :: 0 <= i < |before| ==> before[i] != '='
    ensures IndexOfEquals(before + "=" + after) == |before|
    ensures (before + "=" + after)[..|before|] == before && (before + "=" + after)[|before| + 1..] == after
  {
    var s := before + "=" + after;
    assert s[|before|] == '=';
    assert forall i :: 0 <= i < |before| ==> s[i] == before[i];
  }

  lemma NameIsRead(name: string, b: string)
    requires name != [] && MadeOf(name, TOKEN_CHARACTERS) && Spaces(b)
    ensures Trim(name + b) == name && IsToken(name)
  {
    Tokens(name);
    assert IsTokenChar(name[0]) && IsTokenChar(name[|name| - 1]);
    TrimTrailing(name, b);
  }

  lemma NoEquals(name: string, b: string)
    requires IsToken(name) && Spaces(b)
    ensures forall i :: 0 <= i < |name + b| ==> (name + b)[i] != '='
  {
    forall i | 0 <= i < |name + b|
      ensures (name + b)[i] != '='
    {
      assert i < |name| ==> IsTokenChar(name[i]);
      assert i >= |name| ==> IsWhitespace(b[i - |name|]);
    }
  }

  lemma TextIsRead(c: string, body: string)
    requires Spaces(c)
    ensures Trim(c + Quoted(body)) == Quoted(body)
    ensures Quoted(body)[1..|Quoted(body)| - 1] == body
  {
    TrimOf(c, Quoted(body), "");
    assert c + Quoted(body) + "" == c + Quoted(body);
  }

  lemma CoreIsRead(name: string, b: string, c: string, body: string, text: string)
    requires Spaces(b) && Spaces(c) && Spells(body, text) && name != [] && MadeOf(name, TOKEN_CHARACTERS)
    ensures ParsePart(Core(name, b, c, body)) == Some((name, text))
  {
    NameIsRead(name, b);
    NoEquals(name, b);
    TextIsRead(c, body);
    EqualsAt(name + b, c + Quoted(body));
    DecodeMeansSpelling(body, text);
  }

  lemma CoreIsTrimmed(a: string, name: string, b: string, c: string, body: string, d: string)
    requires Spaces(a) && Spaces(d) && name != [] && MadeOf(name, TOKEN_CHARACTERS)
    ensures Trim(a + Core(name, b, c, body) + d) == Core(name, b, c, body)
  {
    var core := Core(name, b, c, body);
    Tokens(name);
    assert core[0] == name[0] && IsTokenChar(name[0]);
    assert core[|core| - 1] == '"';
    TrimOf(a, core, d);
  }

  /** A written parameter is read as it was meant. */
  lemma WrittenIsRead(raw: string, name: string, text: string)
    requires Writes(raw, name, text)
    ensures ParsePart(Trim(raw)) == Some((name, text)) && Trim(raw) != []
  {
    var a, b, c, body, d :| WrittenAs(raw, name, text, a, b, c, body, d);
    CoreIsTrimmed(a, name, b, c, body, d);
    CoreIsRead(name, b, c, body, text);
  }

  /** A part that is read as a parameter, taken apart. */
  lemma PartIsWritten(part: string, name: string, text: string)
    returns (a: string, b: string, c: string, body: string, d: string)
    requires ParsePart(part) == Some((name, text))
    ensures part == a + name + b + "=" + (c + Quoted(body) + d) && IsToken(name)
    ensures Spaces(a) && Spaces(b) && Spaces(c) && Spaces(d) && Decode(body, false) == Some(text)
  {
    var k := IndexOfEquals(part);
    a, b := TrimMeans(part[..k]);
    c, d := TrimMeans(part[k + 1..]);
    var quoted := Trim(part[k + 1..]);
    body := quoted[1..|quoted| - 1];
    assert quoted == Quoted(body);
    assert part == part[..k] + "=" + part[k + 1..];
  }

  /** What is read as a parameter was written as one. */
  lemma ReadIsWritten(raw: string, name: string, text: string)
    requires ParsePart(Trim(raw)) == Some((name, text))
    ensures Writes(raw, name, text)
  {
    var a, d := TrimMeans(raw);
    var a2, b, c, body, d2 := PartIsWritten(Trim(raw), name, text);
    Regrouped(a, a2, name, b, c, body, d2, d);
    Tokens(name);
    DecodeMeansSpelling(body, text);
    assert WrittenAs(raw, name, text, a + a2, b, c, body, d2 + d);
  }

  lemma Regrouped(a: string, a2: string, name: string, b: string, c: string, body: string, d2: string, d: string)
    ensures a + (a2 + name + b + "=" + (c + Quoted(body) + d2)) + d == (a + a2) + Core(name, b, c, body) + (d2 + d)
  {
  }

  // ----- scanning

  lemma {:induction false} ScanName(name: string, rest: string, part: string)
    requires forall i :: 0 <= i < |name| ==> name[i] != '"' && name[i] != ','
    ensures Split(name + rest, false, false, part) == Split(rest, false, false, part + name)
    decreases |name|
  {
    if name == [] {
      assert name + rest == rest && part + name == part;
    } else {
      assert (name + rest)[1..] == name[1..] + rest;
      assert part + [name[0]] + name[1..] == part + name;
      ScanName(name[1..], rest, part + [name[0]]);
    }
  }

  lemma {:induction false} ScanQuoted(body: string, text: string, rest: string, part: string)
    requires Spells(body, text)
    ensures Split(body + rest, true, false, part) == Split(rest, true, false, part + body)
    decreases |body|
  {
    if body == [] {
      assert body + rest == rest && part + body == part;
    } else if body[0] == '\\' {
      assert (body + rest)[1..][1..] == body[2..] + rest;
      assert (body + rest)[1..][0] == body[1];
      assert part + ['\\'] + [body[1]] + body[2..] == part + body;
      ScanQuoted(body[2..], text[1..], rest, part + ['\\'] + [body[1]]);
    } else {
      assert (body + rest)[1..] == body[1..] + rest;
      assert part + [body[0]] + body[1..] == part + body;
      ScanQuoted(body[1..], text[1..], rest, part + [body[0]]);
    }
  }

  lemma ScanText(body: string, text: string, rest: string, part: string)
    requires Spells(body, text)
    ensures Split(Quoted(body) + rest, false, false, part) == Split(rest, false, false, part + Quoted(body))
  {
    assert (Quoted(body) + rest)[0] == '"' && (Quoted(body) + rest)[1..] == body + ("\"" + rest);
    ScanQuoted(body, text, "\"" + rest, part + ['"']);
    assert ("\"" + rest)[1..] == rest;
    assert part + ['"'] + body + ['"'] == part + Quoted(body);
  }

  predicate Unquoted(s: string) {
    forall i :: 0 <= i < |s| ==> s[i] != '"' && s[i] != ','
  }

  lemma ScanPieces(before: string, body: string, text: string, after: string, rest: string)
    requires Spells(body, text)
    requires Unquoted(before) && Unquoted(after)
    ensures Split(before + Quoted(body) + after + rest, false, false, "") ==
            Split(rest, false, false, before + Quoted(body) + after)
  {
    var quoted := Quoted(body);
    assert before + quoted + after + rest == before + (quoted + (after + rest));
    ScanName(before, quoted + (after + rest), "");
    assert "" + before == before;
    ScanText(body, text, after + rest, before);
    ScanName(after, rest, before + quoted);
  }

  lemma UnquotedConcat(a: string, b: string)
    requires Unquoted(a) && Unquoted(b)
    ensures Unquoted(a + b)
  {
  }

  lemma BeforeText(a: string, name: string, b: string, c: string)
    requires Spaces(a) && Spaces(b) && Spaces(c) && name != [] && MadeOf(name, TOKEN_CHARACTERS)
    ensures Unquoted(a + name + b + "=" + c)
  {
    Tokens(name);
    UnquotedConcat(a, name);
    UnquotedConcat(a + name, b);
    UnquotedConcat(a + name + b, "=");
    UnquotedConcat(a + name + b + "=", c);
  }

  lemma AroundText(a: string, name: string, b: string, c: string, body: string, d: string)
    ensures a + Core(name, b, c, body) + d == (a + name + b + "=" + c) + Quoted(body) + d
  {
  }

  lemma ScanWritten(raw: string, name: string, text: string, rest: string)
    requires Writes(raw, name, text)
    ensures Split(raw + rest, false, false, "") == Split(rest, false, false, raw)
  {
    var a, b, c, body, d :| WrittenAs(raw, name, text, a, b, c, body, d);
    BeforeText(a, name, b, c);
    AroundText(a, name, b, c, body, d);
    ScanPieces(a + name + b + "=" + c, body, text, d, rest);
  }

  function Trimmed(raws: seq<string>): seq<string> {
    Mapped(Trim, raws)
  }

  lemma SplitHead(raw: string, name: string, text: string, others: string)
    requires Writes(raw, name, text)
    ensures var rest := Split(others, false, false, "");
            Split(raw + ("," + others), false, false, "") == if rest.None? then None else Some([Trim(raw)] + rest.value)
    ensures Split(raw, false, false, "") == Some([Trim(raw)])
  {
    WrittenIsRead(raw, name, text);
    ScanWritten(raw, name, text, "," + others);
    assert ("," + others)[1..] == others;
    ScanWritten(raw, name, text, "");
    assert raw + "" == raw;
  }

  lemma JoinedMeans(raws: seq<string>)
    requires raws != []
    ensures |raws| == 1 ==> Joined(raws) == raws[0]
    ensures |raws| > 1 ==> Joined(raws) == raws[0] + ("," + Joined(raws[1..]))
  {
  }

  lemma JoinedMore(raws: seq<string>, name: string, text: string, others: string, parts: seq<string>)
    requires |raws| > 1 && Writes(raws[0], name, text)
    requires others == Joined(raws[1..]) && parts == Trimmed(raws[1..])
             && Split(others, false, false, "") == Some(parts)
    ensures Split(Joined(raws), false, false, "") == Some(Trimmed(raws))
  {
    JoinedMeans(raws);
    MappedHead(Trim, raws);
    SplitHead(raws[0], name, text, others);
  }

  lemma JoinedOne(raws: seq<string>, name: string, text: string)
    requires |raws| == 1 && Writes(raws[0], name, text)
    ensures Split(Joined(raws), false, false, "") == Some(Trimmed(raws))
  {
    JoinedMeans(raws);
    MappedOne(Trim, raws);
    SplitHead(raws[0], name, text, "");
  }

  /** Written parameters are split where they were joined. */
  lemma {:induction false} JoinedIsSplit(raws: seq<string>, list: Parameters)
    requires raws != [] && WritesList(raws, list)
    ensures Split(Joined(raws), false, false, "") == Some(Trimmed(raws))
  {
    if |raws| == 1 {
      JoinedOne(raws, list[0].0, list[0].1);
    } else {
      JoinedIsSplit(raws[1..], list[1..]);
      JoinedMore(raws, list[0].0, list[0].1, Joined(raws[1..]), Trimmed(raws[1..]));
    }
  }

  /** Whatever is split was joined from pieces that trim to the parts. */
  lemma {:induction false} SplitIsJoined(rest: string, quoted: bool, escaped: bool, part: string)
    returns (raws: seq<string>)
    requires Split(rest, quoted, escaped, part).Some?
    ensures raws != [] && part + rest == Joined(raws)
    ensures Split(rest, quoted, escaped, part).value == Trimmed(raws)
    decreases |rest|
  {
    if rest == [] {
      raws := [part];
      assert part + rest == part;
    } else {
      var c, next := rest[0], part + [rest[0]];
      assert part + rest == next + rest[1..];
      if escaped {
        raws := SplitIsJoined(rest[1..], quoted, false, next);
      } else if c == '\\' && quoted {
        raws := SplitIsJoined(rest[1..], quoted, true, next);
      } else if c == '"' {
        raws := SplitIsJoined(rest[1..], !quoted, false, next);
      } else if c == ',' && !quoted {
        var others := SplitIsJoined(rest[1..], false, false, "");
        raws := [part] + others;
        assert raws[1..] == others && "" + rest[1..] == rest[1..];
        assert part + rest == part + "," + rest[1..];
        assert Trimmed(raws) == [Trim(part)] + Trimmed(others);
      } else {
        raws := SplitIsJoined(rest[1..], quoted, false, next);
      }
    }
  }

  // ----- the list

  /** Entries make a list exactly when all are there and no name repeats. */
  lemma {:induction false} CollectMeans(entries: seq<Option<(string, string)>>, n: nat, list: Parameters)
    requires n <= |entries|
    ensures Collect(entries, n) == Some(list) <==>
            |list| == n && DistinctNames(list) && forall i :: 0 <= i < n ==> entries[i] == Some(list[i])
  {
    if n > 0 {
      if |list| == n {
        CollectMeans(entries, n - 1, list[..n - 1]);
        assert list == list[..n - 1] + [list[n - 1]];
      }
      if Collect(entries, n).Some? {
        var before := Collect(entries, n - 1).value;
        CollectMeans(entries, n - 1, before);
        assert Collect(entries, n).value == before + [entries[n - 1].value];
        assert (before + [entries[n - 1].value])[..n - 1] == before;
      }
    }
  }

  /** The parser accepts exactly the header values of this grammar, as the list they write. */
  lemma ParseAcceptsExactly(value: string, list: Parameters)
    ensures Parse(value) == Some(list) <==> Header(value, list)
  {
    if Parse(value) == Some(list) {
      var parts := Split(value, false, false, "").value;
      var raws := SplitIsJoined(value, false, false, "");
      assert "" + value == value;
      CollectMeans(Entries(parts), |parts|, list);
      forall i | 0 <= i < |list|
        ensures Writes(raws[i], list[i].0, list[i].1)
      {
        assert Entries(parts)[i] == ParsePart(Trim(raws[i]));
        ReadIsWritten(raws[i], list[i].0, list[i].1);
      }
      assert WritesList(raws, list);
    }
    if Header(value, list) {
      var raws :| value == Joined(raws) && WritesList(raws, list);
      JoinedIsSplit(raws, list);
      var entries := Entries(Trimmed(raws));
      forall i | 0 <= i < |list|
        ensures entries[i] == Some(list[i])
      {
        WrittenIsRead(raws[i], list[i].0, list[i].1);
      }
      CollectMeans(entries, |entries|, list);
    }
  }

  // ----- printing and reading back

  predicate NeedsEscape(c: char) {
    c == '"' || c == '\\' || IsControl(c)
  }

  function EscapeValue(value: string): string {
    if value == [] then []
    else (if NeedsEscape(value[0]) then ['\\', value[0]] else [value[0]]) + EscapeValue(value[1..])
  }

  function PrintPart(name: string, value: string): string {
    name + "=\"" + EscapeValue(value) + "\""
  }

  /** The parameters as usually written: a blank after each comma. */
  function PrintedPieces(list: Parameters): seq<string> {
    seq(|list|, i requires 0 <= i < |list| => (if i == 0 then "" else " ") + PrintPart(list[i].0, list[i].1))
  }

  function Print(list: Parameters): string {
    Joined(PrintedPieces(list))
  }

  /** A non-empty list of token names, distinct ignoring case, with any values at all. */
  ghost predicate WellFormed(list: Parameters) {
    && list != []
    && (forall i :: 0 <= i < |list| ==> IsToken(list[i].0))
    && (forall i, j :: 0 <= i < j < |list| ==> !EqualIgnoringCase(list[i].0, list[j].0))
  }

  lemma {:induction false} EscapeSpells(value: string)
    ensures Spells(EscapeValue(value), value)
  {
    if value != [] {
      EscapeSpells(value[1..]);
      var e, rest := EscapeValue(value), EscapeValue(value[1..]);
      if NeedsEscape(value[0]) {
        assert e[2..] == rest;
      } else {
        assert e[1..] == rest;
      }
    }
  }

  lemma DecodeUndoesEscape(value: string)
    ensures Decode(EscapeValue(value), false) == Some(value)
  {
    EscapeSpells(value);
    DecodeMeansSpelling(EscapeValue(value), value);
  }

  lemma PrintedCore(lead: string, name: string, body: string)
    ensures lead + (name + "=\"" + body + "\"") == lead + Core(name, "", "", body) + ""
  {
  }

  lemma PrintWrites(lead: string, name: string, value: string)
    requires Spaces(lead) && IsToken(name)
    ensures Writes(lead + PrintPart(name, value), name, value)
  {
    EscapeSpells(value);
    Tokens(name);
    var body := EscapeValue(value);
    PrintedCore(lead, name, body);
    assert WrittenAs(lead + PrintPart(name, value), name, value, lead, "", "", body, "");
  }

  /** Printing any well-formed list and parsing it returns the same list. */
  lemma HeaderRoundTrip(list: Parameters)
    requires WellFormed(list)
    ensures Parse(Print(list)) == Some(list)
  {
    var raws := PrintedPieces(list);
    forall i | 0 <= i < |list|
      ensures Writes(raws[i], list[i].0, list[i].1)
    {
      PrintWrites(if i == 0 then "" else " ", list[i].0, list[i].1);
    }
    assert WritesList(raws, list);
    ParseAcceptsExactly(Print(list), list);
  }

  /** The parser yields exactly the well-formed lists: nothing else comes out, and each comes
      out of some header. */
  lemma ParseYieldsWellFormed(list: Parameters)
    ensures WellFormed(list) <==> exists value :: Parse(value) == Some(list)
  {
    if WellFormed(list) {
      HeaderRoundTrip(list);
    }
    forall value | Parse(value) == Some(list)
      ensures WellFormed(list)
    {
      ParseAcceptsExactly(value, list);
      forall i | 0 <= i < |list|
        ensures IsToken(list[i].0)
      {
        Tokens(list[i].0);
      }
    }
  }
}

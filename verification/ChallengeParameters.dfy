/** The WWW-Authenticate parameter scanner: splitting at unquoted commas, decoding quoted
    strings, and the parameter list they make up. */
module ChallengeParameters {
  import opened Basics
  import opened Text

  type Parameters = seq<(string, string)>

  predicate IsControl(c: char) {
    c <= '\U{1F}' || '\U{7F}' <= c <= '\U{9F}'
  }

  predicate IsTokenChar(c: char) {
    'a' <= c <= 'z' || 'A' <= c <= 'Z' || '0' <= c <= '9' || c == '_' || c == '-'
  }

  predicate IsToken(name: string) {
    name != [] && forall i :: 0 <= i < |name| ==> IsTokenChar(name[i])
  }

  predicate EqualIgnoringCase(a: string, b: string) {
    Lower(a) == Lower(b)
  }

  // ----- splitting at unquoted commas

  /** The parts of the remaining text, where `part` is what the current part has so far. */
  function Split(rest: string, quoted: bool, escaped: bool, part: string): Option<seq<string>>
    decreases |rest|
  {
    if rest == [] then
      if quoted || escaped || Trim(part) == [] then None else Some([Trim(part)])
    else
      var c, next := rest[0], part + [rest[0]];
      if escaped then Split(rest[1..], quoted, false, next)
      else if c == '\\' && quoted then Split(rest[1..], quoted, true, next)
      else if c == '"' then Split(rest[1..], !quoted, false, next)
      else if c == ',' && !quoted then
        var others := Split(rest[1..], false, false, "");
        if Trim(part) == [] || others.None? then None else Some([Trim(part)] + others.value)
      else Split(rest[1..], quoted, false, next)
  }

  function Prepend(parts: seq<string>, rest: Option<seq<string>>): Option<seq<string>> {
    if rest.None? then None else Some(parts + rest.value)
  }

  lemma PrependNothing(rest: Option<seq<string>>)
    ensures Prepend([], rest) == rest
  {
    if rest.Some? { assert [] + rest.value == rest.value; }
  }

  method SplitQuoted(value: string) returns (r: Option<seq<string>>)
    ensures r == Split(value, false, false, "")
  {
    var quoted, escaped := false, false;
    var start := 0;
    var result: seq<string> := [];
    assert value[0..] == value && value[0..0] == "";
    PrependNothing(Split(value, false, false, ""));
    for index := 0 to |value|
      invariant start <= index
      invariant Split(value, false, false, "") ==
                Prepend(result, Split(value[index..], quoted, escaped, value[start..index]))
    {
      var character := value[index];
      assert value[index..][1..] == value[index + 1..];
      assert value[start..index] + [character] == value[start..index + 1];
      if escaped {
        escaped := false;
        continue;
      }
      if character == '\\' && quoted {
        escaped := true;
      } else if character == '"' {
        quoted := !quoted;
      } else if character == ',' && !quoted {
        var part := Trim(value[start..index]);
        if part == [] {
          return None;
        }
        ghost var others := Split(value[index + 1..], false, false, "");
        assert others.Some? ==> result + ([part] + others.value) == (result + [part]) + others.value;
        result := result + [part];
        start := index + 1;
        assert value[start..index + 1] == "";
      }
    }
    assert value[|value|..] == "" && value[start..|value|] == value[start..];
    if quoted || escaped {
      return None;
    }
    var finalPart := Trim(value[start..]);
    if finalPart == [] {
      return None;
    }
    return Some(result + [finalPart]);
  }

  // ----- decoding a quoted string

  function Decode(rest: string, escaped: bool): Option<string>
    decreases |rest|
  {
    if rest == [] then if escaped then None else Some("")
    else if !escaped && rest[0] == '\\' then Decode(rest[1..], true)
    else if !escaped && (rest[0] == '"' || IsControl(rest[0])) then None
    else
      var others := Decode(rest[1..], false);
      if others.None? then None else Some([rest[0]] + others.value)
  }

  function Append(output: string, rest: Option<string>): Option<string> {
    if rest.None? then None else Some(output + rest.value)
  }

  method DecodeQuoted(value: string) returns (r: Option<string>)
    ensures r == Decode(value, false)
  {
    var output := "";
    var escaped := false;
    assert value[0..] == value;
    assert Decode(value, false).Some? ==> "" + Decode(value, false).value == Decode(value, false).value;
    for i := 0 to |value|
      invariant Decode(value, false) == Append(output, Decode(value[i..], escaped))
    {
      var character := value[i];
      assert value[i..][1..] == value[i + 1..];
      ghost var others := Decode(value[i + 1..], false);
      assert others.Some? ==> output + ([character] + others.value) == (output + [character]) + others.value;
      if escaped {
        output := output + [character];
        escaped := false;
      } else if character == '\\' {
        escaped := true;
      } else if character == '"' || IsControl(character) {
        return None;
      } else {
        output := output + [character];
      }
    }
    assert value[|value|..] == "" && output + "" == output;
    if escaped {
      return None;
    }
    return Some(output);
  }

  // ----- the parameter list

  function IndexOfEquals(s: string): (k: nat)
    ensures k <= |s| && (k < |s| ==> s[k] == '=')
    ensures forall i :: 0 <= i < k ==> s[i] != '='
  {
    if s == [] || s[0] == '=' then 0 else 1 + IndexOfEquals(s[1..])
  }

  /** One name="value" part. */
  function ParsePart(part: string): Option<(string, string)> {
    var k := IndexOfEquals(part);
    if k == |part| then None else
    var name, value := Trim(part[..k]), Trim(part[k + 1..]);
    if !IsToken(name) || |value| < 2 || value[0] != '"' || value[|value| - 1] != '"' then None
    else
      var decoded := Decode(value[1..|value| - 1], false);
      if decoded.None? then None else Some((name, decoded.value))
  }

  predicate Named(list: Parameters, name: string) {
    exists i :: 0 <= i < |list| && EqualIgnoringCase(list[i].0, name)
  }

  function AddPart(before: Option<Parameters>, entry: Option<(string, string)>): Option<Parameters> {
    if before.None? || entry.None? || Named(before.value, entry.value.0) then None
    else Some(before.value + [entry.value])
  }

  /** The parameters of the first n parts. */
  function Collect(entries: seq<Option<(string, string)>>, n: nat): Option<Parameters>
    requires n <= |entries|
  {
    if n == 0 then Some([]) else AddPart(Collect(entries, n - 1), entries[n - 1])
  }

  function Entries(parts: seq<string>): seq<Option<(string, string)>> {
    seq(|parts|, i requires 0 <= i < |parts| => ParsePart(parts[i]))
  }

  function Parse(value: string): Option<Parameters> {
    var parts := Split(value, false, false, "");
    if parts.None? then None else Collect(Entries(parts.value), |parts.value|)
  }

  lemma {:induction false} CollectFailsForGood(entries: seq<Option<(string, string)>>, m: nat, n: nat)
    requires m <= n <= |entries| && Collect(entries, m).None?
    ensures Collect(entries, n).None?
  {
    if m < n {
      CollectFailsForGood(entries, m, n - 1);
    }
  }

  method ParseOnePart(part: string) returns (r: Option<(string, string)>)
    ensures r == ParsePart(part)
  {
    var k := IndexOfEquals(part);
    if k == |part| {
      return None;
    }
    var name, quoted := Trim(part[..k]), Trim(part[k + 1..]);
    if !IsToken(name) || |quoted| < 2 || quoted[0] != '"' || quoted[|quoted| - 1] != '"' {
      return None;
    }
    var decoded := DecodeQuoted(quoted[1..|quoted| - 1]);
    if decoded.None? {
      return None;
    }
    return Some((name, decoded.value));
  }

  method ParseParameters(value: string) returns (r: Option<Parameters>)
    ensures r == Parse(value)
  {
    var split := SplitQuoted(value);
    if split.None? {
      return None;
    }
    var parts := split.value;
    ghost var entries := Entries(parts);
    var result: Parameters := [];
    for i := 0 to |parts|
      invariant Collect(entries, i) == Some(result)
    {
      var entry := ParseOnePart(parts[i]);
      assert entries[i] == entry;
      if entry.None? || Named(result, entry.value.0) {
        CollectFailsForGood(entries, i + 1, |parts|);
        return None;
      }
      result := result + [entry.value];
    }
    return Some(result);
  }
}

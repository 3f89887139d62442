/** The two places where quality/predicates.py builds SQL text whose reading matters:
    the LIKE pattern of a `contains` rule and the literal list of an IN predicate. */
module SqlText {
  import opened Prelude

  // ---------- string literals (section 5.3 of ISO/IEC 9075-2) ----------

  /** Every quote doubled. */
  function DoubleQuotes(s: string): string {
    if s == [] then []
    else (if s[0] == '\'' then ['\'', '\''] else [s[0]]) + DoubleQuotes(s[1..])
  }

  function SqlStr(value: string): string {
    ['\''] + DoubleQuotes(value) + ['\'']
  }

  /** The text between the parentheses of `IN (...)`. */
  function InList(values: seq<string>): string {
    if values == [] then []
    else if |values| == 1 then SqlStr(values[0])
    else SqlStr(values[0]) + [',', ' '] + InList(values[1..])
  }

  /** Reads the body of a literal after its opening quote: the value and the rest of the text. */
  function ReadBody(text: string): Option<(string, string)> {
    if text == [] then None
    else if text[0] != '\'' then
      match ReadBody(text[1..])
      case None => None
      case Some((value, rest)) => Some(([text[0]] + value, rest))
    else if |text| >= 2 && text[1] == '\'' then
      match ReadBody(text[2..])
      case None => None
      case Some((value, rest)) => Some((['\''] + value, rest))
    else Some(([], text[1..]))
  }

  function ReadLiteral(text: string): Option<(string, string)> {
    if text == [] || text[0] != '\'' then None else ReadBody(text[1..])
  }

  lemma {:induction false} ReadBodyConsumes(text: string)
    ensures ReadBody(text).Some? ==> |ReadBody(text).value.1| < |text|
  {
    if text != [] {
      ReadBodyConsumes(text[1..]);
      if |text| >= 2 {
        ReadBodyConsumes(text[2..]);
      }
    }
  }

  function SkipSpaces(text: string): (rest: string)
    ensures |rest| <= |text|
  {
    if text != [] && text[0] == ' ' then SkipSpaces(text[1..]) else text
  }

  /** literal { "," literal }, with spaces allowed before each literal, up to the end of the text. */
  function ReadList(text: string): Option<seq<string>>
    decreases |text|
  {
    ReadBodyConsumes(if SkipSpaces(text) == [] then [] else SkipSpaces(text)[1..]);
    match ReadLiteral(SkipSpaces(text))
    case None => None
    case Some((value, rest)) =>
      if rest == [] then Some([value])
      else if rest[0] != ',' then None
      else
        match ReadList(rest[1..])
        case None => None
        case Some(values) => Some([value] + values)
  }

  lemma {:induction false} ReadBodyInverts(value: string, rest: string)
    requires rest == [] || rest[0] != '\''
    ensures ReadBody(DoubleQuotes(value) + ['\''] + rest) == Some((value, rest))
  {
    var text := DoubleQuotes(value) + ['\''] + rest;
    if value == [] {
      assert text[1..] == rest;
    } else {
      ReadBodyInverts(value[1..], rest);
      var tail := DoubleQuotes(value[1..]) + ['\''] + rest;
      if value[0] == '\'' {
        assert text == ['\'', '\''] + tail;
        assert text[2..] == tail;
      } else {
        assert text == [value[0]] + tail;
        assert text[1..] == tail;
      }
      assert value == [value[0]] + value[1..];
    }
  }

  lemma ReadLiteralInverts(value: string, rest: string)
    requires rest == [] || rest[0] != '\''
    ensures ReadLiteral(SqlStr(value) + rest) == Some((value, rest))
  {
    ReadBodyInverts(value, rest);
    assert (SqlStr(value) + rest)[1..] == DoubleQuotes(value) + ['\''] + rest;
  }

  /** Reading the rendered list gives back the allowed values, whatever quotes and commas they hold. */
  lemma {:induction false} InListRoundTrip(values: seq<string>)
    requires values != []
    ensures ReadList(InList(values)) == Some(values)
  {
    var text := InList(values);
    if |values| == 1 {
      ReadLiteralInverts(values[0], []);
      assert text == SqlStr(values[0]) + [];
      assert SkipSpaces(text) == text;
      assert values == [values[0]];
    } else {
      var rest := [',', ' '] + InList(values[1..]);
      assert text == SqlStr(values[0]) + rest;
      ReadLiteralInverts(values[0], rest);
      assert SkipSpaces(text) == text;
      InListRoundTrip(values[1..]);
      assert rest[1..] == [' '] + InList(values[1..]);
      assert rest[1..][1..] == InList(values[1..]);
      SpaceBeforeList(InList(values[1..]));
      assert values == [values[0]] + values[1..];
    }
  }

  lemma SpaceBeforeList(text: string)
    ensures ReadList([' '] + text) == ReadList(text)
  {
    assert ([' '] + text)[1..] == text;
    assert SkipSpaces([' '] + text) == SkipSpaces(text);
  }

  /** Two lists of allowed values never render to the same text. */
  lemma InListInjective(a: seq<string>, b: seq<string>)
    requires a != [] && b != []
    requires InList(a) == InList(b)
    ensures a == b
  {
    InListRoundTrip(a);
    InListRoundTrip(b);
  }

  // ---------- LIKE (section 8.5 of ISO/IEC 9075-2, backslash escape) ----------

  predicate LikeMatch(pattern: string, s: string)
    decreases |pattern| + |s|
  {
    if pattern == [] then s == []
    else if pattern[0] == '%' then
      LikeMatch(pattern[1..], s) || (s != [] && LikeMatch(pattern, s[1..]))
    else if pattern[0] == '_' then s != [] && LikeMatch(pattern[1..], s[1..])
    else if pattern[0] == '\\' then
      |pattern| >= 2 && s != [] && s[0] == pattern[1] && LikeMatch(pattern[2..], s[1..])
    else s != [] && s[0] == pattern[0] && LikeMatch(pattern[1..], s[1..])
  }

  /** Every character behind the escape. */
  function Escaped(text: string): string {
    if text == [] then [] else ['\\', text[0]] + Escaped(text[1..])
  }

  /** An escaped text matches itself alone, and n underscores match the texts of n characters. */
  lemma {:induction false} EscapedMatchesItself(text: string, s: string)
    ensures LikeMatch(Escaped(text), s) <==> s == text
  {
    if text != [] {
      assert Escaped(text)[2..] == Escaped(text[1..]);
      if s != [] {
        EscapedMatchesItself(text[1..], s[1..]);
        assert s == [s[0]] + s[1..] && text == [text[0]] + text[1..];
      }
    }
  }

  lemma {:induction false} UnderscoresCount(pattern: string, s: string)
    requires forall i | 0 <= i < |pattern| :: pattern[i] == '_'
    ensures LikeMatch(pattern, s) <==> |s| == |pattern|
  {
    if pattern != [] {
      if s != [] {
        UnderscoresCount(pattern[1..], s[1..]);
      }
    }
  }

  predicate OccursAt(s: string, needle: string, i: nat) {
    i + |needle| <= |s| && s[i..i + |needle|] == needle
  }

  predicate Contains(s: string, needle: string) {
    exists i: nat | i <= |s| :: OccursAt(s, needle, i)
  }

  /** The needles `_like_pattern` compiles; every other needle raises. */
  predicate PlainNeedle(needle: string) {
    '%' !in needle && '_' !in needle && '\\' !in needle && '\'' !in needle
  }

  /** The quoted SQL literal `_like_pattern` returns, or None where it raises. */
  function LikePattern(needle: string): Option<string> {
    if PlainNeedle(needle) then Some(['\'', '%'] + needle + ['%', '\'']) else None
  }

  /** `x LIKE <literal>` for a non-null x: read the literal, then match. */
  predicate LikeLiteral(literal: string, s: string) {
    var read := ReadLiteral(literal);
    read.Some? && read.value.1 == [] && LikeMatch(read.value.0, s)
  }

  lemma {:induction false} PercentMatchesAll(s: string)
    ensures LikeMatch(['%'], s)
  {
    assert ['%'][1..] == [];
    if s != [] {
      PercentMatchesAll(s[1..]);
    }
  }

  lemma {:induction false} PrefixThenAnything(needle: string, s: string)
    requires PlainNeedle(needle)
    ensures LikeMatch(needle + ['%'], s) <==> needle <= s
  {
    var pattern := needle + ['%'];
    if needle == [] {
      assert pattern == ['%'];
      PercentMatchesAll(s);
    } else {
      assert pattern[0] in needle;
      assert pattern[1..] == needle[1..] + ['%'];
      if s != [] {
        PrefixThenAnything(needle[1..], s[1..]);
        assert needle == [needle[0]] + needle[1..];
        assert s == [s[0]] + s[1..];
      }
    }
  }

  lemma ContainsStep(s: string, needle: string)
    ensures Contains(s, needle) <==> needle <= s || (s != [] && Contains(s[1..], needle))
  {
    if needle <= s {
      assert OccursAt(s, needle, 0);
    }
    if s != [] && Contains(s[1..], needle) {
      var i: nat :| i <= |s[1..]| && OccursAt(s[1..], needle, i);
      assert OccursAt(s, needle, i + 1);
    }
    if Contains(s, needle) && !(needle <= s) {
      var i: nat :| i <= |s| && OccursAt(s, needle, i);
      assert OccursAt(s[1..], needle, i - 1);
    }
  }

  lemma {:induction false} SurroundedMatchesContains(needle: string, s: string)
    requires PlainNeedle(needle)
    ensures LikeMatch(['%'] + needle + ['%'], s) <==> Contains(s, needle)
  {
    var pattern := ['%'] + needle + ['%'];
    assert pattern[1..] == needle + ['%'];
    PrefixThenAnything(needle, s);
    ContainsStep(s, needle);
    if s != [] {
      SurroundedMatchesContains(needle, s[1..]);
    }
  }

  /** A needle without quotes is its own literal body. */
  lemma {:induction false} PlainBody(s: string)
    requires '\'' !in s
    ensures DoubleQuotes(s) == s
  {
    if s != [] {
      PlainBody(s[1..]);
      assert s == [s[0]] + s[1..];
    }
  }

  /** The compiled pattern, read back as a SQL literal and matched by LIKE, is true of a string
      exactly when the needle is a substring of it: the literal Polars `contains` test. */
  lemma LikeMeansContains(needle: string, s: string)
    requires LikePattern(needle).Some?
    ensures LikeLiteral(LikePattern(needle).value, s) <==> Contains(s, needle)
  {
    var body := ['%'] + needle + ['%'];
    PlainBody(body);
    assert LikePattern(needle).value == SqlStr(body) + [];
    ReadLiteralInverts(body, []);
    SurroundedMatchesContains(needle, s);
  }
}

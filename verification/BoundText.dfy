/** The text of a target query as it is handed to SQLAlchemy's `text()`, which looks for parameters without regard
    to quotes: `:name` inside a string literal is taken for one, and the execution fails for want of its value. */
module BoundText {
  import opened Prelude
  import opened SqlText
  import opened Sql

  // ---------- what `text()` looks for ----------

  /** `[\w$]`; beyond ASCII every character is taken for a letter. */
  predicate WordChar(c: char) {
    'a' <= c <= 'z' || 'A' <= c <= 'Z' || '0' <= c <= '9' || c == '_' || c == '$' || c > '~'
  }

  /** A character that neither continues a name nor escapes or repeats a colon. */
  predicate Neutral(c: char) {
    !WordChar(c) && c != ':' && c != '\\'
  }

  /** Where the word characters from i on end. */
  function AfterWord(text: string, i: nat): (j: nat)
    requires i <= |text|
    ensures i <= j <= |text|
    decreases |text| - i
  {
    if i < |text| && WordChar(text[i]) then AfterWord(text, i + 1) else i
  }

  predicate ColonFollows(text: string, i: nat)
    requires i <= |text|
  {
    AfterWord(text, i) < |text| && text[AfterWord(text, i)] == ':'
  }

  /** `(?<![:\w$\\]):([\w$]+)(?![:\w$])`: a parameter starts here. */
  predicate ParameterAt(text: string, i: nat)
    requires i < |text|
  {
    && text[i] == ':' && (i == 0 || Neutral(text[i - 1]))
    && i + 1 < |text| && WordChar(text[i + 1]) && !ColonFollows(text, i + 1)
  }

  /** The text holds a parameter. */
  predicate HoldsParameter(text: string) {
    exists i: nat | i < |text| :: ParameterAt(text, i)
  }

  /** A word after a colon is one, but not where a word character, a colon or a backslash stands before it, or a colon
      right after it. */
  lemma ParameterExamples()
    ensures HoldsParameter(":ok") && HoldsParameter("code :ok")
    ensures !HoldsParameter("code:ok") && !HoldsParameter("12:30") && !HoldsParameter("a :ok:")
    ensures !HoldsParameter("\\:ok") && !HoldsParameter("::ok") && !HoldsParameter(": ok") && HoldsParameter(":$")
  {
    assert AfterWord(":ok", 3) == 3 && AfterWord(":ok", 2) == 3;
    assert ParameterAt(":ok", 0);
    assert AfterWord("code :ok", 8) == 8 && AfterWord("code :ok", 7) == 8;
    assert ParameterAt("code :ok", 5);
    assert AfterWord(":$", 2) == 2 && AfterWord(":$", 1) == 2;
    assert ParameterAt(":$", 0);
    assert AfterWord("a :ok:", 5) == 5 && AfterWord("a :ok:", 4) == 5;
  }

  // ---------- text put together ----------

  lemma {:induction false} AfterWordLeft(a: string, s: char, b: string, i: nat)
    requires Neutral(s) && i <= |a|
    ensures AfterWord(a + [s] + b, i) == AfterWord(a, i)
    decreases |a| - i
  {
    var text := a + [s] + b;
    if i < |a| && WordChar(a[i]) {
      AfterWordLeft(a, s, b, i + 1);
    }
  }

  lemma {:induction false} AfterWordRight(a: string, s: char, b: string, i: nat)
    requires i <= |b|
    ensures AfterWord(a + [s] + b, |a| + 1 + i) == |a| + 1 + AfterWord(b, i)
    decreases |b| - i
  {
    var text := a + [s] + b;
    if i < |b| && WordChar(b[i]) {
      AfterWordRight(a, s, b, i + 1);
    }
  }

  lemma MarkLeft(a: string, s: char, b: string, i: nat)
    requires Neutral(s) && i < |a|
    ensures ParameterAt(a + [s] + b, i) <==> ParameterAt(a, i)
  {
    var text := a + [s] + b;
    AfterWordLeft(a, s, b, i + 1);
    if i + 2 <= |a| {
      AfterWordLeft(a, s, b, i + 2);
    }
  }

  lemma MarkRight(a: string, s: char, b: string, i: nat)
    requires Neutral(s) && i < |b|
    ensures ParameterAt(a + [s] + b, |a| + 1 + i) <==> ParameterAt(b, i)
  {
    var text := a + [s] + b;
    AfterWordRight(a, s, b, i + 1);
    if i + 2 <= |b| {
      AfterWordRight(a, s, b, i + 2);
    }
  }

  /** Nothing that `text()` looks for reaches across a neutral character. */
  lemma ParametersAcross(a: string, s: char, b: string)
    requires Neutral(s)
    ensures HoldsParameter(a + [s] + b) <==> HoldsParameter(a) || HoldsParameter(b)
  {
    hide ParameterAt;
    var text := a + [s] + b;
    if HoldsParameter(a) {
      var i: nat :| i < |a| && ParameterAt(a, i);
      MarkLeft(a, s, b, i);
    }
    if HoldsParameter(b) {
      var i: nat :| i < |b| && ParameterAt(b, i);
      MarkRight(a, s, b, i);
    }
    if HoldsParameter(text) {
      var i: nat :| i < |text| && ParameterAt(text, i);
      if i < |a| {
        MarkLeft(a, s, b, i);
      } else if i == |a| {
        NeutralIsNoMark(text, i);
      } else {
        MarkRight(a, s, b, i - |a| - 1);
        assert text[|a| + 1 + (i - |a| - 1)] == text[i];
      }
    }
  }

  lemma NeutralIsNoMark(text: string, i: nat)
    requires i < |text| && Neutral(text[i])
    ensures !ParameterAt(text, i)
  {
  }

  /** Text without colons holds none. */
  lemma NoColons(text: string)
    requires ':' !in text
    ensures !HoldsParameter(text)
  {
  }

  /** A piece of text between others that hold no colon, and neutral characters at both seams. */
  lemma Between(before: string, s: char, text: string, e: char, after: string)
    requires Neutral(s) && Neutral(e) && ':' !in before && ':' !in after
    ensures HoldsParameter(before + [s] + text + [e] + after) <==> HoldsParameter(text)
  {
    NoColons(before);
    NoColons(after);
    ParametersAcross(before, s, text);
    ParametersAcross(before + [s] + text, e, after);
  }

  // ---------- the text of a target query ----------

  function Quoted(name: string): string {
    ['"'] + name + ['"']
  }

  /** A qualified name with its parts quoted. */
  function QuotedTable(name: string): string {
    ['"'] + DotsQuoted(name) + ['"']
  }

  function DotsQuoted(name: string): string {
    if name == [] then []
    else (if name[0] == '.' then ['"', '.', '"'] else [name[0]]) + DotsQuoted(name[1..])
  }

  function ColumnText(c: Col): string {
    (match c case T(_) => "t." case R(_) => "r.") + Quoted(c.name)
  }

  function KeysText(keys: seq<string>): string {
    if keys == [] then []
    else if |keys| == 1 then "s." + Quoted(keys[0])
    else "s." + Quoted(keys[0]) + ", " + KeysText(keys[1..])
  }

  /** The WHERE clause of a target query on this table. */
  function WhereText(p: Pred, table: string): string {
    match p
    case IsNull(c) => ColumnText(c) + " IS NULL"
    case NotNull(c) => ColumnText(c) + " IS NOT NULL"
    case Less(a, b) => ColumnText(a) + " < " + ColumnText(b)
    case Greater(a, b) => ColumnText(a) + " > " + ColumnText(b)
    case NotLike(c, literal) => ColumnText(c) + " NOT LIKE " + literal
    case NotIn(c, literals) => ColumnText(c) + " NOT IN (" + literals + ")"
    case And(a, b) => WhereText(a, table) + " AND (" + WhereText(b, table) + ")"
    case Or(a, b) => WhereText(a, table) + " OR " + WhereText(b, table)
    case NotGroupMinimum(pk, keys) =>
      "t." + Quoted(pk) + " NOT IN (SELECT MIN(s." + Quoted(pk) + ") FROM " + QuotedTable(table)
      + " s GROUP BY " + KeysText(keys) + ")"
  }

  function JoinText(j: Option<Join>): string {
    match j
    case None => ""
    case Some(j) =>
      " LEFT JOIN " + QuotedTable(j.table) + " r ON r." + Quoted(j.column) + " = t." + Quoted(j.equals)
  }

  /** `target_sql` (action_definitions.py:196-208). */
  function QueryText(q: Query): string {
    "SELECT t." + Quoted(q.pk) + " FROM " + QuotedTable(q.table) + " t" + JoinText(q.join) + " WHERE "
    + WhereText(q.where, q.table) + " ORDER BY t." + Quoted(q.pk)
  }

  /** The rows a target query selects when its text is executed without parameters; None where that raises. */
  function SelectText(store: Store, q: Query): Option<seq<Row>> {
    if HoldsParameter(QueryText(q)) then None else Select(store, q)
  }

  /** The ordered keys it returns. */
  function SelectKeysText(store: Store, q: Query): Option<seq<Cell>> {
    if HoldsParameter(QueryText(q)) then None else SelectKeys(store, q)
  }

  // ---------- which literals decide ----------

  /** A literal of the predicate holds a parameter. */
  predicate LiteralHoldsParameter(p: Pred) {
    match p
    case NotLike(_, literal) => HoldsParameter(literal)
    case NotIn(_, literals) => HoldsParameter(literals)
    case And(a, b) => LiteralHoldsParameter(a) || LiteralHoldsParameter(b)
    case Or(a, b) => LiteralHoldsParameter(a) || LiteralHoldsParameter(b)
    case _ => false
  }

  /** No name in it holds a colon. */
  predicate PlainColumns(p: Pred) {
    match p
    case IsNull(c) => ':' !in c.name
    case NotNull(c) => ':' !in c.name
    case Less(a, b) => ':' !in a.name && ':' !in b.name
    case Greater(a, b) => ':' !in a.name && ':' !in b.name
    case NotLike(c, _) => ':' !in c.name
    case NotIn(c, _) => ':' !in c.name
    case And(a, b) => PlainColumns(a) && PlainColumns(b)
    case Or(a, b) => PlainColumns(a) && PlainColumns(b)
    case NotGroupMinimum(pk, keys) => ':' !in pk && forall k | k in keys :: ':' !in k
  }

  predicate PlainQuery(q: Query) {
    && ':' !in q.table && ':' !in q.pk && PlainColumns(q.where)
    && (q.join.Some? ==> ':' !in q.join.value.table && ':' !in q.join.value.column && ':' !in q.join.value.equals)
  }

  lemma {:induction false} DotsStayPlain(name: string)
    requires ':' !in name
    ensures ':' !in DotsQuoted(name)
  {
    if name != [] {
      DotsStayPlain(name[1..]);
    }
  }

  lemma {:induction false} KeysStayPlain(keys: seq<string>)
    requires forall k | k in keys :: ':' !in k
    ensures ':' !in KeysText(keys)
  {
    if keys != [] {
      KeysStayPlain(keys[1..]);
    }
  }

  /** A literal at the end of a text without colons, after a blank. */
  lemma AtEnd(before: string, text: string)
    requires ':' !in before
    ensures HoldsParameter(before + [' '] + text) <==> HoldsParameter(text)
  {
    NoColons(before);
    ParametersAcross(before, ' ', text);
  }

  lemma AfterLike(name: string, literal: string)
    requires ':' !in name
    ensures HoldsParameter(name + " NOT LIKE " + literal) <==> HoldsParameter(literal)
  {
    hide HoldsParameter;
    assert name + " NOT LIKE " + literal == (name + " NOT LIKE") + [' '] + literal;
    AtEnd(name + " NOT LIKE", literal);
  }

  lemma InParentheses(name: string, literals: string)
    requires ':' !in name
    ensures HoldsParameter(name + " NOT IN (" + literals + ")") <==> HoldsParameter(literals)
  {
    hide HoldsParameter;
    assert name + " NOT IN (" + literals + ")" == (name + " NOT IN ") + ['('] + literals + [')'] + [];
    Between(name + " NOT IN ", '(', literals, ')', []);
  }

  lemma BothSides(left: string, right: string)
    ensures HoldsParameter(left + " AND (" + right + ")") <==> HoldsParameter(left) || HoldsParameter(right)
    ensures HoldsParameter(left + " OR " + right) <==> HoldsParameter(left) || HoldsParameter(right)
  {
    hide HoldsParameter;
    var inner := "AND " + ['('] + right + [')'] + [];
    assert left + " AND (" + right + ")" == left + [' '] + inner;
    ParametersAcross(left, ' ', inner);
    Between("AND ", '(', right, ')', []);
    assert left + " OR " + right == left + [' '] + ("OR" + [' '] + right);
    ParametersAcross(left, ' ', "OR" + [' '] + right);
    AtEnd("OR", right);
  }

  lemma ColumnStaysPlain(c: Col)
    requires ':' !in c.name
    ensures ':' !in ColumnText(c)
  {
  }

  lemma Appended(a: string, b: string)
    requires ':' !in a && ':' !in b
    ensures ':' !in a + b
  {
  }

  lemma GroupStaysPlain(pk: string, keys: string, table: string)
    requires ':' !in pk && ':' !in keys && ':' !in table
    ensures ':' !in "t." + pk + " NOT IN (SELECT MIN(s." + pk + ") FROM " + table + " s GROUP BY " + keys + ")"
  {
    var start, middle := "t." + pk, " NOT IN (SELECT MIN(s." + pk;
    Appended(start, middle);
    Appended(") FROM ", table);
    Appended(start + middle, ") FROM " + table);
    Appended(" s GROUP BY ", keys);
    Appended(" s GROUP BY " + keys, ")");
    Appended(start + middle + (") FROM " + table), " s GROUP BY " + keys + ")");
    assert "t." + pk + " NOT IN (SELECT MIN(s." + pk + ") FROM " + table + " s GROUP BY " + keys + ")"
        == start + middle + (") FROM " + table) + (" s GROUP BY " + keys + ")");
  }

  lemma LeafStaysPlain(p: Pred, table: string)
    requires PlainColumns(p) && ':' !in table
    requires p.IsNull? || p.NotNull? || p.Less? || p.Greater? || p.NotGroupMinimum?
    ensures ':' !in WhereText(p, table)
  {
    if p.NotGroupMinimum? {
      DotsStayPlain(table);
      KeysStayPlain(p.keys);
      hide KeysText;
      hide DotsQuoted;
      GroupStaysPlain(Quoted(p.pk), KeysText(p.keys), QuotedTable(table));
      hide Quoted;
      hide QuotedTable;
    } else if p.Less? || p.Greater? {
      ColumnStaysPlain(p.left);
      ColumnStaysPlain(p.right);
      hide ColumnText;
    } else {
      ColumnStaysPlain(p.column);
      hide ColumnText;
    }
  }

  /** The WHERE clause holds a parameter exactly when one of its literals does. */
  lemma {:induction false} WhereParameters(p: Pred, table: string)
    requires PlainColumns(p) && ':' !in table
    ensures HoldsParameter(WhereText(p, table)) <==> LiteralHoldsParameter(p)
  {
    hide HoldsParameter;
    hide ColumnText;
    match p
    case NotLike(c, literal) =>
      ColumnStaysPlain(c);
      AfterLike(ColumnText(c), literal);
    case NotIn(c, literals) =>
      ColumnStaysPlain(c);
      InParentheses(ColumnText(c), literals);
    case And(a, b) =>
      WhereParameters(a, table);
      WhereParameters(b, table);
      BothSides(WhereText(a, table), WhereText(b, table));
    case Or(a, b) =>
      WhereParameters(a, table);
      WhereParameters(b, table);
      BothSides(WhereText(a, table), WhereText(b, table));
    case _ =>
      LeafStaysPlain(p, table);
      NoColons(WhereText(p, table));
  }

  lemma AroundWhere(before: string, where: string, after: string)
    requires ':' !in before && ':' !in after
    ensures HoldsParameter(before + " WHERE " + where + " ORDER BY t." + after) <==> HoldsParameter(where)
  {
    hide HoldsParameter;
    var left, right := before + " WHERE", "ORDER BY t." + after;
    assert before + " WHERE " + where + " ORDER BY t." + after == left + [' '] + where + [' '] + right;
    Between(left, ' ', where, ' ', right);
  }

  lemma JoinStaysPlain(j: Option<Join>)
    requires j.Some? ==> ':' !in j.value.table && ':' !in j.value.column && ':' !in j.value.equals
    ensures ':' !in JoinText(j)
  {
    if j.Some? {
      DotsStayPlain(j.value.table);
      hide DotsQuoted;
      var table, column, equals := QuotedTable(j.value.table), Quoted(j.value.column), Quoted(j.value.equals);
      assert ':' !in table && ':' !in column && ':' !in equals;
      hide QuotedTable;
      hide Quoted;
      Appended(" LEFT JOIN ", table);
      Appended(" r ON r.", column);
      Appended(" LEFT JOIN " + table, " r ON r." + column);
      Appended(" = t.", equals);
      Appended(" LEFT JOIN " + table + (" r ON r." + column), " = t." + equals);
      assert JoinText(j) == " LEFT JOIN " + table + (" r ON r." + column) + (" = t." + equals);
    }
  }

  lemma FromStaysPlain(q: Query)
    requires PlainQuery(q)
    ensures ':' !in "SELECT t." + Quoted(q.pk) + " FROM " + QuotedTable(q.table) + " t" + JoinText(q.join)
  {
    DotsStayPlain(q.table);
    JoinStaysPlain(q.join);
    hide DotsQuoted;
    hide JoinText;
    var pk, table, join := Quoted(q.pk), QuotedTable(q.table), JoinText(q.join);
    assert ':' !in pk && ':' !in table;
    hide QuotedTable;
    hide Quoted;
    Appended("SELECT t.", pk);
    Appended(" FROM ", table);
    Appended("SELECT t." + pk, " FROM " + table);
    Appended(" t", join);
    Appended("SELECT t." + pk + (" FROM " + table), " t" + join);
    assert "SELECT t." + pk + " FROM " + table + " t" + join == "SELECT t." + pk + (" FROM " + table) + (" t" + join);
  }

  /** The whole query holds a parameter exactly when a literal of its predicate does. */
  lemma QueryParameters(q: Query)
    requires PlainQuery(q)
    ensures HoldsParameter(QueryText(q)) <==> LiteralHoldsParameter(q.where)
  {
    hide HoldsParameter;
    hide WhereText;
    hide LiteralHoldsParameter;
    WhereParameters(q.where, q.table);
    FromStaysPlain(q);
    hide JoinText;
    hide QuotedTable;
    AroundWhere("SELECT t." + Quoted(q.pk) + " FROM " + QuotedTable(q.table) + " t" + JoinText(q.join),
                WhereText(q.where, q.table), Quoted(q.pk));
  }

  // ---------- literals and the values in them ----------

  /** A LIKE pattern holds a parameter exactly when its needle does. */
  lemma PatternParameters(needle: string)
    requires PlainNeedle(needle)
    ensures HoldsParameter(LikePattern(needle).value) <==> HoldsParameter(needle)
  {
    assert LikePattern(needle).value == ['\''] + ['%'] + needle + ['%'] + ['\''];
    Between(['\''], '%', needle, '%', ['\'']);
  }

  /** Up to and including the first quote. */
  function FirstQuote(s: string): (i: nat)
    ensures i <= |s| && '\'' !in s[..i] && (i < |s| ==> s[i] == '\'')
  {
    if s == [] || s[0] == '\'' then 0
    else
      assert s[..1 + FirstQuote(s[1..])] == [s[0]] + s[1..][..FirstQuote(s[1..])];
      1 + FirstQuote(s[1..])
  }

  lemma {:induction false} DoubleQuotesAppend(a: string, b: string)
    ensures DoubleQuotes(a + b) == DoubleQuotes(a) + DoubleQuotes(b)
  {
    if a == [] {
      assert a + b == b;
    } else {
      assert (a + b)[1..] == a[1..] + b;
      DoubleQuotesAppend(a[1..], b);
    }
  }

  lemma DoubledAround(a: string, b: string)
    requires '\'' !in a
    ensures DoubleQuotes(a + ['\''] + b) == a + ['\''] + ([] + ['\''] + DoubleQuotes(b))
  {
    PlainBody(a);
    DoubleQuotesAppend(a, ['\''] + b);
    assert a + (['\''] + b) == a + ['\''] + b;
    assert (['\''] + b)[1..] == b;
  }

  /** Doubling the quotes of a value changes nothing about what `text()` finds in it. */
  lemma {:induction false} DoubledParameters(value: string)
    ensures HoldsParameter(DoubleQuotes(value)) <==> HoldsParameter(value)
    decreases |value|
  {
    hide HoldsParameter;
    var i := FirstQuote(value);
    if i == |value| {
      assert value[..i] == value;
      PlainBody(value);
    } else {
      hide DoubleQuotes;
      var a, b := value[..i], value[i + 1..];
      assert value == a + ['\''] + b;
      DoubledAround(a, b);
      DoubledParameters(b);
      ParametersAcross(a, '\'', b);
      ParametersAcross(a, '\'', [] + ['\''] + DoubleQuotes(b));
      ParametersAcross([], '\'', DoubleQuotes(b));
      NoColons([]);
    }
  }

  lemma LiteralOfValue(value: string)
    ensures HoldsParameter(SqlStr(value)) <==> HoldsParameter(value)
  {
    DoubledParameters(value);
    assert SqlStr(value) == [] + ['\''] + DoubleQuotes(value) + ['\''] + [];
    Between([], '\'', DoubleQuotes(value), '\'', []);
  }

  lemma AcrossComma(first: string, rest: string)
    ensures HoldsParameter(first + [',', ' '] + rest) <==> HoldsParameter(first) || HoldsParameter(rest)
  {
    hide HoldsParameter;
    assert first + [',', ' '] + rest == first + [','] + ([] + [' '] + rest);
    ParametersAcross(first, ',', [] + [' '] + rest);
    AtEnd([], rest);
  }

  lemma FirstOfList(values: seq<string>)
    requires |values| >= 2
    ensures HoldsParameter(InList(values)) <==> HoldsParameter(values[0]) || HoldsParameter(InList(values[1..]))
  {
    hide HoldsParameter;
    hide SqlStr;
    LiteralOfValue(values[0]);
    AcrossComma(SqlStr(values[0]), InList(values[1..]));
  }

  /** One of the values reads as a parameter. */
  predicate SomeHolds(values: seq<string>) {
    exists v | v in values :: HoldsParameter(v)
  }

  lemma FirstOrLater(values: seq<string>)
    requires values != []
    ensures SomeHolds(values) <==> HoldsParameter(values[0]) || SomeHolds(values[1..])
  {
    hide HoldsParameter;
    if SomeHolds(values) {
      var v :| v in values && HoldsParameter(v);
      assert v == values[0] || v in values[1..];
    }
    if SomeHolds(values[1..]) {
      var v :| v in values[1..] && HoldsParameter(v);
      assert v in values;
    }
    if HoldsParameter(values[0]) {
      assert values[0] in values;
    }
  }

  /** An IN list holds a parameter exactly when a value in it does. */
  lemma {:induction false} ListParameters(values: seq<string>)
    ensures HoldsParameter(InList(values)) <==> exists v | v in values :: HoldsParameter(v)
  {
    hide HoldsParameter;
    if values == [] {
      NoColons(InList(values));
    } else {
      FirstOrLater(values);
      if |values| == 1 {
        LiteralOfValue(values[0]);
        assert !SomeHolds(values[1..]);
      } else {
        ListParameters(values[1..]);
        FirstOfList(values);
      }
      hide InList;
    }
    assert SomeHolds(values) <==> exists v | v in values :: HoldsParameter(v);
  }
}

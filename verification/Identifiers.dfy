/** How PostgreSQL reads the names in the program's SQL text. The apply path quotes every identifier; the sample
    queries and the suite's table reads do not, so there a name is folded to lower case, and a key word that the
    grammar reserves is not a name at all (quality/predicates.py, quality/suite.py, action_definitions.py). */
module Identifiers {
  import opened Prelude
  import opened Sql

  // ---------- one name ----------

  function FoldChar(c: char): char {
    if 'A' <= c <= 'Z' then (c as int + 32) as char else c
  }

  /** What an unquoted name denotes. */
  function Fold(name: string): string {
    Map(name, (c: char) => FoldChar(c))
  }

  /** A name is its own fold exactly when it has no capital letter; the fold puts the small letter for each. */
  lemma FoldMeans(name: string)
    ensures OwnFold(name) <==> forall c | c in name :: !('A' <= c <= 'Z')
    ensures |Fold(name)| == |name|
    ensures forall i | 0 <= i < |name| ::
              if 'A' <= name[i] <= 'Z' then Fold(name)[i] as int - 'a' as int == name[i] as int - 'A' as int
              else Fold(name)[i] == name[i]
  {
    if OwnFold(name) {
      forall c | c in name ensures !('A' <= c <= 'Z') {
        var i: nat :| i < |name| && name[i] == c;
        assert Fold(name)[i] == FoldChar(c);
      }
    }
    if forall c | c in name :: !('A' <= c <= 'Z') {
      assert forall i | 0 <= i < |name| :: name[i] in name;
      assert Fold(name) == name;
    }
  }

  lemma FoldTwice(name: string)
    ensures Fold(Fold(name)) == Fold(name)
  {
  }

  lemma FoldAppend(a: string, b: string)
    ensures Fold(a + b) == Fold(a) + Fold(b)
  {
  }

  /** The key words PostgreSQL reserves where a column or a schema is named, by length. Bare, some of them are a
      syntax error and some a value, such as the session's user; none of them is a column. */
  predicate KeyWord(w: string) {
    match |w|
    case 2 => w in {"as", "do", "in", "is", "on", "or", "to"}
    case 3 => w in {"all", "and", "any", "asc", "end", "for", "not"}
    case 4 => w in {"both", "case", "cast", "desc", "else", "from", "full", "into", "join", "left", "like", "null",
                    "only", "some", "then", "true", "user", "when", "with"}
    case 5 => w in {"array", "check", "cross", "false", "fetch", "grant", "group", "ilike", "inner", "limit", "order",
                    "outer", "right", "table", "union", "using", "where"}
    case 6 => w in {"binary", "column", "create", "except", "freeze", "having", "isnull", "offset", "select", "unique",
                    "window"}
    case 7 => w in {"analyse", "analyze", "collate", "default", "foreign", "lateral", "leading", "natural", "notnull",
                    "placing", "primary", "similar", "verbose"}
    case 8 => w in {"distinct", "overlaps", "trailing", "variadic"}
    case 9 => w in {"collation", "initially", "intersect", "localtime", "returning", "symmetric"}
    case 10 => w in {"asymmetric", "constraint", "deferrable", "references"}
    case 11 => w in {"system_user", "tablesample"}
    case 12 => w in {"concurrently", "current_date", "current_role", "current_time", "current_user", "session_user"}
    case 13 => w == "authorization"
    case 14 => w in {"current_schema", "localtimestamp"}
    case 15 => w == "current_catalog"
    case 17 => w == "current_timestamp"
    case _ => false
  }

  predicate Reserved(name: string) {
    KeyWord(Fold(name))
  }

  predicate OwnFold(name: string) {
    Fold(name) == name
  }

  // ---------- a query ----------

  function FoldColumn(c: Col): Col {
    match c
    case T(name) => T(Fold(name))
    case R(name) => R(Fold(name))
  }

  function FoldPred(p: Pred): Pred {
    match p
    case IsNull(c) => IsNull(FoldColumn(c))
    case NotNull(c) => NotNull(FoldColumn(c))
    case Less(a, b) => Less(FoldColumn(a), FoldColumn(b))
    case Greater(a, b) => Greater(FoldColumn(a), FoldColumn(b))
    case NotLike(c, literal) => NotLike(FoldColumn(c), literal)
    case NotIn(c, literals) => NotIn(FoldColumn(c), literals)
    case And(a, b) => And(FoldPred(a), FoldPred(b))
    case Or(a, b) => Or(FoldPred(a), FoldPred(b))
    case NotGroupMinimum(pk, keys) => NotGroupMinimum(Fold(pk), Map(keys, (k: string) => Fold(k)))
  }

  function FoldJoin(j: Join): Join {
    Join(Fold(j.table), Fold(j.column), Fold(j.equals))
  }

  function FoldQuery(q: Query): Query {
    Query(Fold(q.table), if q.join.Some? then Some(FoldJoin(q.join.value)) else None, FoldPred(q.where), Fold(q.pk))
  }

  function Columns(p: Pred): set<string> {
    match p
    case IsNull(c) => {c.name}
    case NotNull(c) => {c.name}
    case Less(a, b) => {a.name, b.name}
    case Greater(a, b) => {a.name, b.name}
    case NotLike(c, _) => {c.name}
    case NotIn(c, _) => {c.name}
    case And(a, b) => Columns(a) + Columns(b)
    case Or(a, b) => Columns(a) + Columns(b)
    case NotGroupMinimum(pk, keys) => {pk} + Elements(keys)
  }

  function FirstSegment(name: string): string {
    if name == [] || name[0] == '.' then [] else [name[0]] + FirstSegment(name[1..])
  }

  /** Every name the query mentions; a table by its qualified name. */
  function Names(q: Query): set<string> {
    Columns(q.where) + {q.table, q.pk}
      + (if q.join.Some? then {q.join.value.table, q.join.value.column, q.join.value.equals} else {})
  }

  /** The names that stand alone, where a reserved word is not a name: the schemas, and the columns of a query
      that does not join. Behind a table alias and a dot any word is a name. */
  function BareNames(q: Query): set<string> {
    {FirstSegment(q.table)}
      + (if q.join.Some? then {FirstSegment(q.join.value.table)} else Columns(q.where) + {q.pk})
  }

  /** The query that unquoted text denotes, None where a reserved word takes the place of a name. */
  function ReadUnquoted(q: Query): Option<Query> {
    if exists n | n in BareNames(q) :: Reserved(n) then None else Some(FoldQuery(q))
  }

  /** Every name is its own fold, and no bare one is reserved. */
  predicate PlainNames(q: Query) {
    (forall n | n in Names(q) :: OwnFold(n)) && (forall n | n in BareNames(q) :: !Reserved(n))
  }

  lemma FoldKeysSame(keys: seq<string>)
    ensures Map(keys, (k: string) => Fold(k)) == keys <==> forall n | n in Elements(keys) :: OwnFold(n)
  {
    hide Fold;
    var folded := Map(keys, (k: string) => Fold(k));
    if forall n | n in Elements(keys) :: OwnFold(n) {
      forall i | 0 <= i < |keys| ensures folded[i] == keys[i] {
        assert keys[i] in Elements(keys);
      }
      assert folded == keys;
    }
    if folded == keys {
      forall n | n in Elements(keys) ensures OwnFold(n) {
        var i: nat :| i < |keys| && keys[i] == n;
        assert folded[i] == Fold(keys[i]);
      }
    }
  }

  lemma FoldColumnSame(c: Col)
    ensures FoldColumn(c) == c <==> OwnFold(c.name)
  {
  }

  lemma {:induction false} FoldPredSame(p: Pred)
    ensures FoldPred(p) == p <==> forall n | n in Columns(p) :: OwnFold(n)
  {
    hide Fold;
    hide FoldColumn;
    hide OwnFold;
    match p
    case And(a, b) =>
      FoldPredSame(a);
      FoldPredSame(b);
      assert forall n :: n in Columns(p) <==> n in Columns(a) || n in Columns(b);
    case Or(a, b) =>
      FoldPredSame(a);
      FoldPredSame(b);
      assert forall n :: n in Columns(p) <==> n in Columns(a) || n in Columns(b);
    case NotGroupMinimum(pk, keys) =>
      FoldKeysSame(keys);
      FoldNameSame(pk);
      assert forall n :: n in Columns(p) <==> n == pk || n in Elements(keys);
    case Less(a, b) =>
      FoldColumnSame(a);
      FoldColumnSame(b);
      assert forall n :: n in Columns(p) <==> n == a.name || n == b.name;
    case Greater(a, b) =>
      FoldColumnSame(a);
      FoldColumnSame(b);
      assert forall n :: n in Columns(p) <==> n == a.name || n == b.name;
    case _ =>
      FoldColumnSame(p.column);
      assert forall n :: n in Columns(p) <==> n == p.column.name;
  }

  lemma FoldNameSame(name: string)
    ensures Fold(name) == name <==> OwnFold(name)
  {
  }

  /** Unquoted text denotes the query as written exactly when its names are plain. */
  lemma ReadsAsWritten(q: Query)
    ensures ReadUnquoted(q) == Some(q) <==> PlainNames(q)
  {
    hide Reserved;
    FoldPredSame(q.where);
    FoldsToItself(q);
  }

  lemma FoldsToItself(q: Query)
    ensures FoldQuery(q) == q <==> forall n | n in Names(q) :: OwnFold(n)
  {
    FoldPredSame(q.where);
    hide FoldPred;
    hide Columns;
    hide Fold;
    if forall n | n in Names(q) :: OwnFold(n) {
      assert OwnFold(q.table) && OwnFold(q.pk);
      if q.join.Some? {
        var j := q.join.value;
        assert OwnFold(j.table) && OwnFold(j.column) && OwnFold(j.equals);
      }
      assert forall n | n in Columns(q.where) :: n in Names(q);
    }
  }
}

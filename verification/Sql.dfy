/** Rows, predicates and queries: the fragment of SQL that the governed renderers emit,
    with three-valued truth, and the fragment of Polars that the quality suite uses. */
module Sql {
  import opened Prelude
  import opened SqlText

  /** One stored value. Dates and timestamps are their ISO text, which orders as they do. */
  datatype Cell = Null | Int(n: int) | Str(s: string)

  type Row = map<string, Cell>

  /** A column the row does not carry reads as NULL. */
  function Get(row: Row, column: string): Cell {
    if column in row then row[column] else Null
  }

  // ---------- ordering ----------

  predicate TextLe(a: string, b: string) {
    if a == [] then true
    else if b == [] then false
    else if a[0] != b[0] then a[0] < b[0]
    else TextLe(a[1..], b[1..])
  }

  /** The total order behind ORDER BY, MIN, `<` and `>`. NULLs come last, as in PostgreSQL. */
  predicate CellLe(a: Cell, b: Cell) {
    match (a, b)
    case (_, Null) => true
    case (Null, _) => false
    case (Int(x), Int(y)) => x <= y
    case (Int(_), Str(_)) => true
    case (Str(_), Int(_)) => false
    case (Str(x), Str(y)) => TextLe(x, y)
  }

  lemma {:induction false} TextOrder(a: string, b: string, c: string)
    ensures TextLe(a, b) || TextLe(b, a)
    ensures TextLe(a, b) && TextLe(b, a) ==> a == b
    ensures TextLe(a, b) && TextLe(b, c) ==> TextLe(a, c)
  {
    if a != [] && b != [] && a[0] == b[0] {
      TextOrder(a[1..], b[1..], if c == [] then [] else c[1..]);
      assert a == [a[0]] + a[1..] && b == [b[0]] + b[1..];
    }
  }

  lemma CellOrder(a: Cell, b: Cell, c: Cell)
    ensures CellLe(a, b) || CellLe(b, a)
    ensures CellLe(a, b) && CellLe(b, a) ==> a == b
    ensures CellLe(a, b) && CellLe(b, c) ==> CellLe(a, c)
  {
    TextOrder(if a.Str? then a.s else [], if b.Str? then b.s else [], if c.Str? then c.s else []);
  }

  predicate Ordered(rows: seq<Row>, key: string) {
    forall i, j :: 0 <= i < j < |rows| ==> CellLe(Get(rows[i], key), Get(rows[j], key))
  }

  function Insert(rows: seq<Row>, row: Row, key: string): seq<Row> {
    if rows == [] then [row]
    else if CellLe(Get(row, key), Get(rows[0], key)) then [row] + rows
    else [rows[0]] + Insert(rows[1..], row, key)
  }

  /** ORDER BY one column. */
  function OrderBy(rows: seq<Row>, key: string): seq<Row> {
    if rows == [] then [] else Insert(OrderBy(rows[1..], key), rows[0], key)
  }

  function ColumnOf(rows: seq<Row>, column: string): seq<Cell> {
    Map(rows, (row: Row) => Get(row, column))
  }

  lemma {:induction false} InsertElements(rows: seq<Row>, row: Row, key: string)
    ensures multiset(Insert(rows, row, key)) == multiset(rows) + multiset{row}
    ensures forall x :: x in Insert(rows, row, key) <==> x == row || x in rows
  {
    if rows != [] && !CellLe(Get(row, key), Get(rows[0], key)) {
      InsertElements(rows[1..], row, key);
      assert rows == [rows[0]] + rows[1..];
    }
  }

  lemma {:induction false} InsertOrdered(rows: seq<Row>, row: Row, key: string)
    requires Ordered(rows, key)
    ensures Ordered(Insert(rows, row, key), key)
  {
    if rows != [] {
      CellOrder(Get(row, key), Get(rows[0], key), Null);
      if CellLe(Get(row, key), Get(rows[0], key)) {
        forall r | r in rows ensures CellLe(Get(row, key), Get(r, key)) {
          CellOrder(Get(row, key), Get(rows[0], key), Get(r, key));
        }
      } else {
        hide CellLe;
        assert rows == [rows[0]] + rows[1..];
        InsertOrdered(rows[1..], row, key);
        InsertElements(rows[1..], row, key);
        var inner := Insert(rows[1..], row, key);
        forall r | r in inner ensures CellLe(Get(rows[0], key), Get(r, key)) {
          assert r == row || r in rows;
        }
      }
    }
  }

  lemma {:induction false} OrderBySorts(rows: seq<Row>, key: string)
    ensures Ordered(OrderBy(rows, key), key)
    ensures multiset(OrderBy(rows, key)) == multiset(rows)
    ensures |OrderBy(rows, key)| == |rows|
  {
    if rows != [] {
      OrderBySorts(rows[1..], key);
      InsertOrdered(OrderBy(rows[1..], key), rows[0], key);
      InsertElements(OrderBy(rows[1..], key), rows[0], key);
      assert rows == [rows[0]] + rows[1..];
    }
    assert |multiset(OrderBy(rows, key))| == |multiset(rows)|;
  }

  // ---------- three-valued predicates ----------

  datatype Truth = True | False | Unknown

  function Negate(t: Truth): Truth {
    match t case True => False case False => True case Unknown => Unknown
  }

  function AndT(a: Truth, b: Truth): Truth {
    if a == False || b == False then False else if a == True && b == True then True else Unknown
  }

  function OrT(a: Truth, b: Truth): Truth {
    if a == True || b == True then True else if a == False && b == False then False else Unknown
  }

  function TruthOf(b: bool): Truth {
    if b then True else False
  }

  /** `a < b`: unknown when either side is NULL. */
  function LessT(a: Cell, b: Cell): Truth {
    if a == Null || b == Null then Unknown else TruthOf(CellLe(a, b) && a != b)
  }

  /** A value stands before another: an integer below an integer, text at the first character that differs. No
      column holds both. */
  ghost predicate Before(a: Cell, b: Cell) {
    match (a, b)
    case (Int(x), Int(y)) => x < y
    case (Str(x), Str(y)) =>
      exists k: nat | k < |y| && k <= |x| :: x[..k] == y[..k] && (k < |x| ==> x[k] < y[k])
    case (Int(_), Str(_)) => true
    case _ => false
  }

  lemma {:induction false} TextBefore(a: string, b: string)
    ensures TextLe(a, b) && a != b
       <==> exists k: nat | k < |b| && k <= |a| :: a[..k] == b[..k] && (k < |a| ==> a[k] < b[k])
  {
    if a != [] && b != [] && a[0] == b[0] {
      TextBefore(a[1..], b[1..]);
      assert a == [a[0]] + a[1..] && b == [b[0]] + b[1..];
      if k: nat :| k < |b[1..]| && k <= |a[1..]| && a[1..][..k] == b[1..][..k]
                   && (k < |a[1..]| ==> a[1..][k] < b[1..][k]) {
        assert a[..k + 1] == [a[0]] + a[1..][..k] && b[..k + 1] == [b[0]] + b[1..][..k];
      }
      if k: nat :| k < |b| && k <= |a| && a[..k] == b[..k] && (k < |a| ==> a[k] < b[k]) {
        assert k > 0;
        assert a[1..][..k - 1] == a[..k][1..] && b[1..][..k - 1] == b[..k][1..];
      }
    } else if b != [] && (a == [] || a[0] < b[0]) {
      assert a[..0] == b[..0];
    }
  }

  /** ORDER BY, MIN and the comparison of two values follow that order, NULL last in the first two and unknown in
      the third. */
  lemma LessMeansBefore(a: Cell, b: Cell)
    ensures CellLe(a, b) <==> b == Null || a == b || Before(a, b)
    ensures a != Null && b != Null ==> LessT(a, b) == TruthOf(Before(a, b))
    ensures LessT(a, b) == True <==> Before(a, b)
  {
    if a.Str? && b.Str? {
      TextBefore(a.s, b.s);
      TextOrder(a.s, a.s, a.s);
    }
  }

  function EqualT(a: Cell, b: Cell): Truth {
    if a == Null || b == Null then Unknown else TruthOf(a == b)
  }

  /** A column of the target table `t` or of the joined table `r`. */
  datatype Col = T(name: string) | R(name: string)

  datatype Pred =
    | IsNull(column: Col)
    | NotNull(column: Col)
    | Less(left: Col, right: Col)
    | Greater(left: Col, right: Col)
    | NotLike(column: Col, literal: string)
    | NotIn(column: Col, literals: string)
    | And(a: Pred, b: Pred)
    | Or(a: Pred, b: Pred)
    /** `t.pk NOT IN (SELECT MIN(s.pk) FROM the same table s GROUP BY keys)` */
    | NotGroupMinimum(pk: string, keys: seq<string>)

  /** One row of `t [LEFT JOIN r]`; an unmatched right side is the empty row, all NULL. */
  datatype Joined = Joined(t: Row, r: Row)

  function Field(row: Joined, column: Col): Cell {
    match column
    case T(name) => Get(row.t, name)
    case R(name) => Get(row.r, name)
  }

  function GroupKey(row: Row, keys: seq<string>): seq<Cell> {
    Map(keys, (k: string) => Get(row, k))
  }

  /** GROUP BY puts NULLs in one group, in SQL and in Polars. */
  function SameGroup(rows: seq<Row>, row: Row, keys: seq<string>): seq<Row> {
    Filter(rows, (s: Row) => GroupKey(s, keys) == GroupKey(row, keys))
  }

  function MinCell(cells: seq<Cell>): (m: Cell)
    requires cells != []
    ensures m in cells
    ensures forall c | c in cells :: CellLe(m, c)
  {
    if |cells| == 1 then
      CellOrder(cells[0], cells[0], cells[0]);
      cells[0]
    else
      var m := MinCell(cells[1..]);
      CellOrder(cells[0], m, m);
      assert forall c | c in cells[1..] && CellLe(cells[0], m) :: CellLe(cells[0], c) by {
        forall c | c in cells[1..] && CellLe(cells[0], m) ensures CellLe(cells[0], c) {
          CellOrder(cells[0], m, c);
        }
      }
      CellOrder(cells[0], cells[0], cells[0]);
      assert cells == [cells[0]] + cells[1..];
      if CellLe(cells[0], m) then cells[0] else m
  }

  /** MIN over one group. MIN skips NULLs, which the order above gives because NULL comes last. */
  function GroupMin(rows: seq<Row>, row: Row, pk: string, keys: seq<string>): Cell {
    var group := ColumnOf(SameGroup(rows, row, keys), pk);
    if group == [] then Null else MinCell(group)
  }

  /** The values of `SELECT MIN(pk) ... GROUP BY keys`, once per row of the group. */
  function GroupMinima(rows: seq<Row>, pk: string, keys: seq<string>): seq<Cell> {
    Map(rows, (row: Row) => GroupMin(rows, row, pk, keys))
  }

  /** `x NOT IN (v1, ..., vn)`: false on a match, unknown on a NULL, true otherwise. */
  function NotInT(x: Cell, values: seq<Cell>): Truth {
    if values == [] then True
    else if x == Null then Unknown
    else if x in values then False
    else if Null in values then Unknown
    else True
  }

  /** NOT IN says that every value differs: true if all do, false if one is equal, and unknown while a NULL leaves it
      open. */
  lemma NotInMeans(x: Cell, values: seq<Cell>)
    ensures NotInT(x, values) == True <==> forall v | v in values :: EqualT(x, v) == False
    ensures NotInT(x, values) == False <==> exists v | v in values :: EqualT(x, v) == True
  {
    if x == Null && values != [] {
      assert EqualT(x, values[0]) == Unknown && values[0] in values;
    }
    if Null in values {
      assert EqualT(x, Null) == Unknown;
    }
  }

  function Eval(p: Pred, row: Joined, table: seq<Row>): Truth {
    match p
    case IsNull(c) => TruthOf(Field(row, c) == Null)
    case NotNull(c) => TruthOf(Field(row, c) != Null)
    case Less(a, b) => LessT(Field(row, a), Field(row, b))
    case Greater(a, b) => LessT(Field(row, b), Field(row, a))
    case NotLike(c, literal) =>
      if Field(row, c).Str? then Negate(TruthOf(LikeLiteral(literal, Field(row, c).s))) else Unknown
    case NotIn(c, literals) =>
      (match ReadList(literals)
       case None => Unknown
       case Some(values) => NotInT(Field(row, c), Map(values, (v: string) => Str(v))))
    case And(a, b) => AndT(Eval(a, row, table), Eval(b, row, table))
    case Or(a, b) => OrT(Eval(a, row, table), Eval(b, row, table))
    case NotGroupMinimum(pk, keys) => NotInT(Get(row.t, pk), GroupMinima(table, pk, keys))
  }

  // ---------- queries ----------

  datatype Join = Join(table: string, column: string, equals: string)

  /** `SELECT ... FROM table t [LEFT JOIN j ON r.column = t.equals] WHERE where ORDER BY pk`. */
  datatype Query = Query(table: string, join: Option<Join>, where: Pred, pk: string)

  type Store = map<string, seq<Row>>

  /** The rows of `t LEFT JOIN r` that one row of t contributes. */
  function JoinRow(t: Row, right: seq<Row>, j: Join): seq<Joined> {
    var matches := Filter(right, (r: Row) => EqualT(Get(r, j.column), Get(t, j.equals)) == True);
    if matches == [] then [Joined(t, map[])] else Map(matches, (r: Row) => Joined(t, r))
  }

  function JoinRows(rows: seq<Row>, right: seq<Row>, j: Join): seq<Joined> {
    if rows == [] then [] else JoinRow(rows[0], right, j) + JoinRows(rows[1..], right, j)
  }

  function Source(store: Store, q: Query): seq<Joined>
    requires q.table in store && (q.join.Some? ==> q.join.value.table in store)
  {
    match q.join
    case None => Alone(store[q.table])
    case Some(j) => JoinRows(store[q.table], store[j.table], j)
  }

  /** WHERE keeps the rows its predicate is true of, not those it is unknown of. */
  function Keeps(where: Pred, table: seq<Row>): Joined -> bool {
    (row: Joined) => Eval(where, row, table) == True
  }

  function Alone(rows: seq<Row>): seq<Joined> {
    Map(rows, (t: Row) => Joined(t, map[]))
  }

  function Left(rows: seq<Joined>): seq<Row> {
    Map(rows, (row: Joined) => row.t)
  }

  /** The selected rows of t in table order, or None where a named table does not exist. */
  function Select(store: Store, q: Query): Option<seq<Row>> {
    if q.table !in store || (q.join.Some? && q.join.value.table !in store) then None
    else
      Some(Left(Filter(Source(store, q), Keeps(q.where, store[q.table]))))
  }

  /** The ordered primary keys a target query returns. */
  function SelectKeys(store: Store, q: Query): Option<seq<Cell>> {
    match Select(store, q)
    case None => None
    case Some(rows) => Some(ColumnOf(OrderBy(rows, q.pk), q.pk))
  }

  /** A query without a join keeps exactly the rows its predicate is true of. */
  lemma SelectWithoutJoin(store: Store, q: Query)
    requires q.table in store && q.join == None
    ensures Select(store, q)
         == Some(Filter(store[q.table], (t: Row) => Keeps(q.where, store[q.table])(Joined(t, map[]))))
  {
    FilterAlone(store[q.table], q.where, store[q.table]);
  }

  lemma {:induction false} FilterAlone(rows: seq<Row>, where: Pred, table: seq<Row>)
    ensures Left(Filter(Alone(rows), Keeps(where, table)))
         == Filter(rows, (t: Row) => Keeps(where, table)(Joined(t, map[])))
  {
    hide Eval;
    if rows != [] {
      FilterAlone(rows[1..], where, table);
      var keep := Keeps(where, table);
      assert Alone(rows)[1..] == Alone(rows[1..]);
      LeftAppend(if keep(Alone(rows)[0]) then [Alone(rows)[0]] else [], Filter(Alone(rows[1..]), keep));
    }
  }

  lemma LeftAppend(a: seq<Joined>, b: seq<Joined>)
    ensures Left(a + b) == Left(a) + Left(b)
  {
  }

  /** Polars' anti join: no right row carries the same non-null key. */
  predicate Unmatched(t: Row, right: seq<Row>, j: Join) {
    forall r | r in right :: EqualT(Get(r, j.column), Get(t, j.equals)) != True
  }

  /** An anti join written as a LEFT JOIN keeps each unmatched row once and no other, NULL keys included. */
  lemma SelectUnmatched(store: Store, q: Query)
    requires q.join.Some? && q.table in store && q.join.value.table in store
    requires q.where == IsNull(R(q.join.value.column))
    ensures Select(store, q) ==
            Some(Filter(store[q.table], (t: Row) => Unmatched(t, store[q.join.value.table], q.join.value)))
  {
    UnmatchedRows(store[q.table], store[q.join.value.table], q.join.value, Keeps(q.where, store[q.table]));
  }

  lemma UnmatchedRow(t: Row, right: seq<Row>, j: Join, keep: Joined -> bool)
    requires forall row :: keep(row) <==> Get(row.r, j.column) == Null
    ensures Filter(JoinRow(t, right, j), keep) == if Unmatched(t, right, j) then [Joined(t, map[])] else []
  {
    var head := JoinRow(t, right, j);
    var matches := Filter(right, (r: Row) => EqualT(Get(r, j.column), Get(t, j.equals)) == True);
    if matches == [] {
      assert head == [Joined(t, map[])];
      FilterAll(head, keep);
    } else {
      assert matches[0] in matches;
      forall row | row in head ensures !keep(row) {
        var i :| 0 <= i < |head| && head[i] == row;
        assert matches[i] in matches && row.r == matches[i];
      }
      FilterNone(head, keep);
    }
  }

  lemma {:induction false} UnmatchedRows(rows: seq<Row>, right: seq<Row>, j: Join, keep: Joined -> bool)
    requires forall row :: keep(row) <==> Get(row.r, j.column) == Null
    ensures Left(Filter(JoinRows(rows, right, j), keep)) == Filter(rows, (t: Row) => Unmatched(t, right, j))
  {
    if rows != [] {
      UnmatchedRows(rows[1..], right, j, keep);
      UnmatchedRow(rows[0], right, j, keep);
      FilterAppend(JoinRow(rows[0], right, j), JoinRows(rows[1..], right, j), keep);
      LeftAppend(Filter(JoinRow(rows[0], right, j), keep), Filter(JoinRows(rows[1..], right, j), keep));
    }
  }
}

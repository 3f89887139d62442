/** When the sample query a reader sees shows what apply would target: exactly when every name in it is its own
    lower-case fold and no bare name is a reserved word (quality/predicates.py). */
module Samples {
  import opened Prelude
  import opened SqlText
  import opened Sql
  import opened Contracts
  import opened Actions
  import opened Identifiers
  import opened Predicates

  /** The keys the sample text selects on a database. */
  function SampleKeys(store: Store, text: Query): Option<seq<Cell>> {
    match ReadUnquoted(text)
    case None => None
    case Some(q) => SelectKeys(store, q)
  }

  // ---------- databases of one row ----------

  lemma OneKey(u: Row, pk: string)
    ensures ColumnOf(OrderBy([u], pk), pk) == [Get(u, pk)]
  {
    assert [u][1..] == [];
  }

  /** What a query without a join selects from a table of one row. */
  lemma SelectsOne(store: Store, q: Query, u: Row)
    requires q.join.None? && q.table in store && store[q.table] == [u]
    ensures Keeps(q.where, [u])(Joined(u, map[])) ==> SelectKeys(store, q) == Some([Get(u, q.pk)])
    ensures !Keeps(q.where, [u])(Joined(u, map[])) ==> SelectKeys(store, q) == Some([])
  {
    SelectWithoutJoin(store, q);
    OneKey(u, q.pk);
    assert [u][1..] == [];
  }

  /** What an orphans query selects from a table of one row. */
  lemma SelectsOrphan(store: Store, q: Query, u: Row)
    requires q.join.Some? && q.where == IsNull(R(q.join.value.column))
    requires q.table in store && store[q.table] == [u] && q.join.value.table in store
    ensures Unmatched(u, store[q.join.value.table], q.join.value) ==> SelectKeys(store, q) == Some([Get(u, q.pk)])
    ensures !Unmatched(u, store[q.join.value.table], q.join.value) ==> SelectKeys(store, q) == Some([])
  {
    SelectUnmatched(store, q);
    OneKey(u, q.pk);
    assert [u][1..] == [];
  }

  // ---------- the window ----------

  /** A row the window predicate keeps and its fold drops. */
  lemma WindowWitness(n: string, s: string, e: string) returns (u: Row)
    requires !(s == n && e == n)
    requires !(OwnFold(n) && OwnFold(s) && OwnFold(e))
    ensures OutsideWindow(u, n, s, e) && !OutsideWindow(u, Fold(n), Fold(s), Fold(e))
  {
    FoldTwice(n);
    FoldTwice(s);
    FoldTwice(e);
    if OwnFold(n) && !OwnFold(s) {
      u := map[n := Int(1), s := Int(2)];
    } else if OwnFold(n) {
      u := map[n := Int(2), e := Int(1)];
    } else if s != n {
      u := map[n := Int(1), s := Int(2)];
    } else {
      u := map[n := Int(2), e := Int(1)];
    }
  }

  /** A row outside the window, whatever the columns are called. */
  lemma OutsideExists(n: string, s: string, e: string) returns (u: Row)
    requires !(s == n && e == n)
    ensures OutsideWindow(u, n, s, e)
  {
    u := if s != n then map[n := Int(1), s := Int(2)] else map[n := Int(2), e := Int(1)];
  }

  // ---------- the forms of a check ----------

  /** The selection depends on the data: a window whose two bounds are the checked column itself keeps nothing. */
  predicate Telling(spec: CheckSpec) {
    spec.dimension == Validity && spec.contains.None? && HasWindow(spec) && spec.column.Some? ==>
      !(spec.windowStart == spec.column && spec.windowEnd == spec.column)
  }

  /** A row the target predicate of a check without a join keeps. */
  lemma KeptRow(cat: Catalogs, spec: CheckSpec) returns (u: Row)
    requires BuiltIn(cat, spec) && spec.dimension in {Completeness, Validity} && Telling(spec)
    ensures Keeps(TargetWhere(cat, spec), [u])(Joined(u, map[]))
  {
    var name := spec.column.value;
    if spec.dimension == Completeness || spec.contains.Some? {
      u := map[];
      if spec.contains.Some? && spec.dimension == Validity {
        ContainsParity(spec.contains.value, name, u, [u]);
      }
    } else if HasWindow(spec) {
      u := OutsideExists(name, spec.windowStart.value, spec.windowEnd.value);
      WindowParity(name, spec.windowStart.value, spec.windowEnd.value, u, [u]);
    } else {
      u := map[name := Int(0)];
      AllowedParity(AllowedValues(cat, spec).value, name, u, [u]);
    }
  }

  /** The row is kept by a predicate and dropped by what its unquoted text denotes. */
  ghost predicate TellsApart(u: Row, p: Pred) {
    Keeps(p, [u])(Joined(u, map[])) && !Keeps(FoldPred(p), [u])(Joined(u, map[]))
  }

  lemma NullTellsApart(name: string) returns (u: Row)
    requires !OwnFold(name)
    ensures TellsApart(u, IsNull(T(name)))
  {
    u := map[Fold(name) := Int(0)];
  }

  lemma ContainsTellsApart(name: string, needle: string) returns (u: Row)
    requires !OwnFold(name) && PlainNeedle(needle)
    ensures TellsApart(u, Or(IsNull(T(name)), NotLike(T(name), LikePattern(needle).value)))
  {
    hide Fold;
    hide LikeLiteral;
    hide Contains;
    u := map[Fold(name) := Str(needle)];
    ContainsParity(needle, name, u, [u]);
    ContainsParity(needle, Fold(name), u, [u]);
    ContainsItself(needle);
    var p := Or(IsNull(T(name)), NotLike(T(name), LikePattern(needle).value));
    assert FoldPred(p) == Or(IsNull(T(Fold(name))), NotLike(T(Fold(name)), LikePattern(needle).value)) by {
      assert FoldPred(p.a) == IsNull(T(Fold(name)));
    }
  }

  lemma WindowTellsApart(n: string, s: string, e: string) returns (u: Row)
    requires !(s == n && e == n) && !(OwnFold(n) && OwnFold(s) && OwnFold(e))
    ensures TellsApart(u, And(NotNull(T(n)), Or(Less(T(n), T(s)), Greater(T(n), T(e)))))
  {
    u := WindowWitness(n, s, e);
    hide Fold;
    WindowParity(n, s, e, u, [u]);
    WindowParity(Fold(n), Fold(s), Fold(e), u, [u]);
    var p := And(NotNull(T(n)), Or(Less(T(n), T(s)), Greater(T(n), T(e))));
    assert FoldPred(p.b) == Or(FoldPred(Less(T(n), T(s))), FoldPred(Greater(T(n), T(e))));
    assert FoldPred(p) == And(FoldPred(NotNull(T(n))), FoldPred(p.b));
  }

  lemma AllowedTellsApart(name: string, values: seq<string>) returns (u: Row)
    requires !OwnFold(name) && values != []
    ensures TellsApart(u, NotIn(T(name), InList(values)))
  {
    u := map[name := Int(0)];
    hide InList;
    AllowedParity(values, name, u, [u]);
    AllowedParity(values, Fold(name), u, [u]);
  }

  /** A row the target predicate keeps and the predicate its unquoted text denotes drops. */
  lemma FoldedDrops(cat: Catalogs, spec: CheckSpec) returns (u: Row)
    requires BuiltIn(cat, spec) && spec.dimension in {Completeness, Validity} && Telling(spec)
    requires FoldPred(TargetWhere(cat, spec)) != TargetWhere(cat, spec)
    ensures TellsApart(u, TargetWhere(cat, spec))
  {
    hide Fold;
    hide TellsApart;
    hide FoldPred;
    var name := spec.column.value;
    var where := TargetWhere(cat, spec);
    FoldPredSame(where);
    if spec.dimension == Completeness {
      u := NullTellsApart(name);
    } else if spec.contains.Some? {
      u := ContainsTellsApart(name, spec.contains.value);
    } else if HasWindow(spec) {
      var start, end := spec.windowStart.value, spec.windowEnd.value;
      WindowColumns(name, start, end);
      u := WindowTellsApart(name, start, end);
    } else {
      u := AllowedTellsApart(name, AllowedValues(cat, spec).value);
    }
  }

  lemma WindowColumns(n: string, s: string, e: string)
    ensures Columns(And(NotNull(T(n)), Or(Less(T(n), T(s)), Greater(T(n), T(e))))) == {n, s, e}
  {
    assert Columns(Or(Less(T(n), T(s)), Greater(T(n), T(e)))) == {n, s, e};
  }

  lemma ContainsItself(needle: string)
    ensures Contains(needle, needle)
  {
    assert OccursAt(needle, needle, 0);
  }

  // ---------- exactness ----------

  /** A database on which the sample and the target select different keys. */
  ghost predicate Differs(store: Store, q: Query) {
    SampleKeys(store, q) != SelectKeys(store, q)
  }

  /** Without a reserved word in the way, some name folds to another: the two disagree on a table of one row. */
  lemma FoldedDiffers(cat: Catalogs, spec: CheckSpec) returns (store: Store)
    requires BuiltIn(cat, spec) && spec.dimension in {Completeness, Validity} && Telling(spec)
    requires ReadUnquoted(TargetQuery(cat, spec)).Some? && !PlainNames(TargetQuery(cat, spec))
    ensures Differs(store, TargetQuery(cat, spec))
  {
    hide KeyWord;
    var q := TargetQuery(cat, spec);
    var read := FoldQuery(q);
    ReadsAsWritten(q);
    if !OwnFold(q.table) {
      store := map[q.table := []];
      assert read.table !in store;
    } else if FoldPred(q.where) != q.where {
      var u := FoldedDrops(cat, spec);
      store := map[q.table := [u]];
      SelectsOne(store, q, u);
      SelectsOne(store, read, u);
    } else {
      var kept := KeptRow(cat, spec);
      var other := Get(kept, Fold(q.pk));
      var u := kept[q.pk := if other == Int(7) then Int(8) else Int(7)];
      FoldTwice(q.pk);
      FoldPredSame(q.where);
      IgnoresColumn(q.where, kept, u, q.pk);
      store := map[q.table := [u]];
      SelectsOne(store, q, u);
      SelectsOne(store, read, u);
    }
  }

  /** A predicate reads only the columns it names. */
  lemma {:induction false} IgnoresColumn(p: Pred, a: Row, b: Row, name: string)
    requires name !in Columns(p) && forall n | n != name :: Get(a, n) == Get(b, n)
    requires Flat(p)
    ensures Eval(p, Joined(a, map[]), [a]) == Eval(p, Joined(b, map[]), [b])
  {
    match p
    case And(x, y) => IgnoresColumn(x, a, b, name); IgnoresColumn(y, a, b, name);
    case Or(x, y) => IgnoresColumn(x, a, b, name); IgnoresColumn(y, a, b, name);
    case _ =>
  }

  predicate Flat(p: Pred) {
    match p
    case And(x, y) => Flat(x) && Flat(y)
    case Or(x, y) => Flat(x) && Flat(y)
    case NotGroupMinimum(_, _) => false
    case _ => true
  }

  /** The same for an orphans query, over the two tables it joins or the one it joins with itself. */
  lemma FoldedOrphansDiffer(q: Query) returns (store: Store)
    requires q.join.Some? && q.where == IsNull(R(q.join.value.column))
    requires ReadUnquoted(q).Some? && !PlainNames(q)
    ensures Differs(store, q)
  {
    ReadsAsWritten(q);
    OrphansNames(q);
    hide PlainNames;
    hide ReadUnquoted;
    hide Fold;
    var j := q.join.value;
    FoldTwice(q.table);
    FoldTwice(j.table);
    if !OwnFold(q.table) {
      store := OtherTable(q);
    } else if !OwnFold(j.table) {
      store := OtherJoinedTable(q);
    } else if !OwnFold(j.equals) || !OwnFold(j.column) {
      store := OtherJoinColumn(q);
    } else {
      store := OtherKey(q);
    }
  }

  lemma OrphansNames(q: Query)
    requires q.join.Some? && q.where == IsNull(R(q.join.value.column))
    requires ReadUnquoted(q).Some? && !PlainNames(q)
    ensures !OwnFold(q.table) || !OwnFold(q.join.value.table) || !OwnFold(q.join.value.equals)
            || !OwnFold(q.join.value.column) || !OwnFold(q.pk)
  {
    hide KeyWord;
  }

  lemma OtherTable(q: Query) returns (store: Store)
    requires q.join.Some? && q.where == IsNull(R(q.join.value.column))
    requires ReadUnquoted(q) == Some(FoldQuery(q)) && !OwnFold(q.table)
    ensures Differs(store, q)
  {
    hide ReadUnquoted;
    var t: Row := map[];
    store := map[q.join.value.table := []][q.table := [t]];
    assert Unmatched(t, store[q.join.value.table], q.join.value);
    SelectsOrphan(store, q, t);
    NothingFrom(store, FoldQuery(q));
  }

  lemma OtherJoinedTable(q: Query) returns (store: Store)
    requires q.join.Some? && q.where == IsNull(R(q.join.value.column))
    requires ReadUnquoted(q) == Some(FoldQuery(q)) && OwnFold(q.table) && !OwnFold(q.join.value.table)
    ensures Differs(store, q)
  {
    hide ReadUnquoted;
    var j, read := q.join.value, FoldQuery(q);
    var t: Row := map[Fold(j.equals) := Str("x"), Fold(j.column) := Str("x")];
    store := map[j.table := [], q.table := [t]];
    SelectsOrphan(store, q, t);
    if read.join.value.table in store {
      FoldTwice(j.table);
      assert !Unmatched(t, [t], read.join.value) by { assert t in [t]; }
      SelectsOrphan(store, read, t);
    }
  }

  lemma OtherJoinColumn(q: Query) returns (store: Store)
    requires q.join.Some? && q.where == IsNull(R(q.join.value.column))
    requires ReadUnquoted(q) == Some(FoldQuery(q)) && OwnFold(q.table) && OwnFold(q.join.value.table)
    requires !OwnFold(q.join.value.equals) || !OwnFold(q.join.value.column)
    ensures Differs(store, q)
  {
    hide ReadUnquoted;
    var j, read := q.join.value, FoldQuery(q);
    FoldTwice(j.column);
    FoldTwice(j.equals);
    var t: Row := map[Fold(j.equals) := Str("x"), Fold(j.column) := Str("x")];
    store := map[j.table := [t], q.table := [t]];
    assert Unmatched(t, [t], j);
    assert !Unmatched(t, [t], read.join.value) by { assert t in [t]; }
    SelectsOrphan(store, q, t);
    SelectsOrphan(store, read, t);
  }

  lemma OtherKey(q: Query) returns (store: Store)
    requires q.join.Some? && q.where == IsNull(R(q.join.value.column))
    requires ReadUnquoted(q) == Some(FoldQuery(q)) && OwnFold(q.table) && OwnFold(q.join.value.table)
    requires OwnFold(q.join.value.equals) && !OwnFold(q.pk)
    ensures Differs(store, q)
  {
    hide ReadUnquoted;
    var j, read := q.join.value, FoldQuery(q);
    FoldTwice(q.pk);
    var t: Row := map[q.pk := Int(7)];
    store := map[j.table := []][q.table := [t]];
    assert Get(t, j.equals) == Null;
    assert Unmatched(t, store[j.table], j);
    assert Unmatched(t, store[j.table], read.join.value);
    SelectsOrphan(store, q, t);
    SelectsOrphan(store, read, t);
  }

  /** A query over an absent or an empty table shows no key. */
  lemma NothingFrom(store: Store, q: Query)
    requires q.join.Some? && q.where == IsNull(R(q.join.value.column))
    requires q.table in store ==> store[q.table] == []
    ensures SelectKeys(store, q) == None || SelectKeys(store, q) == Some([])
  {
    if q.table in store && q.join.value.table in store {
      SelectUnmatched(store, q);
    }
  }

  /** A reserved word in the way: the target selects, the sample is no query of these tables. */
  lemma ReservedDiffers(q: Query) returns (store: Store)
    requires ReadUnquoted(q).None?
    ensures Differs(store, q)
  {
    store := if q.join.Some? then map[q.table := [], q.join.value.table := []] else map[q.table := []];
    assert Select(store, q).Some?;
  }

  /** The sample query shows on every database the keys that apply would target exactly when every name in it is
      its own lower-case fold and no bare one is reserved. */
  lemma SampleShowsTargetExactly(cat: Catalogs, spec: CheckSpec)
    requires BuiltIn(cat, spec) && QuarantineFor(spec.dimension).Some? && Telling(spec)
    ensures spec.sample.FailingRows?
    ensures (forall store: Store :: SampleKeys(store, spec.sample.query) == SelectKeys(store, TargetQuery(cat, spec)))
       <==> PlainNames(spec.sample.query)
  {
    hide Select;
    SampleNamesTarget(cat, spec);
    var q := TargetQuery(cat, spec);
    ReadsAsWritten(q);
    hide PlainNames;
    hide ReadUnquoted;
    if !PlainNames(q) {
      if ReadUnquoted(q).None? {
        var store := ReservedDiffers(q);
      } else if spec.dimension == ReferentialIntegrity {
        var store := FoldedOrphansDiffer(q);
      } else {
        var store := FoldedDiffers(cat, spec);
      }
    }
  }

  // ---------- two checks whose sample misleads ----------

  /** A table with one key and one checked column. */
  function OneColumn(schemaName: string, table: string, pk: string, column: string): TableContract {
    TableContract(table, schemaName, [ColumnContract(pk, Int64, None), ColumnContract(column, Utf8, None)], [pk], [])
  }

  function NullCheck(schemaName: string, table: string, pk: string, column: string): CheckSpec {
    CheckSpec("nulls", table, Some(column), Completeness, schemaName + "." + table, [], None, None, None, None,
              FailingRows(Query(schemaName + "." + table, None, IsNull(T(column)), pk)), Some(IsNull(T(column))))
  }

  function OneCheck(schemaName: string, table: string, pk: string, column: string): Catalogs {
    Catalogs(map[table := OneColumn(schemaName, table, pk, column)],
             map["nulls" := NullCheck(schemaName, table, pk, column)])
  }

  lemma OneCheckBuilt(schemaName: string, table: string, pk: string, column: string)
    requires Ident(schemaName) && Ident(table) && Ident(pk) && Ident(column)
    ensures BuiltIn(OneCheck(schemaName, table, pk, column), NullCheck(schemaName, table, pk, column))
    ensures TargetQuery(OneCheck(schemaName, table, pk, column), NullCheck(schemaName, table, pk, column))
         == NullCheck(schemaName, table, pk, column).sample.query
  {
    IdentSegment(table);
    hide LastSegment;
    hide Ident;
    var cat := OneCheck(schemaName, table, pk, column);
    assert GetTable(cat, table) == Some(OneColumn(schemaName, table, pk, column));
  }

  /** A reserved word for a column, such as `user`: a NULL in it is targeted, and the sample is no query of it. */
  lemma ReservedColumnMisleads(schemaName: string, table: string, pk: string, column: string)
    requires Ident(schemaName) && Ident(table) && Ident(pk) && Ident(column)
    requires Reserved(column) && pk != column
    ensures BuiltIn(OneCheck(schemaName, table, pk, column), NullCheck(schemaName, table, pk, column))
    ensures
      var store: Store := map[schemaName + "." + table := [map[pk := Int(1)]]];
      var spec := NullCheck(schemaName, table, pk, column);
      && SelectKeys(store, TargetQuery(OneCheck(schemaName, table, pk, column), spec)) == Some([Int(1)])
      && SampleKeys(store, spec.sample.query) == None
  {
    hide BuiltIn;
    hide Select;
    hide FirstSegment;
    hide KeyWord;
    OneCheckBuilt(schemaName, table, pk, column);
    var u: Row := map[pk := Int(1)];
    var q := NullCheck(schemaName, table, pk, column).sample.query;
    SelectsOne(map[q.table := [u]], q, u);
    assert column in BareNames(q);
  }

  /** A column whose name is not its own fold, beside a column that is called so: the sample shows the other
      column's gaps, here none. */
  lemma FoldedColumnMisleads(schemaName: string, table: string, pk: string, column: string)
    requires Ident(schemaName) && Ident(table) && Ident(pk) && Ident(column)
    requires OwnFold(schemaName) && OwnFold(table) && OwnFold(pk) && !OwnFold(column) && Fold(column) != pk
    requires !Reserved(schemaName) && !Reserved(pk) && !Reserved(column)
    ensures BuiltIn(OneCheck(schemaName, table, pk, column), NullCheck(schemaName, table, pk, column))
    ensures
      var store: Store := map[schemaName + "." + table := [map[pk := Int(1), Fold(column) := Int(5)]]];
      var spec := NullCheck(schemaName, table, pk, column);
      && SelectKeys(store, TargetQuery(OneCheck(schemaName, table, pk, column), spec)) == Some([Int(1)])
      && SampleKeys(store, spec.sample.query) == Some([])
  {
    hide BuiltIn;
    hide Select;
    hide ReadUnquoted;
    hide Ident;
    OneCheckBuilt(schemaName, table, pk, column);
    ReadsFolded(schemaName, table, pk, column);
    hide OwnFold;
    hide Fold;
    var u: Row := map[pk := Int(1), Fold(column) := Int(5)];
    var q := NullCheck(schemaName, table, pk, column).sample.query;
    SelectsOne(map[q.table := [u]], q, u);
    SelectsOne(map[q.table := [u]], Query(q.table, None, IsNull(T(Fold(column))), pk), u);
  }

  /** How the sample of that check is read: only the column's name is another. */
  lemma ReadsFolded(schemaName: string, table: string, pk: string, column: string)
    requires Ident(schemaName) && OwnFold(schemaName) && OwnFold(table) && OwnFold(pk)
    requires !Reserved(schemaName) && !Reserved(pk) && !Reserved(column)
    ensures ReadUnquoted(NullCheck(schemaName, table, pk, column).sample.query)
         == Some(Query(schemaName + "." + table, None, IsNull(T(Fold(column))), pk))
  {
    QualifiedPlain(schemaName, table);
    assert Fold(pk) == pk;
    hide Fold;
    hide FirstSegment;
    hide Ident;
    hide Reserved;
    assert BareNames(NullCheck(schemaName, table, pk, column).sample.query) == {schemaName, column, pk};
  }

  lemma QualifiedPlain(schemaName: string, table: string)
    requires Ident(schemaName) && OwnFold(schemaName) && OwnFold(table)
    ensures Fold(schemaName + "." + table) == schemaName + "." + table
    ensures FirstSegment(schemaName + "." + table) == schemaName
  {
    IdentSegment(schemaName);
    SchemaOf(schemaName, table);
    FoldAppend(schemaName, ".");
    FoldAppend(schemaName + ".", table);
    assert Fold(".") == ".";
    hide Fold;
  }

  /** Inputs by name: a column `user`, and a column `Amount` beside one called `amount`. */
  lemma UserIsReserved()
    ensures Ident("user") && Reserved("user")
  {
    assert Fold("user") == "user";
  }

  lemma AmountIsNotItsFold()
    ensures Ident("Amount") && !OwnFold("Amount") && !Reserved("Amount") && Fold("Amount") == "amount"
  {
    assert Fold("Amount") == "amount";
    assert "amount"[0] != "Amount"[0] && "amount"[1] == 'm';
  }

  lemma WarehouseIsPlain()
    ensures Ident("warehouse") && OwnFold("warehouse") && !Reserved("warehouse")
  {
    assert Fold("warehouse") == "warehouse";
    assert "warehouse"[0] == 'w';
  }

  lemma {:induction false} SchemaOf(a: string, b: string)
    requires '.' !in a
    ensures FirstSegment(a + "." + b) == a
  {
    if a != [] {
      assert (a + "." + b)[1..] == a[1..] + "." + b;
      SchemaOf(a[1..], b);
      assert a == [a[0]] + a[1..];
    } else {
      assert (a + "." + b)[0] == '.';
    }
  }
}

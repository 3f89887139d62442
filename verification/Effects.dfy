/** What one mutation loop does to the data. The loop runs each rendered statement in the view the earlier
    ones left; the reference below evaluates every statement on the untouched snapshot. They agree whenever
    no fill reaches a column another statement reads, so the order of the items is immaterial. */
module Effects {
  import opened Prelude
  import opened Sql
  import opened Contracts
  import opened Actions
  import opened Planning
  import opened Transactions

  // ---------- running statements ----------

  /** The statements in order, with the row count of each. */
  function RunAll(w: Work, s: seq<Statement>): Option<(Work, seq<nat>)> {
    if s == [] then Some((w, []))
    else
      var n := |s| - 1;
      match RunAll(w, s[..n])
      case None => None
      case Some((before, counts)) =>
        match Execute(before, s[n])
        case None => None
        case Some((after, count)) => Some((after, counts + [count]))
  }

  /** An orphans query joins on the column its predicate tests, as the renderer builds it. */
  predicate QueryShape(q: Query) {
    q.join.Some? ==> q.where == IsNull(R(q.join.value.column))
  }

  predicate Shape(st: Statement) {
    st.CopyRows? ==> QueryShape(st.query)
  }

  /** Filling this column of this table may change what the statement sees. */
  predicate Disturbs(fill: Statement, st: Statement)
    requires fill.FillNulls?
  {
    match st
    case Comment => false
    case FillNulls(table, _, _) => table == fill.table
    case CopyRows(q, _, _, _, _) =>
      q.table == fill.table || (q.join.Some? && q.join.value.table == fill.table && q.join.value.column == fill.column)
  }

  /** No fill disturbs another statement, and no fill occurs twice. */
  ghost predicate NoClash(m: multiset<Statement>) {
    && (forall x, y | x in m && y in m && x.FillNulls? && x != y :: !Disturbs(x, y))
    && (forall x | x in m && x.FillNulls? :: m[x] == 1)
    && (forall x | x in m :: Shape(x))
  }

  // ---------- the reference: every statement on the snapshot ----------

  predicate Runs(snapshot: Store, st: Statement) {
    match st
    case Comment => true
    case CopyRows(q, _, _, _, _) => Select(snapshot, q).Some?
    case FillNulls(table, _, _) => table in snapshot
  }

  function CopiesAlone(snapshot: Store, st: Statement): seq<Copy> {
    if st.CopyRows? && Select(snapshot, st.query).Some?
    then CopiesOf(Select(snapshot, st.query).value, st.runId, st.tableName, st.pkKey, st.reason)
    else []
  }

  function CountAlone(snapshot: Store, st: Statement): nat {
    match st
    case Comment => 0
    case CopyRows(q, _, _, _, _) => if Select(snapshot, q).Some? then |Select(snapshot, q).value| else 0
    case FillNulls(table, column, _) =>
      if table in snapshot then |Filter(snapshot[table], (row: Row) => Get(row, column) == Null)| else 0
  }

  function AllCopies(snapshot: Store, s: seq<Statement>): seq<Copy> {
    if s == [] then [] else AllCopies(snapshot, s[..|s| - 1]) + CopiesAlone(snapshot, s[|s| - 1])
  }

  function AllCounts(snapshot: Store, s: seq<Statement>): seq<nat> {
    Map(s, (st: Statement) => CountAlone(snapshot, st))
  }

  /** The sources after all fills, each applied to the snapshot. */
  ghost predicate FilledStore(snapshot: Store, m: multiset<Statement>, after: Store) {
    && after.Keys == snapshot.Keys
    && (forall x | x in m && x.FillNulls? && x.table in snapshot ::
          after[x.table] == FillRows(snapshot[x.table], x.column, x.value))
    && (forall t | t in snapshot && (forall x | x in m && x.FillNulls? :: x.table != t) :: after[t] == snapshot[t])
  }

  // ---------- a fill that does not disturb ----------

  lemma FillKeepsUnmatched(t: Row, right: seq<Row>, j: Join, column: string, value: Value)
    requires j.column != column
    ensures Unmatched(t, FillRows(right, column, value), j) <==> Unmatched(t, right, j)
  {
    var filled := FillRows(right, column, value);
    forall i | 0 <= i < |right| ensures Get(filled[i], j.column) == Get(right[i], j.column) {
    }
    if Unmatched(t, right, j) {
      forall r | r in filled ensures EqualT(Get(r, j.column), Get(t, j.equals)) != True {
        var i :| 0 <= i < |filled| && filled[i] == r;
        assert right[i] in right;
      }
    }
    if Unmatched(t, filled, j) {
      forall r | r in right ensures EqualT(Get(r, j.column), Get(t, j.equals)) != True {
        var i :| 0 <= i < |right| && right[i] == r;
        assert filled[i] in filled;
      }
    }
  }

  /** The rows a query selects do not change when an undisturbing fill runs before it. */
  lemma SelectAfterFill(store: Store, q: Query, table: string, column: string, value: Value)
    requires QueryShape(q) && table in store
    requires q.table != table
    requires q.join.Some? ==> !(q.join.value.table == table && q.join.value.column == column)
    ensures Select(store[table := FillRows(store[table], column, value)], q) == Select(store, q)
  {
    var after := store[table := FillRows(store[table], column, value)];
    if q.table in store && (q.join.Some? ==> q.join.value.table in store) {
      if q.join.None? {
        SelectWithoutJoin(store, q);
        SelectWithoutJoin(after, q);
      } else {
        var j := q.join.value;
        SelectUnmatched(store, q);
        SelectUnmatched(after, q);
        forall t | t in store[q.table]
          ensures Unmatched(t, after[j.table], j) == Unmatched(t, store[j.table], j)
        {
          if j.table == table {
            FillKeepsUnmatched(t, store[table], j, column, value);
          }
        }
        FilterAgrees(store[q.table], (t: Row) => Unmatched(t, after[j.table], j),
                     (t: Row) => Unmatched(t, store[j.table], j));
      }
    }
  }

  /** A statement no earlier fill disturbs sees in the filled store what it sees in the snapshot. */
  ghost predicate SeesSnapshot(snapshot: Store, now: Store, st: Statement) {
    match st
    case Comment => true
    case CopyRows(q, _, _, _, _) => Select(now, q) == Select(snapshot, q)
    case FillNulls(table, _, _) =>
      (table in now <==> table in snapshot) && (table in now ==> now[table] == snapshot[table])
  }

  lemma ExecuteKeepsSight(w: Work, done: Statement, st: Statement, snapshot: Store)
    requires Execute(w, done).Some? && Shape(st)
    requires done.FillNulls? ==> !Disturbs(done, st)
    requires SeesSnapshot(snapshot, w.sources, st)
    ensures SeesSnapshot(snapshot, Execute(w, done).value.0.sources, st)
  {
    hide Select;
    if done.FillNulls? && st.CopyRows? {
      SelectAfterFill(w.sources, st.query, done.table, done.column, done.value);
    }
  }

  /** The rest of a clash-free run keeps seeing the snapshot. */
  lemma {:induction false} PrefixKeepsSight(w: Work, s: seq<Statement>, st: Statement, snapshot: Store)
    requires RunAll(w, s).Some? && Shape(st)
    requires forall x | x in s && x.FillNulls? :: !Disturbs(x, st)
    requires SeesSnapshot(snapshot, w.sources, st)
    ensures SeesSnapshot(snapshot, RunAll(w, s).value.0.sources, st)
  {
    hide SeesSnapshot;
    hide Execute;
    hide Disturbs;
    if s != [] {
      var n := |s| - 1;
      assert s == s[..n] + [s[n]];
      PrefixKeepsSight(w, s[..n], st, snapshot);
      ExecuteKeepsSight(RunAll(w, s[..n]).value.0, s[n], st, snapshot);
    }
  }

  // ---------- refinement ----------

  /** Clash-freeness of a sequence, last statement apart. */
  lemma NoClashPrefix(s: seq<Statement>)
    requires s != [] && NoClash(multiset(s))
    ensures NoClash(multiset(s[..|s| - 1]))
    ensures Shape(s[|s| - 1])
    ensures forall x | x in s[..|s| - 1] && x.FillNulls? :: !Disturbs(x, s[|s| - 1])
    ensures s[|s| - 1].FillNulls? ==> forall x | x in s[..|s| - 1] && x.FillNulls? :: x.table != s[|s| - 1].table
  {
    var n := |s| - 1;
    var before, last := s[..n], s[n];
    assert s == before + [last];
    assert multiset(s) == multiset(before) + multiset{last};
    assert forall x | x in multiset(before) :: x in multiset(s);
    forall x | x in before && x.FillNulls? ensures !Disturbs(x, last) {
      assert multiset(before)[x] >= 1 && multiset(s)[x] == 1;
      assert x != last;
    }
    forall x | x in multiset(before) && x.FillNulls? ensures multiset(before)[x] == 1 {
      assert multiset(s)[x] == 1;
    }
  }

  /** The loop refines the reference: same copies in item order, same counts, same final sources. */
  lemma {:induction false} LoopRefinesReference(w: Work, s: seq<Statement>, snapshot: Store)
    requires w.sources == snapshot && w.copies == [] && NoClash(multiset(s))
    requires forall st | st in s :: Runs(snapshot, st)
    ensures RunAll(w, s).Some?
    ensures
      var (after, counts) := RunAll(w, s).value;
      && after.copies == AllCopies(snapshot, s)
      && counts == AllCounts(snapshot, s)
      && FilledStore(snapshot, multiset(s), after.sources)
  {
    hide NoClash;
    hide Execute;
    hide SeesSnapshot;
    hide FilledStore;
    hide Runs;
    hide CopiesAlone;
    hide CountAlone;
    if s == [] {
      NothingDone(snapshot);
    } else {
      var n := |s| - 1;
      assert s == s[..n] + [s[n]];
      assert s[n] in s;
      NoClashPrefix(s);
      LoopRefinesReference(w, s[..n], snapshot);
      var (before, counts) := RunAll(w, s[..n]).value;
      SeesItself(snapshot, s[n]);
      PrefixKeepsSight(w, s[..n], s[n], snapshot);
      assert multiset(s) == multiset(s[..n]) + multiset{s[n]};
      StoreStep(before, s[..n], s[n], snapshot);
      assert AllCounts(snapshot, s) == AllCounts(snapshot, s[..n]) + [CountAlone(snapshot, s[n])];
    }
  }

  lemma NothingDone(snapshot: Store)
    ensures FilledStore(snapshot, multiset{}, snapshot)
  {
  }

  lemma SeesItself(snapshot: Store, st: Statement)
    ensures SeesSnapshot(snapshot, snapshot, st)
  {
  }

  lemma StoreStep(before: Work, done: seq<Statement>, st: Statement, snapshot: Store)
    requires FilledStore(snapshot, multiset(done), before.sources)
    requires Runs(snapshot, st) && SeesSnapshot(snapshot, before.sources, st)
    requires st.FillNulls? ==> forall x | x in done && x.FillNulls? :: x.table != st.table
    ensures Execute(before, st).Some?
    ensures FilledStore(snapshot, multiset(done) + multiset{st}, Execute(before, st).value.0.sources)
    ensures Execute(before, st).value.0.copies == before.copies + CopiesAlone(snapshot, st)
    ensures Execute(before, st).value.1 == CountAlone(snapshot, st)
  {
    hide Select;
    var m := multiset(done) + multiset{st};
    var after := Execute(before, st).value.0.sources;
    forall x | x in m && x.FillNulls? && x.table in snapshot
      ensures after[x.table] == FillRows(snapshot[x.table], x.column, x.value)
    {
      if x != st {
        assert x in done;
      }
    }
    forall t | t in snapshot && (forall x | x in m && x.FillNulls? :: x.table != t)
      ensures after[t] == snapshot[t]
    {
      assert forall x | x in done && x.FillNulls? :: x in m;
      assert st in m;
    }
  }

  // ---------- order ----------

  lemma {:induction false} AllCopiesAppend(snapshot: Store, a: seq<Statement>, b: seq<Statement>)
    ensures AllCopies(snapshot, a + b) == AllCopies(snapshot, a) + AllCopies(snapshot, b)
  {
    hide CopiesAlone;
    if b == [] {
      assert a + b == a;
    } else {
      var n := |b| - 1;
      assert (a + b)[..|a + b| - 1] == a + b[..n];
      AllCopiesAppend(snapshot, a, b[..n]);
    }
  }

  lemma RemoveOne<A>(s: seq<A>, t: seq<A>, i: nat)
    requires s != [] && i < |t| && t[i] == s[|s| - 1] && multiset(s) == multiset(t)
    ensures multiset(s[..|s| - 1]) == multiset(t[..i] + t[i + 1..])
  {
    var n := |s| - 1;
    var rest := t[..i] + t[i + 1..];
    assert s == s[..n] + [s[n]];
    assert t == t[..i] + [t[i]] + t[i + 1..];
    assert multiset(t) == multiset(rest) + multiset{t[i]};
    assert multiset(s[..n]) + multiset{s[n]} == multiset(rest) + multiset{s[n]};
    assert multiset(s[..n]) + multiset{s[n]} - multiset{s[n]} == multiset(s[..n]);
    assert multiset(rest) + multiset{s[n]} - multiset{s[n]} == multiset(rest);
  }

  lemma OneStatement(snapshot: Store, st: Statement)
    ensures AllCopies(snapshot, [st]) == CopiesAlone(snapshot, st)
  {
    assert [st][..0] == [];
  }

  lemma Around<A>(t: seq<A>, i: nat)
    requires i < |t|
    ensures t == t[..i] + [t[i]] + t[i + 1..]
  {
  }

  lemma {:induction false} PermutedCopies(snapshot: Store, s: seq<Statement>, t: seq<Statement>)
    requires multiset(s) == multiset(t)
    ensures multiset(AllCopies(snapshot, s)) == multiset(AllCopies(snapshot, t))
    decreases |s|
  {
    hide CopiesAlone;
    if s == [] {
      assert |multiset(t)| == 0;
    } else {
      var n := |s| - 1;
      assert s == s[..n] + [s[n]];
      assert s[n] in multiset(t);
      var i: nat :| i < |t| && t[i] == s[n];
      var before, after := t[..i], t[i + 1..];
      Around(t, i);
      RemoveOne(s, t, i);
      PermutedCopies(snapshot, s[..n], before + after);
      AllCopiesAppend(snapshot, before, after);
      AllCopiesAppend(snapshot, before + [t[i]], after);
      AllCopiesAppend(snapshot, before, [t[i]]);
      OneStatement(snapshot, t[i]);
      hide AllCopies;
    }
  }

  lemma FilledStoreUnique(snapshot: Store, m: multiset<Statement>, a: Store, b: Store)
    requires FilledStore(snapshot, m, a) && FilledStore(snapshot, m, b)
    ensures a == b
  {
    forall t | t in snapshot ensures a[t] == b[t] {
      if x :| x in m && x.FillNulls? && x.table == t {
        assert a[x.table] == FillRows(snapshot[x.table], x.column, x.value);
      }
    }
  }

  /** Non-interference: run in any order, clash-free statements leave the same sources and the same
      multiset of quarantined rows. */
  lemma OrderIsImmaterial(w: Work, s: seq<Statement>, t: seq<Statement>, snapshot: Store)
    requires w.sources == snapshot && w.copies == []
    requires multiset(s) == multiset(t) && NoClash(multiset(s))
    requires forall st | st in s :: Runs(snapshot, st)
    ensures RunAll(w, s).Some? && RunAll(w, t).Some?
    ensures RunAll(w, s).value.0.sources == RunAll(w, t).value.0.sources
    ensures multiset(RunAll(w, s).value.0.copies) == multiset(RunAll(w, t).value.0.copies)
  {
    hide NoClash;
    hide FilledStore;
    forall st | st in t ensures Runs(snapshot, st) {
      assert st in multiset(t);
      assert st in s;
    }
    LoopRefinesReference(w, s, snapshot);
    LoopRefinesReference(w, t, snapshot);
    FilledStoreUnique(snapshot, multiset(s), RunAll(w, s).value.0.sources, RunAll(w, t).value.0.sources);
    PermutedCopies(snapshot, s, t);
  }

  // ---------- the condition is exact ----------

  /** One orphan whose key is the fill value, one referenced row with a NULL key: filling it adopts the orphan. */
  lemma FillWitness(q: Query, value: Value) returns (store: Store)
    requires q.join.Some? && QueryShape(q) && q.table != q.join.value.table && CellOf(value) != Null
    ensures var j := q.join.value;
      && j.table in store
      && Select(store[j.table := FillRows(store[j.table], j.column, value)], q) != Select(store, q)
  {
    hide Select;
    var j := q.join.value;
    var t: Row := map[j.equals := CellOf(value)];
    var r: Row := map[j.column := Null];
    store := map[q.table := [t], j.table := [r]];
    var after := store[j.table := FillRows([r], j.column, value)];
    SelectUnmatched(store, q);
    SelectUnmatched(after, q);
    assert r in store[j.table];
    assert Unmatched(t, [r], j);
    assert t in Filter([t], (x: Row) => Unmatched(x, store[j.table], j));
    var filled: Row := FillRow(r, j.column, value);
    assert after[j.table][0] == filled && filled in after[j.table];
    assert !Unmatched(t, after[j.table], j);
    FilterNone([t], (x: Row) => Unmatched(x, after[j.table], j));
  }

  /** A fill leaves every orphans query over it alone, on every database, exactly when it does not fill the
      very column the query joins on. */
  lemma FillDisturbsExactly(q: Query, table: string, column: string, value: Value)
    requires q.join.Some? && QueryShape(q) && q.table != table && CellOf(value) != Null
    ensures (forall store: Store | table in store ::
               Select(store[table := FillRows(store[table], column, value)], q) == Select(store, q))
       <==> !(q.join.value.table == table && q.join.value.column == column)
  {
    var j := q.join.value;
    if j.table == table && j.column == column {
      var store := FillWitness(q, value);
      assert table in store;
    } else {
      forall store: Store | table in store
        ensures Select(store[table := FillRows(store[table], column, value)], q) == Select(store, q)
      {
        SelectAfterFill(store, q, table, column, value);
      }
    }
  }
}

/** The dedupe action against the uniqueness check: what `NOT IN (SELECT MIN(pk) ... GROUP BY key)`
    selects, compared with the rows the Polars suite reports for the same business key. */
module Dedupe {
  import opened Prelude
  import opened Sql
  import opened BoundText
  import opened Contracts
  import opened Actions
  import opened Frames
  import opened Predicates

  /** A primary key column: no NULL and no value twice. */
  ghost predicate KeyedBy(rows: seq<Row>, pk: string) {
    && (forall r | r in rows :: Get(r, pk) != Null)
    && (forall i, j | 0 <= i < j < |rows| :: Get(rows[i], pk) != Get(rows[j], pk))
  }

  lemma KeyIdentifies(rows: seq<Row>, pk: string, a: Row, b: Row)
    requires KeyedBy(rows, pk) && a in rows && b in rows && Get(a, pk) == Get(b, pk)
    ensures a == b
  {
    var i :| 0 <= i < |rows| && rows[i] == a;
    var j :| 0 <= j < |rows| && rows[j] == b;
    assert i == j;
  }

  /** The row its group keeps: no row of the same business key has a smaller primary key. */
  predicate Kept(rows: seq<Row>, row: Row, pk: string, keys: seq<string>) {
    forall s | s in rows && GroupKey(s, keys) == GroupKey(row, keys) :: CellLe(Get(row, pk), Get(s, pk))
  }

  /** The dedupe WHERE clause is true of the row. */
  predicate Targeted(rows: seq<Row>, row: Row, pk: string, keys: seq<string>) {
    Keeps(NotGroupMinimum(pk, keys), rows)(Joined(row, map[]))
  }

  /** The group of a row of the table: the row itself and every row of the same business key. */
  lemma GroupOf(rows: seq<Row>, row: Row, keys: seq<string>)
    requires row in rows
    ensures row in SameGroup(rows, row, keys)
    ensures forall s :: s in SameGroup(rows, row, keys) <==> s in rows && GroupKey(s, keys) == GroupKey(row, keys)
  {
  }

  lemma InColumn(rows: seq<Row>, pk: string, c: Cell) returns (row: Row)
    requires c in ColumnOf(rows, pk)
    ensures row in rows && Get(row, pk) == c
  {
    var i :| 0 <= i < |rows| && ColumnOf(rows, pk)[i] == c;
    row := rows[i];
  }

  /** The minimum of a row's group is the key of the row that group keeps. */
  lemma GroupMinimum(rows: seq<Row>, row: Row, pk: string, keys: seq<string>) returns (kept: Row)
    requires row in rows && KeyedBy(rows, pk)
    ensures kept in rows && GroupKey(kept, keys) == GroupKey(row, keys) && Kept(rows, kept, pk, keys)
    ensures GroupMin(rows, row, pk, keys) == Get(kept, pk)
  {
    GroupOf(rows, row, keys);
    var group := SameGroup(rows, row, keys);
    var cells := ColumnOf(group, pk);
    assert |cells| > 0;
    kept := InColumn(group, pk, MinCell(cells));
    forall s | s in rows && GroupKey(s, keys) == GroupKey(kept, keys)
      ensures CellLe(Get(kept, pk), Get(s, pk))
    {
      assert s in group;
      var i :| 0 <= i < |group| && group[i] == s;
      assert cells[i] == Get(s, pk);
    }
  }

  lemma KeptIsUnique(rows: seq<Row>, a: Row, b: Row, pk: string, keys: seq<string>)
    requires KeyedBy(rows, pk) && a in rows && b in rows
    requires Kept(rows, a, pk, keys) && Kept(rows, b, pk, keys) && GroupKey(a, keys) == GroupKey(b, keys)
    ensures a == b
  {
    CellOrder(Get(a, pk), Get(b, pk), Null);
    KeyIdentifies(rows, pk, a, b);
  }

  lemma MinimaNotNull(rows: seq<Row>, pk: string, keys: seq<string>)
    requires KeyedBy(rows, pk)
    ensures Null !in GroupMinima(rows, pk, keys)
  {
    var minima := GroupMinima(rows, pk, keys);
    forall i | 0 <= i < |minima| ensures minima[i] != Null {
      var kept := GroupMinimum(rows, rows[i], pk, keys);
    }
  }

  lemma KeptIsMinimum(rows: seq<Row>, row: Row, pk: string, keys: seq<string>)
    requires row in rows && KeyedBy(rows, pk) && Kept(rows, row, pk, keys)
    ensures Get(row, pk) in GroupMinima(rows, pk, keys)
  {
    var kept := GroupMinimum(rows, row, pk, keys);
    KeptIsUnique(rows, row, kept, pk, keys);
    var i :| 0 <= i < |rows| && rows[i] == row;
    assert GroupMinima(rows, pk, keys)[i] == Get(row, pk);
  }

  lemma MinimumIsKept(rows: seq<Row>, row: Row, pk: string, keys: seq<string>)
    requires row in rows && KeyedBy(rows, pk) && Get(row, pk) in GroupMinima(rows, pk, keys)
    ensures Kept(rows, row, pk, keys)
  {
    var i :| 0 <= i < |rows| && GroupMinima(rows, pk, keys)[i] == Get(row, pk);
    var kept := GroupMinimum(rows, rows[i], pk, keys);
    KeyIdentifies(rows, pk, row, kept);
  }

  /** The rendered WHERE clause selects every row its group does not keep. */
  lemma TargetedMeaning(rows: seq<Row>, row: Row, pk: string, keys: seq<string>)
    requires row in rows && KeyedBy(rows, pk)
    ensures Targeted(rows, row, pk, keys) <==> !Kept(rows, row, pk, keys)
  {
    MinimaNotNull(rows, pk, keys);
    var minima := GroupMinima(rows, pk, keys);
    assert Targeted(rows, row, pk, keys) <==> NotInT(Get(row, pk), minima) == True;
    assert |minima| > 0;
    if Kept(rows, row, pk, keys) {
      KeptIsMinimum(rows, row, pk, keys);
    } else if Get(row, pk) in minima {
      MinimumIsKept(rows, row, pk, keys);
    }
  }

  /** Of every group, apply targets the rows before whose primary key another of the group stands: the smallest
      key is kept. */
  lemma SmallestIsKept(rows: seq<Row>, row: Row, pk: string, keys: seq<string>)
    requires row in rows && KeyedBy(rows, pk)
    ensures Targeted(rows, row, pk, keys) <==>
      exists s | s in rows :: GroupKey(s, keys) == GroupKey(row, keys) && Before(Get(s, pk), Get(row, pk))
  {
    hide GroupKey;
    hide Before;
    hide CellLe;
    TargetedMeaning(rows, row, pk, keys);
    forall s | s in rows
      ensures CellLe(Get(row, pk), Get(s, pk)) <==> !Before(Get(s, pk), Get(row, pk))
    {
      LessMeansBefore(Get(row, pk), Get(s, pk));
      LessMeansBefore(Get(s, pk), Get(row, pk));
      CellOrder(Get(row, pk), Get(s, pk), Null);
    }
    hide Targeted;
  }

  lemma TwoInGroup(rows: seq<Row>, a: Row, b: Row, keys: seq<string>)
    requires a in rows && b in rows && a != b && GroupKey(a, keys) == GroupKey(b, keys)
    ensures |SameGroup(rows, a, keys)| > 1
  {
    GroupOf(rows, a, keys);
    var group := SameGroup(rows, a, keys);
    var i :| 0 <= i < |group| && group[i] == a;
    var j :| 0 <= j < |group| && group[j] == b;
  }

  lemma OtherInGroup(rows: seq<Row>, row: Row, pk: string, keys: seq<string>) returns (other: Row)
    requires KeyedBy(rows, pk) && row in rows && |SameGroup(rows, row, keys)| > 1
    ensures other in rows && other != row && GroupKey(other, keys) == GroupKey(row, keys)
  {
    GroupDistinct(rows, pk, (s: Row) => GroupKey(s, keys) == GroupKey(row, keys));
    var group := SameGroup(rows, row, keys);
    assert Get(group[0], pk) != Get(group[1], pk);
    other := if group[0] == row then group[1] else group[0];
    assert other in group;
  }

  lemma {:induction false} GroupDistinct(rows: seq<Row>, pk: string, keep: Row -> bool)
    requires KeyedBy(rows, pk)
    ensures KeyedBy(Filter(rows, keep), pk)
  {
    if rows != [] {
      assert KeyedBy(rows[1..], pk) by {
        forall i, j | 0 <= i < j < |rows[1..]| ensures Get(rows[1..][i], pk) != Get(rows[1..][j], pk) {
          assert Get(rows[i + 1], pk) != Get(rows[j + 1], pk);
        }
      }
      GroupDistinct(rows[1..], pk, keep);
      var tail := Filter(rows[1..], keep);
      forall k | 0 <= k < |tail| ensures Get(rows[0], pk) != Get(tail[k], pk) {
        assert tail[k] in rows[1..];
        var m :| 0 <= m < |rows[1..]| && rows[1..][m] == tail[k];
        assert Get(rows[0], pk) != Get(rows[m + 1], pk);
      }
      assert rows == [rows[0]] + rows[1..];
    }
  }

  /** A NULL in the business key never meets a duplicate. */
  ghost predicate NullKeysAlone(rows: seq<Row>, keys: seq<string>) {
    forall r | r in rows && Null in GroupKey(r, keys) :: |SameGroup(rows, r, keys)| <= 1
  }

  /** The dedupe targets are the suite's failing rows minus the one kept row of each group. */
  ghost predicate TargetsAreExtraFailures(rows: seq<Row>, pk: string, keys: seq<string>) {
    forall r | r in rows ::
      Targeted(rows, r, pk, keys) <==> SharesKey(r, rows, keys) && !Kept(rows, r, pk, keys)
  }

  /** The two disagree exactly when two rows share a business key that holds a NULL: GROUP BY puts them
      together, the Polars join does not, so the apply path would quarantine a row nobody reported. */
  lemma DedupeAgreesExactly(rows: seq<Row>, pk: string, keys: seq<string>)
    requires KeyedBy(rows, pk)
    ensures TargetsAreExtraFailures(rows, pk, keys) <==> NullKeysAlone(rows, keys)
  {
    if NullKeysAlone(rows, keys) {
      forall r | r in rows
        ensures Targeted(rows, r, pk, keys) <==> SharesKey(r, rows, keys) && !Kept(rows, r, pk, keys)
      {
        TargetedMeaning(rows, r, pk, keys);
        if !Kept(rows, r, pk, keys) {
          var s :| s in rows && GroupKey(s, keys) == GroupKey(r, keys) && !CellLe(Get(r, pk), Get(s, pk));
          CellOrder(Get(r, pk), Get(r, pk), Null);
          TwoInGroup(rows, r, s, keys);
        }
      }
    }
    if !NullKeysAlone(rows, keys) {
      var r :| r in rows && Null in GroupKey(r, keys) && |SameGroup(rows, r, keys)| > 1;
      var other := OtherInGroup(rows, r, pk, keys);
      var extra := if Kept(rows, r, pk, keys) then other else r;
      if Kept(rows, r, pk, keys) && Kept(rows, other, pk, keys) {
        KeptIsUnique(rows, r, other, pk, keys);
      }
      TargetedMeaning(rows, extra, pk, keys);
      assert Targeted(rows, extra, pk, keys) && !SharesKey(extra, rows, keys);
    }
  }

  /** Two rows without a business key: the second is quarantined although the suite reports neither. */
  lemma NullKeyExample()
    ensures
      var first: Row := map["id" := Int(1), "key" := Null];
      var second: Row := map["id" := Int(2), "key" := Null];
      var rows := [first, second];
      && KeyedBy(rows, "id")
      && Targeted(rows, second, "id", ["key"])
      && !SharesKey(first, rows, ["key"]) && !SharesKey(second, rows, ["key"])
  {
    var first: Row := map["id" := Int(1), "key" := Null];
    var second: Row := map["id" := Int(2), "key" := Null];
    var rows := [first, second];
    assert rows[0] == first && rows[1] == second;
    assert GroupKey(first, ["key"])[0] == Null && GroupKey(second, ["key"])[0] == Null;
    assert GroupKey(first, ["key"]) == GroupKey(second, ["key"]);
    assert !Kept(rows, second, "id", ["key"]) by {
      assert first in rows && !CellLe(Get(second, "id"), Get(first, "id"));
    }
    TargetedMeaning(rows, second, "id", ["key"]);
  }

  function TargetsOf(rows: seq<Row>, pk: string, keys: seq<string>): seq<Row> {
    Filter(rows, (r: Row) => Targeted(rows, r, pk, keys))
  }

  function Survivors(rows: seq<Row>, pk: string, keys: seq<string>): seq<Row> {
    Filter(rows, (r: Row) => !Targeted(rows, r, pk, keys))
  }

  /** What stays after the targets are taken out has each business key once, and no key is lost. */
  lemma SurvivorsAreUnique(rows: seq<Row>, pk: string, keys: seq<string>)
    requires KeyedBy(rows, pk)
    ensures forall a, b | a in Survivors(rows, pk, keys) && b in Survivors(rows, pk, keys) ::
              GroupKey(a, keys) == GroupKey(b, keys) ==> a == b
    ensures forall r | r in rows ::
              exists s :: s in Survivors(rows, pk, keys) && GroupKey(s, keys) == GroupKey(r, keys)
  {
    forall a, b | a in Survivors(rows, pk, keys) && b in Survivors(rows, pk, keys)
                  && GroupKey(a, keys) == GroupKey(b, keys)
      ensures a == b
    {
      TargetedMeaning(rows, a, pk, keys);
      TargetedMeaning(rows, b, pk, keys);
      KeptIsUnique(rows, a, b, pk, keys);
    }
    forall r | r in rows
      ensures exists s :: s in Survivors(rows, pk, keys) && GroupKey(s, keys) == GroupKey(r, keys)
    {
      var kept := GroupMinimum(rows, r, pk, keys);
      TargetedMeaning(rows, kept, pk, keys);
      assert kept in Survivors(rows, pk, keys);
    }
  }

  // ---------- counting ----------

  lemma {:induction false} FilterCounts(rows: seq<Row>, p: Row -> bool, q: Row -> bool)
    ensures |Filter(rows, p)| == |Filter(rows, (r: Row) => p(r) && q(r))| + |Filter(rows, (r: Row) => p(r) && !q(r))|
  {
    if rows != [] {
      FilterCounts(rows[1..], p, q);
    }
  }

  /** The business keys that more than one row carries. */
  function DuplicatedKeys(rows: seq<Row>, keys: seq<string>): set<seq<Cell>> {
    set r | r in rows && SharesKey(r, rows, keys) :: GroupKey(r, keys)
  }

  lemma {:induction false} DistinctImage(rows: seq<Row>, keys: seq<string>)
    requires forall i, j | 0 <= i < j < |rows| :: GroupKey(rows[i], keys) != GroupKey(rows[j], keys)
    ensures |set r | r in rows :: GroupKey(r, keys)| == |rows|
  {
    hide GroupKey;
    var image := set r | r in rows :: GroupKey(r, keys);
    if rows == [] {
      assert image == {};
    } else {
      var tail := rows[1..];
      DistinctImage(tail, keys);
      var rest := set r | r in tail :: GroupKey(r, keys);
      assert rows == [rows[0]] + tail;
      assert image == rest + {GroupKey(rows[0], keys)};
      assert GroupKey(rows[0], keys) !in rest;
    }
  }

  /** One reported row of each duplicated key is kept, and no two. */
  lemma KeepersAreKeys(rows: seq<Row>, keepers: seq<Row>, pk: string, keys: seq<string>)
    requires KeyedBy(rows, pk) && KeyedBy(keepers, pk)
    requires forall r :: r in keepers <==> r in rows && SharesKey(r, rows, keys) && Kept(rows, r, pk, keys)
    ensures |keepers| == |DuplicatedKeys(rows, keys)|
  {
    forall i, j | 0 <= i < j < |keepers| ensures GroupKey(keepers[i], keys) != GroupKey(keepers[j], keys) {
      assert keepers[i] in keepers && keepers[j] in keepers;
      if GroupKey(keepers[i], keys) == GroupKey(keepers[j], keys) {
        KeptIsUnique(rows, keepers[i], keepers[j], pk, keys);
      }
    }
    DistinctImage(keepers, keys);
    var image := set r | r in keepers :: GroupKey(r, keys);
    forall k | k in DuplicatedKeys(rows, keys) ensures k in image {
      var r :| r in rows && SharesKey(r, rows, keys) && GroupKey(r, keys) == k;
      var m := GroupMinimum(rows, r, pk, keys);
      SameGroupSame(rows, r, m, keys);
      assert m in keepers;
    }
    assert image == DuplicatedKeys(rows, keys);
  }

  /** Target count and reported count differ by exactly the number of duplicated keys. */
  lemma DedupeCounts(rows: seq<Row>, pk: string, keys: seq<string>)
    requires KeyedBy(rows, pk) && NullKeysAlone(rows, keys)
    ensures |Filter(rows, (r: Row) => SharesKey(r, rows, keys))|
         == |TargetsOf(rows, pk, keys)| + |DuplicatedKeys(rows, keys)|
  {
    var fails := (r: Row) => SharesKey(r, rows, keys);
    var kept := (r: Row) => Kept(rows, r, pk, keys);
    FilterCounts(rows, fails, kept);
    DedupeAgreesExactly(rows, pk, keys);
    FilterAgrees(rows, (r: Row) => fails(r) && !kept(r), (r: Row) => Targeted(rows, r, pk, keys));
    var both := (r: Row) => fails(r) && kept(r);
    GroupDistinct(rows, pk, both);
    KeepersAreKeys(rows, Filter(rows, both), pk, keys);
  }

  lemma SameGroupSame(rows: seq<Row>, a: Row, b: Row, keys: seq<string>)
    requires GroupKey(a, keys) == GroupKey(b, keys)
    ensures SameGroup(rows, a, keys) == SameGroup(rows, b, keys)
    ensures SharesKey(a, rows, keys) <==> SharesKey(b, rows, keys)
  {
    FilterAgrees(rows, (s: Row) => GroupKey(s, keys) == GroupKey(a, keys),
                 (s: Row) => GroupKey(s, keys) == GroupKey(b, keys));
  }

  // ---------- the rendered step and the uniqueness check ----------

  /** The key columns a dedupe policy groups by; the program never compares them with the check's own. */
  function PolicyKeys(params: Params): seq<string> {
    if BusinessKey in params then KeyNames(params[BusinessKey]) else []
  }

  /** Both group the same rows together: the same columns, or each contains the primary key, where every group is
      one row. */
  predicate GroupAlike(pk: string, policy: seq<string>, keys: seq<string>) {
    Elements(policy) == Elements(keys) || (pk in policy && pk in keys)
  }

  /** The reported rows less the one kept row of each group. */
  function ExtraRows(rows: seq<Row>, pk: string, keys: seq<string>): seq<Row> {
    Filter(rows, (r: Row) => SharesKey(r, rows, keys) && !Kept(rows, r, pk, keys))
  }

  /** What a dedupe action renders to under the check's spelling of its table. */
  lemma DedupeRenders(cat: Catalogs, spec: CheckSpec, runId: string)
    requires BuiltIn(cat, spec) && DeriveParams(cat, DedupeKeepMinPk, spec).Some?
    ensures
      var params := DeriveParams(cat, DedupeKeepMinPk, spec).value;
      var contract := GetTable(cat, spec.table).value;
      var step := Render(cat, DedupeKeepMinPk, spec.table, params, runId);
      && SinglePk(contract).Some? && step.Some?
      && var pk := SinglePk(contract).value;
         var query := Query(contract.Qualified(), None, NotGroupMinimum(pk, PolicyKeys(params)), pk);
         step.value.target == Some(query) && !HoldsParameter(QueryText(query))
  {
    DerivedValid(cat, spec, DedupeKeepMinPk);
    KeysAreNames(cat, spec);
    hide ParamsOk;
    var params, contract := DeriveParams(cat, DedupeKeepMinPk, spec).value, GetTable(cat, spec.table).value;
    NamesHoldNoColon(contract);
    assert SinglePk(contract).value in contract.primaryKey;
    IdentHoldsNoColon(SinglePk(contract).value);
    hide Ident;
    hide HoldsParameter;
    hide QueryText;
    var pk := SinglePk(contract).value;
    QueryParameters(Query(contract.Qualified(), None, NotGroupMinimum(pk, PolicyKeys(params)), pk));
  }

  /** The key columns of a policy are contracted columns. */
  lemma KeysAreNames(cat: Catalogs, spec: CheckSpec)
    requires BuiltIn(cat, spec) && DeriveParams(cat, DedupeKeepMinPk, spec).Some?
    ensures forall k | k in PolicyKeys(DeriveParams(cat, DedupeKeepMinPk, spec).value) :: ':' !in k
  {
    DerivedValid(cat, spec, DedupeKeepMinPk);
    var params, contract := DeriveParams(cat, DedupeKeepMinPk, spec).value, GetTable(cat, spec.table).value;
    hide DeriveParams;
    hide DeriveRaw;
    assert BusinessKey in params && IdentifierOk(cat, contract, params, BusinessKey);
    forall k | k in PolicyKeys(params) ensures ':' !in k {
      assert contract.HasColumn(k);
      IdentHoldsNoColon(k);
    }
  }

  lemma {:induction false} KeyPart(row: Row, keys: seq<string>, other: Row, k: string)
    requires k in keys && GroupKey(row, keys) == GroupKey(other, keys)
    ensures Get(row, k) == Get(other, k)
  {
    var i: nat :| i < |keys| && keys[i] == k;
    assert GroupKey(row, keys)[i] == GroupKey(other, keys)[i];
  }

  lemma SameColumnsSameGroup(a: Row, b: Row, policy: seq<string>, keys: seq<string>)
    requires Elements(policy) == Elements(keys) && GroupKey(a, policy) == GroupKey(b, policy)
    ensures GroupKey(a, keys) == GroupKey(b, keys)
  {
    forall i | 0 <= i < |keys| ensures GroupKey(a, keys)[i] == GroupKey(b, keys)[i] {
      assert keys[i] in Elements(keys);
      KeyPart(a, policy, b, keys[i]);
    }
  }

  lemma KeptAlike(rows: seq<Row>, row: Row, pk: string, policy: seq<string>, keys: seq<string>)
    requires KeyedBy(rows, pk) && row in rows && GroupAlike(pk, policy, keys)
    ensures Kept(rows, row, pk, policy) <==> Kept(rows, row, pk, keys)
  {
    forall s | s in rows
      ensures GroupKey(s, policy) == GroupKey(row, policy) <==> GroupKey(s, keys) == GroupKey(row, keys)
    {
      if Elements(policy) == Elements(keys) {
        if GroupKey(s, policy) == GroupKey(row, policy) { SameColumnsSameGroup(s, row, policy, keys); }
        if GroupKey(s, keys) == GroupKey(row, keys) { SameColumnsSameGroup(s, row, keys, policy); }
      } else {
        if GroupKey(s, policy) == GroupKey(row, policy) {
          KeyPart(s, policy, row, pk);
          KeyIdentifies(rows, pk, s, row);
        }
        if GroupKey(s, keys) == GroupKey(row, keys) {
          KeyPart(s, keys, row, pk);
          KeyIdentifies(rows, pk, s, row);
        }
      }
    }
  }

  /** Keys that group alike select the same targets. */
  lemma TargetsAlike(rows: seq<Row>, pk: string, policy: seq<string>, keys: seq<string>)
    requires KeyedBy(rows, pk) && GroupAlike(pk, policy, keys)
    ensures TargetsOf(rows, pk, policy) == TargetsOf(rows, pk, keys)
    ensures Survivors(rows, pk, policy) == Survivors(rows, pk, keys)
  {
    forall r | r in rows ensures Targeted(rows, r, pk, policy) == Targeted(rows, r, pk, keys) {
      TargetedMeaning(rows, r, pk, policy);
      TargetedMeaning(rows, r, pk, keys);
      KeptAlike(rows, r, pk, policy, keys);
    }
    FilterAgrees(rows, (r: Row) => Targeted(rows, r, pk, policy), (r: Row) => Targeted(rows, r, pk, keys));
    FilterAgrees(rows, (r: Row) => !Targeted(rows, r, pk, policy), (r: Row) => !Targeted(rows, r, pk, keys));
  }

  /** The targets as a selection: the extra reported rows exactly when no shared key holds a NULL. */
  lemma TargetsAreExtraRows(rows: seq<Row>, pk: string, keys: seq<string>)
    requires KeyedBy(rows, pk)
    ensures TargetsOf(rows, pk, keys) == ExtraRows(rows, pk, keys) <==> NullKeysAlone(rows, keys)
  {
    DedupeAgreesExactly(rows, pk, keys);
    var targeted := (r: Row) => Targeted(rows, r, pk, keys);
    var extra := (r: Row) => SharesKey(r, rows, keys) && !Kept(rows, r, pk, keys);
    if NullKeysAlone(rows, keys) {
      FilterAgrees(rows, targeted, extra);
    } else {
      var r :| r in rows && targeted(r) != extra(r);
      assert r in Filter(rows, targeted) <==> targeted(r);
      assert r in Filter(rows, extra) <==> extra(r);
    }
  }

  /** Dedupe parity: the step that a uniqueness check's own policy renders to, on the rows the suite read. When
      the policy groups like the check, it targets the reported rows less one survivor of each group exactly
      when no two rows share a key that holds a NULL; the counts then differ by the number of duplicated keys. */
  lemma DedupeParity(cat: Catalogs, spec: CheckSpec, frames: Loaded, store: Store, runId: string)
    requires BuiltIn(cat, spec) && spec.dimension == Uniqueness && DeriveParams(cat, DedupeKeepMinPk, spec).Some?
    requires SameContents(cat, TablesRead(cat, spec), frames, store) && FailedRows(cat, spec, frames).Found?
    requires
      var pk := GetTable(cat, spec.table).value.primaryKey[0];
      && KeyedBy(frames[spec.table].rows, pk)
      && GroupAlike(pk, PolicyKeys(DeriveParams(cat, DedupeKeepMinPk, spec).value), spec.businessKey.value)
    ensures
      var rows, reported := frames[spec.table].rows, FailedRows(cat, spec, frames).rows;
      var pk, keys := GetTable(cat, spec.table).value.primaryKey[0], spec.businessKey.value;
      var step := Render(cat, DedupeKeepMinPk, spec.table, DeriveParams(cat, DedupeKeepMinPk, spec).value, runId);
      && step.Some?
      && TargetRows(store, step.value) == Some(TargetsOf(rows, pk, keys))
      && (TargetsOf(rows, pk, keys) == Filter(reported, (r: Row) => !Kept(rows, r, pk, keys))
          <==> NullKeysAlone(rows, keys))
      && (NullKeysAlone(rows, keys) ==>
            |reported| == |TargetsOf(rows, pk, keys)| + |DuplicatedKeys(rows, keys)|)
  {
    hide DeriveParams;
    hide Render;
    hide GroupAlike;
    hide BuiltIn;
    hide TargetsOf;
    hide ExtraRows;
    hide DuplicatedKeys;
    hide Select;
    hide HoldsParameter;
    hide QueryText;
    var rows, keys := frames[spec.table].rows, spec.businessKey.value;
    var policy := PolicyKeys(DeriveParams(cat, DedupeKeepMinPk, spec).value);
    DedupeRenders(cat, spec, runId);
    var contract := GetTable(cat, spec.table).value;
    var pk := contract.primaryKey[0];
    DedupeSelects(store, Query(contract.Qualified(), None, NotGroupMinimum(pk, policy), pk), policy);
    TargetsAlike(rows, pk, policy, keys);
    TargetsAreExtraRows(rows, pk, keys);
    ExtraOfReported(rows, pk, keys);
    if NullKeysAlone(rows, keys) {
      DedupeCounts(rows, pk, keys);
    }
  }

  /** Set the rows aside that the rendered step quarantines: the rest of the table carries each of the check's
      business keys exactly once. */
  lemma DedupeLeavesEachKeyOnce(cat: Catalogs, spec: CheckSpec, frames: Loaded, store: Store, runId: string)
    requires BuiltIn(cat, spec) && spec.dimension == Uniqueness && DeriveParams(cat, DedupeKeepMinPk, spec).Some?
    requires SameContents(cat, TablesRead(cat, spec), frames, store) && FailedRows(cat, spec, frames).Found?
    requires
      var pk := GetTable(cat, spec.table).value.primaryKey[0];
      && KeyedBy(frames[spec.table].rows, pk)
      && GroupAlike(pk, PolicyKeys(DeriveParams(cat, DedupeKeepMinPk, spec).value), spec.businessKey.value)
    ensures
      var rows, keys := frames[spec.table].rows, spec.businessKey.value;
      var step := Render(cat, DedupeKeepMinPk, spec.table, DeriveParams(cat, DedupeKeepMinPk, spec).value, runId);
      && step.Some? && TargetRows(store, step.value).Some?
      && EachKeyOnce(rows, TargetRows(store, step.value).value, keys)
  {
    hide DeriveParams;
    hide Render;
    hide GroupAlike;
    hide BuiltIn;
    hide EachKeyOnce;
    hide TargetsOf;
    hide NullKeysAlone;
    hide KeyedBy;
    DedupeParity(cat, spec, frames, store, runId);
    var pk := GetTable(cat, spec.table).value.primaryKey[0];
    LeavesEachKeyOnce(frames[spec.table].rows, pk, spec.businessKey.value);
  }

  /** Every key of the table is carried by exactly one row outside the given ones. */
  ghost predicate EachKeyOnce(rows: seq<Row>, targets: seq<Row>, keys: seq<string>) {
    && (forall a, b | a in rows && b in rows && a !in targets && b !in targets ::
          GroupKey(a, keys) == GroupKey(b, keys) ==> a == b)
    && (forall r | r in rows ::
          exists s :: s in rows && s !in targets && GroupKey(s, keys) == GroupKey(r, keys))
  }

  lemma LeavesEachKeyOnce(rows: seq<Row>, pk: string, keys: seq<string>)
    requires KeyedBy(rows, pk)
    ensures EachKeyOnce(rows, TargetsOf(rows, pk, keys), keys)
  {
    hide GroupKey;
    hide Targeted;
    SurvivorsAreUnique(rows, pk, keys);
    var targets := TargetsOf(rows, pk, keys);
    forall r | r in rows ensures r in Survivors(rows, pk, keys) <==> r !in targets {
    }
    forall r | r in rows
      ensures exists s :: s in rows && s !in targets && GroupKey(s, keys) == GroupKey(r, keys)
    {
      var s :| s in Survivors(rows, pk, keys) && GroupKey(s, keys) == GroupKey(r, keys);
    }
  }

  lemma DedupeSelects(store: Store, q: Query, policy: seq<string>)
    requires q.table in store && q.join.None? && q.where == NotGroupMinimum(q.pk, policy)
    ensures Select(store, q) == Some(TargetsOf(store[q.table], q.pk, policy))
  {
    var rows := store[q.table];
    SelectWithoutJoin(store, q);
    FilterAgrees(rows, (r: Row) => Targeted(rows, r, q.pk, policy), (t: Row) => Keeps(q.where, rows)(Joined(t, map[])));
  }

  lemma ExtraOfReported(rows: seq<Row>, pk: string, keys: seq<string>)
    ensures ExtraRows(rows, pk, keys)
         == Filter(Filter(rows, (r: Row) => SharesKey(r, rows, keys)), (r: Row) => !Kept(rows, r, pk, keys))
  {
    var p, q := (r: Row) => SharesKey(r, rows, keys), (r: Row) => !Kept(rows, r, pk, keys);
    FilterTwice(rows, p, q);
    FilterAgrees(rows, (r: Row) => SharesKey(r, rows, keys) && !Kept(rows, r, pk, keys), (r: Row) => p(r) && q(r));
  }

  lemma {:induction false} FilterTwice(rows: seq<Row>, p: Row -> bool, q: Row -> bool)
    ensures Filter(Filter(rows, p), q) == Filter(rows, (r: Row) => p(r) && q(r))
  {
    if rows != [] {
      FilterTwice(rows[1..], p, q);
      FilterAppend(if p(rows[0]) then [rows[0]] else [], Filter(rows[1..], p), q);
    }
  }

  // ---------- a policy that groups by other columns ----------

  /** Two rows apart in the primary key and in one more column. */
  function Twins(columns: set<string>, pk: string, d: string): (Row, Row) {
    (map c | c in columns + {pk} :: if c == pk then Int(1) else Int(0),
     map c | c in columns + {pk} :: if c == pk then Int(2) else if c == d then Int(1) else Int(0))
  }

  lemma TwinsAre(columns: set<string>, pk: string, d: string, keys: seq<string>)
    requires Elements(keys) <= columns && d in columns
    ensures
      var (a, b) := Twins(columns, pk, d);
      && KeyedBy([a, b], pk) && Null !in GroupKey(a, keys) && Null !in GroupKey(b, keys)
      && (pk !in keys && d !in keys ==> GroupKey(a, keys) == GroupKey(b, keys))
      && (d in keys ==> GroupKey(a, keys) != GroupKey(b, keys))
  {
    var (a, b) := Twins(columns, pk, d);
    forall i | 0 <= i < |keys| ensures keys[i] in columns {
      assert keys[i] in Elements(keys);
    }
    assert [a, b][0] == a && [a, b][1] == b;
    if d in keys {
      var i: nat :| i < |keys| && keys[i] == d;
      assert GroupKey(a, keys)[i] != GroupKey(b, keys)[i];
    }
  }

  /** Rows of one group: the second is targeted. Rows of two: neither is, and neither is reported. */
  lemma TwinsTargets(a: Row, b: Row, pk: string, keys: seq<string>)
    requires KeyedBy([a, b], pk) && Get(a, pk) == Int(1) && Get(b, pk) == Int(2)
    requires Null !in GroupKey(a, keys) && Null !in GroupKey(b, keys)
    ensures GroupKey(a, keys) == GroupKey(b, keys) ==>
              b in TargetsOf([a, b], pk, keys) && b in ExtraRows([a, b], pk, keys)
    ensures GroupKey(a, keys) != GroupKey(b, keys) ==>
              b !in TargetsOf([a, b], pk, keys) && b !in ExtraRows([a, b], pk, keys)
  {
    var rows := [a, b];
    assert a in rows && b in rows;
    TargetedMeaning(rows, b, pk, keys);
    if GroupKey(a, keys) == GroupKey(b, keys) {
      assert !CellLe(Get(b, pk), Get(a, pk));
      TwoInGroup(rows, b, a, keys);
    } else {
      forall s | s in rows && GroupKey(s, keys) == GroupKey(b, keys) ensures s == b {
      }
    }
  }

  /** A policy's key columns and the check's give the same selection on every table with a primary key, free of
      NULL keys, exactly when they group alike. Where they do not, two rows are enough: apply targets a row
      nobody reported, or leaves a reported one. */
  lemma PolicyKeysMatterExactly(pk: string, policy: seq<string>, keys: seq<string>)
    ensures (forall rows: seq<Row> | KeyedBy(rows, pk) && (forall r | r in rows :: Null !in GroupKey(r, keys)) ::
               TargetsOf(rows, pk, policy) == ExtraRows(rows, pk, keys))
       <==> GroupAlike(pk, policy, keys)
  {
    if GroupAlike(pk, policy, keys) {
      forall rows: seq<Row> | KeyedBy(rows, pk) && (forall r | r in rows :: Null !in GroupKey(r, keys))
        ensures TargetsOf(rows, pk, policy) == ExtraRows(rows, pk, keys)
      {
        TargetsAlike(rows, pk, policy, keys);
        TargetsAreExtraRows(rows, pk, keys);
      }
    } else {
      var rows := DifferentTargets(pk, policy, keys);
    }
  }

  lemma DifferentTargets(pk: string, policy: seq<string>, keys: seq<string>) returns (rows: seq<Row>)
    requires !GroupAlike(pk, policy, keys)
    ensures KeyedBy(rows, pk) && forall r | r in rows :: Null !in GroupKey(r, keys)
    ensures TargetsOf(rows, pk, policy) != ExtraRows(rows, pk, keys)
  {
    hide GroupKey;
    hide TargetsOf;
    hide ExtraRows;
    hide KeyedBy;
    var columns := Elements(policy) + Elements(keys);
    var d := TellingColumn(pk, policy, keys);
    var (a, b) := Twins(columns, pk, d);
    rows := [a, b];
    TwinsAre(columns, pk, d, policy);
    TwinsAre(columns, pk, d, keys);
    TwinsTargets(a, b, pk, policy);
    TwinsTargets(a, b, pk, keys);
  }

  /** A column only one of the two groups by, where the other does not group by the primary key either. */
  lemma TellingColumn(pk: string, policy: seq<string>, keys: seq<string>) returns (d: string)
    requires !GroupAlike(pk, policy, keys)
    ensures d in policy || d in keys
    ensures d in policy ==> d !in keys && pk !in keys
    ensures d in keys ==> d !in policy && pk !in policy
  {
    if pk in policy {
      d := pk;
    } else if pk in keys {
      d := pk;
    } else if !(Elements(policy) <= Elements(keys)) {
      d :| d in Elements(policy) && d !in Elements(keys);
    } else {
      d :| d in Elements(keys) && d !in Elements(policy);
    }
  }
}

/** What a commit makes of the rows a transaction updated, in tables that others have changed since its snapshot:
    PostgreSQL looks at rows, so an insertion by someone else stays, and is not filled. */
module Merges {
  import opened Prelude
  import opened Sql
  import opened Contracts
  import opened Actions
  import opened Transactions

  lemma PutFirst<T>(x: T, s: seq<T>)
    ensures multiset([x] + s) == multiset{x} + multiset(s)
  {
  }

  lemma FirstUpdate<T>(u: Update<T>, rest: seq<Update<T>>)
    ensures Befores([u] + rest) == [u.was] + Befores(rest)
    ensures Afters([u] + rest) == [u.now] + Afters(rest)
  {
  }

  lemma {:induction false} BeforesWithin<T>(was: seq<T>, own: seq<T>)
    ensures multiset(Befores(Updates(was, own))) <= multiset(was)
  {
    if was == [] || own == [] {
      assert Updates(was, own) == [];
      assert Befores(Updates(was, own)) == [];
    } else {
      BeforesWithin(was[1..], own[1..]);
      var rest := Updates(was[1..], own[1..]);
      assert was == [was[0]] + was[1..];
      PutFirst(was[0], was[1..]);
      if was[0] != own[0] {
        FirstUpdate(Update(was[0], own[0]), rest);
        PutFirst(was[0], Befores(rest));
        assert Updates(was, own) == [Update(was[0], own[0])] + rest;
      } else {
        assert Updates(was, own) == [] + rest == rest;
      }
      hide Befores;
      hide Updates;
    }
  }

  lemma TakeOut<T>(front: seq<T>, x: T, back: seq<T>)
    ensures multiset(front + [x] + back) == multiset(front + back) + multiset{x}
  {
  }

  lemma MiddleUpdate<T>(front: seq<Update<T>>, u: Update<T>, back: seq<Update<T>>)
    ensures Befores(front + [u] + back) == Befores(front) + [u.was] + Befores(back)
    ensures Afters(front + [u] + back) == Afters(front) + [u.now] + Afters(back)
    ensures Befores(front + back) == Befores(front) + Befores(back)
    ensures Afters(front + back) == Afters(front) + Afters(back)
  {
  }

  lemma RemoveUpdate<T>(updates: seq<Update<T>>, i: nat)
    requires i < |updates|
    ensures
      var rest := updates[..i] + updates[i + 1..];
      && multiset(Befores(updates)) == multiset(Befores(rest)) + multiset{updates[i].was}
      && multiset(Afters(updates)) == multiset(Afters(rest)) + multiset{updates[i].now}
  {
    hide Befores;
    hide Afters;
    var front, back := updates[..i], updates[i + 1..];
    assert updates == front + [updates[i]] + back;
    MiddleUpdate(front, updates[i], back);
    TakeOut(Befores(front), updates[i].was, Befores(back));
    TakeOut(Afters(front), updates[i].now, Afters(back));
  }

  /** The first row stays: what that makes of the counts. */
  lemma KeepFirst<T>(x: T, now: multiset<T>, was: multiset<T>, own: multiset<T>)
    requires was <= multiset{x} + now && x !in was
    ensures was <= now
    ensures multiset{x} + (now - was + own) == multiset{x} + now - was + own
  {
  }

  /** The first row is replaced: what that makes of the counts. */
  lemma ReplaceFirst<T>(x: T, y: T, now: multiset<T>, was: multiset<T>, own: multiset<T>)
    requires was + multiset{x} <= multiset{x} + now
    ensures was <= now
    ensures multiset{y} + (now - was + own) == multiset{x} + now - (was + multiset{x}) + (own + multiset{y})
  {
    forall z: T ensures was[z] <= now[z] {
      assert (was + multiset{x})[z] <= (multiset{x} + now)[z];
    }
  }

  /** Where no updated row has changed, the updates replace exactly those rows and every other row stays. */
  lemma {:induction false} UpdatesReplace<T>(updates: seq<Update<T>>, now: seq<T>)
    requires multiset(Befores(updates)) <= multiset(now)
    ensures multiset(ApplyUpdates(updates, now))
         == multiset(now) - multiset(Befores(updates)) + multiset(Afters(updates))
    ensures |ApplyUpdates(updates, now)| == |now|
    decreases |now|
  {
    if now == [] {
      NoUpdates(updates);
    } else {
      hide Befores;
      hide Afters;
      var first, later := now[0], now[1..];
      assert now == [first] + later;
      PutFirst(first, later);
      var i := FindUpdate(updates, first);
      if i == |updates| {
        KeepFirst(first, multiset(later), multiset(Befores(updates)), multiset(Afters(updates)));
        UpdatesReplace(updates, later);
        PutFirst(first, ApplyUpdates(updates, later));
        assert ApplyUpdates(updates, now) == [first] + ApplyUpdates(updates, later);
        hide ApplyUpdates;
      } else {
        RemoveUpdate(updates, i);
        var rest, y := updates[..i] + updates[i + 1..], updates[i].now;
        ReplaceFirst(first, y, multiset(later), multiset(Befores(rest)), multiset(Afters(rest)));
        UpdatesReplace(rest, later);
        PutFirst(y, ApplyUpdates(rest, later));
        assert ApplyUpdates(updates, now) == [y] + ApplyUpdates(rest, later);
        hide ApplyUpdates;
      }
    }
  }

  lemma NoUpdates<T>(updates: seq<Update<T>>)
    requires multiset(Befores(updates)) <= multiset{}
    ensures updates == [] && Befores(updates) == [] && Afters(updates) == []
  {
    assert |multiset(Befores(updates))| == |updates|;
  }

  lemma BalanceStep<T>(w: T, o: T, was: multiset<T>, own: multiset<T>, out: multiset<T>, put: multiset<T>)
    requires own + out == was + put
    ensures (multiset{o} + own) + (multiset{w} + out) == (multiset{w} + was) + (multiset{o} + put)
    ensures (multiset{o} + own) + out == (multiset{o} + was) + put
  {
    assert (multiset{o} + own) + (multiset{w} + out) == multiset{o} + multiset{w} + (own + out);
    assert (multiset{w} + was) + (multiset{o} + put) == multiset{o} + multiset{w} + (was + put);
    assert (multiset{o} + own) + out == multiset{o} + (own + out);
    assert (multiset{o} + was) + put == multiset{o} + (was + put);
  }

  /** The rows left and the rows updated are the table as the transaction sees it. */
  lemma {:induction false} UpdatesBalance<T>(was: seq<T>, own: seq<T>)
    requires |was| == |own|
    ensures multiset(own) + multiset(Befores(Updates(was, own)))
         == multiset(was) + multiset(Afters(Updates(was, own)))
  {
    if was == [] {
      assert Updates(was, own) == [];
      assert Befores(Updates(was, own)) == [] && Afters(Updates(was, own)) == [];
    } else {
      UpdatesBalance(was[1..], own[1..]);
      var rest := Updates(was[1..], own[1..]);
      assert was == [was[0]] + was[1..] && own == [own[0]] + own[1..];
      PutFirst(was[0], was[1..]);
      PutFirst(own[0], own[1..]);
      if was[0] != own[0] {
        FirstUpdate(Update(was[0], own[0]), rest);
        PutFirst(was[0], Befores(rest));
        PutFirst(own[0], Afters(rest));
        assert Updates(was, own) == [Update(was[0], own[0])] + rest;
      } else {
        assert Updates(was, own) == [] + rest == rest;
      }
      hide Befores;
      hide Afters;
      hide Updates;
      BalanceStep(was[0], own[0], multiset(was[1..]), multiset(own[1..]), multiset(Befores(rest)),
                  multiset(Afters(rest)));
    }
  }

  /** In a table nobody has changed, the commit leaves the rows the transaction saw. */
  lemma MergedAlone<T>(was: seq<T>, own: seq<T>)
    requires |was| == |own|
    ensures multiset(ApplyUpdates(Updates(was, own), was)) == multiset(own)
  {
    hide Befores;
    hide Afters;
    hide Updates;
    hide ApplyUpdates;
    var updates := Updates(was, own);
    BeforesWithin(was, own);
    UpdatesReplace(updates, was);
    UpdatesBalance(was, own);
    Balanced(multiset(was), multiset(own), multiset(Befores(updates)), multiset(Afters(updates)));
  }

  lemma Balanced<T>(was: multiset<T>, own: multiset<T>, out: multiset<T>, put: multiset<T>)
    requires out <= was && own + out == was + put
    ensures was - out + put == own
  {
    forall x: T ensures (was - out + put)[x] == own[x] {
      assert (own + out)[x] == (was + put)[x];
      assert out[x] <= was[x];
    }
  }

  lemma {:induction false} NoUpdatesAlone<T>(rows: seq<T>)
    ensures Updates(rows, rows) == []
  {
    if rows != [] {
      NoUpdatesAlone(rows[1..]);
    }
  }

  lemma {:induction false} NothingApplied<T>(now: seq<T>)
    ensures ApplyUpdates([], now) == now
  {
    if now != [] {
      NothingApplied(now[1..]);
      assert now == [now[0]] + now[1..];
    }
  }

  /** The rows a fill finds NULL. */
  function NullsOf(rows: seq<Row>, column: string): seq<Row> {
    Filter(rows, (row: Row) => Get(row, column) == Null)
  }

  /** The cell that stores a fill value: the value itself, a date as its text and a flag as a number. */
  predicate Denotes(v: Value, c: Cell) {
    match v
    case Text(s) => c == Str(s)
    case Number(n) => c == Int(n)
    case Flag(b) => c == Int(if b then 1 else 0)
    case Date(iso) => c == Str(iso)
    case _ => false
  }

  /** One row before and after a fill: a NULL in the column becomes the value, and nothing else changes. */
  ghost predicate Filled(was: Row, now: Row, column: string, value: Value) {
    && (Get(was, column) == Null ==> Denotes(value, Get(now, column)))
    && (Get(was, column) != Null ==> now == was)
    && forall c | c != column :: Get(now, c) == Get(was, c)
  }

  /** Rows that are NULL in the column, filled: each holds the value there, and is otherwise as it was. */
  lemma FilledHold(rows: seq<Row>, column: string, value: Value)
    requires Fillable(value)
    ensures |FillRows(rows, column, value)| == |rows|
    ensures forall k | 0 <= k < |rows| :: Filled(rows[k], FillRows(rows, column, value)[k], column, value)
  {
  }

  /** What a fill updates are the rows it finds NULL. */
  lemma {:induction false} FillUpdates(rows: seq<Row>, column: string, value: Value)
    requires CellOf(value) != Null
    ensures Befores(Updates(rows, FillRows(rows, column, value))) == NullsOf(rows, column)
    ensures Afters(Updates(rows, FillRows(rows, column, value))) == FillRows(NullsOf(rows, column), column, value)
  {
    if rows != [] {
      FillUpdates(rows[1..], column, value);
      assert FillRows(rows, column, value)[1..] == FillRows(rows[1..], column, value);
      var rest := Updates(rows[1..], FillRows(rows[1..], column, value));
      var first := Update(rows[0], FillRow(rows[0], column, value));
      if Get(rows[0], column) == Null {
        assert Get(first.now, column) == CellOf(value);
        assert Updates(rows, FillRows(rows, column, value)) == [first] + rest;
        assert Befores([first] + rest) == [first.was] + Befores(rest);
        assert Afters([first] + rest) == [first.now] + Afters(rest);
        assert NullsOf(rows, column) == [rows[0]] + NullsOf(rows[1..], column);
        assert FillRows([rows[0]] + NullsOf(rows[1..], column), column, value)
            == [first.now] + FillRows(NullsOf(rows[1..], column), column, value);
      } else {
        assert NullsOf(rows, column) == NullsOf(rows[1..], column);
      }
    }
  }

  lemma {:induction false} FilterCounts<T>(s: seq<T>, p: T -> bool, x: T)
    ensures multiset(Filter(s, p))[x] == if p(x) then multiset(s)[x] else 0
  {
    if s != [] {
      FilterCounts(s[1..], p, x);
      assert s == [s[0]] + s[1..];
    }
  }

  /** What is left of the rows in question when some of them are replaced by others that are not. */
  lemma ReplacedRow<T>(after: seq<T>, now: seq<T>, was: seq<T>, filled: seq<T>, p: T -> bool, x: T)
    requires multiset(after)[x] == (multiset(now) - multiset(Filter(was, p)) + multiset(filled))[x]
    requires multiset(Filter(was, p))[x] <= multiset(now)[x]
    requires forall x | x in filled :: !p(x)
    ensures multiset(Filter(after, p))[x] + multiset(Filter(was, p))[x] == multiset(Filter(now, p))[x]
  {
    FilterCounts(after, p, x);
    FilterCounts(now, p, x);
    FilterCounts(was, p, x);
    hide Filter;
    if p(x) {
      assert x !in multiset(filled);
    }
  }

  lemma ReplacedRows<T>(after: seq<T>, now: seq<T>, was: seq<T>, filled: seq<T>, p: T -> bool)
    requires multiset(Filter(was, p)) <= multiset(now)
    requires multiset(after) == multiset(now) - multiset(Filter(was, p)) + multiset(filled)
    requires forall x | x in filled :: !p(x)
    ensures multiset(Filter(after, p)) == multiset(Filter(now, p)) - multiset(Filter(was, p))
    ensures multiset(Filter(was, p)) <= multiset(Filter(now, p))
  {
    hide Filter;
    var a, n, w := multiset(Filter(after, p)), multiset(Filter(now, p)), multiset(Filter(was, p));
    forall x: T ensures a[x] + w[x] == n[x] {
      ReplacedRow(after, now, was, filled, p, x);
    }
    Difference(a, n, w);
  }

  lemma Difference<T>(a: multiset<T>, n: multiset<T>, w: multiset<T>)
    requires forall x: T :: a[x] + w[x] == n[x]
    ensures a == n - w && w <= n
  {
  }

  lemma SizeOfRest<T>(all: seq<T>, some: seq<T>, rest: seq<T>)
    requires multiset(some) <= multiset(all) && multiset(rest) == multiset(all) - multiset(some)
    ensures |rest| == |all| - |some|
  {
    assert multiset(all) == multiset(rest) + multiset(some);
    assert |multiset(all)| == |multiset(rest)| + |multiset(some)|;
  }

  /** A fill, committed: of the rows as they then are, those the snapshot had NULL are filled, every other row stays,
      and what is left NULL is what others have put there since. */
  lemma FillMerges(was: seq<Row>, now: seq<Row>, column: string, value: Value)
    requires CellOf(value) != Null
    requires multiset(Befores(Updates(was, FillRows(was, column, value)))) <= multiset(now)
    ensures
      var nulls, after := NullsOf(was, column), ApplyUpdates(Updates(was, FillRows(was, column, value)), now);
      && multiset(nulls) <= multiset(now)
      && multiset(after) == multiset(now) - multiset(nulls) + multiset(FillRows(nulls, column, value))
      && multiset(NullsOf(after, column)) == multiset(NullsOf(now, column)) - multiset(nulls)
      && |NullsOf(after, column)| == |NullsOf(now, column)| - |nulls|
  {
    FillUpdates(was, column, value);
    var filled := FillRows(NullsOf(was, column), column, value);
    forall x | x in filled ensures Get(x, column) != Null {
      var i :| 0 <= i < |filled| && filled[i] == x;
    }
    var updates := Updates(was, FillRows(was, column, value));
    hide FillRows;
    hide Updates;
    UpdatesReplace(updates, now);
    var after := ApplyUpdates(updates, now);
    ReplacedRows(after, now, was, filled, (row: Row) => Get(row, column) == Null);
    SizeOfRest(NullsOf(now, column), NullsOf(was, column), NullsOf(after, column));
  }

  /** In a table nobody has changed, the commit leaves what the transaction saw. */
  lemma {:induction false} FillAlone(rows: seq<Row>, column: string, value: Value)
    requires CellOf(value) != Null
    ensures ApplyUpdates(Updates(rows, FillRows(rows, column, value)), rows) == FillRows(rows, column, value)
  {
    if rows != [] {
      var own := FillRows(rows, column, value);
      var rest := FillRows(rows[1..], column, value);
      assert own == [FillRow(rows[0], column, value)] + rest;
      FillAlone(rows[1..], column, value);
      var updates := Updates(rows, own);
      assert own[1..] == rest;
      if Get(rows[0], column) == Null {
        assert Get(own[0], column) == CellOf(value);
        assert updates == [Update(rows[0], own[0])] + Updates(rows[1..], rest);
        assert updates[..0] + updates[1..] == Updates(rows[1..], rest);
        assert FindUpdate(updates, rows[0]) == 0;
      } else {
        assert updates == Updates(rows[1..], rest);
        FillUpdates(rows[1..], column, value);
        assert rows[0] !in Befores(updates);
        assert FindUpdate(updates, rows[0]) == |updates|;
      }
    }
  }
}

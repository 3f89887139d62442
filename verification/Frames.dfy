/** The data frames the quality suite reads, and which columns the Polars operators it uses accept
    (quality/predicates.py, quality/suite.py). */
module Frames {
  import opened Sql
  import opened Contracts

  /** The type of a loaded column. Integers of every width are one type. `OtherType` is any type a contract cannot
      declare, such as a decimal; `Untyped` is the type of a column that was loaded without any value. */
  datatype ColumnType = Of(dtype: DType) | OtherType(name: string) | Untyped

  /** A loaded table: its columns and its rows. */
  datatype Frame = Frame(columns: map<string, ColumnType>, rows: seq<Row>)

  /** The frames by the name under which the catalog holds the table. */
  type Loaded = map<string, Frame>

  /** A stored value a column of this type can hold. */
  predicate Holds(t: ColumnType, c: Cell) {
    c == Null
    || match t
       case Of(Int64) => c.Int?
       case Of(Utf8) => c.Str?
       case Of(DateType) => c.Str?
       case Of(DatetimeType) => c.Str?
       case Untyped => false
       case _ => true
  }

  /** Every value of a frame is of its column's type. */
  ghost predicate Typed(f: Frame) {
    forall r, c | r in f.rows && c in f.columns :: Holds(f.columns[c], Get(r, c))
  }

  // ---------- what the operators accept ----------

  /** `str.contains`: text, and nothing else. */
  predicate Searchable(t: ColumnType) {
    t == Of(Utf8)
  }

  /** `is_in` with a list of text. */
  predicate Listable(t: ColumnType) {
    t == Of(Utf8) || t == Untyped
  }

  /** `<` and `>`: text only with text; a column without values with anything. */
  predicate Comparable(a: ColumnType, b: ColumnType) {
    a == Untyped || b == Untyped || (a == Of(Utf8) <==> b == Of(Utf8))
  }

  /** The keys of a join are of one type. */
  predicate Joinable(a: ColumnType, b: ColumnType) {
    a == b
  }

  /** The columns `group_by(keys).len()` yields must have different names, and the count is called `len`. */
  predicate Groupable(keys: seq<string>) {
    "len" !in keys && forall i, j | 0 <= i < j < |keys| :: keys[i] != keys[j]
  }

  /** How `failed_rows` ends: with rows, with a KeyError or ColumnNotFoundError, which the suite reports as an
      error of the check, or with another exception, which ends the suite. */
  datatype Failing = Found(rows: seq<Row>) | NotFound | Raises
}

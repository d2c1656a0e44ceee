/**
 * Loosely-typed input tables as the editors and the CSV upload hand them to the
 * core: named columns and rows of cells. A cell is what numeric coercion with
 * errors="coerce" makes of the entry: a number, or None for a blank, NaN or
 * non-numeric entry. Column headers arrive already trimmed and lower-cased.
 */
module Frames {
  import opened Wrappers

  type Cell = Option<real>

  datatype Frame = Frame(columns: seq<string>, rows: seq<seq<Cell>>)

  /** Every row has one cell per column, as in any data frame. */
  predicate Rectangular(f: Frame) {
    forall i :: 0 <= i < |f.rows| ==> |f.rows[i]| == |f.columns|
  }

  /** What the column accesses of the normalizers and of the scenario evaluator raise. */
  datatype Failure =
    | MissingColumn(name: string)    // a rank column that is not there
    | DuplicateColumn(name: string)  // two headers that resolve to the same name
    | NonIntegralRank(name: string)  // the Int64 cast meets a number with a fractional part

  /** A header after renaming with an alias map; names the map does not know stay as they are. */
  function Rename(aliases: map<string, string>, name: string): string {
    if name in aliases then aliases[name] else name
  }

  function Renamed(aliases: map<string, string>, columns: seq<string>): (r: seq<string>)
    ensures |r| == |columns|
  {
    seq(|columns|, j requires 0 <= j < |columns| => Rename(aliases, columns[j]))
  }

  /** How a name resolves against the headers: not there, exactly one column, or several. */
  datatype Lookup = Absent | Unique(index: nat) | Duplicated

  function FirstIndex(columns: seq<string>, name: string): (i: nat)
    requires name in columns
    ensures i < |columns| && columns[i] == name
    ensures forall j :: 0 <= j < i ==> columns[j] != name
  {
    if columns[0] == name then 0 else 1 + FirstIndex(columns[1..], name)
  }

  function Locate(columns: seq<string>, name: string): (l: Lookup)
    ensures l.Absent? <==> forall j :: 0 <= j < |columns| ==> columns[j] != name
    ensures l.Unique? ==> l.index < |columns| && columns[l.index] == name
    ensures l.Unique? ==> forall j :: 0 <= j < |columns| && j != l.index ==> columns[j] != name
    ensures l.Duplicated? <==>
      exists i, j :: 0 <= i < j < |columns| && columns[i] == name && columns[j] == name
  {
    if name !in columns then Absent
    else
      var i := FirstIndex(columns, name);
      if name in columns[i + 1..] then
        var k :| 0 <= k < |columns[i + 1..]| && columns[i + 1..][k] == name;
        assert columns[i + 1 + k] == name;
        Duplicated
      else
        assert forall j :: i < j < |columns| ==> columns[j] == columns[i + 1..][j - i - 1];
        Unique(i)
  }

  /** A number the Int64 cast accepts: one without a fractional part. */
  predicate Integral(x: real) {
    x.Floor as real == x
  }

  predicate IntegralCell(c: Cell) {
    c.None? || Integral(c.value)
  }

  function AsRank(c: Cell): (r: Option<int>)
    requires IntegralCell(c)
    ensures r.None? <==> c.None?
    ensures r.Some? ==> r.value as real == c.value
  {
    if c.None? then None else Some(c.value.Floor)
  }

  /**
   * A rank column, coerced to numbers and cast to Int64 (app.py:24-25, 42-43, 86):
   * a missing column, a name shared by two columns, or one fractional number
   * anywhere in the column makes the whole call fail.
   */
  function RankColumn(f: Frame, name: string): (r: Result<seq<Option<int>>, Failure>)
    requires Rectangular(f)
    ensures r.Ok? <==>
      Locate(f.columns, name).Unique? &&
      forall i :: 0 <= i < |f.rows| ==> IntegralCell(f.rows[i][Locate(f.columns, name).index])
    ensures r.Ok? ==> |r.value| == |f.rows|
    ensures r.Ok? ==> forall i :: 0 <= i < |f.rows| ==>
      r.value[i] == AsRank(f.rows[i][Locate(f.columns, name).index])
    ensures Locate(f.columns, name).Absent? ==> r == Err(MissingColumn(name))
    ensures Locate(f.columns, name).Duplicated? ==> r == Err(DuplicateColumn(name))
  {
    match Locate(f.columns, name)
    case Absent => Err(MissingColumn(name))
    case Duplicated => Err(DuplicateColumn(name))
    case Unique(j) =>
      if forall i :: 0 <= i < |f.rows| ==> IntegralCell(f.rows[i][j]) then
        Ok(seq(|f.rows|, i requires 0 <= i < |f.rows| && IntegralCell(f.rows[i][j]) => AsRank(f.rows[i][j])))
      else
        Err(NonIntegralRank(name))
  }

  /**
   * A number column read with a NaN default (app.py:26, 44, 87): a missing column
   * reads as all-None, a name shared by two columns fails.
   */
  function NumberColumn(f: Frame, name: string): (r: Result<seq<Cell>, Failure>)
    requires Rectangular(f)
    ensures r.Ok? <==> !Locate(f.columns, name).Duplicated?
    ensures r.Err? ==> r.error == DuplicateColumn(name)
    ensures r.Ok? ==> |r.value| == |f.rows|
    ensures r.Ok? && Locate(f.columns, name).Absent? ==> forall i :: 0 <= i < |f.rows| ==> r.value[i].None?
    ensures r.Ok? && Locate(f.columns, name).Unique? ==> forall i :: 0 <= i < |f.rows| ==>
      r.value[i] == f.rows[i][Locate(f.columns, name).index]
  {
    match Locate(f.columns, name)
    case Absent => Ok(seq(|f.rows|, i => None))
    case Duplicated => Err(DuplicateColumn(name))
    case Unique(j) => Ok(seq(|f.rows|, i requires 0 <= i < |f.rows| => f.rows[i][j]))
  }
}

/** The tabular values the dashboard works on: a data frame is an ordered list
    of column names, a list of rows (each a map from column name to cell) and
    the set of columns whose dtype is datetime. A name that a row does not map
    reads as a missing value. */
module Frame {
  import opened Text

  datatype Date = Date(year: int, month: int, day: int)

  datatype DateTime = DateTime(year: int, month: int, day: int, hour: int, minute: int, second: int)

  /** A cell: missing (NaN/NaT/None), text, a timestamp, an integer, a
      calendar date or a real number. */
  datatype Cell = Null | Str(s: string) | Time(t: DateTime) | Int(n: int) | Day(d: Date) | Num(x: real)

  type Row = map<string, Cell>

  datatype Table = Table(columns: seq<string>, rows: seq<Row>, timeCols: set<string>)

  /** The empty frame, `pd.DataFrame()`. */
  const Empty := Table([], [], {})

  function Get(row: Row, c: string): Cell {
    if c in row then row[c] else Null
  }

  /** The cells of column `c`, one per row. */
  function Column(t: Table, c: string): (cells: seq<Cell>)
    ensures |cells| == |t.rows|
  {
    seq(|t.rows|, i requires 0 <= i < |t.rows| => Get(t.rows[i], c))
  }

  /** Every cell of `t` is text or missing: a frame read with `dtype=str`. */
  predicate TextOnly(t: Table) {
    forall i, c | 0 <= i < |t.rows| && c in t.rows[i] :: t.rows[i][c].Null? || t.rows[i][c].Str?
  }

  /** `df[c] = cells`: overwrites column `c` in place, or appends it as the
      last column when `t` has no such column. */
  function SetColumn(t: Table, c: string, cells: seq<Cell>, isTime: bool): (r: Table)
    requires |cells| == |t.rows|
    ensures r.columns == if c in t.columns then t.columns else t.columns + [c]
    ensures r.timeCols == if isTime then t.timeCols + {c} else t.timeCols - {c}
    ensures Column(r, c) == cells
    ensures forall d | d != c :: Column(r, d) == Column(t, d)
  {
    var r := Table(if c in t.columns then t.columns else t.columns + [c],
                   seq(|t.rows|, i requires 0 <= i < |t.rows| => t.rows[i][c := cells[i]]),
                   if isTime then t.timeCols + {c} else t.timeCols - {c});
    assert Column(r, c) == cells;
    r
  }

  function Without(s: seq<string>, c: string): (r: seq<string>)
    ensures c !in r
    ensures forall d | d != c :: d in r <==> d in s
  {
    if s == [] then [] else (if s[0] == c then [] else [s[0]]) + Without(s[1..], c)
  }

  /** `df.drop(c, axis=1)`: removes every column labelled `c`. */
  function DropColumn(t: Table, c: string): (r: Table)
    ensures r.columns == Without(t.columns, c)
    ensures r.timeCols == t.timeCols - {c}
    ensures |r.rows| == |t.rows|
    ensures forall i | 0 <= i < |r.rows| :: Get(r.rows[i], c) == Null
    ensures forall d | d != c :: Column(r, d) == Column(t, d)
  {
    Table(Without(t.columns, c),
          seq(|t.rows|, i requires 0 <= i < |t.rows| => t.rows[i] - {c}),
          t.timeCols - {c})
  }

  /** The rows of `rows` for which `keep` holds, in their order (a boolean
      mask `df[mask]`). */
  function FilterRows(rows: seq<Row>, keep: Row -> bool): (r: seq<Row>)
    ensures |r| <= |rows|
    ensures forall x :: x in r <==> x in rows && keep(x)
  {
    if rows == [] then []
    else (if keep(rows[0]) then [rows[0]] else []) + FilterRows(rows[1..], keep)
  }

  function Where(t: Table, keep: Row -> bool): (r: Table)
    ensures r.columns == t.columns && r.timeCols == t.timeCols
    ensures forall x :: x in r.rows <==> x in t.rows && keep(x)
  {
    t.(rows := FilterRows(t.rows, keep))
  }

  /** Filtering by `p` and then by `q` keeps the rows a single filter by
      their conjunction keeps, in the same order. */
  lemma {:induction false} FilterRowsTwice(rows: seq<Row>, p: Row -> bool, q: Row -> bool, both: Row -> bool)
    requires forall x :: both(x) == (p(x) && q(x))
    ensures FilterRows(FilterRows(rows, p), q) == FilterRows(rows, both)
  {
    if rows != [] {
      FilterRowsTwice(rows[1..], p, q, both);
      var rest := FilterRows(rows[1..], p);
      if p(rows[0]) {
        assert FilterRows(rows, p) == [rows[0]] + rest;
        assert FilterRows(rows, p)[1..] == rest;
      } else {
        assert FilterRows(rows, p) == rest;
      }
    }
  }

  /** A filter every row passes keeps all rows. */
  lemma {:induction false} FilterRowsAll(rows: seq<Row>, keep: Row -> bool)
    requires forall x :: keep(x)
    ensures FilterRows(rows, keep) == rows
  {
    if rows != [] {
      FilterRowsAll(rows[1..], keep);
    }
  }

  // ---------------------------------------------------------------------
  // Text columns

  predicate TextCells(cells: seq<Cell>) {
    forall i | 0 <= i < |cells| :: cells[i].Null? || cells[i].Str?
  }

  lemma TextColumn(t: Table, c: string)
    requires TextOnly(t)
    ensures TextCells(Column(t, c))
  {
  }

  /** `astype(str)` on a cell of a text frame: a missing value reads "nan". */
  function AsText(c: Cell): string
    requires c.Null? || c.Str?
  {
    if c.Str? then c.s else "nan"
  }

  /** `cells.astype(str).str.<f>()`: every cell becomes the text `f` makes of it. */
  function Recased(cells: seq<Cell>, f: string -> string): (r: seq<Cell>)
    requires TextCells(cells)
    ensures |r| == |cells| && TextCells(r)
  {
    seq(|cells|, i requires 0 <= i < |cells| => Str(f(AsText(cells[i]))))
  }

  lemma SetColumnTextOnly(t: Table, c: string, cells: seq<Cell>, isTime: bool)
    requires TextOnly(t) && TextCells(cells) && |cells| == |t.rows|
    ensures TextOnly(SetColumn(t, c, cells, isTime))
  {
    var r := SetColumn(t, c, cells, isTime);
    forall i, d | 0 <= i < |r.rows| && d in r.rows[i]
      ensures r.rows[i][d].Null? || r.rows[i][d].Str?
    {
      assert r.rows[i] == t.rows[i][c := cells[i]];
    }
  }

  /** The loop `for c in cols: if c in df.columns: df[c] = df[c].astype(str).str.<f>()`
      over distinct names: each listed column present in `t` is rewritten
      through `f`, every other column is left as it was. */
  method RecaseColumns(t: Table, cols: seq<string>, f: string -> string) returns (r: Table)
    requires TextOnly(t)
    requires forall i, j | 0 <= i < j < |cols| :: cols[i] != cols[j]
    ensures r.columns == t.columns && |r.rows| == |t.rows| && TextOnly(r)
    ensures forall c :: c in r.timeCols <==> c in t.timeCols && !(c in cols && c in t.columns)
    ensures forall c | c in cols && c in t.columns :: (TextColumn(t, c); Column(r, c) == Recased(Column(t, c), f))
    ensures forall c | !(c in cols && c in t.columns) :: Column(r, c) == Column(t, c)
  {
    r := t;
    for k := 0 to |cols|
      invariant r.columns == t.columns && |r.rows| == |t.rows| && TextOnly(r)
      invariant forall c :: c in r.timeCols <==> c in t.timeCols && !(c in cols[..k] && c in t.columns)
      invariant forall c | c in cols[..k] && c in t.columns :: (TextColumn(t, c); Column(r, c) == Recased(Column(t, c), f))
      invariant forall c | !(c in cols[..k] && c in t.columns) :: Column(r, c) == Column(t, c)
    {
      var c := cols[k];
      assert cols[..k + 1] == cols[..k] + [c];
      if c in r.columns {
        assert c !in cols[..k];
        TextColumn(r, c);
        var cells := Recased(Column(r, c), f);
        SetColumnTextOnly(r, c, cells, false);
        r := SetColumn(r, c, cells, false);
      }
    }
  }

  // ---------------------------------------------------------------------
  // Calendar arithmetic behind pandas' `.dt` accessors

  /** Days from 1970-01-01 to the given day of the proleptic Gregorian calendar. */
  function DaysFromCivil(year: int, month: int, day: int): int {
    var y := if month <= 2 then year - 1 else year;
    var era := y / 400;
    var yoe := y - era * 400;
    var doy := (153 * (if month > 2 then month - 3 else month + 9) + 2) / 5 + day - 1;
    var doe := yoe * 365 + yoe / 4 - yoe / 100 + doy;
    era * 146097 + doe - 719468
  }

  function EpochSeconds(t: DateTime): int {
    DaysFromCivil(t.year, t.month, t.day) * 86400 + t.hour * 3600 + t.minute * 60 + t.second
  }

  function DateOf(t: DateTime): Date {
    Date(t.year, t.month, t.day)
  }

  /** `Series.dt.day_name()`; 1970-01-01 was a Thursday. */
  const WeekDays: seq<string> := ["Monday", "Tuesday", "Wednesday", "Thursday", "Friday", "Saturday", "Sunday"]

  function DayName(t: DateTime): (name: string)
    ensures name in WeekDays
  {
    WeekDays[(DaysFromCivil(t.year, t.month, t.day) + 3) % 7]
  }

  /** The epoch is day zero, and the next day of the same month is the next day number. */
  lemma DaysFromCivilCounts(year: int, month: int, day: int)
    ensures DaysFromCivil(1970, 1, 1) == 0
    ensures DaysFromCivil(year, month, day + 1) == DaysFromCivil(year, month, day) + 1
  {
  }

  /** Two days of the same month a week apart have the same name. */
  lemma DayNameWeekly(t: DateTime)
    ensures DayName(t.(day := t.day + 7)) == DayName(t)
  {
    var d := DaysFromCivil(t.year, t.month, t.day);
    assert DaysFromCivil(t.year, t.month, t.day + 7) == d + 7;
    assert (d + 7 + 3) % 7 == (d + 3) % 7;
  }

  /** Chronological order on dates. */
  predicate DateLe(a: Date, b: Date) {
    a.year < b.year || (a.year == b.year && (a.month < b.month || (a.month == b.month && a.day <= b.day)))
  }

  /** `(end - start).dt.total_seconds() / 60`, missing when either side is NaT. */
  function Minutes(start: Cell, end: Cell): (r: Cell)
    ensures r.Num? <==> start.Time? && end.Time?
    ensures !r.Num? ==> r == Null
    ensures start.Time? && end.Time? && EpochSeconds(start.t) == EpochSeconds(end.t) ==> r == Num(0.0)
  {
    if start.Time? && end.Time? then Num((EpochSeconds(end.t) - EpochSeconds(start.t)) as real / 60.0)
    else Null
  }
}

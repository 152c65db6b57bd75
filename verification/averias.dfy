/** The fault dashboard (modules/averias.py): the site-to-geography mapping
    built from the projects frame, the geographic filter of the faults, and
    the inline rules of the dashboard that prepare and narrow the fault
    table (case normalisation, the geographic stage, the de-duplication by
    alarm, the date range and the site selection). */
module Averias {
  import opened Text
  import opened Frame
  import opened Helpers

  // ---------------------------------------------------------------------
  // Column selection and distinct rows

  /** The columns of the projects frame the mapping is built from. */
  const RequiredCols: seq<string> := ["SITE_NAME", "Regi\U{F3}n", "Provincia", "Distrito", "Localidad"]

  /** `[c for c in cands if c in cols]`. */
  function Present(cands: seq<string>, cols: seq<string>): (r: seq<string>)
    ensures |r| <= |cands|
    ensures forall c :: c in r <==> c in cands && c in cols
    ensures (forall i, j | 0 <= i < j < |cands| :: cands[i] != cands[j]) ==>
      forall i, j | 0 <= i < j < |r| :: r[i] != r[j]
  {
    if cands == [] then []
    else (if cands[0] in cols then [cands[0]] else []) + Present(cands[1..], cols)
  }

  /** The values of `row` in the columns `cols`, in that order. */
  function RowKey(row: Row, cols: seq<string>): (key: seq<Cell>)
    ensures |key| == |cols| && forall i | 0 <= i < |cols| :: key[i] == Get(row, cols[i])
  {
    seq(|cols|, i requires 0 <= i < |cols| => Get(row, cols[i]))
  }

  /** Row `i` is the first of `rows` with its values in `cols`. */
  predicate FirstOfKey(rows: seq<Row>, i: int, cols: seq<string>)
    requires 0 <= i < |rows|
  {
    forall j | 0 <= j < i :: RowKey(rows[j], cols) != RowKey(rows[i], cols)
  }

  /** `drop_duplicates(subset=cols)`: keeps the first row of every
      combination of values in `cols` (missing values equal to each other). */
  function DedupBy(rows: seq<Row>, cols: seq<string>): (r: seq<Row>)
    ensures |r| <= |rows|
    decreases |rows|
  {
    if rows == [] then []
    else
      var init, last := rows[..|rows| - 1], rows[|rows| - 1];
      var rest := DedupBy(init, cols);
      if exists k | 0 <= k < |init| :: RowKey(init[k], cols) == RowKey(last, cols) then rest
      else rest + [last]
  }

  /** Every de-duplicated row is an input row. */
  lemma {:induction false} DedupFromInput(rows: seq<Row>, cols: seq<string>)
    ensures forall x | x in DedupBy(rows, cols) :: x in rows
    decreases |rows|
  {
    if rows != [] {
      var init := rows[..|rows| - 1];
      DedupFromInput(init, cols);
      assert forall x | x in init :: x in rows;
    }
  }

  /** No two rows of `rows` agree on `cols`. */
  predicate KeysDistinct(rows: seq<Row>, cols: seq<string>) {
    forall i, j | 0 <= i < j < |rows| :: RowKey(rows[i], cols) != RowKey(rows[j], cols)
  }

  /** No two de-duplicated rows agree on `cols`. */
  lemma {:induction false} DedupDistinct(rows: seq<Row>, cols: seq<string>)
    ensures KeysDistinct(DedupBy(rows, cols), cols)
    decreases |rows|
  {
    if rows != [] {
      var init, last := rows[..|rows| - 1], rows[|rows| - 1];
      DedupDistinct(init, cols);
      var rest := DedupBy(init, cols);
      if !exists k | 0 <= k < |init| :: RowKey(init[k], cols) == RowKey(last, cols) {
        DedupFromInput(init, cols);
        var r := rest + [last];
        assert DedupBy(rows, cols) == r;
        forall i, j | 0 <= i < j < |r| ensures RowKey(r[i], cols) != RowKey(r[j], cols) {
          if j == |rest| {
            assert r[i] == rest[i] && rest[i] in init && r[j] == last;
            var k :| 0 <= k < |init| && init[k] == rest[i];
            assert RowKey(init[k], cols) != RowKey(last, cols);
          } else {
            assert r[i] == rest[i] && r[j] == rest[j];
            assert RowKey(rest[i], cols) != RowKey(rest[j], cols);
          }
        }
      }
    }
  }

  /** The first row of every combination of values in `cols` is kept. */
  lemma {:induction false} DedupKeepsFirst(rows: seq<Row>, cols: seq<string>)
    ensures forall i | 0 <= i < |rows| && FirstOfKey(rows, i, cols) :: rows[i] in DedupBy(rows, cols)
    decreases |rows|
  {
    if rows != [] {
      var init, last := rows[..|rows| - 1], rows[|rows| - 1];
      DedupKeepsFirst(init, cols);
      var rest := DedupBy(init, cols);
      assert rest <= DedupBy(rows, cols);
      forall i | 0 <= i < |rows| && FirstOfKey(rows, i, cols) ensures rows[i] in DedupBy(rows, cols) {
        if i < |init| {
          assert rows[i] == init[i];
          assert FirstOfKey(init, i, cols);
          assert rows[i] in rest;
        } else {
          assert i == |init| && rows[i] == last;
          forall k | 0 <= k < |init| ensures RowKey(init[k], cols) != RowKey(last, cols) {
            assert init[k] == rows[k];
          }
          assert DedupBy(rows, cols) == rest + [last];
        }
      }
    }
  }

  /** The rows among the first `n` of `rows` that are the first of their
      values in `cols`, in input order: the reference for `drop_duplicates`
      with `keep='first'`. */
  function FirstRows(rows: seq<Row>, cols: seq<string>, n: nat): (r: seq<Row>)
    requires n <= |rows|
    ensures |r| <= n
  {
    if n == 0 then []
    else FirstRows(rows, cols, n - 1) + (if FirstOfKey(rows, n - 1, cols) then [rows[n - 1]] else [])
  }

  /** Whether a row is the first of its key depends only on the rows before it. */
  lemma {:induction false} FirstRowsOfPrefix(rows: seq<Row>, cols: seq<string>, m: nat, n: nat)
    requires n <= m <= |rows|
    ensures FirstRows(rows[..m], cols, n) == FirstRows(rows, cols, n)
    decreases n
  {
    if n > 0 {
      FirstRowsOfPrefix(rows, cols, m, n - 1);
      assert rows[..m][n - 1] == rows[n - 1];
      assert FirstOfKey(rows[..m], n - 1, cols) == FirstOfKey(rows, n - 1, cols) by {
        forall j | 0 <= j < n - 1 ensures rows[..m][j] == rows[j] {
        }
      }
    }
  }

  /** De-duplication keeps exactly the first row of every key, and keeps
      those rows in their input order. */
  lemma {:induction false} DedupIsFirstRows(rows: seq<Row>, cols: seq<string>)
    ensures DedupBy(rows, cols) == FirstRows(rows, cols, |rows|)
    decreases |rows|
  {
    if rows != [] {
      var n := |rows| - 1;
      var init, last := rows[..n], rows[n];
      DedupIsFirstRows(init, cols);
      FirstRowsOfPrefix(rows, cols, n, n);
      LastFirstOfKey(rows, cols);
      var rest := FirstRows(rows, cols, n);
      assert FirstRows(rows, cols, n + 1) == rest + (if FirstOfKey(rows, n, cols) then [last] else []);
    }
  }

  /** The last row is the first of its key iff no earlier row shares it. */
  lemma LastFirstOfKey(rows: seq<Row>, cols: seq<string>)
    requires rows != []
    ensures var n := |rows| - 1;
      FirstOfKey(rows, n, cols) <==> !exists k | 0 <= k < n :: RowKey(rows[..n][k], cols) == RowKey(rows[n], cols)
  {
    var n := |rows| - 1;
    forall k | 0 <= k < n ensures rows[..n][k] == rows[k] {
    }
  }

  /** The first row with the same values in `cols` as row `i`. */
  lemma {:induction false} FirstKeyIndex(rows: seq<Row>, cols: seq<string>, i: int) returns (k: int)
    requires 0 <= i < |rows|
    ensures 0 <= k <= i && RowKey(rows[k], cols) == RowKey(rows[i], cols) && FirstOfKey(rows, k, cols)
    decreases i
  {
    if FirstOfKey(rows, i, cols) {
      k := i;
    } else {
      var j :| 0 <= j < i && RowKey(rows[j], cols) == RowKey(rows[i], cols);
      k := FirstKeyIndex(rows, cols, j);
    }
  }

  /** After de-duplication every combination of values of the input is
      still represented. */
  lemma DedupKeepsEveryKey(rows: seq<Row>, cols: seq<string>, i: int)
    requires 0 <= i < |rows|
    ensures exists x | x in DedupBy(rows, cols) :: RowKey(x, cols) == RowKey(rows[i], cols)
  {
    DedupKeepsFirst(rows, cols);
    var k := FirstKeyIndex(rows, cols, i);
    assert rows[k] in DedupBy(rows, cols);
  }

  /** `df[cols]`: the rows cut down to the columns `cols`. */
  function Restrict(row: Row, cols: seq<string>): Row {
    map c | c in cols :: Get(row, c)
  }

  function Project(t: Table, cols: seq<string>): (r: Table)
    ensures r.columns == cols && |r.rows| == |t.rows|
    ensures forall i | 0 <= i < |t.rows| :: r.rows[i] == Restrict(t.rows[i], cols)
  {
    Table(cols, seq(|t.rows|, i requires 0 <= i < |t.rows| => Restrict(t.rows[i], cols)),
          set c | c in t.timeCols && c in cols)
  }

  /** Two rows cut down to `cols` are equal when their values in `cols` are. */
  lemma RestrictedKeys(a: Row, b: Row, cols: seq<string>)
    requires RowKey(Restrict(a, cols), cols) == RowKey(Restrict(b, cols), cols)
    ensures Restrict(a, cols) == Restrict(b, cols)
  {
    var ra, rb := Restrict(a, cols), Restrict(b, cols);
    forall c | c in cols ensures ra[c] == rb[c] {
      var i :| 0 <= i < |cols| && cols[i] == c;
      assert RowKey(ra, cols)[i] == RowKey(rb, cols)[i];
    }
  }

  // ---------------------------------------------------------------------
  // create_site_location_mapping

  /** The distinct rows of the required columns the projects frame has; an
      empty frame when there is no projects frame or fewer than two of those
      columns. */
  function CreateSiteLocationMapping(projects: Option<Table>): (m: Table)
    ensures projects.None? ==> m == Empty
    ensures projects.Some? && |Present(RequiredCols, projects.value.columns)| < 2 ==> m == Empty
    ensures projects.Some? && |Present(RequiredCols, projects.value.columns)| >= 2 ==>
      m.columns == Present(RequiredCols, projects.value.columns)
  {
    if projects.None? then Empty
    else
      var existing := Present(RequiredCols, projects.value.columns);
      if |existing| < 2 then Empty
      else
        var p := Project(projects.value, existing);
        p.(rows := DedupBy(p.rows, existing))
  }

  /** The mapping holds every site row of the projects frame once: each
      projects row, cut down to the required columns, is a mapping row, every
      mapping row is such a cut-down row, and no two mapping rows are equal. */
  lemma MappingRowsAreDistinctProjections(projects: Table)
    requires |Present(RequiredCols, projects.columns)| >= 2
    ensures var existing := Present(RequiredCols, projects.columns);
            var m := CreateSiteLocationMapping(Some(projects));
            (forall i | 0 <= i < |projects.rows| :: Restrict(projects.rows[i], existing) in m.rows)
            && (forall x | x in m.rows :: exists i | 0 <= i < |projects.rows| :: x == Restrict(projects.rows[i], existing))
            && (forall i, j | 0 <= i < j < |m.rows| :: m.rows[i] != m.rows[j])
  {
    var existing := Present(RequiredCols, projects.columns);
    var p := Project(projects, existing);
    var m := CreateSiteLocationMapping(Some(projects));
    assert m.rows == DedupBy(p.rows, existing);
    DedupFromInput(p.rows, existing);
    DedupDistinct(p.rows, existing);
    DedupKeepsFirst(p.rows, existing);
    forall i | 0 <= i < |projects.rows| ensures Restrict(projects.rows[i], existing) in m.rows {
      var k := FirstKeyIndex(p.rows, existing, i);
      RestrictedKeys(projects.rows[k], projects.rows[i], existing);
    }
    forall x | x in m.rows ensures exists i | 0 <= i < |projects.rows| :: x == Restrict(projects.rows[i], existing) {
      var i :| 0 <= i < |p.rows| && p.rows[i] == x;
    }
  }

  // ---------------------------------------------------------------------
  // filter_averias_by_geography

  /** The options chosen in one multiselect; none when the selector is not
      shown. */
  type Selection = Option<seq<string>>

  /** Python truthiness of a selection: present and non-empty. */
  predicate Chosen(sel: Selection) {
    sel.Some? && sel.value != []
  }

  datatype GeoSelection = GeoSelection(region: Selection, provincia: Selection, distrito: Selection, localidad: Selection)

  /** `series.isin(values)` for text values: a missing cell is never in. */
  predicate IsIn(c: Cell, values: seq<string>) {
    c.Str? && c.s in values
  }

  /** A row passes the filter of one level when the level has no selection,
      the mapping has no such column, or its value is selected. */
  predicate Allows(row: Row, level: string, sel: Selection, cols: seq<string>) {
    Chosen(sel) && level in cols ==> IsIn(Get(row, level), sel.value)
  }

  function FilterLevel(m: Table, level: string, sel: Selection): (r: Table)
    ensures r.columns == m.columns && r.timeCols == m.timeCols
    ensures forall x :: x in r.rows <==> x in m.rows && Allows(x, level, sel, m.columns)
  {
    if Chosen(sel) && level in m.columns then Where(m, row => IsIn(Get(row, level), sel.value)) else m
  }

  /** The mapping rows that every chosen level allows. */
  function FilterMapping(m: Table, sel: GeoSelection): (r: Table)
    ensures r.columns == m.columns
    ensures forall x :: x in r.rows <==>
      x in m.rows
      && Allows(x, "Regi\U{F3}n", sel.region, m.columns) && Allows(x, "Provincia", sel.provincia, m.columns)
      && Allows(x, "Distrito", sel.distrito, m.columns) && Allows(x, "Localidad", sel.localidad, m.columns)
  {
    var byRegion := FilterLevel(m, "Regi\U{F3}n", sel.region);
    var byProvincia := FilterLevel(byRegion, "Provincia", sel.provincia);
    var byDistrito := FilterLevel(byProvincia, "Distrito", sel.distrito);
    FilterLevel(byDistrito, "Localidad", sel.localidad)
  }

  /** The rows of `rows` whose value in `col` is `k`, in order. */
  function RowsWithKey(rows: seq<Row>, col: string, k: Cell): (r: seq<Row>)
    ensures forall x :: x in r <==> x in rows && Get(x, col) == k
  {
    if rows == [] then []
    else (if Get(rows[0], col) == k then [rows[0]] else []) + RowsWithKey(rows[1..], col, k)
  }

  /** The first non-missing value of column `c` among `rows`. */
  function FirstNonNull(rows: seq<Row>, c: string): (v: Cell)
    ensures v != Null ==> exists x | x in rows :: Get(x, c) == v
    ensures v == Null ==> forall x | x in rows :: Get(x, c) == Null
  {
    if rows == [] then Null
    else if Get(rows[0], c) != Null then Get(rows[0], c)
    else FirstNonNull(rows[1..], c)
  }

  /** The distinct non-missing values of column `col`, in order of first
      appearance. */
  function DistinctKeys(rows: seq<Row>, col: string): (keys: seq<Cell>)
    ensures forall k :: k in keys <==> k != Null && exists x | x in rows :: Get(x, col) == k
    ensures forall i, j | 0 <= i < j < |keys| :: keys[i] != keys[j]
    decreases |rows|
  {
    if rows == [] then []
    else
      var init, last := rows[..|rows| - 1], rows[|rows| - 1];
      var rest := DistinctKeys(init, col);
      assert forall x | x in rows :: x in init || x == last;
      if Get(last, col) == Null || Get(last, col) in rest then rest else rest + [Get(last, col)]
  }

  /** The row `groupby(col).first()` makes for the group of key `k`. */
  function GroupRow(rows: seq<Row>, col: string, k: Cell, cols: seq<string>): (row: Row)
    ensures col in cols ==> Get(row, col) == k
    ensures forall c | c in cols && c != col :: Get(row, c) == FirstNonNull(RowsWithKey(rows, col, k), c)
  {
    map c | c in cols :: if c == col then k else FirstNonNull(RowsWithKey(rows, col, k), c)
  }

  /** `m.groupby(col).first().reset_index()`: one row per non-missing key,
      each column holding the first non-missing value of its group. */
  function GroupFirst(m: Table, col: string): (r: Table)
    requires col in m.columns
    ensures r.columns == [col] + Without(m.columns, col)
    ensures forall i, j | 0 <= i < j < |r.rows| :: Get(r.rows[i], col) != Get(r.rows[j], col)
    ensures forall i | 0 <= i < |r.rows| :: Get(r.rows[i], col) != Null
    ensures |r.rows| == |DistinctKeys(m.rows, col)|
    ensures forall i | 0 <= i < |r.rows| :: Get(r.rows[i], col) == DistinctKeys(m.rows, col)[i]
    ensures forall i, c | 0 <= i < |r.rows| && c in r.columns && c != col ::
      Get(r.rows[i], c) == FirstNonNull(RowsWithKey(m.rows, col, Get(r.rows[i], col)), c)
  {
    var keys := DistinctKeys(m.rows, col);
    var cols := [col] + Without(m.columns, col);
    var r := Table(cols, seq(|keys|, i requires 0 <= i < |keys| => GroupRow(m.rows, col, keys[i], cols)), {});
    assert forall i | 0 <= i < |keys| :: keys[i] in keys && Get(r.rows[i], col) == keys[i];
    assert forall i | 0 <= i < |keys| :: r.rows[i] == GroupRow(m.rows, col, keys[i], cols);
    r
  }

  /** Looking a key up among the grouped rows: a missing key has no row; a
      key some row carries finds the row of its group. */
  lemma LookupGroup(m: Table, col: string, v: Cell, c: string)
    requires col in m.columns && c in m.columns
    ensures var found := Lookup(GroupFirst(m, col).rows, col, v);
      (v == Null ==> found.None?)
      && ((v != Null && exists x | x in m.rows :: Get(x, col) == v) ==>
            found.Some? && Get(found.value, c) == if c == col then v else FirstNonNull(RowsWithKey(m.rows, col, v), c))
  {
    var g := GroupFirst(m, col);
    var found := Lookup(g.rows, col, v);
    if v == Null {
      forall x | x in g.rows ensures Get(x, col) != v {
        var q :| 0 <= q < |g.rows| && g.rows[q] == x;
      }
    } else if exists x | x in m.rows :: Get(x, col) == v {
      var keys := DistinctKeys(m.rows, col);
      assert v in keys;
      var p :| 0 <= p < |keys| && keys[p] == v;
      assert g.rows[p] in g.rows && Get(g.rows[p], col) == v;
      var q :| 0 <= q < |g.rows| && g.rows[q] == found.value;
      assert c in g.columns;
    }
  }

  /** The columns a left merge on `leftOn = rightOn` takes from the right
      frame: all of them, except the right key when both keys share a name. */
  function RightColumns(right: Table, leftOn: string, rightOn: string): seq<string> {
    if leftOn == rightOn then Without(right.columns, rightOn) else right.columns
  }

  /** A left row extended with the right columns of its match, or with
      missing values when it has none. */
  function Attach(l: Row, r: Option<Row>, rightCols: seq<string>): Row {
    l + map c | c in rightCols :: if r.Some? then Get(r.value, c) else Null
  }

  function MatchRows(l: Row, rights: seq<Row>, leftOn: string, rightOn: string, rightCols: seq<string>): seq<Row> {
    var ms := RowsWithKey(rights, rightOn, Get(l, leftOn));
    if ms == [] then [Attach(l, None, rightCols)]
    else seq(|ms|, i requires 0 <= i < |ms| => Attach(l, Some(ms[i]), rightCols))
  }

  function MergeRows(lefts: seq<Row>, rights: seq<Row>, leftOn: string, rightOn: string, rightCols: seq<string>): seq<Row> {
    if lefts == [] then []
    else MatchRows(lefts[0], rights, leftOn, rightOn, rightCols) + MergeRows(lefts[1..], rights, leftOn, rightOn, rightCols)
  }

  /** `left.merge(right, how="left", left_on=leftOn, right_on=rightOn)` for
      frames whose other column names do not clash: every left row once per
      matching right row, or once with missing values when none matches. */
  function MergeLeft(left: Table, right: Table, leftOn: string, rightOn: string): (r: Table)
    ensures r.columns == left.columns + RightColumns(right, leftOn, rightOn)
    ensures DistinctKeyed(right.rows, rightOn) ==>
      |r.rows| == |left.rows| &&
      forall i | 0 <= i < |left.rows| ::
        r.rows[i] == Attach(left.rows[i], Lookup(right.rows, rightOn, Get(left.rows[i], leftOn)), RightColumns(right, leftOn, rightOn))
  {
    var rightCols := RightColumns(right, leftOn, rightOn);
    var rows := MergeRows(left.rows, right.rows, leftOn, rightOn, rightCols);
    assert DistinctKeyed(right.rows, rightOn) ==>
      |rows| == |left.rows| &&
      forall i | 0 <= i < |left.rows| :: rows[i] == Attach(left.rows[i], Lookup(right.rows, rightOn, Get(left.rows[i], leftOn)), rightCols)
    by {
      if DistinctKeyed(right.rows, rightOn) {
        MergeKeepsRows(left.rows, right.rows, leftOn, rightOn, rightCols);
      }
    }
    Table(left.columns + rightCols, rows, left.timeCols)
  }

  /** The first right row with key `k`. */
  function Lookup(rights: seq<Row>, col: string, k: Cell): (r: Option<Row>)
    ensures r.Some? ==> r.value in rights && Get(r.value, col) == k
    ensures r.None? <==> forall x | x in rights :: Get(x, col) != k
  {
    if rights == [] then None
    else if Get(rights[0], col) == k then Some(rights[0])
    else Lookup(rights[1..], col, k)
  }

  predicate DistinctKeyed(rows: seq<Row>, col: string) {
    forall i, j | 0 <= i < j < |rows| :: Get(rows[i], col) != Get(rows[j], col)
  }

  /** With distinct right keys a key matches at most one right row. */
  lemma {:induction false} AtMostOneMatch(rights: seq<Row>, col: string, k: Cell)
    requires DistinctKeyed(rights, col)
    ensures RowsWithKey(rights, col, k) == if Lookup(rights, col, k).Some? then [Lookup(rights, col, k).value] else []
  {
    if rights != [] {
      var rest := rights[1..];
      assert DistinctKeyed(rest, col) by {
        forall i, j | 0 <= i < j < |rest| ensures Get(rest[i], col) != Get(rest[j], col) {
          assert rest[i] == rights[i + 1] && rest[j] == rights[j + 1];
        }
      }
      AtMostOneMatch(rest, col, k);
      if Get(rights[0], col) == k {
        forall j | 0 <= j < |rest| ensures Get(rest[j], col) != k {
          assert rest[j] == rights[j + 1];
        }
        assert Lookup(rest, col, k).None?;
      }
    }
  }

  /** Against distinct right keys a left row gives exactly one merged row. */
  lemma MatchOne(l: Row, rights: seq<Row>, leftOn: string, rightOn: string, rightCols: seq<string>)
    requires DistinctKeyed(rights, rightOn)
    ensures MatchRows(l, rights, leftOn, rightOn, rightCols) == [Attach(l, Lookup(rights, rightOn, Get(l, leftOn)), rightCols)]
  {
    AtMostOneMatch(rights, rightOn, Get(l, leftOn));
  }

  /** A left merge against distinct right keys keeps one row per left row,
      in order, each the left row with its match attached. */
  lemma {:induction false} MergeKeepsRows(lefts: seq<Row>, rights: seq<Row>, leftOn: string, rightOn: string, rightCols: seq<string>)
    requires DistinctKeyed(rights, rightOn)
    ensures var r := MergeRows(lefts, rights, leftOn, rightOn, rightCols);
            |r| == |lefts| &&
            forall i | 0 <= i < |lefts| :: r[i] == Attach(lefts[i], Lookup(rights, rightOn, Get(lefts[i], leftOn)), rightCols)
  {
    if lefts != [] {
      MatchOne(lefts[0], rights, leftOn, rightOn, rightCols);
      var head := MatchRows(lefts[0], rights, leftOn, rightOn, rightCols);
      var rest := MergeRows(lefts[1..], rights, leftOn, rightOn, rightCols);
      MergeKeepsRows(lefts[1..], rights, leftOn, rightOn, rightCols);
      var r := MergeRows(lefts, rights, leftOn, rightOn, rightCols);
      assert r == head + rest;
      forall i | 1 <= i < |lefts|
        ensures r[i] == Attach(lefts[i], Lookup(rights, rightOn, Get(lefts[i], leftOn)), rightCols)
      {
        assert r[i] == rest[i - 1] && lefts[1..][i - 1] == lefts[i];
      }
    }
  }

  /** Attaching right columns keeps every left value in a column the right
      side does not bring. */
  lemma AttachKeepsLeft(l: Row, r: Option<Row>, rightCols: seq<string>, c: string)
    requires c !in rightCols
    ensures Get(Attach(l, r, rightCols), c) == Get(l, c)
  {
  }

  /** Attaching takes each right column from the match, or a missing value
      without one. */
  lemma AttachTakesRight(l: Row, r: Option<Row>, rightCols: seq<string>, c: string)
    requires c in rightCols
    ensures Get(Attach(l, r, rightCols), c) == if r.Some? then Get(r.value, c) else Null
  {
  }

  /** Outcome of the geographic filter: a frame, or the `KeyError` raised
      when the mapping has no `SITE_NAME` column. */
  datatype GeoOutcome = Filtered(table: Table) | MissingSiteName

  /** The fault frame brings none of the mapping's columns other than the
      join key itself. */
  predicate NoClash(faults: Table) {
    (forall c | c in RequiredCols && c != "SITE_NAME" :: c !in faults.columns)
    && ("SITE_NAME" in faults.columns ==> FindSiteColumn(Some(faults)) == Some("SITE_NAME"))
  }

  /** The mapping rows the selection allows. */
  function SiteMapping(projects: Table, sel: GeoSelection): Table {
    FilterMapping(CreateSiteLocationMapping(Some(projects)), sel)
  }

  /** The SITE_NAMEs of the mapping rows the selection allows. */
  function ValidSites(projects: Table, sel: GeoSelection): (sites: seq<Cell>)
  {
    Column(SiteMapping(projects, sel), "SITE_NAME")
  }

  /** The geography a fault with site value `v` receives in column `c` of
      the mapping: the site itself in `SITE_NAME`, the first non-missing
      value of its site's mapping rows elsewhere, missing values throughout
      when the site is missing. */
  function SiteValue(mapping: Table, v: Cell, c: string): Cell {
    if v == Null then Null
    else if c == "SITE_NAME" then v
    else FirstNonNull(RowsWithKey(mapping.rows, "SITE_NAME", v), c)
  }

  /** The faults whose site is one of the valid sites, before the geography
      is attached. */
  function KeptFaults(faults: Table, site: string, sites: seq<Cell>): (r: Table)
    ensures r.columns == faults.columns
    ensures forall x :: x in r.rows <==> x in faults.rows && Get(x, site) in sites
  {
    Where(faults, row => Get(row, site) in sites)
  }

  /** `filter_averias_by_geography`: without a projects frame, with fewer
      than two required columns, or without a site column in the faults, the
      faults unchanged; a mapping without `SITE_NAME` raises; otherwise the
      faults whose site survives the selection, each with the geography of
      its site attached. */
  function FilterAveriasByGeography(faults: Table, projects: Option<Table>, sel: GeoSelection): (r: GeoOutcome)
    requires NoClash(faults)
    ensures projects.None? ==> r == Filtered(faults)
    ensures projects.Some? && |Present(RequiredCols, projects.value.columns)| < 2 ==> r == Filtered(faults)
    ensures r == MissingSiteName <==>
      projects.Some? && |Present(RequiredCols, projects.value.columns)| >= 2 && "SITE_NAME" !in projects.value.columns
    ensures projects.Some? && "SITE_NAME" in projects.value.columns && FindSiteColumn(Some(faults)).None? ==>
      r == Filtered(faults)
  {
    if projects.None? then Filtered(faults)
    else
      var existing := Present(RequiredCols, projects.value.columns);
      if |existing| < 2 then Filtered(faults)
      else
        var mapping := FilterMapping(CreateSiteLocationMapping(projects), sel);
        if "SITE_NAME" !in mapping.columns then MissingSiteName
        else match FindSiteColumn(Some(faults))
          case None => Filtered(faults)
          case Some(site) =>
            var kept := KeptFaults(faults, site, Column(mapping, "SITE_NAME"));
            Filtered(MergeLeft(kept, GroupFirst(mapping, "SITE_NAME"), site, "SITE_NAME"))
  }

  /** The filter neither drops nor duplicates a surviving fault: the result
      has one row per fault whose site is valid, in order, with every fault
      column unchanged. */
  lemma GeographyKeepsEachFaultOnce(faults: Table, projects: Table, sel: GeoSelection)
    requires NoClash(faults)
    requires |Present(RequiredCols, projects.columns)| >= 2 && "SITE_NAME" in projects.columns
    requires FindSiteColumn(Some(faults)).Some?
    ensures var site := FindSiteColumn(Some(faults)).value;
            var kept := KeptFaults(faults, site, ValidSites(projects, sel));
            var r := FilterAveriasByGeography(faults, Some(projects), sel);
            r.Filtered? && |r.table.rows| == |kept.rows|
            && forall i, c | 0 <= i < |kept.rows| && c in faults.columns :: Get(r.table.rows[i], c) == Get(kept.rows[i], c)
  {
    var site := FindSiteColumn(Some(faults)).value;
    var mapping := FilterMapping(CreateSiteLocationMapping(Some(projects)), sel);
    var kept := KeptFaults(faults, site, ValidSites(projects, sel));
    var info := GroupFirst(mapping, "SITE_NAME");
    var rightCols := RightColumns(info, site, "SITE_NAME");
    var r := FilterAveriasByGeography(faults, Some(projects), sel);
    assert r == Filtered(MergeLeft(kept, info, site, "SITE_NAME"));
    MergeKeepsRows(kept.rows, info.rows, site, "SITE_NAME", rightCols);
    forall i, c | 0 <= i < |kept.rows| && c in faults.columns
      ensures Get(r.table.rows[i], c) == Get(kept.rows[i], c)
    {
      assert c !in rightCols;
      AttachKeepsLeft(kept.rows[i], Lookup(info.rows, "SITE_NAME", Get(kept.rows[i], site)), rightCols, c);
    }
  }

  /** Each surviving fault carries the geography of its site: for every
      mapping column it does not already hold, the value `SiteValue` gives. */
  lemma GeographyAttachesSiteInfo(faults: Table, projects: Table, sel: GeoSelection)
    requires NoClash(faults)
    requires |Present(RequiredCols, projects.columns)| >= 2 && "SITE_NAME" in projects.columns
    requires FindSiteColumn(Some(faults)).Some?
    ensures var site := FindSiteColumn(Some(faults)).value;
            var mapping := SiteMapping(projects, sel);
            var kept := KeptFaults(faults, site, Column(mapping, "SITE_NAME"));
            var r := FilterAveriasByGeography(faults, Some(projects), sel);
            r.Filtered? && |r.table.rows| == |kept.rows|
            && forall i, c | 0 <= i < |kept.rows| && c in mapping.columns && c != site ::
                 Get(r.table.rows[i], c) == SiteValue(mapping, Get(kept.rows[i], site), c)
  {
    var site := FindSiteColumn(Some(faults)).value;
    var mapping := SiteMapping(projects, sel);
    assert mapping.columns == Present(RequiredCols, projects.columns);
    assert "SITE_NAME" in mapping.columns;
    var kept := KeptFaults(faults, site, Column(mapping, "SITE_NAME"));
    var info := GroupFirst(mapping, "SITE_NAME");
    var rightCols := RightColumns(info, site, "SITE_NAME");
    var r := FilterAveriasByGeography(faults, Some(projects), sel);
    assert r == Filtered(MergeLeft(kept, info, site, "SITE_NAME"));
    assert DistinctKeyed(info.rows, "SITE_NAME");
    forall i, c | 0 <= i < |kept.rows| && c in mapping.columns && c != site
      ensures Get(r.table.rows[i], c) == SiteValue(mapping, Get(kept.rows[i], site), c)
    {
      assert c in RequiredCols;
      assert kept.rows[i] in kept.rows;
      AttachedSiteValue(mapping, kept.rows[i], site, c);
    }
  }

  /** One fault row after the join, in one attached mapping column. */
  lemma AttachedSiteValue(mapping: Table, l: Row, site: string, c: string)
    requires "SITE_NAME" in mapping.columns && c in mapping.columns
    requires c != site && (c != "SITE_NAME" ==> c in RequiredCols && c != "SITE_NAME")
    requires Get(l, site) in Column(mapping, "SITE_NAME")
    ensures var info := GroupFirst(mapping, "SITE_NAME");
            var rightCols := RightColumns(info, site, "SITE_NAME");
            c in rightCols &&
            Get(Attach(l, Lookup(info.rows, "SITE_NAME", Get(l, site)), rightCols), c) == SiteValue(mapping, Get(l, site), c)
  {
    var v := Get(l, site);
    var info := GroupFirst(mapping, "SITE_NAME");
    var rightCols := RightColumns(info, site, "SITE_NAME");
    assert c in info.columns;
    assert c in rightCols;
    AttachTakesRight(l, Lookup(info.rows, "SITE_NAME", v), rightCols, c);
    LookupGroup(mapping, "SITE_NAME", v, c);
    if v != Null {
      var j :| 0 <= j < |mapping.rows| && Column(mapping, "SITE_NAME")[j] == v;
      assert mapping.rows[j] in mapping.rows && Get(mapping.rows[j], "SITE_NAME") == v;
    }
  }

  // ---------------------------------------------------------------------
  // create_averias_dashboard: formatting

  /** The geographic and status columns, after the column names are lower-cased. */
  const GeoNames: seq<string> := ["regi\U{F3}n", "provincia", "distrito", "localidad", "region"]
  const StatusNames: seq<string> := ["alarm_status", "status", "estado"]

  /** No two column names become equal when lower-cased. */
  predicate LowerInjective(cols: seq<string>) {
    forall a, b | a in cols && b in cols && Lower(a) == Lower(b) :: a == b
  }

  /** A row re-keyed by the lower-cased column names. */
  function LowerRow(row: Row, cols: seq<string>): (r: Row)
    requires LowerInjective(cols)
    ensures forall c | c in cols :: Lower(c) in r && r[Lower(c)] == Get(row, c)
    ensures forall d | d in r :: exists c | c in cols :: Lower(c) == d && r[d] == Get(row, c)
  {
    map c | c in cols :: Lower(c) := Get(row, c)
  }

  /** `df.columns = df.columns.str.lower()`. */
  function LowerColumns(t: Table): (r: Table)
    requires LowerInjective(t.columns)
    ensures |r.columns| == |t.columns| && forall i | 0 <= i < |t.columns| :: r.columns[i] == Lower(t.columns[i])
    ensures |r.rows| == |t.rows|
    ensures forall c | c in t.columns :: Column(r, Lower(c)) == Column(t, c)
  {
    var r := Table(seq(|t.columns|, i requires 0 <= i < |t.columns| => Lower(t.columns[i])),
                   seq(|t.rows|, i requires 0 <= i < |t.rows| => LowerRow(t.rows[i], t.columns)),
                   set c | c in t.timeCols && c in t.columns :: Lower(c));
    forall c | c in t.columns ensures Column(r, Lower(c)) == Column(t, c) {
      forall i | 0 <= i < |t.rows| ensures Column(r, Lower(c))[i] == Column(t, c)[i] {
        assert r.rows[i] == LowerRow(t.rows[i], t.columns);
      }
    }
    r
  }

  lemma LowerColumnsTextOnly(t: Table)
    requires TextOnly(t) && LowerInjective(t.columns)
    ensures TextOnly(LowerColumns(t))
  {
    var r := LowerColumns(t);
    forall i, d | 0 <= i < |r.rows| && d in r.rows[i] ensures r.rows[i][d].Null? || r.rows[i][d].Str? {
      assert r.rows[i] == LowerRow(t.rows[i], t.columns);
      var c :| c in t.columns && Lower(c) == d && r.rows[i][d] == Get(t.rows[i], c);
    }
  }

  /** What the formatting makes of the cells of the column named `name`
      (after lower-casing): upper-cased text for a geographic column,
      lower-cased text for a status column, unchanged otherwise. */
  function FormattedCells(name: string, cells: seq<Cell>): seq<Cell>
    requires TextCells(cells)
  {
    if name in GeoNames then Recased(cells, Upper)
    else if name in StatusNames then Recased(cells, Lower)
    else cells
  }

  lemma LoweredNamePresent(t: Table, c: string)
    requires LowerInjective(t.columns) && c in t.columns
    ensures Lower(c) in LowerColumns(t).columns
  {
    var i :| 0 <= i < |t.columns| && t.columns[i] == c;
    assert LowerColumns(t).columns[i] == Lower(c);
  }

  /** Column names lower-cased, geographic columns upper-cased and status
      columns lower-cased as text, every other column untouched. */
  method FormatFaults(t: Table) returns (r: Table)
    requires TextOnly(t) && LowerInjective(t.columns)
    ensures |r.columns| == |t.columns| && forall i | 0 <= i < |t.columns| :: r.columns[i] == Lower(t.columns[i])
    ensures |r.rows| == |t.rows| && TextOnly(r)
    ensures forall c | c in t.columns ::
      (TextColumn(t, c); Column(r, Lower(c)) == FormattedCells(Lower(c), Column(t, c)))
  {
    var lowered := LowerColumns(t);
    LowerColumnsTextOnly(t);
    var geo := RecaseColumns(lowered, GeoNames, Upper);
    r := RecaseColumns(geo, StatusNames, Lower);
    forall c | c in t.columns
      ensures (TextColumn(t, c); Column(r, Lower(c)) == FormattedCells(Lower(c), Column(t, c)))
    {
      var n := Lower(c);
      LoweredNamePresent(t, c);
      TextColumn(t, c);
      assert Column(lowered, n) == Column(t, c);
      if n in GeoNames {
        assert n !in StatusNames;
        assert Column(geo, n) == Recased(Column(lowered, n), Upper);
        assert Column(r, n) == Column(geo, n);
      } else if n in StatusNames {
        assert Column(geo, n) == Column(lowered, n);
        assert Column(r, n) == Recased(Column(geo, n), Lower);
      } else {
        assert Column(geo, n) == Column(lowered, n);
        assert Column(r, n) == Column(geo, n);
      }
    }
  }

  /** The calendar columns of `t` are those of its `start_time` column. */
  predicate DerivedFromStart(t: Table) {
    (forall d | d in DerivedFields :: d in t.columns)
    && Column(t, "hour") == MapCells(Column(t, "start_time"), HourCell)
    && Column(t, "date") == MapCells(Column(t, "start_time"), DateCell)
    && Column(t, "day_of_week") == MapCells(Column(t, "start_time"), DayNameCell)
    && Column(t, "month") == MapCells(Column(t, "start_time"), MonthCell)
    && Column(t, "year") == MapCells(Column(t, "start_time"), YearCell)
  }

  /** The fault frame prepared for the dashboard: formatted, then
      `start_time` parsed with the derived calendar columns and `end_time`
      parsed without them. `startOk` reports whether any start time parsed,
      in which case `start_time` is a datetime column whose calendar columns
      sit beside it; `duration_minutes` is the difference of the two times
      whenever both are datetime columns. */
  method PrepareFaults(t: Table, parse: (string, string) -> Option<DateTime>) returns (r: Table, startOk: bool)
    requires TextOnly(t) && LowerInjective(t.columns)
    ensures |r.rows| == |t.rows|
    ensures startOk ==> IsDatetimeColumn(r, "start_time") && DerivedFromStart(r)
    ensures IsDatetimeColumn(r, "start_time") && IsDatetimeColumn(r, "end_time") ==>
      "duration_minutes" in r.columns && Column(r, "duration_minutes") == Durations(r)
  {
    var formatted := FormatFaults(t);
    var started;
    started, startOk := ParseStartTime(formatted, parse);
    r := ParseEndTime(started, parse);
    if startOk {
      assert Same(r, started, "start_time");
      assert Same(r, started, "hour") && Same(r, started, "date") && Same(r, started, "day_of_week");
      assert Same(r, started, "month") && Same(r, started, "year");
    }
  }

  /** `parse_datetime_column(df, "start_time")`, as far as the dashboard
      relies on it. */
  method ParseStartTime(t: Table, parse: (string, string) -> Option<DateTime>) returns (r: Table, ok: bool)
    ensures |r.rows| == |t.rows|
    ensures ok ==> IsDatetimeColumn(r, "start_time") && DerivedFromStart(r)
  {
    r, ok := ParseDatetimeColumn(t, "start_time", DefaultDateFormat, parse, true);
  }

  /** `parse_datetime_column(df, "end_time", create_derived_fields=False)`
      leaves `start_time` and the calendar columns as they were, and adds
      the duration when both times are datetime columns. */
  method ParseEndTime(t: Table, parse: (string, string) -> Option<DateTime>) returns (r: Table)
    ensures |r.rows| == |t.rows|
    ensures Same(r, t, "start_time")
    ensures forall d | d in DerivedFields :: Same(r, t, d)
    ensures IsDatetimeColumn(r, "start_time") && IsDatetimeColumn(r, "end_time") ==>
      "duration_minutes" in r.columns && Column(r, "duration_minutes") == Durations(r)
  {
    var endOk;
    r, endOk := ParseDatetimeColumn(t, "end_time", DefaultDateFormat, parse, false);
  }

  // ---------------------------------------------------------------------
  // create_averias_dashboard: narrowing the fault table

  /** The geographic filters are drawn when a projects frame has at least one
      geographic column. */
  predicate GeoFiltersShown(projects: Option<Table>) {
    projects.Some? &&
    ("Regi\U{F3}n" in projects.value.columns || "Provincia" in projects.value.columns
     || "Distrito" in projects.value.columns || "Localidad" in projects.value.columns)
  }

  predicate AnyChosen(sel: GeoSelection) {
    Chosen(sel.region) || Chosen(sel.provincia) || Chosen(sel.distrito) || Chosen(sel.localidad)
  }

  /** The geographic stage: the geographic filter when its selectors are
      drawn and something is chosen, all processed faults otherwise. */
  function GeoStage(processed: Table, projects: Option<Table>, sel: GeoSelection): (r: GeoOutcome)
    requires NoClash(processed)
    ensures !(GeoFiltersShown(projects) && AnyChosen(sel)) ==> r == Filtered(processed)
    ensures GeoFiltersShown(projects) && AnyChosen(sel) ==> r == FilterAveriasByGeography(processed, projects, sel)
  {
    if GeoFiltersShown(projects) && AnyChosen(sel) then FilterAveriasByGeography(processed, projects, sel)
    else Filtered(processed)
  }

  /** One fault per `alarm_id` when the frame has that column. */
  function Deduped(t: Table): (r: Table)
    ensures r.columns == t.columns
    ensures forall x | x in r.rows :: x in t.rows
    ensures "alarm_id" in t.columns ==> KeysDistinct(r.rows, ["alarm_id"])
    ensures "alarm_id" in t.columns ==>
      forall i | 0 <= i < |t.rows| && FirstOfKey(t.rows, i, ["alarm_id"]) :: t.rows[i] in r.rows
    ensures "alarm_id" in t.columns ==> r.rows == FirstRows(t.rows, ["alarm_id"], |t.rows|)
    ensures "alarm_id" !in t.columns ==> r == t
  {
    if "alarm_id" in t.columns then
      DedupFromInput(t.rows, ["alarm_id"]);
      DedupDistinct(t.rows, ["alarm_id"]);
      DedupKeepsFirst(t.rows, ["alarm_id"]);
      DedupIsFirstRows(t.rows, ["alarm_id"]);
      t.(rows := DedupBy(t.rows, ["alarm_id"]))
    else t
  }

  /** The start date of a fault lies in the inclusive range; a missing start
      time never does. */
  predicate InRange(row: Row, inicio: Date, fin: Date) {
    Get(row, "start_time").Time? &&
    DateLe(inicio, DateOf(Get(row, "start_time").t)) && DateLe(DateOf(Get(row, "start_time").t), fin)
  }

  /** The date filter applies when `start_time` is a column, its conversion
      succeeded and the chosen start is not after the chosen end. */
  predicate DateFilterApplies(t: Table, startOk: bool, inicio: Date, fin: Date) {
    "start_time" in t.columns && startOk && DateLe(inicio, fin)
  }

  function DateFiltered(t: Table, startOk: bool, inicio: Date, fin: Date): (r: Table)
    ensures r.columns == t.columns
    ensures forall x :: x in r.rows <==> x in t.rows && (DateFilterApplies(t, startOk, inicio, fin) ==> InRange(x, inicio, fin))
    ensures !DateFilterApplies(t, startOk, inicio, fin) ==> r == t
  {
    if DateFilterApplies(t, startOk, inicio, fin) then Where(t, row => InRange(row, inicio, fin)) else t
  }

  /** The site filter applies when the frame has a site column with at least
      one value (the selector is drawn) and some site is selected. */
  predicate SiteFilterApplies(t: Table, sites: seq<string>) {
    FindSiteColumn(Some(t)).Some? && sites != []
    && exists x | x in t.rows :: Get(x, FindSiteColumn(Some(t)).value) != Null
  }

  function SiteFiltered(t: Table, sites: seq<string>): (r: Table)
    ensures r.columns == t.columns
    ensures forall x :: x in r.rows <==>
      x in t.rows && (SiteFilterApplies(t, sites) ==> IsIn(Get(x, FindSiteColumn(Some(t)).value), sites))
    ensures !SiteFilterApplies(t, sites) ==> r == t
  {
    if SiteFilterApplies(t, sites) then
      var site := FindSiteColumn(Some(t)).value;
      Where(t, row => IsIn(Get(row, site), sites))
    else t
  }

  lemma ConsKeysDistinct(x: Row, tail: seq<Row>, cols: seq<string>)
    requires KeysDistinct(tail, cols)
    requires forall y | y in tail :: RowKey(y, cols) != RowKey(x, cols)
    ensures KeysDistinct([x] + tail, cols)
  {
    var r := [x] + tail;
    forall i, j | 0 <= i < j < |r| ensures RowKey(r[i], cols) != RowKey(r[j], cols) {
      assert r[j] == tail[j - 1];
      if i == 0 {
        assert tail[j - 1] in tail;
      } else {
        assert r[i] == tail[i - 1];
      }
    }
  }

  /** Filtering keeps distinct keys distinct. */
  lemma {:induction false} FilterKeepsKeysDistinct(rows: seq<Row>, keep: Row -> bool, cols: seq<string>)
    requires KeysDistinct(rows, cols)
    ensures KeysDistinct(FilterRows(rows, keep), cols)
    decreases |rows|
  {
    if rows != [] {
      var rest := rows[1..];
      assert KeysDistinct(rest, cols) by {
        forall i, j | 0 <= i < j < |rest| ensures RowKey(rest[i], cols) != RowKey(rest[j], cols) {
          assert rest[i] == rows[i + 1] && rest[j] == rows[j + 1];
        }
      }
      FilterKeepsKeysDistinct(rest, keep, cols);
      var tail := FilterRows(rest, keep);
      if keep(rows[0]) {
        var key := RowKey(rows[0], cols);
        forall y | y in rest ensures RowKey(y, cols) != key {
          var k :| 0 <= k < |rest| && rest[k] == y;
          assert rows[k + 1] == y;
        }
        assert forall y | y in tail :: y in rest;
        ConsKeysDistinct(rows[0], tail, cols);
        assert FilterRows(rows, keep) == [rows[0]] + tail;
      } else {
        assert FilterRows(rows, keep) == tail;
      }
    }
  }

  /** The table the dashboard lists: the geographic stage, then one fault per
      alarm, then the date range, then the site selection, each reassigning
      the working frame. None stands for the `KeyError` of the geographic
      filter. */
  method FilterFaults(processed: Table, startOk: bool, projects: Option<Table>, sel: GeoSelection,
                      inicio: Date, fin: Date, sites: seq<string>) returns (r: Option<Table>)
    requires NoClash(processed)
    ensures r.None? <==> GeoStage(processed, projects, sel).MissingSiteName?
    ensures r.Some? ==> var g := GeoStage(processed, projects, sel).table;
      r.value == SiteFiltered(DateFiltered(Deduped(g), startOk, inicio, fin), sites)
    ensures r.Some? ==> forall x | x in r.value.rows :: x in GeoStage(processed, projects, sel).table.rows
    ensures r.Some? && "alarm_id" in r.value.columns ==> KeysDistinct(r.value.rows, ["alarm_id"])
  {
    var geo := GeoStage(processed, projects, sel);
    if geo.MissingSiteName? {
      return None;
    }
    var filtrado := Deduped(geo.table);
    var temp := DateFiltered(filtrado, startOk, inicio, fin);
    var dated := temp;
    temp := SiteFiltered(temp, sites);
    if "alarm_id" in temp.columns {
      if DateFilterApplies(filtrado, startOk, inicio, fin) {
        FilterKeepsKeysDistinct(filtrado.rows, row => InRange(row, inicio, fin), ["alarm_id"]);
      }
      if SiteFilterApplies(dated, sites) {
        var site := FindSiteColumn(Some(dated)).value;
        FilterKeepsKeysDistinct(dated.rows, row => IsIn(Get(row, site), sites), ["alarm_id"]);
      }
    }
    r := Some(temp);
  }
}

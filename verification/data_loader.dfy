/** Dataset slots, file-name classification and the column clean-up applied
    after a CSV is read (utils/data_loader.py). */
module DataLoader {
  import opened Text
  import opened Frame

  // ---------------------------------------------------------------------
  // initialize_session_state

  /** The seven dataset slots, in the order the store lists them. */
  const DatasetKeys: seq<string> :=
    ["Averias", "Desempe\U{F1}o", "Configuration", "Provision", "Disponibilidad", "Calidad", "Proyectos"]

  /** The store `initialize_session_state` creates: every slot empty. */
  function EmptyStore(): (m: map<string, Option<Table>>)
    ensures forall k :: k in m <==> k in DatasetKeys
    ensures forall k | k in m :: m[k].None?
  {
    map k | k in DatasetKeys :: None
  }

  /** The part of the session state the loader owns: the dataset store,
      absent until it is first initialised. */
  class SessionState {
    var datasets: Option<map<string, Option<Table>>>

    /** A fresh session holds no store. */
    constructor()
      ensures datasets.None?
    {
      datasets := None;
    }

    /** Creates the empty store only when there is none; an existing store,
        with whatever it holds, is left alone. */
    method InitializeSessionState()
      modifies this
      ensures old(datasets).None? ==> datasets == Some(EmptyStore())
      ensures old(datasets).Some? ==> datasets == old(datasets)
    {
      if datasets.None? {
        datasets := Some(EmptyStore());
      }
    }
  }

  // ---------------------------------------------------------------------
  // detect_dataset_type

  /** Python's `sub in s` on strings. */
  predicate IsSubstring(sub: string, s: string) {
    exists i | 0 <= i <= |s| - |sub| :: OccursAt(s, sub, i)
  }

  /** The detection rules in the order they are tried. */
  const Rules: seq<(string, seq<string>)> := [
    ("Averias", ["averia", "alarm", "fault"]),
    ("Desempe\U{F1}o", ["desempe", "performance", "kpi"]),
    ("Configuration", ["config", "configuracion"]),
    ("Provision", ["provision", "provisi"]),
    ("Disponibilidad", ["dispon", "availability"]),
    ("Calidad", ["calidad", "quality"]),
    ("Proyectos", ["proyecto", "project", "site"])
  ]

  /** Some keyword of `keywords` occurs in `name`. */
  predicate AnyKeyword(keywords: seq<string>, name: string) {
    exists j | 0 <= j < |keywords| :: IsSubstring(keywords[j], name)
  }

  /** The first rule, from position `from` on, with a keyword in `name`. */
  function FirstRule(name: string, from: nat): (k: Option<nat>)
    requires from <= |Rules|
    ensures k.Some? ==> from <= k.value < |Rules| && AnyKeyword(Rules[k.value].1, name)
    ensures forall j | from <= j < |Rules| && (k.None? || j < k.value) :: !AnyKeyword(Rules[j].1, name)
    decreases |Rules| - from
  {
    if from == |Rules| then None
    else if AnyKeyword(Rules[from].1, name) then Some(from)
    else FirstRule(name, from + 1)
  }

  /** Classifies a file by its lower-cased name: the first category, in rule
      order, with a keyword that is a substring of the name. */
  function DetectDatasetType(filename: string): (r: Option<string>)
    ensures r.Some? <==> exists k | 0 <= k < |Rules| :: AnyKeyword(Rules[k].1, Lower(filename))
    ensures r.Some? ==> exists k | 0 <= k < |Rules| ::
      (Rules[k].0 == r.value && AnyKeyword(Rules[k].1, Lower(filename))
       && forall j | 0 <= j < k :: !AnyKeyword(Rules[j].1, Lower(filename)))
  {
    match FirstRule(Lower(filename), 0)
    case None => None
    case Some(k) => Some(Rules[k].0)
  }

  /** The category detected is always one of the store's slots. */
  lemma DetectedTypeIsSlot(filename: string)
    ensures DetectDatasetType(filename).Some? ==> DetectDatasetType(filename).value in EmptyStore()
  {
    var r := DetectDatasetType(filename);
    if r.Some? {
      var k :| 0 <= k < |Rules| && Rules[k].0 == r.value;
      assert Rules[k].0 == DatasetKeys[k];
    }
  }

  /** A fault keyword decides the category whatever else the name holds:
      "alarm" together with "site" still gives Averias. */
  lemma FaultKeywordWins(filename: string, j: nat)
    requires j < 3 && IsSubstring(Rules[0].1[j], Lower(filename))
    ensures DetectDatasetType(filename) == Some("Averias")
  {
    assert AnyKeyword(Rules[0].1, Lower(filename));
  }

  /** Earlier rules win: a name matching rule `j` is classified by rule `j`
      or by an earlier one. */
  lemma {:induction false} EarlierRuleWins(filename: string, j: nat)
    requires j < |Rules| && AnyKeyword(Rules[j].1, Lower(filename))
    ensures DetectDatasetType(filename).Some?
    ensures exists k | 0 <= k <= j :: DetectDatasetType(filename) == Some(Rules[k].0)
  {
    var k := FirstRule(Lower(filename), 0);
    assert k.Some? && k.value <= j;
    assert DetectDatasetType(filename) == Some(Rules[k.value].0);
  }

  // ---------------------------------------------------------------------
  // clean_and_reorder_columns

  predicate Distinct(s: seq<string>) {
    forall i, j | 0 <= i < j < |s| :: s[i] != s[j]
  }

  /** The first column whose lower-cased name is `name`. */
  function FirstLowerName(cols: seq<string>, name: string): (r: Option<string>)
    ensures r.Some? ==> r.value in cols && Lower(r.value) == name
    ensures r.None? <==> forall c | c in cols :: Lower(c) != name
  {
    if cols == [] then None
    else if Lower(cols[0]) == name then Some(cols[0])
    else FirstLowerName(cols[1..], name)
  }

  /** `list.remove(x)`: drops the first occurrence of `x`. */
  function RemoveFirst(s: seq<string>, x: string): (r: seq<string>)
    ensures x in s ==> multiset(r) == multiset(s) - multiset{x}
    ensures x !in s ==> r == s
  {
    if s == [] then []
    else
      assert s == [s[0]] + s[1..];
      if s[0] == x then s[1..] else [s[0]] + RemoveFirst(s[1..], x)
  }

  /** The elements of `s` outside `x`, in their order. */
  function Except(s: seq<string>, x: set<string>): (r: seq<string>)
    ensures forall c :: c in r <==> c in s && c !in x
  {
    if s == [] then [] else (if s[0] in x then [] else [s[0]]) + Except(s[1..], x)
  }

  /** The columns left once the first `start_time.1` (in any case) is gone. */
  function Kept(cols: seq<string>): seq<string> {
    match FirstLowerName(cols, "start_time.1")
    case None => cols
    case Some(c) => Without(cols, c)
  }

  /** The first column whose lower-cased name is `name`, as a list of at
      most one name. */
  function Named(cols: seq<string>, name: string): seq<string> {
    match FirstLowerName(cols, name) case None => [] case Some(c) => [c]
  }

  function NamedSet(cols: seq<string>, name: string): (x: set<string>)
    ensures forall c :: c in x <==> c in Named(cols, name)
  {
    match FirstLowerName(cols, name) case None => {} case Some(c) => {c}
  }

  /** The columns moved to the front: `start_time`, then `end_time`, each
      the first column with that lower-cased name. */
  function Priority(cols: seq<string>): (p: seq<string>)
    ensures forall c | c in p :: c in cols
  {
    Named(cols, "start_time") + Named(cols, "end_time")
  }

  /** The names in `Priority(cols)`. */
  function PrioritySet(cols: seq<string>): (x: set<string>)
    ensures forall c :: c in x <==> c in Priority(cols)
  {
    NamedSet(cols, "start_time") + NamedSet(cols, "end_time")
  }

  /** Lower-cases every name. */
  function LowerAll(cols: seq<string>): (r: seq<string>)
    ensures |r| == |cols| && forall i | 0 <= i < |cols| :: r[i] == Lower(cols[i])
  {
    seq(|cols|, i requires 0 <= i < |cols| => Lower(cols[i]))
  }

  lemma LowerAllHas(cols: seq<string>, name: string)
    ensures name in LowerAll(cols) <==> FirstLowerName(cols, name).Some?
  {
    if name in LowerAll(cols) {
      var i :| 0 <= i < |cols| && LowerAll(cols)[i] == name;
      assert Lower(cols[i]) == name;
    }
  }

  lemma {:induction false} RemoveFirstIsExcept(s: seq<string>, x: string)
    requires Distinct(s)
    ensures RemoveFirst(s, x) == Except(s, {x})
  {
    if s != [] {
      if s[0] == x {
        ExceptAbsent(s[1..], {x});
      } else {
        RemoveFirstIsExcept(s[1..], x);
      }
    }
  }

  lemma {:induction false} ExceptAbsent(s: seq<string>, x: set<string>)
    requires forall c | c in s :: c !in x
    ensures Except(s, x) == s
  {
    if s != [] {
      ExceptAbsent(s[1..], x);
      assert [s[0]] + s[1..] == s;
    }
  }

  lemma {:induction false} ExceptTwice(s: seq<string>, x: set<string>, y: set<string>)
    ensures Except(Except(s, x), y) == Except(s, x + y)
  {
    if s != [] {
      var rest := Except(s[1..], x);
      ExceptTwice(s[1..], x, y);
      if s[0] in x {
        assert Except(s, x) == rest;
        assert Except(s, x + y) == Except(s[1..], x + y);
      } else {
        assert Except(s, x) == [s[0]] + rest;
        assert Except(s, x)[1..] == rest;
      }
    }
  }

  lemma {:induction false} ExceptDistinct(s: seq<string>, x: set<string>)
    requires Distinct(s)
    ensures Distinct(Except(s, x))
  {
    if s != [] {
      ExceptDistinct(s[1..], x);
      var rest := Except(s[1..], x);
      if s[0] !in x {
        assert s[0] !in rest;
        var r := [s[0]] + rest;
        forall i, j | 0 <= i < j < |r| ensures r[i] != r[j] {
          if i == 0 {
            assert r[j] == rest[j - 1];
          } else {
            assert r[i] == rest[i - 1] && r[j] == rest[j - 1];
          }
        }
      }
    }
  }

  /** Removing a column whose lower-cased name is not `name` does not change
      which column is the first one called `name`. */
  lemma {:induction false} FirstLowerNameRemove(s: seq<string>, x: string, name: string)
    requires Lower(x) != name
    ensures FirstLowerName(RemoveFirst(s, x), name) == FirstLowerName(s, name)
  {
    if s != [] && s[0] != x {
      FirstLowerNameRemove(s[1..], x, name);
      assert RemoveFirst(s, x)[1..] == RemoveFirst(s[1..], x);
    } else if s != [] {
      assert Lower(s[0]) != name;
    }
  }

  lemma {:induction false} WithoutDistinct(s: seq<string>, c: string)
    requires Distinct(s)
    ensures Without(s, c) == Except(s, {c})
  {
    if s != [] {
      WithoutDistinct(s[1..], c);
    }
  }

  lemma {:induction false} WithoutCount(s: seq<string>, c: string)
    requires Distinct(s) && c in s
    ensures multiset(Without(s, c)) == multiset(s) - multiset{c}
  {
    WithoutDistinct(s, c);
    RemoveFirstIsExcept(s, c);
  }

  /** Only the first `start_time.1` column (in any case) goes; every other
      column stays, in its place. */
  lemma KeptRemovesFirst(cols: seq<string>)
    requires Distinct(cols)
    ensures FirstLowerName(cols, "start_time.1").None? ==> Kept(cols) == cols
    ensures FirstLowerName(cols, "start_time.1").Some? ==>
      var c := FirstLowerName(cols, "start_time.1").value;
      multiset(Kept(cols)) == multiset(cols) - multiset{c} && Kept(cols) == Except(cols, {c})
    ensures Distinct(Kept(cols))
  {
    match FirstLowerName(cols, "start_time.1")
    case None =>
    case Some(c) =>
      WithoutCount(cols, c);
      WithoutDistinct(cols, c);
      ExceptDistinct(cols, {c});
  }

  /** The first step of `clean_and_reorder_columns`: drops the first
      `start_time.1` column, if any. */
  method DropDuplicateStart(t: Table) returns (r: Table)
    requires Distinct(t.columns)
    ensures r.columns == Kept(t.columns) && Distinct(r.columns)
    ensures |r.rows| == |t.rows|
    ensures forall d | d in Kept(t.columns) :: Column(r, d) == Column(t, d)
  {
    KeptRemovesFirst(t.columns);
    var columnsLower := LowerAll(t.columns);
    LowerAllHas(t.columns, "start_time.1");
    r := t;
    if "start_time.1" in columnsLower {
      var original := FirstLowerName(t.columns, "start_time.1").value;
      r := DropColumn(t, original);
    }
  }

  /** Taking out the column called `name` does not change which column is
      the first one called `other`. */
  lemma TakeKeepsOther(columns: seq<string>, name: string, other: string)
    requires Distinct(columns) && other != name
    ensures FirstLowerName(Except(columns, NamedSet(columns, name)), other) == FirstLowerName(columns, other)
  {
    match FirstLowerName(columns, name)
    case None =>
      ExceptAbsent(columns, {});
    case Some(c) =>
      RemoveFirstIsExcept(columns, c);
      FirstLowerNameRemove(columns, c, other);
  }

  /** Moves the first column called `name` (in any case) from `columns`
      to the list it returns, when `columnsLower` shows there is one. */
  method TakeColumn(columns: seq<string>, columnsLower: seq<string>, name: string)
    returns (taken: seq<string>, rest: seq<string>)
    requires Distinct(columns) && columnsLower == LowerAll(columns)
    ensures taken == Named(columns, name)
    ensures rest == Except(columns, NamedSet(columns, name)) && Distinct(rest)
    ensures multiset(taken + rest) == multiset(columns)
  {
    LowerAllHas(columns, name);
    ExceptDistinct(columns, NamedSet(columns, name));
    taken, rest := [], columns;
    if name in columnsLower {
      var original := FirstLowerName(columns, name).value;
      taken := taken + [original];
      RemoveFirstIsExcept(columns, original);
      rest := RemoveFirst(columns, original);
    } else {
      ExceptAbsent(columns, {});
    }
  }

  /** Taking `start_time` and then `end_time` out one after the other
      yields the priority list and leaves the other columns in order. */
  lemma TakeBothInTurn(kept: seq<string>)
    requires Distinct(kept)
    ensures var rest := Except(kept, NamedSet(kept, "start_time"));
      Named(kept, "start_time") + Named(rest, "end_time") == Priority(kept) &&
      Except(rest, NamedSet(rest, "end_time")) == Except(kept, PrioritySet(kept))
    ensures FirstLowerName(kept, "end_time").None? ==>
      Priority(kept) == Named(kept, "start_time") &&
      Except(kept, PrioritySet(kept)) == Except(kept, NamedSet(kept, "start_time"))
  {
    var rest := Except(kept, NamedSet(kept, "start_time"));
    TakeKeepsOther(kept, "start_time", "end_time");
    ExceptDistinct(kept, NamedSet(kept, "start_time"));
    ExceptTwice(kept, NamedSet(kept, "start_time"), NamedSet(kept, "end_time"));
    if FirstLowerName(kept, "end_time").None? {
      assert Named(kept, "end_time") == [] && NamedSet(kept, "end_time") == {};
      assert PrioritySet(kept) == NamedSet(kept, "start_time");
    }
  }

  /** The rest of `clean_and_reorder_columns`: builds the priority list
      with `start_time` then `end_time`, removing each from the remaining
      columns. */
  method MovePriorityColumns(kept: seq<string>) returns (order: seq<string>)
    requires Distinct(kept)
    ensures order == Priority(kept) + Except(kept, PrioritySet(kept))
    ensures multiset(order) == multiset(kept)
  {
    var columnsLower := LowerAll(kept);
    var priority, columns := TakeColumn(kept, columnsLower, "start_time");
    TakeBothInTurn(kept);
    LowerAllHas(kept, "end_time");
    if "end_time" in columnsLower {
      columnsLower := LowerAll(columns);
      var second, rest := TakeColumn(columns, columnsLower, "end_time");
      assert priority + second == Priority(kept);
      assert rest == Except(kept, PrioritySet(kept));
      assert multiset(second + rest) == multiset(second) + multiset(rest);
      assert multiset(priority + second) == multiset(priority) + multiset(second);
      assert multiset(priority + columns) == multiset(priority) + multiset(columns);
      priority, columns := priority + second, rest;
    } else {
      assert FirstLowerName(kept, "end_time").None?;
      assert priority == Priority(kept);
      assert columns == Except(kept, PrioritySet(kept));
    }
    order := priority + columns;
  }

  /** Drops the first `start_time.1` column and moves `start_time` to the
      front, followed by `end_time`; every other column keeps its place
      relative to the others. Column names from a CSV reader are distinct. */
  method CleanAndReorderColumns(t: Table) returns (r: Table)
    requires Distinct(t.columns)
    ensures r.columns == Priority(Kept(t.columns)) + Except(Kept(t.columns), PrioritySet(Kept(t.columns)))
    ensures multiset(r.columns) == multiset(Kept(t.columns))
    ensures |r.rows| == |t.rows|
    ensures forall d | d in Kept(t.columns) :: Column(r, d) == Column(t, d)
  {
    r := DropDuplicateStart(t);
    var order := MovePriorityColumns(r.columns);
    r := r.(columns := order);
  }
}

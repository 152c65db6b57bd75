/** The provisioning dashboard (modules/provision.py): the upper-casing of the
    geographic columns, the hierarchical drill-down state (department,
    province, district, locality) kept in the session, its selection
    handlers, the restart button, the filter applied to the exported rows and
    the name of the downloaded file. */
module Provision {
  import opened Text
  import opened Frame

  // ---------------------------------------------------------------------
  // Formatting

  /** The geographic columns, also the levels of the hierarchy. */
  const GeoColumns: seq<string> := ["Departamento", "Provincia", "Distrito", "Localidad"]

  /** Every geographic column the frame has is rewritten as upper-case text
      (a missing value becomes "NAN"); all other columns are untouched. */
  method FormatGeoColumns(t: Table) returns (r: Table)
    requires TextOnly(t)
    ensures r.columns == t.columns && |r.rows| == |t.rows| && TextOnly(r)
    ensures forall c | c in GeoColumns && c in t.columns :: (TextColumn(t, c); Column(r, c) == Recased(Column(t, c), Upper))
    ensures forall c | !(c in GeoColumns && c in t.columns) :: Column(r, c) == Column(t, c)
  {
    r := RecaseColumns(t, GeoColumns, Upper);
  }

  // ---------------------------------------------------------------------
  // Drill-down state

  /** The `provision_drill_state` dictionary. */
  datatype DrillState = DrillState(
    currentLevel: int,
    departamento: Option<string>,
    provincia: Option<string>,
    distrito: Option<string>,
    localidad: Option<string>)

  /** The state created on first display and restored by the restart button. */
  const Initial := DrillState(0, None, None, None, None)

  /** The first entry of every selector, meaning "nothing chosen". */
  const Placeholder := "Seleccionar..."

  /** Python truthiness of a stored selection: present and non-empty. */
  predicate IsSet(v: Option<string>) {
    v.Some? && v.value != ""
  }

  /** `reset_lower_levels(from_level)`: clears the province from level 1 on,
      the district from level 2 on and the locality from level 3 on; the
      department and the level are never touched. */
  function ResetLower(d: DrillState, fromLevel: int): (r: DrillState)
    ensures r.currentLevel == d.currentLevel && r.departamento == d.departamento
    ensures r.provincia == if fromLevel <= 1 then None else d.provincia
    ensures r.distrito == if fromLevel <= 2 then None else d.distrito
    ensures r.localidad == if fromLevel <= 3 then None else d.localidad
  {
    var d1 := if fromLevel <= 1 then d.(provincia := None) else d;
    var d2 := if fromLevel <= 2 then d1.(distrito := None) else d1;
    if fromLevel <= 3 then d2.(localidad := None) else d2
  }

  /** Two resets amount to the reset from the lower of the two levels. */
  lemma ResetLowerTwice(d: DrillState, j: int, k: int)
    ensures ResetLower(ResetLower(d, j), k) == ResetLower(d, if j <= k then j else k)
  {
  }

  /** The department handler: a real choice different from the stored one is
      stored and clears every level below; the placeholder or the current
      value changes nothing. */
  function PickDepartamento(d: DrillState, selected: string): (r: DrillState)
    ensures selected == Placeholder || d.departamento == Some(selected) ==> r == d
    ensures selected != Placeholder && d.departamento != Some(selected) ==>
      r == DrillState(d.currentLevel, Some(selected), None, None, None)
  {
    if selected != Placeholder && d.departamento != Some(selected) then
      ResetLower(d.(departamento := Some(selected)), 1)
    else d
  }

  /** The province handler: stores a new province and clears the district
      and the locality, keeping the department. */
  function PickProvincia(d: DrillState, selected: string): (r: DrillState)
    ensures selected == Placeholder || d.provincia == Some(selected) ==> r == d
    ensures selected != Placeholder && d.provincia != Some(selected) ==>
      r == DrillState(d.currentLevel, d.departamento, Some(selected), None, None)
  {
    if selected != Placeholder && d.provincia != Some(selected) then
      ResetLower(d.(provincia := Some(selected)), 2)
    else d
  }

  /** The district handler: stores a new district and clears the locality,
      keeping the department and the province. */
  function PickDistrito(d: DrillState, selected: string): (r: DrillState)
    ensures selected == Placeholder || d.distrito == Some(selected) ==> r == d
    ensures selected != Placeholder && d.distrito != Some(selected) ==>
      r == DrillState(d.currentLevel, d.departamento, d.provincia, Some(selected), None)
  {
    if selected != Placeholder && d.distrito != Some(selected) then
      ResetLower(d.(distrito := Some(selected)), 3)
    else d
  }

  /** What a user can do on one run of the page. The province selector is
      only shown under a chosen department and the district selector only
      under a chosen province, so a choice at a hidden level has no effect. */
  datatype Event = ChooseDepartamento(value: string) | ChooseProvincia(value: string)
                 | ChooseDistrito(value: string) | PressRestart

  function Step(d: DrillState, e: Event): DrillState {
    match e
    case ChooseDepartamento(v) => PickDepartamento(d, v)
    case ChooseProvincia(v) => if IsSet(d.departamento) then PickProvincia(d, v) else d
    case ChooseDistrito(v) => if IsSet(d.provincia) then PickDistrito(d, v) else d
    case PressRestart => Initial
  }

  function Run(d: DrillState, events: seq<Event>): DrillState
    decreases |events|
  {
    if events == [] then d else Run(Step(d, events[0]), events[1..])
  }

  /** The shape every reachable state has: level 0, no locality (no handler
      ever stores one), a province only under a department and a district
      only under a province. */
  predicate Nested(d: DrillState) {
    d.currentLevel == 0 && d.localidad == None
    && (IsSet(d.provincia) ==> IsSet(d.departamento))
    && (IsSet(d.distrito) ==> IsSet(d.provincia))
  }

  lemma InitialNested()
    ensures Nested(Initial) && !IsSet(Initial.departamento)
  {
  }

  lemma StepKeepsNested(d: DrillState, e: Event)
    requires Nested(d)
    ensures Nested(Step(d, e))
  {
    match e
    case ChooseDepartamento(v) =>
    case ChooseProvincia(v) =>
    case ChooseDistrito(v) =>
    case PressRestart =>
  }

  /** From the initial state, any sequence of choices and restarts keeps the
      hierarchy nested. */
  lemma {:induction false} RunKeepsNested(d: DrillState, events: seq<Event>)
    requires Nested(d)
    ensures Nested(Run(d, events))
    decreases |events|
  {
    if events != [] {
      StepKeepsNested(d, events[0]);
      RunKeepsNested(Step(d, events[0]), events[1..]);
    }
  }

  /** Restarting returns to the initial state from anywhere. */
  lemma RestartFromAnyState(d: DrillState, events: seq<Event>)
    ensures Run(d, events + [PressRestart]) == Initial
  {
    RunAppend(d, events, [PressRestart]);
  }

  lemma {:induction false} RunAppend(d: DrillState, a: seq<Event>, b: seq<Event>)
    ensures Run(d, a + b) == Run(Run(d, a), b)
    decreases |a|
  {
    if a != [] {
      assert (a + b)[0] == a[0] && (a + b)[1..] == a[1..] + b;
      RunAppend(Step(d, a[0]), a[1..], b);
    } else {
      assert a + b == b;
    }
  }

  /** The session slot `provision_drill_state`, absent until the dashboard
      is first shown. */
  class ProvisionSession {
    var drillState: Option<DrillState>

    constructor()
      ensures drillState.None?
    {
      drillState := None;
    }

    /** Creates the drill state only when it is absent. */
    method EnsureDrillState()
      modifies this
      ensures old(drillState).Some? ==> drillState == old(drillState)
      ensures old(drillState).None? ==> drillState == Some(Initial)
    {
      if drillState.None? {
        drillState := Some(Initial);
      }
    }

    method ResetLowerLevels(fromLevel: int)
      requires drillState.Some?
      modifies this
      ensures drillState == Some(ResetLower(old(drillState.value), fromLevel))
    {
      if fromLevel <= 1 {
        drillState := Some(drillState.value.(provincia := None));
      }
      if fromLevel <= 2 {
        drillState := Some(drillState.value.(distrito := None));
      }
      if fromLevel <= 3 {
        drillState := Some(drillState.value.(localidad := None));
      }
    }

    method SelectDepartamento(selected: string)
      requires drillState.Some?
      modifies this
      ensures drillState == Some(PickDepartamento(old(drillState.value), selected))
    {
      if selected != Placeholder {
        if drillState.value.departamento != Some(selected) {
          drillState := Some(drillState.value.(departamento := Some(selected)));
          ResetLowerLevels(1);
        }
      }
    }

    /** Only reached while a department is chosen: the province selector is
        drawn under that guard. */
    method SelectProvincia(selected: string)
      requires drillState.Some? && IsSet(drillState.value.departamento)
      modifies this
      ensures drillState == Some(PickProvincia(old(drillState.value), selected))
    {
      if selected != Placeholder {
        if drillState.value.provincia != Some(selected) {
          drillState := Some(drillState.value.(provincia := Some(selected)));
          ResetLowerLevels(2);
        }
      }
    }

    /** Only reached while a province is chosen. */
    method SelectDistrito(selected: string)
      requires drillState.Some? && IsSet(drillState.value.provincia)
      modifies this
      ensures drillState == Some(PickDistrito(old(drillState.value), selected))
    {
      if selected != Placeholder {
        if drillState.value.distrito != Some(selected) {
          drillState := Some(drillState.value.(distrito := Some(selected)));
          ResetLowerLevels(3);
        }
      }
    }

    /** The restart button replaces the state with a fresh initial one. */
    method Restart()
      modifies this
      ensures drillState == Some(Initial)
    {
      drillState := Some(Initial);
    }

    /** One user action, dispatched to the handler whose selector is shown. */
    method Handle(e: Event)
      requires drillState.Some?
      modifies this
      ensures drillState == Some(Step(old(drillState.value), e))
    {
      match e
      case ChooseDepartamento(v) => SelectDepartamento(v);
      case ChooseProvincia(v) =>
        if IsSet(drillState.value.departamento) {
          SelectProvincia(v);
        }
      case ChooseDistrito(v) =>
        if IsSet(drillState.value.provincia) {
          SelectDistrito(v);
        }
      case PressRestart => Restart();
    }
  }

  // ---------------------------------------------------------------------
  // Export and download name

  /** The levels chosen so far, from the department down, as the page shows
      them in its "Ruta" line. */
  function Route(d: DrillState): (route: seq<string>)
    ensures |route| <= 3
  {
    if !IsSet(d.departamento) then []
    else if !IsSet(d.provincia) then [d.departamento.value]
    else if !IsSet(d.distrito) then [d.departamento.value, d.provincia.value]
    else [d.departamento.value, d.provincia.value, d.distrito.value]
  }

  /** The export filter as the code nests it: the department if one is
      chosen, then the province only under a chosen department, then the
      district only under a chosen province. */
  predicate ExportMatch(d: DrillState, row: Row) {
    (IsSet(d.departamento) ==> Get(row, "Departamento") == Str(d.departamento.value))
    && (IsSet(d.departamento) && IsSet(d.provincia) ==> Get(row, "Provincia") == Str(d.provincia.value))
    && (IsSet(d.departamento) && IsSet(d.provincia) && IsSet(d.distrito) ==>
          Get(row, "Distrito") == Str(d.distrito.value))
  }

  /** The rows offered for download: the frame filtered step by step along
      the chosen levels. A chosen level whose column the frame lacks raises a
      KeyError in the dashboard, hence the precondition. */
  method ExportRows(t: Table, d: DrillState) returns (r: Table)
    requires IsSet(d.departamento) ==> "Departamento" in t.columns
    requires IsSet(d.departamento) && IsSet(d.provincia) ==> "Provincia" in t.columns
    requires IsSet(d.departamento) && IsSet(d.provincia) && IsSet(d.distrito) ==> "Distrito" in t.columns
    ensures r.columns == t.columns && r.timeCols == t.timeCols
    ensures r.rows == FilterRows(t.rows, row => ExportMatch(d, row))
    ensures forall x :: x in r.rows <==> x in t.rows && ExportMatch(d, x)
  {
    r := t;
    if IsSet(d.departamento) {
      var dept := row => Get(row, "Departamento") == Str(d.departamento.value);
      r := Where(r, dept);
      if IsSet(d.provincia) {
        var prov := row => Get(row, "Provincia") == Str(d.provincia.value);
        var deptProv := row => dept(row) && prov(row);
        FilterRowsTwice(t.rows, dept, prov, deptProv);
        r := Where(r, prov);
        if IsSet(d.distrito) {
          var dist := row => Get(row, "Distrito") == Str(d.distrito.value);
          FilterRowsTwice(t.rows, deptProv, dist, row => ExportMatch(d, row));
          r := Where(r, dist);
        } else {
          assert forall x :: deptProv(x) == ExportMatch(d, x);
          FilterRowsTwice(t.rows, dept, prov, row => ExportMatch(d, row));
        }
      } else {
        FilterRowsTwice(t.rows, row => true, dept, row => ExportMatch(d, row));
        FilterRowsAll(t.rows, row => true);
      }
    } else {
      FilterRowsAll(t.rows, row => ExportMatch(d, row));
    }
  }

  /** In a nested state the export keeps exactly the rows that agree with
      every level of the route. */
  lemma ExportFollowsRoute(d: DrillState, row: Row)
    requires Nested(d)
    ensures ExportMatch(d, row) <==>
      forall k | 0 <= k < |Route(d)| :: Get(row, GeoColumns[k]) == Str(Route(d)[k])
  {
    var route := Route(d);
    if IsSet(d.departamento) && IsSet(d.provincia) && IsSet(d.distrito) {
      assert route[0] == d.departamento.value && route[1] == d.provincia.value && route[2] == d.distrito.value;
    } else if IsSet(d.departamento) && IsSet(d.provincia) {
      assert route[0] == d.departamento.value && route[1] == d.provincia.value;
    } else if IsSet(d.departamento) {
      assert route[0] == d.departamento.value;
    }
  }

  /** The base name of the downloaded file: "provisionamiento", followed by
      `_` and the district, else the province, else the department, the
      first of them that is set. */
  function DownloadName(d: DrillState): (name: string)
    ensures |name| >= 16 && name[..16] == "provisionamiento"
    ensures name == "provisionamiento" <==> !IsSet(d.distrito) && !IsSet(d.provincia) && !IsSet(d.departamento)
  {
    var base := "provisionamiento";
    if IsSet(d.distrito) then base + "_" + d.distrito.value
    else if IsSet(d.provincia) then base + "_" + d.provincia.value
    else if IsSet(d.departamento) then base + "_" + d.departamento.value
    else base
  }

  /** In a nested state the file is named after the deepest level of the
      route, and carries no suffix when nothing is chosen. */
  lemma DownloadNameNamesDeepestLevel(d: DrillState)
    requires Nested(d)
    ensures Route(d) == [] ==> DownloadName(d) == "provisionamiento"
    ensures Route(d) != [] ==> DownloadName(d) == "provisionamiento_" + Route(d)[|Route(d)| - 1]
  {
  }
}

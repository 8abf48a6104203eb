/** The variable algebra of utils/datavar.py: a `Var` is one variable's values
    over the scenarios, in scalar mode (one year, a series) or vector mode (a
    list of years, a table), together with the scenario universes it selects
    from; `DataVar` is the factory that builds a `Var` from a variable name. */
module DataVars {
  import opened Tables
  import opened Arithmetic
  import opened Selection

  /** The interpolated value of a variable at a year the dataset does not
      hold, for one scenario (missing when the interpolation has no value for
      that scenario). The interpolation routine is not part of this model. */
  type Interpolator = (string, YearTok, Name) -> Option<real>

  /** The constants a `Var` consults: the years the dataset holds (`YEARS`),
      and the illustrative-pathway and SSP tables. */
  datatype Config = Config(years: seq<YearTok>, ips: seq<Pathway>, ssps: seq<Pathway>)

  /** The year argument: one year, or a list (or tuple) of years. */
  datatype YearArg = One(year: Atom) | Many(years: seq<Atom>)

  datatype VarError = NeitherGiven | BothGiven

  /** `_to_list(value, to_str=True)`: a list keeps its length and has each
      element written as a string; a single value becomes a one-element list. */
  function ToStrList(a: YearArg): (r: seq<YearTok>)
    ensures a.One? ==> r == [Str(a.year)]
    ensures a.Many? ==> |r| == |a.years| && forall i :: 0 <= i < |r| ==> r[i] == Str(a.years[i])
  {
    match a
    case One(x) => [Str(x)]
    case Many(xs) => seq(|xs|, i requires 0 <= i < |xs| => Str(xs[i]))
  }

  /** The year labels a variable is built for, and whether it is in scalar
      mode: no year argument means every dataset year in vector mode; a single
      year gives scalar mode and a list gives vector mode. */
  function YearRequest(yarg: Option<YearArg>, years: seq<YearTok>): (r: (seq<YearTok>, bool))
    ensures r.1 <==> yarg.Some? && yarg.value.One?
    ensures r.1 ==> |r.0| == 1
    ensures yarg.None? ==> r.0 == years
    ensures yarg.Some? ==> r.0 == ToStrList(yarg.value)
  {
    var arg := if yarg.Some? then yarg.value else Many(seq(|years|, i requires 0 <= i < |years| => StrAtom(years[i])));
    assert yarg.None? ==> ToStrList(arg) == years;
    (ToStrList(arg), arg.One?)
  }

  /** The requested years split into those the dataset holds and those to be
      interpolated. */
  function SplitYears(toks: seq<YearTok>, years: seq<YearTok>): (r: (set<YearTok>, set<YearTok>))
    ensures r.0 + r.1 == Elems(toks) && r.0 * r.1 == {}
    ensures r.0 <= Elems(years) && r.1 * Elems(years) == {}
  {
    (set t | t in toks && t in years, set t | t in toks && t !in years)
  }

  /** The rows of the dataset that hold `variable`, in dataset order. */
  function Matching(data: seq<DataRow>, variable: string): (r: seq<DataRow>)
    ensures |r| == |MatchPositions(data, variable)|
    ensures forall k :: 0 <= k < |r| ==> r[k] == data[MatchPositions(data, variable)[k]]
    ensures forall x :: x in r ==> x in data && x.variable == variable
    ensures forall x :: x in data && x.variable == variable ==> x in r
  {
    if data == [] then []
    else
      var n := |data| - 1;
      var r := Matching(data[..n], variable) + (if data[n].variable == variable then [data[n]] else []);
      MatchingStep(data, variable, r);
      MatchingMembers(data, variable, r);
      r
  }

  /** The facts of `Matching`, from those of the rows before the last. */
  lemma MatchingStep(data: seq<DataRow>, variable: string, r: seq<DataRow>)
    requires data != []
    requires r == Matching(data[..|data| - 1], variable) +
      (if data[|data| - 1].variable == variable then [data[|data| - 1]] else [])
    ensures |r| == |MatchPositions(data, variable)|
    ensures forall k :: 0 <= k < |r| ==> r[k] == data[MatchPositions(data, variable)[k]]
  {
    var n := |data| - 1;
    var front := MatchPositions(data[..n], variable);
    assert MatchPositions(data, variable) == if data[n].variable == variable then front + [n] else front;
    forall k | 0 <= k < |front| ensures data[..n][front[k]] == data[front[k]] {
    }
  }

  /** Membership follows from the positional facts. */
  lemma MatchingMembers(data: seq<DataRow>, variable: string, r: seq<DataRow>)
    requires |r| == |MatchPositions(data, variable)|
    requires forall k :: 0 <= k < |r| ==> r[k] == data[MatchPositions(data, variable)[k]]
    ensures forall x :: x in r ==> x in data && x.variable == variable
    ensures forall x :: x in data && x.variable == variable ==> x in r
  {
    var ix := MatchPositions(data, variable);
    forall x | x in data && x.variable == variable ensures x in r {
      var i :| 0 <= i < |data| && data[i] == x;
      var k :| 0 <= k < |ix| && ix[k] == i;
      assert r[k] == x;
    }
  }

  /** The positions of the rows that hold `variable`, in increasing order:
      the reference for the mask filter's order and multiplicity. */
  function MatchPositions(data: seq<DataRow>, variable: string): (ix: seq<nat>)
    ensures forall k :: 0 <= k < |ix| ==> ix[k] < |data| && data[ix[k]].variable == variable
    ensures forall k, l :: 0 <= k < l < |ix| ==> ix[k] < ix[l]
    ensures forall i :: 0 <= i < |data| && data[i].variable == variable ==> i in ix
  {
    if data == [] then []
    else
      var n := |data| - 1;
      var front := MatchPositions(data[..n], variable);
      assert forall k :: 0 <= k < |front| ==> data[..n][front[k]] == data[front[k]];
      if data[n].variable == variable then front + [n] else front
  }

  function DataCell(row: DataRow, y: YearTok): Option<real> {
    if y in row.cells then row.cells[y] else None
  }

  /** One value of a variable: from the dataset for a year it holds, from the
      interpolation otherwise. */
  function SourceCell(years: seq<YearTok>, interp: Interpolator, variable: string, row: DataRow, y: YearTok): Option<real> {
    if y in years then DataCell(row, y) else interp(variable, y, row.name)
  }

  /** The values of a variable before the fill: one row per dataset row of the
      variable, with exactly the requested year columns in requested order. */
  function VariableFrame(data: seq<DataRow>, years: seq<YearTok>, interp: Interpolator, variable: string,
                         toks: seq<YearTok>, series: bool): (f: Frame)
    requires series ==> |toks| == 1
    ensures WellFormed(f) && f.series == series && f.columns == toks
    ensures |f.rows| == |Matching(data, variable)|
    ensures forall i, y :: 0 <= i < |f.rows| && y in toks ==>
      f.rows[i].name == Matching(data, variable)[i].name &&
      f.rows[i].cells[y] == SourceCell(years, interp, variable, Matching(data, variable)[i], y)
  {
    var m := Matching(data, variable);
    Frame(series, toks, seq(|m|, i requires 0 <= i < |m| =>
      Row(m[i].name, map y | y in toks :: SourceCell(years, interp, variable, m[i], y))))
  }

  /** The rows of a variable with the dataset's own year columns. */
  function KnownColumns(m: seq<DataRow>, existing: set<YearTok>): (rows: seq<Row>)
    ensures |rows| == |m|
    ensures forall i :: 0 <= i < |m| ==> rows[i].name == m[i].name && rows[i].cells.Keys == existing
    ensures forall i, y :: 0 <= i < |m| && y in existing ==> rows[i].cells[y] == DataCell(m[i], y)
  {
    seq(|m|, i requires 0 <= i < |m| => Row(m[i].name, map y | y in existing :: DataCell(m[i], y)))
  }

  /** `_values[y] = series`: one interpolated year column added to every row. */
  function WithColumn(rows: seq<Row>, y: YearTok, variable: string, interp: Interpolator): (r: seq<Row>)
    ensures |r| == |rows|
    ensures forall i :: 0 <= i < |rows| ==>
      r[i].name == rows[i].name && r[i].cells == rows[i].cells[y := interp(variable, y, rows[i].name)]
  {
    seq(|rows|, i requires 0 <= i < |rows| => Row(rows[i].name, rows[i].cells[y := interp(variable, y, rows[i].name)]))
  }

  /** The requested columns of each row. */
  function Project(rows: seq<Row>, toks: seq<YearTok>): (r: seq<Row>)
    requires forall i, y :: 0 <= i < |rows| && y in toks ==> y in rows[i].cells
    ensures |r| == |rows|
    ensures forall i :: 0 <= i < |rows| ==> r[i].name == rows[i].name && r[i].cells.Keys == Elems(toks)
    ensures forall i, y :: 0 <= i < |rows| && y in toks ==> y in r[i].cells && r[i].cells[y] == rows[i].cells[y]
  {
    seq(|rows|, i requires 0 <= i < |rows| => Row(rows[i].name, map y | y in toks :: rows[i].cells[y]))
  }

  /** Rows holding every requested year with its source value project to the
      variable's frame. */
  lemma ProjectIsVariableFrame(data: seq<DataRow>, years: seq<YearTok>, interp: Interpolator, variable: string,
                               toks: seq<YearTok>, series: bool, rows: seq<Row>)
    requires series ==> |toks| == 1
    requires |rows| == |Matching(data, variable)|
    requires forall i :: 0 <= i < |rows| ==> rows[i].name == Matching(data, variable)[i].name
    requires forall i, y :: 0 <= i < |rows| && y in toks ==>
      y in rows[i].cells && rows[i].cells[y] == SourceCell(years, interp, variable, Matching(data, variable)[i], y)
    ensures Frame(series, toks, Project(rows, toks)) == VariableFrame(data, years, interp, variable, toks, series)
  {
    var p := Project(rows, toks);
    var v := VariableFrame(data, years, interp, variable, toks, series);
    forall i | 0 <= i < |rows|
      ensures p[i] == v.rows[i]
    {
      assert v.rows[i].cells.Keys == Elems(toks) by {
        assert v.rows[i] in v.rows;
      }
      SameRow(p[i], v.rows[i], toks);
    }
  }

  /** Two rows with the same label and the same value in each of the same
      columns are equal. */
  lemma SameRow(a: Row, b: Row, toks: seq<YearTok>)
    requires a.name == b.name && a.cells.Keys == Elems(toks) && b.cells.Keys == Elems(toks)
    requires forall y :: y in toks ==> a.cells[y] == b.cells[y]
    ensures a == b
  {
    assert a.cells == b.cells;
  }

  class Var {
    const data: seq<DataRow>
    const scenarios: Universe
    const vettedScenarios: Universe
    const config: Config
    const variable: Option<string>
    const values: Frame
    const year: Year
    const default: Option<real>

    /** The values have their frame shape, the year mode is the one the values
        give, and a default leaves no value missing. */
    ghost predicate Valid() {
      && WellFormed(values)
      && year == YearOf(values)
      && (default.Some? ==> NoMissing(values))
    }

    /** Built from a variable name: the known years are read from the dataset
        rows of the variable, the others are added one column at a time from
        the interpolation, the requested columns are kept, and the default
        fills what is missing. */
    constructor FromVariable(data: seq<DataRow>, scenarios: Universe, vettedScenarios: Universe, config: Config,
                             interp: Interpolator, variable: string, yarg: Option<YearArg>, default: Option<real>)
      ensures Valid()
      ensures this.data == data && this.scenarios == scenarios && this.vettedScenarios == vettedScenarios
      ensures this.config == config && this.variable == Some(variable) && this.default == default
      ensures
        var (toks, series) := YearRequest(yarg, config.years);
        && year == (if series then Single(toks[0]) else Multiple(toks))
        && values == FillIf(VariableFrame(data, config.years, interp, variable, toks, series), default)
    {
      this.data := data;
      this.scenarios := scenarios;
      this.vettedScenarios := vettedScenarios;
      this.config := config;
      this.variable := Some(variable);
      this.default := default;
      var (toks, series) := YearRequest(yarg, config.years);
      this.year := if series then Single(toks[0]) else Multiple(toks);
      var (existing, interpYears) := SplitYears(toks, config.years);
      var m := Matching(data, variable);
      // The dataset's own years first.
      var rows := KnownColumns(m, existing);
      // Then each interpolated year, one column at a time.
      var rest := interpYears;
      while rest != {}
        invariant rest <= interpYears
        invariant |rows| == |m|
        invariant forall i :: 0 <= i < |m| ==> rows[i].name == m[i].name
        invariant forall i :: 0 <= i < |m| ==> rows[i].cells.Keys == existing + (interpYears - rest)
        invariant forall i, y :: 0 <= i < |m| && y in rows[i].cells ==>
          rows[i].cells[y] == SourceCell(config.years, interp, variable, m[i], y)
        decreases rest
      {
        var y :| y in rest;
        rows := WithColumn(rows, y, variable, interp);
        rest := rest - {y};
      }
      // Keep the requested columns, in requested order.
      var frame := Frame(series, toks, Project(rows, toks));
      ProjectIsVariableFrame(data, config.years, interp, variable, toks, series, rows);
      this.values := FillIf(frame, default);
    }

    /** Built from explicit values: the year mode is the series' name or the
        table's columns, and the default fills what is missing. */
    constructor FromValues(data: seq<DataRow>, scenarios: Universe, vettedScenarios: Universe, config: Config,
                           values: Frame, default: Option<real>)
      requires WellFormed(values)
      ensures Valid()
      ensures this.data == data && this.scenarios == scenarios && this.vettedScenarios == vettedScenarios
      ensures this.config == config && this.variable == None && this.default == default
      ensures this.values == FillIf(values, default) && year == YearOf(values)
    {
      this.data := data;
      this.scenarios := scenarios;
      this.vettedScenarios := vettedScenarios;
      this.config := config;
      this.variable := None;
      this.default := default;
      this.year := YearOf(values);
      this.values := FillIf(values, default);
    }

    /** `Var(...)`: exactly one of a variable name and explicit values must be
        given. A year argument is ignored when values are given. */
    static method Create(data: seq<DataRow>, scenarios: Universe, vettedScenarios: Universe, config: Config,
                         interp: Interpolator, variable: Option<string>, yarg: Option<YearArg>,
                         values: Option<Frame>, default: Option<real>) returns (r: Result<Var, VarError>)
      requires values.Some? ==> WellFormed(values.value)
      ensures r == Failure(NeitherGiven) <==> variable.None? && values.None?
      ensures r == Failure(BothGiven) <==> variable.Some? && values.Some?
      ensures r.Success? <==> variable.Some? != values.Some?
      ensures r.Success? ==> r.value.Valid() && r.value.default == default && r.value.data == data
      ensures r.Success? ==> r.value.scenarios == scenarios && r.value.vettedScenarios == vettedScenarios
      ensures r.Success? ==> r.value.config == config && r.value.variable == variable
      ensures r.Success? && variable.Some? ==>
        var (toks, series) := YearRequest(yarg, config.years);
        && r.value.year == (if series then Single(toks[0]) else Multiple(toks))
        && r.value.values == FillIf(VariableFrame(data, config.years, interp, variable.value, toks, series), default)
      ensures r.Success? && values.Some? ==>
        r.value.values == FillIf(values.value, default) && r.value.year == YearOf(values.value)
    {
      if variable.None? && values.None? {
        return Failure(NeitherGiven);
      }
      if variable.Some? && values.Some? {
        return Failure(BothGiven);
      }
      if variable.Some? {
        var v := new Var.FromVariable(data, scenarios, vettedScenarios, config, interp, variable.value, yarg, default);
        r := Success(v);
      } else {
        var v := new Var.FromValues(data, scenarios, vettedScenarios, config, values.value, default);
        r := Success(v);
      }
    }

    /** The position of the first value not in `allowed` (`|vs|` when there is
        none), found by checking the values in order. */
    static method FirstInvalid(vs: seq<string>, allowed: seq<string>) returns (i: nat)
      ensures i == FirstOutside(vs, Elems(allowed))
      ensures i <= |vs| && forall j :: 0 <= j < i ==> vs[j] in allowed
    {
      i := 0;
      while i < |vs|
        invariant 0 <= i <= |vs|
        invariant forall j :: 0 <= j < i ==> vs[j] in allowed
      {
        if vs[i] !in allowed {
          FirstOutsideAt(vs, Elems(allowed), i);
          return;
        }
        i := i + 1;
      }
      AllInOf(vs, Elems(allowed));
    }

    /** The SSP add-back: for each requested SSP in order, a canonical scenario
        absent from the selection is taken from the full universe when it
        passes the category and IP filters there; one absent from the full
        universe too is an error. */
    method AddBack(selection: Universe, names: seq<Name>, f: Filter, ghost base: Universe)
      returns (r: Result<Universe, SelectError>)
      requires selection == Filtered(base, f) && f.sspNames == Some(names)
      ensures r.Failure? <==> MissingCanonical(f, selection, scenarios).Some?
      ensures r.Failure? ==> r.error == MissingScenario(MissingCanonical(f, selection, scenarios).value)
      ensures r.Success? ==> r.value == AdmittedMap(base, scenarios, f)
    {
      var sel := selection;
      var k := 0;
      while k < |names|
        invariant 0 <= k <= |names|
        invariant forall j :: 0 <= j < k ==> names[j] in selection || names[j] in scenarios
        invariant forall s :: s in sel <==>
          s in selection || (s in names[..k] && s in scenarios && Passes(f, s, scenarios[s]))
        invariant forall s :: s in sel ==> sel[s] == if s in selection then selection[s] else scenarios[s]
      {
        var n := names[k];
        if n !in sel {
          if n !in scenarios {
            FirstOutsideAt(names, selection.Keys + scenarios.Keys, k);
            return Failure(MissingScenario(n));
          }
          if Passes(f, n, scenarios[n]) {
            sel := sel[n := scenarios[n]];
          }
        }
        assert names[..k + 1] == names[..k] + [n];
        k := k + 1;
      }
      assert names[..k] == names;
      assert sel == AdmittedMap(base, scenarios, f);
      r := Success(sel);
    }

    /** `select`: validates the filters in Category, IP, SSP order, narrows a
        copy of the chosen universe filter by filter, adds back the requested
        canonical SSP scenarios the chosen universe lacks, refuses CurPol and
        NDC, and returns the admitted scenarios' values sorted by the active
        axes. */
    method Select(q: Query) returns (r: Result<Selection, SelectError>)
      requires Valid()
      ensures r == SelectSpec(values, scenarios, vettedScenarios, config.ips, config.ssps, q)
    {
      var admitted := Admitted(q);
      if admitted.Failure? {
        return Failure(admitted.error);
      }
      r := Success(Assemble(values, admitted.value.0, admitted.value.1));
    }

    /** The scenario bookkeeping of `select`: the validated filters applied to
        a copy of the chosen universe one by one, the SSP add-back, and the
        refusal of CurPol and NDC; the result is the admitted scenarios with
        their metadata, and the axis columns. */
    method Admitted(q: Query) returns (r: Result<(Universe, seq<Axis>), SelectError>)
      ensures PlanOf(scenarios, vettedScenarios, config.ips, config.ssps, q).Failure? ==>
        r == Failure(PlanOf(scenarios, vettedScenarios, config.ips, config.ssps, q).error)
      ensures PlanOf(scenarios, vettedScenarios, config.ips, config.ssps, q).Success? ==>
        var p := PlanOf(scenarios, vettedScenarios, config.ips, config.ssps, q).value;
        r == Success((AdmittedMap(p.base, scenarios, p.filter), p.axes))
    {
      var base := BaseOf(q, scenarios, vettedScenarios);
      var byCategory := CategoryStage(q, base);
      if byCategory.Failure? {
        return Failure(byCategory.error);
      }
      var byIp := IpStage(q, byCategory.value);
      if byIp.Failure? {
        return Failure(byIp.error);
      }
      var selection := SspStage(q, base, byIp.value);
      if selection.Failure? {
        return Failure(selection.error);
      }
      var f := FilterOf(q, config.ips, config.ssps);
      var axes := AxesOf(q);
      SelectTail(q, base, f, selection.value, axes);
      if q.curpol.Some? {
        return Failure(NotImplemented("CurPol"));
      }
      if q.ndc.Some? {
        return Failure(NotImplemented("NDC"));
      }
      r := Success((selection.value, axes));
    }

    /** The category step of `select`: every requested category must be one
        of the known categories (the first that is not is the error), and the
        selection keeps the scenarios in a requested category. */
    method CategoryStage(q: Query, base: Universe) returns (r: Result<Universe, SelectError>)
      ensures r.Failure? ==>
        PlanOf(scenarios, vettedScenarios, config.ips, config.ssps, q) == Failure(r.error)
      ensures r.Success? ==>
        && (q.category.Some? ==> forall c :: c in Expand(q.category.value, AllCategories) ==> c in AllCategories)
        && r.value == Narrow(base, Filter(Requested(q.category, AllCategories), None, None))
    {
      if q.category.None? {
        return Success(base);
      }
      var cs := Expand(q.category.value, AllCategories);
      var i := FirstInvalid(cs, AllCategories);
      if i < |cs| {
        CategoryErrorAt(scenarios, vettedScenarios, config.ips, config.ssps, q, i);
        return Failure(InvalidCategory(cs[i]));
      }
      r := Success(InCategories(base, cs));
    }

    /** The IP step of `select`: every requested IP must be a known key, and
        the selection keeps the canonical scenarios of the requested IPs. */
    method IpStage(q: Query, selection: Universe) returns (r: Result<Universe, SelectError>)
      requires q.category.Some? ==> forall c :: c in Expand(q.category.value, AllCategories) ==> c in AllCategories
      ensures r.Failure? ==>
        PlanOf(scenarios, vettedScenarios, config.ips, config.ssps, q) == Failure(r.error)
      ensures r.Success? ==>
        && (q.ip.Some? ==> forall v :: v in Expand(q.ip.value, Keys(config.ips)) ==> v in Keys(config.ips))
        && r.value == (if q.ip.Some? then InNames(selection, Canonicals(config.ips, Expand(q.ip.value, Keys(config.ips)))) else selection)
    {
      if q.ip.None? {
        return Success(selection);
      }
      var vs := Expand(q.ip.value, Keys(config.ips));
      var i := FirstInvalid(vs, Keys(config.ips));
      if i < |vs| {
        IpErrorAt(scenarios, vettedScenarios, config.ips, config.ssps, q, i);
        return Failure(InvalidIp(vs[i]));
      }
      r := Success(InNames(selection, Canonicals(config.ips, vs)));
    }

    /** The SSP step of `select`: every requested SSP must be a known key, the
        selection keeps the canonical scenarios of the requested SSPs, and
        the add-back follows. */
    method SspStage(q: Query, base: Universe, selection: Universe) returns (r: Result<Universe, SelectError>)
      requires q.category.Some? ==> forall c :: c in Expand(q.category.value, AllCategories) ==> c in AllCategories
      requires q.ip.Some? ==> forall v :: v in Expand(q.ip.value, Keys(config.ips)) ==> v in Keys(config.ips)
      requires base == BaseOf(q, scenarios, vettedScenarios)
      requires selection == Filtered(base, Filter(Requested(q.category, AllCategories),
        if q.ip.Some? then Some(Canonicals(config.ips, Expand(q.ip.value, Keys(config.ips)))) else None, None))
      ensures r.Failure? ==>
        PlanOf(scenarios, vettedScenarios, config.ips, config.ssps, q) == Failure(r.error)
      ensures r.Success? ==>
        && ArgsValid(q, config.ips, config.ssps)
        && MissingCanonical(FilterOf(q, config.ips, config.ssps), Filtered(base, FilterOf(q, config.ips, config.ssps)), scenarios).None?
        && r.value == AdmittedMap(base, scenarios, FilterOf(q, config.ips, config.ssps))
    {
      if q.ssp.None? {
        WithoutSsp(q, base, selection);
        return Success(selection);
      }
      var vs := Expand(q.ssp.value, Keys(config.ssps));
      var i := FirstInvalid(vs, Keys(config.ssps));
      if i < |vs| {
        SspErrorAt(scenarios, vettedScenarios, config.ips, config.ssps, q, i);
        return Failure(InvalidSsp(vs[i]));
      }
      var names := Canonicals(config.ssps, vs);
      var f := FilterOf(q, config.ips, config.ssps);
      var narrowed := InNames(selection, names);
      SspNarrowed(q, base, selection);
      r := AddBack(narrowed, names, f, base);
      if r.Failure? {
        MissingError(q);
      }
    }

    /** Without an SSP argument, the category and IP steps have already
        produced the admitted scenarios. */
    lemma WithoutSsp(q: Query, base: Universe, selection: Universe)
      requires q.category.Some? ==> forall c :: c in Expand(q.category.value, AllCategories) ==> c in AllCategories
      requires q.ip.Some? ==> forall v :: v in Expand(q.ip.value, Keys(config.ips)) ==> v in Keys(config.ips)
      requires q.ssp.None?
      requires selection == Filtered(base, Filter(Requested(q.category, AllCategories),
        if q.ip.Some? then Some(Canonicals(config.ips, Expand(q.ip.value, Keys(config.ips)))) else None, None))
      ensures ArgsValid(q, config.ips, config.ssps)
      ensures MissingCanonical(FilterOf(q, config.ips, config.ssps), Filtered(base, FilterOf(q, config.ips, config.ssps)), scenarios).None?
      ensures selection == AdmittedMap(base, scenarios, FilterOf(q, config.ips, config.ssps))
    {
      var f := FilterOf(q, config.ips, config.ssps);
      assert selection == Filtered(base, f);
    }

    /** Keeping the canonical scenarios of the requested SSPs completes the
        filters. */
    lemma SspNarrowed(q: Query, base: Universe, selection: Universe)
      requires ArgsValid(q, config.ips, config.ssps) && q.ssp.Some?
      requires selection == Filtered(base, Filter(Requested(q.category, AllCategories),
        if q.ip.Some? then Some(Canonicals(config.ips, Expand(q.ip.value, Keys(config.ips)))) else None, None))
      ensures FilterOf(q, config.ips, config.ssps).sspNames == Some(Canonicals(config.ssps, Expand(q.ssp.value, Keys(config.ssps))))
      ensures InNames(selection, Canonicals(config.ssps, Expand(q.ssp.value, Keys(config.ssps)))) ==
        Filtered(base, FilterOf(q, config.ips, config.ssps))
    {
    }

    /** With admissible arguments, a requested canonical SSP scenario found
        nowhere is the error `select` raises. */
    lemma MissingError(q: Query)
      requires ArgsValid(q, config.ips, config.ssps)
      requires MissingCanonical(FilterOf(q, config.ips, config.ssps),
        Filtered(BaseOf(q, scenarios, vettedScenarios), FilterOf(q, config.ips, config.ssps)), scenarios).Some?
      ensures PlanOf(scenarios, vettedScenarios, config.ips, config.ssps, q) ==
        Failure(MissingScenario(MissingCanonical(FilterOf(q, config.ips, config.ssps),
          Filtered(BaseOf(q, scenarios, vettedScenarios), FilterOf(q, config.ips, config.ssps)), scenarios).value))
    {
    }

    /** What is left of `select` once the selection is settled. */
    lemma SelectTail(q: Query, base: Universe, f: Filter, selection: Universe, axes: seq<Axis>)
      requires ArgsValid(q, config.ips, config.ssps)
      requires base == BaseOf(q, scenarios, vettedScenarios) && f == FilterOf(q, config.ips, config.ssps)
      requires MissingCanonical(f, Filtered(base, f), scenarios).None?
      requires selection == AdmittedMap(base, scenarios, f) && axes == AxesOf(q)
      ensures q.curpol.Some? ==>
        PlanOf(scenarios, vettedScenarios, config.ips, config.ssps, q) == Failure(NotImplemented("CurPol"))
      ensures q.curpol.None? && q.ndc.Some? ==>
        PlanOf(scenarios, vettedScenarios, config.ips, config.ssps, q) == Failure(NotImplemented("NDC"))
      ensures q.curpol.None? && q.ndc.None? ==>
        PlanOf(scenarios, vettedScenarios, config.ips, config.ssps, q) == Success(Plan(base, f, axes))
    {
    }

    /** The four operators: harmonise the operands, combine them, and wrap the
        result in a new variable over the same dataset and universes, with the
        left operand's default. */
    method Apply(op: Op, other: Operand) returns (r: Result<Var, ArithError>)
      requires Valid() && (other.Values? ==> WellFormed(other.f))
      ensures r.Failure? <==> Evaluate(op, values, other, default).Failure?
      ensures r.Failure? ==> r.error == Evaluate(op, values, other, default).error
      ensures r.Success? ==>
        && r.value.Valid()
        && r.value.values == FillIf(Evaluate(op, values, other, default).value, default)
        && r.value.year == YearOf(Evaluate(op, values, other, default).value)
        && r.value.default == default && r.value.data == data
        && r.value.scenarios == scenarios && r.value.vettedScenarios == vettedScenarios
        && r.value.config == config && r.value.variable.None?
    {
      var e := Evaluate(op, values, other, default);
      if e.Failure? {
        r := Failure(e.error);
      } else {
        var v := new Var.FromValues(data, scenarios, vettedScenarios, config, e.value, default);
        r := Success(v);
      }
    }
  }

  /** The factory a dataset and its universes are bound to. */
  class DataVar {
    const data: seq<DataRow>
    const scenarios: Universe
    const vettedScenarios: Universe
    const config: Config
    const interp: Interpolator

    constructor (data: seq<DataRow>, scenarios: Universe, vettedScenarios: Universe, config: Config, interp: Interpolator)
      ensures this.data == data && this.scenarios == scenarios && this.vettedScenarios == vettedScenarios
      ensures this.config == config && this.interp == interp
    {
      this.data := data;
      this.scenarios := scenarios;
      this.vettedScenarios := vettedScenarios;
      this.config := config;
      this.interp := interp;
    }

    /** Calling the factory builds a `Var` over its dataset and universes. */
    method Call(variable: Option<string>, yarg: Option<YearArg>, values: Option<Frame>, default: Option<real>)
      returns (r: Result<Var, VarError>)
      requires values.Some? ==> WellFormed(values.value)
      ensures r == Failure(NeitherGiven) <==> variable.None? && values.None?
      ensures r == Failure(BothGiven) <==> variable.Some? && values.Some?
      ensures r.Success? <==> variable.Some? != values.Some?
      ensures r.Success? ==> r.value.Valid() && r.value.data == data && r.value.default == default
      ensures r.Success? ==> r.value.scenarios == scenarios && r.value.vettedScenarios == vettedScenarios
      ensures r.Success? ==> r.value.config == config && r.value.variable == variable
      ensures r.Success? && variable.Some? ==>
        var (toks, series) := YearRequest(yarg, config.years);
        && r.value.year == (if series then Single(toks[0]) else Multiple(toks))
        && r.value.values == FillIf(VariableFrame(data, config.years, interp, variable.value, toks, series), default)
      ensures r.Success? && values.Some? ==>
        r.value.values == FillIf(values.value, default) && r.value.year == YearOf(values.value)
    {
      r := Var.Create(data, scenarios, vettedScenarios, config, interp, variable, yarg, values, default);
    }
  }
}

/** What `Var.select` (utils/datavar.py) returns, stated declaratively: the
    argument validation and its errors, the scenarios the category, IP and SSP
    filters admit, and the result rows sorted by the active axis columns. The
    step-by-step procedure is `DataVars.Var.Select`, proved equal to
    `SelectSpec`. */
module Selection {
  import opened Tables
  import opened Ordering

  /** A filter argument: one value, or a list of values. */
  datatype Arg = Scalar(s: string) | List(items: seq<string>)

  /** The filter arguments of one call; `None` is an argument left out. */
  datatype Query = Query(
    category: Option<Arg>,
    ip: Option<Arg>,
    ssp: Option<Arg>,
    curpol: Option<Arg>,
    ndc: Option<Arg>,
    vetted: bool)

  datatype SelectError =
    | InvalidCategory(category: string)
    | InvalidIp(ip: string)
    | InvalidSsp(ssp: string)
    | MissingScenario(scenario: Name)
    | NotImplemented(filter: string)

  /** The metadata columns a result can be sorted and indexed by. */
  datatype Axis = CategoryAxis | IpAxis | SspAxis

  /** One result row: its axis values (the leading index levels), its scenario
      and its values. */
  datatype SelRow = SelRow(keys: Key, name: Name, cells: Cells)

  /** A selection: the active axes, whether it is a series (then its one column
      is "value"), its columns and its rows. */
  datatype Selection = Selection(axes: seq<Axis>, series: bool, columns: seq<YearTok>, rows: seq<SelRow>)

  const AllCategories: seq<string> := ["C1", "C2", "C3", "C4", "C5", "C6", "C7", "C8"]

  /** `_to_list` on a filter argument: a list as it is, a single value wrapped. */
  function ToList(a: Arg): (r: seq<string>)
    ensures a.Scalar? ==> r == [a.s]
    ensures a.List? ==> r == a.items
  {
    match a
    case Scalar(s) => [s]
    case List(items) => items
  }

  /** A filter argument as a list, where the single value "all" stands for
      every admissible value. */
  function Expand(a: Arg, all: seq<string>): seq<string> {
    if a == Scalar("all") then all else ToList(a)
  }

  function Requested(a: Option<Arg>, all: seq<string>): Option<seq<string>> {
    if a.Some? then Some(Expand(a.value, all)) else None
  }

  /** The keys of a pathway table, in table order. */
  function Keys(table: seq<Pathway>): (r: seq<string>)
    ensures |r| == |table|
    ensures forall i :: 0 <= i < |table| ==> r[i] == table[i].key
  {
    seq(|table|, i requires 0 <= i < |table| => table[i].key)
  }

  /** Dictionary lookup in a pathway table. */
  function Lookup(table: seq<Pathway>, k: string): (p: Pathway)
    requires k in Keys(table)
    ensures p in table && p.key == k
  {
    table[FirstIndex(Keys(table), k)]
  }

  /** The canonical scenarios of a list of pathway keys, in list order. */
  function Canonicals(table: seq<Pathway>, ks: seq<string>): (r: seq<Name>)
    requires forall k :: k in ks ==> k in Keys(table)
    ensures |r| == |ks|
    ensures forall i :: 0 <= i < |ks| ==> r[i] == Lookup(table, ks[i]).scenario
  {
    seq(|ks|, i requires 0 <= i < |ks| => Lookup(table, ks[i]).scenario)
  }

  /** The position of the first element outside `allowed`, or `|vs|`. */
  function FirstOutside(vs: seq<string>, allowed: set<string>): (i: nat)
    ensures i <= |vs|
    ensures forall j :: 0 <= j < i ==> vs[j] in allowed
    ensures i < |vs| ==> vs[i] !in allowed
  {
    if vs == [] then 0 else if vs[0] !in allowed then 0 else 1 + FirstOutside(vs[1..], allowed)
  }

  predicate AllIn(vs: Option<seq<string>>, allowed: set<string>) {
    vs.Some? ==> FirstOutside(vs.value, allowed) == |vs.value|
  }

  /** The active filters: admissible categories, and the scenario identities
      the IP and SSP arguments name. */
  datatype Filter = Filter(cats: Option<seq<string>>, ipNames: Option<seq<Name>>, sspNames: Option<seq<Name>>)

  /** A scenario with this metadata passes every active filter. A missing
      category never matches. */
  predicate Passes(f: Filter, s: Name, m: Meta) {
    && (f.cats.Some? ==> m.category.Some? && m.category.value in f.cats.value)
    && (f.ipNames.Some? ==> s in f.ipNames.value)
    && (f.sspNames.Some? ==> s in f.sspNames.value)
  }

  /** The universe restricted by the filters. */
  function Filtered(base: Universe, f: Filter): (r: Universe)
    ensures forall s :: s in r <==> s in base && Passes(f, s, base[s])
    ensures forall s :: s in r ==> r[s] == base[s]
  {
    map s | s in base && Passes(f, s, base[s]) :: base[s]
  }

  /** `selection[selection["Category"].isin(cats)]`: the scenarios whose
      category is one of `cats`; a missing category never matches. */
  function InCategories(u: Universe, cats: seq<string>): (r: Universe)
    ensures forall s :: s in r <==> s in u && u[s].category.Some? && u[s].category.value in cats
    ensures forall s :: s in r ==> r[s] == u[s]
  {
    map s | s in u && u[s].category.Some? && u[s].category.value in cats :: u[s]
  }

  /** `selection[selection.index.isin(names)]`: the scenarios named. */
  function InNames(u: Universe, names: seq<Name>): (r: Universe)
    ensures forall s :: s in r <==> s in u && s in names
    ensures forall s :: s in r ==> r[s] == u[s]
  {
    map s | s in u && s in names :: u[s]
  }

  /** The filters applied one after the other, category first, as the source
      narrows its copy of the universe; the result is the universe restricted
      to the scenarios passing them all. */
  function Narrow(u: Universe, f: Filter): (r: Universe)
    ensures r == Filtered(u, f)
  {
    var a := if f.cats.Some? then InCategories(u, f.cats.value) else u;
    var b := if f.ipNames.Some? then InNames(a, f.ipNames.value) else a;
    var r := if f.sspNames.Some? then InNames(b, f.sspNames.value) else b;
    assert r == Filtered(u, f);
    r
  }

  /** The scenarios a selection admits: those of the chosen universe that pass
      the filters, and, when SSPs are requested, any requested canonical SSP
      scenario of the full universe that passes the filters even though it is
      not in the chosen (vetted) universe. Each keeps the metadata it is
      admitted with. */
  function AdmittedMap(base: Universe, all: Universe, f: Filter): (r: Universe)
    ensures forall s :: s in r <==>
      (s in base && Passes(f, s, base[s])) || (f.sspNames.Some? && s in all && Passes(f, s, all[s]))
    ensures forall s :: s in r ==> Passes(f, s, r[s])
    ensures forall s :: s in r && s !in base ==> f.sspNames.Some? && s in f.sspNames.value
  {
    map s | s in base.Keys + all.Keys &&
      ((s in base && Passes(f, s, base[s])) || (f.sspNames.Some? && s in all && Passes(f, s, all[s]))) ::
      if s in base && Passes(f, s, base[s]) then base[s] else all[s]
  }

  function AxisValue(m: Meta, x: Axis): Option<string> {
    match x
    case CategoryAxis => m.category
    case IpAxis => m.ip
    case SspAxis => m.ssp
  }

  function KeysOf(m: Meta, axes: seq<Axis>): (k: Key)
    ensures |k| == |axes|
    ensures forall i :: 0 <= i < |axes| ==> k[i] == AxisValue(m, axes[i])
  {
    seq(|axes|, i requires 0 <= i < |axes| => AxisValue(m, axes[i]))
  }

  function RowKey(r: SelRow): Key {
    r.keys
  }

  /** The values of one row as the result holds them: a series is turned into
      a one-column table named "value" and back. */
  function OutCells(values: Frame, row: Row): Cells
    requires Shaped(values)
  {
    if values.series then map["value" := CellOf(row, values.columns[0])] else row.cells
  }

  function OutRow(values: Frame, row: Row, adm: Universe, axes: seq<Axis>): SelRow
    requires Shaped(values) && row.name in adm
  {
    SelRow(KeysOf(adm[row.name], axes), row.name, OutCells(values, row))
  }

  /** The positions of the rows whose scenario is admitted, in increasing
      order: the reference for the mask filter's order and multiplicity. */
  function AdmittedPositions(rows: seq<Row>, adm: Universe): (ix: seq<nat>)
    ensures forall k :: 0 <= k < |ix| ==> ix[k] < |rows| && rows[ix[k]].name in adm
    ensures forall k, l :: 0 <= k < l < |ix| ==> ix[k] < ix[l]
    ensures forall i :: 0 <= i < |rows| && rows[i].name in adm ==> i in ix
  {
    if rows == [] then []
    else
      var n := |rows| - 1;
      var front := AdmittedPositions(rows[..n], adm);
      assert forall k :: 0 <= k < |front| ==> rows[..n][front[k]] == rows[front[k]];
      if rows[n].name in adm then front + [n] else front
  }

  /** The rows of `values` whose scenario is admitted, in their order and as
      many times as they occur, with the admitted metadata's axis values
      attached. */
  function Picked(values: Frame, rows: seq<Row>, adm: Universe, axes: seq<Axis>): (r: seq<SelRow>)
    requires Shaped(values)
    ensures |r| == |AdmittedPositions(rows, adm)|
    ensures forall k :: 0 <= k < |r| ==>
      var row := rows[AdmittedPositions(rows, adm)[k]];
      row.name in adm && r[k] == OutRow(values, row, adm, axes)
    ensures forall x :: x in r ==>
      x.name in adm && x.name in Names(rows) && x.keys == KeysOf(adm[x.name], axes)
    ensures forall row :: row in rows && row.name in adm ==> OutRow(values, row, adm, axes) in r
  {
    if rows == [] then []
    else
      var n := |rows| - 1;
      var r := Picked(values, rows[..n], adm, axes) +
        (if rows[n].name in adm then [OutRow(values, rows[n], adm, axes)] else []);
      PickedStep(values, rows, adm, axes, r);
      PickedMembers(values, rows, adm, axes, r);
      r
  }

  /** The positional facts of `Picked`, from those of the rows before the last. */
  lemma PickedStep(values: Frame, rows: seq<Row>, adm: Universe, axes: seq<Axis>, r: seq<SelRow>)
    requires Shaped(values) && rows != []
    requires r == Picked(values, rows[..|rows| - 1], adm, axes) +
      (if rows[|rows| - 1].name in adm then [OutRow(values, rows[|rows| - 1], adm, axes)] else [])
    ensures |r| == |AdmittedPositions(rows, adm)|
    ensures forall k :: 0 <= k < |r| ==>
      var row := rows[AdmittedPositions(rows, adm)[k]];
      row.name in adm && r[k] == OutRow(values, row, adm, axes)
  {
    var n := |rows| - 1;
    var ix := AdmittedPositions(rows, adm);
    var front := AdmittedPositions(rows[..n], adm);
    assert ix == if rows[n].name in adm then front + [n] else front;
    forall k | 0 <= k < |front| ensures rows[..n][front[k]] == rows[ix[k]] {
    }
  }

  /** Membership follows from the positional facts: every picked row is the
      output of an admitted row, and every admitted row's output is picked. */
  lemma PickedMembers(values: Frame, rows: seq<Row>, adm: Universe, axes: seq<Axis>, r: seq<SelRow>)
    requires Shaped(values)
    requires |r| == |AdmittedPositions(rows, adm)|
    requires forall k :: 0 <= k < |r| ==>
      var row := rows[AdmittedPositions(rows, adm)[k]];
      row.name in adm && r[k] == OutRow(values, row, adm, axes)
    ensures forall x :: x in r ==>
      x.name in adm && x.name in Names(rows) && x.keys == KeysOf(adm[x.name], axes)
    ensures forall row :: row in rows && row.name in adm ==> OutRow(values, row, adm, axes) in r
  {
    var ix := AdmittedPositions(rows, adm);
    forall x | x in r
      ensures x.name in adm && x.name in Names(rows) && x.keys == KeysOf(adm[x.name], axes)
    {
      var k :| 0 <= k < |r| && r[k] == x;
      assert Names(rows)[ix[k]] == x.name;
    }
    forall row | row in rows && row.name in adm
      ensures OutRow(values, row, adm, axes) in r
    {
      var i :| 0 <= i < |rows| && rows[i] == row;
      var k :| 0 <= k < |ix| && ix[k] == i;
      assert r[k] == OutRow(values, row, adm, axes);
    }
  }

  /** The position of an axis among the index levels: Category, then IP,
      then SSP. */
  function AxisRank(a: Axis): nat {
    match a
    case CategoryAxis => 0
    case IpAxis => 1
    case SspAxis => 2
  }

  /** The axis columns, in Category, IP, SSP order, of the filters given. */
  function AxesOf(q: Query): (axes: seq<Axis>)
    ensures CategoryAxis in axes <==> q.category.Some?
    ensures IpAxis in axes <==> q.ip.Some?
    ensures SspAxis in axes <==> q.ssp.Some?
    ensures forall i, j :: 0 <= i < j < |axes| ==> AxisRank(axes[i]) < AxisRank(axes[j])
    ensures Distinct(axes)
  {
    (if q.category.Some? then [CategoryAxis] else []) +
    (if q.ip.Some? then [IpAxis] else []) +
    (if q.ssp.Some? then [SspAxis] else [])
  }

  /** The result for a set of admitted scenarios: the picked rows sorted by
      their axis values (missing values last); the columns of a table, or the
      single column "value" of a series. */
  function Assemble(values: Frame, adm: Universe, axes: seq<Axis>): Selection
    requires Shaped(values)
  {
    Selection(axes, values.series, if values.series then ["value"] else values.columns,
      SortBy(Picked(values, values.rows, adm, axes), RowKey))
  }


  /** Every filter argument names only admissible values. */
  predicate ArgsValid(q: Query, ips: seq<Pathway>, ssps: seq<Pathway>) {
    && (q.category.Some? ==> forall c :: c in Expand(q.category.value, AllCategories) ==> c in AllCategories)
    && (q.ip.Some? ==> forall v :: v in Expand(q.ip.value, Keys(ips)) ==> v in Keys(ips))
    && (q.ssp.Some? ==> forall v :: v in Expand(q.ssp.value, Keys(ssps)) ==> v in Keys(ssps))
  }

  lemma AllInOf(vs: seq<string>, allowed: set<string>)
    ensures AllIn(Some(vs), allowed) <==> forall v :: v in vs ==> v in allowed
  {
    var i := FirstOutside(vs, allowed);
    if i < |vs| {
      assert vs[i] in vs;
    }
  }

  /** The first inadmissible argument value, checking categories, then IPs,
      then SSPs, each in the order given. */
  function ArgError(q: Query, ips: seq<Pathway>, ssps: seq<Pathway>): (r: Option<SelectError>)
    ensures r.None? <==> ArgsValid(q, ips, ssps)
    ensures r.Some? ==> r.value.InvalidCategory? || r.value.InvalidIp? || r.value.InvalidSsp?
    ensures r.Some? && r.value.InvalidCategory? ==>
      q.category.Some? && r.value.category in Expand(q.category.value, AllCategories) && r.value.category !in AllCategories
    ensures r.Some? && r.value.InvalidIp? ==>
      (q.category.Some? ==> forall c :: c in Expand(q.category.value, AllCategories) ==> c in AllCategories) &&
      q.ip.Some? && r.value.ip in Expand(q.ip.value, Keys(ips)) && r.value.ip !in Keys(ips)
    ensures r.Some? && r.value.InvalidSsp? ==>
      (q.category.Some? ==> forall c :: c in Expand(q.category.value, AllCategories) ==> c in AllCategories) &&
      (q.ip.Some? ==> forall v :: v in Expand(q.ip.value, Keys(ips)) ==> v in Keys(ips)) &&
      q.ssp.Some? && r.value.ssp in Expand(q.ssp.value, Keys(ssps)) && r.value.ssp !in Keys(ssps)
  {
    var cats := Requested(q.category, AllCategories);
    var ipKeys := Requested(q.ip, Keys(ips));
    var sspKeys := Requested(q.ssp, Keys(ssps));
    AllInOf(if cats.Some? then cats.value else [], Elems(AllCategories));
    AllInOf(if ipKeys.Some? then ipKeys.value else [], Elems(Keys(ips)));
    AllInOf(if sspKeys.Some? then sspKeys.value else [], Elems(Keys(ssps)));
    if !AllIn(cats, Elems(AllCategories)) then
      Some(InvalidCategory(cats.value[FirstOutside(cats.value, Elems(AllCategories))]))
    else if !AllIn(ipKeys, Elems(Keys(ips))) then
      Some(InvalidIp(ipKeys.value[FirstOutside(ipKeys.value, Elems(Keys(ips)))]))
    else if !AllIn(sspKeys, Elems(Keys(ssps))) then
      Some(InvalidSsp(sspKeys.value[FirstOutside(sspKeys.value, Elems(Keys(ssps)))]))
    else None
  }

  /** The filters of a call whose arguments are admissible: the categories,
      and the canonical scenarios of the IPs and of the SSPs. */
  function FilterOf(q: Query, ips: seq<Pathway>, ssps: seq<Pathway>): (f: Filter)
    requires ArgsValid(q, ips, ssps)
    ensures f.cats.Some? <==> q.category.Some?
    ensures f.ipNames.Some? <==> q.ip.Some?
    ensures f.sspNames.Some? <==> q.ssp.Some?
  {
    Filter(
      Requested(q.category, AllCategories),
      if q.ip.Some? then Some(Canonicals(ips, Expand(q.ip.value, Keys(ips)))) else None,
      if q.ssp.Some? then Some(Canonicals(ssps, Expand(q.ssp.value, Keys(ssps)))) else None)
  }

  /** The universe a call starts from. */
  function BaseOf(q: Query, scenarios: Universe, vetted: Universe): Universe {
    if q.vetted then vetted else scenarios
  }

  /** The first requested canonical SSP scenario that neither survives the
      filters nor exists in the full universe. */
  function MissingCanonical(f: Filter, kept: Universe, all: Universe): (r: Option<Name>)
    ensures r.None? <==> (f.sspNames.Some? ==> forall n :: n in f.sspNames.value ==> n in kept || n in all)
    ensures r.Some? ==> f.sspNames.Some? && r.value in f.sspNames.value && r.value !in kept && r.value !in all
  {
    if f.sspNames.None? then None
    else
      var names := f.sspNames.value;
      var i := FirstOutside(names, kept.Keys + all.Keys);
      AllInOf(names, kept.Keys + all.Keys);
      if i < |names| then Some(names[i]) else None
  }

  /** Everything `select` decides before it touches the values: the chosen
      universe, the filters and the axes. */
  datatype Plan = Plan(base: Universe, filter: Filter, axes: seq<Axis>)

  /** Validation and errors, in the order they are raised: an unknown category,
      IP or SSP; a requested canonical SSP scenario found in neither the
      filtered selection nor the full universe; a CurPol or NDC argument. */
  function PlanOf(scenarios: Universe, vetted: Universe, ips: seq<Pathway>, ssps: seq<Pathway>, q: Query): Result<Plan, SelectError> {
    match ArgError(q, ips, ssps)
    case Some(e) => Failure(e)
    case None =>
      var f := FilterOf(q, ips, ssps);
      var base := BaseOf(q, scenarios, vetted);
      match MissingCanonical(f, Filtered(base, f), scenarios)
      case Some(n) => Failure(MissingScenario(n))
      case None =>
        if q.curpol.Some? then Failure(NotImplemented("CurPol"))
        else if q.ndc.Some? then Failure(NotImplemented("NDC"))
        else Success(Plan(base, f, AxesOf(q)))
  }

  /** `select`: the admitted scenarios' rows of `values`, sorted and indexed by
      the active axes. */
  function SelectSpec(values: Frame, scenarios: Universe, vetted: Universe, ips: seq<Pathway>, ssps: seq<Pathway>, q: Query): Result<Selection, SelectError>
    requires Shaped(values)
  {
    match PlanOf(scenarios, vetted, ips, ssps, q)
    case Failure(e) => Failure(e)
    case Success(p) => Success(Assemble(values, AdmittedMap(p.base, scenarios, p.filter), p.axes))
  }

  /** `select` succeeds exactly when its arguments are admissible, every
      requested canonical SSP scenario survives the filters or exists in the
      full universe, and no CurPol or NDC filter is given; a canonical
      scenario present in the full universe is always enough. */
  lemma SelectSucceeds(values: Frame, scenarios: Universe, vetted: Universe, ips: seq<Pathway>, ssps: seq<Pathway>, q: Query)
    requires Shaped(values)
    ensures SelectSpec(values, scenarios, vetted, ips, ssps, q).Success? <==>
      && ArgsValid(q, ips, ssps)
      && MissingCanonical(FilterOf(q, ips, ssps), Filtered(BaseOf(q, scenarios, vetted), FilterOf(q, ips, ssps)), scenarios).None?
      && q.curpol.None? && q.ndc.None?
    ensures
      (&& ArgsValid(q, ips, ssps) && q.curpol.None? && q.ndc.None?
       && (q.ssp.Some? ==> forall n :: n in FilterOf(q, ips, ssps).sspNames.value ==> n in scenarios))
      ==> SelectSpec(values, scenarios, vetted, ips, ssps, q).Success?
  {
  }

  /** An inadmissible argument is refused, naming an inadmissible value of the
      first axis (categories, IPs, SSPs) that has one. */
  lemma SelectRejectsArgs(values: Frame, scenarios: Universe, vetted: Universe, ips: seq<Pathway>, ssps: seq<Pathway>, q: Query)
    requires Shaped(values) && !ArgsValid(q, ips, ssps)
    ensures
      var r := SelectSpec(values, scenarios, vetted, ips, ssps, q);
      && r.Failure?
      && (r.error.InvalidCategory? || r.error.InvalidIp? || r.error.InvalidSsp?)
      && (r.error.InvalidCategory? ==>
            q.category.Some? && r.error.category in Expand(q.category.value, AllCategories) && r.error.category !in AllCategories)
      && (r.error.InvalidIp? ==>
            q.ip.Some? && r.error.ip in Expand(q.ip.value, Keys(ips)) && r.error.ip !in Keys(ips))
      && (r.error.InvalidSsp? ==>
            q.ssp.Some? && r.error.ssp in Expand(q.ssp.value, Keys(ssps)) && r.error.ssp !in Keys(ssps))
      && (q.category.Some? && (exists c :: c in Expand(q.category.value, AllCategories) && c !in AllCategories) ==>
            r.error.InvalidCategory?)
      && (q.ip.Some? && (exists v :: v in Expand(q.ip.value, Keys(ips)) && v !in Keys(ips)) ==>
            r.error.InvalidCategory? || r.error.InvalidIp?)
  {
  }

  /** With admissible arguments and every requested canonical SSP scenario in
      the full universe, a CurPol argument is refused, and failing that an NDC
      argument. */
  lemma SelectRefusesCurPolAndNdc(values: Frame, scenarios: Universe, vetted: Universe, ips: seq<Pathway>, ssps: seq<Pathway>, q: Query)
    requires Shaped(values) && ArgsValid(q, ips, ssps)
    requires q.ssp.Some? ==> forall n :: n in FilterOf(q, ips, ssps).sspNames.value ==> n in scenarios
    ensures q.curpol.Some? ==> SelectSpec(values, scenarios, vetted, ips, ssps, q) == Failure(NotImplemented("CurPol"))
    ensures q.curpol.None? && q.ndc.Some? ==> SelectSpec(values, scenarios, vetted, ips, ssps, q) == Failure(NotImplemented("NDC"))
  {
  }

  /** The single value "all" means every admissible value of its axis. */
  lemma AllMeansEveryValue(values: Frame, scenarios: Universe, vetted: Universe, ips: seq<Pathway>, ssps: seq<Pathway>, q: Query)
    requires Shaped(values)
    ensures q.category == Some(Scalar("all")) ==>
      SelectSpec(values, scenarios, vetted, ips, ssps, q) ==
      SelectSpec(values, scenarios, vetted, ips, ssps, q.(category := Some(List(AllCategories))))
    ensures q.ip == Some(Scalar("all")) ==>
      SelectSpec(values, scenarios, vetted, ips, ssps, q) ==
      SelectSpec(values, scenarios, vetted, ips, ssps, q.(ip := Some(List(Keys(ips)))))
    ensures q.ssp == Some(Scalar("all")) ==>
      SelectSpec(values, scenarios, vetted, ips, ssps, q) ==
      SelectSpec(values, scenarios, vetted, ips, ssps, q.(ssp := Some(List(Keys(ssps)))))
  {
    if q.category == Some(Scalar("all")) {
      SameRequests(values, scenarios, vetted, ips, ssps, q, q.(category := Some(List(AllCategories))));
    }
    if q.ip == Some(Scalar("all")) {
      SameRequests(values, scenarios, vetted, ips, ssps, q, q.(ip := Some(List(Keys(ips)))));
    }
    if q.ssp == Some(Scalar("all")) {
      SameRequests(values, scenarios, vetted, ips, ssps, q, q.(ssp := Some(List(Keys(ssps)))));
    }
  }

  /** Two calls whose arguments expand to the same lists select the same. */
  lemma SameRequests(values: Frame, scenarios: Universe, vetted: Universe, ips: seq<Pathway>, ssps: seq<Pathway>, q: Query, q': Query)
    requires Shaped(values)
    requires Requested(q.category, AllCategories) == Requested(q'.category, AllCategories)
    requires Requested(q.ip, Keys(ips)) == Requested(q'.ip, Keys(ips))
    requires Requested(q.ssp, Keys(ssps)) == Requested(q'.ssp, Keys(ssps))
    requires q.curpol == q'.curpol && q.ndc == q'.ndc && q.vetted == q'.vetted
    ensures SelectSpec(values, scenarios, vetted, ips, ssps, q) == SelectSpec(values, scenarios, vetted, ips, ssps, q')
  {
    SamePlans(scenarios, vetted, ips, ssps, q, q');
  }

  lemma SamePlans(scenarios: Universe, vetted: Universe, ips: seq<Pathway>, ssps: seq<Pathway>, q: Query, q': Query)
    requires Requested(q.category, AllCategories) == Requested(q'.category, AllCategories)
    requires Requested(q.ip, Keys(ips)) == Requested(q'.ip, Keys(ips))
    requires Requested(q.ssp, Keys(ssps)) == Requested(q'.ssp, Keys(ssps))
    requires q.curpol == q'.curpol && q.ndc == q'.ndc && q.vetted == q'.vetted
    ensures PlanOf(scenarios, vetted, ips, ssps, q) == PlanOf(scenarios, vetted, ips, ssps, q')
  {
    assert ArgError(q, ips, ssps) == ArgError(q', ips, ssps);
    SameAxes(q, q', ips, ssps);
    if ArgsValid(q, ips, ssps) {
      assert FilterOf(q, ips, ssps) == FilterOf(q', ips, ssps);
    }
  }

  /** The axes depend only on which filters are given. */
  lemma SameAxes(q: Query, q': Query, ips: seq<Pathway>, ssps: seq<Pathway>)
    requires Requested(q.category, AllCategories) == Requested(q'.category, AllCategories)
    requires Requested(q.ip, Keys(ips)) == Requested(q'.ip, Keys(ips))
    requires Requested(q.ssp, Keys(ssps)) == Requested(q'.ssp, Keys(ssps))
    ensures AxesOf(q) == AxesOf(q')
  {
    assert q.category.Some? == q'.category.Some?;
    assert q.ip.Some? == q'.ip.Some?;
    assert q.ssp.Some? == q'.ssp.Some?;
  }

  /** The scenarios a call with admissible arguments admits. */
  function AdmittedOf(scenarios: Universe, vetted: Universe, ips: seq<Pathway>, ssps: seq<Pathway>, q: Query): Universe
    requires ArgsValid(q, ips, ssps)
  {
    AdmittedMap(BaseOf(q, scenarios, vetted), scenarios, FilterOf(q, ips, ssps))
  }

  lemma SelectValue(values: Frame, scenarios: Universe, vetted: Universe, ips: seq<Pathway>, ssps: seq<Pathway>, q: Query)
    requires Shaped(values)
    requires SelectSpec(values, scenarios, vetted, ips, ssps, q).Success?
    ensures ArgsValid(q, ips, ssps)
    ensures SelectSpec(values, scenarios, vetted, ips, ssps, q).value ==
      Assemble(values, AdmittedOf(scenarios, vetted, ips, ssps, q), AxesOf(q))
  {
    var plan := PlanOf(scenarios, vetted, ips, ssps, q);
    assert plan.Success?;
    assert ArgError(q, ips, ssps).None?;
    assert plan.value == Plan(BaseOf(q, scenarios, vetted), FilterOf(q, ips, ssps), AxesOf(q));
  }

  /** The rows of a selection: exactly the rows of `values` whose scenario is
      admitted (as many times as they occur), each carrying its admitted
      metadata's axis values, sorted by those values; the axes are those of
      the filters given, in Category, IP, SSP order. */
  lemma SelectRows(values: Frame, scenarios: Universe, vetted: Universe, ips: seq<Pathway>, ssps: seq<Pathway>, q: Query)
    requires Shaped(values)
    requires SelectSpec(values, scenarios, vetted, ips, ssps, q).Success?
    ensures ArgsValid(q, ips, ssps)
    ensures
      var s := SelectSpec(values, scenarios, vetted, ips, ssps, q).value;
      var adm := AdmittedOf(scenarios, vetted, ips, ssps, q);
      && s.axes == AxesOf(q) && s.series == values.series
      && s.columns == (if values.series then ["value"] else values.columns)
      && SortedBy(s.rows, RowKey)
      && multiset(s.rows) == multiset(Picked(values, values.rows, adm, s.axes))
      && (forall x :: x in s.rows ==>
            x.name in Names(values.rows) && x.name in adm && x.keys == KeysOf(adm[x.name], s.axes))
      && (forall row :: row in values.rows && row.name in adm ==> OutRow(values, row, adm, s.axes) in s.rows)
  {
    SelectValue(values, scenarios, vetted, ips, ssps, q);
    var s := SelectSpec(values, scenarios, vetted, ips, ssps, q).value;
    var adm := AdmittedOf(scenarios, vetted, ips, ssps, q);
    var picked := Picked(values, values.rows, adm, s.axes);
    SortBySortsAndPermutes(picked, RowKey);
    assert s.rows == SortBy(picked, RowKey);
    forall x | x in s.rows ensures x in picked {
      assert x in multiset(s.rows);
    }
    forall x | x in picked ensures x in s.rows {
      assert x in multiset(picked);
    }
  }

  /** Every admitted scenario satisfies the filters given: its category is one
      of those requested, it is the canonical scenario of a requested IP and
      of a requested SSP; and it comes from the chosen universe unless it is a
      requested canonical SSP scenario. */
  lemma SelectRespectsFilters(scenarios: Universe, vetted: Universe, ips: seq<Pathway>, ssps: seq<Pathway>, q: Query, s: Name)
    requires ArgsValid(q, ips, ssps)
    requires s in AdmittedOf(scenarios, vetted, ips, ssps, q)
    ensures
      var m := AdmittedOf(scenarios, vetted, ips, ssps, q)[s];
      && (q.category.Some? ==> m.category.Some? && m.category.value in Expand(q.category.value, AllCategories))
      && (q.ip.Some? ==> s in Canonicals(ips, Expand(q.ip.value, Keys(ips))))
      && (q.ssp.Some? ==> s in Canonicals(ssps, Expand(q.ssp.value, Keys(ssps))))
      && (s in BaseOf(q, scenarios, vetted) || q.ssp.Some?)
  {
  }

  /** A requested canonical SSP scenario of a successful call is admitted
      whenever it passes the category and IP filters in the full universe,
      even if the chosen universe lacks it; with no category or IP filter
      every requested canonical SSP scenario is admitted. */
  lemma SelectAddsCanonicalSsp(values: Frame, scenarios: Universe, vetted: Universe, ips: seq<Pathway>, ssps: seq<Pathway>, q: Query, n: Name)
    requires Shaped(values)
    requires SelectSpec(values, scenarios, vetted, ips, ssps, q).Success?
    requires q.ssp.Some?
    ensures ArgsValid(q, ips, ssps)
    ensures
      && n in Canonicals(ssps, Expand(q.ssp.value, Keys(ssps))) && n in scenarios
      && (q.category.Some? ==>
            scenarios[n].category.Some? && scenarios[n].category.value in Expand(q.category.value, AllCategories))
      && (q.ip.Some? ==> n in Canonicals(ips, Expand(q.ip.value, Keys(ips))))
      ==> n in AdmittedOf(scenarios, vetted, ips, ssps, q)
    ensures q.category.None? && q.ip.None? && n in Canonicals(ssps, Expand(q.ssp.value, Keys(ssps))) ==>
      n in AdmittedOf(scenarios, vetted, ips, ssps, q)
  {
  }

  /** Without filters the rows keep the order of `values`, and are those of
      the chosen universe's scenarios. */
  lemma SelectWithoutFiltersKeepsOrder(values: Frame, scenarios: Universe, vetted: Universe, ips: seq<Pathway>, ssps: seq<Pathway>, q: Query)
    requires Shaped(values)
    requires q.category.None? && q.ip.None? && q.ssp.None? && q.curpol.None? && q.ndc.None?
    ensures SelectSpec(values, scenarios, vetted, ips, ssps, q).Success?
    ensures SelectSpec(values, scenarios, vetted, ips, ssps, q).value.rows ==
      Picked(values, values.rows, BaseOf(q, scenarios, vetted), [])
  {
    var base := BaseOf(q, scenarios, vetted);
    var adm := AdmittedOf(scenarios, vetted, ips, ssps, q);
    assert adm == base;
    assert AxesOf(q) == [];
    SelectValue(values, scenarios, vetted, ips, ssps, q);
    var picked := Picked(values, values.rows, base, []);
    forall i, j | 0 <= i < j < |picked| ensures KeyLe(RowKey(picked[i]), RowKey(picked[j])) {
      assert picked[i] in picked;
    }
    SortByOfSorted(picked, RowKey);
  }

  /** Restricting to vetted scenarios never adds a scenario: when the vetted
      universe is part of the full one, a call over vetted scenarios that
      succeeds also succeeds over all scenarios, and admits no more. */
  lemma VettedWithinAll(values: Frame, scenarios: Universe, vetted: Universe, ips: seq<Pathway>, ssps: seq<Pathway>, q: Query)
    requires Shaped(values)
    requires forall s :: s in vetted ==> s in scenarios && vetted[s] == scenarios[s]
    requires q.vetted && SelectSpec(values, scenarios, vetted, ips, ssps, q).Success?
    ensures SelectSpec(values, scenarios, vetted, ips, ssps, q.(vetted := false)).Success?
    ensures ArgsValid(q, ips, ssps)
    ensures AdmittedOf(scenarios, vetted, ips, ssps, q).Keys <= AdmittedOf(scenarios, vetted, ips, ssps, q.(vetted := false)).Keys
  {
    var q' := q.(vetted := false);
    assert ArgError(q, ips, ssps) == ArgError(q', ips, ssps);
    var f := FilterOf(q, ips, ssps);
    assert FilterOf(q', ips, ssps) == f;
    assert MissingCanonical(f, Filtered(vetted, f), scenarios).None?;
    assert MissingCanonical(f, Filtered(scenarios, f), scenarios).None?;
    assert PlanOf(scenarios, vetted, ips, ssps, q').Success?;
    AdmittedWithinBase(vetted, scenarios, f);
  }

  /** Admitting from a part of the full universe admits no more than
      admitting from all of it. */
  lemma AdmittedWithinBase(base: Universe, all: Universe, f: Filter)
    requires forall s :: s in base ==> s in all && base[s] == all[s]
    ensures AdmittedMap(base, all, f).Keys <= AdmittedMap(all, all, f).Keys
  {
  }

  /** The SSP add-back as the source writes it: any requested canonical SSP
      scenario missing after filtering is appended from the full universe,
      whether it went missing through vetting or through the category and IP
      filters. */
  function AdmittedAsWritten(base: Universe, all: Universe, f: Filter): (r: Universe)
    ensures forall s :: s in r <==>
      (s in base && Passes(f, s, base[s])) || (f.sspNames.Some? && s in f.sspNames.value && s in all)
  {
    map s | s in base.Keys + all.Keys &&
      ((s in base && Passes(f, s, base[s])) || (f.sspNames.Some? && s in f.sspNames.value && s in all)) ::
      if s in base && Passes(f, s, base[s]) then base[s] else all[s]
  }

  /** `select` with the add-back as written. */
  function SelectAsWritten(values: Frame, scenarios: Universe, vetted: Universe, ips: seq<Pathway>, ssps: seq<Pathway>, q: Query): Result<Selection, SelectError>
    requires Shaped(values)
  {
    match PlanOf(scenarios, vetted, ips, ssps, q)
    case Failure(e) => Failure(e)
    case Success(p) => Success(Assemble(values, AdmittedAsWritten(p.base, scenarios, p.filter), p.axes))
  }

  /** As written, every requested canonical SSP scenario is in the selection
      after the add-back, whatever the other filters say. */
  lemma AsWrittenAddsEveryCanonicalSsp(scenarios: Universe, vetted: Universe, ips: seq<Pathway>, ssps: seq<Pathway>, q: Query, n: Name)
    requires PlanOf(scenarios, vetted, ips, ssps, q).Success? && q.ssp.Some?
    ensures ArgsValid(q, ips, ssps)
    ensures n in Canonicals(ssps, Expand(q.ssp.value, Keys(ssps))) ==>
      var p := PlanOf(scenarios, vetted, ips, ssps, q).value;
      n in AdmittedAsWritten(p.base, scenarios, p.filter)
  {
  }

  /** As written, the add-back lets through a canonical SSP scenario of
      category C3 when only C1 is requested; the corrected selection leaves it
      out. */
  lemma AsWrittenIgnoresCategory()
    ensures
      var u := map["M S" := Meta(Some("C3"), Some("PASS"), Some(true), None, Some("SSP5-8.5"))];
      var ssps := [Pathway("SSP5-85", "SSP5-8.5", "M S")];
      var values := Frame(false, ["2030"], [Row("M S", map["2030" := Some(1.0)])]);
      var q := Query(Some(Scalar("C1")), None, Some(Scalar("SSP5-85")), None, None, true);
      && SelectAsWritten(values, u, u, [], ssps, q) ==
           Success(Selection([CategoryAxis, SspAxis], false, ["2030"],
             [SelRow([Some("C3"), Some("SSP5-8.5")], "M S", map["2030" := Some(1.0)])]))
      && SelectSpec(values, u, u, [], ssps, q) == Success(Selection([CategoryAxis, SspAxis], false, ["2030"], []))
  {
    var m := Meta(Some("C3"), Some("PASS"), Some(true), None, Some("SSP5-8.5"));
    var u := map["M S" := m];
    var ssps := [Pathway("SSP5-85", "SSP5-8.5", "M S")];
    var values := Frame(false, ["2030"], [Row("M S", map["2030" := Some(1.0)])]);
    var q := Query(Some(Scalar("C1")), None, Some(Scalar("SSP5-85")), None, None, true);
    var axes := [CategoryAxis, SspAxis];
    var flt := Filter(Some(["C1"]), None, Some(["M S"]));
    CounterexamplePlan();
    CounterexampleAdmitted();
    CounterexampleRows();
  }

  /** The counterexample's scenario fails the category filter: the corrected
      add-back admits nothing, the written one admits it. */
  lemma CounterexampleAdmitted()
    ensures
      var u := map["M S" := Meta(Some("C3"), Some("PASS"), Some(true), None, Some("SSP5-8.5"))];
      var flt := Filter(Some(["C1"]), None, Some(["M S"]));
      AdmittedMap(u, u, flt) == map[] && AdmittedAsWritten(u, u, flt) == u
  {
    var m := Meta(Some("C3"), Some("PASS"), Some(true), None, Some("SSP5-8.5"));
    assert !Passes(Filter(Some(["C1"]), None, Some(["M S"])), "M S", m);
  }

  /** The plan of the counterexample call: C1 and SSP5-85 are admissible, and
      the canonical scenario exists. */
  lemma CounterexamplePlan()
    ensures
      var u := map["M S" := Meta(Some("C3"), Some("PASS"), Some(true), None, Some("SSP5-8.5"))];
      var ssps := [Pathway("SSP5-85", "SSP5-8.5", "M S")];
      var q := Query(Some(Scalar("C1")), None, Some(Scalar("SSP5-85")), None, None, true);
      PlanOf(u, u, [], ssps, q) == Success(Plan(u, Filter(Some(["C1"]), None, Some(["M S"])), [CategoryAxis, SspAxis]))
  {
    var m := Meta(Some("C3"), Some("PASS"), Some(true), None, Some("SSP5-8.5"));
    var u := map["M S" := m];
    var ssps := [Pathway("SSP5-85", "SSP5-8.5", "M S")];
    var q := Query(Some(Scalar("C1")), None, Some(Scalar("SSP5-85")), None, None, true);
    var flt := Filter(Some(["C1"]), None, Some(["M S"]));
    CounterexampleFilter();
    assert ArgError(q, [], ssps) == None;
    assert !Passes(flt, "M S", m);
    assert Filtered(u, flt) == map[];
    assert MissingCanonical(flt, map[], u) == None;
    assert AxesOf(q) == [CategoryAxis, SspAxis];
  }

  /** The counterexample call's arguments are admissible, and its SSP filter
      names the one canonical scenario. */
  lemma CounterexampleFilter()
    ensures
      var ssps := [Pathway("SSP5-85", "SSP5-8.5", "M S")];
      var q := Query(Some(Scalar("C1")), None, Some(Scalar("SSP5-85")), None, None, true);
      && ArgsValid(q, [], ssps)
      && FilterOf(q, [], ssps) == Filter(Some(["C1"]), None, Some(["M S"]))
  {
    var ssps := [Pathway("SSP5-85", "SSP5-8.5", "M S")];
    var q := Query(Some(Scalar("C1")), None, Some(Scalar("SSP5-85")), None, None, true);
    assert Keys(ssps) == ["SSP5-85"];
    assert Lookup(ssps, "SSP5-85") == ssps[0];
    assert Expand(q.ssp.value, Keys(ssps)) == ["SSP5-85"];
    assert Canonicals(ssps, ["SSP5-85"]) == ["M S"];
  }

  /** The rows of the counterexample's values, picked with and without the
      scenario. */
  lemma CounterexampleRows()
    ensures
      var u := map["M S" := Meta(Some("C3"), Some("PASS"), Some(true), None, Some("SSP5-8.5"))];
      var values := Frame(false, ["2030"], [Row("M S", map["2030" := Some(1.0)])]);
      var axes := [CategoryAxis, SspAxis];
      && Picked(values, values.rows, u, axes) == [SelRow([Some("C3"), Some("SSP5-8.5")], "M S", map["2030" := Some(1.0)])]
      && Picked(values, values.rows, map[], axes) == []
  {
    var u := map["M S" := Meta(Some("C3"), Some("PASS"), Some(true), None, Some("SSP5-8.5"))];
    var values := Frame(false, ["2030"], [Row("M S", map["2030" := Some(1.0)])]);
    var axes := [CategoryAxis, SspAxis];
    var row := values.rows[0];
    assert values.rows[1..] == [];
    assert OutRow(values, row, u, axes) == SelRow([Some("C3"), Some("SSP5-8.5")], "M S", map["2030" := Some(1.0)]);
  }

  /** With no category or IP filter the two add-backs agree. */
  lemma AsWrittenAgreesWithoutOtherFilters(values: Frame, scenarios: Universe, vetted: Universe, ips: seq<Pathway>, ssps: seq<Pathway>, q: Query)
    requires Shaped(values) && q.category.None? && q.ip.None?
    ensures SelectAsWritten(values, scenarios, vetted, ips, ssps, q) == SelectSpec(values, scenarios, vetted, ips, ssps, q)
  {
    match PlanOf(scenarios, vetted, ips, ssps, q)
    case Failure(_) =>
    case Success(p) =>
      AddBacksAgree(p.base, scenarios, p.filter);
  }

  lemma AddBacksAgree(base: Universe, all: Universe, f: Filter)
    requires f.cats.None? && f.ipNames.None?
    ensures AdmittedAsWritten(base, all, f) == AdmittedMap(base, all, f)
  {
  }

  /** The first element outside `allowed` is at `i` when everything before
      `i` is inside. */
  lemma {:induction false} FirstOutsideAt(vs: seq<string>, allowed: set<string>, i: nat)
    requires i < |vs| && vs[i] !in allowed
    requires forall j :: 0 <= j < i ==> vs[j] in allowed
    ensures FirstOutside(vs, allowed) == i
  {
    if i > 0 {
      FirstOutsideAt(vs[1..], allowed, i - 1);
    }
  }

  /** The error `select` raises at the first inadmissible category. */
  lemma CategoryErrorAt(scenarios: Universe, vetted: Universe, ips: seq<Pathway>, ssps: seq<Pathway>, q: Query, i: nat)
    requires q.category.Some?
    requires i < |Expand(q.category.value, AllCategories)|
    requires Expand(q.category.value, AllCategories)[i] !in AllCategories
    requires forall j :: 0 <= j < i ==> Expand(q.category.value, AllCategories)[j] in AllCategories
    ensures PlanOf(scenarios, vetted, ips, ssps, q) ==
      Failure(InvalidCategory(Expand(q.category.value, AllCategories)[i]))
  {
    var cs := Expand(q.category.value, AllCategories);
    FirstOutsideAt(cs, Elems(AllCategories), i);
    AllInOf(cs, Elems(AllCategories));
  }

  /** The error `select` raises at the first inadmissible IP. */
  lemma IpErrorAt(scenarios: Universe, vetted: Universe, ips: seq<Pathway>, ssps: seq<Pathway>, q: Query, i: nat)
    requires q.ip.Some?
    requires q.category.Some? ==> forall c :: c in Expand(q.category.value, AllCategories) ==> c in AllCategories
    requires i < |Expand(q.ip.value, Keys(ips))|
    requires Expand(q.ip.value, Keys(ips))[i] !in Keys(ips)
    requires forall j :: 0 <= j < i ==> Expand(q.ip.value, Keys(ips))[j] in Keys(ips)
    ensures PlanOf(scenarios, vetted, ips, ssps, q) ==
      Failure(InvalidIp(Expand(q.ip.value, Keys(ips))[i]))
  {
    var vs := Expand(q.ip.value, Keys(ips));
    FirstOutsideAt(vs, Elems(Keys(ips)), i);
    AllInOf(vs, Elems(Keys(ips)));
    if q.category.Some? {
      AllInOf(Expand(q.category.value, AllCategories), Elems(AllCategories));
    }
  }

  /** The error `select` raises at the first inadmissible SSP. */
  lemma SspErrorAt(scenarios: Universe, vetted: Universe, ips: seq<Pathway>, ssps: seq<Pathway>, q: Query, i: nat)
    requires q.ssp.Some?
    requires q.category.Some? ==> forall c :: c in Expand(q.category.value, AllCategories) ==> c in AllCategories
    requires q.ip.Some? ==> forall v :: v in Expand(q.ip.value, Keys(ips)) ==> v in Keys(ips)
    requires i < |Expand(q.ssp.value, Keys(ssps))|
    requires Expand(q.ssp.value, Keys(ssps))[i] !in Keys(ssps)
    requires forall j :: 0 <= j < i ==> Expand(q.ssp.value, Keys(ssps))[j] in Keys(ssps)
    ensures PlanOf(scenarios, vetted, ips, ssps, q) ==
      Failure(InvalidSsp(Expand(q.ssp.value, Keys(ssps))[i]))
  {
    var vs := Expand(q.ssp.value, Keys(ssps));
    FirstOutsideAt(vs, Elems(Keys(ssps)), i);
    AllInOf(vs, Elems(Keys(ssps)));
    if q.category.Some? {
      AllInOf(Expand(q.category.value, AllCategories), Elems(AllCategories));
    }
    if q.ip.Some? {
      AllInOf(Expand(q.ip.value, Keys(ips)), Elems(Keys(ips)));
    }
  }
}

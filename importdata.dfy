/** The row rewrites of utils/importdata.py: unit conversion, the sign flip of
    carbon-capture variables, variable renaming, the scenario metadata columns
    `Vetted`, `IP` and `SSP`, and the `Name` key of the vetting sheet. The
    dataset is an array of rows rewritten in place, as the source rewrites
    its data frame. */
module Ingest {
  import opened Tables

  /** The factor of every unit conversion (Mt to Gt, kt to Mt). */
  const Milli: real := 0.001

  /** The target unit of a unit `_convert_units` converts; `None` for any
      other unit. */
  function UnitTarget(unit: string): (t: Option<string>)
    ensures t.Some? <==> unit in {"Mt CO2/yr", "kt N2O/yr", "Mt CO2-equiv/yr"}
  {
    if unit == "Mt CO2/yr" then Some("Gt CO2/yr")
    else if unit == "kt N2O/yr" then Some("Mt N2O/yr")
    else if unit == "Mt CO2-equiv/yr" then Some("Gt CO2-equiv/yr")
    else None
  }

  /** No target unit is itself converted. */
  lemma TargetsAreNotSources(unit: string)
    requires UnitTarget(unit).Some?
    ensures UnitTarget(UnitTarget(unit).value).None?
  {
  }

  /** The cells of the year columns `years` multiplied by `k`; a missing
      value stays missing and every other column is untouched. */
  function ScaleCells(c: Cells, years: seq<YearTok>, k: real): (r: Cells)
    ensures r.Keys == c.Keys
    ensures forall y :: y in c && y !in years ==> r[y] == c[y]
    ensures forall y :: y in c && y in years ==> r[y] == if c[y].Some? then Some(c[y].value * k) else None
  {
    map y | y in c :: if y in years && c[y].Some? then Some(c[y].value * k) else c[y]
  }

  /** Negating twice, or scaling by 0.001 and then by 1000, restores the
      cells. */
  lemma ScaleCellsUndo(c: Cells, years: seq<YearTok>, k: real, k': real)
    requires (k == -1.0 && k' == -1.0) || (k == Milli && k' == 1000.0)
    ensures ScaleCells(ScaleCells(c, years, k), years, k') == c
  {
    var once := ScaleCells(c, years, k);
    var twice := ScaleCells(once, years, k');
    forall y | y in c
      ensures twice[y] == c[y]
    {
      if y in years && c[y].Some? {
        assert once[y].Some? && once[y].value == c[y].value * k;
        assert twice[y].Some? && twice[y].value == c[y].value * k * k';
      }
    }
  }

  /** What `_convert_units` makes of one row: a row in a converted unit gets
      the target unit and its year values scaled by 0.001; any other row is
      unchanged. */
  function ConvertRow(r: DataRow, years: seq<YearTok>): (c: DataRow)
    ensures c.name == r.name && c.variable == r.variable
    ensures UnitTarget(r.unit).None? ==> c == r
    ensures UnitTarget(r.unit).Some? ==>
      c.unit == UnitTarget(r.unit).value && c.cells == ScaleCells(r.cells, years, Milli)
    ensures UnitTarget(c.unit).None?
  {
    match UnitTarget(r.unit)
    case Some(t) => TargetsAreNotSources(r.unit); r.(unit := t, cells := ScaleCells(r.cells, years, Milli))
    case None => r
  }

  /** No converted unit is converted again: the conversion is idempotent. */
  lemma ConvertRowIdempotent(r: DataRow, years: seq<YearTok>)
    ensures ConvertRow(ConvertRow(r, years), years) == ConvertRow(r, years)
  {
  }

  /** A converted row's year values, scaled back by 1000, are the original
      ones. */
  lemma ConvertRowUndo(r: DataRow, years: seq<YearTok>)
    requires UnitTarget(r.unit).Some?
    ensures ScaleCells(ConvertRow(r, years).cells, years, 1000.0) == r.cells
  {
    ScaleCellsUndo(r.cells, years, Milli, 1000.0);
  }

  /** Multiplies the year values of the rows in `unit`, as
      `df.loc[df["Unit"] == unit, columns] *= k` does. */
  function ScaleIf(r: DataRow, unit: string, years: seq<YearTok>, k: real): DataRow {
    if r.unit == unit then r.(cells := ScaleCells(r.cells, years, k)) else r
  }

  /** Relabels the rows in `unit`, as `df.loc[df["Unit"] == unit, "Unit"] = target` does. */
  function RelabelIf(r: DataRow, unit: string, target: string): DataRow {
    if r.unit == unit then r.(unit := target) else r
  }

  /** The six statements of `_convert_units`, one after the other, on one row. */
  function ConvertSteps(r: DataRow, years: seq<YearTok>): DataRow {
    var r1 := RelabelIf(ScaleIf(r, "Mt CO2/yr", years, Milli), "Mt CO2/yr", "Gt CO2/yr");
    var r2 := RelabelIf(ScaleIf(r1, "kt N2O/yr", years, Milli), "kt N2O/yr", "Mt N2O/yr");
    RelabelIf(ScaleIf(r2, "Mt CO2-equiv/yr", years, Milli), "Mt CO2-equiv/yr", "Gt CO2-equiv/yr")
  }

  /** Because no target unit is a source unit, the statements scale each row
      at most once and agree with the per-row rule. */
  lemma ConvertStepsAtMostOnce(r: DataRow, years: seq<YearTok>)
    ensures ConvertSteps(r, years) == ConvertRow(r, years)
  {
  }

  /** Applies `f` to every row of the dataset, in place. */
  method RewriteRows(a: array<DataRow>, f: DataRow -> DataRow)
    modifies a
    ensures forall i :: 0 <= i < a.Length ==> a[i] == f(old(a[i]))
  {
    for i := 0 to a.Length
      invariant forall j :: 0 <= j < i ==> a[j] == f(old(a[j]))
      invariant forall j :: i <= j < a.Length ==> a[j] == old(a[j])
    {
      a[i] := f(a[i]);
    }
  }

  /** `_convert_units`: the three conversions, each a scaling of the year
      columns followed by a relabelling of the unit. */
  method ConvertUnits(a: array<DataRow>, years: seq<YearTok>)
    modifies a
    ensures forall i :: 0 <= i < a.Length ==> a[i] == ConvertRow(old(a[i]), years)
  {
    RewriteRows(a, r => ScaleIf(r, "Mt CO2/yr", years, Milli));
    RewriteRows(a, r => RelabelIf(r, "Mt CO2/yr", "Gt CO2/yr"));
    RewriteRows(a, r => ScaleIf(r, "kt N2O/yr", years, Milli));
    RewriteRows(a, r => RelabelIf(r, "kt N2O/yr", "Mt N2O/yr"));
    RewriteRows(a, r => ScaleIf(r, "Mt CO2-equiv/yr", years, Milli));
    RewriteRows(a, r => RelabelIf(r, "Mt CO2-equiv/yr", "Gt CO2-equiv/yr"));
    forall i | 0 <= i < a.Length
      ensures a[i] == ConvertRow(old(a[i]), years)
    {
      ConvertStepsAtMostOnce(old(a[i]), years);
    }
  }

  /** `str.contains(sub)`: `sub` occurs in `s` at some position. */
  predicate Contains(s: string, sub: string) {
    |sub| <= |s| && (s[..|sub|] == sub || Contains(s[1..], sub))
  }

  /** A string without the letter 'C' contains no "CCS". */
  lemma {:induction false} NoCcsWithoutC(s: string)
    requires 'C' !in s
    ensures !Contains(s, "CCS")
  {
    if 3 <= |s| {
      assert s[0] in s;
      assert s[..3] != "CCS";
      assert forall c :: c in s[1..] ==> c in s;
      NoCcsWithoutC(s[1..]);
    }
  }

  /** The sign flip of a carbon-capture row: a row whose variable contains
      "CCS" has its year values negated; any other row is unchanged. */
  function NegateRow(r: DataRow, years: seq<YearTok>): (c: DataRow)
    ensures c.name == r.name && c.variable == r.variable && c.unit == r.unit
    ensures !Contains(r.variable, "CCS") ==> c == r
    ensures Contains(r.variable, "CCS") ==> c.cells == ScaleCells(r.cells, years, -1.0)
  {
    if Contains(r.variable, "CCS") then r.(cells := ScaleCells(r.cells, years, -1.0)) else r
  }

  /** The sign flip undoes itself. */
  lemma NegateRowTwice(r: DataRow, years: seq<YearTok>)
    ensures NegateRow(NegateRow(r, years), years) == r
  {
    if Contains(r.variable, "CCS") {
      ScaleCellsUndo(r.cells, years, -1.0, -1.0);
    }
  }

  /** `data.loc[data["Variable"].str.contains("CCS"), YEARS] *= -1`. */
  method NegateCcs(a: array<DataRow>, years: seq<YearTok>)
    modifies a
    ensures forall i :: 0 <= i < a.Length ==> a[i] == NegateRow(old(a[i]), years)
  {
    RewriteRows(a, r => NegateRow(r, years));
  }

  /** The renaming of carbon-capture and sector variables, as key and new
      name in the order the source lists them. */
  const VarRename: seq<(string, string)> := [
    ("Carbon Sequestration|CCS|Biomass", "BECCS"),
    ("Emissions|CO2|Energy|Supply", "Energy Supply"),
    ("Carbon Sequestration|BECCS+DAC", "Energy Supply (neg.)"),
    ("Emissions|CO2|Energy|Supply Gross Positive", "Energy Supply (pos.)"),
    ("Emissions|CO2|AFOLU", "LULUCF"),
    ("Emissions|CO2|Energy|Demand|Transportation", "Transport"),
    ("Emissions|CO2|Energy|Demand|Residential and Commercial", "Buildings"),
    ("Emissions|CO2|Other", "Other")]

  /** No key is listed twice. */
  predicate DistinctKeys(rules: seq<(string, string)>) {
    forall i, j :: 0 <= i < j < |rules| ==> rules[i].0 != rules[j].0
  }

  /** `rules` lists the items of the dictionary `m`. */
  ghost predicate Lists(rules: seq<(string, string)>, m: map<string, string>) {
    && (forall p :: p in rules ==> p.0 in m && m[p.0] == p.1)
    && (forall k :: k in m ==> (k, m[k]) in rules)
  }

  /** The dictionary whose items are listed by `rules`. */
  function AsDict(rules: seq<(string, string)>): (m: map<string, string>)
    requires DistinctKeys(rules)
    ensures Lists(rules, m)
  {
    if rules == [] then map[]
    else
      var last := rules[|rules| - 1];
      var pre := rules[..|rules| - 1];
      assert rules == pre + [last];
      AsDict(pre)[last.0 := last.1]
  }

  /** No new name is itself renamed. */
  predicate NoChains(m: map<string, string>) {
    forall k :: k in m ==> m[k] !in m
  }

  /** The name a variable ends up with under the dictionary `m`. */
  function Renamed(m: map<string, string>, x: string): string {
    if x in m then m[x] else x
  }

  /** One rule of the renaming loop on one variable name. */
  function RenameStep(rule: (string, string), x: string): string {
    if x == rule.0 then rule.1 else x
  }

  /** The rules applied in order, the first rule first. */
  function ApplyRules(rules: seq<(string, string)>, x: string): string {
    if rules == [] then x else RenameStep(rules[|rules| - 1], ApplyRules(rules[..|rules| - 1], x))
  }

  /** Applying some of a chain-free dictionary's entries, in any order,
      renames exactly the variables whose entry was applied. */
  lemma {:induction false} ApplyRulesPartial(rules: seq<(string, string)>, m: map<string, string>, x: string)
    requires (forall p :: p in rules ==> p.0 in m && m[p.0] == p.1) && NoChains(m)
    ensures ApplyRules(rules, x) == if x in m && (x, m[x]) in rules then m[x] else x
  {
    if rules != [] {
      var pre := rules[..|rules| - 1];
      var last := rules[|rules| - 1];
      assert rules == pre + [last];
      assert forall p :: p in pre ==> p in rules;
      ApplyRulesPartial(pre, m, x);
      if x in m && (x, m[x]) in pre {
        assert m[x] !in m;
      }
    }
  }

  /** The renaming loop applies each entry of a chain-free dictionary once,
      so its result does not depend on the order of the entries. */
  lemma RenameOrderIrrelevant(rules: seq<(string, string)>, m: map<string, string>, x: string)
    requires Lists(rules, m) && NoChains(m)
    ensures ApplyRules(rules, x) == Renamed(m, x)
  {
    ApplyRulesPartial(rules, m, x);
  }

  /** Renaming is idempotent under a chain-free dictionary. */
  lemma RenamedIdempotent(m: map<string, string>, x: string)
    requires NoChains(m)
    ensures Renamed(m, Renamed(m, x)) == Renamed(m, x)
  {
  }

  /** No new name in the list is also a key in it. */
  predicate NoChainsIn(rules: seq<(string, string)>) {
    forall i, j :: 0 <= i < |rules| && 0 <= j < |rules| ==> rules[i].1 != rules[j].0
  }

  lemma NoChainsOfList(rules: seq<(string, string)>, m: map<string, string>)
    requires Lists(rules, m) && NoChainsIn(rules)
    ensures NoChains(m)
  {
    forall k | k in m
      ensures m[k] !in m
    {
      var i :| 0 <= i < |rules| && rules[i] == (k, m[k]);
    }
  }

  /** The source's renaming lists no key twice and has no chains. */
  lemma VarRenameChainFree()
    ensures DistinctKeys(VarRename) && NoChainsIn(VarRename)
  {
    VarRenameDistinct();
    VarRenameNoChains();
  }

  lemma VarRenameDistinct()
    ensures DistinctKeys(VarRename)
  {
  }

  lemma VarRenameNoChains()
    ensures NoChainsIn(VarRename)
  {
  }

  /** `data.loc[data["Variable"] == k, "Variable"] = v` on one row. */
  function RenameRow(r: DataRow, rule: (string, string)): DataRow {
    r.(variable := RenameStep(rule, r.variable))
  }

  /** The renaming loop: for each rule in order, the rows holding its key
      take its new name. */
  method RenameVariables(a: array<DataRow>, rules: seq<(string, string)>)
    modifies a
    ensures forall i :: 0 <= i < a.Length ==> a[i] == old(a[i]).(variable := ApplyRules(rules, old(a[i]).variable))
  {
    for j := 0 to |rules|
      invariant forall i :: 0 <= i < a.Length ==>
        a[i] == old(a[i]).(variable := ApplyRules(rules[..j], old(a[i]).variable))
    {
      var rule := rules[j];
      RewriteRows(a, r => RenameRow(r, rule));
      assert rules[..j + 1][..j] == rules[..j];
    }
    assert rules[..|rules|] == rules;
  }

  /** Lines 98-112 of `_create_extra_variables`: the sign flip of the
      carbon-capture rows, then the renaming; the flip sees the names before
      renaming. */
  method NegateAndRename(a: array<DataRow>, years: seq<YearTok>)
    modifies a
    ensures forall i :: 0 <= i < a.Length ==>
      a[i] == NegateRow(old(a[i]), years).(variable := Renamed(AsDict(VarRename), old(a[i]).variable))
  {
    VarRenameChainFree();
    NoChainsOfList(VarRename, AsDict(VarRename));
    NegateCcs(a, years);
    RenameVariables(a, VarRename);
    forall i | 0 <= i < a.Length
      ensures ApplyRules(VarRename, old(a[i]).variable) == Renamed(AsDict(VarRename), old(a[i]).variable)
    {
      RenameOrderIrrelevant(VarRename, AsDict(VarRename), old(a[i]).variable);
    }
  }

  /** An occurrence at position `k` is an occurrence. */
  lemma {:induction false} ContainsAt(s: string, sub: string, k: nat)
    requires k + |sub| <= |s| && s[k..k + |sub|] == sub
    ensures Contains(s, sub)
  {
    if k > 0 {
      assert s[1..][k - 1..k - 1 + |sub|] == s[k..k + |sub|];
      ContainsAt(s[1..], sub, k - 1);
    }
  }

  /** Direct-air-capture-and-BECCS rows are flipped because they are flipped
      before renaming: their name contains "CCS", their new name does not. */
  lemma FlipPrecedesRename(m: map<string, string>)
    requires Lists(VarRename, m)
    ensures Contains("Carbon Sequestration|BECCS+DAC", "CCS")
    ensures !Contains(Renamed(m, "Carbon Sequestration|BECCS+DAC"), "CCS")
  {
    BeccsDacContainsCcs();
    assert VarRename[2] == ("Carbon Sequestration|BECCS+DAC", "Energy Supply (neg.)");
    assert Renamed(m, "Carbon Sequestration|BECCS+DAC") == "Energy Supply (neg.)";
    EnergySupplyNegLacksCcs();
  }

  lemma EnergySupplyNegLacksCcs()
    ensures !Contains("Energy Supply (neg.)", "CCS")
  {
    NoCcsWithoutC("Energy Supply (neg.)");
  }

  lemma BeccsDacContainsCcs()
    ensures Contains("Carbon Sequestration|BECCS+DAC", "CCS")
  {
    var s := "Carbon Sequestration|BECCS+DAC";
    assert s[23..26] == "CCS";
    ContainsAt(s, "CCS", 23);
  }

  /** ASCII upper-casing of one character. */
  function UpperChar(c: char): (u: char)
    ensures !('a' <= u <= 'z')
    ensures 'a' <= c <= 'z' ==> 'A' <= u <= 'Z' && (u as int) - ('A' as int) == (c as int) - ('a' as int)
    ensures !('a' <= c <= 'z') ==> u == c
  {
    if 'a' <= c <= 'z' then (c as int - 32) as char else c
  }

  /** `str.upper` on ASCII text. */
  function Upper(s: string): (u: string)
    ensures |u| == |s|
    ensures forall i :: 0 <= i < |s| ==> u[i] == UpperChar(s[i])
  {
    seq(|s|, i requires 0 <= i < |s| => UpperChar(s[i]))
  }

  lemma UpperIdempotent(s: string)
    ensures Upper(Upper(s)) == Upper(s)
  {
  }

  /** The vetting flag after upper-casing: "PASS" in any mix of cases. */
  predicate IsPass(raw: string) {
    Upper(raw) == "PASS"
  }

  lemma IsPassCases(raw: string)
    ensures IsPass(raw) <==>
      |raw| == 4 && raw[0] in "Pp" && raw[1] in "Aa" && raw[2] in "Ss" && raw[3] in "Ss"
  {
    if |raw| == 4 && raw[0] in "Pp" && raw[1] in "Aa" && raw[2] in "Ss" && raw[3] in "Ss" {
      assert Upper(raw) == "PASS";
    }
    if IsPass(raw) {
      assert Upper(raw)[0] == 'P' && Upper(raw)[1] == 'A' && Upper(raw)[2] == 'S' && Upper(raw)[3] == 'S';
    }
  }

  /** A row of the vetting sheet, with its columns already renamed to Model
      and Scenario. */
  datatype SheetRow = SheetRow(model: string, scenario: Atom, category: Option<string>, vetting: Option<string>)

  /** A row of the vetting table after `_get_vetting`: indexed by `Name`,
      with the vetting flag upper-cased. */
  datatype VetRow = VetRow(name: Name, category: Option<string>, vetting: Option<string>)

  /** The `Name` key: the model, a space, and the scenario as a string. */
  function VettingName(model: string, scenario: Atom): (n: Name)
    ensures |n| == |model| + 1 + |Str(scenario)|
    ensures n[..|model|] == model && n[|model|] == ' ' && n[|model| + 1..] == Str(scenario)
  {
    model + " " + Str(scenario)
  }

  /** The key is unambiguous when model names contain no space. */
  lemma VettingNameInjective(m1: string, s1: Atom, m2: string, s2: Atom)
    requires ' ' !in m1 && ' ' !in m2
    requires VettingName(m1, s1) == VettingName(m2, s2)
    ensures m1 == m2 && Str(s1) == Str(s2)
  {
    var n := VettingName(m1, s1);
    FirstSpace(m1, Str(s1));
    FirstSpace(m2, Str(s2));
  }

  lemma FirstSpace(m: string, t: string)
    requires ' ' !in m
    ensures FirstIndex(m + " " + t, ' ') == |m|
  {
    var n := m + " " + t;
    assert n[|m|] == ' ';
    assert forall j :: 0 <= j < |m| ==> n[j] == m[j];
  }

  /** Without that condition two scenarios can share a key. */
  lemma VettingNameAmbiguous()
    ensures VettingName("A B", StrAtom("C")) == VettingName("A", StrAtom("B C"))
  {
  }

  /** `_get_vetting` after the sheet is read: each row keyed by its `Name`,
      with the vetting flag upper-cased; a missing flag stays missing. */
  function VettingTable(sheet: seq<SheetRow>): (t: seq<VetRow>)
    ensures |t| == |sheet|
    ensures forall i :: 0 <= i < |sheet| ==>
      && t[i].name == VettingName(sheet[i].model, sheet[i].scenario)
      && t[i].category == sheet[i].category
      && (t[i].vetting.Some? <==> sheet[i].vetting.Some?)
      && (sheet[i].vetting.Some? ==> t[i].vetting.value == Upper(sheet[i].vetting.value))
  {
    seq(|sheet|, i requires 0 <= i < |sheet| =>
      var r := sheet[i];
      VetRow(VettingName(r.model, r.scenario), r.category,
        if r.vetting.Some? then Some(Upper(r.vetting.value)) else None))
  }

  /** The `Vetted` column of one scenario: the upper-cased flag equals
      "PASS"; a missing flag is not a pass. */
  function VettedFlag(vetting: Option<string>): bool {
    vetting == Some("PASS")
  }

  /** A scenario is vetted exactly when its raw flag in the sheet reads
      "pass" in any mix of cases. */
  lemma VettedFromSheet(sheet: seq<SheetRow>, i: nat)
    requires i < |sheet|
    ensures VettedFlag(VettingTable(sheet)[i].vetting) <==> sheet[i].vetting.Some? && IsPass(sheet[i].vetting.value)
  {
  }

  /** The name of the last pathway of `table` whose canonical scenario is
      `s` (a later assignment overwrites an earlier one), or missing. */
  function Tag(table: seq<Pathway>, s: Name): (t: Option<string>)
    ensures t.None? <==> forall p :: p in table ==> p.scenario != s
    ensures t.Some? ==> exists p :: p in table && p.scenario == s && p.name == t.value
  {
    if table == [] then None
    else
      var last := table[|table| - 1];
      assert table == table[..|table| - 1] + [last];
      if last.scenario == s then Some(last.name) else Tag(table[..|table| - 1], s)
  }

  /** The canonical scenarios of a pathway table. */
  function Canonical(table: seq<Pathway>): (r: set<Name>)
    ensures forall s :: s in r <==> exists p :: p in table && p.scenario == s
  {
    set p | p in table :: p.scenario
  }

  /** The two pathway columns of the scenario table. */
  datatype Column = IpColumn | SspColumn

  function GetTag(m: Meta, col: Column): Option<string> {
    match col
    case IpColumn => m.ip
    case SspColumn => m.ssp
  }

  function SetTag(m: Meta, col: Column, v: Option<string>): (r: Meta)
    ensures GetTag(r, col) == v
  {
    match col
    case IpColumn => m.(ip := v)
    case SspColumn => m.(ssp := v)
  }

  /** The metadata of a row added by assignment to a missing label. */
  const NoMeta: Meta := Meta(None, None, None, None, None)

  lemma TagSnoc(table: seq<Pathway>, p: Pathway, s: Name)
    ensures Tag(table + [p], s) == if p.scenario == s then Some(p.name) else Tag(table, s)
    ensures Canonical(table + [p]) == Canonical(table) + {p.scenario}
  {
    assert (table + [p])[..|table|] == table;
  }

  /** `scenarios.loc[p.scenario, column] = p.name` for one pathway: the
      scenario's column is set, and a scenario the index lacks is added with
      missing metadata first. */
  function SetPathway(u: Universe, p: Pathway, col: Column): (r: Universe)
    ensures r.Keys == u.Keys + {p.scenario}
  {
    var m := if p.scenario in u then u[p.scenario] else NoMeta;
    u[p.scenario := SetTag(m, col, Some(p.name))]
  }

  /** The assignments of the pathways of `table`, in order. */
  function SetPathways(u: Universe, table: seq<Pathway>, col: Column): Universe {
    if table == [] then u else SetPathway(SetPathways(u, table[..|table| - 1], col), table[|table| - 1], col)
  }

  /** Assigning on a column missing everywhere tags each canonical scenario
      with the name of the last pathway naming it, adds each one the index
      lacks with missing metadata, and changes nothing else. */
  lemma {:induction false} SetPathwaysTags(u: Universe, table: seq<Pathway>, col: Column)
    requires forall s :: s in u ==> GetTag(u[s], col).None?
    ensures SetPathways(u, table, col).Keys == u.Keys + Canonical(table)
    ensures forall s :: s in u ==> SetPathways(u, table, col)[s] == SetTag(u[s], col, Tag(table, s))
    ensures forall s :: s in SetPathways(u, table, col) && s !in u ==>
      SetPathways(u, table, col)[s] == SetTag(NoMeta, col, Tag(table, s))
  {
    if table != [] {
      var pre := table[..|table| - 1];
      var p := table[|table| - 1];
      assert table == pre + [p];
      SetPathwaysTags(u, pre, col);
      SetPathwayStep(u, pre, p, SetPathways(u, pre, col), col);
    }
  }

  /** One more assignment keeps the tagging invariant. */
  lemma SetPathwayStep(u: Universe, pre: seq<Pathway>, p: Pathway, r0: Universe, col: Column)
    requires r0.Keys == u.Keys + Canonical(pre)
    requires forall s :: s in u ==> r0[s] == SetTag(u[s], col, Tag(pre, s))
    requires forall s :: s in r0 && s !in u ==> r0[s] == SetTag(NoMeta, col, Tag(pre, s))
    ensures SetPathway(r0, p, col).Keys == u.Keys + Canonical(pre + [p])
    ensures forall s :: s in u ==> SetPathway(r0, p, col)[s] == SetTag(u[s], col, Tag(pre + [p], s))
    ensures forall s :: s in SetPathway(r0, p, col) && s !in u ==>
      SetPathway(r0, p, col)[s] == SetTag(NoMeta, col, Tag(pre + [p], s))
  {
    var r := SetPathway(r0, p, col);
    TagSnoc(pre, p, p.scenario);
    forall s | s in u
      ensures r[s] == SetTag(u[s], col, Tag(pre + [p], s))
    {
      TagSnoc(pre, p, s);
      if s == p.scenario {
        SetTagTwice(u[s], col, Tag(pre, s), Some(p.name));
      }
    }
    forall s | s in r && s !in u
      ensures r[s] == SetTag(NoMeta, col, Tag(pre + [p], s))
    {
      TagSnoc(pre, p, s);
      if s == p.scenario && s in r0 {
        SetTagTwice(NoMeta, col, Tag(pre, s), Some(p.name));
      }
    }
  }

  /** A second assignment to the same column overwrites the first. */
  lemma SetTagTwice(m: Meta, col: Column, v: Option<string>, w: Option<string>)
    ensures SetTag(SetTag(m, col, v), col, w) == SetTag(m, col, w)
  {
  }

  /** `for p in table: scenarios.loc[p.scenario, column] = p.name`. */
  method TagColumn(u: Universe, table: seq<Pathway>, col: Column) returns (r: Universe)
    ensures r == SetPathways(u, table, col)
  {
    r := u;
    for j := 0 to |table|
      invariant r == SetPathways(u, table[..j], col)
    {
      assert table[..j + 1][..j] == table[..j];
      r := SetPathway(r, table[j], col);
    }
    assert table[..|table|] == table;
  }

  /** Lines 150-159 of `_create_metadata_df`: the `Vetted` column from the
      vetting flag, then the `IP` and `SSP` columns, missing except for the
      canonical scenarios, each tagged with its pathway's name. A canonical
      scenario the index lacks is added, with missing metadata. */
  method CreateMetadata(merged: Universe, ips: seq<Pathway>, ssps: seq<Pathway>) returns (r: Universe)
    ensures r.Keys == merged.Keys + Canonical(ips) + Canonical(ssps)
    ensures forall s :: s in merged ==>
      && r[s].category == merged[s].category && r[s].vetting == merged[s].vetting
      && r[s].vetted == Some(VettedFlag(merged[s].vetting))
    ensures forall s :: s in r && s !in merged ==>
      r[s].category.None? && r[s].vetting.None? && r[s].vetted.None?
    ensures forall s :: s in r ==> r[s].ip == Tag(ips, s) && r[s].ssp == Tag(ssps, s)
  {
    var vetted := map s | s in merged :: merged[s].(vetted := Some(VettedFlag(merged[s].vetting)), ip := None, ssp := None);
    var withIp := TagColumn(vetted, ips, IpColumn);
    r := TagColumn(withIp, ssps, SspColumn);
    TaggedTwice(vetted, ips, ssps);
  }

  /** The IP assignments, then the SSP assignments, on a table whose two
      columns are missing everywhere. */
  lemma TaggedTwice(v: Universe, ips: seq<Pathway>, ssps: seq<Pathway>)
    requires forall s :: s in v ==> v[s].ip.None? && v[s].ssp.None?
    ensures
      var r := SetPathways(SetPathways(v, ips, IpColumn), ssps, SspColumn);
      && r.Keys == v.Keys + Canonical(ips) + Canonical(ssps)
      && (forall s :: s in v ==> r[s] == v[s].(ip := Tag(ips, s), ssp := Tag(ssps, s)))
      && (forall s :: s in r && s !in v ==> r[s] == NoMeta.(ip := Tag(ips, s), ssp := Tag(ssps, s)))
  {
    var withIp := SetPathways(v, ips, IpColumn);
    SetPathwaysTags(v, ips, IpColumn);
    var r := SetPathways(withIp, ssps, SspColumn);
    SetPathwaysTags(withIp, ssps, SspColumn);
    forall s | s in r
      ensures s in v ==> r[s] == v[s].(ip := Tag(ips, s), ssp := Tag(ssps, s))
      ensures s !in v ==> r[s] == NoMeta.(ip := Tag(ips, s), ssp := Tag(ssps, s))
    {
      if s in withIp {
        assert r[s] == withIp[s].(ssp := Tag(ssps, s));
      } else {
        assert r[s] == NoMeta.(ssp := Tag(ssps, s));
        assert Tag(ips, s).None?;
      }
    }
  }
}

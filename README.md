# Emission scenarios: variable algebra, selection and ingestion rewrites

This project models two parts of a toolkit for IPCC-style emission scenario
data.

The first part is the variable algebra of `utils/datavar.py`:
- A `Var` holds one variable's values over the scenarios. In scalar mode it has one year and its values are a series. In vector mode it has a list of years and its values are a table.
- A `Var` is built from a variable name, or from explicit values.
- Its `select` filters the scenario universe by climate category, illustrative pathway (IP) and shared socioeconomic pathway (SSP), then sorts and indexes the result by those columns.
- The four operators harmonise the year modes of their operands, combine the values element-wise with pandas label alignment, and wrap the result in a new `Var`.
- `DataVar` is the factory that builds a `Var` over a dataset.

The second part is the row rewrites of `utils/importdata.py`:
- the unit conversion;
- the sign flip of carbon-capture variables and the renaming of variables;
- the `Vetted`, `IP` and `SSP` metadata columns;
- the `Name` key of the vetting sheet.

Modules, one concept each:
- `Tables` (`tables.dfy`): rows, frames, scenario metadata, `str` of an atom, and the missing-value fill.
- `Ordering` (`ordering.dfy`): the sort order pandas uses (strings by code point, missing values last, column by column), and a stable insertion sort proved sorted and a permutation.
- `Arithmetic` (`arithmetic.dfy`): `_check_and_harmonise_inputs`, label alignment and the element-wise operators, as pure functions.
- `Selection` (`selection.dfy`): what `select` returns, stated declaratively (`SelectSpec`), its properties, and the SSP add-back as written in the source.
- `DataVars` (`datavar.dfy`): the class `Var` and its constructors. The interpolation loop is imperative. `Select` is a step-by-step procedure proved equal to `SelectSpec`. `Apply` implements the operators. Also the class `DataVar`.
- `Ingest` (`importdata.dfy`): the dataset is an `array` of rows rewritten in place. The metadata columns are built by loops over the pathway tables.

Missing values (NaN) are `None`. The known years (`YEARS`) and the IP and SSP tables are parameters (`DataVars.Config`). Interpolation is an uninterpreted function parameter (`DataVars.Interpolator`).

Two details of the code:
- The IP and SSP filters keep the canonical scenario identities of the requested pathways (`selection.index.isin(...)`); they do not match an `IP` or `SSP` metadata field.
- The SSP add-back is modelled as corrected; see Findings.

## Model

| member | source | states |
|---|---|---|
| DataVars.Var.Create | utils/datavar.py:22-58 | Neither a variable nor values fails with `NeitherGiven`, both fail with `BothGiven`, and exactly one succeeds. The new `Var` satisfies the invariant and keeps the caller's dataset, universes, known years and pathway tables. It holds the variable's frame filled with the default, in the requested year mode, or the given values filled, with the year they give. |
| DataVars.ToStrList | utils/datavar.py:248-251 | `_to_list(.., to_str=True)`: a single value becomes a one-element list; a list keeps its length; every element is its `str`. |
| DataVars.YearRequest | utils/datavar.py:29-33 | No year means every known year, in vector mode. Scalar mode holds exactly when one year (not a list) is given, and then there is one label. The labels are the stringified year argument. |
| DataVars.SplitYears | utils/datavar.py:35-36 | The requested years split into those the dataset holds and those to interpolate: disjoint, together all requested years. |
| DataVars.Matching | utils/datavar.py:39 | The mask filter: the dataset rows holding the variable, in dataset order and as many times as they occur (the k-th result is the row at the k-th matching position, `MatchPositions`). |
| DataVars.VariableFrame | utils/datavar.py:39-47 | The variable's values are well-formed, with exactly the requested year columns in requested order and one row per dataset row of the variable. Each value comes from the dataset for a known year, and from the interpolation otherwise. |
| DataVars.ProjectIsVariableFrame | utils/datavar.py:47 | Rows holding every requested year with its source value, projected to the requested columns, are the variable's frame. |
| DataVars.Var.FromVariable | utils/datavar.py:27-47 | Built from a variable name. The interpolated years are added one column at a time. The values equal `VariableFrame` filled with the default. The year is the single label (scalar mode) or the list. |
| DataVars.Var.FromValues | utils/datavar.py:49-58 | Built from values: the year is the series' name or the table's columns, and the values are filled with the default. |
| Tables.FillMissing | utils/datavar.py:56-58 | After the fill no value is missing. Present values, columns and row labels are unchanged, and every missing cell holds the default. |
| Tables.FillMissingIdempotent | utils/datavar.py:56-58 | Filling a second time changes nothing. |
| Tables.Str | utils/datavar.py:250-251 | `str` of a string is itself. `str` of an integer has '-' exactly when negative and reads back as the same integer (`ParseInt`), so distinct integers give distinct year labels. |
| Selection.ToList | utils/datavar.py:83 | `_to_list` on a filter argument: a list stays as it is, a scalar is wrapped. |
| Selection.ArgError | utils/datavar.py:80-116 | No error exactly when every requested category, IP and SSP is admissible. Otherwise the error names an inadmissible value of the first axis, in category, IP, SSP order, that has one. |
| Selection.Canonicals | utils/datavar.py:101 | The canonical scenario of each requested pathway key, in order. |
| Selection.Filtered | utils/datavar.py:87-118 | The universe restricted to the scenarios passing every active filter, keeping their metadata. |
| Selection.Narrow | utils/datavar.py:87-118 | Filtering by category, then IP, then SSP, one after the other, equals the restriction by all filters at once. |
| Selection.MissingCanonical | utils/datavar.py:120-125 | Finds a requested canonical SSP scenario that neither survived the filters nor exists in the full universe, exactly when one exists. |
| Selection.AdmittedMap | utils/datavar.py:117-125 | The admitted scenarios: those of the chosen universe passing the filters, plus the requested canonical SSP scenarios of the full universe that pass them. Every admitted scenario passes every filter, and one outside the chosen universe is a requested canonical SSP scenario. |
| Selection.AxesOf | utils/datavar.py:88-126 | The axis columns are those of the filters given, each once, in category, IP, SSP order. |
| Selection.Picked | utils/datavar.py:136 | The mask filter on the admitted scenarios: the k-th result is the output of the row at the k-th admitted position (`AdmittedPositions`), so the rows keep their order and multiplicity and nothing else is added. Each carries its admitted metadata's axis values. |
| Selection.FilterOf | utils/datavar.py:87-118 | A filter is active exactly when its argument is given. |
| Selection.SelectSucceeds | utils/datavar.py:60-134 | `select` succeeds exactly when the arguments are admissible, every requested canonical SSP scenario is found, and neither CurPol nor NDC is given. |
| Selection.SelectRejectsArgs | utils/datavar.py:84-116 | An inadmissible argument is refused with the first offending axis's error, naming an offending value. |
| Selection.SelectRefusesCurPolAndNdc | utils/datavar.py:129-134 | With otherwise valid arguments, CurPol is refused, and failing that NDC. |
| Selection.AllMeansEveryValue | utils/datavar.py:81-108 | "all" selects the same as the full list of categories, IP keys or SSP keys. |
| Selection.SelectRows | utils/datavar.py:136-148 | The result rows are sorted by the axis values and are a permutation of the admitted rows of the values. Each carries its scenario's axis values, and every admitted row of the values is present. A series result has the single column "value". |
| Selection.SelectRespectsFilters | utils/datavar.py:87-125 | Every admitted scenario has a requested category and is the canonical scenario of a requested IP and SSP. It comes from the chosen universe unless it is a requested canonical SSP scenario. |
| Selection.SelectAddsCanonicalSsp | utils/datavar.py:117-125 | A requested canonical SSP scenario that exists in the full universe and passes the category and IP filters is admitted, even when the vetted universe lacks it. |
| Selection.SelectWithoutFiltersKeepsOrder | utils/datavar.py:136-147 | With no filter, the rows are the chosen universe's rows in the order of the values. |
| Selection.VettedWithinAll | utils/datavar.py:75 | A vetted call that succeeds also succeeds over all scenarios, and admits no more scenarios. |
| Selection.AdmittedAsWritten | utils/datavar.py:120-125 | The add-back as written: every requested canonical SSP scenario missing after filtering is taken from the full universe. |
| Selection.AsWrittenAddsEveryCanonicalSsp | utils/datavar.py:120-125 | As written, every requested canonical SSP scenario ends up selected, whatever the other filters say. |
| Selection.AsWrittenIgnoresCategory | utils/datavar.py:80-125 | A concrete call where the written add-back returns a C3 scenario for a C1 request, and the corrected selection returns no rows. |
| Selection.AsWrittenAgreesWithoutOtherFilters | utils/datavar.py:117-125 | Without a category or IP filter, the written and corrected add-backs select the same. |
| DataVars.Var.Select | utils/datavar.py:60-152 | The step-by-step `select` returns exactly `SelectSpec`: the same errors and the same result. |
| DataVars.Var.Admitted | utils/datavar.py:75-134 | The validation and filtering steps fail with the specification's error, or produce its admitted scenarios and axes. |
| DataVars.Var.CategoryStage | utils/datavar.py:80-88 | An inadmissible category gives `select`'s error; otherwise the selection keeps the scenarios of a requested category. |
| DataVars.Var.IpStage | utils/datavar.py:91-103 | An inadmissible IP gives `select`'s error; otherwise the selection keeps the canonical scenarios of the requested IPs. |
| DataVars.Var.SspStage | utils/datavar.py:106-126 | An inadmissible SSP or a missing canonical scenario gives `select`'s error. Otherwise the result is the admitted scenarios, with the add-back. |
| DataVars.Var.FirstInvalid | utils/datavar.py:84-86 | The loop finds the position of the first inadmissible value, or the length when there is none. |
| DataVars.Var.AddBack | utils/datavar.py:120-125 | The add-back loop fails exactly when a requested canonical SSP scenario is in neither the selection nor the full universe. Otherwise it yields the admitted scenarios. |
| Arithmetic.Harmonise | utils/datavar.py:164-189 | A number passes through unchanged. It fails exactly for two tables whose year sets differ. A series facing a table is replicated across the table's years. Otherwise the operands are unchanged. |
| Arithmetic.Broadcast | utils/datavar.py:180-185 | The replicated frame is a table with one column per distinct year and the series' rows, and every cell is the series' value. |
| Arithmetic.AlignLabels | utils/datavar.py:193 | pandas label alignment: the union of both indexes. Equal indexes keep their order; an empty index gives the other one as it is; two different non-empty indexes give their union sorted without repeats. |
| Arithmetic.CombineFrames | utils/datavar.py:193 | The combination of two frames has the aligned columns, the union of the row labels, and a well-formed shape. |
| Arithmetic.CombineNumber | utils/datavar.py:165-166 | Combining with a number keeps the frame's shape, columns and row labels. |
| Arithmetic.Evaluate | utils/datavar.py:191-233 | An operator fails exactly on incompatible year sets. Its result is a series only when both operands are (or one is a number). Its columns are the union of the table operands' years, its row labels are the union of the operands', and its shape is well-formed. |
| Arithmetic.CombineFramesCell | utils/datavar.py:193 | Outer join: each result cell is the operator on the values both operands hold under the same labels, missing when either lacks one. |
| Arithmetic.EvaluateCell | utils/datavar.py:191-233 | Every result cell is the operator on the operand values feeding it, then filled with the left operand's default. |
| Arithmetic.TablesCell | utils/datavar.py:171-174 | Two tables over the same years combine year by year, keeping the years. |
| Arithmetic.AddThenSubtract | utils/datavar.py:164-211 | For a right operand that is a number, a series or a table, once `a + b` succeeds, `(a + b) - b` succeeds. It keeps every column of the sum, and in each such column equals `a` wherever `a` and the value of `b` feeding it are present. |
| Arithmetic.MultiplyThenDivide | utils/datavar.py:164-233 | For a right operand that is a number, a series or a table, once `a * b` succeeds, `(a * b) / b` succeeds. It keeps every column of the product, and in each such column equals `a` wherever `a` and the value of `b` feeding it are present and that value is not zero. |
| Arithmetic.TableWithSeries | utils/datavar.py:176-181 | A table with a series gives a vector-mode result over the table's years. Each cell combines the table's cell with the series' value. |
| DataVars.Var.Apply | utils/datavar.py:191-233 | The operator fails exactly when `Evaluate` does. Otherwise it returns a valid `Var` over the same dataset, universes, known years and pathway tables, with no variable name and the left operand's default. Its values are the filled result, and its year comes from the result. |
| DataVars.DataVar.Call | utils/datavar.py:242-245 | Calling the factory fails as `Var` does: `NeitherGiven` or `BothGiven`. Otherwise it builds a `Var` over the factory's dataset, universes, known years and pathway tables: the variable's frame in the requested year mode, or the given values with the year they give, filled with the default. |
| Ordering.SortBySortsAndPermutes | utils/datavar.py:146 | The sort returns a sorted permutation of its input. |
| Ordering.SortByOfSorted | utils/datavar.py:146 | A sequence already in order is returned unchanged. |
| Ordering.KeyLeTransitive | utils/datavar.py:146 | The column-by-column order with missing values last is transitive. |
| Ingest.UnitTarget | utils/importdata.py:121-134 | Exactly the three units "Mt CO2/yr", "kt N2O/yr" and "Mt CO2-equiv/yr" are converted. |
| Ingest.TargetsAreNotSources | utils/importdata.py:117-134 | No target unit is itself converted. |
| Ingest.ScaleCells | utils/importdata.py:121 | The year columns are multiplied, missing values stay missing, and other columns are untouched. |
| Ingest.ScaleCellsUndo | utils/importdata.py:98-121 | Negating twice, or scaling by 0.001 then by 1000, restores the cells. |
| Ingest.ConvertRow | utils/importdata.py:117-134 | A row in a converted unit takes the target unit and year values scaled by 0.001. Any other row is unchanged. The result is never in a converted unit. |
| Ingest.ConvertRowIdempotent | utils/importdata.py:117-134 | Converting twice is converting once. |
| Ingest.ConvertRowUndo | utils/importdata.py:121-122 | Scaling a converted row back by 1000 restores its year values. |
| Ingest.ConvertStepsAtMostOnce | utils/importdata.py:117-134 | The six statements, in order, agree with the per-row rule, so each row is scaled at most once. |
| Ingest.ConvertUnits | utils/importdata.py:117-134 | In place: every row becomes its converted row. |
| Ingest.NegateRow | utils/importdata.py:98 | A row whose variable contains "CCS" has its year values negated. Any other row is unchanged. |
| Ingest.NegateRowTwice | utils/importdata.py:98 | The sign flip undoes itself. |
| Ingest.NegateCcs | utils/importdata.py:98 | In place: every row becomes its flipped row. |
| Ingest.AsDict | utils/importdata.py:101-110 | The renaming dictionary, built from its items, holds exactly those items. |
| Ingest.VarRenameChainFree | utils/importdata.py:101-110 | The renaming lists no key twice, and no new name is a key. |
| Ingest.ApplyRulesPartial | utils/importdata.py:111-112 | Applying some entries of a chain-free dictionary, in any order, renames exactly the variables whose entry was applied. |
| Ingest.RenameOrderIrrelevant | utils/importdata.py:101-112 | The loop's result equals one dictionary lookup, whatever the order of the entries. |
| Ingest.RenamedIdempotent | utils/importdata.py:101-112 | Renaming a renamed variable changes nothing. |
| Ingest.RenameVariables | utils/importdata.py:111-112 | In place: every row takes the name the rules give its variable. Nothing else changes. |
| Ingest.NegateAndRename | utils/importdata.py:98-112 | The flip, then the renaming: every row becomes its flipped row carrying the dictionary's name. |
| Ingest.FlipPrecedesRename | utils/importdata.py:98-112 | "Carbon Sequestration\|BECCS+DAC" is flipped: its name contains "CCS" but its new name does not. |
| Ingest.Upper | utils/importdata.py:195 | Upper-casing keeps the length, upper-cases each ASCII lower-case letter and leaves every other character as it is. |
| Ingest.UpperIdempotent | utils/importdata.py:195 | Upper-casing twice is upper-casing once. |
| Ingest.IsPassCases | utils/importdata.py:150-195 | A flag is a pass exactly when it spells "pass" in any mix of cases. |
| Ingest.VettingName | utils/importdata.py:190-191 | The key is the model, a space, then the scenario as a string. |
| Ingest.VettingNameInjective | utils/importdata.py:190-191 | When model names contain no space, equal keys mean equal model and scenario strings. |
| Ingest.VettingNameAmbiguous | utils/importdata.py:190-191 | With a space in a model name, two different rows share a key. |
| Ingest.VettingTable | utils/importdata.py:190-195 | Each sheet row is keyed by its `Name`, with its vetting flag upper-cased. A missing flag stays missing. |
| Ingest.VettedFromSheet | utils/importdata.py:150-195 | A scenario is vetted exactly when its raw sheet flag is a pass. |
| Ingest.Tag | utils/importdata.py:153-159 | A scenario's tag is the name of a pathway whose canonical scenario it is, and missing exactly when there is none. |
| Ingest.SetPathwaysTags | utils/importdata.py:153-159 | Each canonical scenario gets the name of the last pathway naming it. One the index lacks is added with missing metadata. Nothing else changes. |
| Ingest.TagColumn | utils/importdata.py:154-159 | The tagging loop performs the pathway assignments in order. |
| Ingest.CreateMetadata | utils/importdata.py:150-159 | `Vetted` is whether the flag is "PASS". `IP` and `SSP` are missing except on canonical scenarios, which carry their pathway's name. A canonical scenario the index lacks is added with missing category, flag and `Vetted`. |

## Left out

- Interpolation (`get_interp`) is not part of this model. It is a function parameter returning one value per scenario, or a missing one.
- Year tokens are kept as strings. `float(y)` in the interpolation call and fractional years are not modelled. `YEARS` is assumed to hold strings.
- Scenario values are rows of a frame, and label lookups find the first row with a label. pandas' behaviour on duplicate row labels is not modelled.
- Arithmetic uses real numbers. IEEE rounding, `inf` and `NaN` arithmetic are not modelled. Division by zero gives a missing value, where pandas gives `inf` or `NaN`.
- Arithmetic.ApplyOp: a division by zero gives a missing value rather than pandas' infinities.
- Sorting is stable and orders strings by code point with missing values last. pandas' `sort_values` on a single column uses an unstable quicksort, so the order of rows with equal keys is a modelling choice.
- `_repr_html_` is display only and is not part of this model.
- `import_data`, `print`, `pd.read_excel` and the column renaming of the vetting sheet are I/O and are not part of this model.
- `create_variable`, `prepare_data`, `create_scenarios`, `add_variable_range`, `add_variable_year`, `calc_netzero` and `linearInterp` are not part of this model; their code is not available.
- The merge of the scenario index with the vetting sheet (utils/importdata.py:144-149) is a parameter of `Ingest.CreateMetadata`: the merged universe.
- Arithmetic.Broadcast: with an empty list of years, `pd.DataFrame({})` has an empty row index, so a table with no year columns combined with a series keeps only the table's rows. The model keeps the series' rows, and so takes the union of both operands' rows.
- Upper-casing covers ASCII letters only; Python's Unicode case mapping is not modelled.
- The dataset is assumed to hold every `YEARS` column. A missing one would make pandas raise, which is not modelled.
- The integer width of year or scenario values is irrelevant here: all numbers are unbounded.
- Arguments the source accepts but never inspects in the core (`**kwargs` beyond `values` and `default`) are not modelled.

## Findings

| source | as written | input that shows it | evidently intended | confidence | as-written member | corrected member |
|---|---|---|---|---|---|---|
| utils/datavar.py:120-125 | The SSP add-back appends every requested canonical SSP scenario absent after filtering, taken from the full universe without applying the category and IP filters again. | `select(category="C1", ssp="SSP5-85")` where the canonical SSP5-85 scenario has category C3: that C3 scenario is returned. | Only scenarios dropped by vetting are restored (the comment at lines 109-110 names vetting as the reason); a restored scenario still passes the category and IP filters. | medium; not executed | Selection.AsWrittenIgnoresCategory | Selection.AdmittedMap |

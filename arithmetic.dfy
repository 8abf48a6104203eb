/** Arithmetic between variables (utils/datavar.py, `_check_and_harmonise_inputs`
    and the four operators): the harmonisation of the two operands' year modes,
    pandas' label alignment of rows and of columns, and the element-wise
    operators with missing-value propagation. Everything here is pure; the
    operators themselves, which wrap the result in a new variable, are methods
    of `DataVars.Var`. */
module Arithmetic {
  import opened Tables
  import opened Ordering

  datatype Op = Add | Sub | Mul | Div

  /** The right operand: a plain number, or another variable's values. */
  datatype Operand = Number(x: real) | Values(f: Frame)

  datatype ArithError = IncompatibleYears(left: seq<YearTok>, right: seq<YearTok>)

  /** One operator on two present values. A zero divisor gives a missing value. */
  function ApplyOp(op: Op, x: real, y: real): Option<real> {
    match op
    case Add => Some(x + y)
    case Sub => Some(x - y)
    case Mul => Some(x * y)
    case Div => if y == 0.0 then None else Some(x / y)
  }

  /** A missing operand gives a missing result. */
  function ApplyCell(op: Op, a: Option<real>, b: Option<real>): Option<real> {
    if a.Some? && b.Some? then ApplyOp(op, a.value, b.value) else None
  }

  lemma {:induction false} DistinctMultiplicity<T>(s: seq<T>, x: T)
    requires Distinct(s)
    ensures multiset(s)[x] <= 1
  {
    if s != [] {
      var init := s[..|s| - 1];
      assert s == init + [s[|s| - 1]];
      assert Distinct(init);
      DistinctMultiplicity(init, x);
      assert s[|s| - 1] !in init;
    }
  }

  lemma DistinctOfPermutation<T>(s: seq<T>, t: seq<T>)
    requires Distinct(s) && multiset(s) == multiset(t)
    ensures Distinct(t)
  {
    forall i, j | 0 <= i < j < |t| ensures t[i] != t[j] {
      if t[i] == t[j] {
        assert t == t[..i] + [t[i]] + t[i + 1..j] + [t[j]] + t[j + 1..];
        assert multiset(t)[t[i]] >= 2;
        DistinctMultiplicity(s, t[i]);
        assert false;
      }
    }
  }

  /** pandas' outer alignment of two label indexes (row labels or column
      labels): equal indexes keep their order, an empty index yields the other
      one, and otherwise the result is the sorted union. */
  function AlignLabels(a: seq<string>, b: seq<string>): (r: seq<string>)
    ensures Elems(r) == Elems(a) + Elems(b)
    ensures a == b ==> r == a
    ensures a != b && a != [] && b != [] ==> SortedBy(r, StrKey) && Distinct(r)
  {
    if a == b then a
    else if a == [] then b
    else if b == [] then a
    else
      var u := Dedup(a + b);
      var r := SortStrings(u);
      DistinctOfPermutation(u, r);
      assert forall x :: x in r <==> x in multiset(r);
      assert forall x :: x in u <==> x in multiset(u);
      assert Elems(a + b) == Elems(a) + Elems(b);
      r
  }

  /** `pd.DataFrame({year: s for year in years})`: the series replicated into
      one column per distinct year, on the series' own index. */
  function Broadcast(s: Frame, years: seq<YearTok>): (r: Frame)
    requires |s.columns| == 1
    ensures !r.series && Elems(r.columns) == Elems(years) && Distinct(r.columns)
    ensures Names(r.rows) == Names(s.rows)
    ensures WellFormed(r)
    ensures forall n, y :: y in years ==> Cell(r, n, y) == Cell(s, n, s.columns[0])
  {
    var r := Frame(false, Dedup(years), seq(|s.rows|, i requires 0 <= i < |s.rows| =>
      Row(s.rows[i].name, map y | y in years :: CellOf(s.rows[i], s.columns[0]))));
    assert Names(r.rows) == Names(s.rows);
    r
  }

  /** `_check_and_harmonise_inputs`: a number passes through; two tables must
      cover the same years; a series facing a table is replicated across the
      table's years; two series are left as they are. */
  function Harmonise(a: Frame, b: Operand): (r: Result<(Frame, Operand), ArithError>)
    requires Shaped(a) && (b.Values? ==> Shaped(b.f))
    ensures b.Number? ==> r == Success((a, b))
    ensures r.Failure? <==> b.Values? && !a.series && !b.f.series && Elems(a.columns) != Elems(b.f.columns)
    ensures r.Success? ==> Shaped(r.value.0) && (r.value.1.Values? ==> Shaped(r.value.1.f))
    ensures r.Success? && b.Values? ==>
      && r.value.1.Values?
      && r.value.0.series == r.value.1.f.series == (a.series && b.f.series)
      && (!r.value.0.series ==> Elems(r.value.0.columns) == Elems(r.value.1.f.columns))
      && Names(r.value.0.rows) == Names(a.rows)
      && Names(r.value.1.f.rows) == Names(b.f.rows)
    ensures r.Success? && !a.series ==> r.value.0 == a
    ensures r.Success? && b.Values? && !b.f.series ==> r.value.1 == b
    ensures r.Success? && b.Values? && a.series && !b.f.series ==>
      WellFormed(r.value.0) &&
      forall n, y :: y in b.f.columns ==> Cell(r.value.0, n, y) == Cell(a, n, a.columns[0])
    ensures r.Success? && b.Values? && !a.series && b.f.series ==>
      WellFormed(r.value.1.f) &&
      forall n, y :: y in a.columns ==> Cell(r.value.1.f, n, y) == Cell(b.f, n, b.f.columns[0])
  {
    match b
    case Number(_) => Success((a, b))
    case Values(f) =>
      if !a.series && !f.series then
        if Elems(a.columns) != Elems(f.columns) then Failure(IncompatibleYears(a.columns, f.columns))
        else Success((a, b))
      else if !a.series && f.series then Success((a, Values(Broadcast(f, a.columns))))
      else if a.series && !f.series then Success((Broadcast(a, f.columns), b))
      else Success((a, b))
  }

  /** The column of `f` that feeds result column `y`: a series feeds every
      result column from its single column. */
  function ColumnFor(f: Frame, y: YearTok): YearTok
    requires Shaped(f)
  {
    if f.series then f.columns[0] else y
  }

  /** The columns of an operation's result: aligned labels for two tables; for
      two series the common name, or "None" (pandas drops a name the operands
      disagree on, and `str(None)` is "None"). */
  function ResultColumns(a: Frame, b: Frame): seq<YearTok>
    requires Shaped(a) && Shaped(b) && a.series == b.series
  {
    if a.series then [if a.columns[0] == b.columns[0] then a.columns[0] else "None"]
    else AlignLabels(a.columns, b.columns)
  }

  function PairRow(op: Op, cols: seq<YearTok>, n: Name, a: Frame, ra: Option<Row>, b: Frame, rb: Option<Row>): Row
    requires Shaped(a) && Shaped(b)
  {
    Row(n, map y | y in cols :: ApplyCell(op, At(ra, ColumnFor(a, y)), At(rb, ColumnFor(b, y))))
  }

  /** Element-wise operation on two frames of the same shape. Equal row
      indexes are combined position by position; otherwise every label of the
      aligned index gets the values found under it on each side. */
  function CombineFrames(op: Op, a: Frame, b: Frame): (r: Frame)
    requires Shaped(a) && Shaped(b) && a.series == b.series
    ensures r.series == a.series && r.columns == ResultColumns(a, b)
    ensures Elems(Names(r.rows)) == Elems(Names(a.rows)) + Elems(Names(b.rows))
    ensures WellFormed(r)
  {
    var cols := ResultColumns(a, b);
    var na, nb := Names(a.rows), Names(b.rows);
    if na == nb then
      var r := Frame(a.series, cols, seq(|a.rows|, i requires 0 <= i < |a.rows| =>
        PairRow(op, cols, a.rows[i].name, a, Some(a.rows[i]), b, Some(b.rows[i]))));
      assert Names(r.rows) == na;
      r
    else
      var names := AlignLabels(na, nb);
      var r := Frame(a.series, cols, seq(|names|, i requires 0 <= i < |names| =>
        PairRow(op, cols, names[i], a, RowAt(a, names[i]), b, RowAt(b, names[i]))));
      assert Names(r.rows) == names;
      r
  }

  /** A frame with a number: every cell combined with it, shape unchanged. */
  function CombineNumber(op: Op, a: Frame, x: real): (r: Frame)
    ensures r.series == a.series && r.columns == a.columns
    ensures Names(r.rows) == Names(a.rows)
    ensures WellFormed(a) ==> WellFormed(r)
  {
    var r := a.(rows := seq(|a.rows|, i requires 0 <= i < |a.rows| =>
      Row(a.rows[i].name, map y | y in a.rows[i].cells :: ApplyCell(op, a.rows[i].cells[y], Some(x)))));
    assert Names(r.rows) == Names(a.rows);
    r
  }

  function Combine(op: Op, a: Frame, b: Operand): Frame
    requires Shaped(a) && (b.Values? ==> Shaped(b.f) && a.series == b.f.series)
  {
    match b
    case Number(x) => CombineNumber(op, a, x)
    case Values(f) => CombineFrames(op, a, f)
  }

  /** The values of `a <op> b` as the operator wraps them in a new variable:
      harmonised, combined, then filled with the left operand's default. */
  function Evaluate(op: Op, a: Frame, b: Operand, default: Option<real>): (r: Result<Frame, ArithError>)
    requires Shaped(a) && (b.Values? ==> Shaped(b.f))
    ensures r.Failure? <==> b.Values? && !a.series && !b.f.series && Elems(a.columns) != Elems(b.f.columns)
    ensures r.Success? ==> Shaped(r.value)
    ensures r.Success? ==> r.value.series == (a.series && (b.Number? || b.f.series))
    ensures r.Success? && b.Number? ==> r.value.columns == a.columns && Names(r.value.rows) == Names(a.rows)
    ensures r.Success? && b.Values? && !r.value.series ==>
      Elems(r.value.columns) == (if a.series then {} else Elems(a.columns)) + (if b.f.series then {} else Elems(b.f.columns))
    ensures r.Success? && b.Values? ==>
      Elems(Names(r.value.rows)) == Elems(Names(a.rows)) + Elems(Names(b.f.rows))
    ensures r.Success? && WellFormed(a) && (b.Values? ==> WellFormed(b.f)) ==> WellFormed(r.value)
  {
    match Harmonise(a, b)
    case Failure(e) => Failure(e)
    case Success(p) =>
      CombineHarmonised(op, a, b);
      Success(FillIf(Combine(op, p.0, p.1), default))
  }

  /** The combination of harmonised operands, before the fill. */
  lemma CombineHarmonised(op: Op, a: Frame, b: Operand)
    requires Shaped(a) && (b.Values? ==> Shaped(b.f))
    requires Harmonise(a, b).Success?
    ensures
      var p := Harmonise(a, b).value;
      var c := Combine(op, p.0, p.1);
      && Shaped(c)
      && c.series == (a.series && (b.Number? || b.f.series))
      && (b.Number? ==> c.columns == a.columns && Names(c.rows) == Names(a.rows))
      && (b.Values? && !c.series ==>
          Elems(c.columns) == (if a.series then {} else Elems(a.columns)) + (if b.f.series then {} else Elems(b.f.columns)))
      && (b.Values? ==> Elems(Names(c.rows)) == Elems(Names(a.rows)) + Elems(Names(b.f.rows)))
      && (WellFormed(a) && (b.Values? ==> WellFormed(b.f)) ==> WellFormed(c))
  {
    var p := Harmonise(a, b).value;
    var c := Combine(op, p.0, p.1);
    assert b.Values? && !c.series ==> Elems(c.columns) == Elems(p.0.columns) + Elems(p.1.f.columns);
  }

  /** What a result cell is made of: the left value in the column feeding `y`,
      combined with the right number or the right value feeding `y`. */
  function Expected(op: Op, a: Frame, b: Operand, n: Name, y: YearTok): Option<real>
    requires Shaped(a) && (b.Values? ==> Shaped(b.f))
  {
    ApplyCell(op, Cell(a, n, ColumnFor(a, y)), RightValue(b, n, y))
  }

  /** The right operand's value feeding result cell (`n`, `y`): the number
      itself, or the value in the column of `b` that feeds `y`. */
  function RightValue(b: Operand, n: Name, y: YearTok): Option<real>
    requires b.Values? ==> Shaped(b.f)
  {
    match b
    case Number(x) => Some(x)
    case Values(f) => Cell(f, n, ColumnFor(f, y))
  }

  /** Two series keep one column: their common name, or "None". */
  lemma SeriesColumn(op: Op, a: Frame, f: Frame, default: Option<real>)
    requires Shaped(a) && Shaped(f) && a.series && f.series
    ensures Evaluate(op, a, Values(f), default).Success?
    ensures Evaluate(op, a, Values(f), default).value.columns ==
      [if a.columns[0] == f.columns[0] then a.columns[0] else "None"]
  {
    assert Harmonise(a, Values(f)) == Success((a, Values(f)));
  }

  /** Every cell of a frame combination is the operator applied to the values
      the two operands hold under the same labels (outer join: a label absent
      on one side reads as missing). */
  lemma CombineFramesCell(op: Op, a: Frame, b: Frame, n: Name, y: YearTok)
    requires Shaped(a) && Shaped(b) && a.series == b.series
    requires n in Names(a.rows) || n in Names(b.rows)
    requires y in ResultColumns(a, b)
    ensures Cell(CombineFrames(op, a, b), n, y) ==
      ApplyCell(op, Cell(a, n, ColumnFor(a, y)), Cell(b, n, ColumnFor(b, y)))
  {
    if Names(a.rows) == Names(b.rows) {
      SameLabelsCell(op, a, b, n, y);
    } else {
      AlignedLabelsCell(op, a, b, n, y);
    }
  }

  /** Equal row indexes: the rows are paired position by position. */
  lemma SameLabelsCell(op: Op, a: Frame, b: Frame, n: Name, y: YearTok)
    requires Shaped(a) && Shaped(b) && a.series == b.series
    requires Names(a.rows) == Names(b.rows) && n in Names(a.rows)
    requires y in ResultColumns(a, b)
    ensures Cell(CombineFrames(op, a, b), n, y) ==
      ApplyCell(op, Cell(a, n, ColumnFor(a, y)), Cell(b, n, ColumnFor(b, y)))
  {
    var r := CombineFrames(op, a, b);
    var na := Names(a.rows);
    assert Names(r.rows) == na;
    var i := FirstIndex(na, n);
    assert RowAt(r, n) == Some(r.rows[i]);
    assert RowAt(a, n) == Some(a.rows[i]);
    assert RowAt(b, n) == Some(b.rows[i]);
  }

  /** Different row indexes: each aligned label looks up its row on each side. */
  lemma AlignedLabelsCell(op: Op, a: Frame, b: Frame, n: Name, y: YearTok)
    requires Shaped(a) && Shaped(b) && a.series == b.series
    requires Names(a.rows) != Names(b.rows)
    requires n in Names(a.rows) || n in Names(b.rows)
    requires y in ResultColumns(a, b)
    ensures Cell(CombineFrames(op, a, b), n, y) ==
      ApplyCell(op, Cell(a, n, ColumnFor(a, y)), Cell(b, n, ColumnFor(b, y)))
  {
    var r := CombineFrames(op, a, b);
    var names := AlignLabels(Names(a.rows), Names(b.rows));
    assert Names(r.rows) == names;
    assert n in Elems(names);
    var i := FirstIndex(names, n);
    assert RowAt(r, n) == Some(r.rows[i]);
  }

  /** Every cell of an operator's result, for a row label of either operand and
      a result column: the operator applied to the operands' values feeding it,
      then the default fill. */
  lemma EvaluateCell(op: Op, a: Frame, b: Operand, default: Option<real>, n: Name, y: YearTok)
    requires WellFormed(a) && (b.Values? ==> WellFormed(b.f))
    requires Evaluate(op, a, b, default).Success?
    requires n in Names(a.rows) || (b.Values? && n in Names(b.f.rows))
    requires y in Evaluate(op, a, b, default).value.columns
    ensures Cell(Evaluate(op, a, b, default).value, n, y) == FillValue(Expected(op, a, b, n, y), default)
  {
    var p := Harmonise(a, b).value;
    var c := Combine(op, p.0, p.1);
    assert Evaluate(op, a, b, default).value == FillIf(c, default);
    match b
    case Number(x) =>
      CombineNumberCell(op, a, x, n, y);
      FillIfCell(c, default, n, y);
    case Values(f) =>
      CombineFramesCell(op, p.0, p.1.f, n, y);
      HarmonisedCell(a, f, n, y);
      assert n in Elems(Names(c.rows));
      FillIfCell(c, default, n, y);
  }

  lemma CombineNumberCell(op: Op, a: Frame, x: real, n: Name, y: YearTok)
    requires WellFormed(a) && n in Names(a.rows) && y in a.columns
    ensures n in Names(CombineNumber(op, a, x).rows)
    ensures Cell(CombineNumber(op, a, x), n, y) == ApplyCell(op, Cell(a, n, ColumnFor(a, y)), Some(x))
  {
    var c := CombineNumber(op, a, x);
    var i := FirstIndex(Names(a.rows), n);
    assert a.rows[i] in a.rows;
    assert RowAt(c, n) == Some(c.rows[i]);
    assert RowAt(a, n) == Some(a.rows[i]);
    if a.series {
      assert y == a.columns[0];
    }
  }

  /** Harmonisation does not change what feeds a result column. */
  lemma HarmonisedCell(a: Frame, f: Frame, n: Name, y: YearTok)
    requires WellFormed(a) && WellFormed(f)
    requires Harmonise(a, Values(f)).Success?
    requires
      var p := Harmonise(a, Values(f)).value;
      y in ResultColumns(p.0, p.1.f)
    ensures
      var p := Harmonise(a, Values(f)).value;
      && Cell(p.0, n, ColumnFor(p.0, y)) == Cell(a, n, ColumnFor(a, y))
      && Cell(p.1.f, n, ColumnFor(p.1.f, y)) == Cell(f, n, ColumnFor(f, y))
  {
    var p := Harmonise(a, Values(f)).value;
    assert y in Elems(ResultColumns(p.0, p.1.f));
    if a.series && !f.series {
      assert Elems(ResultColumns(p.0, p.1.f)) == Elems(f.columns);
      assert y in Elems(f.columns);
    }
    if !a.series && f.series {
      assert Elems(ResultColumns(p.0, p.1.f)) == Elems(a.columns);
      assert y in Elems(a.columns);
    }
  }

  /** Two tables over the same years: the operation succeeds, keeps the
      years, and each cell is the operator on the operands' cells. */
  lemma TablesCell(op: Op, a: Frame, b: Frame, default: Option<real>, n: Name, y: YearTok)
    requires WellFormed(a) && WellFormed(b) && !a.series && !b.series
    requires Elems(a.columns) == Elems(b.columns)
    requires n in Names(a.rows) && y in a.columns
    ensures Evaluate(op, a, Values(b), default).Success?
    ensures
      var r := Evaluate(op, a, Values(b), default).value;
      && WellFormed(r) && !r.series && Elems(r.columns) == Elems(a.columns)
      && n in Names(r.rows) && y in r.columns
      && Cell(r, n, y) == FillValue(ApplyCell(op, Cell(a, n, y), Cell(b, n, y)), default)
  {
    var e := Evaluate(op, a, Values(b), default);
    assert e.Success?;
    var r := e.value;
    assert y in Elems(a.columns);
    assert y in Elems(r.columns);
    assert n in Elems(Names(r.rows));
    EvaluateCell(op, a, Values(b), default, n, y);
  }

  /** Two operations in a row against the same right operand: the second
      succeeds, keeps every column of the first, and each of its cells is the
      second operator applied to the filled first result. */
  lemma TwoSteps(op1: Op, op2: Op, a: Frame, b: Operand, default: Option<real>, n: Name, y: YearTok)
    requires WellFormed(a) && (b.Values? ==> WellFormed(b.f))
    requires Evaluate(op1, a, b, default).Success?
    requires n in Names(a.rows) && y in Evaluate(op1, a, b, default).value.columns
    ensures
      var once := Evaluate(op1, a, b, default).value;
      && Evaluate(op2, once, b, default).Success?
      && y in Evaluate(op2, once, b, default).value.columns
      && Cell(Evaluate(op2, once, b, default).value, n, y) ==
         FillValue(ApplyCell(op2, FillValue(Expected(op1, a, b, n, y), default), RightValue(b, n, y)), default)
  {
    var once := Evaluate(op1, a, b, default).value;
    FirstStep(op1, a, b, default, n, y);
    SecondStep(op1, op2, a, b, default, y);
    EvaluateCell(op2, once, b, default, n, y);
  }

  /** The first result holds row `n` and column `y`, reads `y` from itself,
      and its cell there is the first operation's filled value. */
  lemma FirstStep(op: Op, a: Frame, b: Operand, default: Option<real>, n: Name, y: YearTok)
    requires WellFormed(a) && (b.Values? ==> WellFormed(b.f))
    requires Evaluate(op, a, b, default).Success?
    requires n in Names(a.rows) && y in Evaluate(op, a, b, default).value.columns
    ensures
      var once := Evaluate(op, a, b, default).value;
      && WellFormed(once) && ColumnFor(once, y) == y && n in Names(once.rows)
      && Cell(once, n, y) == FillValue(Expected(op, a, b, n, y), default)
  {
    OwnColumn(Evaluate(op, a, b, default).value, y);
    FirstRows(op, a, b, default, n);
    EvaluateCell(op, a, b, default, n, y);
  }

  /** A column of a frame feeds itself. */
  lemma OwnColumn(f: Frame, y: YearTok)
    requires Shaped(f) && y in f.columns
    ensures ColumnFor(f, y) == y
  {
  }

  /** Every row label of the left operand labels a row of the result. */
  lemma FirstRows(op: Op, a: Frame, b: Operand, default: Option<real>, n: Name)
    requires WellFormed(a) && (b.Values? ==> WellFormed(b.f))
    requires Evaluate(op, a, b, default).Success?
    requires n in Names(a.rows)
    ensures n in Names(Evaluate(op, a, b, default).value.rows)
  {
    var once := Evaluate(op, a, b, default).value;
    if b.Values? {
      assert n in Elems(Names(a.rows));
      assert n in Elems(Names(once.rows));
    }
  }

  /** The second operation against the same right operand succeeds and keeps
      every column of the first result. */
  lemma SecondStep(op1: Op, op2: Op, a: Frame, b: Operand, default: Option<real>, y: YearTok)
    requires WellFormed(a) && (b.Values? ==> WellFormed(b.f))
    requires Evaluate(op1, a, b, default).Success?
    requires y in Evaluate(op1, a, b, default).value.columns
    ensures
      var once := Evaluate(op1, a, b, default).value;
      && Evaluate(op2, once, b, default).Success?
      && y in Evaluate(op2, once, b, default).value.columns
  {
    var once := Evaluate(op1, a, b, default).value;
    var twice := Evaluate(op2, once, b, default);
    if b.Values? && once.series {
      SeriesColumn(op1, a, b.f, default);
      SeriesColumn(op2, once, b.f, default);
    } else if b.Values? {
      assert y in Elems(once.columns);
      assert y in Elems(twice.value.columns);
    }
  }

  /** Subtracting what was added gives back the left operand, in every column
      of the sum where the left operand and the right operand (a number, a
      series or a table) both hold a value. */
  lemma AddThenSubtract(a: Frame, b: Operand, default: Option<real>, n: Name, y: YearTok)
    requires WellFormed(a) && (b.Values? ==> WellFormed(b.f))
    requires Evaluate(Add, a, b, default).Success?
    requires y in Evaluate(Add, a, b, default).value.columns
    requires Cell(a, n, ColumnFor(a, y)).Some? && RightValue(b, n, y).Some?
    ensures
      var sum := Evaluate(Add, a, b, default).value;
      && Evaluate(Sub, sum, b, default).Success?
      && y in Evaluate(Sub, sum, b, default).value.columns
      && Cell(Evaluate(Sub, sum, b, default).value, n, y) == Cell(a, n, ColumnFor(a, y))
  {
    assert n in Names(a.rows);
    TwoSteps(Add, Sub, a, b, default, n, y);
    AddThenSubtractCell(Cell(a, n, ColumnFor(a, y)), RightValue(b, n, y), default);
  }

  /** On one cell: subtracting what was added, fill or no fill. */
  lemma AddThenSubtractCell(x: Option<real>, w: Option<real>, default: Option<real>)
    requires x.Some? && w.Some?
    ensures FillValue(ApplyCell(Sub, FillValue(ApplyCell(Add, x, w), default), w), default) == x
  {
  }

  /** On one cell: dividing by a non-zero factor undoes multiplying by it. */
  lemma MultiplyThenDivideCell(x: Option<real>, w: Option<real>, default: Option<real>)
    requires x.Some? && w.Some? && w.value != 0.0
    ensures FillValue(ApplyCell(Div, FillValue(ApplyCell(Mul, x, w), default), w), default) == x
  {
    var p := x.value * w.value;
    assert ApplyCell(Mul, x, w) == Some(p);
    assert FillValue(Some(p), default) == Some(p);
    Cancel(x.value, w.value);
    assert p / w.value == x.value;
    assert ApplyCell(Div, Some(p), w) == Some(x.value);
  }

  lemma Cancel(u: real, v: real)
    requires v != 0.0
    ensures (u * v) / v == u
  {
    var d := (u * v) / v;
    assert d * v == u * v;
    assert (d - u) * v == 0.0;
  }

  /** Dividing by what was multiplied gives back the left operand, in every
      column of the product where the left operand and the right operand (a
      number, a series or a table) both hold a value and the right one is not
      zero. */
  lemma MultiplyThenDivide(a: Frame, b: Operand, default: Option<real>, n: Name, y: YearTok)
    requires WellFormed(a) && (b.Values? ==> WellFormed(b.f))
    requires Evaluate(Mul, a, b, default).Success?
    requires y in Evaluate(Mul, a, b, default).value.columns
    requires Cell(a, n, ColumnFor(a, y)).Some? && RightValue(b, n, y).Some? && RightValue(b, n, y).value != 0.0
    ensures
      var prod := Evaluate(Mul, a, b, default).value;
      && Evaluate(Div, prod, b, default).Success?
      && y in Evaluate(Div, prod, b, default).value.columns
      && Cell(Evaluate(Div, prod, b, default).value, n, y) == Cell(a, n, ColumnFor(a, y))
  {
    assert n in Names(a.rows);
    TwoSteps(Mul, Div, a, b, default, n, y);
    MultiplyThenDivideCell(Cell(a, n, ColumnFor(a, y)), RightValue(b, n, y), default);
  }

  /** A multi-year table against a single-year series: the result is a table
      over exactly the table's years, in its order, and each year's column is
      the table's column combined with the series. */
  lemma TableWithSeries(op: Op, a: Frame, b: Frame, default: Option<real>, n: Name, y: YearTok)
    requires WellFormed(a) && WellFormed(b) && !a.series && b.series && Distinct(a.columns)
    requires n in Names(a.rows) || n in Names(b.rows)
    requires y in a.columns
    ensures Evaluate(op, a, Values(b), default).Success?
    ensures YearOf(Evaluate(op, a, Values(b), default).value) == Multiple(a.columns)
    ensures Cell(Evaluate(op, a, Values(b), default).value, n, y) ==
      FillValue(ApplyCell(op, Cell(a, n, y), Cell(b, n, b.columns[0])), default)
  {
    DedupOfDistinct(a.columns);
    EvaluateCell(op, a, Values(b), default, n, y);
  }
}

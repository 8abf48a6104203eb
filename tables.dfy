/** Value types shared by the variable algebra and the ingestion steps: the rows
    of the emissions dataset, the year-indexed frames a variable holds, scenario
    metadata, and the small helpers (Python's `str`, de-duplication, missing-value
    fill) that the operations are written in. */
module Tables {

  datatype Option<+T> = None | Some(value: T)

  datatype Result<+T, +E> = Success(value: T) | Failure(error: E)

  /** The scenario identity, "<Model> <Scenario>". */
  type Name = string

  /** A year column label such as "2030". */
  type YearTok = string

  /** A scalar argument as a caller may pass it: an integer or a string. */
  datatype Atom = IntAtom(i: int) | StrAtom(s: string)

  predicate AllDigits(s: string) {
    forall k :: 0 <= k < |s| ==> '0' <= s[k] <= '9'
  }

  function DigitChar(d: nat): (c: char)
    requires d < 10
    ensures '0' <= c <= '9' && (c as int) - ('0' as int) == d
  {
    (('0' as int) + d) as char
  }

  /** The number a string of decimal digits spells, most significant first. */
  function DecimalValue(s: string): nat
    requires AllDigits(s)
  {
    if s == [] then 0 else 10 * DecimalValue(s[..|s| - 1]) + ((s[|s| - 1] as int) - ('0' as int))
  }

  /** Python's `int` on a string: an optional '-' and at least one decimal
      digit; anything else is not a number. */
  function ParseInt(s: string): Option<int> {
    if s != [] && s[0] == '-' then
      if |s| > 1 && AllDigits(s[1..]) then Some(-(DecimalValue(s[1..]) as int)) else None
    else if s != [] && AllDigits(s) then Some(DecimalValue(s))
    else None
  }

  /** Decimal digits of a natural number, most significant first, with no
      leading zero; they spell the number back. */
  function Digits(n: nat): (r: string)
    ensures |r| >= 1 && AllDigits(r)
    ensures |r| > 1 ==> r[0] != '0'
    ensures DecimalValue(r) == n
    ensures n < 10 <==> |r| == 1
  {
    if n < 10 then [DigitChar(n)]
    else
      var front := Digits(n / 10);
      var r := front + [DigitChar(n % 10)];
      assert r[..|r| - 1] == front;
      r
  }

  /** Python's `str` on an atom: a string is itself, an integer is written in
      decimal with a leading '-' when negative, and reads back as the same
      integer, so distinct integers give distinct strings. */
  function Str(a: Atom): (r: string)
    ensures a.StrAtom? ==> r == a.s
    ensures a.IntAtom? ==> |r| >= 1 && (r[0] == '-' <==> a.i < 0)
    ensures a.IntAtom? ==> ParseInt(r) == Some(a.i)
  {
    match a
    case StrAtom(s) => s
    case IntAtom(i) =>
      if i < 0 then
        var r := "-" + Digits(-i);
        assert r[1..] == Digits(-i);
        r
      else Digits(i)
  }

  /** The numeric cells of one row, keyed by year label; `None` is NaN. */
  type Cells = map<YearTok, Option<real>>

  /** One row of the emissions dataset. */
  datatype DataRow = DataRow(name: Name, variable: string, unit: string, cells: Cells)

  /** One row of a variable's values, indexed by scenario. */
  datatype Row = Row(name: Name, cells: Cells)

  /** A variable's values. A table (`series == false`) has one column per
      year; a series (`series == true`) has exactly one column, labelled with
      the series' name. */
  datatype Frame = Frame(series: bool, columns: seq<YearTok>, rows: seq<Row>)

  /** The year mode of a variable: one year (scalar mode) or a list (vector mode). */
  datatype Year = Single(tok: YearTok) | Multiple(toks: seq<YearTok>)

  /** Metadata of one scenario; every field may be missing (NaN). */
  datatype Meta = Meta(
    category: Option<string>,
    vetting: Option<string>,
    vetted: Option<bool>,
    ip: Option<string>,
    ssp: Option<string>)

  /** A scenario universe, indexed by scenario identity. */
  type Universe = map<Name, Meta>

  /** An entry of the illustrative-pathway or SSP table: its key, its display
      name and the identity of its canonical scenario. */
  datatype Pathway = Pathway(key: string, name: string, scenario: Name)

  predicate Distinct<T(==)>(s: seq<T>) {
    forall i, j :: 0 <= i < j < |s| ==> s[i] != s[j]
  }

  function Elems<T>(s: seq<T>): set<T> {
    set x | x in s
  }

  /** The first occurrence of each element, in order of first appearance. */
  function Dedup<T(==)>(s: seq<T>): (r: seq<T>)
    ensures Elems(r) == Elems(s)
    ensures Distinct(r)
    ensures |r| <= |s|
  {
    if s == [] then []
    else
      var d := Dedup(s[..|s| - 1]);
      assert s == s[..|s| - 1] + [s[|s| - 1]];
      assert Elems(s) == Elems(s[..|s| - 1]) + {s[|s| - 1]};
      if s[|s| - 1] in d then d else d + [s[|s| - 1]]
  }

  lemma {:induction false} DedupOfDistinct<T>(s: seq<T>)
    requires Distinct(s)
    ensures Dedup(s) == s
  {
    if s != [] {
      DedupOfDistinct(s[..|s| - 1]);
      assert s[|s| - 1] !in s[..|s| - 1];
      assert s[..|s| - 1] + [s[|s| - 1]] == s;
    }
  }

  function Names(rows: seq<Row>): (r: seq<Name>)
    ensures |r| == |rows|
    ensures forall i :: 0 <= i < |rows| ==> r[i] == rows[i].name
  {
    seq(|rows|, i requires 0 <= i < |rows| => rows[i].name)
  }

  /** The position of the first occurrence of `x`, or `|s|` when absent. */
  function FirstIndex<T(==)>(s: seq<T>, x: T): (i: nat)
    ensures i <= |s|
    ensures i < |s| <==> x in s
    ensures i < |s| ==> s[i] == x
    ensures forall j :: 0 <= j < i ==> s[j] != x
  {
    if s == [] then 0 else if s[0] == x then 0 else 1 + FirstIndex(s[1..], x)
  }

  function CellOf(r: Row, y: YearTok): Option<real> {
    if y in r.cells then r.cells[y] else None
  }

  /** The row label-based lookup finds for `n`: the first row with that label. */
  function RowAt(f: Frame, n: Name): (r: Option<Row>)
    ensures r.Some? <==> n in Names(f.rows)
    ensures r.Some? ==> r.value.name == n
  {
    var i := FirstIndex(Names(f.rows), n);
    if i < |f.rows| then Some(f.rows[i]) else None
  }

  function At(r: Option<Row>, y: YearTok): Option<real> {
    if r.Some? then CellOf(r.value, y) else None
  }

  /** The value at row label `n`, column label `y`; missing when either label
      is absent. */
  function Cell(f: Frame, n: Name, y: YearTok): Option<real> {
    At(RowAt(f, n), y)
  }

  /** A series has exactly one column (the part of `WellFormed` that the year
      mode needs). */
  predicate Shaped(f: Frame) {
    f.series ==> |f.columns| == 1
  }

  /** The shape invariant of a frame: a series has one column, and every row
      has exactly the frame's columns. */
  ghost predicate WellFormed(f: Frame) {
    && Shaped(f)
    && forall r :: r in f.rows ==> r.cells.Keys == Elems(f.columns)
  }

  /** The year mode a frame of values gives a variable. */
  function YearOf(f: Frame): Year
    requires Shaped(f)
  {
    if f.series then Single(f.columns[0]) else Multiple(f.columns)
  }

  ghost predicate NoMissing(f: Frame) {
    forall r, y :: r in f.rows && y in r.cells ==> r.cells[y].Some?
  }

  function FillCells(c: Cells, d: real): Cells {
    map y | y in c :: if c[y].Some? then c[y] else Some(d)
  }

  /** pandas `fillna(d)`: every missing cell becomes `d`; nothing else changes. */
  function FillMissing(f: Frame, d: real): (r: Frame)
    ensures NoMissing(r)
    ensures r.series == f.series && r.columns == f.columns
    ensures Names(r.rows) == Names(f.rows)
    ensures forall i :: 0 <= i < |f.rows| ==> r.rows[i].cells.Keys == f.rows[i].cells.Keys
    ensures forall n, y :: Cell(f, n, y).Some? ==> Cell(r, n, y) == Cell(f, n, y)
    ensures forall i, y :: 0 <= i < |f.rows| && y in f.rows[i].cells && f.rows[i].cells[y].None? ==>
      r.rows[i].cells[y] == Some(d)
    ensures WellFormed(f) ==> WellFormed(r)
  {
    var r := f.(rows := seq(|f.rows|, i requires 0 <= i < |f.rows| => Row(f.rows[i].name, FillCells(f.rows[i].cells, d))));
    assert Names(r.rows) == Names(f.rows);
    r
  }

  /** Filling is idempotent: a second fill with the same value changes nothing. */
  lemma FillMissingIdempotent(f: Frame, d: real)
    ensures FillMissing(FillMissing(f, d), d) == FillMissing(f, d)
  {
    var once := FillMissing(f, d);
    var twice := FillMissing(once, d);
    forall i | 0 <= i < |once.rows|
      ensures twice.rows[i] == once.rows[i]
    {
      assert twice.rows[i].cells == once.rows[i].cells;
    }
  }

  /** The fill, when requested. */
  function FillIf(f: Frame, default: Option<real>): Frame {
    if default.Some? then FillMissing(f, default.value) else f
  }

  /** What the fill makes of one value. */
  function FillValue(v: Option<real>, default: Option<real>): Option<real> {
    if v.None? && default.Some? then default else v
  }

  /** Read through the fill: a cell that exists reads as its filled value. */
  lemma FillIfCell(f: Frame, default: Option<real>, n: Name, y: YearTok)
    requires WellFormed(f) && n in Names(f.rows) && y in f.columns
    ensures Cell(FillIf(f, default), n, y) == FillValue(Cell(f, n, y), default)
  {
    if default.Some? {
      var i := FirstIndex(Names(f.rows), n);
      assert f.rows[i] in f.rows;
      assert RowAt(FillIf(f, default), n) == Some(FillIf(f, default).rows[i]);
    }
  }
}

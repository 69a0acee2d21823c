/** The fire-perimeter table: one `Record` per row, a `Frame` pairing the rows
    with the set of columns the table has. Column presence is a property of
    the table; a missing value (pandas NaN / None) in a present column is a
    `None` in the row. */
module Records {
  import opened Wrappers

  /** The polygon geometry, carried through untouched and never inspected. */
  datatype Geometry = Geometry(wkb: seq<bv8>)

  /** The attribute columns the pipeline reads or writes. */
  datatype Column =
    | Year | AlarmDate | ContDate | Acres | Cause | Agency | CMethod | UnitId
    | Decade | SizeCategory
    | CauseLabel | AgencyLabel | CMethodLabel | UnitLabel

  /** One fire: source attributes (YEAR_, ALARM_DATE, CONT_DATE, GIS_ACRES,
      CAUSE, AGENCY, C_METHOD, UNIT_ID), its geometry, and the columns the
      enrichment and labelling steps write. Dates are kept as their raw text. */
  datatype Record = Record(
    year: Option<int>,
    alarmDate: Option<string>,
    contDate: Option<string>,
    acres: Option<real>,
    cause: Option<int>,
    agency: Option<string>,
    cMethod: Option<int>,
    unitId: Option<string>,
    geometry: Geometry,
    decade: Option<int>,
    sizeCategory: Option<string>,
    causeLabel: Option<string>,
    agencyLabel: Option<string>,
    cMethodLabel: Option<string>,
    unitLabel: Option<string>)

  /** Whether the row's value in column `c` is missing. */
  predicate IsMissing(x: Record, c: Column) {
    match c
    case Year => x.year.None?
    case AlarmDate => x.alarmDate.None?
    case ContDate => x.contDate.None?
    case Acres => x.acres.None?
    case Cause => x.cause.None?
    case Agency => x.agency.None?
    case CMethod => x.cMethod.None?
    case UnitId => x.unitId.None?
    case Decade => x.decade.None?
    case SizeCategory => x.sizeCategory.None?
    case CauseLabel => x.causeLabel.None?
    case AgencyLabel => x.agencyLabel.None?
    case CMethodLabel => x.cMethodLabel.None?
    case UnitLabel => x.unitLabel.None?
  }

  /** A row of a table with the given columns holds no value in an absent column. */
  predicate Fits(columns: set<Column>, x: Record) {
    forall c: Column :: c !in columns ==> IsMissing(x, c)
  }

  datatype Frame = Frame(columns: set<Column>, rows: seq<Record>) {
    predicate Valid() {
      forall i :: 0 <= i < |rows| ==> Fits(columns, rows[i])
    }
  }

  /** The source attributes and geometry of two rows agree. */
  predicate SameSource(x: Record, y: Record) {
    && x.year == y.year && x.alarmDate == y.alarmDate && x.contDate == y.contDate
    && x.acres == y.acres && x.cause == y.cause && x.agency == y.agency
    && x.cMethod == y.cMethod && x.unitId == y.unitId && x.geometry == y.geometry
  }

  /** The label columns of two rows agree. */
  predicate SameLabels(x: Record, y: Record) {
    && x.causeLabel == y.causeLabel && x.agencyLabel == y.agencyLabel
    && x.cMethodLabel == y.cMethodLabel && x.unitLabel == y.unitLabel
  }

  /** The derived columns of two rows agree. */
  predicate SameDerived(x: Record, y: Record) {
    x.decade == y.decade && x.sizeCategory == y.sizeCategory
  }

  /** A boolean mask over the year column. A comparison with a missing year
      is false, as pandas compares NaN; `NoYear` is the mask `isna()`. */
  datatype YearTest = AtLeast(bound: int) | AtMost(bound: int) | Below(bound: int) | NoYear

  predicate Passes(year: Option<int>, t: YearTest) {
    match t
    case AtLeast(b) => year.Some? && year.value >= b
    case AtMost(b) => year.Some? && year.value <= b
    case Below(b) => year.Some? && year.value < b
    case NoYear => year.None?
  }

  /** `gdf[mask]`: the rows whose year passes the test, in their original order. */
  function Select(rows: seq<Record>, t: YearTest): (kept: seq<Record>)
    ensures |kept| <= |rows|
    ensures forall x :: x in kept <==> x in rows && Passes(x.year, t)
    ensures forall x :: multiset(kept)[x] == if Passes(x.year, t) then multiset(rows)[x] else 0
  {
    if rows == [] then []
    else
      var rest := Select(rows[1..], t);
      assert rows == [rows[0]] + rows[1..];
      (if Passes(rows[0].year, t) then [rows[0]] else []) + rest
  }

  /** `xs` is `ys` with some elements dropped and the rest left in order. */
  predicate SubsequenceOf<T(==)>(xs: seq<T>, ys: seq<T>)
    decreases |ys|
  {
    if xs == [] then true
    else if ys == [] then false
    else (xs[0] == ys[0] && SubsequenceOf(xs[1..], ys[1..])) || SubsequenceOf(xs, ys[1..])
  }

  lemma {:induction false} SubsequenceOfSelf<T>(ys: seq<T>)
    ensures SubsequenceOf(ys, ys)
    decreases |ys|
  {
    if ys != [] {
      SubsequenceOfSelf(ys[1..]);
    }
  }

  lemma {:induction false} SubsequenceTransitive<T>(xs: seq<T>, ys: seq<T>, zs: seq<T>)
    requires SubsequenceOf(xs, ys) && SubsequenceOf(ys, zs)
    ensures SubsequenceOf(xs, zs)
    decreases |zs|
  {
    if xs != [] {
      if ys[0] == zs[0] && SubsequenceOf(ys[1..], zs[1..]) {
        if xs[0] == ys[0] && SubsequenceOf(xs[1..], ys[1..]) {
          SubsequenceTransitive(xs[1..], ys[1..], zs[1..]);
        } else {
          SubsequenceTransitive(xs, ys[1..], zs[1..]);
        }
      } else {
        SubsequenceTransitive(xs, ys, zs[1..]);
      }
    }
  }

  /** Selecting rows only drops rows; it keeps order and leaves rows unchanged. */
  lemma {:induction false} SelectIsSubsequence(rows: seq<Record>, t: YearTest)
    ensures SubsequenceOf(Select(rows, t), rows)
    decreases |rows|
  {
    if rows != [] {
      SelectIsSubsequence(rows[1..], t);
      var kept := Select(rows, t);
      if Passes(rows[0].year, t) {
        assert kept[0] == rows[0] && kept[1..] == Select(rows[1..], t);
      } else {
        assert kept == Select(rows[1..], t);
      }
    }
  }

  /** Selecting from a valid table yields a valid table over the same columns. */
  lemma SelectKeepsValid(f: Frame, t: YearTest)
    ensures f.Valid() ==> Frame(f.columns, Select(f.rows, t)).Valid()
  {
    var kept := Select(f.rows, t);
    if f.Valid() {
      forall i | 0 <= i < |kept| ensures Fits(f.columns, kept[i]) {
        assert kept[i] in f.rows;
      }
    }
  }

  /** The number of rows whose value in column `c` is missing. */
  function CountMissing(rows: seq<Record>, c: Column): (n: nat)
    ensures n <= |rows|
    ensures n == 0 <==> forall i :: 0 <= i < |rows| ==> !IsMissing(rows[i], c)
    ensures n == |rows| <==> forall i :: 0 <= i < |rows| ==> IsMissing(rows[i], c)
  {
    if rows == [] then 0
    else (if IsMissing(rows[0], c) then 1 else 0) + CountMissing(rows[1..], c)
  }
}

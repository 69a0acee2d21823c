/** The record pipeline of src/utils/data_loader.py: the year filter of the
    loader, the decade and size-category columns, the label columns, the
    missing-value counts of the quality summary and the split on a cutoff
    year. Every operation returns a new table; a column the code indexes
    unconditionally raises `KeyError` when the table lacks it. */
module DataLoader {
  import opened Wrappers
  import opened Constants
  import opened Text
  import opened DomainMappings
  import opened Records
  import opened Tallies

  datatype KeyError = KeyError(column: Column)

  // ---------------------------------------------------------------------
  // load_fire_perimeters: the year filter

  /** Python's `x or default` on an optional year: None and 0 are falsy. */
  function OrDefault(x: Option<int>, default: int): int {
    if x.None? || x.value == 0 then default else x.value
  }

  function Max(a: int, b: int): int {
    if a >= b then a else b
  }

  /** The lower year bound in force: with `high_quality_only` it is raised to
      the cutoff, i.e. the larger of the caller's bound and the cutoff. */
  function EffectiveYearMin(yearMin: Option<int>, highQualityOnly: bool): (lo: Option<int>)
    ensures !highQualityOnly ==> lo == yearMin
    ensures highQualityOnly && yearMin.None? ==> lo == Some(HighQualityCutoff)
    ensures highQualityOnly && yearMin.Some? ==>
      lo == Some(if yearMin.value > HighQualityCutoff then yearMin.value else HighQualityCutoff)
  {
    if highQualityOnly then Some(Max(OrDefault(yearMin, HighQualityCutoff), HighQualityCutoff))
    else yearMin
  }

  /** Both bounds inclusive and each optional; a row without a year passes
      only when there is no bound at all. */
  predicate InYearRange(year: Option<int>, lo: Option<int>, hi: Option<int>) {
    && (lo.None? || (year.Some? && lo.value <= year.value))
    && (hi.None? || (year.Some? && year.value <= hi.value))
  }

  /** The loader applied to the table it read: keeps exactly the rows whose
      year lies within the bounds in force. */
  function LoadFirePerimeters(data: Frame, yearMin: Option<int>, yearMax: Option<int>, highQualityOnly: bool)
    : (r: Result<Frame, KeyError>)
    ensures r.Failure? <==> Year !in data.columns && (yearMin.Some? || yearMax.Some? || highQualityOnly)
    ensures r.Failure? ==> r.error == KeyError(Year)
    ensures r.Success? ==> r.value.columns == data.columns
    ensures r.Success? ==> forall x :: x in r.value.rows <==>
      x in data.rows && InYearRange(x.year, EffectiveYearMin(yearMin, highQualityOnly), yearMax)
    ensures r.Success? ==> forall x :: (multiset(r.value.rows)[x] ==
      if InYearRange(x.year, EffectiveYearMin(yearMin, highQualityOnly), yearMax) then multiset(data.rows)[x] else 0)
  {
    var lo := EffectiveYearMin(yearMin, highQualityOnly);
    if (lo.Some? || yearMax.Some?) && Year !in data.columns then
      Failure(KeyError(Year))
    else
      var afterMin := if lo.Some? then Select(data.rows, AtLeast(lo.value)) else data.rows;
      var afterMax := if yearMax.Some? then Select(afterMin, AtMost(yearMax.value)) else afterMin;
      Success(Frame(data.columns, afterMax))
  }

  /** The loaded rows are the input rows with some dropped: order and the rows
      themselves are unchanged, and a valid table stays valid. */
  lemma LoadKeepsOrderAndRows(data: Frame, yearMin: Option<int>, yearMax: Option<int>, highQualityOnly: bool)
    requires LoadFirePerimeters(data, yearMin, yearMax, highQualityOnly).Success?
    ensures var loaded := LoadFirePerimeters(data, yearMin, yearMax, highQualityOnly).value;
      SubsequenceOf(loaded.rows, data.rows) && (data.Valid() ==> loaded.Valid())
  {
    var lo := EffectiveYearMin(yearMin, highQualityOnly);
    var afterMin := if lo.Some? then Select(data.rows, AtLeast(lo.value)) else data.rows;
    if lo.Some? {
      SelectIsSubsequence(data.rows, AtLeast(lo.value));
      SelectKeepsValid(data, AtLeast(lo.value));
    } else {
      SubsequenceOfSelf(data.rows);
    }
    if yearMax.Some? {
      SelectIsSubsequence(afterMin, AtMost(yearMax.value));
      SubsequenceTransitive(Select(afterMin, AtMost(yearMax.value)), afterMin, data.rows);
      SelectKeepsValid(Frame(data.columns, afterMin), AtMost(yearMax.value));
    }
  }

  /** With `high_quality_only`, every loaded row has a year of at least 1993,
      whatever lower bound the caller gave. */
  lemma LoadHighQualityFloor(data: Frame, yearMin: Option<int>, yearMax: Option<int>)
    requires LoadFirePerimeters(data, yearMin, yearMax, true).Success?
    ensures forall x :: x in LoadFirePerimeters(data, yearMin, yearMax, true).value.rows ==>
      x.year.Some? && x.year.value >= HighQualityCutoff
  {
  }

  /** Without bounds and without `high_quality_only` the table comes back
      whole, rows with a missing year included. */
  lemma LoadWithoutBoundsKeepsAll(data: Frame)
    ensures LoadFirePerimeters(data, None, None, false) == Success(data)
  {
  }

  // ---------------------------------------------------------------------
  // add_derived_columns: decade and size category

  /** `(year // 10) * 10`. With a positive divisor Dafny's `/` floors, as
      Python's `//` does, negative years included. */
  function DecadeStart(year: int): (d: int)
    ensures d % 10 == 0 && d <= year < d + 10
  {
    (year / 10) * 10
  }

  /** The decade is the only multiple of ten in the ten years ending at `year`. */
  lemma DecadeIsUnique(year: int, d: int)
    requires d % 10 == 0 && d <= year < d + 10
    ensures d == DecadeStart(year)
  {
    var e := DecadeStart(year);
    assert d - e == 10 * (d / 10 - e / 10);
  }

  /** The size classes with their acreage intervals, closed below and open above. */
  datatype SizeBucket = SizeBucket(name: string, lower: Option<real>, upper: Option<real>)

  const SizeBuckets: seq<SizeBucket> := [
    SizeBucket("Very Small (<100)", None, Some(100.0)),
    SizeBucket("Small (100-1K)", Some(100.0), Some(1000.0)),
    SizeBucket("Medium (1K-10K)", Some(1000.0), Some(10000.0)),
    SizeBucket("Large (10K-100K)", Some(10000.0), Some(100000.0)),
    SizeBucket("Mega (100K+)", Some(100000.0), None)
  ]

  const UnknownSize: string := "Unknown"

  predicate InBucket(a: real, b: SizeBucket) {
    (b.lower.None? || b.lower.value <= a) && (b.upper.None? || a < b.upper.value)
  }

  /** `categorize_size`: "Unknown" for a missing acreage, otherwise the first
      threshold, from the largest down, that the acreage reaches. */
  function CategorizeSize(acres: Option<real>): (category: string)
    ensures acres.None? ==> category == UnknownSize
    ensures acres.Some? ==> forall i :: 0 <= i < |SizeBuckets| ==>
      (category == SizeBuckets[i].name <==> InBucket(acres.value, SizeBuckets[i]))
  {
    match acres
    case None => UnknownSize
    case Some(a) =>
      if a >= 100000.0 then "Mega (100K+)"
      else if a >= 10000.0 then "Large (10K-100K)"
      else if a >= 1000.0 then "Medium (1K-10K)"
      else if a >= 100.0 then "Small (100-1K)"
      else "Very Small (<100)"
  }

  /** Every acreage lies in exactly one size class, and "Unknown" is not the
      name of any class. */
  lemma {:induction false} SizeBucketsPartition(a: real)
    ensures exists i :: 0 <= i < |SizeBuckets| && InBucket(a, SizeBuckets[i])
    ensures forall i, j ::
      (0 <= i < |SizeBuckets| && 0 <= j < |SizeBuckets| &&
       InBucket(a, SizeBuckets[i]) && InBucket(a, SizeBuckets[j])) ==> i == j
    ensures forall i :: 0 <= i < |SizeBuckets| ==> SizeBuckets[i].name != UnknownSize
  {
    var k := if a >= 100000.0 then 4 else if a >= 10000.0 then 3
      else if a >= 1000.0 then 2 else if a >= 100.0 then 1 else 0;
    assert InBucket(a, SizeBuckets[k]);
  }

  /** The boundary cases: every threshold belongs to the larger class. */
  lemma SizeThresholdsAreClosedBelow()
    ensures CategorizeSize(Some(0.0)) == "Very Small (<100)"
    ensures CategorizeSize(Some(100.0)) == "Small (100-1K)"
    ensures CategorizeSize(Some(1000.0)) == "Medium (1K-10K)"
    ensures CategorizeSize(Some(10000.0)) == "Large (10K-100K)"
    ensures CategorizeSize(Some(100000.0)) == "Mega (100K+)"
    ensures CategorizeSize(Some(LargeFireThreshold as real)) == "Large (10K-100K)"
    ensures CategorizeSize(Some(MegaFireThreshold as real)) == "Mega (100K+)"
  {
  }

  /** What a DECADE cell means for a row's year: missing with the year,
      otherwise the multiple of ten at most ten years below it. */
  predicate DecadeFits(year: Option<int>, decade: Option<int>) {
    match year
    case None => decade.None?
    case Some(y) => decade.Some? && decade.value % 10 == 0 && decade.value <= y < decade.value + 10
  }

  /** What a SIZE_CATEGORY cell means for a row's acreage. */
  predicate SizeFits(acres: Option<real>, category: Option<string>) {
    match acres
    case None => category == Some(UnknownSize)
    case Some(a) => category.Some? && forall i :: 0 <= i < |SizeBuckets| ==>
      (category.value == SizeBuckets[i].name <==> InBucket(a, SizeBuckets[i]))
  }

  function DecadeOf(year: Option<int>): Option<int> {
    match year
    case None => None
    case Some(y) => Some(DecadeStart(y))
  }

  /** The derived cells of one row; a column whose source is absent is left as it was. */
  function DeriveRow(columns: set<Column>, x: Record): Record {
    x.(decade := if Year in columns then DecadeOf(x.year) else x.decade,
       sizeCategory := if Acres in columns then Some(CategorizeSize(x.acres)) else x.sizeCategory)
  }

  function DerivedColumns(columns: set<Column>): set<Column> {
    columns + (if Year in columns then {Decade} else {}) + (if Acres in columns then {SizeCategory} else {})
  }

  function DeriveAll(f: Frame): Frame {
    Frame(DerivedColumns(f.columns), seq(|f.rows|, i requires 0 <= i < |f.rows| => DeriveRow(f.columns, f.rows[i])))
  }

  /** `add_derived_columns` (decade and size category): a copy with the same
      rows in the same order, each derived column added exactly when its
      source column is present, and nothing else changed. */
  function AddDerivedColumns(f: Frame): (r: Frame)
    ensures f.columns <= r.columns
    ensures forall c :: c in r.columns - f.columns ==>
      (c == Decade && Year in f.columns) || (c == SizeCategory && Acres in f.columns)
    ensures Year in f.columns ==> Decade in r.columns
    ensures Acres in f.columns ==> SizeCategory in r.columns
    ensures |r.rows| == |f.rows|
    ensures forall i :: 0 <= i < |f.rows| ==>
      SameSource(r.rows[i], f.rows[i]) && SameLabels(r.rows[i], f.rows[i])
    ensures forall i :: 0 <= i < |f.rows| ==>
      if Year in f.columns then DecadeFits(f.rows[i].year, r.rows[i].decade)
      else r.rows[i].decade == f.rows[i].decade
    ensures forall i :: 0 <= i < |f.rows| ==>
      if Acres in f.columns then SizeFits(f.rows[i].acres, r.rows[i].sizeCategory)
      else r.rows[i].sizeCategory == f.rows[i].sizeCategory
    ensures f.Valid() ==> r.Valid()
  {
    var r := DeriveAll(f);
    var rows := r.rows;
    assert f.Valid() ==> r.Valid() by {
      if f.Valid() {
        forall i | 0 <= i < |rows| ensures Fits(r.columns, rows[i]) {
          assert Fits(f.columns, f.rows[i]);
        }
      }
    }
    r
  }

  /** Re-deriving from an enriched table changes nothing: the derived columns
      are functions of source columns the enrichment leaves alone. */
  lemma AddDerivedColumnsIdempotent(f: Frame)
    ensures AddDerivedColumns(AddDerivedColumns(f)) == AddDerivedColumns(f)
  {
    var once := AddDerivedColumns(f);
    var twice := AddDerivedColumns(once);
    assert twice.rows == once.rows;
  }

  // ---------------------------------------------------------------------
  // apply_domain_labels

  /** The cause label of a cell; a missing (NaN) code renders as "nan". */
  function CauseLabelOf(cause: Option<int>): string {
    match cause
    case Some(c) => GetCauseLabel(c)
    case None => Placeholder("nan")
  }

  /** The agency label of a cell; a missing (None) code renders as "None". */
  function AgencyLabelOf(agency: Option<string>): string {
    match agency
    case Some(a) => GetAgencyLabel(a)
    case None => Placeholder("None")
  }

  /** The collection-method label of a cell; a missing (NaN) code renders as "nan". */
  function CMethodLabelOf(cMethod: Option<int>): string {
    match cMethod
    case Some(c) => GetCMethodLabel(c)
    case None => Placeholder("nan")
  }

  /** `UNIT_ID.map(UNIT_ID_MAP).fillna(UNIT_ID)`: the mapped label, else the
      code; a missing code stays missing. */
  function UnitLabelOf(unitId: Option<string>): Option<string> {
    match unitId
    case None => None
    case Some(u) => if u in UnitIdMap then Some(UnitIdMap[u]) else Some(u)
  }

  /** The direct map-with-default on UNIT_ID agrees with the registry's unit lookup. */
  lemma UnitLabelAgreesWithRegistry(unitId: Option<string>)
    ensures unitId.None? ==> UnitLabelOf(unitId).None?
    ensures unitId.Some? ==> UnitLabelOf(unitId) == Some(GetUnitLabel(unitId.value))
  {
  }

  function LabelRow(columns: set<Column>, x: Record): Record {
    x.(causeLabel := if Cause in columns then Some(CauseLabelOf(x.cause)) else x.causeLabel,
       agencyLabel := if Agency in columns then Some(AgencyLabelOf(x.agency)) else x.agencyLabel,
       cMethodLabel := if CMethod in columns then Some(CMethodLabelOf(x.cMethod)) else x.cMethodLabel,
       unitLabel := if UnitId in columns then UnitLabelOf(x.unitId) else x.unitLabel)
  }

  function LabelColumns(columns: set<Column>): set<Column> {
    columns
      + (if Cause in columns then {CauseLabel} else {})
      + (if Agency in columns then {AgencyLabel} else {})
      + (if CMethod in columns then {CMethodLabel} else {})
      + (if UnitId in columns then {UnitLabel} else {})
  }

  function LabelAll(f: Frame): Frame {
    Frame(LabelColumns(f.columns), seq(|f.rows|, i requires 0 <= i < |f.rows| => LabelRow(f.columns, f.rows[i])))
  }

  /** `apply_domain_labels`: a copy with the same rows in the same order, the
      code columns kept, and a label column beside each code column present,
      holding the registry's label of that row's code; a label column whose
      code column is absent is left as it was. */
  function ApplyDomainLabels(f: Frame): (r: Frame)
    ensures f.columns <= r.columns
    ensures forall c :: c in r.columns - f.columns ==>
      || (c == CauseLabel && Cause in f.columns) || (c == AgencyLabel && Agency in f.columns)
      || (c == CMethodLabel && CMethod in f.columns) || (c == UnitLabel && UnitId in f.columns)
    ensures |r.rows| == |f.rows|
    ensures forall i :: 0 <= i < |f.rows| ==>
      SameSource(r.rows[i], f.rows[i]) && SameDerived(r.rows[i], f.rows[i])
    ensures Cause in f.columns ==> CauseLabel in r.columns
    ensures Agency in f.columns ==> AgencyLabel in r.columns
    ensures CMethod in f.columns ==> CMethodLabel in r.columns
    ensures UnitId in f.columns ==> UnitLabel in r.columns
    ensures forall i :: 0 <= i < |f.rows| ==>
      if Cause in f.columns then r.rows[i].causeLabel == Some(CauseLabelOf(f.rows[i].cause))
      else r.rows[i].causeLabel == f.rows[i].causeLabel
    ensures forall i :: 0 <= i < |f.rows| ==>
      if Agency in f.columns then r.rows[i].agencyLabel == Some(AgencyLabelOf(f.rows[i].agency))
      else r.rows[i].agencyLabel == f.rows[i].agencyLabel
    ensures forall i :: 0 <= i < |f.rows| ==>
      if CMethod in f.columns then r.rows[i].cMethodLabel == Some(CMethodLabelOf(f.rows[i].cMethod))
      else r.rows[i].cMethodLabel == f.rows[i].cMethodLabel
    ensures forall i :: 0 <= i < |f.rows| ==>
      if UnitId in f.columns then r.rows[i].unitLabel == UnitLabelOf(f.rows[i].unitId)
      else r.rows[i].unitLabel == f.rows[i].unitLabel
  {
    var r := LabelAll(f);
    assert forall i :: 0 <= i < |f.rows| ==> r.rows[i] == LabelRow(f.columns, f.rows[i]);
    r
  }

  /** Labelling a valid table yields a valid table. */
  lemma ApplyDomainLabelsKeepsValid(f: Frame)
    ensures f.Valid() ==> ApplyDomainLabels(f).Valid()
  {
    var r := ApplyDomainLabels(f);
    if f.Valid() {
      forall i | 0 <= i < |r.rows| ensures Fits(r.columns, r.rows[i]) {
        LabelRowFits(f.columns, f.rows[i]);
      }
    }
  }

  lemma LabelRowFits(columns: set<Column>, x: Record)
    requires Fits(columns, x)
    ensures Fits(LabelColumns(columns), LabelRow(columns, x))
  {
    var y := LabelRow(columns, x);
    forall c: Column | c !in LabelColumns(columns) ensures IsMissing(y, c) {
      assert c !in columns && IsMissing(x, c);
      assert c != CauseLabel && c != AgencyLabel && c != CMethodLabel && c != UnitLabel ==>
        IsMissing(y, c) == IsMissing(x, c);
    }
  }

  /** Labelling a labelled table changes nothing. */
  lemma ApplyDomainLabelsIdempotent(f: Frame)
    ensures ApplyDomainLabels(ApplyDomainLabels(f)) == ApplyDomainLabels(f)
  {
    var once := ApplyDomainLabels(f);
    assert ApplyDomainLabels(once).rows == once.rows;
  }

  /** Enrichment and labelling touch disjoint columns, so their order does not matter. */
  lemma EnrichAndLabelCommute(f: Frame)
    ensures ApplyDomainLabels(AddDerivedColumns(f)) == AddDerivedColumns(ApplyDomainLabels(f))
  {
    DeriveAllLabelAllCommute(f);
  }

  lemma DeriveAllLabelAllCommute(f: Frame)
    ensures LabelAll(DeriveAll(f)) == DeriveAll(LabelAll(f))
  {
    var derived, labelled := DeriveAll(f), LabelAll(f);
    var a, b := LabelAll(derived), DeriveAll(labelled);
    assert |a.rows| == |f.rows| == |b.rows|;
    forall i | 0 <= i < |f.rows| ensures a.rows[i] == b.rows[i] {
      assert a.rows[i] == LabelRow(derived.columns, derived.rows[i]);
      assert b.rows[i] == DeriveRow(labelled.columns, labelled.rows[i]);
      DeriveAndLabelRowCommute(f.columns, f.rows[i]);
    }
    assert a.rows == b.rows;
    ColumnsCommute(f.columns);
  }

  lemma ColumnsCommute(columns: set<Column>)
    ensures LabelColumns(DerivedColumns(columns)) == DerivedColumns(LabelColumns(columns))
  {
    var derived, labelled := DerivedColumns(columns), LabelColumns(columns);
    assert Year in labelled <==> Year in columns;
    assert Acres in labelled <==> Acres in columns;
    assert Cause in derived <==> Cause in columns;
    assert Agency in derived <==> Agency in columns;
    assert CMethod in derived <==> CMethod in columns;
    assert UnitId in derived <==> UnitId in columns;
  }

  /** The row-level step: deriving and labelling one row commute. */
  lemma DeriveAndLabelRowCommute(columns: set<Column>, x: Record)
    ensures LabelRow(DerivedColumns(columns), DeriveRow(columns, x)) == DeriveRow(LabelColumns(columns), LabelRow(columns, x))
  {
    assert Year in LabelColumns(columns) <==> Year in columns;
    assert Acres in LabelColumns(columns) <==> Acres in columns;
    assert Cause in DerivedColumns(columns) <==> Cause in columns;
    assert Agency in DerivedColumns(columns) <==> Agency in columns;
    assert CMethod in DerivedColumns(columns) <==> CMethod in columns;
    assert UnitId in DerivedColumns(columns) <==> UnitId in columns;
  }

  // ---------------------------------------------------------------------
  // get_data_quality_summary: the counts

  /** The countable part of the quality summary. The year-range text and the
      geometry validity counts are not modelled. */
  datatype QualitySummary = QualitySummary(
    totalRecords: nat,
    missingAlarmDate: nat,
    missingContDate: nat,
    missingCause: nat,
    missingAcres: nat,
    cMethodDistribution: Option<map<int, nat>>)

  /** The number of rows whose C_METHOD is `code`. */
  function CountCode(rows: seq<Record>, code: int): nat {
    if rows == [] then 0
    else (if rows[0].cMethod == Some(code) then 1 else 0) + CountCode(rows[1..], code)
  }

  /** `value_counts()` of C_METHOD: each present code with the number of rows
      holding it; missing values are not counted. */
  function CMethodCounts(rows: seq<Record>): (counts: map<int, nat>)
    ensures forall v :: v in counts <==> CountCode(rows, v) > 0
    ensures forall v :: v in counts ==> counts[v] == CountCode(rows, v)
  {
    if rows == [] then map[]
    else
      var rest := CMethodCounts(rows[1..]);
      match rows[0].cMethod
      case None => rest
      case Some(v) => rest[v := (if v in rest then rest[v] else 0) + 1]
  }

  /** The codes present in C_METHOD, each listed once. */
  function DistinctCodes(rows: seq<Record>): (codes: seq<int>)
    ensures Distinct(codes)
    ensures forall v :: v in codes <==> CountCode(rows, v) > 0
  {
    if rows == [] then []
    else
      var rest := DistinctCodes(rows[1..]);
      match rows[0].cMethod
      case None => rest
      case Some(v) => if v in rest then rest else [v] + rest
  }

  /** The C_METHOD distribution, each code counted once, sums to the number
      of rows whose C_METHOD is present. */
  lemma {:induction false} CMethodCountsSum(rows: seq<Record>)
    ensures SumOver(CMethodCounts(rows), DistinctCodes(rows)) == |rows| - CountMissing(rows, CMethod)
    decreases |rows|
  {
    if rows != [] {
      CMethodCountsSum(rows[1..]);
      var rest, codes := CMethodCounts(rows[1..]), DistinctCodes(rows[1..]);
      if rows[0].cMethod.Some? {
        var v := rows[0].cMethod.value;
        var n := CountOf(rest, v) + 1;
        assert CMethodCounts(rows) == rest[v := n];
        SumOverUpdate(rest, v, n, codes);
        if v !in codes {
          assert v !in rest;
          assert DistinctCodes(rows) == [v] + codes;
          assert ([v] + codes)[1..] == codes;
        }
      }
    }
  }

  /** The columns the summary indexes unconditionally, in the order it reads them. */
  const SummaryColumns: seq<Column> := [Year, AlarmDate, ContDate, Cause, Acres]

  /** The first column of `required` that the table lacks. */
  function FirstAbsent(columns: set<Column>, required: seq<Column>): (c: Option<Column>)
    ensures c.None? <==> forall k :: 0 <= k < |required| ==> required[k] in columns
    ensures c.Some? ==> c.value !in columns && c.value in required
    ensures c.Some? ==>
      exists k :: 0 <= k < |required| && required[k] == c.value && (forall j :: 0 <= j < k ==> required[j] in columns)
  {
    if required == [] then None
    else if required[0] !in columns then Some(required[0])
    else
      var rest := FirstAbsent(columns, required[1..]);
      assert rest.Some? ==>
        exists k :: 1 <= k < |required| && required[k] == rest.value && (forall j :: 0 <= j < k ==> required[j] in columns);
      rest
  }

  /** `get_data_quality_summary` (counts only): fails on the first required
      column the table lacks; otherwise reports the row count, the number of
      missing values per column, and the C_METHOD distribution when that
      column exists. */
  function GetDataQualitySummary(f: Frame): (r: Result<QualitySummary, KeyError>)
    ensures r.Failure? <==> exists k :: 0 <= k < |SummaryColumns| && SummaryColumns[k] !in f.columns
    ensures r.Failure? ==> r.error.column !in f.columns && r.error.column in SummaryColumns
    ensures r.Failure? ==> FirstAbsent(f.columns, SummaryColumns) == Some(r.error.column)
    ensures r.Success? ==> r.value.totalRecords == |f.rows|
    ensures r.Success? ==>
      && r.value.missingAlarmDate == CountMissing(f.rows, AlarmDate)
      && r.value.missingContDate == CountMissing(f.rows, ContDate)
      && r.value.missingCause == CountMissing(f.rows, Cause)
      && r.value.missingAcres == CountMissing(f.rows, Acres)
    ensures r.Success? ==>
      && r.value.missingAlarmDate <= r.value.totalRecords
      && r.value.missingContDate <= r.value.totalRecords
      && r.value.missingCause <= r.value.totalRecords
      && r.value.missingAcres <= r.value.totalRecords
    ensures r.Success? ==> (r.value.cMethodDistribution.Some? <==> CMethod in f.columns)
    ensures r.Success? && CMethod in f.columns ==>
      forall v :: v in r.value.cMethodDistribution.value ==> r.value.cMethodDistribution.value[v] == CountCode(f.rows, v)
  {
    match FirstAbsent(f.columns, SummaryColumns)
    case Some(c) => Failure(KeyError(c))
    case None =>
      Success(QualitySummary(
        |f.rows|,
        CountMissing(f.rows, AlarmDate),
        CountMissing(f.rows, ContDate),
        CountMissing(f.rows, Cause),
        CountMissing(f.rows, Acres),
        if CMethod in f.columns then Some(CMethodCounts(f.rows)) else None))
  }

  /** The summary reads its columns in order, so a table lacking both YEAR_
      and CAUSE reports YEAR_. */
  lemma SummaryReportsFirstMissingColumn(rows: seq<Record>)
    ensures GetDataQualitySummary(Frame({AlarmDate, ContDate, Acres}, rows)) == Failure(KeyError(Year))
  {
  }

  /** On a table with a C_METHOD column, the distribution's counts sum to the
      number of rows whose C_METHOD is present. */
  lemma SummaryDistributionSum(f: Frame)
    requires GetDataQualitySummary(f).Success? && CMethod in f.columns
    ensures var distribution := GetDataQualitySummary(f).value.cMethodDistribution.value;
      && (forall v :: v in distribution <==> v in DistinctCodes(f.rows))
      && SumOver(distribution, DistinctCodes(f.rows)) ==
         GetDataQualitySummary(f).value.totalRecords - CountMissing(f.rows, CMethod)
  {
    CMethodCountsSum(f.rows);
  }

  /** The summary of an empty table reports no records and no missing values. */
  lemma EmptySummary(columns: set<Column>)
    requires forall k :: 0 <= k < |SummaryColumns| ==> SummaryColumns[k] in columns
    ensures GetDataQualitySummary(Frame(columns, [])) ==
      Success(QualitySummary(0, 0, 0, 0, 0, if CMethod in columns then Some(map[]) else None))
  {
  }

  // ---------------------------------------------------------------------
  // split_by_quality

  /** The cutoff in force: the caller's, or 1993. */
  function CutoffOrDefault(cutoffYear: Option<int>): int {
    cutoffYear.GetOr(HighQualityCutoff)
  }

  /** `split_by_quality`: (rows dated before the cutoff, rows dated at or after
      it), each in input order over the same columns. A row without a year is
      in neither, because both comparisons with NaN are false. */
  function SplitByQuality(f: Frame, cutoffYear: Option<int>): (r: Result<(Frame, Frame), KeyError>)
    ensures r.Failure? <==> Year !in f.columns
    ensures r.Failure? ==> r.error == KeyError(Year)
    ensures r.Success? ==> r.value.0.columns == f.columns && r.value.1.columns == f.columns
    ensures r.Success? ==> forall x :: x in r.value.0.rows <==>
      x in f.rows && x.year.Some? && x.year.value < CutoffOrDefault(cutoffYear)
    ensures r.Success? ==> forall x :: x in r.value.1.rows <==>
      x in f.rows && x.year.Some? && x.year.value >= CutoffOrDefault(cutoffYear)
    ensures r.Success? ==> forall x :: (multiset(r.value.0.rows)[x] ==
      if x.year.Some? && x.year.value < CutoffOrDefault(cutoffYear) then multiset(f.rows)[x] else 0)
    ensures r.Success? ==> forall x :: (multiset(r.value.1.rows)[x] ==
      if x.year.Some? && x.year.value >= CutoffOrDefault(cutoffYear) then multiset(f.rows)[x] else 0)
  {
    var cutoff := CutoffOrDefault(cutoffYear);
    if Year !in f.columns then Failure(KeyError(Year))
    else Success((Frame(f.columns, Select(f.rows, Below(cutoff))), Frame(f.columns, Select(f.rows, AtLeast(cutoff)))))
  }

  /** The two halves and the undated rows together are the input, row for
      row: each dated row is in exactly one half. */
  lemma SplitPartitionsRows(rows: seq<Record>, cutoff: int)
    ensures multiset(Select(rows, Below(cutoff))) + multiset(Select(rows, AtLeast(cutoff)))
      + multiset(Select(rows, NoYear)) == multiset(rows)
  {
    var historical, highQuality, undated :=
      Select(rows, Below(cutoff)), Select(rows, AtLeast(cutoff)), Select(rows, NoYear);
    forall x ensures (multiset(historical) + multiset(highQuality) + multiset(undated))[x] == multiset(rows)[x] {
      assert multiset(historical)[x] == if Passes(x.year, Below(cutoff)) then multiset(rows)[x] else 0;
      assert multiset(highQuality)[x] == if Passes(x.year, AtLeast(cutoff)) then multiset(rows)[x] else 0;
      assert multiset(undated)[x] == if Passes(x.year, NoYear) then multiset(rows)[x] else 0;
    }
  }

  /** The undated rows are those the quality summary would count as missing a year. */
  lemma {:induction false} UndatedCount(rows: seq<Record>)
    ensures |Select(rows, NoYear)| == CountMissing(rows, Year)
    decreases |rows|
  {
    if rows != [] {
      UndatedCount(rows[1..]);
      assert |Select(rows, NoYear)| == (if rows[0].year.None? then 1 else 0) + |Select(rows[1..], NoYear)|;
    }
  }

  /** The halves of a split are disjoint and their sizes add up to the
      number of dated rows. */
  lemma SplitByQualityPartition(f: Frame, cutoffYear: Option<int>)
    requires SplitByQuality(f, cutoffYear).Success?
    ensures var halves := SplitByQuality(f, cutoffYear).value;
      && (forall x :: x in halves.0.rows ==> x !in halves.1.rows)
      && |halves.0.rows| + |halves.1.rows| == |f.rows| - CountMissing(f.rows, Year)
  {
    var cutoff := CutoffOrDefault(cutoffYear);
    var historical, highQuality, undated :=
      Select(f.rows, Below(cutoff)), Select(f.rows, AtLeast(cutoff)), Select(f.rows, NoYear);
    SplitPartitionsRows(f.rows, cutoff);
    assert |multiset(historical) + multiset(highQuality) + multiset(undated)| == |multiset(f.rows)|;
    UndatedCount(f.rows);
  }

  /** Each half keeps the input order and the rows themselves, and a valid
      table splits into valid tables. */
  lemma SplitByQualityKeepsOrder(f: Frame, cutoffYear: Option<int>)
    requires SplitByQuality(f, cutoffYear).Success?
    ensures var halves := SplitByQuality(f, cutoffYear).value;
      && SubsequenceOf(halves.0.rows, f.rows) && SubsequenceOf(halves.1.rows, f.rows)
      && (f.Valid() ==> halves.0.Valid() && halves.1.Valid())
  {
    var cutoff := CutoffOrDefault(cutoffYear);
    SelectIsSubsequence(f.rows, Below(cutoff));
    SelectIsSubsequence(f.rows, AtLeast(cutoff));
    SelectKeepsValid(f, Below(cutoff));
    SelectKeepsValid(f, AtLeast(cutoff));
  }

  /** A single undated record lands in neither half: the halves do not cover
      a table whose rows lack a year. */
  lemma UndatedRecordInNeitherHalf(x: Record)
    requires x.year.None?
    ensures var f := Frame({Year}, [x]);
      SplitByQuality(f, None).Success? &&
      SplitByQuality(f, None).value.0.rows == [] &&
      SplitByQuality(f, None).value.1.rows == []
  {
  }
}

# Wildfire perimeter utilities: a verified model of the record pipeline

This project models the small self-contained logic of a wildfire-perimeter
analysis toolkit for the CAL FIRE perimeter dataset:

- the **domain code registry**: the CAUSE, AGENCY, C_METHOD and UNIT_ID
  tables and their lookups. Cause, agency and collection-method codes that are
  not in a table become the placeholder `Unknown (<code>)`. An unmapped unit code
  comes back as itself.
- the **record pipeline**:
  - the year filter of the loader, including the 1993 high-quality floor;
  - the DECADE and SIZE_CATEGORY derived columns;
  - the label columns;
  - the missing-value counts and the C_METHOD distribution of the quality summary;
  - the split of a table at a cutoff year.
- the **presentation helpers**: the figure file-name rule and save defaults, the
  month labels, the K/M suffix of an acreage, and the two color tables.

A table is a `Frame`: a set of `Column`s plus a sequence of `Record` rows.
Whether a column exists is a property of the table. A missing value (pandas
`NaN` or `None`) inside a present column is `None` in the row. A table is
`Valid()` when every absent column holds `None` in every row. Every operation
returns a new table, as the source's copy-on-write transformations do.

A row mask (`gdf[gdf["YEAR_"] >= y]`) is `Records.Select`. A comparison with a
missing year is false, as it is for pandas. When the code indexes a column the
table lacks, the model returns `Failure(KeyError(column))`; this happens in
the year filter, the quality summary and the split.

`split_by_quality` drops rows with a missing year from both halves, because
both comparisons with NaN are false. The halves therefore cover only the
dated rows. `UndatedRecordInNeitherHalf` shows this with a single undated row,
and `SplitByQualityPartition` gives the exact sizes.

Modules: `Wrappers` (Option, Result), `Constants`, `Text` (Python's `str` on
integers and `str.endswith`), `DomainMappings`, `Records` (the table and
row selection), `Tallies` (sums of frequency tables), `DataLoader`, `Plotting`.

## Model

| member | source | states |
|---|---|---|
| `Text.IntToStringRoundTrip` | src/utils/domain_mappings.py:121 | the decimal rendering of a code that a placeholder embeds determines the code: parsing it back gives the code |
| `DomainMappings.GetCauseLabel` | src/utils/domain_mappings.py:119-121 | a mapped cause code gives its CAUSE_MAP label; an unmapped one gives a placeholder from which the code's rendering is read back |
| `DomainMappings.GetAgencyLabel` | src/utils/domain_mappings.py:124-126 | a mapped agency code gives its AGENCY_MAP label; an unmapped one gives a placeholder embedding the code verbatim |
| `DomainMappings.GetCMethodLabel` | src/utils/domain_mappings.py:129-131 | a mapped collection-method code gives its C_METHOD_MAP label; an unmapped one gives a placeholder carrying the code |
| `DomainMappings.GetUnitLabel` | src/utils/domain_mappings.py:134-136 | a mapped unit code gives its UNIT_ID_MAP label; an unmapped one is returned unchanged |
| `DomainMappings.PlaceholderCode` | src/utils/domain_mappings.py:121 | whatever it extracts from a label, wrapping it back in the placeholder gives the label again |
| `DomainMappings.PlaceholderRoundTrip` | src/utils/domain_mappings.py:121 | extracting the code from `Unknown (<code>)` gives back exactly `<code>` |
| `DomainMappings.MappedLabelsAreNotPlaceholders` | src/utils/domain_mappings.py:7-56 | no CAUSE, AGENCY or C_METHOD label has the placeholder's shape, "Unknown/Unidentified" and "Unknown" included |
| `DomainMappings.CauseLabelRecoversCode` | src/utils/domain_mappings.py:119-121 | a cause label is a placeholder exactly when the code is unmapped, and then the integer code parses back out of it |
| `DomainMappings.AgencyLabelRecoversCode` | src/utils/domain_mappings.py:124-126 | an agency label is a placeholder exactly when the code is unmapped, and then it embeds the code verbatim |
| `DomainMappings.CMethodLabelRecoversCode` | src/utils/domain_mappings.py:129-131 | a collection-method label is a placeholder exactly when the code is unmapped, and then the code parses back out of it |
| `DomainMappings.UnitCodesAreShort` | src/utils/domain_mappings.py:74-116 | every UNIT_ID_MAP key has three characters |
| `DomainMappings.UnitLabelsAreLong` | src/utils/domain_mappings.py:74-116 | every UNIT_ID_MAP label is longer than nine characters and does not start with the 'U' that every placeholder starts with |
| `DomainMappings.UnitLabelFallsBackToCode` | src/utils/domain_mappings.py:124-136 | the unit lookup returns its argument if and only if the code is unmapped, and it never returns the placeholder, which the agency lookup returns for the same unmapped code |
| `DomainMappings.CodeRanges` | src/utils/domain_mappings.py:7-56 | the CAUSE_MAP keys are exactly 1..19 and the C_METHOD_MAP keys exactly 1..8 |
| `Records.Select` | src/utils/data_loader.py:54-58 | a boolean year mask keeps exactly the rows whose year passes the test (a missing year fails every comparison), each with as many copies as the input has, and drops every other row |
| `Records.SelectIsSubsequence` | src/utils/data_loader.py:54-58 | a mask only drops rows: the rest keep their order and are unchanged |
| `Records.SelectKeepsValid` | src/utils/data_loader.py:54-58 | masking a valid table gives a valid table over the same columns |
| `Records.CountMissing` | src/utils/data_loader.py:172-175 | the `isna().sum()` count is at most the row count; it is 0 exactly when no row is missing the value, and equals the row count exactly when every row is |
| `DataLoader.EffectiveYearMin` | src/utils/data_loader.py:51-52 | with `high_quality_only`, the lower bound is the larger of the caller's bound and 1993, or 1993 when there is no bound; without it, the caller's bound is used |
| `DataLoader.LoadFirePerimeters` | src/utils/data_loader.py:51-60 | KeyError exactly when a bound applies and YEAR_ is absent; otherwise the same columns and exactly the input rows whose year lies within both inclusive, independently optional bounds, each kept as often as it occurs in the input |
| `DataLoader.LoadKeepsOrderAndRows` | src/utils/data_loader.py:54-60 | the loaded rows are the input rows in their order, some dropped, none changed; a valid table stays valid |
| `DataLoader.LoadHighQualityFloor` | src/utils/data_loader.py:51-55 | with `high_quality_only`, every returned row has a year of at least 1993 |
| `DataLoader.LoadWithoutBoundsKeepsAll` | src/utils/data_loader.py:51-60 | with no bounds and no high-quality flag the table comes back whole, undated rows included |
| `DataLoader.DecadeStart` | src/utils/data_loader.py:91-92 | DECADE is a multiple of ten with DECADE <= year < DECADE + 10, negative years included |
| `DataLoader.DecadeIsUnique` | src/utils/data_loader.py:91-92 | that property determines DECADE: no other multiple of ten satisfies it |
| `DataLoader.CategorizeSize` | src/utils/data_loader.py:101-113 | a missing acreage gives "Unknown"; otherwise the result is a class's name exactly when the acreage lies in that class's interval, closed below and open above |
| `DataLoader.SizeBucketsPartition` | src/utils/data_loader.py:101-113 | every acreage lies in exactly one of the five classes, and "Unknown" names none of them |
| `DataLoader.SizeThresholdsAreClosedBelow` | src/utils/data_loader.py:104-113 | 0, 100, 1000, 10000 and 100000 acres fall in Very Small, Small, Medium, Large and Mega; the large and mega fire thresholds start the Large and Mega classes |
| `DataLoader.AddDerivedColumns` | src/utils/data_loader.py:77-117 | same rows in the same order with source and label cells unchanged; DECADE is added exactly when YEAR_ is present and SIZE_CATEGORY exactly when GIS_ACRES is; each new cell is the decade or the size class of its row; a valid table stays valid |
| `DataLoader.AddDerivedColumnsIdempotent` | src/utils/data_loader.py:90-117 | enriching an enriched table changes nothing |
| `DataLoader.UnitLabelAgreesWithRegistry` | src/utils/data_loader.py:150 | the map-then-fillna on UNIT_ID equals the registry's unit lookup, and a missing unit code stays missing |
| `DataLoader.ApplyDomainLabels` | src/utils/data_loader.py:134-152 | same rows in the same order with code and derived cells unchanged; for each code column present a label column is added, and each label cell is the registry's label of its row's code; a label column whose code column is absent keeps its cells |
| `DataLoader.ApplyDomainLabelsKeepsValid` | src/utils/data_loader.py:134-152 | labelling a valid table gives a valid table |
| `DataLoader.LabelRowFits` | src/utils/data_loader.py:137-150 | a labelled row holds no value in a label column its table does not have |
| `DataLoader.ApplyDomainLabelsIdempotent` | src/utils/data_loader.py:134-152 | labelling a labelled table changes nothing |
| `DataLoader.EnrichAndLabelCommute` | src/utils/data_loader.py:77-152 | enrichment and labelling write disjoint columns, so either order gives the same columns and the same cells |
| `DataLoader.CMethodCounts` | src/utils/data_loader.py:181-183 | `value_counts` of C_METHOD: a code is a key exactly when some row has it, and its count is the number of rows holding it |
| `DataLoader.DistinctCodes` | src/utils/data_loader.py:181-183 | lists each C_METHOD code present in the table exactly once |
| `DataLoader.CMethodCountsSum` | src/utils/data_loader.py:181-183 | the distribution's counts sum to the number of rows whose C_METHOD is present |
| `DataLoader.FirstAbsent` | src/utils/data_loader.py:169-175 | picks the first column, in reading order, that the table lacks, or none when all are present |
| `DataLoader.GetDataQualitySummary` | src/utils/data_loader.py:169-185 | KeyError exactly when YEAR_, ALARM_DATE, CONT_DATE, CAUSE or GIS_ACRES is absent, naming the first absent one in that order; otherwise Total Records is the row count, each Missing count is the number of rows missing that value and at most Total Records, and the C_METHOD distribution is present exactly when that column is, counting each code's rows |
| `DataLoader.SummaryReportsFirstMissingColumn` | src/utils/data_loader.py:170-175 | a table lacking both YEAR_ and CAUSE fails with a KeyError for YEAR_, the first column the summary reads |
| `DataLoader.SummaryDistributionSum` | src/utils/data_loader.py:181-183 | in the summary, the distribution's keys are the codes present and their counts sum to Total Records minus the rows missing C_METHOD |
| `DataLoader.EmptySummary` | src/utils/data_loader.py:169-185 | an empty table reports 0 records, 0 missing values and an empty distribution |
| `DataLoader.SplitByQuality` | src/utils/data_loader.py:204-210 | KeyError exactly when YEAR_ is absent; otherwise the historical half holds exactly the rows dated before the cutoff and the high-quality half exactly those dated at or after it, each row as often as in the input, with the cutoff defaulting to 1993 |
| `DataLoader.SplitPartitionsRows` | src/utils/data_loader.py:207-208 | the two halves plus the undated rows are the input as a multiset, so each dated row is in exactly one half |
| `DataLoader.UndatedCount` | src/utils/data_loader.py:207-208 | the rows in neither half are exactly those counted as missing YEAR_ |
| `DataLoader.SplitByQualityPartition` | src/utils/data_loader.py:204-210 | the halves are disjoint and their sizes sum to the row count minus the undated rows |
| `DataLoader.SplitByQualityKeepsOrder` | src/utils/data_loader.py:207-210 | each half keeps input order and the rows unchanged; a valid table splits into valid tables |
| `DataLoader.UndatedRecordInNeitherHalf` | src/utils/data_loader.py:207-208 | a one-row table whose row has no year splits into two empty halves |
| `Plotting.WithExtension` | src/utils/plotting.py:59-61 | the result always ends with "." + format and starts with the given name; it equals the name exactly when the name already ends with "." + format (case-sensitive), and otherwise is longer by exactly one "." + format |
| `Plotting.WithExtensionIdempotent` | src/utils/plotting.py:60-61 | applying the extension rule twice gives the same name as applying it once |
| `Plotting.WithExtensionIsCaseSensitive` | src/utils/plotting.py:60 | "plot.PNG" saved as png becomes "plot.PNG.png" |
| `Plotting.SaveFigureSettings` | src/utils/plotting.py:51-66 | dpi defaults to 300 and format to "png"; the file name follows the extension rule for the chosen format; the bounding box is "tight" exactly when `tight` is set; the face color is white |
| `Plotting.SaveFigureDefaults` | src/utils/plotting.py:51-54 | with neither dpi nor format given, a figure is saved as a .png file at 300 dpi |
| `Plotting.MonthLabels` | src/utils/plotting.py:119-122 | twelve three-letter labels, "Jan" first and "Dec" last |
| `Plotting.MonthLabelsDistinct` | src/utils/plotting.py:121-122 | no two months share a label |
| `Plotting.FormatAcres` | src/utils/plotting.py:174-181 | the suffix is "M" exactly from one million, "K" exactly from one thousand up to one million, and absent below one thousand; the rendered number times the suffix's scale is the value |
| `Plotting.FormatAcresMantissa` | src/utils/plotting.py:176-179 | with a suffix the rendered number is at least 1, and with "K" it is below 1000 |
| `Plotting.AgencyColors` | src/utils/plotting.py:79-91 | every colored agency is an AGENCY_MAP code and every color is a "#RRGGBB" value |
| `Plotting.CauseColors` | src/utils/plotting.py:103-116 | every colored cause is a CAUSE_MAP code and every color is a "#RRGGBB" value |
| `Plotting.ColoredCodesHaveLabels` | src/utils/plotting.py:79-116 | every colored code has a real registry label, never a placeholder |

## Left out

- Column order is not modelled: a table's columns are a set. pandas appends each new column at the end, so the two orders of enrichment and labelling give the same columns and cells in a different column order.
- The index labels that a row mask keeps are not modelled; rows are a plain sequence.
- File access in `load_fire_perimeters` is not modelled: the default path, the existence check with its FileNotFoundError, and `gpd.read_file`. The loader is modelled as the year filter over a table that is passed in.
- ALARM_MONTH, ALARM_DAY_OF_YEAR and DURATION_DAYS are not modelled. They depend on pandas date parsing and calendar rules. ALARM_DATE and CONT_DATE are kept only as raw text, for the missing-value counts.
- LOG10_ACRES and its clip at 0.1 are not modelled: this is floating-point `log10`.
- Acreage is a `real`, so floating-point rounding at the size thresholds is not modelled.
- The quality summary's "Year Range" text, its invalid and empty geometry counts (shapely predicates) and the one-row DataFrame wrapping are not modelled. The geometry is carried as opaque bytes.
- `value_counts` orders its result by count. The model's distribution is a map, so that order is not kept.
- OBJECTIVE_MAP and STATE_MAP are not modelled: no lookup function or caller in these files uses them.
- `setup_plotting_style`, `create_dual_analysis_figure` and `add_data_period_annotation` are not modelled. They set global plotting state or draw on axes.
- `save_figure`'s directory creation, file write and console message are not modelled; `SaveFigureSettings` returns what it would pass to the writer.
- The path and coordinate-reference constants and the package's re-export file are not modelled.
- Columns other than those the pipeline reads or writes are not modelled; such columns pass through the pipeline unchanged.
- GetCauseLabel: an unmapped code is rendered as an integer ("Unknown (25)"). When the CAUSE column also holds a missing value, pandas stores the codes as floats and Python renders "Unknown (25.0)"; the model does not capture that.
- GetCMethodLabel: the same integer-versus-float rendering caveat applies to C_METHOD.
- DataLoader.AgencyLabelOf: a missing agency is taken to be `None` (rendered "Unknown (None)"). A NaN would render as "Unknown (nan)". A missing cause or collection method is NaN and renders "Unknown (nan)".
- FormatAcres: models the suffix choice and the scaled value only. The `.1f` and `.0f` rounding to text is not modelled.

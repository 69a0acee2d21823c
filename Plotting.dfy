/** The pure parts of src/utils/plotting.py: the file name and settings a
    figure is saved under, the month axis labels, the magnitude suffix of an
    acreage, and the color tables keyed by registry codes. Styling the
    plotting library, creating directories and writing files are not modelled. */
module Plotting {
  import opened Wrappers
  import opened Constants
  import opened Text
  import opened DomainMappings

  // ---------------------------------------------------------------------
  // save_figure

  /** The extension rule: append "." + format unless the name already ends with it. */
  function WithExtension(filename: string, format: string): (name: string)
    ensures EndsWith(name, "." + format)
    ensures filename <= name
    ensures EndsWith(filename, "." + format) <==> name == filename
    ensures |name| == |filename| + (if EndsWith(filename, "." + format) then 0 else |format| + 1)
  {
    if EndsWith(filename, "." + format) then filename
    else
      var name := filename + "." + format;
      assert name[|name| - |"." + format|..] == "." + format;
      name
  }

  /** Applying the rule to its own result changes nothing. */
  lemma WithExtensionIdempotent(filename: string, format: string)
    ensures WithExtension(WithExtension(filename, format), format) == WithExtension(filename, format)
  {
  }

  /** The suffix test is case-sensitive: "plot.PNG" still gets ".png" appended. */
  lemma WithExtensionIsCaseSensitive()
    ensures WithExtension("plot.PNG", "png") == "plot.PNG.png"
  {
    assert !EndsWith("plot.PNG", ".png") by {
      assert "plot.PNG"[4..] == ".PNG";
    }
  }

  /** What `save_figure` passes on to the figure writer. */
  datatype SaveSettings = SaveSettings(
    filename: string, dpi: int, format: string, bboxInches: Option<string>, facecolor: string)

  /** `save_figure` without its side effects: the defaults for the resolution
      and format, the extension rule, and the bounding box choice. */
  function SaveFigureSettings(filename: string, dpi: Option<int>, format: Option<string>, tight: bool)
    : (s: SaveSettings)
    ensures s.dpi == dpi.GetOr(FigureDpi) && s.format == format.GetOr(FigureFormat)
    ensures s.filename == WithExtension(filename, s.format)
    ensures EndsWith(s.filename, "." + s.format)
    ensures s.bboxInches.Some? <==> tight
    ensures tight ==> s.bboxInches == Some("tight")
    ensures s.facecolor == "white"
  {
    var resolution := if dpi.None? then FigureDpi else dpi.value;
    var fmt := if format.None? then FigureFormat else format.value;
    SaveSettings(WithExtension(filename, fmt), resolution, fmt, if tight then Some("tight") else None, "white")
  }

  /** Called with only a file name, a figure is saved as PNG at 300 dpi. */
  lemma SaveFigureDefaults(filename: string)
    ensures SaveFigureSettings(filename, None, None, true).dpi == 300
    ensures SaveFigureSettings(filename, None, None, true).format == "png"
    ensures EndsWith(SaveFigureSettings(filename, None, None, true).filename, ".png")
  {
  }

  // ---------------------------------------------------------------------
  // get_month_labels

  function MonthLabels(): (labels: seq<string>)
    ensures |labels| == 12
    ensures labels[0] == "Jan" && labels[11] == "Dec"
    ensures forall i :: 0 <= i < 12 ==> |labels[i]| == 3
  {
    ["Jan", "Feb", "Mar", "Apr", "May", "Jun", "Jul", "Aug", "Sep", "Oct", "Nov", "Dec"]
  }

  /** The labels are twelve different abbreviations, so a label names one month. */
  lemma MonthLabelsDistinct()
    ensures forall i, j :: 0 <= i < j < 12 ==> MonthLabels()[i] != MonthLabels()[j]
  {
  }

  // ---------------------------------------------------------------------
  // format_acres

  /** The value `format_acres` renders and the suffix it appends. */
  datatype Magnitude = Magnitude(scaled: real, suffix: string)

  function SuffixScale(suffix: string): real {
    if suffix == "M" then 1000000.0 else if suffix == "K" then 1000.0 else 1.0
  }

  /** The suffix choice of `format_acres`: "M" from one million, "K" from one
      thousand, none below; the rendered number times the suffix's scale is
      the value. */
  function FormatAcres(value: real): (m: Magnitude)
    ensures m.suffix == "M" <==> value >= 1000000.0
    ensures m.suffix == "K" <==> 1000.0 <= value < 1000000.0
    ensures m.suffix == "" <==> value < 1000.0
    ensures m.scaled * SuffixScale(m.suffix) == value
  {
    if value >= 1000000.0 then Magnitude(value / 1000000.0, "M")
    else if value >= 1000.0 then Magnitude(value / 1000.0, "K")
    else Magnitude(value, "")
  }

  /** With a suffix, the rendered number is at least 1, and below 1000 for "K". */
  lemma FormatAcresMantissa(value: real)
    ensures FormatAcres(value).suffix != "" ==> FormatAcres(value).scaled >= 1.0
    ensures FormatAcres(value).suffix == "K" ==> FormatAcres(value).scaled < 1000.0
  {
  }

  // ---------------------------------------------------------------------
  // get_agency_colors, get_cause_colors

  /** A "#RRGGBB" color. */
  predicate IsHexColor(s: string) {
    |s| == 7 && s[0] == '#' &&
    forall i :: 1 <= i < 7 ==> IsDigit(s[i]) || 'A' <= s[i] <= 'F'
  }

  /** Agency colors, keyed by agency code; NOP and PVT have none. */
  function AgencyColors(): (colors: map<string, string>)
    ensures forall a :: a in colors ==> a in AgencyMap
    ensures forall a :: a in colors ==> IsHexColor(colors[a])
  {
    map[
      "CDF" := "#E63946",
      "USF" := "#457B9D",
      "BLM" := "#F4A261",
      "NPS" := "#2A9D8F",
      "LRA" := "#E9C46A",
      "BIA" := "#9B59B6",
      "CSP" := "#1ABC9C",
      "DOD" := "#34495E",
      "FWS" := "#8E44AD",
      "CCO" := "#27AE60",
      "OTH" := "#95A5A6"
    ]
  }

  /** Cause colors, keyed by cause code; codes 12, 13 and 15 to 19 have none. */
  function CauseColors(): (colors: map<int, string>)
    ensures forall c :: c in colors ==> c in CauseMap
    ensures forall c :: c in colors ==> IsHexColor(colors[c])
  {
    map[
      1 := "#F39C12",
      2 := "#3498DB",
      3 := "#9B59B6",
      4 := "#E67E22",
      5 := "#1ABC9C",
      6 := "#34495E",
      7 := "#E74C3C",
      8 := "#F1C40F",
      9 := "#95A5A6",
      10 := "#2ECC71",
      11 := "#8E44AD",
      14 := "#BDC3C7"
    ]
  }

  /** Every colored code has a registry label that is not a placeholder. */
  lemma ColoredCodesHaveLabels()
    ensures forall a :: a in AgencyColors() ==> PlaceholderCode(GetAgencyLabel(a)) == None
    ensures forall c :: c in CauseColors() ==> PlaceholderCode(GetCauseLabel(c)) == None
  {
    MappedLabelsAreNotPlaceholders();
  }
}

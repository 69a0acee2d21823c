/** The code-to-label tables of the CAL FIRE data dictionary and their
    lookups (src/utils/domain_mappings.py). Cause, agency and collection-method
    lookups fall back to the placeholder "Unknown (<code>)"; the unit lookup
    falls back to the code itself. */
module DomainMappings {
  import opened Wrappers
  import opened Text

  /** CAUSE: why the fire ignited. */
  const CauseMap: map<int, string> := map[
    1 := "Lightning",
    2 := "Equipment Use",
    3 := "Smoking",
    4 := "Campfire",
    5 := "Debris",
    6 := "Railroad",
    7 := "Arson",
    8 := "Playing with Fire",
    9 := "Miscellaneous",
    10 := "Vehicle",
    11 := "Powerline",
    12 := "Firefighter Training",
    13 := "Non-Firefighter Training",
    14 := "Unknown/Unidentified",
    15 := "Structure",
    16 := "Aircraft",
    17 := "Volcanic",
    18 := "Escaped Prescribed Burn",
    19 := "Illegal Alien Campfire"
  ]

  /** AGENCY: the direct protection agency responsible. */
  const AgencyMap: map<string, string> := map[
    "BIA" := "Bureau of Indian Affairs",
    "BLM" := "Bureau of Land Management",
    "CDF" := "CAL FIRE",
    "CCO" := "Contract County",
    "CSP" := "California State Parks",
    "DOD" := "Department of Defense",
    "FWS" := "Fish and Wildlife Service",
    "LRA" := "Local Responsibility Area",
    "NOP" := "No Protection",
    "NPS" := "National Park Service",
    "PVT" := "Private",
    "USF" := "USDA Forest Service",
    "OTH" := "Other"
  ]

  /** C_METHOD: how the perimeter was collected. */
  const CMethodMap: map<int, string> := map[
    1 := "GPS Ground",
    2 := "GPS Air",
    3 := "Infrared",
    4 := "Other Imagery",
    5 := "Photo Interpretation",
    6 := "Hand Drawn",
    7 := "Mixed Collection Methods",
    8 := "Unknown"
  ]

  /** UNIT_ID: the most frequent responding units. */
  const UnitIdMap: map<string, string> := map[
    "AEU" := "Amador - El Dorado CAL FIRE",
    "ANF" := "Angeles National Forest",
    "BDF" := "San Bernardino National Forest",
    "BDU" := "San Bernardino CAL FIRE",
    "BEU" := "Monterey - San Benito CAL FIRE",
    "BTU" := "Butte CAL FIRE",
    "CZU" := "San Mateo - Santa Cruz CAL FIRE",
    "ENF" := "Eldorado National Forest",
    "FKU" := "Fresno-Kings CAL FIRE",
    "HUU" := "Humboldt - Del Norte CAL FIRE",
    "KNF" := "Klamath National Forest",
    "KNP" := "Sequoia - Kings Canyon NP",
    "KRN" := "Kern County",
    "LAC" := "Los Angeles County",
    "LMU" := "Lassen - Modoc CAL FIRE",
    "LNF" := "Lassen National Forest",
    "LNU" := "Sonoma - Lake - Napa CAL FIRE",
    "LPF" := "Los Padres National Forest",
    "MEU" := "Mendocino CAL FIRE",
    "MMU" := "Madera - Mariposa CAL FIRE",
    "MNF" := "Mendocino National Forest",
    "MVU" := "San Diego CAL FIRE (retired code)",
    "NEU" := "Nevada - Yuba - Placer CAL FIRE",
    "ORC" := "Orange County",
    "PNF" := "Plumas National Forest",
    "RRU" := "Riverside CAL FIRE",
    "SCU" := "Santa Clara CAL FIRE",
    "SDU" := "San Diego CAL FIRE",
    "SHF" := "Shasta-Trinity National Forest",
    "SHU" := "Shasta - Trinity CAL FIRE",
    "SKU" := "Siskiyou CAL FIRE",
    "SLU" := "San Luis Obispo CAL FIRE",
    "SNF" := "Sierra National Forest",
    "SQF" := "Sequoia National Forest",
    "SRF" := "Six Rivers National Forest",
    "TCU" := "Tuolumne - Calaveras CAL FIRE",
    "TGU" := "Tehama - Glenn CAL FIRE",
    "TNF" := "Tahoe National Forest",
    "TUU" := "Tulare CAL FIRE",
    "VNC" := "Ventura County",
    "YNP" := "Yosemite National Park"
  ]

  /** The fallback label `f"Unknown ({code})"`, given the code's rendering. */
  function Placeholder(rendered: string): string {
    "Unknown (" + rendered + ")"
  }

  /** Recovers the embedded code rendering from a placeholder label;
      `None` when the shown does not have the placeholder's shape. */
  function PlaceholderCode(shown: string): (rendered: Option<string>)
    ensures rendered.Some? ==> Placeholder(rendered.value) == shown
  {
    if |shown| >= 10 && shown[..9] == "Unknown (" && shown[|shown| - 1] == ')' then
      assert shown == shown[..9] + shown[9..|shown| - 1] + [shown[|shown| - 1]];
      Some(shown[9..|shown| - 1])
    else
      None
  }

  lemma PlaceholderRoundTrip(rendered: string)
    ensures PlaceholderCode(Placeholder(rendered)) == Some(rendered)
  {
    var shown := Placeholder(rendered);
    assert shown[..9] == "Unknown (";
    assert shown[9..|shown| - 1] == rendered;
  }

  /** `get_cause_label`: the mapped label, or a placeholder that carries the code. */
  function GetCauseLabel(code: int): (shown: string)
    ensures code in CauseMap ==> shown == CauseMap[code]
    ensures code !in CauseMap ==> PlaceholderCode(shown) == Some(IntToString(code))
  {
    if code in CauseMap then CauseMap[code]
    else PlaceholderRoundTrip(IntToString(code)); Placeholder(IntToString(code))
  }

  /** `get_agency_label`: the mapped label, or a placeholder that carries the code. */
  function GetAgencyLabel(code: string): (shown: string)
    ensures code in AgencyMap ==> shown == AgencyMap[code]
    ensures code !in AgencyMap ==> PlaceholderCode(shown) == Some(code)
  {
    if code in AgencyMap then AgencyMap[code]
    else PlaceholderRoundTrip(code); Placeholder(code)
  }

  /** `get_c_method_label`: the mapped label, or a placeholder that carries the code. */
  function GetCMethodLabel(code: int): (shown: string)
    ensures code in CMethodMap ==> shown == CMethodMap[code]
    ensures code !in CMethodMap ==> PlaceholderCode(shown) == Some(IntToString(code))
  {
    if code in CMethodMap then CMethodMap[code]
    else PlaceholderRoundTrip(IntToString(code)); Placeholder(IntToString(code))
  }

  /** `get_unit_label`: the mapped label, or the code itself, unwrapped. */
  function GetUnitLabel(code: string): (shown: string)
    ensures code in UnitIdMap ==> shown == UnitIdMap[code]
    ensures code !in UnitIdMap ==> shown == code
  {
    if code in UnitIdMap then UnitIdMap[code] else code
  }

  /** A text whose ninth character is not '(' is not a placeholder. */
  lemma NotPlaceholder(s: string)
    requires |s| < 9 || s[8] != '('
    ensures PlaceholderCode(s) == None
  {
  }

  /** No label in the three placeholder-falling tables has the placeholder's
      shape ("Unknown/Unidentified" and "Unknown" included). */
  lemma MappedLabelsAreNotPlaceholders()
    ensures forall c :: c in CauseMap ==> PlaceholderCode(CauseMap[c]) == None
    ensures forall a :: a in AgencyMap ==> PlaceholderCode(AgencyMap[a]) == None
    ensures forall c :: c in CMethodMap ==> PlaceholderCode(CMethodMap[c]) == None
  {
    CauseLabelsAreNotPlaceholders();
    AgencyLabelsAreNotPlaceholders();
    CMethodLabelsAreNotPlaceholders();
  }

  lemma CauseLabelsAreNotPlaceholders()
    ensures forall c :: c in CauseMap ==> PlaceholderCode(CauseMap[c]) == None
  {
    forall c | c in CauseMap ensures PlaceholderCode(CauseMap[c]) == None {
      NotPlaceholder(CauseMap[c]);
    }
  }

  lemma AgencyLabelsAreNotPlaceholders()
    ensures forall a :: a in AgencyMap ==> PlaceholderCode(AgencyMap[a]) == None
  {
    forall a | a in AgencyMap ensures PlaceholderCode(AgencyMap[a]) == None {
      NotPlaceholder(AgencyMap[a]);
    }
  }

  lemma CMethodLabelsAreNotPlaceholders()
    ensures forall c :: c in CMethodMap ==> PlaceholderCode(CMethodMap[c]) == None
  {
    forall c | c in CMethodMap ensures PlaceholderCode(CMethodMap[c]) == None {
      NotPlaceholder(CMethodMap[c]);
    }
  }

  /** A cause label is a placeholder exactly when the code is unmapped, and
      then the code can be read back from it. */
  lemma CauseLabelRecoversCode(code: int)
    ensures code in CauseMap <==> PlaceholderCode(GetCauseLabel(code)) == None
    ensures code !in CauseMap ==>
      PlaceholderCode(GetCauseLabel(code)).Some? &&
      ParseInt(PlaceholderCode(GetCauseLabel(code)).value) == Some(code)
  {
    MappedLabelsAreNotPlaceholders();
    IntToStringRoundTrip(code);
  }

  /** An agency label is a placeholder exactly when the code is unmapped,
      and then it embeds the code verbatim. */
  lemma AgencyLabelRecoversCode(code: string)
    ensures code in AgencyMap <==> PlaceholderCode(GetAgencyLabel(code)) == None
    ensures code !in AgencyMap ==> PlaceholderCode(GetAgencyLabel(code)) == Some(code)
  {
    MappedLabelsAreNotPlaceholders();
  }

  /** A collection-method label is a placeholder exactly when the code is
      unmapped, and then the code can be read back from it. */
  lemma CMethodLabelRecoversCode(code: int)
    ensures code in CMethodMap <==> PlaceholderCode(GetCMethodLabel(code)) == None
    ensures code !in CMethodMap ==>
      PlaceholderCode(GetCMethodLabel(code)).Some? &&
      ParseInt(PlaceholderCode(GetCMethodLabel(code)).value) == Some(code)
  {
    MappedLabelsAreNotPlaceholders();
    IntToStringRoundTrip(code);
  }

  /** Every unit code has three letters. */
  lemma UnitCodesAreShort()
    ensures forall u :: u in UnitIdMap ==> |u| == 3
  {
  }

  /** Every unit label is longer than a code and does not begin as a
      placeholder does. */
  lemma UnitLabelsAreLong()
    ensures forall u :: u in UnitIdMap ==> |UnitIdMap[u]| > 9 && UnitIdMap[u][0] != 'U'
  {
    UnitLabelLengths();
    UnitLabelInitials();
  }

  lemma UnitLabelLengths()
    ensures forall u :: u in UnitIdMap ==> |UnitIdMap[u]| > 9
  {
  }

  lemma UnitLabelInitials()
    ensures forall u :: u in UnitIdMap ==> |UnitIdMap[u]| > 0 && UnitIdMap[u][0] != 'U'
  {
  }

  /** The unit lookup returns its argument exactly when the code is unmapped
      (no unit label equals its own code), and it never wraps the code in a
      placeholder, unlike the agency lookup over the same kind of code. */
  lemma UnitLabelFallsBackToCode(code: string)
    ensures GetUnitLabel(code) == code <==> code !in UnitIdMap
    ensures GetUnitLabel(code) != Placeholder(code)
    ensures code !in AgencyMap ==> GetAgencyLabel(code) == Placeholder(code)
  {
    var wrapped := Placeholder(code);
    assert |wrapped| == |code| + 10 && wrapped[0] == 'U';
    if code in UnitIdMap {
      var name := UnitIdMap[code];
      UnitCodesAreShort();
      UnitLabelsAreLong();
      assert |code| == 3 && |name| > 9 && name[0] != 'U';
    }
  }

  /** The cause codes are exactly 1..19 and the collection-method codes 1..8. */
  lemma CodeRanges()
    ensures forall c :: c in CauseMap <==> 1 <= c <= 19
    ensures forall c :: c in CMethodMap <==> 1 <= c <= 8
  {
  }
}

/**
 * The series registry (SERIES_MAPPING) and the calendar keyword set
 * (TARGET_KEYWORDS) of test.py, with the string helpers the matcher and the
 * filter use.  The registry is a Python dict; iteration follows insertion
 * order, so it is modelled as an ordered sequence of entries.
 */
module Registry {
  import opened Wrappers

  /** One registry entry: dict key plus its 'id', 'calc' (as calculation), 'unit' and 'investing_kw'. */
  datatype SeriesInfo = SeriesInfo(key: string, id: string, calculation: string, unit: string, keyword: string)

  /** Python's `sub in s` on strings: `sub` occurs at position `i` of `s`. */
  predicate OccursAt(sub: string, s: string, i: nat)
  {
    i + |sub| <= |s| && s[i..i + |sub|] == sub
  }

  /** Python's `sub in s` on strings. */
  predicate Contains(s: string, sub: string)
  {
    exists i: nat :: i <= |s| && OccursAt(sub, s, i)
  }

  const SeriesMapping: seq<SeriesInfo> := [
    SeriesInfo("CPI", "CPIAUCSL", "yoy", "%", "消費者物價指數 (CPI)"),
    SeriesInfo("PCE", "PCEPI", "yoy", "%", "個人消費支出 (PCE)"),
    SeriesInfo("PPI", "PPIACO", "yoy", "%", "生產者物價指数 (PPI)"),
    SeriesInfo("Jobless Claims", "ICSA", "latest", "K", "失業金人數"),
    SeriesInfo("NFP", "PAYEMS", "level_change", "K", "非農就業報告"),
    SeriesInfo("Unemployment", "UNRATE", "latest", "%", "失業率"),
    SeriesInfo("Retail Sales", "RSXFS", "mom", "%", "零售銷售"),
    SeriesInfo("Personal Spending", "PCEC96", "mom", "%", "個人支出"),
    SeriesInfo("GDP", "A191RL1Q225SBEA", "latest", "%", "國內生產毛額 (GDP)"),
    SeriesInfo("FOMC", "DFEDTARU", "latest", "%", "FOMC"),
    SeriesInfo("ISM Mfg", "NAPM", "latest", "", "ISM製造業PMI"),
    SeriesInfo("ISM Non-Mfg", "NMFCI", "latest", "", "ISM非製造業PMI")
  ]

  const TargetKeywords: set<string> := {
    "消費者物價指數 (CPI)", "個人消費支出 (PCE)", "生產者物價指数 (PPI)",
    "初領失業金人數", "初請失業金人數", "非農就業報告",
    "失業率", "零售銷售", "個人支出", "國內生產毛額 (GDP)",
    "FOMC", "ISM製造業PMI", "ISM非製造業PMI"
  }

  /** What a dict guarantees of its keys: they are distinct. */
  predicate DistinctKeys(reg: seq<SeriesInfo>)
  {
    forall i, j :: 0 <= i < j < |reg| ==> reg[i].key != reg[j].key
  }

  /** Every key is non-empty, so `if best_match_key` is true exactly when something matched. */
  predicate NonEmptyKeys(reg: seq<SeriesInfo>)
  {
    forall i :: 0 <= i < |reg| ==> reg[i].key != ""
  }

  /**
   * `next(item for item in SERIES_MAPPING.values() if item['id'] == series_id)`:
   * the position of the first entry carrying `id`, or None where Python
   * raises StopIteration.
   */
  function FirstWithId(reg: seq<SeriesInfo>, id: string): (r: Option<nat>)
    ensures r.Some? ==> r.value < |reg| && reg[r.value].id == id
    ensures r.Some? ==> forall j :: 0 <= j < r.value ==> reg[j].id != id
    ensures r.None? <==> forall j :: 0 <= j < |reg| ==> reg[j].id != id
  {
    if |reg| == 0 then None
    else if reg[0].id == id then Some(0)
    else match FirstWithId(reg[1..], id)
      case None => None
      case Some(k) => Some(k + 1)
  }

  /** Every registry key is distinct and non-empty. */
  lemma SeriesMappingWellFormed()
    ensures DistinctKeys(SeriesMapping)
    ensures NonEmptyKeys(SeriesMapping)
  {
  }
}

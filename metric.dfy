/**
 * The FRED side of test.py: `format_fred_value`, which turns an observation
 * and its reference into a display value, and `get_fred_data`, which parses
 * a fetched observation list and picks which observations to compare.
 * The HTTP request is not modelled: the fetched list arrives as an input.
 */
module Metric {
  import opened Wrappers
  import opened Registry

  /**
   * What `format_fred_value` returns: the unavailable sentinel, the "N/A"
   * sentinel, or a number shown with a count of decimals and a suffix
   * (the f-string's digits are not modelled).
   */
  datatype Display = Unavailable | NotApplicable | Num(value: real, decimals: nat, suffix: string)

  /** The two display values `get_fred_data` returns on success. */
  datatype FredValues = FredValues(actual: Display, previous: Display)

  /** One observation's raw 'value' field: "." (missing), a number, or text `float` rejects. */
  datatype RawObs = Dot | Number(v: real) | Unparsable

  /**
   * `format_fred_value(current, previous, info)`; `reference` is the
   * source's `previous`, the observation the current one is compared with.
   */
  function FormatFredValue(current: Option<real>, reference: Option<real>, info: SeriesInfo): (r: Display)
    // A missing current observation wins over every other rule.
    ensures r == Unavailable <==> current.None?
    // 'latest' ignores the reference; the unit picks scale, decimals and suffix.
    ensures current.Some? && info.calculation == "latest" && '%' in info.unit ==>
      r == Num(current.value, 2, info.unit)
    ensures current.Some? && info.calculation == "latest" && info.unit == "K" ==>
      r.Num? && r.value * 1000.0 == current.value && r.decimals == 0 && r.suffix == "K"
    ensures current.Some? && info.calculation == "latest" && '%' !in info.unit && info.unit != "K" ==>
      r == Num(current.value, 1, "")
    // Every other method needs a present, non-zero reference.
    ensures current.Some? && info.calculation != "latest" && (reference.None? || reference.value == 0.0) ==>
      r == NotApplicable
    // yoy and mom: the percent change that carries the reference to the current value.
    ensures current.Some? && (info.calculation == "yoy" || info.calculation == "mom")
            && reference.Some? && reference.value != 0.0 ==>
      r.Num? && r.decimals == 1 && r.suffix == info.unit
      && reference.value * (1.0 + r.value / 100.0) == current.value
    // level_change: the unscaled difference, in the unit's suffix.
    ensures current.Some? && info.calculation == "level_change" && reference.Some? && reference.value != 0.0 ==>
      r.Num? && r.decimals == 0 && r.suffix == info.unit && reference.value + r.value == current.value
    // Any other method name falls through to "N/A".
    ensures current.Some? && info.calculation !in {"latest", "yoy", "mom", "level_change"} ==>
      r == NotApplicable
  {
    if current.None? then Unavailable
    else
      var c := current.value;
      if info.calculation == "latest" then
        var v := if info.unit == "K" then c / 1000.0 else c;
        if '%' in info.unit then Num(v, 2, info.unit)
        else if info.unit == "K" then Num(v, 0, info.unit)
        else Num(v, 1, "")
      else if reference.None? || reference.value == 0.0 then NotApplicable
      else
        var p := reference.value;
        if info.calculation == "yoy" || info.calculation == "mom" then Num((c - p) / p * 100.0, 1, info.unit)
        else if info.calculation == "level_change" then Num(c - p, 0, info.unit)
        else NotApplicable
  }

  /** A level change of 150000 over 120000 in unit K is 30000 with suffix K: no division by 1000. */
  lemma LevelChangeIsNotScaled()
    ensures FormatFredValue(Some(150000.0), Some(120000.0), SeriesInfo("NFP", "PAYEMS", "level_change", "K", "非農就業報告"))
            == Num(30000.0, 0, "K")
  {
  }

  /** 310.3 against 300.0 a year earlier is a 3.43...% rise (shown with one decimal). */
  lemma YearOverYearExample()
    ensures FormatFredValue(Some(310.3), Some(300.0), SeriesInfo("CPI", "CPIAUCSL", "yoy", "%", "消費者物價指數 (CPI)"))
            == Num(103.0 / 30.0, 1, "%")
  {
  }

  /** `float(value) if value != '.' else None`, for a value `float` accepts. */
  function ParseValue(o: RawObs): Option<real>
    requires !o.Unparsable?
  {
    match o
    case Dot => None
    case Number(v) => Some(v)
  }

  /** The parse loop of `get_fred_data`: every value parsed, or None where `float` raises. */
  function ParseAll(raw: seq<RawObs>): (r: Option<seq<Option<real>>>)
    ensures r.Some? <==> forall i :: 0 <= i < |raw| ==> !raw[i].Unparsable?
    ensures r.Some? ==> |r.value| == |raw|
    ensures r.Some? ==> forall i :: 0 <= i < |raw| ==> (r.value[i].None? <==> raw[i].Dot?)
    ensures r.Some? ==> forall i :: 0 <= i < |raw| && r.value[i].Some? ==> raw[i] == Number(r.value[i].value)
  {
    if forall i :: 0 <= i < |raw| ==> !raw[i].Unparsable? then
      Some(seq(|raw|, i requires 0 <= i < |raw| => ParseValue(raw[i])))
    else None
  }

  /** `for item in data: item['value'] = float(...) if ... else None`, stopping at the first value `float` rejects. */
  method ParseObservations(raw: seq<RawObs>) returns (values: Option<seq<Option<real>>>)
    ensures values == ParseAll(raw)
  {
    var parsed: seq<Option<real>> := [];
    for i := 0 to |raw|
      invariant |parsed| == i
      invariant forall j :: 0 <= j < i ==> !raw[j].Unparsable? && parsed[j] == ParseValue(raw[j])
    {
      if raw[i].Unparsable? {
        assert ParseAll(raw).None? by { assert !(0 <= i < |raw| ==> !raw[i].Unparsable?); }
        return None;
      }
      parsed := parsed + [ParseValue(raw[i])];
    }
    assert parsed == seq(|raw|, i requires 0 <= i < |raw| => ParseValue(raw[i]));
    values := Some(parsed);
  }

  /**
   * The observation compared with the one at `position` (0 for Actual,
   * 1 for Previous): twelve periods back for 'yoy' when the list reaches
   * that far, otherwise the next older one.
   */
  function ReferenceIndex(calculation: string, n: nat, position: nat): nat
  {
    if calculation == "yoy" && n > position + 12 then position + 12 else position + 1
  }

  /**
   * `get_fred_data(series_id, calc_method)` once the HTTP response is in:
   * None for a failed fetch, fewer than two observations, a value `float`
   * rejects, a series id absent from the registry, or exactly two
   * observations (the IndexError on `data[2]`).  The formatting entry is
   * the first registry entry with the series id, not necessarily the
   * matched one; the reference choice follows `calculation`.
   */
  function GetFredData(response: Option<seq<RawObs>>, seriesId: string, calculation: string, reg: seq<SeriesInfo>)
    : (r: Option<FredValues>)
    ensures r.Some? <==>
      response.Some? && |response.value| >= 3 && ParseAll(response.value).Some? && FirstWithId(reg, seriesId).Some?
  {
    match response
    case None => None
    case Some(data) =>
      if |data| < 2 then None
      else match ParseAll(data)
        case None => None
        case Some(v) =>
          match FirstWithId(reg, seriesId)
          case None => None
          case Some(k) =>
            var actual := FormatFredValue(v[0], v[ReferenceIndex(calculation, |v|, 0)], reg[k]);
            if |v| <= ReferenceIndex(calculation, |v|, 1) then None
            else Some(FredValues(actual, FormatFredValue(v[1], v[ReferenceIndex(calculation, |v|, 1)], reg[k])))
  }

  /**
   * What a successful `get_fred_data` compares: Actual pairs the newest
   * observation with the one twelve back (yoy, more than 12 observations)
   * or the next one; Previous pairs the second newest with the one thirteen
   * back (yoy, more than 13) or the third newest; both are formatted with
   * the first registry entry for the series id.
   */
  lemma FredReferencePairs(response: Option<seq<RawObs>>, seriesId: string, calculation: string,
                               reg: seq<SeriesInfo>)
    requires GetFredData(response, seriesId, calculation, reg).Some?
    ensures var v := ParseAll(response.value).value;
            var info := reg[FirstWithId(reg, seriesId).value];
            var fv := GetFredData(response, seriesId, calculation, reg).value;
            |v| >= 3
            && fv.actual == FormatFredValue(v[0], if calculation == "yoy" && |v| > 12 then v[12] else v[1], info)
            && fv.previous == FormatFredValue(v[1], if calculation == "yoy" && |v| > 13 then v[13] else v[2], info)
    ensures var v := ParseAll(response.value).value;
            var fv := GetFredData(response, seriesId, calculation, reg).value;
            (fv.actual == Unavailable <==> response.value[0].Dot?)
            && (fv.previous == Unavailable <==> response.value[1].Dot?)
  {
  }

  /** `get_fred_data` as the source runs it: length check, the parse loop, the registry lookup, two formats. */
  method FetchFredValues(response: Option<seq<RawObs>>, seriesId: string, calculation: string, reg: seq<SeriesInfo>)
    returns (r: Option<FredValues>)
    ensures r == GetFredData(response, seriesId, calculation, reg)
  {
    if response.None? || |response.value| < 2 {
      return None;
    }
    var values := ParseObservations(response.value);
    if values.None? {
      return None;
    }
    var v := values.value;
    var k := FirstWithId(reg, seriesId);
    if k.None? {
      return None;
    }
    var info := reg[k.value];
    var actualRef := if calculation == "yoy" && |v| > 12 then 12 else 1;
    var actual := FormatFredValue(v[0], v[actualRef], info);
    var previousRef := if calculation == "yoy" && |v| > 13 then 13 else 2;
    if previousRef >= |v| {
      return None;
    }
    var previous := FormatFredValue(v[1], v[previousRef], info);
    r := Some(FredValues(actual, previous));
  }
}

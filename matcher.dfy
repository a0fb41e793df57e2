/**
 * The matching loop of `main` in test.py: each event name is mapped to the
 * registry entry with the longest keyword it contains; the comparison is a
 * strict "longer than", so on equal lengths the earlier entry stays.
 */
module Matcher {
  import opened Wrappers
  import opened Registry
  import opened Calendar

  /** An entry the loop may pick for `name`: a non-empty keyword contained in it. */
  predicate IsCandidate(name: string, e: SeriesInfo)
  {
    |e.keyword| > 0 && Contains(name, e.keyword)
  }

  /** `best_match_len` for the index held in `best_match_key` (0 when none). */
  function MatchLength(reg: seq<SeriesInfo>, best: Option<nat>): nat
    requires best.Some? ==> best.value < |reg|
  {
    if best.None? then 0 else |reg[best.value].keyword|
  }

  /**
   * The declarative best match: a candidate whose keyword no candidate
   * beats in length, and that every earlier candidate is strictly shorter than.
   */
  predicate IsBestMatch(name: string, reg: seq<SeriesInfo>, i: nat)
  {
    i < |reg| && IsCandidate(name, reg[i])
    && (forall j :: 0 <= j < |reg| && IsCandidate(name, reg[j]) ==> |reg[j].keyword| <= |reg[i].keyword|)
    && (forall j :: 0 <= j < i && IsCandidate(name, reg[j]) ==> |reg[j].keyword| < |reg[i].keyword|)
  }

  /** The index the loop holds after visiting the first `n` entries of `reg`. */
  function Longest(name: string, reg: seq<SeriesInfo>, n: nat): (r: Option<nat>)
    requires n <= |reg|
    ensures r.Some? ==> r.value < n && IsCandidate(name, reg[r.value])
    ensures r.Some? ==> forall j :: 0 <= j < n && IsCandidate(name, reg[j]) ==>
      |reg[j].keyword| <= |reg[r.value].keyword|
    ensures r.Some? ==> forall j :: 0 <= j < r.value && IsCandidate(name, reg[j]) ==>
      |reg[j].keyword| < |reg[r.value].keyword|
    ensures r.None? <==> forall j :: 0 <= j < n ==> !IsCandidate(name, reg[j])
  {
    if n == 0 then None
    else
      var best := Longest(name, reg, n - 1);
      var kw := reg[n - 1].keyword;
      if Contains(name, kw) && |kw| > MatchLength(reg, best) then Some(n - 1) else best
  }

  /** The loop's answer is exactly the declarative best match, and there is at most one. */
  lemma LongestIsBestMatch(name: string, reg: seq<SeriesInfo>, i: nat)
    ensures Longest(name, reg, |reg|) == Some(i) <==> IsBestMatch(name, reg, i)
  {
  }

  /** The inner loop over SERIES_MAPPING for one event name. */
  method MatchSeries(name: string, reg: seq<SeriesInfo>) returns (best: Option<nat>)
    ensures best == Longest(name, reg, |reg|)
  {
    best := None;
    var bestLen := 0;
    for k := 0 to |reg|
      invariant best == Longest(name, reg, k)
      invariant bestLen == MatchLength(reg, best)
    {
      var kw := reg[k].keyword;
      if Contains(name, kw) && |kw| > bestLen {
        best, bestLen := Some(k), |kw|;
      }
    }
  }

  /** The `_fred_id` and `_fred_calc` columns written for a matched row. */
  datatype Target = Target(id: string, calculation: string)

  /**
   * The annotation of one event name: the best match's id and method, or
   * None when nothing matched (or, as `if best_match_key` reads it, the key is "").
   */
  function Annotate(name: string, reg: seq<SeriesInfo>): (t: Option<Target>)
    ensures t.Some? ==> exists i: nat :: IsBestMatch(name, reg, i) && t.value == Target(reg[i].id, reg[i].calculation)
    ensures t.None? && NonEmptyKeys(reg) ==> forall j :: 0 <= j < |reg| ==> !IsCandidate(name, reg[j])
  {
    match Longest(name, reg, |reg|)
    case None => None
    case Some(i) =>
      LongestIsBestMatch(name, reg, i);
      if reg[i].key != "" then Some(Target(reg[i].id, reg[i].calculation)) else None
  }

  /** The outer matching loop of `main`: one annotation per table row. */
  method AnnotateRows(rows: array<Row>, reg: seq<SeriesInfo>) returns (targets: seq<Option<Target>>)
    ensures |targets| == rows.Length
    ensures forall i :: 0 <= i < rows.Length ==> targets[i] == Annotate(rows[i].name, reg)
  {
    targets := [];
    for i := 0 to rows.Length
      invariant |targets| == i
      invariant forall j :: 0 <= j < i ==> targets[j] == Annotate(rows[j].name, reg)
    {
      var best := MatchSeries(rows[i].name, reg);
      var t: Option<Target> := None;
      if best.Some? && reg[best.value].key != "" {
        t := Some(Target(reg[best.value].id, reg[best.value].calculation));
      }
      targets := targets + [t];
    }
  }
}

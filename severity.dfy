/**
 * Severity levels of the Python service: the fixed order of levels, the
 * numeric rank derived from it (higher is more severe) and the rule that
 * picks one level for a TAXII indicator.
 */
module Severity {
  import opened Wrappers
  import opened Strings

  /** SEVERITY_ORDER, most severe first. */
  const SeverityOrder: seq<string> := ["critical", "high", "medium", "low", "info"]

  /** SEVERITY_RANK[sev] = len(SEVERITY_ORDER) - index of sev, when sev is a known level. */
  function RankTable(level: string): (r: Option<int>)
    ensures r.Some? <==> level in SeverityOrder
    ensures forall i :: 0 <= i < |SeverityOrder| && SeverityOrder[i] == level ==> r == Some(|SeverityOrder| - i)
  {
    if level == "critical" then Some(5)
    else if level == "high" then Some(4)
    else if level == "medium" then Some(3)
    else if level == "low" then Some(2)
    else if level == "info" then Some(1)
    else None
  }

  /** _severity_rank: 0 for an empty or unknown level, else the rank of its lower-case form. */
  function SeverityRank(level: string): (r: int)
    ensures 0 <= r <= |SeverityOrder|
    ensures r > 0 <==> level != "" && Lower(level) in SeverityOrder
    ensures level != "" && Lower(level) in SeverityOrder ==> RankTable(Lower(level)) == Some(r)
  {
    if level == "" then 0
    else RankTable(Lower(level)).GetOr(0)
  }

  /** Ranks follow SEVERITY_ORDER: an earlier level is strictly more severe. */
  lemma RankFollowsOrder(i: int, j: int)
    requires 0 <= i < j < |SeverityOrder|
    ensures SeverityRank(SeverityOrder[i]) > SeverityRank(SeverityOrder[j]) > 0
  {
    LevelIsLowerCase(i);
    LevelIsLowerCase(j);
  }

  /** The levels are written in lower case. */
  lemma LevelIsLowerCase(i: int)
    requires 0 <= i < |SeverityOrder|
    ensures Lower(SeverityOrder[i]) == SeverityOrder[i]
  {
    var a := SeverityOrder[i];
    assert forall k :: 0 <= k < |a| ==> !('A' <= a[k] <= 'Z');
    LowerOfLowerCase(a);
  }

  /** The rank ignores letter case. */
  lemma RankIgnoresCase(level: string)
    ensures SeverityRank(Lower(level)) == SeverityRank(level)
  {
    LowerIdempotent(level);
  }

  /** A TAXII indicator as far as severity is concerned. */
  datatype SeveritySource = SeveritySource(threatLevel: Option<string>, labels: Option<seq<string>>)

  /** The first label whose lower-case form is a known level, lower-cased. */
  function FirstKnownLabel(labels: seq<string>): (r: Option<string>)
    ensures r.Some? ==> r.value in SeverityOrder
    ensures r.Some? <==> exists i :: 0 <= i < |labels| && Lower(labels[i]) in SeverityOrder
    ensures r.Some? ==> exists i :: (0 <= i < |labels| && Lower(labels[i]) == r.value
                                     && forall j :: 0 <= j < i ==> Lower(labels[j]) !in SeverityOrder)
  {
    if labels == [] then None
    else if Lower(labels[0]) in SeverityOrder then Some(Lower(labels[0]))
    else
      var r := FirstKnownLabel(labels[1..]);
      assert forall i :: 1 <= i < |labels| ==> labels[1..][i - 1] == labels[i];
      r
  }

  /**
   * _normalize_severity: a truthy x_slips_threat_level wins (lower-cased, known or
   * not); otherwise the first label naming a known level; otherwise "info".
   */
  function NormalizeSeverity(ind: SeveritySource): (r: string)
    ensures ind.threatLevel.Some? && ind.threatLevel.value != "" ==> r == Lower(ind.threatLevel.value)
    ensures !(ind.threatLevel.Some? && ind.threatLevel.value != "") ==> r in SeverityOrder
    ensures (!(ind.threatLevel.Some? && ind.threatLevel.value != "")
             && FirstKnownLabel(ind.labels.GetOr([])).Some?) ==> r == FirstKnownLabel(ind.labels.GetOr([])).value
    ensures (!(ind.threatLevel.Some? && ind.threatLevel.value != "")
             && FirstKnownLabel(ind.labels.GetOr([])) == None) ==> r == "info"
  {
    if ind.threatLevel.Some? && ind.threatLevel.value != "" then Lower(ind.threatLevel.value)
    else
      match FirstKnownLabel(ind.labels.GetOr([]))
      case Some(known) => known
      case None => "info"
  }

  /** Without a threat level the chosen severity always has a positive rank. */
  lemma NormalizedWithoutLevelIsRanked(ind: SeveritySource)
    requires !(ind.threatLevel.Some? && ind.threatLevel.value != "")
    ensures SeverityRank(NormalizeSeverity(ind)) > 0
  {
    var r := NormalizeSeverity(ind);
    assert r in SeverityOrder;
    assert Lower(r) == r by {
      assert forall k :: 0 <= k < |r| ==> !('A' <= r[k] <= 'Z');
    }
  }
}

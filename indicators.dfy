/**
 * The server-side shaping of TAXII indicator objects into dashboard
 * evidences (_parse_when and _prepare_evidences). Date parsing is abstract:
 * `fromIso` stands for datetime.fromisoformat followed by the UTC default for
 * a naive result, and `now` for the current UTC time.
 */
module Indicators {
  import opened Wrappers
  import opened Strings
  import opened Sequences
  import opened Severity

  /** A time-zone-aware datetime: its isoformat() and that of its minute (seconds and microseconds zeroed). */
  datatype DateTime = DateTime(iso: string, minuteIso: string)

  /** The fields of a STIX object the dashboard reads; None is an absent or null field. */
  datatype Indicator = Indicator(
    objType: Option<string>,
    id: Option<string>,
    evidenceId: Option<string>,
    name: Option<string>,
    description: Option<string>,
    pattern: Option<string>,
    validFrom: Option<string>,
    created: Option<string>,
    threatLevel: Option<string>,
    labels: Option<seq<string>>,
    profileIp: Option<string>,
    direction: Option<string>,
    victim: Option<string>,
    flowUids: Option<seq<string>>,
    dstPort: Option<int>,
    srcPort: Option<int>)

  /** Python truthiness of an optional string. */
  predicate Truthy(o: Option<string>) {
    o.Some? && o.value != ""
  }

  /** Python's `a or b`. */
  function Or(a: Option<string>, b: Option<string>): (r: Option<string>)
    ensures Truthy(a) ==> r == a
    ensures !Truthy(a) ==> r == b
  {
    if Truthy(a) then a else b
  }

  /** str.replace("Z", "+00:00"): every 'Z' is replaced. */
  function ReplaceZ(s: string): (r: string)
    ensures 'Z' !in r
    ensures 'Z' !in s ==> r == s
  {
    if s == [] then []
    else (if s[0] == 'Z' then "+00:00" else [s[0]]) + ReplaceZ(s[1..])
  }

  /** The text handed to fromisoformat: a trailing "Z" is rewritten as "+00:00". */
  function IsoText(ts: string): (r: string)
    ensures !EndsWith(ts, "Z") ==> r == ts
    ensures EndsWith(ts, "Z") ==> 'Z' !in r
  {
    if EndsWith(ts, "Z") then ReplaceZ(ts) else ts
  }

  /**
   * _parse_when: the first truthy of valid_from and created, parsed; the
   * current time when neither is present or the text does not parse.
   */
  function ParseWhen(ind: Indicator, now: DateTime, fromIso: string -> Option<DateTime>): (r: DateTime)
    ensures !Truthy(ind.validFrom) && !Truthy(ind.created) ==> r == now
    ensures Truthy(ind.validFrom) ==> r == fromIso(IsoText(ind.validFrom.value)).GetOr(now)
    ensures !Truthy(ind.validFrom) && Truthy(ind.created) ==> r == fromIso(IsoText(ind.created.value)).GetOr(now)
  {
    var ts := Or(ind.validFrom, ind.created);
    if !Truthy(ts) then now
    else
      match fromIso(IsoText(ts.value))
      case Some(dt) => dt
      case None => now
  }

  /** One prepared evidence, as _prepare_evidences builds its dictionary. */
  datatype Evidence = Evidence(
    id: Option<string>,
    stixId: Option<string>,
    name: Option<string>,
    description: Option<string>,
    pattern: Option<string>,
    timestamp: string,
    sortTs: string,
    severity: string,
    severityRank: int,
    profileIp: Option<string>,
    direction: Option<string>,
    victim: Option<string>,
    flowUids: seq<string>,
    dstPort: Option<int>,
    srcPort: Option<int>,
    labels: seq<string>)

  predicate IsIndicator(ind: Indicator) {
    ind.objType == Some("indicator")
  }

  function SeverityOf(ind: Indicator): string {
    NormalizeSeverity(SeveritySource(ind.threatLevel, ind.labels))
  }

  /** The dictionary built for one indicator. */
  function PrepareOne(ind: Indicator, now: DateTime, fromIso: string -> Option<DateTime>): (e: Evidence)
    ensures e.severity == SeverityOf(ind) && e.severityRank == SeverityRank(e.severity)
    ensures e.sortTs == ParseWhen(ind, now, fromIso).iso
    ensures e.timestamp == Or(Or(ind.validFrom, ind.created), Some(e.sortTs)).value
    ensures e.id == Or(ind.evidenceId, ind.id) && e.stixId == ind.id
    ensures e.profileIp == ind.profileIp && e.direction == ind.direction && e.victim == ind.victim
    ensures e.name == ind.name && e.description == ind.description && e.pattern == ind.pattern
    ensures e.dstPort == ind.dstPort && e.srcPort == ind.srcPort
    ensures e.flowUids == ind.flowUids.GetOr([]) && e.labels == ind.labels.GetOr([])
  {
    var dt := ParseWhen(ind, now, fromIso);
    var severity := SeverityOf(ind);
    Evidence(
      Or(ind.evidenceId, ind.id), ind.id, ind.name, ind.description, ind.pattern,
      Or(Or(ind.validFrom, ind.created), Some(dt.iso)).value, dt.iso,
      severity, SeverityRank(severity),
      ind.profileIp, ind.direction, ind.victim,
      ind.flowUids.GetOr([]), ind.dstPort, ind.srcPort, ind.labels.GetOr([]))
  }

  /** The evidences of the indicators among `objects`, in input order (before sorting). */
  function Prepared(objects: seq<Indicator>, now: DateTime, fromIso: string -> Option<DateTime>): (r: seq<Evidence>)
    ensures |r| <= |objects|
  {
    if objects == [] then []
    else
      var last := objects[|objects| - 1];
      Prepared(objects[..|objects| - 1], now, fromIso)
        + (if IsIndicator(last) then [PrepareOne(last, now, fromIso)] else [])
  }

  /** Prepared keeps exactly the objects of type "indicator", in order, each prepared. */
  lemma {:induction false} PreparedIsFilterMap(objects: seq<Indicator>, now: DateTime, fromIso: string -> Option<DateTime>)
    ensures var kept := Filter(objects, IsIndicator);
      && |Prepared(objects, now, fromIso)| == |kept|
      && forall i :: 0 <= i < |kept| ==> Prepared(objects, now, fromIso)[i] == PrepareOne(kept[i], now, fromIso)
  {
    if objects != [] {
      var init := objects[..|objects| - 1];
      var last := objects[|objects| - 1];
      PreparedIsFilterMap(init, now, fromIso);
      SplitLast(objects);
      FilterAppend(init, [last], IsIndicator);
    }
  }

  /** One more object of the input prepares one more evidence if it is an indicator. */
  lemma PreparedPrefix(objects: seq<Indicator>, i: int, now: DateTime, fromIso: string -> Option<DateTime>)
    requires 0 <= i < |objects|
    ensures Prepared(objects[..i + 1], now, fromIso)
         == Prepared(objects[..i], now, fromIso) + (if IsIndicator(objects[i]) then [PrepareOne(objects[i], now, fromIso)] else [])
  {
    var next := objects[..i + 1];
    assert next[..|next| - 1] == objects[..i];
  }

  /**
   * The order of _prepare_evidences: descending by severity_rank, then by the
   * sort_ts text, which is newest first only when the times share one UTC offset.
   */
  function MostSevereNewestFirst(): (le: (Evidence, Evidence) -> bool) {
    (a: Evidence, b: Evidence) =>
      a.severityRank > b.severityRank || (a.severityRank == b.severityRank && !Less(a.sortTs, b.sortTs))
  }

  lemma MostSevereNewestFirstTotal()
    ensures TotalPreorder(MostSevereNewestFirst())
  {
    var le := MostSevereNewestFirst();
    forall a: Evidence, b: Evidence ensures le(a, b) || le(b, a) {
      LessAsymmetric(a.sortTs, b.sortTs);
    }
    forall a: Evidence, b: Evidence, c: Evidence | le(a, b) && le(b, c) ensures le(a, c) {
      if a.severityRank == b.severityRank == c.severityRank {
        StringLeTransitive(a.sortTs, b.sortTs, c.sortTs);
      }
    }
  }

  /** Not-less on strings is transitive. */
  lemma StringLeTransitive(a: string, b: string, c: string)
    requires !Less(a, b) && !Less(b, c)
    ensures !Less(a, c)
  {
    LessTrichotomy(a, b);
    LessTrichotomy(b, c);
    if Less(a, c) {
      if a == b {
      } else if b == c {
      } else {
        LessTransitive(c, b, a);
        LessAsymmetric(a, c);
      }
    }
  }

  /** Two evidences tie exactly when rank and sort timestamp agree. */
  lemma MostSevereNewestFirstTies(a: Evidence, b: Evidence)
    ensures MostSevereNewestFirst()(a, b) && MostSevereNewestFirst()(b, a)
        <==> a.severityRank == b.severityRank && a.sortTs == b.sortTs
  {
    LessTrichotomy(a.sortTs, b.sortTs);
    LessIrreflexive(a.sortTs);
  }

  /**
   * _prepare_evidences: one evidence per indicator object, sorted by
   * descending (severity_rank, sort_ts); ties keep the input order.
   */
  method PrepareEvidences(objects: seq<Indicator>, now: DateTime, fromIso: string -> Option<DateTime>)
    returns (evidences: seq<Evidence>)
    ensures evidences == Sort(Prepared(objects, now, fromIso), MostSevereNewestFirst())
    ensures |evidences| <= |objects|
    ensures multiset(evidences) == multiset(Prepared(objects, now, fromIso))
    ensures SortedBy(evidences, MostSevereNewestFirst())
  {
    var acc: seq<Evidence> := [];
    var i := 0;
    while i < |objects|
      invariant 0 <= i <= |objects|
      invariant acc == Prepared(objects[..i], now, fromIso)
    {
      var indicator := objects[i];
      PreparedPrefix(objects, i, now, fromIso);
      if indicator.objType == Some("indicator") {
        acc := acc + [PrepareOne(indicator, now, fromIso)];
      }
      i := i + 1;
    }
    assert objects[..|objects|] == objects;
    SortEvidences(acc);
    evidences := Sort(acc, MostSevereNewestFirst());
  }

  /** Sorting evidences in this order permutes them into that order. */
  lemma SortEvidences(acc: seq<Evidence>)
    ensures var e := Sort(acc, MostSevereNewestFirst());
      |e| == |acc| && multiset(e) == multiset(acc) && SortedBy(e, MostSevereNewestFirst())
  {
    MostSevereNewestFirstTotal();
    SortIsSorted(acc, MostSevereNewestFirst());
  }

  /** Evidences with equal (severity_rank, sort_ts) leave the sort in their input order. */
  lemma PreparedTiesKeepOrder(objects: seq<Indicator>, now: DateTime, fromIso: string -> Option<DateTime>, x: Evidence)
    ensures var le := MostSevereNewestFirst();
      Ties(Sort(Prepared(objects, now, fromIso), le), x, le) == Ties(Prepared(objects, now, fromIso), x, le)
  {
    MostSevereNewestFirstTotal();
    SortIsStable(Prepared(objects, now, fromIso), x, MostSevereNewestFirst());
  }
}

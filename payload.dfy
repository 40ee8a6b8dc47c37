/**
 * get_dashboard_payload and the parts of it that are not TAXII selection:
 * the per-minute timeline (_build_timeline), the summary counters, and the
 * payload in its success and error forms. The TAXII requests are inputs:
 * `roots` is the decoded discovery answer (or the error raised while loading
 * the configuration or requesting it), `collectionsAt` the collections
 * answer of an API root, and `objectsOf` the outcome of the paging loop for
 * a collection.
 */
module Payload {
  import opened Wrappers
  import opened Strings
  import opened Sequences
  import opened Tally
  import opened Severity
  import opened Indicators
  import opened IpSummary
  import opened Taxii

  // ----- the timeline -----

  /** The minute keys of the records, in order: the minute of _parse_when as isoformat() text. */
  function MinuteKeys(records: seq<Indicator>, now: DateTime, fromIso: string -> Option<DateTime>): (r: seq<string>)
    ensures |r| == |records|
  {
    if records == [] then []
    else
      MinuteKeys(records[..|records| - 1], now, fromIso)
        + [ParseWhen(records[|records| - 1], now, fromIso).minuteIso]
  }

  /** sorted() on strings: code-point lexicographic order, as a "not after" relation. */
  function TextOrder(): (le: (string, string) -> bool) {
    (a: string, b: string) => !Less(b, a)
  }

  lemma TextOrderTotal()
    ensures TotalPreorder(TextOrder())
  {
    forall a: string, b: string ensures TextOrder()(a, b) || TextOrder()(b, a) {
      LessAsymmetric(a, b);
    }
    forall a: string, b: string, c: string | TextOrder()(a, b) && TextOrder()(b, c) ensures TextOrder()(a, c) {
      StringLeTransitive(c, b, a);
    }
  }

  /** Buckets sorted by key text with no key twice are strictly ascending. */
  lemma StrictlyAscending(bins: seq<Bin<string>>)
    requires SortedBy(bins, BinOrder(TextOrder()))
    requires Distinct(BinKeys(bins))
    ensures forall i, j :: 0 <= i < j < |bins| ==> Less(bins[i].key, bins[j].key)
  {
    forall i, j | 0 <= i < j < |bins| ensures Less(bins[i].key, bins[j].key) {
      assert BinKeys(bins)[i] != BinKeys(bins)[j];
      assert BinOrder(TextOrder())(bins[i], bins[j]);
      LessTrichotomy(bins[i].key, bins[j].key);
    }
  }

  /**
   * _build_timeline: one point per distinct minute, holding the number of
   * records in that minute, in ascending order of the minute text; the
   * counts add up to the number of records.
   */
  method BuildTimeline(records: seq<Indicator>, now: DateTime, fromIso: string -> Option<DateTime>)
    returns (timeline: seq<Bin<string>>)
    ensures var keys := MinuteKeys(records, now, fromIso);
      && (forall i :: 0 <= i < |timeline| ==> timeline[i].count == multiset(keys)[timeline[i].key] > 0)
      && (forall k :: k in keys <==> k in BinKeys(timeline))
    ensures Distinct(BinKeys(timeline))
    ensures forall i, j :: 0 <= i < j < |timeline| ==> Less(timeline[i].key, timeline[j].key)
    ensures SumBins(timeline) == |records|
    ensures |timeline| <= |records|
  {
    var keys := MinuteKeys(records, now, fromIso);
    TextOrderTotal();
    timeline := Histogram(keys, TextOrder());
    StrictlyAscending(timeline);
    SumBinsAtLeastLength(timeline);
  }

  /** Buckets that are never empty hold at least one record each. */
  lemma {:induction false} SumBinsAtLeastLength(bins: seq<Bin<string>>)
    requires forall i :: 0 <= i < |bins| ==> bins[i].count > 0
    ensures |bins| <= SumBins(bins)
  {
    if bins != [] {
      SumBinsAtLeastLength(bins[1..]);
    }
  }

  // ----- the summary counters -----

  datatype Counters = Counters(
    totalEvidences: nat,
    uniqueIps: nat,
    critical: nat,
    high: nat,
    collection: Option<string>)

  /** `sum(1 for e in evidences if e["severity"] == level)`. */
  function CountSeverity(evidences: seq<Evidence>, level: string): (n: nat)
    ensures n <= |evidences|
  {
    if evidences == [] then 0
    else CountSeverity(evidences[1..], level) + (if evidences[0].severity == level then 1 else 0)
  }

  /** The count is the number of evidences that carry the level. */
  lemma {:induction false} CountSeverityIsFilter(evidences: seq<Evidence>, level: string)
    ensures CountSeverity(evidences, level) == |Filter(evidences, (e: Evidence) => e.severity == level)|
  {
    if evidences != [] {
      CountSeverityIsFilter(evidences[1..], level);
    }
  }

  /** Two different levels never count the same evidence twice. */
  lemma {:induction false} DisjointLevels(evidences: seq<Evidence>, a: string, b: string)
    requires a != b
    ensures CountSeverity(evidences, a) + CountSeverity(evidences, b) <= |evidences|
  {
    if evidences != [] {
      DisjointLevels(evidences[1..], a, b);
    }
  }

  /** The counters of a successful payload. */
  function SummaryCounters(evidences: seq<Evidence>, ipSummary: seq<IpEntry>, collection: Collection): (c: Counters)
    ensures c.totalEvidences == |evidences| && c.uniqueIps == |ipSummary|
    ensures c.critical == CountSeverity(evidences, "critical") && c.high == CountSeverity(evidences, "high")
    ensures c.critical + c.high <= c.totalEvidences
    ensures c.collection == Or(collection.title, collection.id)
  {
    DisjointLevels(evidences, "critical", "high");
    Counters(|evidences|, |ipSummary|, CountSeverity(evidences, "critical"), CountSeverity(evidences, "high"),
             Or(collection.title, collection.id))
  }

  // ----- the payload -----

  datatype DashboardPayload = DashboardPayload(
    timeline: seq<Bin<string>>,
    ipSummary: seq<IpEntry>,
    evidences: seq<Evidence>,
    summary: Counters,
    severityOrder: seq<string>,
    error: Option<string>)

  /** The payload of the `except` branch. */
  function ErrorPayload(message: string): (p: DashboardPayload)
    ensures p.timeline == [] && p.ipSummary == [] && p.evidences == []
    ensures p.summary == Counters(0, 0, 0, 0, Some("Unavailable"))
    ensures p.severityOrder == SeverityOrder && p.error == Some(message)
  {
    DashboardPayload([], [], [], Counters(0, 0, 0, 0, Some("Unavailable")), SeverityOrder, Some(message))
  }

  /**
   * The steps of get_dashboard_payload up to the objects: discover the API
   * root, select the collection, fill in its defaults and fetch its objects.
   * The first step that fails decides the error.
   */
  function Fetch(roots: Result<seq<string>>,
                 collectionsAt: string -> Result<seq<Collection>>,
                 objectsOf: Collection -> Result<seq<Indicator>>): (r: Result<(Collection, seq<Indicator>)>)
    ensures roots.Err? ==> r == Err(roots.message)
    ensures roots == Ok([]) ==> r == Err("No API roots advertised by TAXII discovery endpoint")
    ensures r.Ok? ==> (roots.Ok? && DiscoverApiRoot(roots.value).Ok?
                       && collectionsAt(DiscoverApiRoot(roots.value).value).Ok?
                       && SelectCollection(collectionsAt(DiscoverApiRoot(roots.value).value).value).Ok?
                       && r.value.0 == WithDefaults(SelectCollection(collectionsAt(DiscoverApiRoot(roots.value).value).value).value,
                                                    DiscoverApiRoot(roots.value).value)
                       && objectsOf(r.value.0) == Ok(r.value.1))
  {
    match roots
    case Err(m) => Err(m)
    case Ok(rs) =>
      match DiscoverApiRoot(rs)
      case Err(m) => Err(m)
      case Ok(root) =>
        match collectionsAt(root)
        case Err(m) => Err(m)
        case Ok(cs) =>
          match SelectCollection(cs)
          case Err(m) => Err(m)
          case Ok(c) =>
            var collection := WithDefaults(c, root);
            match objectsOf(collection)
            case Err(m) => Err(m)
            case Ok(objects) => Ok((collection, objects))
  }

  /** A server without collections yields the collections error. */
  lemma NoCollectionsError(roots: seq<string>, collectionsAt: string -> Result<seq<Collection>>,
                           objectsOf: Collection -> Result<seq<Indicator>>)
    requires roots != [] && collectionsAt(DiscoverApiRoot(roots).value) == Ok([])
    ensures Fetch(Ok(roots), collectionsAt, objectsOf) == Err("No collections available on TAXII server")
  {
  }

  /**
   * get_dashboard_payload once the objects are known. The timeline and the
   * IP summary are computed from the indicator objects themselves (see the
   * as-written variant below for what the code computes instead).
   */
  method GetDashboardPayload(fetched: Result<(Collection, seq<Indicator>)>, now: DateTime,
                             fromIso: string -> Option<DateTime>)
    returns (p: DashboardPayload)
    ensures fetched.Err? ==> p == ErrorPayload(fetched.message)
    ensures fetched.Ok? ==> (
      var (collection, objects) := fetched.value;
      var kept := Filter(objects, IsIndicator);
      && p.error.None? && p.severityOrder == SeverityOrder
      && p.evidences == Sort(Prepared(objects, now, fromIso), MostSevereNewestFirst())
      && p.ipSummary == Sort(Grouped(Sightings(kept)), ByTopRankThenCount())
      && SummarizesIps(Sightings(kept), p.ipSummary)
      && SumBins(p.timeline) == |kept| == |p.evidences|
      && (forall i :: 0 <= i < |p.timeline| ==>
            p.timeline[i].count == multiset(MinuteKeys(kept, now, fromIso))[p.timeline[i].key] > 0)
      && Distinct(BinKeys(p.timeline))
      && (forall i, j :: 0 <= i < j < |p.timeline| ==> Less(p.timeline[i].key, p.timeline[j].key))
      && (forall k :: k in MinuteKeys(kept, now, fromIso) <==> k in BinKeys(p.timeline))
      && p.summary == SummaryCounters(p.evidences, p.ipSummary, collection))
  {
    if fetched.Err? {
      return ErrorPayload(fetched.message);
    }
    var (collection, objects) := fetched.value;
    var evidences := PrepareEvidences(objects, now, fromIso);
    var kept := Filter(objects, IsIndicator);
    PreparedIsFilterMap(objects, now, fromIso);
    var timeline := BuildTimeline(kept, now, fromIso);
    var ipSummary := SummarizeIps(kept);
    p := DashboardPayload(timeline, ipSummary, evidences, SummaryCounters(evidences, ipSummary, collection),
                          SeverityOrder, None);
  }

  /** unique_ips is the number of distinct profile IPs among the indicators. */
  lemma UniqueIpsAreDistinctIps(s: seq<Sighting>, entries: seq<IpEntry>)
    requires SummarizesIps(s, entries)
    ensures |entries| == |FirstSeen(IpsOf(s))|
  {
    var ips := EntryIps(entries);
    var order := FirstSeen(IpsOf(s));
    FirstSeenFacts(IpsOf(s));
    DistinctSameMembers(ips, order);
  }

  /** Two duplicate-free sequences with the same members have the same length. */
  lemma {:induction false} DistinctSameMembers<K>(a: seq<K>, b: seq<K>)
    requires Distinct(a) && Distinct(b)
    requires forall x :: x in a <==> x in b
    ensures |a| == |b|
  {
    var ma := multiset(a);
    var mb := multiset(b);
    assert ma == mb by {
      forall x ensures ma[x] == mb[x] {
        DistinctCountAtMostOne(a, x);
        DistinctCountAtMostOne(b, x);
        assert x in a <==> x in ma;
        assert x in b <==> x in mb;
      }
    }
    assert |ma| == |a| && |mb| == |b|;
  }

  // ----- the code as written: the aggregates read the prepared evidences -----

  /**
   * A prepared evidence read with the keys of a TAXII object, as
   * _build_timeline and _summarize_ips read it: only the keys both
   * dictionaries have (id, name, description, pattern, labels) carry a value;
   * type, valid_from, created, x_slips_threat_level and x_slips_profile_ip are
   * absent.
   */
  function AsObject(e: Evidence): (ind: Indicator)
    ensures ind.profileIp.None? && ind.validFrom.None? && ind.created.None?
    ensures ind.id == e.id && ind.labels == Some(e.labels)
  {
    Indicator(None, e.id, None, e.name, e.description, e.pattern, None, None, None, Some(e.labels),
              None, None, None, None, None, None)
  }

  function AsObjects(evidences: seq<Evidence>): (r: seq<Indicator>)
    ensures |r| == |evidences|
  {
    if evidences == [] then [] else AsObjects(evidences[..|evidences| - 1]) + [AsObject(evidences[|evidences| - 1])]
  }

  /** No prepared evidence has an x_slips_profile_ip, so no IP is ever seen. */
  lemma {:induction false} AsObjectsHaveNoIps(evidences: seq<Evidence>)
    ensures IpsOf(Sightings(AsObjects(evidences))) == []
  {
    if evidences != [] {
      var init := evidences[..|evidences| - 1];
      var x := AsObject(evidences[|evidences| - 1]);
      AsObjectsHaveNoIps(init);
      SightingsSnoc(AsObjects(init), x);
      var s := Sightings(AsObjects(evidences));
      assert s == Sightings(AsObjects(init)) + [SightingOf(x)];
      assert s[..|s| - 1] == Sightings(AsObjects(init));
    }
  }

  /** Hence the summary of the prepared evidences is empty. */
  lemma AsWrittenSummaryEmpty(evidences: seq<Evidence>)
    ensures Sort(Grouped(Sightings(AsObjects(evidences))), ByTopRankThenCount()) == []
  {
    AsObjectsHaveNoIps(evidences);
    assert Grouped(Sightings(AsObjects(evidences))) == [];
  }

  /** No prepared evidence has valid_from or created, so every record falls in the minute of `now`. */
  lemma {:induction false} AsObjectsAreNow(evidences: seq<Evidence>, now: DateTime, fromIso: string -> Option<DateTime>)
    ensures forall k :: k in MinuteKeys(AsObjects(evidences), now, fromIso) ==> k == now.minuteIso
  {
    if evidences != [] {
      var init := evidences[..|evidences| - 1];
      AsObjectsAreNow(init, now, fromIso);
      assert AsObjects(evidences)[..|evidences| - 1] == AsObjects(init);
    }
  }

  lemma {:induction false} AllOneKey(s: seq<string>, key: string)
    requires forall i :: 0 <= i < |s| ==> s[i] == key
    ensures multiset(s)[key] == |s|
  {
    if s != [] {
      AllOneKey(s[1..], key);
      assert s == [s[0]] + s[1..];
    }
  }

  /** A histogram of keys that are all one key has at most one bucket, holding them all. */
  lemma OneKeyOneBin(bins: seq<Bin<string>>, keys: seq<string>, key: string)
    requires forall k :: k in keys ==> k == key
    requires forall k :: k in keys <==> k in BinKeys(bins)
    requires Distinct(BinKeys(bins))
    requires SumBins(bins) == |keys|
    ensures |bins| <= 1
    ensures forall i :: 0 <= i < |bins| ==> bins[i] == Bin(key, |keys|)
  {
    var ks := BinKeys(bins);
    forall i | 0 <= i < |ks| ensures ks[i] == key {
      assert ks[i] in ks;
    }
    AllOneKey(ks, key);
    DistinctCountAtMostOne(ks, key);
    if |bins| == 1 {
      assert SumBins(bins) == bins[0].count + SumBins(bins[1..]);
    }
  }

  /**
   * get_dashboard_payload as written: the timeline and the IP summary are
   * computed from the prepared, sorted evidences. The IP summary is then
   * always empty, and the timeline has at most one point, at the minute of
   * `now`, the one instant taken for every utcnow() call of the request.
   */
  method GetDashboardPayloadAsWritten(fetched: Result<(Collection, seq<Indicator>)>, now: DateTime,
                                      fromIso: string -> Option<DateTime>)
    returns (p: DashboardPayload)
    ensures fetched.Err? ==> p == ErrorPayload(fetched.message)
    ensures fetched.Ok? ==> (
      && p.evidences == Sort(Prepared(fetched.value.1, now, fromIso), MostSevereNewestFirst())
      && p.ipSummary == [] && p.summary.uniqueIps == 0
      && |p.timeline| <= 1
      && (forall i :: 0 <= i < |p.timeline| ==> p.timeline[i] == Bin(now.minuteIso, |p.evidences|)))
  {
    if fetched.Err? {
      return ErrorPayload(fetched.message);
    }
    var (collection, objects) := fetched.value;
    var evidences := PrepareEvidences(objects, now, fromIso);
    var records := AsObjects(evidences);
    var timeline := BuildTimeline(records, now, fromIso);
    var ipSummary := SummarizeIps(records);
    AsWrittenSummaryEmpty(evidences);
    AsObjectsAreNow(evidences, now, fromIso);
    OneKeyOneBin(timeline, MinuteKeys(records, now, fromIso), now.minuteIso);
    p := DashboardPayload(timeline, ipSummary, evidences, SummaryCounters(evidences, ipSummary, collection),
                          SeverityOrder, None);
  }

  /** An indicator whose only IP is the profile IP 10.0.0.1. */
  const ProfileIpIndicator := Indicator(Some("indicator"), Some("indicator--1"), None, None, None, None, None, None,
                                        Some("high"), None, Some("10.0.0.1"), None, None, None, None, None)

  /** The indicator yields one sighting, of 10.0.0.1. */
  lemma ProfileIpSighting()
    ensures IpsOf(Sightings(Filter([ProfileIpIndicator], IsIndicator))) == ["10.0.0.1"]
  {
    var x := ProfileIpIndicator;
    Singleton(x);
    assert Filter([x], IsIndicator) == [x];
    var si := SightingOf(x);
    Singleton(si);
    assert Sightings([x]) == [si];
    assert IpsOf([si]) == ["10.0.0.1"];
  }

  /** Summarizing the indicator itself gives one entry. */
  lemma ProfileIpSummarized()
    ensures |Sort(Grouped(Sightings(Filter([ProfileIpIndicator], IsIndicator))), ByTopRankThenCount())| == 1
  {
    var s := Sightings(Filter([ProfileIpIndicator], IsIndicator));
    ProfileIpSighting();
    assert FirstSeen(["10.0.0.1"]) == ["10.0.0.1"];
    assert |Grouped(s)| == |FirstSeen(IpsOf(s))|;
  }

  /** An indicator with profile IP 10.0.0.1: the intended summary has its entry, the code's summary is empty. */
  lemma AsWrittenLosesTheIp(now: DateTime, fromIso: string -> Option<DateTime>)
    ensures var x := ProfileIpIndicator;
      && |Sort(Grouped(Sightings(Filter([x], IsIndicator))), ByTopRankThenCount())| == 1
      && Sort(Grouped(Sightings(AsObjects(Sort(Prepared([x], now, fromIso), MostSevereNewestFirst())))),
              ByTopRankThenCount()) == []
  {
    ProfileIpSummarized();
    AsWrittenSummaryEmpty(Sort(Prepared([ProfileIpIndicator], now, fromIso), MostSevereNewestFirst()));
  }

  /** Records in two different minutes give the intended timeline two points; the code's has at most one. */
  lemma TwoMinutesTwoPoints(bins: seq<Bin<string>>, keys: seq<string>, i: nat, j: nat)
    requires i < |keys| && j < |keys| && keys[i] != keys[j]
    requires forall k :: k in keys <==> k in BinKeys(bins)
    requires Distinct(BinKeys(bins))
    ensures |bins| >= 2
  {
    assert keys[i] in BinKeys(bins) && keys[j] in BinKeys(bins);
    var a :| 0 <= a < |bins| && BinKeys(bins)[a] == keys[i];
    var b :| 0 <= b < |bins| && BinKeys(bins)[b] == keys[j];
    assert a != b;
  }
}

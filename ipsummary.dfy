/**
 * The per-IP summary of the Python service (_summarize_ips): one entry per
 * profile IP, counting its evidences, remembering the latest truthy
 * direction and victim and the most severe level seen, sorted by descending
 * (top_rank, count).
 */
module IpSummary {
  import opened Wrappers
  import opened Sequences
  import opened Tally
  import opened Severity
  import opened Indicators

  datatype IpEntry = IpEntry(
    ip: string,
    count: nat,
    direction: Option<string>,
    victim: Option<string>,
    topSeverity: string,
    topRank: int)

  /** What _summarize_ips reads from one record, with its severity already normalised and ranked. */
  datatype Sighting = Sighting(ip: Option<string>, direction: Option<string>, victim: Option<string>,
                               severity: string, rank: int)

  function SightingOf(x: Indicator): (r: Sighting)
    ensures r.ip == x.profileIp && r.direction == x.direction && r.victim == x.victim
  {
    var severity := SeverityOf(x);
    Sighting(x.profileIp, x.direction, x.victim, severity, SeverityRank(severity))
  }

  function Sightings(s: seq<Indicator>): seq<Sighting> {
    if s == [] then [] else Sightings(s[..|s| - 1]) + [SightingOf(s[|s| - 1])]
  }

  lemma SightingsSnoc(s: seq<Indicator>, x: Indicator)
    ensures Sightings(s + [x]) == Sightings(s) + [SightingOf(x)]
  {
    assert (s + [x])[..|s|] == s;
  }

  /** One more record of the input gives one more sighting. */
  lemma SightingsPrefix(s: seq<Indicator>, i: int)
    requires 0 <= i < |s|
    ensures Sightings(s[..i + 1]) == Sightings(s[..i]) + [SightingOf(s[i])]
  {
    assert s[..i + 1] == s[..i] + [s[i]];
    SightingsSnoc(s[..i], s[i]);
  }

  /** The profile IPs of the records that have a truthy one, in order. */
  function IpsOf(s: seq<Sighting>): (r: seq<string>)
    ensures forall ip :: ip in r ==> ip != ""
  {
    if s == [] then []
    else
      var last := s[|s| - 1];
      IpsOf(s[..|s| - 1]) + (if Truthy(last.ip) then [last.ip.value] else [])
  }

  function AtIp(ip: string): Sighting -> bool {
    (x: Sighting) => x.ip == Some(ip)
  }

  /** The records of one IP, in order. */
  function Hits(s: seq<Sighting>, ip: string): seq<Sighting> {
    Filter(s, AtIp(ip))
  }

  lemma HitsSnoc(s: seq<Sighting>, x: Sighting, ip: string)
    ensures Hits(s + [x], ip) == Hits(s, ip) + (if x.ip == Some(ip) then [x] else [])
  {
    FilterAppend(s, [x], AtIp(ip));
  }

  /** An IP has as many records as it occurs among the IPs. */
  lemma {:induction false} HitsCount(s: seq<Sighting>, ip: string)
    requires ip != ""
    ensures |Hits(s, ip)| == multiset(IpsOf(s))[ip]
  {
    if s != [] {
      var init := s[..|s| - 1];
      var last := s[|s| - 1];
      assert s == init + [last];
      HitsCount(init, ip);
      HitsSnoc(init, last, ip);
    }
  }

  function Directions(h: seq<Sighting>): seq<Option<string>> {
    seq(|h|, i requires 0 <= i < |h| => h[i].direction)
  }

  function Victims(h: seq<Sighting>): seq<Option<string>> {
    seq(|h|, i requires 0 <= i < |h| => h[i].victim)
  }

  /** `value or entry[...]` folded over the values seen. */
  function LatestTruthy(vals: seq<Option<string>>): Option<string>
    requires |vals| > 0
  {
    if |vals| == 1 then vals[0] else Or(vals[|vals| - 1], LatestTruthy(vals[..|vals| - 1]))
  }

  /** Index of the last truthy value, if any. */
  function LastTruthyIndex(vals: seq<Option<string>>): (r: Option<nat>)
    ensures r.Some? ==> r.value < |vals| && Truthy(vals[r.value])
    ensures r.Some? ==> forall k :: r.value < k < |vals| ==> !Truthy(vals[k])
    ensures r.None? ==> forall k :: 0 <= k < |vals| ==> !Truthy(vals[k])
  {
    if vals == [] then None
    else if Truthy(vals[|vals| - 1]) then Some(|vals| - 1)
    else
      var init := vals[..|vals| - 1];
      assert forall k :: 0 <= k < |init| ==> init[k] == vals[k];
      LastTruthyIndex(init)
  }

  /** The fold yields the last truthy value, or the first value when none is truthy. */
  lemma {:induction false} LatestTruthyIsLatest(vals: seq<Option<string>>)
    requires |vals| > 0
    ensures LatestTruthy(vals) == match LastTruthyIndex(vals)
                                  case Some(j) => vals[j]
                                  case None => vals[0]
  {
    if |vals| > 1 {
      var init := vals[..|vals| - 1];
      LatestTruthyIsLatest(init);
      if !Truthy(vals[|vals| - 1]) {
        match LastTruthyIndex(init)
        case Some(j) => assert init[j] == vals[j];
        case None => assert init[0] == vals[0];
      }
    }
  }

  /** The first record of greatest rank: `rank > top_rank` lets only a strictly higher rank replace it. */
  function TopIndex(h: seq<Sighting>): (t: nat)
    requires |h| > 0
    ensures t < |h|
  {
    if |h| == 1 then 0
    else
      var t := TopIndex(h[..|h| - 1]);
      if h[|h| - 1].rank > h[t].rank then |h| - 1 else t
  }

  /** The top record has the greatest rank, and every earlier record a strictly smaller one. */
  lemma {:induction false} TopIndexIsFirstMaximum(h: seq<Sighting>)
    requires |h| > 0
    ensures forall k :: 0 <= k < |h| ==> h[k].rank <= h[TopIndex(h)].rank
    ensures forall k :: 0 <= k < TopIndex(h) ==> h[k].rank < h[TopIndex(h)].rank
  {
    if |h| > 1 {
      var init := h[..|h| - 1];
      TopIndexIsFirstMaximum(init);
      assert forall k :: 0 <= k < |init| ==> init[k] == h[k];
    }
  }

  /** The summary entry of an IP whose records are h. */
  function EntryFor(ip: string, h: seq<Sighting>): (e: IpEntry)
    requires |h| > 0
    ensures e.ip == ip && e.count == |h|
    ensures exists t :: 0 <= t < |h| && e.topRank == h[t].rank && e.topSeverity == h[t].severity
  {
    var t := TopIndex(h);
    IpEntry(ip, |h|, LatestTruthy(Directions(h)), LatestTruthy(Victims(h)), h[t].severity, h[t].rank)
  }

  /**
   * What an entry says about its IP's records: the count is their number, the
   * top rank is their greatest rank, held first by the record whose severity
   * is kept, and direction and victim are the latest truthy values (the first
   * record's when none is truthy).
   */
  lemma EntryForMeaning(ip: string, h: seq<Sighting>)
    requires |h| > 0
    ensures var e := EntryFor(ip, h);
      && e.ip == ip && e.count == |h|
      && (forall k :: 0 <= k < |h| ==> h[k].rank <= e.topRank)
      && (exists t :: 0 <= t < |h| && e.topRank == h[t].rank && e.topSeverity == h[t].severity
                      && forall k :: 0 <= k < t ==> h[k].rank < e.topRank)
      && e.direction == (match LastTruthyIndex(Directions(h))
                           case Some(j) => h[j].direction
                           case None => h[0].direction)
      && e.victim == (match LastTruthyIndex(Victims(h))
                        case Some(j) => h[j].victim
                        case None => h[0].victim)
  {
    TopIndexIsFirstMaximum(h);
    LatestTruthyIsLatest(Directions(h));
    LatestTruthyIsLatest(Victims(h));
    var t := TopIndex(h);
    assert 0 <= t < |h| && forall k :: 0 <= k < t ==> h[k].rank < h[t].rank;
  }

  /** One more record updates an entry exactly as the loop body does. */
  lemma EntryForSnoc(ip: string, h: seq<Sighting>, x: Sighting)
    requires |h| > 0
    ensures var e := EntryFor(ip, h);
      var e1 := e.(count := e.count + 1, direction := Or(x.direction, e.direction), victim := Or(x.victim, e.victim));
      EntryFor(ip, h + [x]) == if x.rank > e1.topRank then e1.(topSeverity := x.severity, topRank := x.rank) else e1
  {
    var h1 := h + [x];
    assert h1[..|h1| - 1] == h;
    assert h1[TopIndex(h)] == h[TopIndex(h)];
    assert Directions(h1)[..|h|] == Directions(h);
    assert Victims(h1)[..|h|] == Victims(h);
  }

  lemma HitsPresent(s: seq<Sighting>)
    ensures forall ip :: ip in IpsOf(s) ==> |Hits(s, ip)| > 0
  {
    forall ip | ip in IpsOf(s) ensures |Hits(s, ip)| > 0 {
      HitsCount(s, ip);
    }
  }

  /** The entries in first-seen order of their IPs, as summary.values() yields them. */
  function Grouped(s: seq<Sighting>): (r: seq<IpEntry>)
    ensures |r| == |FirstSeen(IpsOf(s))|
    ensures forall j :: 0 <= j < |r| ==> r[j].ip == FirstSeen(IpsOf(s))[j] && r[j].count == |Hits(s, r[j].ip)|
  {
    var order := FirstSeen(IpsOf(s));
    FirstSeenFacts(IpsOf(s));
    HitsPresent(s);
    seq(|order|, j requires 0 <= j < |order| => EntryFor(order[j], Hits(s, order[j])))
  }

  function EntryIps(entries: seq<IpEntry>): seq<string> {
    seq(|entries|, i requires 0 <= i < |entries| => entries[i].ip)
  }

  function TotalCount(entries: seq<IpEntry>): nat {
    if entries == [] then 0 else entries[0].count + TotalCount(entries[1..])
  }

  /** The sort order of the summary: descending (top_rank, count). */
  function ByTopRankThenCount(): (le: (IpEntry, IpEntry) -> bool) {
    (a: IpEntry, b: IpEntry) => a.topRank > b.topRank || (a.topRank == b.topRank && a.count >= b.count)
  }

  lemma ByTopRankThenCountTotal()
    ensures TotalPreorder(ByTopRankThenCount())
  {
  }

  /** The loop body for one record with a truthy IP: create the entry on first sight, then update it. */
  function Absorb(current: Option<IpEntry>, x: Sighting): (e: IpEntry)
    requires Truthy(x.ip)
    ensures e.ip == if current.Some? then current.value.ip else x.ip.value
    ensures e.count == (if current.Some? then current.value.count else 0) + 1
    ensures e.topRank >= x.rank && (current.Some? ==> e.topRank >= current.value.topRank)
    ensures Truthy(x.direction) ==> e.direction == x.direction
    ensures Truthy(x.victim) ==> e.victim == x.victim
  {
    var base := if current.Some? then current.value
                else IpEntry(x.ip.value, 0, x.direction, x.victim, x.severity, x.rank);
    var e := base.(count := base.count + 1, direction := Or(x.direction, base.direction),
                   victim := Or(x.victim, base.victim));
    if x.rank > e.topRank then e.(topSeverity := x.severity, topRank := x.rank) else e
  }

  function Get(m: map<string, IpEntry>, k: string): Option<IpEntry> {
    if k in m then Some(m[k]) else None
  }

  /** The dictionary after the loop has seen the records of s. */
  function SummaryOf(s: seq<Sighting>): map<string, IpEntry> {
    if s == [] then map[]
    else
      var prev := SummaryOf(s[..|s| - 1]);
      var x := s[|s| - 1];
      if Truthy(x.ip) then prev[x.ip.value := Absorb(Get(prev, x.ip.value), x)] else prev
  }

  /** The dictionary has a key for every IP seen and no other. */
  lemma {:induction false} SummaryOfKeys(s: seq<Sighting>)
    ensures forall ip :: ip in SummaryOf(s) <==> ip in IpsOf(s)
  {
    if s != [] {
      SummaryOfKeys(s[..|s| - 1]);
    }
  }

  /** Absorbing a record of its IP turns that IP's summary into the summary with the record added. */
  lemma AbsorbStep(init: seq<Sighting>, x: Sighting, ip: string)
    requires Truthy(x.ip) && ip == x.ip.value
    requires ip in SummaryOf(init) <==> ip in IpsOf(init)
    requires ip in SummaryOf(init) ==> |Hits(init, ip)| > 0 && SummaryOf(init)[ip] == EntryFor(ip, Hits(init, ip))
    ensures |Hits(init + [x], ip)| > 0
    ensures Absorb(Get(SummaryOf(init), ip), x) == EntryFor(ip, Hits(init + [x], ip))
  {
    HitsSnoc(init, x, ip);
    if ip in SummaryOf(init) {
      EntryForSnoc(ip, Hits(init, ip), x);
    } else {
      HitsCount(init, ip);
      assert Hits(init, ip) == [];
      assert [] + [x] == [x];
      AbsorbFresh(x, ip);
    }
  }

  /** A record of an IP not yet in the dictionary starts its entry. */
  lemma AbsorbFresh(x: Sighting, ip: string)
    requires Truthy(x.ip) && ip == x.ip.value
    ensures Absorb(None, x) == EntryFor(ip, [x])
  {
    assert Directions([x]) == [x.direction];
    assert Victims([x]) == [x.victim];
  }

  /** Each entry of the dictionary is the summary of its IP's records. */
  lemma {:induction false} SummaryOfEntries(s: seq<Sighting>)
    ensures forall ip :: ip in SummaryOf(s) ==> |Hits(s, ip)| > 0 && SummaryOf(s)[ip] == EntryFor(ip, Hits(s, ip))
  {
    if s != [] {
      var init := s[..|s| - 1];
      var x := s[|s| - 1];
      assert s == init + [x];
      SummaryOfEntries(init);
      SummaryOfKeys(init);
      forall ip | ip in SummaryOf(s) ensures |Hits(s, ip)| > 0 && SummaryOf(s)[ip] == EntryFor(ip, Hits(s, ip)) {
        if Truthy(x.ip) && ip == x.ip.value {
          AbsorbStep(init, x, ip);
          assert SummaryOf(s)[ip] == Absorb(Get(SummaryOf(init), ip), x);
          assert Hits(s, ip) == Hits(init + [x], ip);
        } else {
          HitsSnoc(init, x, ip);
          assert ip in SummaryOf(init) && SummaryOf(s)[ip] == SummaryOf(init)[ip];
          assert Hits(s, ip) == Hits(init, ip);
        }
      }
    }
  }

  lemma {:induction false} TotalCountIsSumCounts(entries: seq<IpEntry>, m: multiset<string>)
    requires forall j :: 0 <= j < |entries| ==> entries[j].count == m[entries[j].ip]
    ensures TotalCount(entries) == SumCounts(EntryIps(entries), m)
  {
    if entries != [] {
      TotalCountIsSumCounts(entries[1..], m);
      assert EntryIps(entries)[1..] == EntryIps(entries[1..]);
    }
  }

  /** One more record: the IP list and the dictionary grow as the loop body makes them. */
  lemma SummaryOfSnoc(prefix: seq<Sighting>, x: Sighting)
    ensures Truthy(x.ip) ==> IpsOf(prefix + [x]) == IpsOf(prefix) + [x.ip.value]
    ensures Truthy(x.ip) ==> SummaryOf(prefix + [x]) == SummaryOf(prefix)[x.ip.value := Absorb(Get(SummaryOf(prefix), x.ip.value), x)]
    ensures !Truthy(x.ip) ==> IpsOf(prefix + [x]) == IpsOf(prefix) && SummaryOf(prefix + [x]) == SummaryOf(prefix)
  {
    var s := prefix + [x];
    assert s[..|s| - 1] == prefix;
    assert IpsOf(prefix) + [] == IpsOf(prefix);
  }

  /** The dictionary holds an IP exactly when the IP list already names it. */
  lemma SeenBefore(prefix: seq<Sighting>, ip: string)
    ensures ip in SummaryOf(prefix) <==> ip in FirstSeen(IpsOf(prefix))
  {
    SummaryOfKeys(prefix);
    FirstSeenFacts(IpsOf(prefix));
  }

  /** summary.values(): the entries in the order their keys were first inserted. */
  function InOrder(summary: map<string, IpEntry>, order: seq<string>): seq<IpEntry>
    requires forall k :: k in order ==> k in summary
  {
    seq(|order|, j requires 0 <= j < |order| => summary[order[j]])
  }

  /** After all records, the dictionary's values in insertion order are the grouped entries. */
  lemma GroupedFromSummary(s: seq<Sighting>, order: seq<string>, summary: map<string, IpEntry>)
    requires order == FirstSeen(IpsOf(s)) && summary == SummaryOf(s)
    ensures forall k :: k in order ==> k in summary
    ensures InOrder(summary, order) == Grouped(s)
  {
    SummaryOfKeys(s);
    SummaryOfEntries(s);
    FirstSeenFacts(IpsOf(s));
  }

  /** The entries of the sorted summary come from the grouped entries. */
  lemma SortedMembers(s: seq<Sighting>, entries: seq<IpEntry>)
    requires multiset(entries) == multiset(Grouped(s))
    ensures forall e :: e in entries ==> |Hits(s, e.ip)| > 0 && e == EntryFor(e.ip, Hits(s, e.ip))
  {
    var g := Grouped(s);
    forall e | e in entries ensures |Hits(s, e.ip)| > 0 && e == EntryFor(e.ip, Hits(s, e.ip)) {
      assert e in multiset(entries);
      assert e in multiset(g);
      assert e in g;
    }
  }

  /** The sorted summary names every IP seen. */
  lemma SortedCover(s: seq<Sighting>, entries: seq<IpEntry>)
    requires multiset(entries) == multiset(Grouped(s))
    ensures forall ip :: ip in IpsOf(s) <==> ip in EntryIps(entries)
  {
    var g := Grouped(s);
    var order := FirstSeen(IpsOf(s));
    FirstSeenFacts(IpsOf(s));
    forall ip | ip in IpsOf(s) ensures ip in EntryIps(entries) {
      var j :| 0 <= j < |order| && order[j] == ip;
      assert g[j] in multiset(entries);
      var i :| 0 <= i < |entries| && entries[i] == g[j];
      assert EntryIps(entries)[i] == ip;
    }
    forall ip | ip in EntryIps(entries) ensures ip in IpsOf(s) {
      var i :| 0 <= i < |entries| && EntryIps(entries)[i] == ip;
      assert entries[i] in multiset(g);
      assert entries[i] in g;
    }
  }

  /** No IP has two entries. */
  lemma SortedDistinct(s: seq<Sighting>, entries: seq<IpEntry>)
    requires multiset(entries) == multiset(Grouped(s))
    ensures Distinct(EntryIps(entries))
  {
    var g := Grouped(s);
    var order := FirstSeen(IpsOf(s));
    FirstSeenFacts(IpsOf(s));
    assert Distinct(g) by {
      forall i, j | 0 <= i < j < |g| ensures g[i] != g[j] {
        assert g[i].ip == order[i] && g[j].ip == order[j];
      }
    }
    DistinctPermutation(g, entries);
    SortedMembers(s, entries);
    forall i, j | 0 <= i < j < |entries| ensures EntryIps(entries)[i] != EntryIps(entries)[j] {
      assert entries[i] in entries && entries[j] in entries;
    }
  }

  /**
   * What the summary promises about the records s: sorted by descending
   * (top_rank, count), one entry per IP seen and no other, each entry the
   * summary of that IP's records, and the counts adding up to the records
   * that have an IP.
   */
  ghost predicate SummarizesIps(s: seq<Sighting>, entries: seq<IpEntry>) {
    && SortedBy(entries, ByTopRankThenCount())
    && (forall e :: e in entries ==> |Hits(s, e.ip)| > 0 && e == EntryFor(e.ip, Hits(s, e.ip)))
    && (forall ip :: ip in IpsOf(s) <==> ip in EntryIps(entries))
    && Distinct(EntryIps(entries))
    && TotalCount(entries) == |IpsOf(s)|
  }

  /** The sorted grouped entries keep every promise of the summary. */
  lemma SummaryResult(s: seq<Sighting>)
    ensures SummarizesIps(s, Sort(Grouped(s), ByTopRankThenCount()))
  {
    var entries := Sort(Grouped(s), ByTopRankThenCount());
    ByTopRankThenCountTotal();
    SortIsSorted(Grouped(s), ByTopRankThenCount());
    SortedMembers(s, entries);
    SortedCover(s, entries);
    SortedDistinct(s, entries);
    var m := multiset(IpsOf(s));
    forall j | 0 <= j < |entries| ensures entries[j].count == m[entries[j].ip] {
      assert entries[j] in entries;
      assert EntryIps(entries)[j] == entries[j].ip;
      assert entries[j].ip in IpsOf(s);
      HitsCount(s, entries[j].ip);
    }
    TotalCountIsSumCounts(entries, m);
    SumCountsCover(EntryIps(entries), m);
  }

  /** The in-place updates of one entry for one more record of its IP. */
  method Bump(entry: IpEntry, x: Sighting) returns (r: IpEntry)
    requires Truthy(x.ip)
    ensures r == Absorb(Some(entry), x)
  {
    r := entry.(count := entry.count + 1);
    r := r.(direction := Or(x.direction, r.direction));
    r := r.(victim := Or(x.victim, r.victim));
    if x.rank > r.topRank {
      r := r.(topSeverity := x.severity, topRank := x.rank);
    }
  }

  /** Creating an entry with count 0 and then updating it is absorbing into no entry. */
  lemma AbsorbFromZero(x: Sighting)
    requires Truthy(x.ip)
    ensures Absorb(None, x) == Absorb(Some(IpEntry(x.ip.value, 0, x.direction, x.victim, x.severity, x.rank)), x)
  {
  }

  /** The loop body of _summarize_ips for one record. */
  method Visit(summary: map<string, IpEntry>, order: seq<string>, ghost seen: seq<Sighting>, x: Sighting)
    returns (summary': map<string, IpEntry>, order': seq<string>)
    requires summary == SummaryOf(seen) && order == FirstSeen(IpsOf(seen))
    ensures summary' == SummaryOf(seen + [x]) && order' == FirstSeen(IpsOf(seen + [x]))
  {
    SummaryOfSnoc(seen, x);
    summary', order' := summary, order;
    if x.ip.Some? && x.ip.value != "" {
      var ip := x.ip.value;
      SeenBefore(seen, ip);
      FirstSeenSnoc(IpsOf(seen), ip);
      var entry: IpEntry;
      if ip !in summary {
        entry := IpEntry(ip, 0, x.direction, x.victim, x.severity, x.rank);
        order' := order + [ip];
        AbsorbFromZero(x);
      } else {
        entry := summary[ip];
      }
      assert Absorb(Get(summary, ip), x) == Absorb(Some(entry), x);
      entry := Bump(entry, x);
      summary' := summary[ip := entry];
    }
  }

  /**
   * _summarize_ips: records without a truthy profile IP are skipped; the
   * entries, one per IP, are sorted by descending (top_rank, count) with ties
   * in first-seen order.
   */
  method SummarizeIps(evidences: seq<Indicator>) returns (entries: seq<IpEntry>)
    ensures entries == Sort(Grouped(Sightings(evidences)), ByTopRankThenCount())
    ensures SummarizesIps(Sightings(evidences), entries)
  {
    ghost var seen: seq<Sighting> := [];
    var summary: map<string, IpEntry> := map[];
    var order: seq<string> := [];
    var i := 0;
    while i < |evidences|
      invariant 0 <= i <= |evidences|
      invariant seen == Sightings(evidences[..i])
      invariant order == FirstSeen(IpsOf(seen))
      invariant summary == SummaryOf(seen)
    {
      var x := SightingOf(evidences[i]);
      summary, order := Visit(summary, order, seen, x);
      SightingsPrefix(evidences, i);
      seen := seen + [x];
      i := i + 1;
    }
    assert evidences[..i] == evidences;
    ghost var s := seen;
    GroupedFromSummary(s, order, summary);
    var values := InOrder(summary, order);
    entries := Sort(values, ByTopRankThenCount());
    SummaryResult(s);
  }
}

/**
 * What the browser derives from the decorated evidences for display: the
 * filtered and sorted table (applyFilters, sortData, setSort), the rows
 * grouped by host (renderEvidenceTable with "Group by IP"), the per-minute
 * timeline (buildTimelineFromEvidences) and the text of the filter badge
 * (updateFilterBadge).
 */
module Views {
  import opened Wrappers
  import opened Strings
  import opened Sequences
  import opened Tally
  import opened Dates
  import opened Indicators
  import opened Records

  // Filters

  /** The three view restrictions: host, local day and the selected severities in selection order. */
  datatype Filters = Filters(ip: Option<string>, day: Option<string>, severities: seq<string>)

  const NoFilters := Filters(None, None, [])

  predicate MatchesIp(f: Filters, r: Row) {
    !Truthy(f.ip) || r.raw.profileIp == f.ip
  }

  predicate MatchesDay(f: Filters, r: Row) {
    !Truthy(f.day) || r.localDate == f.day
  }

  predicate MatchesSeverity(f: Filters, r: Row) {
    f.severities == [] || (r.raw.severity.Some? && r.raw.severity.value in f.severities)
  }

  predicate Matches(f: Filters, r: Row) {
    MatchesIp(f, r) && MatchesDay(f, r) && MatchesSeverity(f, r)
  }

  function IpTest(f: Filters): Row -> bool { r => MatchesIp(f, r) }
  function DayTest(f: Filters): Row -> bool { r => MatchesDay(f, r) }
  function SeverityTest(f: Filters): Row -> bool { r => MatchesSeverity(f, r) }
  function MatchTest(f: Filters): Row -> bool { r => Matches(f, r) }

  /** The filtering stages of applyFilters, in the order the code applies them. */
  function Filtered(rows: seq<Row>, f: Filters): (r: seq<Row>)
    ensures forall x :: x in r <==> x in rows && Matches(f, x)
  {
    var byIp := Filter(rows, IpTest(f));
    var byDay := Filter(byIp, DayTest(f));
    FilterMembers(rows, IpTest(f));
    FilterMembers(byIp, DayTest(f));
    FilterMembers(byDay, SeverityTest(f));
    Filter(byDay, SeverityTest(f))
  }

  /**
   * The stages amount to one filter by all three restrictions: the rows kept
   * are exactly the matching ones, in their original order, whatever the
   * order of the stages.
   */
  lemma FilteredIsOneFilter(rows: seq<Row>, f: Filters)
    ensures Filtered(rows, f) == Filter(rows, MatchTest(f))
    ensures forall r :: r in Filtered(rows, f) <==> r in rows && Matches(f, r)
    ensures IsSubsequence(Filtered(rows, f), rows)
  {
    var ip, day, sev := IpTest(f), DayTest(f), SeverityTest(f);
    var both := (r: Row) => ip(r) && day(r);
    FilterConjunction(rows, ip, day);
    FilterConjunction(rows, both, sev);
    FilterAgree(rows, (r: Row) => both(r) && sev(r), MatchTest(f));
    FilterMembers(rows, MatchTest(f));
    FilterIsSubsequence(rows, MatchTest(f));
  }

  /** Without any restriction every row is kept. */
  lemma NoFiltersKeepAll(rows: seq<Row>)
    ensures Filtered(rows, NoFilters) == rows
  {
    FilteredIsOneFilter(rows, NoFilters);
    FilterAll(rows, MatchTest(NoFilters));
  }

  // Sorting

  datatype Direction = Asc | Desc

  /** The table's sort column key (a data-sort attribute) and its direction. */
  datatype SortSpec = SortSpec(key: string, dir: Direction)

  const DefaultSort := SortSpec("severity_rank", Desc)

  function Flip(d: Direction): Direction {
    if d == Asc then Desc else Asc
  }

  /**
   * setSort: the current column reverses its direction; another column
   * starts descending for severity_rank and ascending otherwise.
   */
  function NextSort(current: SortSpec, key: string): (r: SortSpec)
    ensures r.key == key
    ensures current.key == key ==> r.dir == Flip(current.dir)
    ensures current.key != key ==> r.dir == (if key == "severity_rank" then Desc else Asc)
  {
    if current.key == key then SortSpec(key, Flip(current.dir))
    else SortSpec(key, if key == "severity_rank" then Desc else Asc)
  }

  /** Choosing the current column twice gives the sort back; choosing a column twice always ends on it. */
  lemma NextSortTwice(current: SortSpec, key: string)
    ensures current.key == key ==> NextSort(NextSort(current, key), key) == current
    ensures NextSort(NextSort(current, key), key).dir == Flip(NextSort(current, key).dir)
  {
  }

  /** A sort value: getValue returns a number or a string for any one column. */
  datatype SortValue = Num(n: int) | Text(s: string)

  /** JavaScript's `<` between two values of one column (numbers before strings, which never meet). */
  predicate ValueLess(a: SortValue, b: SortValue) {
    match (a, b)
    case (Num(x), Num(y)) => x < y
    case (Text(x), Text(y)) => Less(x, y)
    case (Num(_), Text(_)) => true
    case (Text(_), Num(_)) => false
  }

  lemma ValueLessStrictTotal(a: SortValue, b: SortValue, c: SortValue)
    ensures !ValueLess(a, a)
    ensures a == b || ValueLess(a, b) || ValueLess(b, a)
    ensures !(ValueLess(a, b) && ValueLess(b, a))
    ensures ValueLess(a, b) && ValueLess(b, c) ==> ValueLess(a, c)
  {
    if a.Text? { LessIrreflexive(a.s); }
    if a.Text? && b.Text? {
      LessTrichotomy(a.s, b.s);
      LessAsymmetric(a.s, b.s);
      if c.Text? && Less(a.s, b.s) && Less(b.s, c.s) {
        LessTransitive(a.s, b.s, c.s);
      }
    }
  }

  const MaxSafeInteger: int := 9007199254740991

  /** `date?.getTime() || 0`: null and Invalid Date (NaN) become 0. */
  function TimeOrZero(d: Option<JsDate>): int {
    if d.Some? && d.value.Valid? then d.value.ms else 0
  }

  /** `${port || ""}`: a missing or zero port prints as nothing. */
  function PortText(p: Option<int>): string {
    if p.None? || p.value == 0 then "" else IntToString(p.value)
  }

  /** getValue in sortData: the value a row is ordered by for a column key. */
  function SortValueOf(key: string, r: Row): (v: SortValue)
    ensures key in {"name", "profile_ip", "victim", "ports", "ti_source"} <==> v.Text?
  {
    match key
    case "severity_rank" => Num(r.raw.severityRank)
    case "when" => Num(TimeOrZero(r.timestampDate))
    case "created" => Num(TimeOrZero(r.createdDate))
    case "modified" => Num(TimeOrZero(r.modifiedDate))
    case "name" => Text(r.raw.name.GetOr(""))
    case "profile_ip" => Text(r.raw.profileIp.GetOr(""))
    case "victim" => Text(r.raw.victim.GetOr(""))
    case "ports" => Text(PortText(r.raw.srcPort) + "-" + PortText(r.raw.dstPort))
    case "time_diff" =>
      var diff := TimeDiffSeconds(r);
      Num(if diff.Some? then diff.value else MaxSafeInteger)
    case "ti_source" => Text(r.raw.tiSource.GetOr(""))
    case _ => Num(0)
  }

  /**
   * The order the comparator of sortData induces: a may stay before b when
   * the comparator does not return a positive number for (a, b).
   */
  function RowOrder(spec: SortSpec): (Row, Row) -> bool {
    (a: Row, b: Row) =>
      var va := SortValueOf(spec.key, a);
      var vb := SortValueOf(spec.key, b);
      if spec.dir == Asc then !ValueLess(vb, va) else !ValueLess(va, vb)
  }

  lemma RowOrderTotal(spec: SortSpec)
    ensures TotalPreorder(RowOrder(spec))
  {
    var le := RowOrder(spec);
    forall a: Row, b: Row ensures le(a, b) || le(b, a) {
      var va, vb := SortValueOf(spec.key, a), SortValueOf(spec.key, b);
      ValueLessStrictTotal(va, vb, va);
    }
    forall a: Row, b: Row, c: Row | le(a, b) && le(b, c) ensures le(a, c) {
      var va, vb, vc := SortValueOf(spec.key, a), SortValueOf(spec.key, b), SortValueOf(spec.key, c);
      ValueLessStrictTotal(va, vb, vc);
      ValueLessStrictTotal(vc, vb, va);
      ValueLessStrictTotal(va, vc, vb);
      ValueLessStrictTotal(vb, va, vc);
      ValueLessStrictTotal(vb, vc, va);
      ValueLessStrictTotal(vc, va, vb);
    }
  }

  /** sortData: the rows stably sorted by the column. */
  function SortRows(rows: seq<Row>, spec: SortSpec): (r: seq<Row>)
    ensures multiset(r) == multiset(rows)
    ensures SortedBy(r, RowOrder(spec))
  {
    RowOrderTotal(spec);
    SortIsSorted(rows, RowOrder(spec));
    Sort(rows, RowOrder(spec))
  }

  /**
   * The sorted table holds the same rows, ordered by the column in the
   * chosen direction, with rows of equal value in their previous order.
   */
  lemma SortRowsOrdered(rows: seq<Row>, spec: SortSpec, x: Row)
    ensures multiset(SortRows(rows, spec)) == multiset(rows)
    ensures var s := SortRows(rows, spec);
      forall i, j :: 0 <= i < j < |s| ==>
        if spec.dir == Asc then !ValueLess(SortValueOf(spec.key, s[j]), SortValueOf(spec.key, s[i]))
        else !ValueLess(SortValueOf(spec.key, s[i]), SortValueOf(spec.key, s[j]))
    ensures Ties(SortRows(rows, spec), x, RowOrder(spec)) == Ties(rows, x, RowOrder(spec))
  {
    RowOrderTotal(spec);
    SortIsSorted(rows, RowOrder(spec));
    SortIsStable(rows, x, RowOrder(spec));
    var s := SortRows(rows, spec);
    forall i, j | 0 <= i < j < |s|
      ensures if spec.dir == Asc then !ValueLess(SortValueOf(spec.key, s[j]), SortValueOf(spec.key, s[i]))
        else !ValueLess(SortValueOf(spec.key, s[i]), SortValueOf(spec.key, s[j]))
    {
      assert RowOrder(spec)(s[i], s[j]);
    }
  }

  /** In the default sort the most severe rows come first. */
  lemma DefaultSortMostSevereFirst(rows: seq<Row>)
    ensures var s := SortRows(rows, DefaultSort);
      forall i, j :: 0 <= i < j < |s| ==> s[i].raw.severityRank >= s[j].raw.severityRank
  {
    var s := SortRows(rows, DefaultSort);
    SortRowsOrdered(rows, DefaultSort, if rows == [] then Row(RawEvidence(None, None, None, None, None, None, 0, None, None, None, None, None, None), None, None, None, None, None, None) else rows[0]);
    forall i, j | 0 <= i < j < |s| ensures s[i].raw.severityRank >= s[j].raw.severityRank {
      assert !ValueLess(SortValueOf("severity_rank", s[i]), SortValueOf("severity_rank", s[j]));
    }
  }

  /** A row whose time difference is unknown sorts as the largest possible difference. */
  lemma UnknownTimeDiffSortsLast(r: Row, other: Row)
    requires TimeDiffSeconds(r).None?
    requires TimeDiffSeconds(other).Some? && TimeDiffSeconds(other).value < MaxSafeInteger
    ensures RowOrder(SortSpec("time_diff", Asc))(other, r) && !RowOrder(SortSpec("time_diff", Asc))(r, other)
    ensures RowOrder(SortSpec("time_diff", Desc))(r, other) && !RowOrder(SortSpec("time_diff", Desc))(other, r)
  {
  }

  /** applyFilters: the matching rows, sorted by the current column. */
  function ApplyFilters(rows: seq<Row>, f: Filters, spec: SortSpec): (r: seq<Row>)
    ensures forall x :: x in r <==> x in rows && Matches(f, x)
    ensures SortedBy(r, RowOrder(spec))
  {
    var kept := Filtered(rows, f);
    var r := SortRows(kept, spec);
    assert forall x :: x in r <==> x in multiset(kept);
    r
  }

  /** The table shows exactly the matching rows, as often as they occur. */
  lemma ApplyFiltersMembers(rows: seq<Row>, f: Filters, spec: SortSpec)
    ensures multiset(ApplyFilters(rows, f, spec)) == multiset(Filter(rows, MatchTest(f)))
  {
    FilteredIsOneFilter(rows, f);
  }

  // Grouping by host

  /** One group of the grouped table: a host and its rows. */
  datatype Group = Group(ip: string, rows: seq<Row>)

  /** `ev.profile_ip || "Unassigned"`. */
  function GroupKey(r: Row): string {
    if Truthy(r.raw.profileIp) then r.raw.profileIp.value else "Unassigned"
  }

  function InGroup(k: string): Row -> bool {
    r => GroupKey(r) == k
  }

  function GroupKeys(rows: seq<Row>): (r: seq<string>)
    ensures |r| == |rows|
  {
    if rows == [] then [] else GroupKeys(rows[..|rows| - 1]) + [GroupKey(rows[|rows| - 1])]
  }

  lemma GroupKeysMembers(rows: seq<Row>)
    ensures forall k :: k in GroupKeys(rows) <==> exists r :: r in rows && GroupKey(r) == k
  {
    forall k ensures k in GroupKeys(rows) <==> exists r :: r in rows && GroupKey(r) == k {
      if k in GroupKeys(rows) {
        var i :| 0 <= i < |rows| && GroupKeys(rows)[i] == k;
        GroupKeysAt(rows, i);
      } else {
        forall r | r in rows ensures GroupKey(r) != k {
          var i :| 0 <= i < |rows| && rows[i] == r;
          GroupKeysAt(rows, i);
        }
      }
    }
  }

  lemma {:induction false} GroupKeysAt(rows: seq<Row>, i: int)
    requires 0 <= i < |rows|
    ensures GroupKeys(rows)[i] == GroupKey(rows[i])
  {
    if i < |rows| - 1 {
      GroupKeysAt(rows[..|rows| - 1], i);
    }
  }

  /** The groups in first-seen order of their host, each holding that host's rows in table order. */
  function FirstSeenGroups(rows: seq<Row>): (r: seq<Group>)
    ensures var keys := FirstSeen(GroupKeys(rows));
      |r| == |keys| && forall j :: 0 <= j < |keys| ==> r[j] == Group(keys[j], Filter(rows, InGroup(keys[j])))
  {
    var keys := FirstSeen(GroupKeys(rows));
    seq(|keys|, j requires 0 <= j < |keys| => Group(keys[j], Filter(rows, InGroup(keys[j]))))
  }

  /** `b[1].length - a[1].length`: larger groups first. */
  function LargerFirst(): (Group, Group) -> bool {
    (a: Group, b: Group) => |a.rows| >= |b.rows|
  }

  lemma LargerFirstTotal()
    ensures TotalPreorder(LargerFirst())
  {
  }

  /** The Map the grouping loop fills, keyed by host, as a function of the rows seen. */
  function GroupMap(rows: seq<Row>): map<string, seq<Row>> {
    if rows == [] then map[]
    else
      var m := GroupMap(rows[..|rows| - 1]);
      var x := rows[|rows| - 1];
      var k := GroupKey(x);
      m[k := (if k in m then m[k] else []) + [x]]
  }

  /** The Map holds one entry per host seen, holding exactly that host's rows in order. */
  lemma {:induction false} GroupMapMeaning(rows: seq<Row>)
    ensures forall k :: k in GroupMap(rows) <==> k in GroupKeys(rows)
    ensures forall k :: k in GroupMap(rows) ==> GroupMap(rows)[k] == Filter(rows, InGroup(k))
  {
    if rows != [] {
      var init := rows[..|rows| - 1];
      var x := rows[|rows| - 1];
      GroupMapMeaning(init);
      assert rows == init + [x];
      forall k | k in GroupMap(rows) ensures GroupMap(rows)[k] == Filter(rows, InGroup(k)) {
        FilterAppend(init, [x], InGroup(k));
        if k != GroupKey(x) {
          assert Filter([x], InGroup(k)) == [];
        } else {
          assert Filter([x], InGroup(k)) == [x];
          if k !in GroupMap(init) {
            FilterNone(init, k);
          }
        }
      }
    }
  }

  lemma FilterNone(rows: seq<Row>, k: string)
    requires k !in GroupKeys(rows)
    ensures Filter(rows, InGroup(k)) == []
  {
    GroupKeysMembers(rows);
    FilterNothing(rows, InGroup(k));
  }

  /** A host is in the Map exactly when it has been listed in first-seen order. */
  lemma GroupSeenBefore(rows: seq<Row>, k: string)
    ensures k in GroupMap(rows) <==> k in FirstSeen(GroupKeys(rows))
  {
    GroupMapMeaning(rows);
    FirstSeenFacts(GroupKeys(rows));
  }

  /** One more row files itself under its host, which is listed if it is new. */
  lemma GroupStep(rows: seq<Row>, i: int)
    requires 0 <= i < |rows|
    ensures var k := GroupKey(rows[i]);
      var m := GroupMap(rows[..i]);
      && GroupMap(rows[..i + 1]) == m[k := (if k in m then m[k] else []) + [rows[i]]]
      && FirstSeen(GroupKeys(rows[..i + 1]))
         == if k in m then FirstSeen(GroupKeys(rows[..i])) else FirstSeen(GroupKeys(rows[..i])) + [k]
  {
    var k := GroupKey(rows[i]);
    PrefixSnoc(rows, i);
    var next := rows[..i + 1];
    assert next[..|next| - 1] == rows[..i];
    assert GroupKeys(next) == GroupKeys(rows[..i]) + [k];
    GroupSeenBefore(rows[..i], k);
    FirstSeenSnoc(GroupKeys(rows[..i]), k);
  }

  /**
   * "Group by IP": the rows grouped by host, larger groups first, groups of
   * equal size in the order their host first appears in the table.
   */
  method GroupByIp(rows: seq<Row>) returns (groups: seq<Group>)
    ensures groups == Sort(FirstSeenGroups(rows), LargerFirst())
  {
    var byHost: map<string, seq<Row>> := map[];
    var order: seq<string> := [];
    var i := 0;
    while i < |rows|
      invariant 0 <= i <= |rows|
      invariant byHost == GroupMap(rows[..i])
      invariant order == FirstSeen(GroupKeys(rows[..i]))
    {
      var x := rows[i];
      var key := GroupKey(x);
      GroupStep(rows, i);
      var bucket := if key in byHost then byHost[key] else [];
      if key !in byHost {
        order := order + [key];
      }
      byHost := byHost[key := bucket + [x]];
      i := i + 1;
    }
    assert rows[..i] == rows;
    GroupsInOrderAreFirstSeen(rows);
    groups := Sort(GroupsInOrder(order, byHost), LargerFirst());
  }

  /** The Map's entries in the order of its keys. */
  function GroupsInOrder(order: seq<string>, byHost: map<string, seq<Row>>): (r: seq<Group>)
    requires forall k :: k in order ==> k in byHost
    ensures |r| == |order| && forall j :: 0 <= j < |order| ==> r[j] == Group(order[j], byHost[order[j]])
  {
    seq(|order|, j requires 0 <= j < |order| => Group(order[j], byHost[order[j]]))
  }

  lemma GroupsInOrderAreFirstSeen(rows: seq<Row>)
    ensures forall k :: k in FirstSeen(GroupKeys(rows)) ==> k in GroupMap(rows)
    ensures GroupsInOrder(FirstSeen(GroupKeys(rows)), GroupMap(rows)) == FirstSeenGroups(rows)
  {
    GroupMapMeaning(rows);
    FirstSeenFacts(GroupKeys(rows));
  }

  /** A group in first-seen order is a host of the table with exactly its rows, of which it has at least one. */
  lemma FirstSeenGroupsMembers(rows: seq<Row>)
    ensures forall g :: g in FirstSeenGroups(rows) <==> g.ip in GroupKeys(rows) && g.rows == Filter(rows, InGroup(g.ip))
    ensures forall g :: g in FirstSeenGroups(rows) ==> g.rows != []
    ensures Distinct(FirstSeenGroups(rows))
  {
    var listed := FirstSeenGroups(rows);
    var keys := FirstSeen(GroupKeys(rows));
    FirstSeenFacts(GroupKeys(rows));
    forall g | g in listed ensures g.ip in GroupKeys(rows) && g.rows != [] {
      var j :| 0 <= j < |listed| && listed[j] == g;
      HostHasRows(rows, g.ip);
    }
    forall g: Group | g.ip in GroupKeys(rows) && g.rows == Filter(rows, InGroup(g.ip)) ensures g in listed {
      var j :| 0 <= j < |keys| && keys[j] == g.ip;
      assert listed[j] == g;
    }
  }

  lemma HostHasRows(rows: seq<Row>, k: string)
    requires k in GroupKeys(rows)
    ensures Filter(rows, InGroup(k)) != []
  {
    GroupKeysMembers(rows);
    var r :| r in rows && GroupKey(r) == k;
    FilterMembers(rows, InGroup(k));
    assert r in Filter(rows, InGroup(k));
  }

  /**
   * The grouped table shows every host of the table once, each with all of
   * its rows in table order, larger groups first.
   */
  lemma GroupsPartitionRows(rows: seq<Row>)
    ensures var groups := Sort(FirstSeenGroups(rows), LargerFirst());
      && (forall g :: g in groups <==> g.ip in GroupKeys(rows) && g.rows == Filter(rows, InGroup(g.ip)))
      && (forall g :: g in groups ==> g.rows != [])
      && (forall i, j :: 0 <= i < j < |groups| ==> |groups[i].rows| >= |groups[j].rows|)
      && (forall i, j :: 0 <= i < j < |groups| ==> groups[i].ip != groups[j].ip)
  {
    var listed := FirstSeenGroups(rows);
    var groups := Sort(listed, LargerFirst());
    FirstSeenGroupsMembers(rows);
    LargerFirstTotal();
    SortIsSorted(listed, LargerFirst());
    assert forall g :: g in groups <==> g in multiset(listed);
    DistinctPermutation(listed, groups);
    forall i, j | 0 <= i < j < |groups| ensures groups[i].ip != groups[j].ip {
      assert groups[i] != groups[j];
      assert groups[i] in multiset(groups) && groups[j] in multiset(groups);
      assert groups[i].rows == Filter(rows, InGroup(groups[i].ip));
      assert groups[j].rows == Filter(rows, InGroup(groups[j].ip));
    }
  }

  // Timeline


  /** The minute buckets of the rows with a valid observed time, in row order. */
  function MinuteBuckets(rows: seq<Row>): (keys: seq<int>)
    ensures |keys| == |Filter(rows, HasValidTimestamp)|
  {
    if rows == [] then []
    else
      var init := rows[..|rows| - 1];
      var x := rows[|rows| - 1];
      SplitLast(rows);
      FilterAppend(init, [x], HasValidTimestamp);
      MinuteBuckets(init) + (if HasValidTimestamp(x) then [MinuteStart(x.timestampDate.value.ms)] else [])
  }

  /** Every bucket key is the start of a minute holding a row's valid observed time. */
  lemma {:induction false} MinuteBucketsFrom(rows: seq<Row>)
    ensures forall k :: k in MinuteBuckets(rows) ==>
      exists r :: r in rows && HasValidTimestamp(r) && k == MinuteStart(r.timestampDate.value.ms)
  {
    if rows != [] {
      MinuteBucketsFrom(rows[..|rows| - 1]);
      assert forall r :: r in rows[..|rows| - 1] ==> r in rows;
    }
  }

  /** The rows the chart is drawn from: the filtered table, or every row when it is empty. */
  function TimelineSource(filtered: seq<Row>, evidences: seq<Row>): seq<Row> {
    if |filtered| > 0 then filtered else evidences
  }

  function IntOrder(): (int, int) -> bool {
    (a: int, b: int) => a <= b
  }

  /**
   * The points of the chart drawn from rows: one per minute holding the rows
   * whose valid observed time falls in it, counting them, minutes strictly
   * ascending; rows with no or an unparsable time are left out and the counts
   * add up to the rows kept.
   */
  ghost predicate IsChartOf(points: seq<Bin<int>>, rows: seq<Row>) {
    var keys := MinuteBuckets(rows);
    && (forall i :: 0 <= i < |points| ==> points[i].count == multiset(keys)[points[i].key] > 0)
    && (forall k :: k in keys <==> k in BinKeys(points))
    && (forall i :: 0 <= i < |points| ==> points[i].key % MinuteMs == 0)
    && (forall i, j :: 0 <= i < j < |points| ==> points[i].key < points[j].key)
    && SumBins(points) == |Filter(rows, HasValidTimestamp)|
  }

  /** buildTimelineFromEvidences: a Map from minute to count, its entries sorted by minute. */
  method BuildClientTimeline(rows: seq<Row>) returns (points: seq<Bin<int>>)
    ensures IsChartOf(points, rows)
  {
    var keys: seq<int> := [];
    var i := 0;
    while i < |rows|
      invariant 0 <= i <= |rows|
      invariant keys == MinuteBuckets(rows[..i])
    {
      var dateObj := rows[i].timestampDate;
      MinuteBucketsPrefix(rows, i);
      if dateObj.Some? && dateObj.value.Valid? {
        keys := keys + [MinuteStart(dateObj.value.ms)];
      }
      i := i + 1;
    }
    assert rows[..i] == rows;
    points := Histogram(keys, IntOrder());
    HistogramIsChart(rows, points);
  }

  /** One more row adds the start of its minute when its observed time is valid. */
  lemma MinuteBucketsPrefix(rows: seq<Row>, i: int)
    requires 0 <= i < |rows|
    ensures MinuteBuckets(rows[..i + 1]) == MinuteBuckets(rows[..i])
      + (if HasValidTimestamp(rows[i]) then [MinuteStart(rows[i].timestampDate.value.ms)] else [])
  {
    var next := rows[..i + 1];
    assert next[..|next| - 1] == rows[..i];
  }

  /** The histogram of the minute buckets is the chart of the rows. */
  lemma HistogramIsChart(rows: seq<Row>, points: seq<Bin<int>>)
    requires forall i :: 0 <= i < |points| ==> points[i].count == multiset(MinuteBuckets(rows))[points[i].key] > 0
    requires forall k :: k in MinuteBuckets(rows) <==> k in BinKeys(points)
    requires Distinct(BinKeys(points))
    requires SortedBy(points, BinOrder(IntOrder()))
    requires SumBins(points) == |MinuteBuckets(rows)|
    ensures IsChartOf(points, rows)
  {
    var keys := MinuteBuckets(rows);
    MinuteBucketsFrom(rows);
    forall i | 0 <= i < |points| ensures points[i].key % MinuteMs == 0 {
      assert BinKeys(points)[i] in keys;
    }
    forall i, j | 0 <= i < j < |points| ensures points[i].key < points[j].key {
      assert BinKeys(points)[i] != BinKeys(points)[j];
      assert BinOrder(IntOrder())(points[i], points[j]);
    }
  }

  /** Rows without a valid observed time, and in particular no rows at all, draw an empty chart. */
  lemma ChartWithoutTimes(points: seq<Bin<int>>, rows: seq<Row>)
    requires IsChartOf(points, rows)
    requires forall r :: r in rows ==> !HasValidTimestamp(r)
    ensures points == []
  {
    FilterNothing(rows, HasValidTimestamp);
  }

  // Filter badge

  /** `sev[0].toUpperCase() + sev.slice(1)` on the ASCII letters. */
  function Capitalize(s: string): (r: string)
    ensures |r| == |s|
    ensures s != [] ==> r[0] == UpperChar(s[0]) && r[1..] == s[1..]
  {
    if s == [] then [] else [UpperChar(s[0])] + s[1..]
  }

  function CapitalizeAll(ss: seq<string>): (r: seq<string>)
    ensures |r| == |ss|
  {
    if ss == [] then [] else [Capitalize(ss[0])] + CapitalizeAll(ss[1..])
  }

  /** The badge's parts: host, day (as `formatDay` renders it) and severities, for the restrictions in force. */
  function BadgeParts(f: Filters, formatDay: string -> string): (parts: seq<string>)
    ensures |parts| <= 3
    ensures parts == [] <==> !Truthy(f.ip) && !Truthy(f.day) && f.severities == []
    ensures Truthy(f.ip) ==> parts[0] == "Host: " + f.ip.value
  {
    (if Truthy(f.ip) then ["Host: " + f.ip.value] else [])
      + (if Truthy(f.day) then ["Day: " + formatDay(f.day.value)] else [])
      + (if f.severities != [] then ["Severity: " + Join(CapitalizeAll(f.severities), ", ")] else [])
  }

  /** updateFilterBadge: the parts joined by " • ", or "All activity". */
  function FilterBadge(f: Filters, formatDay: string -> string): (r: string)
    ensures r == "All activity" <==> !Truthy(f.ip) && !Truthy(f.day) && f.severities == []
  {
    var parts := BadgeParts(f, formatDay);
    if parts == [] then "All activity"
    else
      JoinStartsWithFirst(parts, " • ");
      assert parts[0][0] in {'H', 'D', 'S'};
      Join(parts, " • ")
  }

  lemma JoinStartsWithFirst(parts: seq<string>, sep: string)
    requires parts != []
    ensures |Join(parts, sep)| >= |parts[0]| && Join(parts, sep)[..|parts[0]|] == parts[0]
  {
  }

  /** A host restriction always leads the badge. */
  lemma BadgeLeadsWithHost(f: Filters, formatDay: string -> string)
    requires Truthy(f.ip)
    ensures var b := FilterBadge(f, formatDay);
      var head := "Host: " + f.ip.value;
      |b| >= |head| && b[..|head|] == head
  {
    JoinStartsWithFirst(BadgeParts(f, formatDay), " • ");
  }
}

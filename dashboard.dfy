/**
 * The page's single `state` object and the handlers that change it: a
 * refresh from the dashboard endpoint, the column headers, the host list,
 * the calendar cells and arrows, the severity buttons and the grouping
 * toggle. A handler that changes what the table shows ends as the code does,
 * by re-deriving the table and the chart (applyFilters); one that touches the
 * calendar first clamps its page (renderCalendar).
 */
module Dashboard {
  import opened Wrappers
  import opened Sequences
  import opened Tally
  import opened Dates
  import opened Records
  import opened IpSummary
  import opened Views
  import opened Calendar

  /** The part of the endpoint's JSON a refresh reads; None is an absent or null field. */
  datatype Response = Response(evidences: Option<seq<RawEvidence>>, ipSummary: Option<seq<IpEntry>>)

  /** `list || []` on a JSON field: an array, even an empty one, is kept. */
  function OrEmpty<T>(list: Option<seq<T>>): seq<T> {
    if list.Some? then list.value else []
  }

  /** `current === v ? null : v`: clicking the selected host or day clears it, another one selects it. */
  function Toggled<T(==)>(current: Option<T>, v: T): (r: Option<T>)
    ensures r.None? <==> current == Some(v)
    ensures r.Some? ==> r.value == v
  {
    if current == Some(v) then None else Some(v)
  }

  /** Clicking the same host or day twice, starting from it or from nothing selected, restores the selection. */
  lemma ToggledTwice<T>(current: Option<T>, v: T)
    requires current.None? || current == Some(v)
    ensures Toggled(Toggled(current, v), v) == current
  {
  }

  /** A filter keeps the elements of a sequence without repetitions distinct. */
  lemma {:induction false} FilterDistinct<T>(s: seq<T>, p: T -> bool)
    ensures Distinct(s) ==> Distinct(Filter(s, p))
  {
    if s != [] && Distinct(s) {
      assert Distinct(s[1..]);
      FilterDistinct(s[1..], p);
      FilterMembers(s[1..], p);
      var t := Filter(s[1..], p);
      if p(s[0]) {
        assert s[0] !in s[1..];
        forall i, j | 0 <= i < j < |[s[0]] + t| ensures ([s[0]] + t)[i] != ([s[0]] + t)[j] {
          if i == 0 {
            assert ([s[0]] + t)[j] == t[j - 1];
          }
        }
      }
    }
  }

  /**
   * severityFilter.delete / add: the selected severities as a Set, in
   * insertion order, with sev removed when selected and added last otherwise.
   */
  function ToggleSeverity(selected: seq<string>, sev: string): (r: seq<string>)
    ensures forall x :: x in r <==> (if x == sev then sev !in selected else x in selected)
    ensures Distinct(selected) ==> Distinct(r)
  {
    FilterMembers(selected, x => x != sev);
    FilterDistinct(selected, x => x != sev);
    if sev in selected then Filter(selected, x => x != sev) else selected + [sev]
  }

  /** Adding a severity and removing it again gives the selection back, in its order. */
  lemma ToggleSeverityTwice(selected: seq<string>, sev: string)
    requires sev !in selected
    ensures ToggleSeverity(ToggleSeverity(selected, sev), sev) == selected
  {
    var p := (x: string) => x != sev;
    FilterAppend(selected, [sev], p);
    FilterAll(selected, p);
  }

  /** A severity button: "all" clears the selection, any other toggles its level. */
  function SeverityClick(selected: seq<string>, sev: string): (r: seq<string>)
    ensures sev == "all" ==> r == []
    ensures sev != "all" ==> forall x :: x in r <==> (if x == sev then sev !in selected else x in selected)
    ensures Distinct(selected) ==> Distinct(r)
  {
    if sev == "all" then [] else ToggleSeverity(selected, sev)
  }

  /** What renderEvidenceTable lays out: the rows, or the host groups with their rows. */
  datatype Table = Flat(rows: seq<Row>) | Grouped(groups: seq<Group>)

  /** The data a refresh replaces. */
  datatype Fetched = Fetched(evidences: seq<Row>, ipSummary: seq<IpEntry>, calendarMonths: seq<Month>)

  /** The choices the user makes; a refresh keeps them. */
  datatype Controls = Controls(sort: SortSpec, ipFilter: Option<string>, dayFilter: Option<string>,
                               severityFilter: seq<string>, groupByIp: bool)

  class DashboardState {
    var evidences: seq<Row>
    var filtered: seq<Row>
    var ipSummary: seq<IpEntry>
    var calendarMonths: seq<Month>
    var calendarIndex: int
    var sort: SortSpec
    var ipFilter: Option<string>
    var dayFilter: Option<string>
    /** The Set of selected severities, in insertion order. */
    var severityFilter: seq<string>
    var groupByIp: bool
    /** The points the chart shows. */
    var timeline: seq<Bin<int>>

    function CurrentFilters(): Filters
      reads this`ipFilter, this`dayFilter, this`severityFilter
    {
      Filters(ipFilter, dayFilter, severityFilter)
    }

    function Data(): Fetched
      reads this`evidences, this`ipSummary, this`calendarMonths
    {
      Fetched(evidences, ipSummary, calendarMonths)
    }

    function Choices(): Controls
      reads this`sort, this`ipFilter, this`dayFilter, this`severityFilter, this`groupByIp
    {
      Controls(sort, ipFilter, dayFilter, severityFilter, groupByIp)
    }

    /**
     * The calendar page is one of the months; without months it is 0, or -1
     * once the next-month arrow was clicked.
     */
    predicate PageInRange()
      reads this`calendarMonths, this`calendarIndex
    {
      if |calendarMonths| > 0 then 0 <= calendarIndex < |calendarMonths|
      else -1 <= calendarIndex <= 0
    }

    /**
     * The table is the records that match the filters, in the chosen sort.
     * The derived views name their input through a bound variable, which
     * keeps the verifier from unfolding the view wherever Valid() is known.
     */
    ghost predicate TableDerived()
      reads this`evidences, this`filtered, this`ipFilter, this`dayFilter, this`severityFilter, this`sort
    {
      forall f | f == Filters(ipFilter, dayFilter, severityFilter) :: filtered == ApplyFilters(evidences, f, sort)
    }

    /** The chart counts the table's rows per minute, or every record's when the table is empty. */
    ghost predicate ChartDerived()
      reads this`evidences, this`filtered, this`timeline
    {
      forall rows | rows == TimelineSource(filtered, evidences) :: IsChartOf(timeline, rows)
    }

    /** The calendar is built from the records. */
    ghost predicate CalendarDerived()
      reads this`evidences, this`calendarMonths
    {
      forall rows | rows == evidences :: calendarMonths == CalendarOf(rows)
    }

    /**
     * Between events: the table, the chart and the calendar are derived from
     * the records and the choices, and the page lies in range.
     */
    ghost predicate Valid()
      reads this
    {
      && TableDerived()
      && ChartDerived()
      && CalendarDerived()
      && Distinct(severityFilter)
      && PageInRange()
    }

    /** The initial `state`, before the first refresh. */
    constructor ()
      ensures Valid()
      ensures Data() == Fetched([], [], []) && filtered == [] && timeline == [] && calendarIndex == 0
      ensures Choices() == Controls(DefaultSort, None, None, [], false)
    {
      evidences := [];
      filtered := [];
      ipSummary := [];
      calendarMonths := [];
      calendarIndex := 0;
      sort := DefaultSort;
      ipFilter := None;
      dayFilter := None;
      severityFilter := [];
      groupByIp := false;
      timeline := [];
      new;
      NoRowsNoCalendar();
    }

    /** applyFilters: the table is re-derived, then the chart. */
    method Refilter()
      modifies this`filtered, this`timeline
      ensures TableDerived() && ChartDerived()
      ensures Data() == old(Data()) && Choices() == old(Choices()) && calendarIndex == old(calendarIndex)
    {
      filtered := TableRows();
      DrawChart();
    }

    /** The rows of the table: the records that pass the filters, sorted by the chosen column. */
    method TableRows() returns (rows: seq<Row>)
      ensures rows == ApplyFilters(evidences, CurrentFilters(), sort)
    {
      rows := SortRows(Filtered(evidences, CurrentFilters()), sort);
    }

    /** updateTimelineChart: the chart is drawn from the table, or from every record when the table is empty. */
    method DrawChart()
      modifies this`timeline
      ensures ChartDerived()
    {
      timeline := BuildClientTimeline(if |filtered| > 0 then filtered else evidences);
    }

    /** The guard of renderCalendar: with months to show, the page is clamped into range. */
    method ClampPage()
      modifies this
      ensures calendarIndex == if |calendarMonths| > 0 then ClampIndex(old(calendarIndex), |calendarMonths|) else old(calendarIndex)
      ensures Data() == old(Data()) && Choices() == old(Choices())
      ensures filtered == old(filtered) && timeline == old(timeline)
    {
      if |calendarMonths| > 0 {
        calendarIndex := ClampIndex(calendarIndex, |calendarMonths|);
      }
    }

    /**
     * fetchDashboard. A failed request, a response that is not ok or a body
     * that is not JSON (Err) changes nothing; otherwise the records and the
     * hosts are replaced, the calendar is rebuilt and turns to its last month,
     * and the table and chart are re-derived, while every choice stays.
     */
    method Refresh(outcome: Result<Response>, parse: string -> JsDate)
      requires Valid()
      modifies this
      ensures Valid()
      ensures Choices() == old(Choices())
      ensures outcome.Err? ==>
        && Data() == old(Data()) && calendarIndex == old(calendarIndex)
        && filtered == old(filtered) && timeline == old(timeline)
      ensures outcome.Ok? ==>
        && evidences == DecorateAll(OrEmpty(outcome.value.evidences), parse)
        && ipSummary == OrEmpty(outcome.value.ipSummary)
        && calendarIndex == (if |calendarMonths| > 0 then |calendarMonths| - 1 else 0)
    {
      if outcome.Ok? {
        var response := outcome.value;
        Load(DecorateAll(OrEmpty(response.evidences), parse), OrEmpty(response.ipSummary));
      }
    }

    /** The successful part of fetchDashboard, from the decorated records on. */
    method Load(rows: seq<Row>, hosts: seq<IpEntry>)
      requires Valid()
      modifies this
      ensures Valid()
      ensures Choices() == old(Choices())
      ensures evidences == rows && ipSummary == hosts
      ensures calendarIndex == (if |calendarMonths| > 0 then |calendarMonths| - 1 else 0)
    {
      evidences := rows;
      ipSummary := hosts;
      RebuildMonths();
      ClampPage();
      Refilter();
    }

    /** rebuildCalendar, and the page set to the last month (0 without months). */
    method RebuildMonths()
      modifies this`calendarMonths, this`calendarIndex
      ensures CalendarDerived() && PageInRange()
      ensures calendarIndex == (if |calendarMonths| > 0 then |calendarMonths| - 1 else 0)
    {
      calendarMonths := RebuildCalendar(evidences);
      calendarIndex := if |calendarMonths| > 0 then |calendarMonths| - 1 else 0;
    }

    /** A column header (setSort). */
    method SetSort(key: string)
      requires Valid()
      modifies this
      ensures Valid()
      ensures sort == NextSort(old(sort), key)
      ensures Choices() == old(Choices()).(sort := NextSort(old(sort), key))
      ensures Data() == old(Data()) && calendarIndex == old(calendarIndex)
    {
      sort := NextSort(sort, key);
      Refilter();
    }

    /** An entry of the host list: selects that host, or clears the host filter if it is the selected one. */
    method ClickHost(ip: string)
      requires Valid()
      modifies this
      ensures Valid()
      ensures Choices() == old(Choices()).(ipFilter := Toggled(old(ipFilter), ip))
      ensures Data() == old(Data()) && calendarIndex == old(calendarIndex)
    {
      ipFilter := Toggled(ipFilter, ip);
      Refilter();
    }

    /** The clear button of the host filter. */
    method ClearHost()
      requires Valid()
      modifies this
      ensures Valid()
      ensures Choices() == old(Choices()).(ipFilter := None)
      ensures Data() == old(Data()) && calendarIndex == old(calendarIndex)
    {
      ipFilter := None;
      Refilter();
    }

    /** A calendar cell, by its dateKey: selects that day, or clears the day filter if it is the selected one. */
    method ClickDay(dateKey: string)
      requires Valid()
      modifies this
      ensures Valid()
      ensures Choices() == old(Choices()).(dayFilter := Toggled(old(dayFilter), dateKey))
      ensures Data() == old(Data()) && calendarIndex == old(calendarIndex)
    {
      dayFilter := Toggled(dayFilter, dateKey);
      ClampPage();
      Refilter();
    }

    /** The clear button of the day filter. */
    method ClearDay()
      requires Valid()
      modifies this
      ensures Valid()
      ensures Choices() == old(Choices()).(dayFilter := None)
      ensures Data() == old(Data()) && calendarIndex == old(calendarIndex)
    {
      dayFilter := None;
      ClampPage();
      Refilter();
    }

    /** A severity button, by its data-severity. */
    method ClickSeverity(sev: string)
      requires Valid()
      modifies this
      ensures Valid()
      ensures Choices() == old(Choices()).(severityFilter := SeverityClick(old(severityFilter), sev))
      ensures Data() == old(Data()) && calendarIndex == old(calendarIndex)
    {
      severityFilter := SeverityClick(severityFilter, sev);
      Refilter();
    }

    /** The "Group by IP" toggle; the table is laid out again from the same rows. */
    method ToggleGrouping()
      requires Valid()
      modifies this
      ensures Valid()
      ensures Choices() == old(Choices()).(groupByIp := !old(groupByIp))
      ensures Data() == old(Data()) && calendarIndex == old(calendarIndex)
      ensures filtered == old(filtered) && timeline == old(timeline)
    {
      groupByIp := !groupByIp;
    }

    /** The previous-month arrow. */
    method PreviousMonth()
      requires Valid()
      modifies this
      ensures Valid()
      ensures calendarIndex == PreviousIndex(old(calendarIndex))
      ensures Data() == old(Data()) && Choices() == old(Choices())
      ensures filtered == old(filtered) && timeline == old(timeline)
    {
      calendarIndex := PreviousIndex(calendarIndex);
      ClampPage();
    }

    /** The next-month arrow; without months it sets the page to -1. */
    method NextMonth()
      requires Valid()
      modifies this
      ensures Valid()
      ensures calendarIndex == NextIndex(old(calendarIndex), |calendarMonths|)
      ensures Data() == old(Data()) && Choices() == old(Choices())
      ensures filtered == old(filtered) && timeline == old(timeline)
    {
      calendarIndex := NextIndex(calendarIndex, |calendarMonths|);
      ClampPage();
    }

    /** initSorting as written: it calls setSort with the column already sorted on, which reverses it. */
    method InitSortingAsWritten()
      requires Valid()
      modifies this
      ensures Valid()
      ensures Choices() == old(Choices()).(sort := NextSort(old(sort), "severity_rank"))
      ensures Data() == old(Data()) && calendarIndex == old(calendarIndex)
    {
      SetSort("severity_rank");
    }

    /** initSorting as intended: the table is drawn in the sort the state starts with. */
    method InitSorting()
      requires Valid()
      modifies this
      ensures Valid()
      ensures Choices() == old(Choices())
      ensures Data() == old(Data()) && calendarIndex == old(calendarIndex)
    {
      Refilter();
    }

    /**
     * renderEvidenceTable: the table's rows as they are, or grouped by host
     * with larger groups first.
     */
    method Layout() returns (table: Table)
      ensures !groupByIp ==> table == Flat(filtered)
      ensures groupByIp ==> table == Grouped(Sort(FirstSeenGroups(filtered), LargerFirst()))
    {
      if groupByIp {
        var groups := GroupByIp(filtered);
        table := Grouped(groups);
      } else {
        table := Flat(filtered);
      }
    }
  }

  /** No records make no months. */
  lemma NoRowsNoCalendar()
    ensures CalendarOf([]) == []
    ensures ApplyFilters([], NoFilters, DefaultSort) == []
  {
  }

  /**
   * The sort initSorting leaves as written: ascending rank, so the table
   * opens with the least severe records first.
   */
  lemma InitialSortReversed(rows: seq<Row>)
    ensures NextSort(DefaultSort, "severity_rank") == SortSpec("severity_rank", Asc)
    ensures var s := SortRows(rows, NextSort(DefaultSort, "severity_rank"));
      forall i, j :: 0 <= i < j < |s| ==> s[i].raw.severityRank <= s[j].raw.severityRank
  {
    var spec := NextSort(DefaultSort, "severity_rank");
    var s := SortRows(rows, spec);
    RowOrderTotal(spec);
    SortIsSorted(rows, RowOrder(spec));
    forall i, j | 0 <= i < j < |s| ensures s[i].raw.severityRank <= s[j].raw.severityRank {
      assert RowOrder(spec)(s[i], s[j]);
    }
  }

  /** Back one month from any month but the first, then forward one, returns to it. */
  lemma PreviousThenNext(index: int, length: nat)
    requires 0 < index < length
    ensures NextIndex(PreviousIndex(index), length) == index
    ensures PreviousIndex(NextIndex(index - 1, length)) == index - 1
  {
  }
}

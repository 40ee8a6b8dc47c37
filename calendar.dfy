/**
 * The activity calendar (rebuildCalendar, deriveCalendarTone and the month
 * index of renderCalendar and the month buttons). Each row with a valid
 * observed time is a stamp on its local calendar day; the calendar lists the
 * months holding stamps, oldest first, each with one cell per day of the
 * month counting that day's stamps by severity.
 *
 * The code files months under the string `YYYY-MM` and days under the
 * string `YYYY-MM-DD`. On calendar days both strings are injective
 * (CodeKeysAgree), so the model files them under the month and the day
 * themselves: the Maps group exactly as the code's do.
 */
module Calendar {
  import opened Wrappers
  import opened Strings
  import opened Sequences
  import opened Tally
  import opened Dates
  import opened Indicators
  import opened Records

  type MonthIndex = m: int | 0 <= m < 12

  type CalendarDay = d: LocalDay | IsCalendarDay(d) witness LocalDay(1970, 0, 1)

  /** What rebuildCalendar reads from a row: its local day and `ev.severity || "info"`. */
  datatype Stamp = Stamp(day: CalendarDay, severity: string)

  function SeverityLabel(r: Row): (s: string)
    ensures Truthy(r.raw.severity) ==> s == r.raw.severity.value
    ensures !Truthy(r.raw.severity) ==> s == "info"
  {
    if Truthy(r.raw.severity) then r.raw.severity.value else "info"
  }

  /** The stamps of the rows whose observed time is a valid date, in row order. */
  function Stamps(rows: seq<Row>): (s: seq<Stamp>)
    ensures |s| == |Filter(rows, HasValidTimestamp)|
  {
    if rows == [] then []
    else
      var init := rows[..|rows| - 1];
      var x := rows[|rows| - 1];
      SplitLast(rows);
      FilterAppend(init, [x], HasValidTimestamp);
      Stamps(init)
        + (if IsValid(x.timestampDate) then [Stamp(x.timestampDate.value.local, SeverityLabel(x))] else [])
  }

  // Keys

  /** The code's month key `${year}-${pad(month + 1)}`. */
  function MonthKey(year: int, month: int): string {
    IntToString(year) + "-" + Pad2(IntToString(month + 1))
  }

  /** A day key extends the key of its month. */
  lemma DayKeyExtendsMonthKey(year: int, month: int, day: int)
    ensures DayKey(year, month, day) == MonthKey(year, month) + "-" + Pad2(IntToString(day))
  {
  }

  /** Different months have different keys. */
  lemma MonthKeyInjective(y1: int, m1: MonthIndex, y2: int, m2: MonthIndex)
    requires MonthKey(y1, m1) == MonthKey(y2, m2)
    ensures y1 == y2 && m1 == m2
  {
    DayKeyExtendsMonthKey(y1, m1, 1);
    DayKeyExtendsMonthKey(y2, m2, 1);
    DayKeyInjective(LocalDay(y1, m1, 1), LocalDay(y2, m2, 1));
  }

  /** A month of the calendar, as the code's month key names it. */
  datatype MonthId = MonthId(year: int, month: MonthIndex)

  function MonthIdOf(st: Stamp): MonthId {
    MonthId(st.day.year, st.day.month)
  }

  /** Two stamps share the code's month key exactly when they share the month, and its day key exactly when they share the day. */
  lemma CodeKeysAgree(a: Stamp, b: Stamp)
    ensures MonthKey(a.day.year, a.day.month) == MonthKey(b.day.year, b.day.month) <==> MonthIdOf(a) == MonthIdOf(b)
    ensures DayKey(a.day.year, a.day.month, a.day.day) == DayKey(b.day.year, b.day.month, b.day.day) <==> a.day == b.day
  {
    if MonthKey(a.day.year, a.day.month) == MonthKey(b.day.year, b.day.month) {
      MonthKeyInjective(a.day.year, a.day.month, b.day.year, b.day.month);
    }
    if DayKey(a.day.year, a.day.month, a.day.day) == DayKey(b.day.year, b.day.month, b.day.day) {
      DayKeyInjective(a.day, b.day);
    }
  }

  function MonthIds(stamps: seq<Stamp>): (r: seq<MonthId>)
    ensures |r| == |stamps|
  {
    if stamps == [] then [] else MonthIds(stamps[..|stamps| - 1]) + [MonthIdOf(stamps[|stamps| - 1])]
  }

  // Day entries

  /** A day entry: its total and the multiset of the severities counted (one count per severity). */
  datatype DayTally = DayTally(total: nat, severities: multiset<string>)

  const EmptyTally := DayTally(0, multiset{})

  /** `dayEntry.total += 1; dayEntry[sev] = (dayEntry[sev] || 0) + 1`, with the counts apart from the total. */
  function CountInto(t: DayTally, severity: string): (r: DayTally)
    ensures r.total == t.total + 1 && r.severities == t.severities + multiset{severity}
    ensures t.total == |t.severities| ==> r.total == |r.severities|
  {
    DayTally(t.total + 1, t.severities + multiset{severity})
  }

  /**
   * The day entry as the code keeps it: one object holding "total" beside
   * the per-severity counts, so that a severity named "total" shares the
   * total's slot.
   */
  function CountIntoAsWritten(entry: map<string, nat>, severity: string): (r: map<string, nat>)
    ensures "total" in r && severity in r
  {
    var counted := entry["total" := (if "total" in entry then entry["total"] else 0) + 1];
    counted[severity := (if severity in counted then counted[severity] else 0) + 1]
  }

  /** A record of severity "total" raises the day's total by two in the code as written, by one in CountInto. */
  lemma TotalSeverityCountedTwice()
    ensures CountIntoAsWritten(map["total" := 0], "total")["total"] == 2
    ensures CountInto(EmptyTally, "total").total == 1
  {
  }

  /** For every other severity the code as written adds exactly one to the total. */
  lemma OtherSeverityCountedOnce(entry: map<string, nat>, severity: string)
    requires severity != "total" && "total" in entry
    ensures CountIntoAsWritten(entry, severity)["total"] == entry["total"] + 1
  {
  }

  function SeveritiesOf(stamps: seq<Stamp>): (r: seq<string>)
    ensures |r| == |stamps|
  {
    if stamps == [] then [] else SeveritiesOf(stamps[..|stamps| - 1]) + [stamps[|stamps| - 1].severity]
  }

  /** The entry a day with exactly these stamps should have. */
  function TallyOf(stamps: seq<Stamp>): (t: DayTally)
    ensures t.total == |t.severities|
  {
    DayTally(|stamps|, multiset(SeveritiesOf(stamps)))
  }

  lemma TallyOfSnoc(stamps: seq<Stamp>, x: Stamp)
    ensures TallyOf(stamps + [x]) == CountInto(TallyOf(stamps), x.severity)
  {
    assert (stamps + [x])[..|stamps|] == stamps;
  }

  // The month Map

  /** A month entry: its year and month and its day entries. */
  datatype MonthAcc = MonthAcc(year: int, month: MonthIndex, days: map<LocalDay, DayTally>)

  /** What the first loop of rebuildCalendar files one stamp into. */
  function AddStamp(months: map<MonthId, MonthAcc>, st: Stamp): (r: map<MonthId, MonthAcc>)
    ensures r.Keys == months.Keys + {MonthIdOf(st)}
    ensures r - {MonthIdOf(st)} == months - {MonthIdOf(st)}
  {
    var mk := MonthIdOf(st);
    var entry := if mk in months then months[mk] else MonthAcc(st.day.year, st.day.month, map[]);
    var tally := if st.day in entry.days then entry.days[st.day] else EmptyTally;
    months[mk := entry.(days := entry.days[st.day := CountInto(tally, st.severity)])]
  }

  /** The Map of months after the stamps, in order. */
  function Accumulate(stamps: seq<Stamp>): map<MonthId, MonthAcc> {
    if stamps == [] then map[]
    else AddStamp(Accumulate(stamps[..|stamps| - 1]), stamps[|stamps| - 1])
  }

  /** One entry per month holding stamps, each for the month it is filed under. */
  lemma {:induction false} AccumulateKeys(stamps: seq<Stamp>)
    ensures forall mk :: mk in Accumulate(stamps) <==> mk in MonthIds(stamps)
    ensures forall mk :: mk in Accumulate(stamps) ==>
      Accumulate(stamps)[mk].year == mk.year && Accumulate(stamps)[mk].month == mk.month
  {
    if stamps != [] {
      AccumulateKeys(stamps[..|stamps| - 1]);
    }
  }

  /** The stamps filed under a month and a day. */
  function AtKeys(mk: MonthId, dk: LocalDay): Stamp -> bool {
    (st: Stamp) => MonthIdOf(st) == mk && st.day == dk
  }

  /** The day entry filed under a month and a day, if any. */
  function Lookup(months: map<MonthId, MonthAcc>, mk: MonthId, dk: LocalDay): Option<DayTally> {
    if mk in months && dk in months[mk].days then Some(months[mk].days[dk]) else None
  }

  /** Filing a stamp changes only the entry under its own keys, which it counts. */
  lemma AddStampLookup(months: map<MonthId, MonthAcc>, st: Stamp, mk: MonthId, dk: LocalDay)
    ensures Lookup(AddStamp(months, st), mk, dk)
      == if mk == MonthIdOf(st) && dk == st.day
         then Some(CountInto(Lookup(months, mk, dk).GetOr(EmptyTally), st.severity))
         else Lookup(months, mk, dk)
  {
  }

  /** What the Map says about one month and one day. */
  ghost predicate DayMeaning(months: map<MonthId, MonthAcc>, stamps: seq<Stamp>, mk: MonthId, dk: LocalDay) {
    match Lookup(months, mk, dk)
    case Some(t) => t == TallyOf(Filter(stamps, AtKeys(mk, dk)))
    case None => Filter(stamps, AtKeys(mk, dk)) == []
  }

  /** A day entry holds exactly the stamps of its day; a day without entry has none. */
  lemma {:induction false} AccumulateDays(stamps: seq<Stamp>, mk: MonthId, dk: LocalDay)
    ensures DayMeaning(Accumulate(stamps), stamps, mk, dk)
  {
    if stamps != [] {
      var init := stamps[..|stamps| - 1];
      var x := stamps[|stamps| - 1];
      assert init + [x] == stamps;
      var p := AtKeys(mk, dk);
      var before := Accumulate(init);
      AccumulateDays(init, mk, dk);
      AddStampLookup(before, x, mk, dk);
      FilterAppend(init, [x], p);
      var here := MonthIdOf(x) == mk && x.day == dk;
      assert p(x) == here;
      if here {
        assert Filter([x], p) == [x];
        TallyOfSnoc(Filter(init, p), x);
        var t := Lookup(before, mk, dk).GetOr(EmptyTally);
        assert t == TallyOf(Filter(init, p));
        assert Lookup(Accumulate(stamps), mk, dk) == Some(CountInto(t, x.severity));
        assert Filter(stamps, p) == Filter(init, p) + [x];
        assert TallyOf(Filter(stamps, p)) == CountInto(t, x.severity);
      } else {
        assert Filter([x], p) == [];
        assert Lookup(Accumulate(stamps), mk, dk) == Lookup(before, mk, dk);
        assert Filter(stamps, p) == Filter(init, p);
      }
    }
  }

  // The months shown

  /** The cell of a day: the day's entry, its date (whose key is dateKey) and its label, the day of the month. */
  datatype DayCell = DayCell(date: LocalDay, day: int, total: nat, severities: multiset<string>)

  /** The dateKey of a cell, as localDateKey writes it. */
  function DateKey(c: DayCell): string {
    DayKey(c.date.year, c.date.month, c.date.day)
  }

  /** One month of the calendar. */
  datatype Month = Month(year: int, month: MonthIndex, startWeekday: int, days: seq<DayCell>)

  function CellOf(e: MonthAcc, day: int): DayCell {
    var date := LocalDay(e.year, e.month, day);
    var t := if date in e.days then e.days[date] else EmptyTally;
    DayCell(date, day, t.total, t.severities)
  }

  /** The cells for days 1 to the last of the month. */
  function Cells(e: MonthAcc): (cells: seq<DayCell>)
    ensures |cells| == DaysInMonth(e.year, e.month)
    ensures forall i :: 0 <= i < |cells| ==> cells[i] == CellOf(e, i + 1)
  {
    seq(DaysInMonth(e.year, e.month), i requires 0 <= i < DaysInMonth(e.year, e.month) => CellOf(e, i + 1))
  }

  /**
   * One month of the calendar: a cell for each day from the 1st to the last,
   * each showing its day's tally, starting on the weekday of the 1st.
   */
  function MonthOf(e: MonthAcc): (m: Month)
    ensures m.year == e.year && m.month == e.month && m.startWeekday == Weekday(e.year, e.month, 1)
    ensures |m.days| == DaysInMonth(e.year, e.month)
    ensures forall i :: 0 <= i < |m.days| ==>
      var date := LocalDay(e.year, e.month, i + 1);
      && m.days[i].date == date && m.days[i].day == i + 1
      && m.days[i].total == (if date in e.days then e.days[date].total else 0)
  {
    Month(e.year, e.month, Weekday(e.year, e.month, 1), Cells(e))
  }

  /**
   * The JavaScript Date constructor reads years 0 to 99 as 1900 to 1999, so
   * as written the cells of such a month are built for another year: their
   * number and their days come from `year + 1900`.
   */
  function CellsAsWritten(e: MonthAcc): (cells: seq<DayCell>)
    ensures |cells| == DaysInMonth(ConstructorYear(e.year), e.month)
  {
    var y := ConstructorYear(e.year);
    seq(DaysInMonth(y, e.month), i requires 0 <= i < DaysInMonth(y, e.month) =>
      var date := LocalDay(y, e.month, i + 1);
      var t := if date in e.days then e.days[date] else EmptyTally;
      DayCell(date, i + 1, t.total, t.severities))
  }

  /**
   * A record on 1 January of year 50 is counted under no cell of
   * CellsAsWritten, whose first key is that of 1 January 1950; Cells shows it.
   */
  lemma EarlyYearDayMissed()
    ensures DayKey(1950, 0, 1) != DayKey(50, 0, 1)
    ensures var e := MonthAcc(50, 0, map[LocalDay(50, 0, 1) := DayTally(1, multiset{"high"})]);
      CellsAsWritten(e)[0].total == 0 && Cells(e)[0].total == 1
  {
    if DayKey(1950, 0, 1) == DayKey(50, 0, 1) {
      DayKeyInjective(LocalDay(1950, 0, 1), LocalDay(50, 0, 1));
    }
  }

  /**
   * One month as written: its cells and the weekday of its 1st both come from
   * the year the Date constructor reads.
   */
  function MonthOfAsWritten(e: MonthAcc): (m: Month)
    ensures m.year == e.year && m.month == e.month
    ensures m.startWeekday == Weekday(ConstructorYear(e.year), e.month, 1)
    ensures m.days == CellsAsWritten(e)
  {
    Month(e.year, e.month, Weekday(ConstructorYear(e.year), e.month, 1), CellsAsWritten(e))
  }

  /** Outside the years 0 to 99 the month as written is the corrected month. */
  lemma AsWrittenMonthAgrees(e: MonthAcc)
    requires !(0 <= e.year <= 99)
    ensures MonthOfAsWritten(e) == MonthOf(e)
  {
  }

  /** The JavaScript comparator on months: by year, then by month. */
  function OldestFirst(): (MonthAcc, MonthAcc) -> bool {
    (a: MonthAcc, b: MonthAcc) => if a.year == b.year then a.month <= b.month else a.year < b.year
  }

  lemma OldestFirstTotal()
    ensures TotalPreorder(OldestFirst())
  {
  }

  function EntriesInOrder(order: seq<MonthId>, months: map<MonthId, MonthAcc>): (r: seq<MonthAcc>)
    requires forall k :: k in order ==> k in months
    ensures |r| == |order| && forall j :: 0 <= j < |order| ==> r[j] == months[order[j]]
  {
    seq(|order|, j requires 0 <= j < |order| => months[order[j]])
  }

  function MonthsOf(entries: seq<MonthAcc>): (r: seq<Month>)
    ensures |r| == |entries| && forall j :: 0 <= j < |entries| ==> r[j] == MonthOf(entries[j])
  {
    if entries == [] then [] else MonthsOf(entries[..|entries| - 1]) + [MonthOf(entries[|entries| - 1])]
  }

  lemma OrderInMap(stamps: seq<Stamp>)
    ensures forall k :: k in FirstSeen(MonthIds(stamps)) ==> k in Accumulate(stamps)
  {
    AccumulateKeys(stamps);
    FirstSeenFacts(MonthIds(stamps));
  }

  /** The month entries in the order the Map lists them, then sorted oldest first. */
  function OrderedEntries(stamps: seq<Stamp>): seq<MonthAcc> {
    OrderInMap(stamps);
    Sort(EntriesInOrder(FirstSeen(MonthIds(stamps)), Accumulate(stamps)), OldestFirst())
  }

  /** rebuildCalendar, as a function of the rows. */
  function CalendarOf(rows: seq<Row>): (r: seq<Month>)
    ensures forall j :: 0 <= j < |r| ==>
      |r[j].days| == DaysInMonth(r[j].year, r[j].month) && r[j].startWeekday == Weekday(r[j].year, r[j].month, 1)
  {
    MonthsOf(OrderedEntries(Stamps(rows)))
  }

  /** The stamps of one more row. */
  lemma StampsSnoc(rows: seq<Row>, i: int)
    requires 0 <= i < |rows|
    ensures Stamps(rows[..i + 1]) == Stamps(rows[..i])
      + (if IsValid(rows[i].timestampDate) then [Stamp(rows[i].timestampDate.value.local, SeverityLabel(rows[i]))] else [])
  {
    assert rows[..i + 1][..i] == rows[..i];
  }

  /** Filing one more stamp: the Map and the order of its keys. */
  lemma AccumulateSnoc(seen: seq<Stamp>, st: Stamp)
    ensures Accumulate(seen + [st]) == AddStamp(Accumulate(seen), st)
    ensures FirstSeen(MonthIds(seen + [st]))
      == if MonthIdOf(st) in Accumulate(seen) then FirstSeen(MonthIds(seen)) else FirstSeen(MonthIds(seen)) + [MonthIdOf(st)]
  {
    assert (seen + [st])[..|seen|] == seen;
    assert MonthIds(seen + [st]) == MonthIds(seen) + [MonthIdOf(st)];
    AccumulateKeys(seen);
    FirstSeenFacts(MonthIds(seen));
    FirstSeenSnoc(MonthIds(seen), MonthIdOf(st));
  }

  /** The inner loop of the corrected rebuildCalendar: one cell per day of the month, in the record's own year. */
  method FillMonth(e: MonthAcc) returns (m: Month)
    ensures m == MonthOf(e)
  {
    var totalDays := DaysInMonth(e.year, e.month);
    var cells: seq<DayCell> := [];
    var day := 1;
    while day <= totalDays
      invariant 1 <= day <= totalDays + 1
      invariant cells == Cells(e)[..day - 1]
    {
      var date := LocalDay(e.year, e.month, day);
      var data := if date in e.days then e.days[date] else EmptyTally;
      assert Cells(e)[..day] == Cells(e)[..day - 1] + [DayCell(date, day, data.total, data.severities)];
      cells := cells + [DayCell(date, day, data.total, data.severities)];
      day := day + 1;
    }
    assert Cells(e)[..totalDays] == Cells(e);
    m := Month(e.year, e.month, Weekday(e.year, e.month, 1), cells);
  }

  /** The first loop of the corrected rebuildCalendar: every row with a valid time filed into the Map of months. */
  method FileRows(rows: seq<Row>) returns (byMonth: map<MonthId, MonthAcc>, order: seq<MonthId>)
    ensures byMonth == Accumulate(Stamps(rows))
    ensures order == FirstSeen(MonthIds(Stamps(rows)))
  {
    byMonth := map[];
    order := [];
    var i := 0;
    while i < |rows|
      invariant 0 <= i <= |rows|
      invariant byMonth == Accumulate(Stamps(rows[..i]))
      invariant order == FirstSeen(MonthIds(Stamps(rows[..i])))
    {
      var ev := rows[i];
      StampsSnoc(rows, i);
      if ev.timestampDate.Some? && ev.timestampDate.value.Valid? {
        var st := Stamp(ev.timestampDate.value.local, SeverityLabel(ev));
        assert Stamps(rows[..i + 1]) == Stamps(rows[..i]) + [st];
        AccumulateSnoc(Stamps(rows[..i]), st);
        var monthKey := MonthIdOf(st);
        if monthKey !in byMonth {
          order := order + [monthKey];
        }
        byMonth := AddStamp(byMonth, st);
      } else {
        assert Stamps(rows[..i + 1]) == Stamps(rows[..i]) + [];
        assert Stamps(rows[..i]) + [] == Stamps(rows[..i]);
      }
      i := i + 1;
    }
    assert rows[..i] == rows;
  }

  /** The second loop of the corrected rebuildCalendar: each sorted month expanded into its days. */
  method FillMonths(entries: seq<MonthAcc>) returns (months: seq<Month>)
    ensures months == MonthsOf(entries)
  {
    months := [];
    var j := 0;
    while j < |entries|
      invariant 0 <= j <= |entries|
      invariant months == MonthsOf(entries[..j])
    {
      var m := FillMonth(entries[j]);
      assert entries[..j + 1][..j] == entries[..j];
      months := months + [m];
      j := j + 1;
    }
    assert entries[..j] == entries;
  }

  /** The corrected rebuildCalendar: the Map filled row by row, its months sorted and each expanded into its days. */
  method RebuildCalendar(rows: seq<Row>) returns (months: seq<Month>)
    ensures months == CalendarOf(rows)
  {
    var byMonth, order := FileRows(rows);
    OrderInMap(Stamps(rows));
    months := FillMonths(Sort(EntriesInOrder(order, byMonth), OldestFirst()));
  }

  // What the calendar shows

  /** The stamps of one calendar day. */
  function OnDay(d: LocalDay): Stamp -> bool {
    (st: Stamp) => st.day == d
  }

  /** A day's own month and the day pick out exactly the stamps of that day. */
  lemma KeysSelectDay(stamps: seq<Stamp>, d: LocalDay)
    requires 0 <= d.month < 12
    ensures Filter(stamps, AtKeys(MonthId(d.year, d.month), d)) == Filter(stamps, OnDay(d))
  {
    FilterAgree(stamps, AtKeys(MonthId(d.year, d.month), d), OnDay(d));
  }

  /** Every cell of an entry of the Map counts exactly the stamps of its day, by severity. */
  lemma CellsCountDays(stamps: seq<Stamp>, mk: MonthId)
    requires mk in Accumulate(stamps)
    ensures var e := Accumulate(stamps)[mk];
      forall i :: 0 <= i < |Cells(e)| ==>
        var c := Cells(e)[i];
        var onDay := Filter(stamps, OnDay(LocalDay(e.year, e.month, i + 1)));
        c.date == LocalDay(e.year, e.month, i + 1) && c.day == i + 1
        && c.total == |onDay| && c.severities == multiset(SeveritiesOf(onDay))
  {
    var e := Accumulate(stamps)[mk];
    AccumulateKeys(stamps);
    forall i | 0 <= i < |Cells(e)|
      ensures var c := Cells(e)[i];
        var onDay := Filter(stamps, OnDay(LocalDay(e.year, e.month, i + 1)));
        c.total == |onDay| && c.severities == multiset(SeveritiesOf(onDay))
    {
      var d := LocalDay(e.year, e.month, i + 1);
      AccumulateDays(stamps, mk, d);
      KeysSelectDay(stamps, d);
    }
  }

  lemma {:induction false} MonthIdsAt(stamps: seq<Stamp>, i: int)
    requires 0 <= i < |stamps|
    ensures MonthIds(stamps)[i] == MonthIdOf(stamps[i])
  {
    if i < |stamps| - 1 {
      MonthIdsAt(stamps[..|stamps| - 1], i);
    }
  }

  lemma MonthIdsMembers(stamps: seq<Stamp>)
    ensures forall mk :: mk in MonthIds(stamps) <==> exists st :: st in stamps && MonthIdOf(st) == mk
  {
    forall mk ensures mk in MonthIds(stamps) <==> exists st :: st in stamps && MonthIdOf(st) == mk {
      if mk in MonthIds(stamps) {
        var i :| 0 <= i < |stamps| && MonthIds(stamps)[i] == mk;
        MonthIdsAt(stamps, i);
        assert stamps[i] in stamps;
      } else {
        forall st | st in stamps ensures MonthIdOf(st) != mk {
          var i :| 0 <= i < |stamps| && stamps[i] == st;
          MonthIdsAt(stamps, i);
        }
      }
    }
  }

  /** The month each entry is for. */
  function EntryIds(entries: seq<MonthAcc>): (r: seq<MonthId>)
    ensures |r| == |entries| && forall j :: 0 <= j < |entries| ==> r[j] == MonthId(entries[j].year, entries[j].month)
  {
    seq(|entries|, j requires 0 <= j < |entries| => MonthId(entries[j].year, entries[j].month))
  }

  /** Strictly earlier: an earlier year, or the same year and an earlier month. */
  predicate Earlier(a: MonthId, b: MonthId) {
    a.year < b.year || (a.year == b.year && a.month < b.month)
  }

  /** The entries in Map order: one per month holding stamps, each month once. */
  lemma ListedMonths(stamps: seq<Stamp>)
    ensures forall k :: k in FirstSeen(MonthIds(stamps)) ==> k in Accumulate(stamps)
    ensures var ids := EntryIds(EntriesInOrder(FirstSeen(MonthIds(stamps)), Accumulate(stamps)));
      ids == FirstSeen(MonthIds(stamps))
  {
    OrderInMap(stamps);
    AccumulateKeys(stamps);
    var order := FirstSeen(MonthIds(stamps));
    FirstSeenFacts(MonthIds(stamps));
    var ids := EntryIds(EntriesInOrder(order, Accumulate(stamps)));
    assert forall k :: 0 <= k < |order| ==> ids[k] == order[k];
  }

  /** Sorting entries for distinct months oldest first keeps their months and orders them strictly. */
  lemma SortedMonths(listed: seq<MonthAcc>, sorted: seq<MonthAcc>)
    requires multiset(sorted) == multiset(listed)
    requires SortedBy(sorted, OldestFirst())
    requires Distinct(EntryIds(listed))
    ensures forall mk :: mk in EntryIds(sorted) <==> mk in EntryIds(listed)
    ensures forall i, j :: 0 <= i < j < |sorted| ==> Earlier(EntryIds(sorted)[i], EntryIds(sorted)[j])
  {
    var ids := EntryIds(listed);
    forall mk ensures mk in EntryIds(sorted) <==> mk in ids {
      if mk in EntryIds(sorted) {
        var j :| 0 <= j < |sorted| && EntryIds(sorted)[j] == mk;
        assert sorted[j] in multiset(listed);
        var k :| 0 <= k < |listed| && listed[k] == sorted[j];
        assert ids[k] == mk;
      }
      if mk in ids {
        var k :| 0 <= k < |listed| && ids[k] == mk;
        assert listed[k] in multiset(sorted);
        var j :| 0 <= j < |sorted| && sorted[j] == listed[k];
        assert EntryIds(sorted)[j] == mk;
      }
    }
    forall i, j | 0 <= i < j < |sorted|
      ensures Earlier(EntryIds(sorted)[i], EntryIds(sorted)[j])
    {
      assert OldestFirst()(sorted[i], sorted[j]);
      SameMonthSameIndex(listed, sorted, i, j);
    }
  }

  /** A permutation of entries for distinct months again has distinct months. */
  lemma SameMonthSameIndex(listed: seq<MonthAcc>, sorted: seq<MonthAcc>, i: int, j: int)
    requires multiset(sorted) == multiset(listed)
    requires Distinct(EntryIds(listed))
    requires 0 <= i < j < |sorted|
    ensures EntryIds(sorted)[i] != EntryIds(sorted)[j]
  {
    assert Distinct(listed) by {
      forall k, l | 0 <= k < l < |listed| ensures listed[k] != listed[l] {
        assert EntryIds(listed)[k] != EntryIds(listed)[l];
      }
    }
    DistinctPermutation(listed, sorted);
    assert sorted[i] in multiset(listed) && sorted[j] in multiset(listed);
    var k :| 0 <= k < |listed| && listed[k] == sorted[i];
    var l :| 0 <= l < |listed| && listed[l] == sorted[j];
    assert k != l;
    if k < l {
      assert EntryIds(listed)[k] != EntryIds(listed)[l];
    } else {
      assert EntryIds(listed)[l] != EntryIds(listed)[k];
    }
  }

  /**
   * The months shown are exactly the months holding stamps, each once,
   * strictly oldest first.
   */
  lemma CalendarMonths(rows: seq<Row>)
    ensures var shown := CalendarOf(rows); var ids := EntryIds(OrderedEntries(Stamps(rows)));
      && |shown| == |ids|
      && (forall j :: 0 <= j < |shown| ==> MonthId(shown[j].year, shown[j].month) == ids[j])
      && (forall mk :: mk in ids <==> mk in MonthIds(Stamps(rows)))
      && (forall i, j :: 0 <= i < j < |ids| ==> Earlier(ids[i], ids[j]))
  {
    OrderedMonths(Stamps(rows));
  }

  /** The sorted entries name each month holding stamps once, strictly oldest first. */
  lemma OrderedMonths(stamps: seq<Stamp>)
    ensures var ids := EntryIds(OrderedEntries(stamps));
      && (forall mk :: mk in ids <==> mk in MonthIds(stamps))
      && (forall i, j :: 0 <= i < j < |ids| ==> Earlier(ids[i], ids[j]))
  {
    ListedMonths(stamps);
    FirstSeenFacts(MonthIds(stamps));
    var listed := EntriesInOrder(FirstSeen(MonthIds(stamps)), Accumulate(stamps));
    var sorted := Sort(listed, OldestFirst());
    assert sorted == OrderedEntries(stamps);
    OldestFirstTotal();
    SortIsSorted(listed, OldestFirst());
    SortedMonths(listed, sorted);
  }

  /**
   * Each month shows every day from the 1st to its last, starting on the
   * weekday of the 1st; each cell counts the stamps of its day and holds
   * their severities, so the severity counts add up to the total and a day
   * without stamps shows 0.
   */
  lemma CalendarDays(rows: seq<Row>, j: int)
    requires 0 <= j < |CalendarOf(rows)|
    ensures var m := CalendarOf(rows)[j];
      && |m.days| == DaysInMonth(m.year, m.month)
      && m.startWeekday == Weekday(m.year, m.month, 1)
      && forall i :: 0 <= i < |m.days| ==>
        var onDay := Filter(Stamps(rows), OnDay(LocalDay(m.year, m.month, i + 1)));
        && m.days[i].date == LocalDay(m.year, m.month, i + 1) && m.days[i].day == i + 1
        && m.days[i].total == |onDay| == |m.days[i].severities|
        && m.days[i].severities == multiset(SeveritiesOf(onDay))
  {
    var stamps := Stamps(rows);
    var sorted := OrderedEntries(stamps);
    assert CalendarOf(rows)[j] == MonthOf(sorted[j]);
    var mk := SortedEntryKey(stamps, j);
    MonthDays(stamps, mk);
  }

  /** Every sorted month entry is the Map's entry for one of its keys. */
  lemma SortedEntryKey(stamps: seq<Stamp>, j: int) returns (mk: MonthId)
    requires 0 <= j < |OrderedEntries(stamps)|
    ensures mk in Accumulate(stamps) && OrderedEntries(stamps)[j] == Accumulate(stamps)[mk]
  {
    OrderInMap(stamps);
    var order := FirstSeen(MonthIds(stamps));
    var listed := EntriesInOrder(order, Accumulate(stamps));
    var sorted := OrderedEntries(stamps);
    assert sorted[j] in multiset(listed);
    var k :| 0 <= k < |listed| && listed[k] == sorted[j];
    mk := order[k];
  }

  /** The month built from the Map's entry for mk, stated over the stamps. */
  lemma MonthDays(stamps: seq<Stamp>, mk: MonthId)
    requires mk in Accumulate(stamps)
    ensures var m := MonthOf(Accumulate(stamps)[mk]);
      && |m.days| == DaysInMonth(m.year, m.month)
      && m.startWeekday == Weekday(m.year, m.month, 1)
      && forall i :: 0 <= i < |m.days| ==>
        var onDay := Filter(stamps, OnDay(LocalDay(m.year, m.month, i + 1)));
        && m.days[i].date == LocalDay(m.year, m.month, i + 1) && m.days[i].day == i + 1
        && m.days[i].total == |onDay| == |m.days[i].severities|
        && m.days[i].severities == multiset(SeveritiesOf(onDay))
  {
    CellsCountDays(stamps, mk);
  }

  // Month totals

  /** The stamps of one month. */
  function InMonth(year: int, month: int): Stamp -> bool {
    (st: Stamp) => st.day.year == year && st.day.month == month
  }

  /** The records whose valid observed time falls in one month of the viewer's calendar. */
  function ObservedIn(year: int, month: int): Row -> bool {
    (r: Row) => IsValid(r.timestampDate)
      && r.timestampDate.value.local.year == year && r.timestampDate.value.local.month == month
  }

  /** The sum of the day totals of some cells. */
  function TotalOfCells(cells: seq<DayCell>): nat {
    if cells == [] then 0 else TotalOfCells(cells[..|cells| - 1]) + cells[|cells| - 1].total
  }

  /** The number of stamps on days 1 to k of a month. */
  function DaysCount(stamps: seq<Stamp>, year: int, month: int, k: nat): nat {
    if k == 0 then 0
    else DaysCount(stamps, year, month, k - 1) + |Filter(stamps, OnDay(LocalDay(year, month, k)))|
  }

  lemma {:induction false} DaysCountEmpty(year: int, month: int, k: nat)
    ensures DaysCount([], year, month, k) == 0
  {
    if k > 0 {
      DaysCountEmpty(year, month, k - 1);
    }
  }

  /** One more stamp adds one to the count of days 1 to k exactly when it lies on one of them. */
  lemma {:induction false} DaysCountSnoc(stamps: seq<Stamp>, x: Stamp, year: int, month: int, k: nat)
    ensures DaysCount(stamps + [x], year, month, k)
      == DaysCount(stamps, year, month, k) + (if InMonth(year, month)(x) && x.day.day <= k then 1 else 0)
  {
    if k > 0 {
      DaysCountSnoc(stamps, x, year, month, k - 1);
      var p := OnDay(LocalDay(year, month, k));
      FilterAppend(stamps, [x], p);
      assert Filter([x], p) == if p(x) then [x] else [];
    }
  }

  /** Every stamp of a month lies on one of its days, so the day counts add up to the month's. */
  lemma {:induction false} DaysCountIsMonthCount(stamps: seq<Stamp>, year: int, month: MonthIndex)
    ensures DaysCount(stamps, year, month, DaysInMonth(year, month)) == |Filter(stamps, InMonth(year, month))|
  {
    if stamps == [] {
      DaysCountEmpty(year, month, DaysInMonth(year, month));
    } else {
      var init := stamps[..|stamps| - 1];
      var x := stamps[|stamps| - 1];
      assert init + [x] == stamps;
      DaysCountIsMonthCount(init, year, month);
      DaysCountSnoc(init, x, year, month, DaysInMonth(year, month));
      FilterAppend(init, [x], InMonth(year, month));
      assert Filter([x], InMonth(year, month)) == if InMonth(year, month)(x) then [x] else [];
    }
  }

  /** Cells that count the stamps of days 1, 2, ... sum to the stamps of their first k days. */
  lemma {:induction false} CellsTotal(cells: seq<DayCell>, stamps: seq<Stamp>, year: int, month: int, k: nat)
    requires k <= |cells|
    requires forall i :: 0 <= i < |cells| ==> cells[i].total == |Filter(stamps, OnDay(LocalDay(year, month, i + 1)))|
    ensures TotalOfCells(cells[..k]) == DaysCount(stamps, year, month, k)
  {
    if k > 0 {
      CellsTotal(cells, stamps, year, month, k - 1);
      assert cells[..k][..k - 1] == cells[..k - 1];
    }
  }

  /** A month's stamps are its records with a valid observed time. */
  lemma {:induction false} StampsInMonth(rows: seq<Row>, year: int, month: int)
    ensures |Filter(Stamps(rows), InMonth(year, month))| == |Filter(rows, ObservedIn(year, month))|
  {
    if rows != [] {
      var init := rows[..|rows| - 1];
      var x := rows[|rows| - 1];
      assert init + [x] == rows;
      StampsInMonth(init, year, month);
      var tail := if IsValid(x.timestampDate) then [Stamp(x.timestampDate.value.local, SeverityLabel(x))] else [];
      assert Stamps(rows) == Stamps(init) + tail;
      FilterAppend(Stamps(init), tail, InMonth(year, month));
      FilterAppend(init, [x], ObservedIn(year, month));
      assert Filter([x], ObservedIn(year, month)) == if ObservedIn(year, month)(x) then [x] else [];
      assert |Filter(tail, InMonth(year, month))| == if ObservedIn(year, month)(x) then 1 else 0;
    }
  }

  /**
   * The day totals of a month add up to the number of records whose valid
   * observed time falls in that month.
   */
  lemma MonthTotal(rows: seq<Row>, j: int)
    requires 0 <= j < |CalendarOf(rows)|
    ensures var m := CalendarOf(rows)[j];
      && TotalOfCells(m.days) == |Filter(Stamps(rows), InMonth(m.year, m.month))|
      && TotalOfCells(m.days) == |Filter(rows, ObservedIn(m.year, m.month))|
  {
    var m := CalendarOf(rows)[j];
    CalendarDays(rows, j);
    CellsTotal(m.days, Stamps(rows), m.year, m.month, |m.days|);
    assert m.days[..|m.days|] == m.days;
    DaysCountIsMonthCount(Stamps(rows), m.year, m.month);
    StampsInMonth(rows, m.year, m.month);
  }

  /**
   * Clicking a cell sets the day filter to its dateKey; a decorated row
   * passes that filter exactly when its observed time falls on the cell's day.
   */
  lemma DayFilterSelectsCell(ev: RawEvidence, parse: string -> JsDate, c: DayCell)
    requires IsCalendarDay(c.date)
    ensures var r := Decorate(ev, parse);
      r.localDate == Some(DateKey(c)) <==> IsValid(r.timestampDate) && r.timestampDate.value.local == c.date
  {
    var r := Decorate(ev, parse);
    if r.timestampDate.Some? {
      match r.timestampDate.value
      case Invalid =>
        InvalidKeyIsNoDay(c.date);
      case Valid(_, d) =>
        if DayKey(d.year, d.month, d.day) == DateKey(c) {
          DayKeyInjective(d, c.date);
        }
    }
  }

  // Tone and month navigation

  /** The severities deriveCalendarTone looks for, in order of precedence. */
  const ToneOrder: seq<string> := ["critical", "high", "medium", "low"]

  /**
   * deriveCalendarTone: the palette of the first of critical, high, medium
   * and low the day has a record of; None for the muted tone.
   */
  function Tone(c: DayCell): (r: Option<string>)
    ensures r.Some? ==> r.value in ToneOrder && c.severities[r.value] > 0
    ensures r.Some? ==> forall k :: 0 <= k < |ToneOrder| && ToneOrder[k] == r.value ==>
      forall l :: 0 <= l < k ==> c.severities[ToneOrder[l]] == 0
    ensures r.None? <==> forall k :: 0 <= k < |ToneOrder| ==> c.severities[ToneOrder[k]] == 0
  {
    if c.severities["critical"] > 0 then Some("critical")
    else if c.severities["high"] > 0 then Some("high")
    else if c.severities["medium"] > 0 then Some("medium")
    else if c.severities["low"] > 0 then Some("low")
    else None
  }

  /** A day without records shows the muted tone. */
  lemma EmptyDayMuted(c: DayCell)
    requires c.total == |c.severities| && c.total == 0
    ensures Tone(c).None?
  {
  }

  /** renderCalendar: `min(max(index, 0), length - 1)`. */
  function ClampIndex(index: int, length: nat): (r: int)
    requires length > 0
    ensures 0 <= r < length
    ensures 0 <= index < length ==> r == index
    ensures index < 0 ==> r == 0
    ensures index >= length ==> r == length - 1
  {
    var low := if index > 0 then index else 0;
    if low < length - 1 then low else length - 1
  }

  /** The previous-month button: `max(index - 1, 0)`. */
  function PreviousIndex(index: int): (r: int)
    ensures r >= 0
    ensures index >= 1 ==> r == index - 1
    ensures index < 1 ==> r == 0
  {
    if index - 1 > 0 then index - 1 else 0
  }

  /** The next-month button: `min(index + 1, length - 1)`, which is -1 when there are no months. */
  function NextIndex(index: int, length: nat): (r: int)
    ensures r <= length - 1
    ensures index + 1 <= length - 1 ==> r == index + 1
    ensures index + 1 > length - 1 ==> r == length - 1
  {
    if index + 1 < length - 1 then index + 1 else length - 1
  }
}

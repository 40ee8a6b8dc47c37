/**
 * The browser's view of an evidence: the payload record as it arrives
 * (RawEvidence), the decorated record decorateEvidences builds from it (Row),
 * and the time-difference column (getTimeDiffSeconds and formatTimeDiff).
 * `new Date(text)` is the parameter `parse`; numbers are integers here.
 */
module Records {
  import opened Wrappers
  import opened Strings
  import opened Sequences
  import opened Dates
  import opened Indicators

  /** A JavaScript number: a finite value, or NaN and the infinities. */
  datatype JsNumber = Finite(value: int) | NonFinite

  /**
   * The fields of a payload evidence the client reads. None is an absent or
   * null field, or one of another JavaScript type than the one shown.
   */
  datatype RawEvidence = RawEvidence(
    timestamp: Option<string>,
    validFrom: Option<string>,
    created: Option<string>,
    modified: Option<string>,
    timeDiffSeconds: Option<JsNumber>,
    severity: Option<string>,
    severityRank: int,
    profileIp: Option<string>,
    victim: Option<string>,
    name: Option<string>,
    tiSource: Option<string>,
    srcPort: Option<int>,
    dstPort: Option<int>)

  /** A decorated evidence: the raw record with the fields decorateEvidences adds or replaces. */
  datatype Row = Row(
    raw: RawEvidence,
    timestamp: Option<string>,
    timestampDate: Option<JsDate>,
    createdDate: Option<JsDate>,
    modifiedDate: Option<JsDate>,
    timeDiffSeconds: Option<JsNumber>,
    localDate: Option<string>)

  /** `text ? new Date(text) : null`. */
  function DateOf(text: Option<string>, parse: string -> JsDate): (r: Option<JsDate>)
    ensures r.Some? <==> Truthy(text)
    ensures r.Some? ==> r.value == parse(text.value)
  {
    if Truthy(text) then Some(parse(text.value)) else None
  }

  predicate IsValid(d: Option<JsDate>) {
    d.Some? && d.value.Valid?
  }

  /** A record whose observed time is a valid date. */
  predicate HasValidTimestamp(r: Row) {
    IsValid(r.timestampDate)
  }

  function Abs(x: int): nat {
    if x < 0 then -x else x
  }

  /** Math.round(ms / 1000) for a non-negative ms: the nearest whole second, halves rounded up. */
  function RoundSeconds(ms: nat): (r: nat)
    ensures 1000 * r - 500 <= ms < 1000 * r + 500
  {
    (ms + 500) / 1000
  }

  /** The whole seconds between two valid dates. */
  function SecondsBetween(a: JsDate, b: JsDate): nat
    requires a.Valid? && b.Valid?
  {
    RoundSeconds(Abs(a.ms - b.ms))
  }

  /** A payload time_diff_seconds that is a finite number. */
  predicate HasFiniteDiff(ev: RawEvidence) {
    ev.timeDiffSeconds.Some? && ev.timeDiffSeconds.value.Finite?
  }

  /** decorateEvidences on one record. */
  function Decorate(ev: RawEvidence, parse: string -> JsDate): (r: Row)
    ensures r.raw == ev
    ensures r.timestamp == Or(Or(ev.timestamp, ev.validFrom), ev.created)
    ensures r.timestampDate == DateOf(r.timestamp, parse)
    ensures r.createdDate == DateOf(ev.created, parse) && r.modifiedDate == DateOf(ev.modified, parse)
    ensures r.localDate.Some? <==> r.timestampDate.Some?
    ensures r.localDate.Some? ==> r.localDate.value == LocalDateKey(r.timestampDate.value)
    ensures HasFiniteDiff(ev) ==> r.timeDiffSeconds == ev.timeDiffSeconds
    ensures !HasFiniteDiff(ev) && IsValid(r.createdDate) && IsValid(r.timestampDate) ==>
      r.timeDiffSeconds == Some(Finite(SecondsBetween(r.createdDate.value, r.timestampDate.value)))
  {
    var ts := Or(Or(ev.timestamp, ev.validFrom), ev.created);
    var tsDate := DateOf(ts, parse);
    var createdDate := DateOf(ev.created, parse);
    var diff :=
      if HasFiniteDiff(ev) then ev.timeDiffSeconds
      else if createdDate.Some? && tsDate.Some? then
        (if createdDate.value.Valid? && tsDate.value.Valid?
         then Some(Finite(SecondsBetween(createdDate.value, tsDate.value)))
         else Some(NonFinite))
      else None;
    Row(ev, ts, tsDate, createdDate, DateOf(ev.modified, parse), diff,
        if tsDate.Some? then Some(LocalDateKey(tsDate.value)) else None)
  }

  /** The timestamp a row is placed at is the first truthy of timestamp, valid_from and created. */
  lemma DecoratedTimestamp(ev: RawEvidence, parse: string -> JsDate)
    ensures var r := Decorate(ev, parse);
      && (Truthy(ev.timestamp) ==> r.timestampDate == Some(parse(ev.timestamp.value)))
      && (!Truthy(ev.timestamp) && Truthy(ev.validFrom) ==> r.timestampDate == Some(parse(ev.validFrom.value)))
      && (!Truthy(ev.timestamp) && !Truthy(ev.validFrom) && Truthy(ev.created) ==> r.timestampDate == Some(parse(ev.created.value)))
      && (!Truthy(ev.timestamp) && !Truthy(ev.validFrom) && !Truthy(ev.created) ==> r.timestampDate == None && r.localDate == None)
  {
  }

  /**
   * A decorated row read back as a payload record: the spread keeps the
   * record's fields, with timestamp and time_diff_seconds replaced by the
   * decorated ones.
   */
  function Redecorated(r: Row): RawEvidence {
    r.raw.(timestamp := r.timestamp, timeDiffSeconds := r.timeDiffSeconds)
  }

  /** Decorating a decorated row again changes none of the derived fields. */
  lemma DecorateIdempotent(ev: RawEvidence, parse: string -> JsDate)
    ensures var r := Decorate(ev, parse); var again := Decorate(Redecorated(r), parse);
      && again.timestamp == r.timestamp && again.timestampDate == r.timestampDate
      && again.createdDate == r.createdDate && again.modifiedDate == r.modifiedDate
      && again.timeDiffSeconds == r.timeDiffSeconds && again.localDate == r.localDate
  {
  }

  /** decorateEvidences: one row per record, in order. */
  function DecorateAll(raws: seq<RawEvidence>, parse: string -> JsDate): (rows: seq<Row>)
    ensures |rows| == |raws|
    ensures forall i :: 0 <= i < |raws| ==> rows[i] == Decorate(raws[i], parse)
  {
    seq(|raws|, i requires 0 <= i < |raws| => Decorate(raws[i], parse))
  }

  /** getTimeDiffSeconds: a finite stored value, else the distance between valid created and observed dates. */
  function TimeDiffSeconds(row: Row): (r: Option<int>)
    ensures row.timeDiffSeconds.Some? && row.timeDiffSeconds.value.Finite? ==> r == Some(row.timeDiffSeconds.value.value)
    ensures r.None? ==> !IsValid(row.createdDate) || !IsValid(row.timestampDate)
  {
    if row.timeDiffSeconds.Some? && row.timeDiffSeconds.value.Finite? then Some(row.timeDiffSeconds.value.value)
    else if IsValid(row.createdDate) && IsValid(row.timestampDate) then
      Some(SecondsBetween(row.createdDate.value, row.timestampDate.value))
    else None
  }

  /**
   * On a decorated row the column shows the payload's finite value, else the
   * distance between created and the observed time when both parse, else
   * nothing; the NaN decorateEvidences stores for an unparsable date is never shown.
   */
  lemma DecoratedTimeDiff(ev: RawEvidence, parse: string -> JsDate)
    ensures var r := Decorate(ev, parse);
      TimeDiffSeconds(r) ==
        if HasFiniteDiff(ev) then Some(ev.timeDiffSeconds.value.value)
        else if IsValid(r.createdDate) && IsValid(r.timestampDate) then
          Some(SecondsBetween(r.createdDate.value, r.timestampDate.value))
        else None
  {
  }

  // formatTimeDiff

  type Positive = n: int | n > 0 witness 1

  datatype TimeUnit = TimeUnit(suffix: string, value: Positive)

  /** Days, hours, minutes and seconds, largest first. */
  const Units: seq<TimeUnit> := [TimeUnit("d", 86400), TimeUnit("h", 3600), TimeUnit("m", 60), TimeUnit("s", 1)]

  /** `${count}${label}`: one component of the rendered difference. */
  datatype Part = Part(count: int, unit: TimeUnit)

  /** The components formatTimeDiff pushes for `remaining`, going through `units` in order. */
  function Decompose(units: seq<TimeUnit>, remaining: int): seq<Part> {
    if units == [] then []
    else
      var u := units[0];
      if remaining >= u.value then [Part(remaining / u.value, u)] + Decompose(units[1..], remaining % u.value)
      else Decompose(units[1..], remaining)
  }

  /** The seconds a list of components stands for. */
  function Total(parts: seq<Part>): int {
    if parts == [] then 0 else parts[0].count * parts[0].unit.value + Total(parts[1..])
  }

  function UnitsOf(parts: seq<Part>): seq<TimeUnit> {
    if parts == [] then [] else [parts[0].unit] + UnitsOf(parts[1..])
  }

  function PartText(p: Part): string {
    IntToString(p.count) + p.unit.suffix
  }

  function PartTexts(parts: seq<Part>): (r: seq<string>)
    ensures |r| == |parts|
  {
    if parts == [] then [] else [PartText(parts[0])] + PartTexts(parts[1..])
  }

  /** `parts.slice(0, 2).join(" ") || "0s"`. */
  function Render(parts: seq<Part>): string {
    var shown := Join(PartTexts(parts[..if |parts| < 2 then |parts| else 2]), " ");
    if shown == "" then "0s" else shown
  }

  /** The text formatTimeDiff shows for a number of seconds (None when there is none). */
  function TimeDiffText(seconds: Option<int>): string {
    match seconds
    case None => "—"
    case Some(s) => if s == 0 then "0s" else Render(Decompose(Units, s))
  }

  /** A component when its count is not zero. */
  function Present(p: Part): seq<Part> {
    if p.count > 0 then [p] else []
  }

  /**
   * The textbook breakdown of a duration: whole days, then the hours, minutes
   * and seconds of what is left over.
   */
  function Breakdown(s: int): seq<Part> {
    Present(Part(s / 86400, Units[0])) + Present(Part(s % 86400 / 3600, Units[1]))
      + Present(Part(s % 3600 / 60, Units[2])) + Present(Part(s % 60, Units[3]))
  }

  /** One round of the loop: the component for the first unit, if any, then the rest on the remainder. */
  lemma DecomposeStep(units: seq<TimeUnit>, r: int)
    requires units != [] && r >= 0
    ensures Decompose(units, r)
      == Present(Part(r / units[0].value, units[0])) + Decompose(units[1..], r % units[0].value)
  {
    var u := units[0].value;
    if r < u {
      assert r / u == 0 && r % u == r;
    } else {
      assert r / u >= 1;
    }
  }

  /**
   * The greedy loop of formatTimeDiff computes the textbook breakdown: for
   * a non-negative number of seconds the components it pushes are exactly
   * the non-zero ones of days, hours, minutes and seconds.
   */
  lemma DecomposeIsBreakdown(s: int)
    requires s >= 0
    ensures Decompose(Units, s) == Breakdown(s)
  {
    DecomposeStep(Units, s);
    DecomposeHours(s % 86400);
    NestedRemainders(s);
  }

  /** The loop from the hours on: hours, minutes and seconds of r. */
  lemma DecomposeHours(r: int)
    requires r >= 0
    ensures Decompose(Units[1..], r)
      == Present(Part(r / 3600, Units[1])) + Present(Part(r % 3600 / 60, Units[2])) + Present(Part(r % 3600 % 60, Units[3]))
  {
    DecomposeStep(Units[1..], r);
    assert Units[1..][0] == Units[1] && Units[1..][1..] == Units[2..];
    DecomposeMinutes(r % 3600);
  }

  /** The loop from the minutes on: minutes and seconds of r. */
  lemma DecomposeMinutes(r: int)
    requires r >= 0
    ensures Decompose(Units[2..], r) == Present(Part(r / 60, Units[2])) + Present(Part(r % 60, Units[3]))
  {
    DecomposeStep(Units[2..], r);
    assert Units[2..][0] == Units[2] && Units[2..][1..] == Units[3..];
    DecomposeStep(Units[3..], r % 60);
    assert Units[3..][0] == Units[3] && Units[3..][1..] == [];
    assert r % 60 / 1 == r % 60 && r % 60 % 1 == 0;
  }

  lemma ShiftMod3600(x: int, t: int)
    ensures (3600 * t + x) % 3600 == x % 3600
  {
  }

  lemma ShiftMod60(x: int, t: int)
    ensures (60 * t + x) % 60 == x % 60
  {
  }

  /** Each unit divides the one before it, so the remainders nest. */
  lemma NestedRemainders(s: int)
    requires s >= 0
    ensures s % 86400 % 3600 == s % 3600 && s % 3600 % 60 == s % 60
    ensures s % 60 % 1 == 0 && s % 60 / 1 == s % 60
  {
    assert s == 3600 * (24 * (s / 86400)) + s % 86400;
    ShiftMod3600(s % 86400, 24 * (s / 86400));
    assert s == 60 * (60 * (s / 3600)) + s % 3600;
    ShiftMod60(s % 3600, 60 * (s / 3600));
  }

  /** Days, hours, minutes and seconds of s, weighted by their units, add up to s. */
  lemma Recombine(s: int)
    requires s >= 0
    ensures s == 86400 * (s / 86400) + 3600 * (s % 86400 / 3600) + 60 * (s % 3600 / 60) + s % 60
  {
    NestedRemainders(s);
    assert s % 86400 == 3600 * (s % 86400 / 3600) + s % 86400 % 3600;
    assert s % 3600 == 60 * (s % 3600 / 60) + s % 3600 % 60;
  }

  /** Only components with a positive count are kept. */
  lemma BreakdownCounts(s: int)
    ensures forall i :: 0 <= i < |Breakdown(s)| ==> Breakdown(s)[i].count >= 1
  {
    forall i | 0 <= i < |Breakdown(s)| ensures Breakdown(s)[i].count >= 1 {
      assert Breakdown(s)[i] in Breakdown(s);
    }
  }

  /** The breakdown adds back up to the duration, with hours below 24 and minutes and seconds below 60. */
  lemma BreakdownRecombines(s: int)
    requires s >= 0
    ensures Total(Breakdown(s)) == s
    ensures forall i :: 0 <= i < |Breakdown(s)| ==> Breakdown(s)[i].count >= 1
    ensures s % 86400 / 3600 < 24 && s % 3600 / 60 < 60 && s % 60 < 60
  {
    var d, h, m, x := s / 86400, s % 86400 / 3600, s % 3600 / 60, s % 60;
    Recombine(s);
    BreakdownCounts(s);
    var p0, p1, p2, p3 := Present(Part(d, Units[0])), Present(Part(h, Units[1])), Present(Part(m, Units[2])), Present(Part(x, Units[3]));
    assert Total(p0) == 86400 * d by { TotalPresent(Part(d, Units[0])); }
    assert Total(p1) == 3600 * h by { TotalPresent(Part(h, Units[1])); }
    assert Total(p2) == 60 * m by { TotalPresent(Part(m, Units[2])); }
    assert Total(p3) == x by { TotalPresent(Part(x, Units[3])); }
    TotalAppend(p0, p1);
    TotalAppend(p0 + p1, p2);
    TotalAppend(p0 + p1 + p2, p3);
  }

  lemma TotalPresent(p: Part)
    ensures Total(Present(p)) == p.count * p.unit.value || (p.count <= 0 && Total(Present(p)) == 0)
  {
    if p.count > 0 {
      assert Present(p)[1..] == [];
    }
  }

  lemma {:induction false} TotalAppend(a: seq<Part>, b: seq<Part>)
    ensures Total(a + b) == Total(a) + Total(b)
  {
    if a != [] {
      assert (a + b)[0] == a[0];
      assert (a + b)[1..] == a[1..] + b;
      TotalAppend(a[1..], b);
    } else {
      assert a + b == b;
    }
  }

  lemma {:induction false} DecomposeNegative(units: seq<TimeUnit>, r: int)
    requires r < 0
    ensures Decompose(units, r) == []
  {
    if units != [] {
      DecomposeNegative(units[1..], r);
    }
  }

  /** A number of seconds below zero has no component and shows as "0s". */
  lemma NegativeShowsZero(s: int)
    requires s < 0
    ensures TimeDiffText(Some(s)) == "0s"
  {
    DecomposeNegative(Units, s);
  }

  /** Only the two largest present components are shown: 1d 1h 1m 1s reads "1d 1h". */
  lemma TwoLargestShown()
    ensures TimeDiffText(Some(90061)) == "1d 1h"
    ensures TimeDiffText(Some(3600)) == "1h"
  {
    DecomposeIsBreakdown(90061);
    var parts := Breakdown(90061);
    assert parts == [Part(1, Units[0]), Part(1, Units[1]), Part(1, Units[2]), Part(1, Units[3])];
    assert parts[..2] == [Part(1, Units[0]), Part(1, Units[1])];
    assert IntToString(1) == "1";
    assert PartText(parts[0]) == "1d" && PartText(parts[1]) == "1h";
    assert PartTexts(parts[..2][1..]) == ["1h"];
    assert PartTexts(parts[..2]) == ["1d", "1h"];
    assert Join(["1d", "1h"], " ") == "1d" + " " + Join(["1h"], " ") == "1d 1h";
    DecomposeIsBreakdown(3600);
    assert Breakdown(3600) == [Part(1, Units[1])];
    assert PartText(Part(1, Units[1])) == "1h";
    assert [Part(1, Units[1])][..1] == [Part(1, Units[1])];
    assert PartTexts([Part(1, Units[1])]) == ["1h"];
  }

  /** formatTimeDiff: the column text for a row. */
  method FormatTimeDiff(row: Row) returns (text: string)
    ensures text == TimeDiffText(TimeDiffSeconds(row))
  {
    var seconds := TimeDiffSeconds(row);
    if seconds.None? {
      return "—";
    }
    if seconds.value == 0 {
      return "0s";
    }
    var parts: seq<Part> := [];
    var remaining := seconds.value;
    var i := 0;
    while i < |Units|
      invariant 0 <= i <= |Units|
      invariant parts + Decompose(Units[i..], remaining) == Decompose(Units, seconds.value)
    {
      var u := Units[i];
      assert Units[i..][1..] == Units[i + 1..];
      if remaining >= u.value {
        var count := remaining / u.value;
        remaining := remaining % u.value;
        parts := parts + [Part(count, u)];
      }
      i := i + 1;
    }
    assert parts == Decompose(Units, seconds.value);
    text := Render(parts);
  }
}

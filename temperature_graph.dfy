/**
 * The temperature panel (app/components/temperatureGraph.tsx): a live window
 * of the last 20 readings handed to the realtime chart, and the cursor of
 * the historical log table (page, total pages, optional day) with the query
 * it sends for the log rows and the way it takes the answer in.
 */
module TemperatureGraph {
  import opened Wrappers
  import opened Types
  import opened Decimal
  import opened Window
  import TemperatureChart

  const WindowSize: nat := 20

  /** `[...prev, sample].slice(-20)`. */
  function PushSample(prev: seq<TemperatureData>, sample: TemperatureData): (r: seq<TemperatureData>)
    ensures 0 < |r| <= WindowSize && r[|r| - 1] == sample
    ensures |r| == Min(|prev| + 1, WindowSize)
    ensures r == (prev + [sample])[|prev| + 1 - |r|..]
  {
    SliceLast(prev + [sample], WindowSize)
  }

  /** A calendar day: what `toISOString().split('T')[0]` writes for the selected date. */
  datatype Day = Day(year: int, month: int, day: int)

  predicate ValidDay(d: Day) {
    -271821 <= d.year <= 275760 && 1 <= d.month <= 12 && 1 <= d.day <= 31
  }

  type CalendarDay = d: Day | ValidDay(d) witness Day(1970, 1, 1)

  /** The year as an ISO date writes it: four digits, or a sign and six digits outside 0..9999. */
  function IsoYear(year: int): (s: string)
    requires -271821 <= year <= 275760
  {
    assert Pow10(4) == 10000 && Pow10(6) == 1000000;
    if 0 <= year <= 9999 then PadDigits(year, 4)
    else if year < 0 then "-" + PadDigits(-year, 6)
    else "+" + PadDigits(year, 6)
  }

  /** `YYYY-MM-DD` (or `±YYYYYY-MM-DD`). */
  function IsoDay(d: CalendarDay): string {
    assert Pow10(2) == 100;
    IsoYear(d.year) + "-" + PadDigits(d.month, 2) + "-" + PadDigits(d.day, 2)
  }

  /** Reads a year written by `IsoYear`. */
  function ReadIsoYear(s: string): Option<int> {
    if |s| == 4 && AllDigits(s) then Some(DigitsValue(s))
    else if |s| == 7 && s[0] == '+' && AllDigits(s[1..]) then Some(DigitsValue(s[1..]))
    else if |s| == 7 && s[0] == '-' && AllDigits(s[1..]) then var v: int := DigitsValue(s[1..]); Some(-v)
    else None
  }

  /** Reads a day written by `IsoDay`. */
  function ReadIsoDay(s: string): Option<Day> {
    if |s| < 6 || s[|s| - 6] != '-' || s[|s| - 3] != '-' then None
    else
      var month, day := s[|s| - 5..|s| - 3], s[|s| - 2..];
      match ReadIsoYear(s[..|s| - 6])
      case None => None
      case Some(year) =>
        if AllDigits(month) && AllDigits(day) then Some(Day(year, DigitsValue(month), DigitsValue(day))) else None
  }

  lemma IsoYearRoundTrip(year: int)
    requires -271821 <= year <= 275760
    ensures ReadIsoYear(IsoYear(year)) == Some(year)
  {
    assert Pow10(4) == 10000 && Pow10(6) == 1000000;
    if 0 <= year <= 9999 {
      DigitsValueOfPadDigits(year, 4);
    } else {
      var digits := PadDigits(if year < 0 then -year else year, 6);
      DigitsValueOfPadDigits(if year < 0 then -year else year, 6);
      var s := IsoYear(year);
      assert s[1..] == digits;
    }
  }

  /** `ReadIsoDay` splits at the two last dashes. */
  lemma ReadIsoDayOfParts(y: string, m: string, dd: string, year: int)
    requires |m| == 2 && |dd| == 2 && AllDigits(m) && AllDigits(dd)
    requires ReadIsoYear(y) == Some(year)
    ensures ReadIsoDay(y + "-" + m + "-" + dd) == Some(Day(year, DigitsValue(m), DigitsValue(dd)))
  {
    var s := y + "-" + m + "-" + dd;
    assert s[|s| - 6] == '-' && s[|s| - 3] == '-';
    assert s[..|s| - 6] == y;
    assert s[|s| - 5..|s| - 3] == m;
    assert s[|s| - 2..] == dd;
  }

  /** Reading back the written day gives the day. */
  lemma IsoDayRoundTrip(d: CalendarDay)
    ensures ReadIsoDay(IsoDay(d)) == Some(d)
  {
    assert Pow10(2) == 100;
    IsoYearRoundTrip(d.year);
    DigitsValueOfPadDigits(d.month, 2);
    DigitsValueOfPadDigits(d.day, 2);
    ReadIsoDayOfParts(IsoYear(d.year), PadDigits(d.month, 2), PadDigits(d.day, 2), d.year);
  }

  lemma IsoDayInjective(a: CalendarDay, b: CalendarDay)
    requires IsoDay(a) == IsoDay(b)
    ensures a == b
  {
    IsoDayRoundTrip(a);
    IsoDayRoundTrip(b);
  }

  /** `&date=<day>` when a day is selected, nothing otherwise. */
  function DateParam(date: Option<CalendarDay>): (p: string)
    ensures p == [] <==> date.None?
  {
    if date.Some? then "&date=" + IsoDay(date.value) else ""
  }

  /** The query of the log request: `page=<n>[&date=<day>]&size=10`. */
  function LogsQuery(page: int, date: Option<CalendarDay>): string {
    "page=" + IntToString(page) + DateParam(date) + "&size=10"
  }

  /** Where the first `&` is (the length when there is none). */
  function IndexOfAmp(s: string): (i: nat)
    ensures i <= |s|
  {
    if s == [] || s[0] == '&' then 0 else 1 + IndexOfAmp(s[1..])
  }

  lemma {:induction false} IndexOfAmpAfter(a: string, b: string)
    requires forall i :: 0 <= i < |a| ==> a[i] != '&'
    requires b != [] && b[0] == '&'
    ensures IndexOfAmp(a + b) == |a|
  {
    if a != [] {
      assert (a + b)[1..] == a[1..] + b;
      IndexOfAmpAfter(a[1..], b);
    }
  }

  lemma IntToStringHasNoAmp(n: int)
    ensures forall i :: 0 <= i < |IntToString(n)| ==> IntToString(n)[i] != '&'
  {
    if n < 0 {
      var s := IntToString(n);
      forall i | 0 <= i < |s|
        ensures s[i] != '&'
      {
        if i > 0 {
          assert s[i] == NatToString(-n)[i - 1];
        }
      }
    }
  }

  /** Text without `&` followed by text starting with `&` splits in one way only. */
  lemma SplitAtFirstAmp(a1: string, b1: string, a2: string, b2: string)
    requires forall i :: 0 <= i < |a1| ==> a1[i] != '&'
    requires forall i :: 0 <= i < |a2| ==> a2[i] != '&'
    requires b1 != [] && b1[0] == '&' && b2 != [] && b2[0] == '&'
    requires a1 + b1 == a2 + b2
    ensures a1 == a2 && b1 == b2
  {
    IndexOfAmpAfter(a1, b1);
    IndexOfAmpAfter(a2, b2);
    assert a1 == (a1 + b1)[..|a1|] && a2 == (a2 + b2)[..|a2|];
    assert b1 == (a1 + b1)[|a1|..] && b2 == (a2 + b2)[|a2|..];
  }

  lemma DateParamInjective(date1: Option<CalendarDay>, date2: Option<CalendarDay>)
    requires DateParam(date1) + "&size=10" == DateParam(date2) + "&size=10"
    ensures date1 == date2
  {
    var r1, r2 := DateParam(date1) + "&size=10", DateParam(date2) + "&size=10";
    assert DateParam(date1) == r1[..|r1| - 8];
    assert DateParam(date2) == r2[..|r2| - 8];
    if date1.Some? {
      assert IsoDay(date1.value) == DateParam(date1)[6..];
      assert IsoDay(date2.value) == DateParam(date2)[6..];
      IsoDayInjective(date1.value, date2.value);
    }
  }

  /** After `page=`, the query is the page number, then the rest starting with `&`. */
  lemma LogsQueryShape(page: int, date: Option<CalendarDay>)
    ensures LogsQuery(page, date)[5..] == IntToString(page) + (DateParam(date) + "&size=10")
    ensures (DateParam(date) + "&size=10")[0] == '&'
  {
    var n, r := IntToString(page), DateParam(date) + "&size=10";
    assert LogsQuery(page, date) == "page=" + (n + r);
  }

  /** Two different cursors never send the same query. */
  lemma LogsQueryInjective(page1: int, date1: Option<CalendarDay>, page2: int, date2: Option<CalendarDay>)
    requires LogsQuery(page1, date1) == LogsQuery(page2, date2)
    ensures page1 == page2 && date1 == date2
  {
    LogsQueryShape(page1, date1);
    LogsQueryShape(page2, date2);
    IntToStringHasNoAmp(page1);
    IntToStringHasNoAmp(page2);
    SplitAtFirstAmp(IntToString(page1), DateParam(date1) + "&size=10", IntToString(page2), DateParam(date2) + "&size=10");
    IntToStringInjective(page1, page2);
    DateParamInjective(date1, date2);
  }

  /**
   * The panel's state. `arrivals` records every reading the panel was handed,
   * in order; the live window is always the last 20 of them.
   */
  class Panel {
    var realtimeChartData: seq<TemperatureData>
    var logsData: seq<TemperatureLog>
    var currentPage: int
    var totalPages: int
    var selectedDate: Option<CalendarDay>
    ghost var arrivals: seq<TemperatureData>

    ghost predicate Valid()
      reads this
    {
      realtimeChartData == SliceLast(arrivals, WindowSize)
    }

    /** The cursor fields, which only the handlers change. */
    function Cursor(): (int, Option<CalendarDay>)
      reads this
    {
      (currentPage, selectedDate)
    }

    /** The query the log effect sends for the current cursor. */
    function Query(): string
      reads this
    {
      LogsQuery(currentPage, selectedDate)
    }

    constructor ()
      ensures Valid() && arrivals == []
      ensures realtimeChartData == [] && logsData == []
      ensures currentPage == 0 && totalPages == 1 && selectedDate == None
    {
      realtimeChartData, logsData := [], [];
      currentPage, totalPages, selectedDate := 0, 1, None;
      arrivals := [];
      assert SliceLast<TemperatureData>([], WindowSize) == [];
    }

    /** The effect on `realtimeData`: a reading is appended and the window cut to 20; null is ignored. */
    method OnRealtimeData(sample: Option<TemperatureData>)
      requires Valid()
      modifies this
      ensures Valid()
      ensures sample.Some? ==> arrivals == old(arrivals) + [sample.value]
      ensures sample.Some? ==> realtimeChartData == PushSample(old(realtimeChartData), sample.value)
      ensures sample.None? ==> arrivals == old(arrivals) && realtimeChartData == old(realtimeChartData)
      ensures logsData == old(logsData) && totalPages == old(totalPages) && Cursor() == old(Cursor())
    {
      if sample.Some? {
        SliceLastAppend(arrivals, [sample.value], WindowSize);
        realtimeChartData := PushSample(realtimeChartData, sample.value);
        arrivals := arrivals + [sample.value];
      }
    }

    /** `handlePageChange`: the page is taken as given, with no clamping. */
    method HandlePageChange(newPage: int)
      requires Valid()
      modifies this
      ensures Valid()
      ensures currentPage == newPage
      ensures Query() == LogsQuery(newPage, old(selectedDate))
      ensures selectedDate == old(selectedDate) && logsData == old(logsData) && totalPages == old(totalPages)
      ensures realtimeChartData == old(realtimeChartData) && arrivals == old(arrivals)
    {
      currentPage := newPage;
    }

    /** `handleDateChange`: a new day (or none) starts again from the first page. */
    method HandleDateChange(date: Option<CalendarDay>)
      requires Valid()
      modifies this
      ensures Valid()
      ensures selectedDate == date && currentPage == 0
      ensures Query() == LogsQuery(0, date)
      ensures logsData == old(logsData) && totalPages == old(totalPages)
      ensures realtimeChartData == old(realtimeChartData) && arrivals == old(arrivals)
    {
      selectedDate := date;
      currentPage := 0;
    }

    /**
     * The end of the log fetch: an ok answer replaces the rows and the page
     * count, whatever cursor it was asked for; a failure changes nothing.
     */
    method ApplyLogsResponse(response: Fetched<TemperaturePaginatedResponse>)
      requires Valid()
      modifies this
      ensures Valid()
      ensures response.Ok? ==> logsData == response.body.content && totalPages == response.body.totalPages
      ensures !response.Ok? ==> logsData == old(logsData) && totalPages == old(totalPages)
      ensures Cursor() == old(Cursor()) && Query() == old(Query())
      ensures realtimeChartData == old(realtimeChartData) && arrivals == old(arrivals)
    {
      if response.Ok? {
        logsData := response.body.content;
        totalPages := response.body.totalPages;
      }
    }
  }

  /**
   * The realtime chart is handed the whole window after every reading, so a
   * reading already plotted is plotted again: readings a then b leave the
   * chart with a, a, b.
   */
  lemma DuplicatesReachChart(a: TemperatureData, b: TemperatureData)
    ensures PushSample([], a) == [a]
    ensures PushSample([a], b) == [a, b]
    ensures TemperatureChart.Replay([], [[a], [a, b]]) == [a, a, b]
  {
    var windows := [[a], [a, b]];
    TemperatureChart.ReplayKeepsLastOfAll([], windows);
    assert windows[..1] == [[a]];
    assert [[a]][..0] == [];
    assert TemperatureChart.Flatten<TemperatureData>([]) == [];
    assert TemperatureChart.Flatten([[a]]) == [a];
    assert TemperatureChart.Flatten(windows) == [a, a, b];
  }
}

/** `streamlit_app/ritardi.py`: the publication delay of each act, in
    working days between its registration and the start of its
    publication. */
module Ritardi {
  import opened Strings
  import opened Calendar
  import opened Frame

  /** `calculate_working_days`: walks the days from `startDate` to
      `endDate`, both included, one day at a time, counting Monday to
      Friday. */
  method CalculateWorkingDays(startDate: int, endDate: int) returns (workingDays: nat)
    ensures workingDays == WorkingDays(startDate, endDate)
  {
    var currentDate := startDate;
    workingDays := 0;
    while currentDate <= endDate
      invariant startDate <= currentDate
      invariant currentDate <= endDate + 1 || currentDate == startDate
      invariant workingDays == WorkingDays(startDate, currentDate - 1)
      decreases endDate - currentDate
    {
      if Weekday(currentDate) < 5 {
        workingDays := workingDays + 1;
      }
      currentDate := currentDate + 1;
    }
  }

  /** The `ritardo_pubblicazione` of a row with both dates. */
  function RowDelay(r: FrameRow): nat
    requires HasDelayDates(r)
  {
    Delay(WorkingDays(r.dataRegistroGenerale.value, r.dataInizioPubblicazione.value))
  }

  /** `analyze_publication_delays`: the rows with both dates, in frame
      order, each with its delay. */
  function AnalyzePublicationDelays(df: seq<FrameRow>): (out: seq<DelayRow>)
    ensures |out| <= |df|
    ensures forall k :: 0 <= k < |out| ==> out[k].row in df && HasDelayDates(out[k].row)
  {
    var dated := Filter(df, HasDelayDates);
    seq(|dated|, k requires 0 <= k < |dated| => DelayRow(dated[k], RowDelay(dated[k])))
  }

  /** Exactly the rows missing neither date are kept. */
  lemma DelaysKeepDatedRows(df: seq<FrameRow>, r: FrameRow)
    ensures (exists k :: 0 <= k < |AnalyzePublicationDelays(df)| && AnalyzePublicationDelays(df)[k].row == r)
      <==> r in df && HasDelayDates(r)
  {
    var dated := Filter(df, HasDelayDates);
    var out := AnalyzePublicationDelays(df);
    if r in df && HasDelayDates(r) {
      var k :| 0 <= k < |dated| && dated[k] == r;
      assert out[k].row == r;
    }
  }

  /** The analysis works row by row: the analysis of two frames stacked is
      the two analyses stacked, so kept rows stay in frame order. */
  lemma DelaysAppend(a: seq<FrameRow>, b: seq<FrameRow>)
    ensures AnalyzePublicationDelays(a + b) == AnalyzePublicationDelays(a) + AnalyzePublicationDelays(b)
  {
    FilterAppend(a, b, HasDelayDates);
    var out := AnalyzePublicationDelays(a + b);
    var left := AnalyzePublicationDelays(a);
    var right := AnalyzePublicationDelays(b);
    var dated := Filter(a + b, HasDelayDates);
    assert |out| == |left| + |right|;
    forall k | 0 <= k < |out|
      ensures out[k] == (left + right)[k]
    {
      if k < |left| {
        assert dated[k] == Filter(a, HasDelayDates)[k];
      } else {
        assert dated[k] == Filter(b, HasDelayDates)[k - |left|];
      }
    }
  }

  /** The delay is the number of working days from registration to the
      start of publication, both included, less one, and never negative: it
      is zero when publication starts on or before the day of registration,
      and never more than the calendar days between the two. */
  lemma DelayMeaning(df: seq<FrameRow>, k: int)
    requires 0 <= k < |AnalyzePublicationDelays(df)|
    ensures var d := AnalyzePublicationDelays(df)[k];
      var reg := d.row.dataRegistroGenerale.value;
      var start := d.row.dataInizioPubblicazione.value;
      && d.ritardo == (if |WorkingDaySet(reg, start)| >= 1 then |WorkingDaySet(reg, start)| - 1 else 0)
      && (start <= reg ==> d.ritardo == 0)
      && (reg <= start ==> d.ritardo <= start - reg)
  {
    var d := AnalyzePublicationDelays(df)[k];
    var reg := d.row.dataRegistroGenerale.value;
    var start := d.row.dataInizioPubblicazione.value;
    WorkingDaysCounts(reg, start);
    DelayBounds(reg, start);
  }
}

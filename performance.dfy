/** `streamlit_app/performance.py`: the second copy of the delay analysis,
    which drops incomplete rows without taking a copy of the frame first. */
module Performance {
  import opened Strings
  import opened Calendar
  import opened Frame
  import Ritardi

  /** `calculate_working_days`, as in `ritardi.py`. */
  method CalculateWorkingDays(startDate: int, endDate: int) returns (workingDays: nat)
    ensures workingDays == WorkingDays(startDate, endDate)
  {
    var currentDate := startDate;
    workingDays := 0;
    while currentDate <= endDate
      invariant startDate <= currentDate
      invariant currentDate <= endDate + 1 || currentDate == startDate
      invariant workingDays == WorkingDays(startDate, currentDate - 1)
      decreases endDate - currentDate
    {
      if Weekday(currentDate) < 5 {
        workingDays := workingDays + 1;
      }
      currentDate := currentDate + 1;
    }
  }

  /** `analyze_publication_delays`: `dropna` on the two dates, then the
      working days less one, clamped at zero. */
  function AnalyzePublicationDelays(df: seq<FrameRow>): (out: seq<DelayRow>)
    ensures |out| <= |df|
    ensures forall k :: 0 <= k < |out| ==>
      && out[k].row in df
      && HasDelayDates(out[k].row)
  {
    var valid := Filter(df, HasDelayDates);
    seq(|valid|, k requires 0 <= k < |valid| =>
      assert valid[k] in valid;
      var days := WorkingDays(valid[k].dataRegistroGenerale.value, valid[k].dataInizioPubblicazione.value) - 1;
      DelayRow(valid[k], if days > 0 then days else 0))
  }

  /** The two copies agree: both count the same working days, and both
      analyses give the same rows with the same delays. */
  lemma SameAsRitardi(df: seq<FrameRow>)
    ensures AnalyzePublicationDelays(df) == Ritardi.AnalyzePublicationDelays(df)
  {
    var out := AnalyzePublicationDelays(df);
    var other := Ritardi.AnalyzePublicationDelays(df);
    assert |out| == |other|;
    forall k | 0 <= k < |out|
      ensures out[k] == other[k]
    {
      var r := out[k].row;
      assert Delay(WorkingDays(r.dataRegistroGenerale.value, r.dataInizioPubblicazione.value)) == out[k].ritardo;
    }
  }
}

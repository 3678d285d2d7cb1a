/** The dashboard's view of the registry: the `pubblicazioni` table loaded
    as a data frame, one row per stored publication, with its dates already
    parsed into day ordinals (`None` is a missing or unparsed date, pandas'
    `NaT`). */
module Frame {
  import opened Strings

  datatype FrameRow = FrameRow(
    /** Every column of the row as `astype(str)` renders it. */
    cells: seq<string>,
    mittente: string,
    tipoAtto: string,
    dataRegistroGenerale: Option<int>,
    dataInizioPubblicazione: Option<int>,
    dataFinePubblicazione: Option<int>)

  /** The rows satisfying `keep`, in frame order (a boolean mask). */
  function Filter(rows: seq<FrameRow>, keep: FrameRow -> bool): (kept: seq<FrameRow>)
    ensures |kept| <= |rows|
    ensures forall r :: r in kept <==> r in rows && keep(r)
  {
    if rows == [] then []
    else (if keep(rows[0]) then [rows[0]] else []) + Filter(rows[1..], keep)
  }

  /** Masking distributes over concatenation: the kept rows keep their
      relative order. */
  lemma {:induction false} FilterAppend(a: seq<FrameRow>, b: seq<FrameRow>, keep: FrameRow -> bool)
    ensures Filter(a + b, keep) == Filter(a, keep) + Filter(b, keep)
    decreases |a|
  {
    if a != [] {
      assert (a + b)[1..] == a[1..] + b;
      FilterAppend(a[1..], b, keep);
    } else {
      assert a + b == b;
    }
  }

  /** `dropna` on both dates of the delay analysis. */
  predicate HasDelayDates(r: FrameRow) {
    r.dataRegistroGenerale.Some? && r.dataInizioPubblicazione.Some?
  }

  /** A row of the delay analysis: the frame row and its `ritardo` column. */
  datatype DelayRow = DelayRow(row: FrameRow, ritardo: nat)
}

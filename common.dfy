/** `streamlit_app/common.py`: the row filter behind the dashboard's search
    pages. Each criterion that is set narrows the frame by one boolean
    mask; one that is not set (an empty search, no type or `"Tutti"`, no
    date) leaves it as it is. */
module Common {
  import opened Strings
  import opened Frame

  /** The type filter's catch-all entry. */
  const ALL_TYPES := "Tutti"

  /** Some column of the row, rendered as a string, contains `ricerca`
      ignoring case. */
  predicate MatchesSearch(r: FrameRow, ricerca: string) {
    exists i :: 0 <= i < |r.cells| && Contains(Lower(r.cells[i]), Lower(ricerca))
  }

  /** Publication starts on or after `dataDa`; a missing date never passes. */
  predicate StartsFrom(r: FrameRow, dataDa: int) {
    r.dataInizioPubblicazione.Some? && r.dataInizioPubblicazione.value >= dataDa
  }

  /** Publication ends on or before `dataA`; a missing date never passes. */
  predicate EndsBy(r: FrameRow, dataA: int) {
    r.dataFinePubblicazione.Some? && r.dataFinePubblicazione.value <= dataA
  }

  /** The act is of type `tipoAtto`. */
  predicate OfType(r: FrameRow, tipoAtto: string) {
    r.tipoAtto == tipoAtto
  }

  /** The type criterion is set. */
  predicate TypeChosen(tipoAtto: string) {
    tipoAtto != "" && tipoAtto != ALL_TYPES
  }

  /** `filter_data`: the four masks in turn, each only when its criterion
      is set. Dates are day ordinals; `None` is a bound left empty. */
  function FilterData(df: seq<FrameRow>, ricerca: string, tipoAtto: string,
                      dataDa: Option<int>, dataA: Option<int>): (filtered: seq<FrameRow>)
    ensures |filtered| <= |df|
    ensures forall r :: r in filtered ==> r in df
  {
    var bySearch := if ricerca != "" then Filter(df, r => MatchesSearch(r, ricerca)) else df;
    var byType := if TypeChosen(tipoAtto) then Filter(bySearch, r => OfType(r, tipoAtto)) else bySearch;
    var byStart := if dataDa.Some? then Filter(byType, r => StartsFrom(r, dataDa.value)) else byType;
    if dataA.Some? then Filter(byStart, r => EndsBy(r, dataA.value)) else byStart
  }

  /** A row passes every criterion that is set. */
  predicate Selected(r: FrameRow, ricerca: string, tipoAtto: string, dataDa: Option<int>, dataA: Option<int>) {
    && (ricerca != "" ==> MatchesSearch(r, ricerca))
    && (TypeChosen(tipoAtto) ==> r.tipoAtto == tipoAtto)
    && (dataDa.Some? ==> StartsFrom(r, dataDa.value))
    && (dataA.Some? ==> EndsBy(r, dataA.value))
  }

  /** A row is kept exactly when it is in the frame and passes every
      criterion that is set. */
  lemma FilterDataMembers(df: seq<FrameRow>, ricerca: string, tipoAtto: string,
                          dataDa: Option<int>, dataA: Option<int>, r: FrameRow)
    ensures r in FilterData(df, ricerca, tipoAtto, dataDa, dataA)
      <==> r in df && Selected(r, ricerca, tipoAtto, dataDa, dataA)
  {
  }

  /** The filter works row by row: filtering two frames stacked gives the
      two results stacked, so the kept rows keep their order. */
  lemma FilterDataAppend(a: seq<FrameRow>, b: seq<FrameRow>, ricerca: string, tipoAtto: string,
                         dataDa: Option<int>, dataA: Option<int>)
    ensures FilterData(a + b, ricerca, tipoAtto, dataDa, dataA)
      == FilterData(a, ricerca, tipoAtto, dataDa, dataA) + FilterData(b, ricerca, tipoAtto, dataDa, dataA)
  {
    var bySearchA := if ricerca != "" then Filter(a, r => MatchesSearch(r, ricerca)) else a;
    var bySearchB := if ricerca != "" then Filter(b, r => MatchesSearch(r, ricerca)) else b;
    if ricerca != "" {
      FilterAppend(a, b, r => MatchesSearch(r, ricerca));
    }
    var byTypeA := if TypeChosen(tipoAtto) then Filter(bySearchA, r => OfType(r, tipoAtto)) else bySearchA;
    var byTypeB := if TypeChosen(tipoAtto) then Filter(bySearchB, r => OfType(r, tipoAtto)) else bySearchB;
    if TypeChosen(tipoAtto) {
      FilterAppend(bySearchA, bySearchB, r => OfType(r, tipoAtto));
    }
    var byStartA := if dataDa.Some? then Filter(byTypeA, r => StartsFrom(r, dataDa.value)) else byTypeA;
    var byStartB := if dataDa.Some? then Filter(byTypeB, r => StartsFrom(r, dataDa.value)) else byTypeB;
    if dataDa.Some? {
      FilterAppend(byTypeA, byTypeB, r => StartsFrom(r, dataDa.value));
    }
    if dataA.Some? {
      FilterAppend(byStartA, byStartB, r => EndsBy(r, dataA.value));
    }
  }

  /** On a single row the filter keeps it exactly when it is selected;
      with the lemma above this pins the result down to the selected rows
      in frame order. */
  lemma FilterDataSingle(r: FrameRow, ricerca: string, tipoAtto: string, dataDa: Option<int>, dataA: Option<int>)
    ensures FilterData([r], ricerca, tipoAtto, dataDa, dataA)
      == if Selected(r, ricerca, tipoAtto, dataDa, dataA) then [r] else []
  {
    var out := FilterData([r], ricerca, tipoAtto, dataDa, dataA);
    FilterDataMembers([r], ricerca, tipoAtto, dataDa, dataA, r);
    if |out| == 1 {
      assert out[0] in out;
    }
  }

  /** With no criterion set the frame comes back whole. */
  lemma NoCriteriaKeepsAll(df: seq<FrameRow>, tipoAtto: string)
    requires tipoAtto == "" || tipoAtto == ALL_TYPES
    ensures FilterData(df, "", tipoAtto, None, None) == df
  {
  }

  /** A chosen type keeps only the acts of that type, and drops none of
      them that pass the other criteria. */
  lemma TypeCriterion(df: seq<FrameRow>, ricerca: string, tipoAtto: string,
                      dataDa: Option<int>, dataA: Option<int>)
    requires TypeChosen(tipoAtto)
    ensures forall r :: r in FilterData(df, ricerca, tipoAtto, dataDa, dataA) ==> r.tipoAtto == tipoAtto
    ensures forall r :: (r in df && r.tipoAtto == tipoAtto && Selected(r, ricerca, "", dataDa, dataA)
      ==> r in FilterData(df, ricerca, tipoAtto, dataDa, dataA))
  {
    forall r | r in FilterData(df, ricerca, tipoAtto, dataDa, dataA)
      ensures r.tipoAtto == tipoAtto
    {
      FilterDataMembers(df, ricerca, tipoAtto, dataDa, dataA, r);
    }
    forall r | r in df && r.tipoAtto == tipoAtto && Selected(r, ricerca, "", dataDa, dataA)
      ensures r in FilterData(df, ricerca, tipoAtto, dataDa, dataA)
    {
      FilterDataMembers(df, ricerca, tipoAtto, dataDa, dataA, r);
    }
  }

  /** Kept rows fall inside the date bounds that are set. */
  lemma DateCriteria(df: seq<FrameRow>, ricerca: string, tipoAtto: string,
                     dataDa: Option<int>, dataA: Option<int>, r: FrameRow)
    requires r in FilterData(df, ricerca, tipoAtto, dataDa, dataA)
    ensures dataDa.Some? ==> r.dataInizioPubblicazione.Some? && r.dataInizioPubblicazione.value >= dataDa.value
    ensures dataA.Some? ==> r.dataFinePubblicazione.Some? && r.dataFinePubblicazione.value <= dataA.value
  {
    FilterDataMembers(df, ricerca, tipoAtto, dataDa, dataA, r);
  }

  /** Lower-casing both sides keeps an occurrence. */
  lemma {:induction false} ContainsLower(s: string, sub: string)
    requires Contains(s, sub)
    ensures Contains(Lower(s), Lower(sub))
    decreases |s|
  {
    if s[..|sub|] == sub {
      assert Lower(s)[..|sub|] == Lower(sub);
    } else {
      ContainsLower(s[1..], sub);
      assert Lower(s)[1..] == Lower(s[1..]);
    }
  }

  /** A non-empty search keeps exactly the rows with a column that contains
      it ignoring case, among those the other criteria pass; in particular
      every such row with an occurrence as typed. */
  lemma SearchCriterion(df: seq<FrameRow>, ricerca: string, tipoAtto: string,
                        dataDa: Option<int>, dataA: Option<int>, r: FrameRow)
    requires ricerca != ""
    ensures r in FilterData(df, ricerca, tipoAtto, dataDa, dataA) ==>
      exists i :: 0 <= i < |r.cells| && Contains(Lower(r.cells[i]), Lower(ricerca))
    ensures (r in df && Selected(r, "", tipoAtto, dataDa, dataA)
      && exists i :: 0 <= i < |r.cells| && Contains(Lower(r.cells[i]), Lower(ricerca)))
      ==> r in FilterData(df, ricerca, tipoAtto, dataDa, dataA)
    ensures (r in df && Selected(r, "", tipoAtto, dataDa, dataA)
      && exists i :: 0 <= i < |r.cells| && Contains(r.cells[i], ricerca))
      ==> r in FilterData(df, ricerca, tipoAtto, dataDa, dataA)
  {
    FilterDataMembers(df, ricerca, tipoAtto, dataDa, dataA, r);
    if exists i :: 0 <= i < |r.cells| && Contains(r.cells[i], ricerca) {
      var i :| 0 <= i < |r.cells| && Contains(r.cells[i], ricerca);
      ContainsLower(r.cells[i], ricerca);
    }
  }
}

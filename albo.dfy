/** The notice board as the scraper sees it once the HTML is parsed, and the
    post-parse extraction both scrapers perform: the detail field map built
    from label/value rows and `onclick` attachment triggers, and the listing
    of ten-field records built from the results table. */
module Albo {
  import opened Strings

  const BASE_URL: string := "https://www.halleyweb.com/c065001/mc/"
  const ALBO_URL: string := BASE_URL + "mc_p_ricerca.php?noHeaderFooter=1&multiente=c065001"

  /** The endpoint an `onclick` must mention to count as an attachment. */
  const ATTACHMENT_ENDPOINT: string := "mc_attachment.php"

  /** The literal part of the pattern `window\.open\('([^']+)'\)` before the group. */
  const OPEN_CALL: string := "window.open('"

  /** A field value: the extractor stores strings, and lists for attachments. */
  datatype Value = Str(s: string) | List(items: seq<string>) {
    /** Python truthiness: a non-empty string or list. */
    predicate Truthy() {
      match this
      case Str(s) => s != []
      case List(xs) => xs != []
    }

    /** `str(value)`; a list is shown as Python shows a list of plain strings. */
    function ToStr(): string {
      match this
      case Str(s) => s
      case List(xs) => "[" + Join(", ", seq(|xs|, i requires 0 <= i < |xs| => "'" + xs[i] + "'")) + "]"
    }

    /** What `for a in value` visits: the items of a list, the characters of a string. */
    function Iter(): seq<string> {
      match this
      case Str(s) => seq(|s|, i requires 0 <= i < |s| => [s[i]])
      case List(xs) => xs
    }
  }

  /** A Python dict, as its items in insertion order. */
  type Dict = seq<(string, Value)>

  function Keys(d: Dict): (ks: seq<string>)
    ensures |ks| == |d| && forall i :: 0 <= i < |d| ==> ks[i] == d[i].0
  {
    seq(|d|, i requires 0 <= i < |d| => d[i].0)
  }

  /** Keys are unique, as in every Python dict. */
  predicate IsDict(d: Dict) {
    forall i, j :: 0 <= i < j < |d| ==> d[i].0 != d[j].0
  }

  /** `d.get(key)`. */
  function Get(d: Dict, key: string): (r: Option<Value>)
    ensures r.Some? <==> key in Keys(d)
    decreases |d|
  {
    if d == [] then None
    else if d[0].0 == key then Some(d[0].1)
    else Get(d[1..], key)
  }

  /** In a dict, looking up the key stored at position i gives the value
      stored with it. */
  lemma {:induction false} GetAt(d: Dict, i: nat)
    requires IsDict(d) && i < |d|
    ensures Get(d, d[i].0) == Some(d[i].1)
    decreases i
  {
    if i > 0 {
      assert d[0].0 != d[i].0;
      assert d[1..][i - 1] == d[i];
      GetAt(d[1..], i - 1);
    }
  }

  /** One publication as the listing extractor assembles it. */
  datatype Pubblicazione = Pubblicazione(
    numeroPubblicazione: string,
    mittente: string,
    tipoAtto: string,
    registroGenerale: string,
    dataRegistroGenerale: string,
    oggettoAtto: string,
    dataInizioPubblicazione: string,
    dataFinePubblicazione: string,
    documento: Value,
    allegati: Value)

  /** The ten keys of a record, in the order the extractor inserts them. */
  const RECORD_KEYS: seq<string> := [
    "numero_pubblicazione", "mittente", "tipo_atto", "registro_generale",
    "data_registro_generale", "oggetto_atto", "data_inizio_pubblicazione",
    "data_fine_pubblicazione", "documento", "allegati"]

  /** The record as the dict the notifiers receive. */
  function Items(p: Pubblicazione): Dict {
    [("numero_pubblicazione", Str(p.numeroPubblicazione)),
     ("mittente", Str(p.mittente)),
     ("tipo_atto", Str(p.tipoAtto)),
     ("registro_generale", Str(p.registroGenerale)),
     ("data_registro_generale", Str(p.dataRegistroGenerale)),
     ("oggetto_atto", Str(p.oggettoAtto)),
     ("data_inizio_pubblicazione", Str(p.dataInizioPubblicazione)),
     ("data_fine_pubblicazione", Str(p.dataFinePubblicazione)),
     ("documento", p.documento),
     ("allegati", p.allegati)]
  }

  /** A record is a dict with exactly the ten keys, each once. */
  lemma ItemsIsDict(p: Pubblicazione)
    ensures IsDict(Items(p)) && |Items(p)| == 10 && Keys(Items(p)) == RECORD_KEYS
  {
    var d := Items(p);
    assert forall i :: 0 <= i < |d| ==> d[i].0 == RECORD_KEYS[i];
    assert forall i, j :: 0 <= i < j < 10 ==> RECORD_KEYS[i] != RECORD_KEYS[j] by {
      assert RECORD_KEYS[1][0] != RECORD_KEYS[9][0];
      assert RECORD_KEYS[2][0] != RECORD_KEYS[8][0];
    }
  }

  // ---------------------------------------------------------------------
  // Parsed pages and the fetch

  /** A `div.row.detail-row`: the text of its label and value divs, when present. */
  datatype DetailRow = DetailRow(labelDiv: Option<string>, valueDiv: Option<string>)

  /** A detail page: its detail rows and the `onclick` of every anchor that has one,
      in document order. */
  datatype DetailPage = DetailPage(rows: seq<DetailRow>, onclicks: seq<string>)

  /** A `tr` of the results table: how many `td` it has, and the `href` of the
      anchor in its second cell when there is an anchor with an `href`. */
  datatype ListingRow = ListingRow(cells: nat, href: Option<string>)

  /** The listing page: the rows of `table#table-albo` (header included), if found. */
  datatype ListingPage = ListingPage(table: Option<seq<ListingRow>>)

  /** What the board answers: the listing page (None when its fetch fails) and
      the detail pages that can be fetched, by URL. */
  datatype Site = Site(listing: Option<ListingPage>, details: map<string, DetailPage>)

  /** `session.get(url)` followed by parsing; None is any fetch failure.
      "#" has no scheme, so requesting it always fails. */
  function Fetch(site: Site, url: string): (r: Option<DetailPage>)
    ensures url == "#" ==> r.None?
  {
    if url != "#" && url in site.details then Some(site.details[url]) else None
  }

  // ---------------------------------------------------------------------
  // The attachment pattern `window\.open\('([^']+)'\)`

  /** The first index at or after `j` that holds a quote, or |s|. */
  function QuoteFrom(s: string, j: nat): (k: nat)
    requires j <= |s|
    ensures j <= k <= |s|
    ensures forall m :: j <= m < k ==> s[m] != '\''
    ensures k < |s| ==> s[k] == '\''
    decreases |s| - j
  {
    if j == |s| || s[j] == '\'' then j else QuoteFrom(s, j + 1)
  }

  /** The match of the pattern that starts at position i, if any: the greedy
      run of non-quotes after `window.open('` must be non-empty and be
      followed by `')`. */
  function MatchAt(s: string, i: nat): (r: Option<string>)
    requires i <= |s|
    ensures r.Some? ==> r.value != [] && '\'' !in r.value
  {
    if StartsWith(s[i..], OPEN_CALL) then
      var j := i + |OPEN_CALL|;
      var k := QuoteFrom(s, j);
      if j < k && k + 1 < |s| && s[k + 1] == ')' then
        assert forall m :: 0 <= m < k - j ==> s[j..k][m] == s[j + m];
        Some(s[j..k])
      else None
    else None
  }

  /** `re.search`: the leftmost match at or after position i. */
  function SearchFrom(s: string, i: nat): (r: Option<string>)
    requires i <= |s|
    ensures r.Some? ==> r.value != [] && '\'' !in r.value
    decreases |s| - i
  {
    if MatchAt(s, i).Some? then MatchAt(s, i)
    else if i == |s| then None
    else SearchFrom(s, i + 1)
  }

  function Search(s: string): Option<string> {
    SearchFrom(s, 0)
  }

  /** The pattern matches `s` at position i with group x (the regular
      expression's meaning, stated directly). */
  ghost predicate IsMatch(s: string, i: int, x: string) {
    && 0 <= i
    && i + |OPEN_CALL| + |x| + 2 <= |s|
    && s[i..i + |OPEN_CALL|] == OPEN_CALL
    && x != [] && '\'' !in x
    && s[i + |OPEN_CALL|..i + |OPEN_CALL| + |x|] == x
    && s[i + |OPEN_CALL| + |x|] == '\''
    && s[i + |OPEN_CALL| + |x| + 1] == ')'
  }

  lemma MatchAtIff(s: string, i: nat, x: string)
    requires i <= |s|
    ensures MatchAt(s, i) == Some(x) <==> IsMatch(s, i, x)
  {
    var j := i + |OPEN_CALL|;
    if IsMatch(s, i, x) {
      assert s[i..][..|OPEN_CALL|] == s[i..i + |OPEN_CALL|];
      forall m | j <= m < j + |x| ensures s[m] != '\'' {
        assert s[m] == s[j..j + |x|][m - j];
      }
      assert s[j + |x|] == '\'';
      assert QuoteFrom(s, j) == j + |x|;
    }
    if MatchAt(s, i) == Some(x) {
      assert s[i..][..|OPEN_CALL|] == s[i..i + |OPEN_CALL|];
    }
  }

  /** `Search` is `re.search` for the attachment pattern: what it returns is
      the group of the leftmost match, and it returns nothing only when
      there is no match anywhere. */
  lemma {:induction false} SearchIsLeftmost(s: string, i: nat)
    requires i <= |s|
    ensures SearchFrom(s, i).Some? ==>
      exists p :: i <= p <= |s| && IsMatch(s, p, SearchFrom(s, i).value) &&
        forall q, y :: i <= q < p ==> !IsMatch(s, q, y)
    ensures SearchFrom(s, i).None? ==> forall q, y :: i <= q ==> !IsMatch(s, q, y)
    decreases |s| - i
  {
    var here := MatchAt(s, i);
    if here.Some? {
      MatchAtIff(s, i, here.value);
      assert SearchFrom(s, i) == here;
    } else {
      forall y ensures !IsMatch(s, i, y) {
        MatchAtIff(s, i, y);
      }
      if i < |s| {
        SearchIsLeftmost(s, i + 1);
        assert SearchFrom(s, i) == SearchFrom(s, i + 1);
        if SearchFrom(s, i).Some? {
          var x := SearchFrom(s, i).value;
          var p :| i + 1 <= p <= |s| && IsMatch(s, p, x) && forall q, y :: i + 1 <= q < p ==> !IsMatch(s, q, y);
          assert forall q, y :: i <= q < p ==> !IsMatch(s, q, y);
        }
      } else {
        assert SearchFrom(s, i).None?;
      }
    }
  }

  /** The link an `onclick` contributes: none unless it mentions the
      attachment endpoint and the pattern matches; then `BASE_URL` + group. */
  function LinkOf(onclick: string): (r: seq<string>)
    ensures |r| <= 1
    ensures r != [] ==> StartsWith(r[0], BASE_URL) && |r[0]| > |BASE_URL| && '\'' !in r[0][|BASE_URL|..]
  {
    if Contains(onclick, ATTACHMENT_ENDPOINT) then
      match Search(onclick)
      case Some(x) =>
        assert (BASE_URL + x)[|BASE_URL|..] == x;
        [BASE_URL + x]
      case None => []
    else []
  }

  /** The attachment links of a page, in document order. */
  function AttachmentLinks(onclicks: seq<string>): (links: seq<string>)
    ensures |links| <= |onclicks|
    ensures forall k :: 0 <= k < |links| ==>
      StartsWith(links[k], BASE_URL) && |links[k]| > |BASE_URL| && '\'' !in links[k][|BASE_URL|..]
    decreases |onclicks|
  {
    if onclicks == [] then []
    else AttachmentLinks(onclicks[..|onclicks| - 1]) + LinkOf(onclicks[|onclicks| - 1])
  }

  /** One more anchor adds its own link, if any, after the links so far. */
  lemma AttachmentLinksStep(onclicks: seq<string>, j: nat)
    requires j < |onclicks|
    ensures AttachmentLinks(onclicks[..j + 1]) == AttachmentLinks(onclicks[..j]) + LinkOf(onclicks[j])
  {
    assert onclicks[..j + 1][..j] == onclicks[..j];
  }

  /** Links are collected in document order: the links of a page split in
      two are those of the first part followed by those of the second. */
  lemma {:induction false} AttachmentLinksAppend(a: seq<string>, b: seq<string>)
    ensures AttachmentLinks(a + b) == AttachmentLinks(a) + AttachmentLinks(b)
    decreases |b|
  {
    if b == [] {
      assert a + b == a;
    } else {
      var init := b[..|b| - 1];
      assert (a + b)[..|a + b| - 1] == a + init;
      AttachmentLinksAppend(a, init);
    }
  }

  /** An `onclick` that does not mention the attachment endpoint contributes
      nothing, wherever it stands. */
  lemma NonAttachmentIgnored(a: seq<string>, onclick: string, b: seq<string>)
    requires !Contains(onclick, ATTACHMENT_ENDPOINT)
    ensures AttachmentLinks(a + [onclick] + b) == AttachmentLinks(a + b)
  {
    var ao := a + [onclick];
    assert ao[..|ao| - 1] == a && ao[|ao| - 1] == onclick;
    assert LinkOf(onclick) == [];
    assert AttachmentLinks(ao) == AttachmentLinks(a);
    AttachmentLinksAppend(ao, b);
    AttachmentLinksAppend(a, b);
  }

  // ---------------------------------------------------------------------
  // The field map of a detail page

  /** The field map `dettagli`: labels to stripped values, plus "Documento"
      and "Allegati". */
  type Dettagli = map<string, Value>

  /** The labels the label loop never copies (compared in lower case). */
  predicate Excluded(labelText: string) {
    Lower(labelText) in ["documento", "allegati"]
  }

  /** Row `row` sets key `k` in the label loop. */
  predicate Contributes(row: DetailRow, k: string) {
    row.labelDiv.Some? && row.valueDiv.Some? && Strip(row.labelDiv.value) == k && !Excluded(k)
  }

  function LabelStep(m: Dettagli, row: DetailRow): Dettagli {
    if row.labelDiv.Some? && row.valueDiv.Some? && !Excluded(Strip(row.labelDiv.value))
    then m[Strip(row.labelDiv.value) := Str(Strip(row.valueDiv.value))]
    else m
  }

  /** The map the label loop builds over `rows`. */
  function LabelMap(rows: seq<DetailRow>): (m: Dettagli)
    ensures forall k :: k in m ==> !Excluded(k) && m[k].Str?
    decreases |rows|
  {
    if rows == [] then map[] else LabelStep(LabelMap(rows[..|rows| - 1]), rows[|rows| - 1])
  }

  /** A key is in the label map exactly when some row contributes it. */
  lemma LabelStepKeys(m: Dettagli, row: DetailRow, k: string)
    ensures k in LabelStep(m, row) <==> k in m || Contributes(row, k)
  {
  }

  /** Some row of `rows` sets key `k`. */
  predicate SomeRowContributes(rows: seq<DetailRow>, k: string) {
    exists j :: 0 <= j < |rows| && Contributes(rows[j], k)
  }

  /** A row sets `k` in a list exactly when one of all but the last does,
      or the last does. */
  lemma SomeRowContributesStep(rows: seq<DetailRow>, k: string)
    requires rows != []
    ensures SomeRowContributes(rows, k) <==>
      SomeRowContributes(rows[..|rows| - 1], k) || Contributes(rows[|rows| - 1], k)
  {
    ExistsStep(rows, rows[..|rows| - 1], r => Contributes(r, k));
  }

  /** Some element satisfies `p` exactly when one of all but the last does,
      or the last does. */
  lemma ExistsStep<T>(xs: seq<T>, init: seq<T>, p: T -> bool)
    requires xs != [] && init == xs[..|xs| - 1]
    ensures (exists j :: 0 <= j < |xs| && p(xs[j])) <==>
      (exists j :: 0 <= j < |init| && p(init[j])) || p(xs[|xs| - 1])
  {
    if exists j :: 0 <= j < |xs| && p(xs[j]) {
      var j :| 0 <= j < |xs| && p(xs[j]);
      if j < |init| {
        assert init[j] == xs[j];
      }
    }
    if exists j :: 0 <= j < |init| && p(init[j]) {
      var j :| 0 <= j < |init| && p(init[j]);
      assert xs[j] == init[j];
    }
  }

  lemma {:induction false} LabelMapKeys(rows: seq<DetailRow>, k: string)
    ensures k in LabelMap(rows) <==> SomeRowContributes(rows, k)
    decreases |rows|
  {
    if rows != [] {
      var init, last := rows[..|rows| - 1], rows[|rows| - 1];
      LabelMapKeys(init, k);
      LabelStepKeys(LabelMap(init), last, k);
      assert LabelMap(rows) == LabelStep(LabelMap(init), last);
      SomeRowContributesStep(rows, k);
    }
  }

  /** The last row that contributes a key decides its value. */
  lemma {:induction false} LabelMapLastWins(rows: seq<DetailRow>, k: string, j: nat)
    requires j < |rows| && Contributes(rows[j], k)
    requires forall j' :: j < j' < |rows| ==> !Contributes(rows[j'], k)
    ensures k in LabelMap(rows) && LabelMap(rows)[k] == Str(Strip(rows[j].valueDiv.value))
    decreases |rows|
  {
    var init, last := rows[..|rows| - 1], rows[|rows| - 1];
    assert LabelMap(rows) == LabelStep(LabelMap(init), last);
    if j < |rows| - 1 {
      forall j' | j < j' < |init| ensures !Contributes(init[j'], k) {
        assert init[j'] == rows[j'];
      }
      LabelMapLastWins(init, k, j);
      assert init[j] == rows[j];
      assert !Contributes(last, k);
      LabelStepKeeps(LabelMap(init), last, k);
    }
  }

  /** A row that does not contribute a key leaves its value alone. */
  lemma LabelStepKeeps(m: Dettagli, row: DetailRow, k: string)
    requires k in m && !Contributes(row, k)
    ensures k in LabelStep(m, row) && LabelStep(m, row)[k] == m[k]
  {
  }

  /** The field map holds only strings, except under "Allegati". */
  predicate WellShaped(d: Dettagli) {
    forall k :: k in d && k != "Allegati" ==> d[k].Str?
  }

  /** First attachment link to "Documento", the rest to "Allegati"; "" and
      [] when there is none. */
  function SplitAttachments(m: Dettagli, links: seq<string>): (d: Dettagli)
    ensures d.Keys == m.Keys + {"Documento", "Allegati"}
    ensures d["Documento"].Str? && d["Allegati"].List?
    ensures links != [] ==> [d["Documento"].s] + d["Allegati"].items == links
    ensures links == [] ==> d["Documento"] == Str("") && d["Allegati"] == List([])
    ensures forall k :: k in m && k != "Documento" && k != "Allegati" ==> d[k] == m[k]
  {
    if links != [] then m["Documento" := Str(links[0])]["Allegati" := List(links[1..])]
    else m["Documento" := Str("")]["Allegati" := List([])]
  }

  /** What `estrai_dettagli` returns for a fetch outcome. */
  function DetailSpec(page: Option<DetailPage>): (d: Dettagli)
    ensures WellShaped(d)
    ensures page.None? ==> d == map[]
  {
    match page
    case None => map[]
    case Some(pg) => SplitAttachments(LabelMap(pg.rows), AttachmentLinks(pg.onclicks))
  }

  /** On a fetched page the field map holds the label map unchanged, plus
      the first attachment link as "Documento" and the others, in order,
      as "Allegati". The label loop never writes those two keys. */
  lemma DetailOfPage(pg: DetailPage)
    ensures var d := DetailSpec(Some(pg));
      var labels := LabelMap(pg.rows);
      var links := AttachmentLinks(pg.onclicks);
      && d.Keys == labels.Keys + {"Documento", "Allegati"}
      && "Documento" !in labels && "Allegati" !in labels
      && (forall k :: k in labels ==> d[k] == labels[k])
      && (links != [] ==> d["Documento"] == Str(links[0]) && d["Allegati"] == List(links[1..]))
      && (links == [] ==> d["Documento"] == Str("") && d["Allegati"] == List([]))
  {
    var labels := LabelMap(pg.rows);
    assert Excluded("Documento") by {
      assert Lower("Documento") == "documento";
    }
    assert Excluded("Allegati") by {
      assert Lower("Allegati") == "allegati";
    }
    var links := AttachmentLinks(pg.onclicks);
    var d := DetailSpec(Some(pg));
    if links != [] {
      assert [d["Documento"].s] + d["Allegati"].items == links;
      assert d["Allegati"].items == links[1..];
    }
  }

  // ---------------------------------------------------------------------
  // The listing

  /** `dettagli.get(label, "N/A")` for a label whose value is a string. */
  function TextOr(d: Dettagli, key: string): string
    requires WellShaped(d) && key != "Allegati"
  {
    if key in d then d[key].s else "N/A"
  }

  /** The record `estrai_pubblicazioni` assembles from a field map. */
  function Record(d: Dettagli): (p: Pubblicazione)
    requires WellShaped(d)
    ensures p.documento.Str?
    ensures "Allegati" in d ==> p.allegati == d["Allegati"]
    ensures "Allegati" !in d ==> p.allegati == List([])
    ensures "Numero pubblicazione" !in d ==> p.numeroPubblicazione == "N/A"
    ensures "Numero pubblicazione" in d ==> p.numeroPubblicazione == d["Numero pubblicazione"].s
  {
    Pubblicazione(
      TextOr(d, "Numero pubblicazione"),
      TextOr(d, "Mittente"),
      TextOr(d, "Tipo atto"),
      TextOr(d, "Registro generale"),
      TextOr(d, "Data registro generale"),
      TextOr(d, "Oggetto atto"),
      TextOr(d, "Data inizio pubblicazione"),
      TextOr(d, "Data fine pubblicazione"),
      if "Documento" in d then d["Documento"] else Str("N/A"),
      if "Allegati" in d then d["Allegati"] else List([]))
  }

  /** The detail labels the ten record fields are read from, in record order. */
  const RECORD_LABELS: seq<string> := [
    "Numero pubblicazione", "Mittente", "Tipo atto", "Registro generale",
    "Data registro generale", "Oggetto atto", "Data inizio pubblicazione",
    "Data fine pubblicazione", "Documento", "Allegati"]

  /** What a field defaults to when its label is absent: "N/A", and an
      empty list for the attachments. */
  function FieldDefault(i: nat): Value {
    if i < 9 then Str("N/A") else List([])
  }

  /** Each key of the record holds `d.get(label, default)` for its own
      label: the label's value when the detail page had it, the default
      otherwise. */
  lemma RecordFields(d: Dettagli)
    requires WellShaped(d)
    ensures |Items(Record(d))| == |RECORD_LABELS| == 10
    ensures forall i :: 0 <= i < 10 ==>
      Items(Record(d))[i] == (RECORD_KEYS[i], if RECORD_LABELS[i] in d then d[RECORD_LABELS[i]] else FieldDefault(i))
  {
    var p := Record(d);
    forall i | 0 <= i < 10
      ensures Items(p)[i] == (RECORD_KEYS[i], if RECORD_LABELS[i] in d then d[RECORD_LABELS[i]] else FieldDefault(i))
    {
      if i == 0 {} else if i == 1 {} else if i == 2 {} else if i == 3 {} else if i == 4 {}
      else if i == 5 {} else if i == 6 {} else if i == 7 {} else if i == 8 {} else {}
    }
  }

  /** A detail page that cannot be fetched still yields a record: every
      field is "N/A" and there are no attachments. */
  lemma RecordOfFailedFetch()
    ensures Record(DetailSpec(None)) == Pubblicazione(
      "N/A", "N/A", "N/A", "N/A", "N/A", "N/A", "N/A", "N/A", Str("N/A"), List([]))
  {
  }

  /** The detail URL of a listing row: `BASE_URL[:-1] + href`, or "#". */
  function DetailLink(row: ListingRow): (url: string)
    ensures row.href.None? ==> url == "#"
    ensures row.href.Some? ==> (|url| == |BASE_URL| - 1 + |row.href.value|
      && url[|BASE_URL| - 1..] == row.href.value && BASE_URL == url[..|BASE_URL| - 1] + "/")
  {
    if row.href.Some? then BASE_URL[..|BASE_URL| - 1] + row.href.value else "#"
  }

  /** The record the listing emits for an accepted row. */
  function RecordFor(site: Site, row: ListingRow): Pubblicazione {
    Record(DetailSpec(Fetch(site, DetailLink(row))))
  }

  /** A row is processed when it has at least five cells. */
  predicate Accepted(row: ListingRow) {
    row.cells >= 5
  }

  /** The rows the listing keeps, in table order. */
  function AcceptedRows(rows: seq<ListingRow>): (kept: seq<ListingRow>)
    ensures |kept| <= |rows|
    ensures forall k :: 0 <= k < |kept| ==> Accepted(kept[k]) && kept[k] in rows
    decreases |rows|
  {
    if rows == [] then []
    else AcceptedRows(rows[..|rows| - 1]) + (if Accepted(rows[|rows| - 1]) then [rows[|rows| - 1]] else [])
  }

  /** The records emitted for `rows`, in order. */
  function RowsSpec(site: Site, rows: seq<ListingRow>): seq<Pubblicazione>
    decreases |rows|
  {
    if rows == [] then []
    else
      var last := rows[|rows| - 1];
      RowsSpec(site, rows[..|rows| - 1]) + (if Accepted(last) then [RecordFor(site, last)] else [])
  }

  /** The table rows after the header; nothing when the listing cannot be
      fetched or has no results table. */
  function DataRows(site: Site): seq<ListingRow> {
    match site.listing
    case None => []
    case Some(page) =>
      match page.table
      case None => []
      case Some(rows) => if rows == [] then [] else rows[1..]
  }

  /** What `estrai_pubblicazioni` returns. */
  function ListingSpec(site: Site): (pubs: seq<Pubblicazione>)
    ensures site.listing.None? ==> pubs == []
    ensures site.listing.Some? && site.listing.value.table.None? ==> pubs == []
  {
    RowsSpec(site, DataRows(site))
  }

  /** One record per accepted row, in table order, each built from that
      row's detail page. */
  lemma {:induction false} RowsSpecIsMap(site: Site, rows: seq<ListingRow>)
    ensures |RowsSpec(site, rows)| == |AcceptedRows(rows)|
    ensures forall k :: 0 <= k < |AcceptedRows(rows)| ==>
      RowsSpec(site, rows)[k] == RecordFor(site, AcceptedRows(rows)[k])
    decreases |rows|
  {
    if rows != [] {
      RowsSpecIsMap(site, rows[..|rows| - 1]);
    }
  }

  lemma {:induction false} RowsSpecAppend(site: Site, a: seq<ListingRow>, b: seq<ListingRow>)
    ensures RowsSpec(site, a + b) == RowsSpec(site, a) + RowsSpec(site, b)
    decreases |b|
  {
    if b == [] {
      assert a + b == a;
    } else {
      var init := b[..|b| - 1];
      assert (a + b)[..|a + b| - 1] == a + init;
      RowsSpecAppend(site, a, init);
    }
  }

  /** A row with fewer than five cells is skipped and does not disturb the
      processing of the rows around it. */
  lemma MalformedRowSkipped(site: Site, a: seq<ListingRow>, row: ListingRow, b: seq<ListingRow>)
    requires !Accepted(row)
    ensures RowsSpec(site, a + [row] + b) == RowsSpec(site, a) + RowsSpec(site, b)
  {
    RowsSpecAppend(site, a + [row], b);
    RowsSpecAppend(site, a, [row]);
    RowsSpecSkipped(site, row);
  }

  /** A rejected row alone yields no record. */
  lemma RowsSpecSkipped(site: Site, row: ListingRow)
    requires !Accepted(row)
    ensures RowsSpec(site, [row]) == []
  {
    assert [row][..0] == [];
  }

  /** The header row is never turned into a record: the listing emits one
      record per accepted row after it. */
  lemma ListingSkipsHeader(site: Site, header: ListingRow, rows: seq<ListingRow>)
    requires site.listing == Some(ListingPage(Some([header] + rows)))
    ensures ListingSpec(site) == RowsSpec(site, rows)
    ensures |ListingSpec(site)| == |AcceptedRows(rows)|
  {
    assert ([header] + rows)[1..] == rows;
    RowsSpecIsMap(site, rows);
  }
}

/** `main.py`: the stand-alone monitor. It carries its own copies of the
    registry functions over the database file, of the detail and listing
    extraction, of the markdown escape (with an exemption for URLs) and of
    the notification text, and runs the monitoring loop. */
module Main {
  import opened Strings
  import opened Albo
  import opened Registry
  import opened Telegram
  import opened Monitor
  import opened Scrape

  // ---------------------------------------------------------------------
  // The registry, over the database file `pubblicazioni.db`

  /** `init_db`: CREATE TABLE IF NOT EXISTS. */
  method InitDb(db: Database)
    modifies db
    ensures db.pubblicazioni == Some(CreateIfNotExists(old(db.pubblicazioni)))
    ensures old(db.pubblicazioni).Some? ==> unchanged(db)
  {
    if db.pubblicazioni.None? {
      db.pubblicazioni := Some(map[]);
    }
  }

  /** `pubblicazione_esiste`: true exactly when a stored row has this id. */
  method PubblicazioneEsiste(db: Database, numeroPubblicazione: string) returns (found: bool)
    requires db.pubblicazioni.Some?
    ensures found <==> numeroPubblicazione in db.pubblicazioni.value
  {
    found := numeroPubblicazione in db.pubblicazioni.value;
  }

  /** `salva_pubblicazione`: normalises `documento` and `allegati`, then
      INSERT OR IGNORE. */
  method SalvaPubblicazione(db: Database, p: Pubblicazione)
    requires db.pubblicazioni.Some?
    modifies db
    ensures db.pubblicazioni == Some(InsertOrIgnore(old(db.pubblicazioni.value), p))
  {
    var documento := match p.documento
      case List(xs) => if xs != [] then xs[0] else "N/A"
      case Str(s) => s;
    var allegati := match p.allegati
      case List(xs) => Join(",", xs)
      case Str(s) => s;
    var row := Row(p.numeroPubblicazione, p.mittente, p.tipoAtto, p.registroGenerale,
                   p.dataRegistroGenerale, p.oggettoAtto, p.dataInizioPubblicazione,
                   p.dataFinePubblicazione, documento, allegati);
    var t := db.pubblicazioni.value;
    if p.numeroPubblicazione !in t {
      db.pubblicazioni := Some(t[p.numeroPubblicazione := row]);
    }
  }

  // ---------------------------------------------------------------------
  // Extraction

  /** `estrai_dettagli`: the field map of the page at `dettagliLink`, or the
      empty map when it cannot be fetched. */
  method EstraiDettagli(site: Site, dettagliLink: string) returns (dettagli: Dettagli)
    ensures dettagli == DetailSpec(Fetch(site, dettagliLink))
  {
    dettagli := map[];
    var response := Fetch(site, dettagliLink);
    if response.None? {
      return;
    }
    var page := response.value;
    dettagli := LabelLoop(page.rows);
    var allegati := AttachmentLoop(page.onclicks);
    if allegati != [] {
      dettagli := dettagli["Documento" := Str(allegati[0])]["Allegati" := List(allegati[1..])];
    } else {
      dettagli := dettagli["Documento" := Str("")]["Allegati" := List([])];
    }
  }

  /** `estrai_pubblicazioni`: one record per data row with at least five
      cells, in table order. */
  method EstraiPubblicazioni(site: Site) returns (pubblicazioni: seq<Pubblicazione>)
    ensures pubblicazioni == ListingSpec(site)
  {
    if site.listing.None? {
      return [];
    }
    var table := site.listing.value.table;
    if table.None? {
      return [];
    }
    var rows := if table.value == [] then [] else table.value[1..];
    pubblicazioni := [];
    for i := 0 to |rows|
      invariant pubblicazioni == RowsSpec(site, rows[..i])
    {
      assert rows[..i + 1][..i] == rows[..i];
      var row := rows[i];
      if row.cells < 5 {
        continue;
      }
      var dettagliLink := if row.href.Some? then BASE_URL[..|BASE_URL| - 1] + row.href.value else "#";
      var dettagliPubblicazione := EstraiDettagli(site, dettagliLink);
      pubblicazioni := pubblicazioni + [Record(dettagliPubblicazione)];
    }
    assert rows[..|rows|] == rows;
  }

  // ---------------------------------------------------------------------
  // The markdown escape, with the URL exemption

  /** What `escape_markdown` returns for a text. */
  function EscapedUnlessUrl(text: string): string {
    if StartsWith(text, "http") then text else Escaped(text)
  }

  /** A text that starts with "http" is returned as it is; any other text
      gets a backslash before each of `_ * [ ] ( )`, so that it grows by
      their number and the idealised reader `Unescape` recovers it. */
  lemma EscapedUnlessUrlMeaning(text: string)
    ensures StartsWith(text, "http") ==> EscapedUnlessUrl(text) == text
    ensures !StartsWith(text, "http") ==>
      && EscapedUnlessUrl(text) == Escaped(text)
      && |EscapedUnlessUrl(text)| == |text| + SpecialCount(text)
      && Unescape(EscapedUnlessUrl(text)) == text
  {
    if !StartsWith(text, "http") {
      EscapedLength(text);
      UnescapeEscaped(text);
    }
  }

  /** `escape_markdown`: one `replace` per special character, in order. */
  method EscapeMarkdown(value: Value) returns (text: string)
    ensures text == EscapedUnlessUrl(value.ToStr())
  {
    text := value.ToStr();
    if StartsWith(text, "http") {
      return;
    }
    ghost var original := text;
    EscapedInEmpty(original);
    for i := 0 to |Special|
      invariant text == EscapedIn(original, Special[..i])
    {
      ReplaceLoopStep(original, i);
      text := ReplaceEscape(text, Special[i]);
    }
    EscapedInAll(original);
  }

  // ---------------------------------------------------------------------
  // The notification text

  const HEADER: string := "📌 *Nuova Pubblicazione Albo Pretorio*"
  const FIELD_MARK: string := "📄 *"
  const DOCUMENTO_MARK: string := "📎 *Documento:* "
  const ALLEGATI_MARK: string := "📎 *Allegati:* "

  /** The keys that get a line of their own at the end. */
  predicate Separate(key: string) {
    key == "documento" || key == "allegati"
  }

  function FieldLine(key: string, value: Value): string {
    FIELD_MARK + Title(ReplaceChar(key, '_', ' ')) + ":* " + EscapedUnlessUrl(value.ToStr())
  }

  /** One line per key other than `documento` and `allegati`, in dict order. */
  function FieldLines(d: Dict): (lines: seq<string>)
    ensures |lines| <= |d|
    decreases |d|
  {
    if d == [] then []
    else
      var key := d[|d| - 1].0;
      FieldLines(d[..|d| - 1]) + (if Separate(key) then [] else [FieldLine(key, d[|d| - 1].1)])
  }

  /** Every field line starts with the field mark. */
  lemma {:induction false} FieldLinesMarked(d: Dict)
    ensures forall k :: 0 <= k < |FieldLines(d)| ==> StartsWith(FieldLines(d)[k], FIELD_MARK)
    decreases |d|
  {
    if d != [] {
      var init, last := d[..|d| - 1], d[|d| - 1];
      FieldLinesMarked(init);
      if !Separate(last.0) {
        var line := FieldLine(last.0, last.1);
        assert line[..|FIELD_MARK|] == FIELD_MARK;
        var lines := FieldLines(init) + [line];
        assert FieldLines(d) == lines;
        forall k | 0 <= k < |lines| ensures StartsWith(lines[k], FIELD_MARK) {
          if k < |lines| - 1 {
            assert lines[k] == FieldLines(init)[k];
          }
        }
      }
    }
  }

  function LinkMarkup(links: seq<string>): (r: seq<string>)
    ensures |r| == |links|
  {
    seq(|links|, i requires 0 <= i < |links| => "[Link](" + links[i] + ")")
  }

  function DocumentoText(documento: Option<Value>): string {
    if documento.Some? && documento.value.Truthy() then "[Link](" + documento.value.ToStr() + ")"
    else "Nessun documento"
  }

  function AllegatiText(allegati: Value): string {
    if allegati.Truthy() then Join(", ", LinkMarkup(allegati.Iter())) else "Nessun allegato"
  }

  /** The lines of the message, before they are joined. */
  function MessageLines(d: Dict): seq<string> {
    [HEADER] + FieldLines(d) +
    [DOCUMENTO_MARK + DocumentoText(Get(d, "documento")),
     ALLEGATI_MARK + AllegatiText(Get(d, "allegati").GetOr(List([])))]
  }

  /** The request `invia_messaggio_telegram` posts for a record. */
  function Notification(token: string, chatId: string, d: Dict): Request {
    MarkdownMessage(token, chatId, Join("\n", MessageLines(d)))
  }

  /** Visiting one more entry adds its line, unless it is `documento` or
      `allegati`. */
  lemma FieldLinesStep(d: Dict, i: nat)
    requires i < |d|
    ensures FieldLines(d[..i + 1]) == FieldLines(d[..i]) +
      (if Separate(d[i].0) then [] else [FieldLine(d[i].0, d[i].1)])
  {
    assert d[..i + 1][..i] == d[..i];
  }

  /** The field loop of `invia_messaggio_telegram`: one line per entry in
      dict order, `documento` and `allegati` excepted. */
  method AppendFields(lines: seq<string>, d: Dict) returns (out: seq<string>)
    ensures out == lines + FieldLines(d)
  {
    out := lines;
    for i := 0 to |d|
      invariant out == lines + FieldLines(d[..i])
    {
      FieldLinesStep(d, i);
      var key, value := d[i].0, d[i].1;
      if key in ["documento", "allegati"] {
        continue;
      }
      var escaped := EscapeMarkdown(value);
      out := out + [FIELD_MARK + Title(ReplaceChar(key, '_', ' ')) + ":* " + escaped];
    }
    assert d[..|d|] == d;
  }

  /** `invia_messaggio_telegram`: builds the text line by line and returns
      the request it posts. */
  method InviaMessaggioTelegram(token: string, chatId: string, pubblicazione: Dict) returns (request: Request)
    ensures request == Notification(token, chatId, pubblicazione)
  {
    var lines := [HEADER];
    lines := AppendFields(lines, pubblicazione);
    var documento := Get(pubblicazione, "documento");
    var documentoStr := if documento.Some? && documento.value.Truthy()
      then "[Link](" + documento.value.ToStr() + ")" else "Nessun documento";
    lines := lines + [DOCUMENTO_MARK + documentoStr];
    var allegati := Get(pubblicazione, "allegati").GetOr(List([]));
    var allegatiStr := if allegati.Truthy() then Join(", ", LinkMarkup(allegati.Iter())) else "Nessun allegato";
    lines := lines + [ALLEGATI_MARK + allegatiStr];
    assert documentoStr == DocumentoText(documento);
    assert allegatiStr == AllegatiText(allegati);
    assert lines == MessageLines(pubblicazione);
    var testo := Join("\n", lines);
    request := MarkdownMessage(token, chatId, testo);
  }

  lemma {:induction false} FieldLinesAppend(a: Dict, b: Dict)
    ensures FieldLines(a + b) == FieldLines(a) + FieldLines(b)
    decreases |b|
  {
    if b == [] {
      assert a + b == a;
    } else {
      assert (a + b)[..|a + b| - 1] == a + b[..|b| - 1];
      FieldLinesAppend(a, b[..|b| - 1]);
    }
  }

  /** Without `documento` and `allegati`, every entry gets its line, in order. */
  lemma {:induction false} FieldLinesAll(d: Dict)
    requires forall i :: 0 <= i < |d| ==> !Separate(d[i].0)
    ensures |FieldLines(d)| == |d|
    ensures forall i {:trigger FieldLines(d)[i]} :: 0 <= i < |d| ==> FieldLines(d)[i] == FieldLine(d[i].0, d[i].1)
    decreases |d|
  {
    if d != [] {
      var init, last := d[..|d| - 1], d[|d| - 1];
      assert forall i :: 0 <= i < |init| ==> !Separate(init[i].0) by {
        forall i | 0 <= i < |init| ensures !Separate(init[i].0) {
          assert init[i] == d[i];
        }
      }
      FieldLinesAll(init);
      FieldLinesLast(d);
      assert d == init + [last];
      PointwiseSnoc(init, FieldLines(init), last, FieldLine(last.0, last.1), FieldLines(d), d,
        (e: (string, Value)) => FieldLine(e.0, e.1));
    }
  }

  /** The last entry of the dict, when it is not `documento` or `allegati`,
      gives the last field line. */
  lemma FieldLinesLast(d: Dict)
    requires d != [] && !Separate(d[|d| - 1].0)
    ensures FieldLines(d) == FieldLines(d[..|d| - 1]) + [FieldLine(d[|d| - 1].0, d[|d| - 1].1)]
  {
  }

  /** A sequence that is `f` applied pointwise stays so when both sides grow
      by one matching element. */
  lemma PointwiseSnoc<A, B>(xs: seq<A>, ys: seq<B>, x: A, y: B, zs: seq<B>, ds: seq<A>, f: A -> B)
    requires |xs| == |ys| && forall i :: 0 <= i < |xs| ==> ys[i] == f(xs[i])
    requires y == f(x) && zs == ys + [y] && ds == xs + [x]
    ensures |zs| == |ds| && forall i :: 0 <= i < |ds| ==> zs[i] == f(ds[i])
  {
    forall i | 0 <= i < |ds| ensures zs[i] == f(ds[i]) {
      if i < |xs| {
        assert zs[i] == ys[i] && ds[i] == xs[i];
      }
    }
  }

  /** The header and the field lines are told apart from the two
      attachment lines by their first characters. */
  lemma MarksDiffer(line: string)
    requires line == HEADER || StartsWith(line, FIELD_MARK)
    ensures !StartsWith(line, DOCUMENTO_MARK) && !StartsWith(line, ALLEGATI_MARK)
  {
    assert line[0] == '📌' || line[0] == '📄';
  }

  lemma AttachmentMarksDiffer(line: string)
    ensures StartsWith(line, DOCUMENTO_MARK) ==> !StartsWith(line, ALLEGATI_MARK)
  {
    if StartsWith(line, DOCUMENTO_MARK) {
      assert line[3] == 'D';
    }
  }

  /** The message has the header first, then the field lines, then exactly
      one `Documento` line and last exactly one `Allegati` line. */
  lemma MessageShape(d: Dict)
    ensures var lines := MessageLines(d);
      && |lines| == |FieldLines(d)| + 3
      && lines[0] == HEADER
      && lines[1..|lines| - 2] == FieldLines(d)
      && StartsWith(lines[|lines| - 2], DOCUMENTO_MARK)
      && StartsWith(lines[|lines| - 1], ALLEGATI_MARK)
      && (forall k :: 0 <= k < |lines| && k != |lines| - 2 ==> !StartsWith(lines[k], DOCUMENTO_MARK))
      && (forall k :: 0 <= k < |lines| - 1 ==> !StartsWith(lines[k], ALLEGATI_MARK))
  {
    var lines := MessageLines(d);
    var body := FieldLines(d);
    FieldLinesMarked(d);
    var n := |lines|;
    assert lines[1..n - 2] == body;
    forall k | 0 <= k < n - 2
      ensures !StartsWith(lines[k], DOCUMENTO_MARK) && !StartsWith(lines[k], ALLEGATI_MARK)
    {
      if k > 0 {
        assert lines[k] == body[k - 1];
      }
      MarksDiffer(lines[k]);
    }
    var documentoLine, allegatiLine := lines[n - 2], lines[n - 1];
    assert StartsWith(documentoLine, DOCUMENTO_MARK) && StartsWith(allegatiLine, ALLEGATI_MARK);
    AttachmentMarksDiffer(documentoLine);
    AttachmentMarksDiffer(allegatiLine);
  }

  /** For a record, the field lines are those of its first eight keys in
      record order, and the two attachment fields get no field line. */
  lemma RecordFieldLines(p: Pubblicazione)
    ensures |FieldLines(Items(p))| == 8
    ensures forall i :: 0 <= i < 8 ==> FieldLines(Items(p))[i] == FieldLine(RECORD_KEYS[i], Items(p)[i].1)
  {
    var d := Items(p);
    assert d == d[..8] + d[8..];
    FieldLinesAppend(d[..8], d[8..]);
    ItemsIsDict(p);
    KeptKeysNotSeparate(d[..8]);
    FieldLinesAll(d[..8]);
    assert d[8..][..1] == [d[8]];
    assert [d[8]][..0] == [];
  }

  lemma KeptKeysNotSeparate(d: Dict)
    requires |d| == 8 && forall i :: 0 <= i < 8 ==> d[i].0 == RECORD_KEYS[i]
    ensures forall i :: 0 <= i < |d| ==> !Separate(d[i].0)
  {
    forall i | 0 <= i < 8 ensures !Separate(RECORD_KEYS[i]) {
      var k := RECORD_KEYS[i];
      assert |k| != 9 || k[0] != 'd';
      assert |k| != 8 || k[0] != 'a';
    }
  }

  /** For a record, the `Documento` line links its document when there is
      one, says "Nessun documento" when the page had no attachment, and the
      `Allegati` line lists one `[Link](a)` per further attachment, or says
      "Nessun allegato". A record whose detail page could not be fetched
      carries the "N/A" default, which is shown as a link. */
  lemma RecordAttachmentLines(p: Pubblicazione)
    requires p.documento.Str? && p.allegati.List?
    ensures var lines := MessageLines(Items(p));
      && lines[|lines| - 2] == DOCUMENTO_MARK +
           (if p.documento.s == "" then "Nessun documento" else "[Link](" + p.documento.s + ")")
      && lines[|lines| - 1] == ALLEGATI_MARK +
           (if p.allegati.items == [] then "Nessun allegato" else Join(", ", LinkMarkup(p.allegati.items)))
  {
    var d := Items(p);
    ItemsIsDict(p);
    GetAt(d, 8);
    GetAt(d, 9);
  }

  // ---------------------------------------------------------------------
  // The monitoring loop

  /** The notification the loop sends for a record. */
  function Render(token: string, chatId: string): Pubblicazione -> Request {
    p => Notification(token, chatId, Items(p))
  }

  /** The body of the loop for one record: skipped when its id is stored,
      else saved and then notified. */
  method MonitoraStep(db: Database, pub: Pubblicazione, token: string, chatId: string, log: seq<Event>)
      returns (newLog: seq<Event>)
    requires db.pubblicazioni.Some?
    modifies db
    ensures db.pubblicazioni.Some?
    ensures State(db.pubblicazioni.value, newLog) ==
      Step(State(old(db.pubblicazioni.value), log), pub, Render(token, chatId))
  {
    newLog := log;
    var esiste := PubblicazioneEsiste(db, pub.numeroPubblicazione);
    if !esiste {
      SalvaPubblicazione(db, pub);
      newLog := newLog + [Saved(pub)];
      var request := InviaMessaggioTelegram(token, chatId, Items(pub));
      newLog := newLog + [Sent(pub, request)];
    }
  }

  /** One pass of `monitora_albo`: each extracted record whose id is not
      stored is saved, then notified. The log records the saves and the
      requests posted, in order. */
  method MonitoraAlbo(db: Database, site: Site, token: string, chatId: string) returns (log: seq<Event>)
    requires db.pubblicazioni.Some?
    modifies db
    ensures var cycle := Cycle(old(db.pubblicazioni.value), ListingSpec(site), Render(token, chatId));
      db.pubblicazioni == Some(cycle.table) && log == cycle.log
  {
    ghost var start := State(db.pubblicazioni.value, []);
    ghost var render := Render(token, chatId);
    var pubs := EstraiPubblicazioni(site);
    log := [];
    for i := 0 to |pubs|
      invariant db.pubblicazioni.Some?
      invariant State(db.pubblicazioni.value, log) == Run(start, pubs[..i], render)
    {
      log := MonitoraStep(db, pubs[i], token, chatId, log);
      RunStep(start, pubs, i, render);
    }
    assert pubs[..|pubs|] == pubs;
  }

  /** The script's entry point, for one pass of the loop: create the table
      if needed, then monitor. Rows already stored are kept. */
  method Start(db: Database, site: Site, token: string, chatId: string) returns (log: seq<Event>)
    modifies db
    ensures var cycle := Cycle(CreateIfNotExists(old(db.pubblicazioni)), ListingSpec(site), Render(token, chatId));
      db.pubblicazioni == Some(cycle.table) && log == cycle.log
  {
    InitDb(db);
    log := MonitoraAlbo(db, site, token, chatId);
  }
}

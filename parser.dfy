/** `scraper/parser.py`: `AlboParser`, the extraction the scraper service
    uses. It holds the HTTP session; here the session is the snapshot of
    the board it reads. */
module Parser {
  import opened Strings
  import opened Albo
  import opened Scrape

  class AlboParser {
    /** What `self.session` can fetch. */
    const session: Site

    constructor (session: Site)
      ensures this.session == session
    {
      this.session := session;
    }

    /** `estrai_dettagli`: the field map of the page at `dettagliLink`, or
        the empty map when the fetch fails. */
    method EstraiDettagli(dettagliLink: string) returns (dettagli: Dettagli)
      ensures dettagli == DetailSpec(Fetch(session, dettagliLink))
    {
      dettagli := map[];
      var response := Fetch(session, dettagliLink);
      if response.None? {
        return;
      }
      var page := response.value;
      dettagli := LabelLoop(page.rows);
      var allegati := AttachmentLoop(page.onclicks);
      if allegati != [] {
        dettagli := dettagli["Documento" := Str(allegati[0])]["Allegati" := List(allegati[1..])];
      } else {
        dettagli := dettagli["Documento" := Str("")]["Allegati" := List([])];
      }
    }

    /** `estrai_pubblicazioni`: one record per data row with at least five
        cells, in table order; nothing when the listing cannot be fetched
        or has no results table. */
    method EstraiPubblicazioni() returns (pubblicazioni: seq<Pubblicazione>)
      ensures pubblicazioni == ListingSpec(session)
    {
      if session.listing.None? {
        return [];
      }
      var table := session.listing.value.table;
      if table.None? {
        return [];
      }
      var rows := if table.value == [] then [] else table.value[1..];
      pubblicazioni := [];
      for i := 0 to |rows|
        invariant pubblicazioni == RowsSpec(session, rows[..i])
      {
        assert rows[..i + 1][..i] == rows[..i];
        var row := rows[i];
        if row.cells < 5 {
          continue;
        }
        var dettagliLink := if row.href.Some? then BASE_URL[..|BASE_URL| - 1] + row.href.value else "#";
        var dettagliPubblicazione := EstraiDettagli(dettagliLink);
        pubblicazioni := pubblicazioni + [Record(dettagliPubblicazione)];
      }
      assert rows[..|rows|] == rows;
    }
  }
}

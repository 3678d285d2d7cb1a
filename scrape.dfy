/** The two loops of `estrai_dettagli`, which `main.py` and
    `scraper/parser.py` run word for word: the label loop over the detail
    rows and the attachment loop over the `onclick` anchors. */
module Scrape {
  import opened Strings
  import opened Albo

  /** The label loop: copies each label/value pair with both divs present,
      stripped, unless the label is `documento` or `allegati` in any case. */
  method LabelLoop(rows: seq<DetailRow>) returns (dettagli: Dettagli)
    ensures dettagli == LabelMap(rows)
  {
    dettagli := map[];
    for i := 0 to |rows|
      invariant dettagli == LabelMap(rows[..i])
    {
      assert rows[..i + 1][..i] == rows[..i];
      dettagli := LabelRow(dettagli, rows[i]);
    }
    assert rows[..|rows|] == rows;
  }

  /** The body of the label loop for one detail row. */
  method LabelRow(dettagli: Dettagli, row: DetailRow) returns (updated: Dettagli)
    ensures updated == LabelStep(dettagli, row)
  {
    updated := dettagli;
    if row.labelDiv.Some? && row.valueDiv.Some? {
      var labelText := Strip(row.labelDiv.value);
      var excluded := Lower(labelText) in ["documento", "allegati"];
      assert excluded == Excluded(labelText);
      if !excluded {
        updated := updated[labelText := Str(Strip(row.valueDiv.value))];
      }
    }
  }

  /** The attachment loop: for each `onclick` that mentions the attachment
      endpoint and matches the pattern, `BASE_URL` + the group, in order. */
  method AttachmentLoop(onclicks: seq<string>) returns (allegati: seq<string>)
    ensures allegati == AttachmentLinks(onclicks)
  {
    allegati := [];
    for j := 0 to |onclicks|
      invariant allegati == AttachmentLinks(onclicks[..j])
    {
      allegati := AttachmentStep(allegati, onclicks[j]);
      AttachmentLinksStep(onclicks, j);
    }
    assert onclicks[..|onclicks|] == onclicks;
  }

  /** The body of the attachment loop for one `onclick`: appends its link,
      if it has one. */
  method AttachmentStep(allegati: seq<string>, onclick: string) returns (updated: seq<string>)
    ensures updated == allegati + LinkOf(onclick)
  {
    updated := allegati;
    if Contains(onclick, ATTACHMENT_ENDPOINT) {
      var found := Search(onclick);
      if found.Some? {
        updated := updated + [BASE_URL + found.value];
      }
    }
  }
}

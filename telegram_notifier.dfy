/** `scraper/telegram_notifier.py`: the scraper service's notifier. Its
    markdown escape has no exemption for links; the message lists the
    fields in ascending key order, leaves out six of them, and numbers the
    attachment links. */
module TelegramNotifier {
  import opened Strings
  import opened Albo
  import opened Telegram
  import opened Registry

  /** `escape_markdown`: one `replace` per special character, in order, on
      the string form of the value. */
  method EscapeMarkdown(value: Value) returns (text: string)
    ensures text == Escaped(value.ToStr())
    ensures |text| == |value.ToStr()| + SpecialCount(value.ToStr())
    ensures Unescape(text) == value.ToStr()
  {
    text := value.ToStr();
    ghost var original := text;
    EscapedInEmpty(original);
    for i := 0 to |Special|
      invariant text == EscapedIn(original, Special[..i])
    {
      ReplaceLoopStep(original, i);
      text := ReplaceEscape(text, Special[i]);
    }
    EscapedInAll(original);
    EscapedLength(original);
    UnescapeEscaped(original);
  }

  // ---------------------------------------------------------------------
  // The message text

  /** The titles of the fields the message never lists. */
  const SKIP_KEYS: set<string> := {
    "Tipo Atto", "Registro Generale", "Data Registro Generale",
    "Data Fine Pubblicazione", "Allegati", "Documento"}

  const HEADER: string := "📢 *Nuova pubblicazione*\n"
  const NOTE: string := "\n⚠️ *Nota:* Se il download non parte automaticamente, apri il link con il tuo browser."
  const MORE: string := "\n🔎 Clicca [QUI](https://acerno.streamlit.app/) per maggiori informazioni."

  /** `key.replace('_', ' ').title()` */
  function KeyTitle(key: string): (r: string)
    ensures |r| == |key|
  {
    Title(ReplaceChar(key, '_', ' '))
  }

  predicate Skipped(key: string) {
    KeyTitle(key) in SKIP_KEYS
  }

  /** The line of one listed field. */
  function BodyLine(key: string, value: Value): string {
    "*" + KeyTitle(key) + ":* " + Escaped(value.ToStr())
  }

  /** The lines the body loop adds while visiting `keys` in order: one per
      key whose title is not skipped, with the escaped value stored under it. */
  function BodyLines(d: Dict, keys: seq<string>): (lines: seq<string>)
    requires forall k :: k in keys ==> k in Keys(d)
    ensures |lines| <= |keys|
    decreases |keys|
  {
    if keys == [] then []
    else
      var key := keys[|keys| - 1];
      BodyLines(d, keys[..|keys| - 1]) + (if Skipped(key) then [] else [BodyLine(key, Get(d, key).value)])
  }

  /** The keys of `keys` that get a line, in the same order. */
  function ShownKeys(keys: seq<string>): (shown: seq<string>)
    ensures |shown| <= |keys|
    decreases |keys|
  {
    if keys == [] then []
    else ShownKeys(keys[..|keys| - 1]) + (if Skipped(keys[|keys| - 1]) then [] else [keys[|keys| - 1]])
  }

  /** The link of the `Documento` line: the first element of a list, or the string. */
  function DocLink(documento: Value): string
    requires documento.Truthy()
  {
    if documento.List? then documento.items[0] else documento.s
  }

  /** The `Documento` line: present only for a truthy value other than "N/A". */
  function DocumentoLines(documento: Option<Value>): (lines: seq<string>)
    ensures |lines| <= 1
  {
    if documento.Some? && documento.value.Truthy() && documento.value != Str("N/A")
    then ["\n*Documento:* [Apri](" + DocLink(documento.value) + ")"]
    else []
  }

  /** A link as the comprehension leaves it: non-empty, with no blank at
      either end. */
  predicate Trimmed(x: string) {
    x != [] && !IsSpace(x[0]) && !IsSpace(x[|x| - 1])
  }

  /** The parts of a split kept by the comprehension: each stripped, empty ones dropped. */
  function KeepStripped(parts: seq<string>): (kept: seq<string>)
    ensures |kept| <= |parts|
    ensures forall k :: 0 <= k < |kept| ==> Trimmed(kept[k])
    decreases |parts|
  {
    if parts == [] then []
    else
      var last := Strip(parts[|parts| - 1]);
      StripNoBlankEnds(parts[|parts| - 1]);
      KeepStripped(parts[..|parts| - 1]) + (if last != [] then [last] else [])
  }

  /** Stripping adds no comma: parts without one give links without one. */
  lemma {:induction false} KeepStrippedNoComma(parts: seq<string>)
    requires forall j :: 0 <= j < |parts| ==> ',' !in parts[j]
    ensures forall k :: 0 <= k < |KeepStripped(parts)| ==> ',' !in KeepStripped(parts)[k]
    decreases |parts|
  {
    if parts != [] {
      var init := parts[..|parts| - 1];
      assert forall j :: 0 <= j < |init| ==> init[j] == parts[j];
      KeepStrippedNoComma(init);
      if ',' in Strip(parts[|parts| - 1]) {
        StripFromInput(parts[|parts| - 1], ',');
      }
    }
  }

  /** The attachment links of a string value: split on ",", stripped, empty
      parts dropped. */
  function SplitLinks(s: string): (links: seq<string>)
    ensures forall k :: 0 <= k < |links| ==>
      links[k] != [] && ',' !in links[k] && !IsSpace(links[k][0]) && !IsSpace(links[k][|links[k]| - 1])
  {
    KeepStrippedNoComma(Split(s, ','));
    KeepStripped(Split(s, ','))
  }

  /** The attachment links of a value: a list as it is, a string split. */
  function AllegatiLinks(allegati: Value): seq<string> {
    match allegati
    case List(xs) => xs
    case Str(s) => SplitLinks(s)
  }

  /** `[Apri k](a)` for the k-th link a, counting from 1. */
  function Numbered(links: seq<string>): (r: seq<string>)
    ensures |r| == |links|
  {
    seq(|links|, i requires 0 <= i < |links| => "[Apri " + NatToString(i + 1) + "](" + links[i] + ")")
  }

  /** The `Allegati` line: present for a truthy value other than "N/A" that
      yields at least one link. */
  function AllegatiLines(allegati: Option<Value>): (lines: seq<string>)
    ensures |lines| <= 1
  {
    if allegati.Some? && allegati.value.Truthy() && allegati.value != Str("N/A") && AllegatiLinks(allegati.value) != []
    then ["*Allegati:* " + Join(" ", Numbered(AllegatiLinks(allegati.value)))]
    else []
  }

  /** Every key of the dict is among its sorted keys. */
  lemma SortedKeysOf(d: Dict)
    ensures forall k :: k in SortStrings(Keys(d)) ==> k in Keys(d)
  {
    var keys := SortStrings(Keys(d));
    forall k | k in keys ensures k in Keys(d) {
      assert k in multiset(keys);
    }
  }

  /** The body lines of the message. */
  function Body(d: Dict): seq<string> {
    SortedKeysOf(d);
    BodyLines(d, SortStrings(Keys(d)))
  }

  /** The lines of the message, before they are joined. */
  function MessageLines(d: Dict): seq<string> {
    [HEADER] + Body(d) + DocumentoLines(Get(d, "documento")) + AllegatiLines(Get(d, "allegati")) + [NOTE, MORE]
  }

  /** The request `invia_messaggio` posts for a publication. */
  function Message(token: string, chatId: string, d: Dict): Request {
    MarkdownMessage(token, chatId, Join("\n", MessageLines(d)))
  }

  /** Visiting one more key adds its line, unless its title is skipped. */
  lemma BodyLinesStep(d: Dict, keys: seq<string>, i: nat)
    requires forall k :: k in keys ==> k in Keys(d)
    requires i < |keys|
    ensures keys[i] in Keys(d)
    ensures BodyLines(d, keys[..i + 1]) == BodyLines(d, keys[..i]) +
      (if Skipped(keys[i]) then [] else [BodyLine(keys[i], Get(d, keys[i]).value)])
  {
    assert keys[..i + 1][..i] == keys[..i];
  }

  /** The body loop of `invia_messaggio`: visits the keys in sorted order
      and appends a line for each key whose title is not skipped. */
  method AppendBody(lines: seq<string>, d: Dict) returns (out: seq<string>)
    ensures out == lines + Body(d)
  {
    out := lines;
    var keys := SortStrings(Keys(d));
    SortedKeysOf(d);
    for i := 0 to |keys|
      invariant out == lines + BodyLines(d, keys[..i])
    {
      BodyLinesStep(d, keys, i);
      var key := keys[i];
      var keyTitle := Title(ReplaceChar(key, '_', ' '));
      if keyTitle in SKIP_KEYS {
        assert Skipped(key);
        continue;
      }
      var value := EscapeMarkdown(Get(d, key).value);
      out := out + ["*" + keyTitle + ":* " + value];
    }
    assert keys[..|keys|] == keys;
  }

  /** The `Documento` step of `invia_messaggio`. */
  method AppendDocumento(lines: seq<string>, documento: Option<Value>) returns (out: seq<string>)
    ensures out == lines + DocumentoLines(documento)
  {
    out := lines;
    if documento.Some? && documento.value.Truthy() && documento.value != Str("N/A") {
      var docLink := if documento.value.List? then documento.value.items[0] else documento.value.s;
      out := out + ["\n*Documento:* [Apri](" + docLink + ")"];
    }
  }

  /** The `Allegati` step of `invia_messaggio`: a list is taken as it is, a
      string is split on commas; the line is added only when there is at
      least one link. */
  method AppendAllegati(lines: seq<string>, allegati: Option<Value>) returns (out: seq<string>)
    ensures out == lines + AllegatiLines(allegati)
  {
    out := lines;
    if allegati.Some? && allegati.value.Truthy() && allegati.value != Str("N/A") {
      var allegatiLinks := if allegati.value.List? then allegati.value.items else SplitLinks(allegati.value.s);
      assert allegatiLinks == AllegatiLinks(allegati.value);
      if allegatiLinks != [] {
        var allegatiFormattati := Join(" ", Numbered(allegatiLinks));
        out := out + ["*Allegati:* " + allegatiFormattati];
      }
    } else {
      assert AllegatiLines(allegati) == [];
    }
  }

  class TelegramNotifier {
    const token: string
    const chatId: string

    constructor (token: string, chatId: string)
      ensures this.token == token && this.chatId == chatId
    {
      this.token := token;
      this.chatId := chatId;
    }

    /** `invia_messaggio`: builds the text line by line and returns the
        request it posts. */
    method InviaMessaggio(pubblicazione: Dict) returns (request: Request)
      ensures request == Message(token, chatId, pubblicazione)
    {
      var lines := [HEADER];
      lines := AppendBody(lines, pubblicazione);
      lines := AppendDocumento(lines, Get(pubblicazione, "documento"));
      lines := AppendAllegati(lines, Get(pubblicazione, "allegati"));
      lines := lines + [NOTE];
      lines := lines + [MORE];
      assert lines == MessageLines(pubblicazione);
      var testo := Join("\n", lines);
      request := MarkdownMessage(token, chatId, testo);
    }
  }

  // ---------------------------------------------------------------------
  // Properties of the message

  /** The shown keys are the keys whose title is not skipped, in their
      original order: sorted keys stay sorted and distinct keys distinct. */
  lemma ShownKeysFacts(keys: seq<string>)
    ensures forall k :: k in ShownKeys(keys) <==> k in keys && !Skipped(k)
    ensures IsSorted(keys) ==> IsSorted(ShownKeys(keys))
    ensures Distinct(keys) ==> Distinct(ShownKeys(keys))
  {
    ShownKeysMembers(keys);
    if IsSorted(keys) {
      ShownKeysSorted(keys);
    }
    if Distinct(keys) {
      ShownKeysDistinct(keys);
    }
  }

  lemma {:induction false} ShownKeysMembers(keys: seq<string>)
    ensures forall k :: k in ShownKeys(keys) <==> k in keys && !Skipped(k)
    decreases |keys|
  {
    if keys != [] {
      var init, last := keys[..|keys| - 1], keys[|keys| - 1];
      ShownKeysMembers(init);
      assert keys == init + [last];
    }
  }

  lemma {:induction false} ShownKeysSorted(keys: seq<string>)
    requires IsSorted(keys)
    ensures IsSorted(ShownKeys(keys))
    decreases |keys|
  {
    if keys != [] {
      var init, last := keys[..|keys| - 1], keys[|keys| - 1];
      assert IsSorted(init) by {
        forall i, j | 0 <= i < j < |init| ensures LessEq(init[i], init[j]) {
          assert init[i] == keys[i] && init[j] == keys[j];
        }
      }
      ShownKeysSorted(init);
      ShownKeysMembers(init);
      var before := ShownKeys(init);
      if !Skipped(last) {
        var shown := before + [last];
        assert ShownKeys(keys) == shown;
        forall i, j | 0 <= i < j < |shown| ensures LessEq(shown[i], shown[j]) {
          assert shown[i] == before[i];
          if j == |before| {
            assert before[i] in before;
            var k :| 0 <= k < |init| && init[k] == before[i];
            assert keys[k] == init[k];
          } else {
            assert shown[j] == before[j];
          }
        }
      }
    }
  }

  lemma {:induction false} ShownKeysDistinct(keys: seq<string>)
    requires Distinct(keys)
    ensures Distinct(ShownKeys(keys))
    decreases |keys|
  {
    if keys != [] {
      var init, last := keys[..|keys| - 1], keys[|keys| - 1];
      assert Distinct(init) by {
        forall i, j | 0 <= i < j < |init| ensures init[i] != init[j] {
          assert init[i] == keys[i] && init[j] == keys[j];
        }
      }
      ShownKeysDistinct(init);
      ShownKeysMembers(init);
      var before := ShownKeys(init);
      if !Skipped(last) {
        var shown := before + [last];
        assert ShownKeys(keys) == shown;
        forall i, j | 0 <= i < j < |shown| ensures shown[i] != shown[j] {
          assert shown[i] == before[i];
          if j == |before| {
            assert before[i] in before;
            var k :| 0 <= k < |init| && init[k] == before[i];
            assert keys[k] == init[k];
          } else {
            assert shown[j] == before[j];
          }
        }
      }
    }
  }

  /** The body loop adds one line per shown key, in order, with the value
      stored under that key. */
  lemma {:induction false} BodyLinesShown(d: Dict, keys: seq<string>)
    requires forall k :: k in keys ==> k in Keys(d)
    ensures var shown := ShownKeys(keys);
      && |BodyLines(d, keys)| == |shown|
      && forall i :: 0 <= i < |shown| ==>
        shown[i] in Keys(d) && BodyLines(d, keys)[i] == BodyLine(shown[i], Get(d, shown[i]).value)
    decreases |keys|
  {
    if keys != [] {
      var init, last := keys[..|keys| - 1], keys[|keys| - 1];
      assert forall k :: k in init ==> k in keys;
      BodyLinesShown(d, init);
      var lines0, shown0 := BodyLines(d, init), ShownKeys(init);
      assert LinesMatch(d, lines0, shown0);
      BodyLinesLast(d, keys);
      if !Skipped(last) {
        LinesMatchSnoc(d, lines0, shown0, last);
      }
    }
  }

  /** `lines` are the lines of the keys `shown`, position by position. */
  predicate LinesMatch(d: Dict, lines: seq<string>, shown: seq<string>) {
    && |lines| == |shown|
    && forall i :: 0 <= i < |shown| ==>
      shown[i] in Keys(d) && lines[i] == BodyLine(shown[i], Get(d, shown[i]).value)
  }

  lemma LinesMatchSnoc(d: Dict, lines: seq<string>, shown: seq<string>, k: string)
    requires LinesMatch(d, lines, shown) && k in Keys(d)
    ensures LinesMatch(d, lines + [BodyLine(k, Get(d, k).value)], shown + [k])
  {
  }

  /** One unfolding of the body lines and the shown keys at the last key. */
  lemma BodyLinesLast(d: Dict, keys: seq<string>)
    requires forall k :: k in keys ==> k in Keys(d)
    requires keys != []
    ensures keys[|keys| - 1] in Keys(d)
    ensures Skipped(keys[|keys| - 1]) ==>
      BodyLines(d, keys) == BodyLines(d, keys[..|keys| - 1]) && ShownKeys(keys) == ShownKeys(keys[..|keys| - 1])
    ensures !Skipped(keys[|keys| - 1]) ==>
      && BodyLines(d, keys) == BodyLines(d, keys[..|keys| - 1]) + [BodyLine(keys[|keys| - 1], Get(d, keys[|keys| - 1]).value)]
      && ShownKeys(keys) == ShownKeys(keys[..|keys| - 1]) + [keys[|keys| - 1]]
  {
  }

  /** The body lists, in ascending key order, one line per key of the
      publication whose title is not among the skipped ones, each with its
      escaped value. */
  lemma BodyInKeyOrder(d: Dict)
    ensures var shown := ShownKeys(SortStrings(Keys(d)));
      && IsSorted(shown)
      && (forall k :: k in shown <==> k in Keys(d) && !Skipped(k))
      && |Body(d)| == |shown|
      && forall i :: 0 <= i < |shown| ==>
        shown[i] in Keys(d) && Body(d)[i] == BodyLine(shown[i], Get(d, shown[i]).value)
  {
    var keys := SortStrings(Keys(d));
    SortedKeysOf(d);
    ShownKeysFacts(keys);
    BodyLinesShown(d, keys);
    forall k ensures k in keys <==> k in Keys(d) {
      assert k in keys <==> k in multiset(keys);
    }
  }

  /** The header is always the first line and the two closing notes always
      the last two; between them come the body, then at most one
      `Documento` line and at most one `Allegati` line. */
  lemma MessageShape(d: Dict)
    ensures var lines := MessageLines(d);
      var extra := DocumentoLines(Get(d, "documento")) + AllegatiLines(Get(d, "allegati"));
      && |extra| <= 2
      && |lines| == |Body(d)| + |extra| + 3
      && lines[0] == HEADER
      && lines[1..|Body(d)| + 1] == Body(d)
      && lines[|Body(d)| + 1..|lines| - 2] == extra
      && lines[|lines| - 2] == NOTE && lines[|lines| - 1] == MORE
  {
    var body, documento, allegati := Body(d), DocumentoLines(Get(d, "documento")), AllegatiLines(Get(d, "allegati"));
    FrameAround(MessageLines(d), body, documento, allegati);
  }

  lemma FrameAround(lines: seq<string>, body: seq<string>, documento: seq<string>, allegati: seq<string>)
    requires lines == [HEADER] + body + documento + allegati + [NOTE, MORE]
    ensures var extra := documento + allegati;
      && |lines| == |body| + |extra| + 3
      && lines[0] == HEADER
      && lines[1..|body| + 1] == body
      && lines[|body| + 1..|lines| - 2] == extra
      && lines[|lines| - 2] == NOTE && lines[|lines| - 1] == MORE
  {
    var extra := documento + allegati;
    assert lines == [HEADER] + body + extra + [NOTE, MORE];
    assert lines[1..|body| + 1] == body;
    assert lines[|body| + 1..|lines| - 2] == extra;
  }

  // ---------------------------------------------------------------------
  // The titles of the record keys

  /** A key that is one lower-case word is titled by capitalising it. */
  lemma KeyTitleOfWord(key: string, title: string)
    requires IsLowerWord(key) && Title(key) == title
    ensures KeyTitle(key) == title
  {
    assert ReplaceChar(key, '_', ' ') == key;
  }

  /** A key of two lower-case words joined by "_" is titled word by word,
      with a blank between them. */
  lemma KeyTitleOfTwo(key: string, title: string, w1: string, w2: string, t1: string, t2: string)
    requires IsLowerWord(w1) && IsLowerWord(w2)
    requires Title(w1) == t1 && Title(w2) == t2
    requires key == w1 + "_" + w2 && title == t1 + " " + t2
    ensures KeyTitle(key) == title
  {
    ReplaceAcross(w1, w2, '_', ' ');
    assert ReplaceChar(w1, '_', ' ') == w1 && ReplaceChar(w2, '_', ' ') == w2;
    TitleAcrossBlank(w1, w2);
  }

  /** A key of three lower-case words joined by "_" is titled word by word. */
  lemma KeyTitleOfThree(key: string, title: string, w1: string, w2: string, w3: string,
                        t1: string, t2: string, t3: string)
    requires IsLowerWord(w1) && IsLowerWord(w2) && IsLowerWord(w3)
    requires Title(w1) == t1 && Title(w2) == t2 && Title(w3) == t3
    requires key == w1 + "_" + w2 + "_" + w3 && title == t1 + " " + t2 + " " + t3
    ensures KeyTitle(key) == title
  {
    ReplaceAcross(w1 + "_" + w2, w3, '_', ' ');
    ReplaceAcross(w1, w2, '_', ' ');
    assert ReplaceChar(w1, '_', ' ') == w1 && ReplaceChar(w2, '_', ' ') == w2 && ReplaceChar(w3, '_', ' ') == w3;
    TitleAcrossBlank(w1 + " " + w2, w3);
    TitleAcrossBlank(w1, w2);
  }

  // Each literal fact below is proved on its own: checking several long
  // string literals for equality in one proof is costly for the solver.

  lemma TitledNumero()
    ensures IsLowerWord("numero") && Title("numero") == "Numero"
  {
    TitleLowerWord("numero");
  }

  lemma TitledPubblicazione()
    ensures IsLowerWord("pubblicazione") && Title("pubblicazione") == "Pubblicazione"
  {
    TitleLowerWord("pubblicazione");
  }

  lemma TitledMittente()
    ensures IsLowerWord("mittente") && Title("mittente") == "Mittente"
  {
    TitleLowerWord("mittente");
  }

  lemma TitledTipo()
    ensures IsLowerWord("tipo") && Title("tipo") == "Tipo"
  {
    TitleLowerWord("tipo");
  }

  lemma TitledAtto()
    ensures IsLowerWord("atto") && Title("atto") == "Atto"
  {
    TitleLowerWord("atto");
  }

  lemma TitledRegistro()
    ensures IsLowerWord("registro") && Title("registro") == "Registro"
  {
    TitleLowerWord("registro");
  }

  lemma TitledGenerale()
    ensures IsLowerWord("generale") && Title("generale") == "Generale"
  {
    TitleLowerWord("generale");
  }

  lemma TitledData()
    ensures IsLowerWord("data") && Title("data") == "Data"
  {
    TitleLowerWord("data");
  }

  lemma TitledOggetto()
    ensures IsLowerWord("oggetto") && Title("oggetto") == "Oggetto"
  {
    TitleLowerWord("oggetto");
  }

  lemma TitledInizio()
    ensures IsLowerWord("inizio") && Title("inizio") == "Inizio"
  {
    TitleLowerWord("inizio");
  }

  lemma TitledFine()
    ensures IsLowerWord("fine") && Title("fine") == "Fine"
  {
    TitleLowerWord("fine");
  }

  lemma TitledDocumento()
    ensures IsLowerWord("documento") && Title("documento") == "Documento"
  {
    TitleLowerWord("documento");
  }

  lemma TitledAllegati()
    ensures IsLowerWord("allegati") && Title("allegati") == "Allegati"
  {
    TitleLowerWord("allegati");
  }

  /** `numero_pubblicazione` and its title, word by word. */
  lemma WordsNumero()
    ensures "numero" + "_" + "pubblicazione" == "numero_pubblicazione"
    ensures "Numero" + " " + "Pubblicazione" == "Numero Pubblicazione"
  {
  }

  /** `tipo_atto` and its title, word by word. */
  lemma WordsTipo()
    ensures "tipo" + "_" + "atto" == "tipo_atto"
    ensures "Tipo" + " " + "Atto" == "Tipo Atto"
  {
  }

  /** `registro_generale` and its title, word by word. */
  lemma WordsRegistro()
    ensures "registro" + "_" + "generale" == "registro_generale"
    ensures "Registro" + " " + "Generale" == "Registro Generale"
  {
  }

  /** `data_registro_generale` and its title, word by word. */
  lemma WordsDataRegistro()
    ensures "data" + "_" + "registro" + "_" + "generale" == "data_registro_generale"
    ensures "Data" + " " + "Registro" + " " + "Generale" == "Data Registro Generale"
  {
  }

  /** `oggetto_atto` and its title, word by word. */
  lemma WordsOggetto()
    ensures "oggetto" + "_" + "atto" == "oggetto_atto"
    ensures "Oggetto" + " " + "Atto" == "Oggetto Atto"
  {
  }

  /** `data_inizio_pubblicazione` and its title, word by word. */
  lemma WordsDataInizio()
    ensures "data" + "_" + "inizio" + "_" + "pubblicazione" == "data_inizio_pubblicazione"
    ensures "Data" + " " + "Inizio" + " " + "Pubblicazione" == "Data Inizio Pubblicazione"
  {
  }

  /** `data_fine_pubblicazione` and its title, word by word. */
  lemma WordsDataFine()
    ensures "data" + "_" + "fine" + "_" + "pubblicazione" == "data_fine_pubblicazione"
    ensures "Data" + " " + "Fine" + " " + "Pubblicazione" == "Data Fine Pubblicazione"
  {
  }

  lemma TitleNumero()
    ensures KeyTitle("numero_pubblicazione") == "Numero Pubblicazione"
  {
    WordsNumero();
    TitledNumero(); TitledPubblicazione();
    KeyTitleOfTwo("numero_pubblicazione", "Numero Pubblicazione", "numero", "pubblicazione", "Numero", "Pubblicazione");
  }

  lemma TitleMittente()
    ensures KeyTitle("mittente") == "Mittente"
  {
    TitledMittente();
    KeyTitleOfWord("mittente", "Mittente");
  }

  lemma TitleTipo()
    ensures KeyTitle("tipo_atto") == "Tipo Atto"
  {
    WordsTipo();
    TitledTipo(); TitledAtto();
    KeyTitleOfTwo("tipo_atto", "Tipo Atto", "tipo", "atto", "Tipo", "Atto");
  }

  lemma TitleRegistro()
    ensures KeyTitle("registro_generale") == "Registro Generale"
  {
    WordsRegistro();
    TitledRegistro(); TitledGenerale();
    KeyTitleOfTwo("registro_generale", "Registro Generale", "registro", "generale", "Registro", "Generale");
  }

  lemma TitleDataRegistro()
    ensures KeyTitle("data_registro_generale") == "Data Registro Generale"
  {
    WordsDataRegistro();
    TitledData(); TitledRegistro(); TitledGenerale();
    KeyTitleOfThree("data_registro_generale", "Data Registro Generale", "data", "registro", "generale", "Data", "Registro", "Generale");
  }

  lemma TitleOggetto()
    ensures KeyTitle("oggetto_atto") == "Oggetto Atto"
  {
    WordsOggetto();
    TitledOggetto(); TitledAtto();
    KeyTitleOfTwo("oggetto_atto", "Oggetto Atto", "oggetto", "atto", "Oggetto", "Atto");
  }

  lemma TitleDataInizio()
    ensures KeyTitle("data_inizio_pubblicazione") == "Data Inizio Pubblicazione"
  {
    WordsDataInizio();
    TitledData(); TitledInizio(); TitledPubblicazione();
    KeyTitleOfThree("data_inizio_pubblicazione", "Data Inizio Pubblicazione", "data", "inizio", "pubblicazione", "Data", "Inizio", "Pubblicazione");
  }

  lemma TitleDataFine()
    ensures KeyTitle("data_fine_pubblicazione") == "Data Fine Pubblicazione"
  {
    WordsDataFine();
    TitledData(); TitledFine(); TitledPubblicazione();
    KeyTitleOfThree("data_fine_pubblicazione", "Data Fine Pubblicazione", "data", "fine", "pubblicazione", "Data", "Fine", "Pubblicazione");
  }

  lemma TitleDocumento()
    ensures KeyTitle("documento") == "Documento"
  {
    TitledDocumento();
    KeyTitleOfWord("documento", "Documento");
  }

  lemma TitleAllegati()
    ensures KeyTitle("allegati") == "Allegati"
  {
    TitledAllegati();
    KeyTitleOfWord("allegati", "Allegati");
  }

  /** The keys of a standard record that the message shows, in ascending order. */
  const RECORD_SHOWN: seq<string> := [
    "data_inizio_pubblicazione", "mittente", "numero_pubblicazione", "oggetto_atto"]

  lemma RecordKeyShown(x: string)
    ensures x in RECORD_KEYS && !Skipped(x) <==> x in RECORD_SHOWN
  {
    TitleNumero();
    TitleMittente();
    TitleTipo();
    TitleRegistro();
    TitleDataRegistro();
    TitleOggetto();
    TitleDataInizio();
    TitleDataFine();
    TitleDocumento();
    TitleAllegati();
    if x in RECORD_KEYS {
      var i :| 0 <= i < |RECORD_KEYS| && RECORD_KEYS[i] == x;
      assert "Mittente"[0] != "Allegati"[0];
    }
  }

  lemma HeadLess(a: string, b: string)
    requires a != [] && b != [] && a[0] < b[0]
    ensures LessEq(a, b)
  {
  }

  /** Four strings whose first letters increase are sorted and distinct. */
  lemma FourByHead(a: string, b: string, c: string, e: string)
    requires a != [] && b != [] && c != [] && e != []
    requires a[0] < b[0] < c[0] < e[0]
    ensures IsSorted([a, b, c, e]) && Distinct([a, b, c, e])
  {
    var s := [a, b, c, e];
    forall i | 0 <= i < |s| - 1 ensures LessEq(s[i], s[i + 1]) {
      HeadLess(s[i], s[i + 1]);
    }
    SortedByNeighbours(s);
    assert forall i, j :: 0 <= i < j < |s| ==> s[i][0] < s[j][0];
  }

  lemma RecordShownOrdered()
    ensures IsSorted(RECORD_SHOWN) && Distinct(RECORD_SHOWN)
  {
    var s := RECORD_SHOWN;
    assert s[0][0] == 'd' && s[1][0] == 'm' && s[2][0] == 'n' && s[3][0] == 'o';
    FourByHead(s[0], s[1], s[2], s[3]);
    assert s == [s[0], s[1], s[2], s[3]];
  }

  lemma RecordKeysDistinct(p: Pubblicazione)
    ensures Distinct(Keys(Items(p)))
  {
    var d := Items(p);
    var keys := Keys(d);
    ItemsIsDict(p);
    forall i, j | 0 <= i < j < |keys| ensures keys[i] != keys[j] {
      assert keys[i] == d[i].0 && keys[j] == d[j].0;
    }
  }

  /** The values a record stores under the four shown keys. */
  lemma RecordShownValues(p: Pubblicazione)
    ensures Get(Items(p), RECORD_SHOWN[0]) == Some(Str(p.dataInizioPubblicazione))
    ensures Get(Items(p), RECORD_SHOWN[1]) == Some(Str(p.mittente))
    ensures Get(Items(p), RECORD_SHOWN[2]) == Some(Str(p.numeroPubblicazione))
    ensures Get(Items(p), RECORD_SHOWN[3]) == Some(Str(p.oggettoAtto))
  {
    var d := Items(p);
    ItemsIsDict(p);
    GetAt(d, 6);
    GetAt(d, 1);
    GetAt(d, 0);
    GetAt(d, 5);
  }

  /** Any sorted arrangement of the ten record keys, each once, shows
      exactly four of them, in this order. */
  lemma ShownOfRecordKeys(keys: seq<string>)
    requires IsSorted(keys) && Distinct(keys)
    requires forall x :: x in keys <==> x in RECORD_KEYS
    ensures ShownKeys(keys) == RECORD_SHOWN
  {
    ShownKeysFacts(keys);
    var shown := ShownKeys(keys);
    forall x ensures x in shown <==> x in RECORD_SHOWN {
      RecordKeyShown(x);
    }
    RecordShownOrdered();
    SameElements(shown, RECORD_SHOWN);
    SortedUnique(shown, RECORD_SHOWN);
  }

  /** Of the ten keys of a record, exactly four are shown, in this order. */
  lemma RecordShownKeys(p: Pubblicazione)
    ensures ShownKeys(SortStrings(Keys(Items(p)))) == RECORD_SHOWN
  {
    RecordKeysDistinct(p);
    ItemsIsDict(p);
    ShownOfSortedRecordKeys(Keys(Items(p)));
  }

  lemma ShownOfSortedRecordKeys(keys: seq<string>)
    requires Distinct(keys) && forall x :: x in keys <==> x in RECORD_KEYS
    ensures ShownKeys(SortStrings(keys)) == RECORD_SHOWN
  {
    SortStringsDistinct(keys);
    ShownOfRecordKeys(SortStrings(keys));
  }

  /** For a standard record the body is exactly four lines: start date,
      sender, number and subject, in that order, each with its value. Type,
      register number and date, end date, document and attachments are
      never listed. */
  lemma RecordBody(p: Pubblicazione)
    ensures Body(Items(p)) == [
      BodyLine("data_inizio_pubblicazione", Str(p.dataInizioPubblicazione)),
      BodyLine("mittente", Str(p.mittente)),
      BodyLine("numero_pubblicazione", Str(p.numeroPubblicazione)),
      BodyLine("oggetto_atto", Str(p.oggettoAtto))]
  {
    RecordShownKeys(p);
    RecordShownValues(p);
    BodyOfFour(Items(p), RECORD_SHOWN[0], RECORD_SHOWN[1], RECORD_SHOWN[2], RECORD_SHOWN[3],
      p.dataInizioPubblicazione, p.mittente, p.numeroPubblicazione, p.oggettoAtto);
  }

  lemma BodyOfFour(d: Dict, k0: string, k1: string, k2: string, k3: string,
                   v0: string, v1: string, v2: string, v3: string)
    requires ShownKeys(SortStrings(Keys(d))) == [k0, k1, k2, k3]
    requires Get(d, k0) == Some(Str(v0)) && Get(d, k1) == Some(Str(v1))
    requires Get(d, k2) == Some(Str(v2)) && Get(d, k3) == Some(Str(v3))
    ensures Body(d) == [BodyLine(k0, Str(v0)), BodyLine(k1, Str(v1)), BodyLine(k2, Str(v2)), BodyLine(k3, Str(v3))]
  {
    SortedKeysOf(d);
    BodyLinesFour(d, SortStrings(Keys(d)), k0, k1, k2, k3, v0, v1, v2, v3);
  }

  lemma BodyLinesFour(d: Dict, keys: seq<string>, k0: string, k1: string, k2: string, k3: string,
                      v0: string, v1: string, v2: string, v3: string)
    requires forall k :: k in keys ==> k in Keys(d)
    requires ShownKeys(keys) == [k0, k1, k2, k3]
    requires Get(d, k0) == Some(Str(v0)) && Get(d, k1) == Some(Str(v1))
    requires Get(d, k2) == Some(Str(v2)) && Get(d, k3) == Some(Str(v3))
    ensures BodyLines(d, keys) == [BodyLine(k0, Str(v0)), BodyLine(k1, Str(v1)), BodyLine(k2, Str(v2)), BodyLine(k3, Str(v3))]
  {
    BodyLinesShown(d, keys);
    var shown := ShownKeys(keys);
    assert shown[0] == k0 && shown[1] == k1 && shown[2] == k2 && shown[3] == k3;
    SeqOfFour(BodyLines(d, keys), BodyLine(k0, Str(v0)), BodyLine(k1, Str(v1)),
      BodyLine(k2, Str(v2)), BodyLine(k3, Str(v3)));
  }

  lemma SeqOfFour<T>(s: seq<T>, a: T, b: T, c: T, e: T)
    requires |s| == 4 && s[0] == a && s[1] == b && s[2] == c && s[3] == e
    ensures s == [a, b, c, e]
  {
  }

  lemma LineWithTitle(key: string, title: string, x: string)
    requires KeyTitle(key) == title
    ensures BodyLine(key, Str(x)) == "*" + title + ":* " + Escaped(x)
  {
  }

  /** The four lines of a standard record, with their titles written out. */
  lemma RecordBodyTitles(p: Pubblicazione)
    ensures BodyLine("data_inizio_pubblicazione", Str(p.dataInizioPubblicazione))
      == "*" + "Data Inizio Pubblicazione" + ":* " + Escaped(p.dataInizioPubblicazione)
    ensures BodyLine("mittente", Str(p.mittente)) == "*" + "Mittente" + ":* " + Escaped(p.mittente)
    ensures BodyLine("numero_pubblicazione", Str(p.numeroPubblicazione))
      == "*" + "Numero Pubblicazione" + ":* " + Escaped(p.numeroPubblicazione)
    ensures BodyLine("oggetto_atto", Str(p.oggettoAtto)) == "*" + "Oggetto Atto" + ":* " + Escaped(p.oggettoAtto)
  {
    TitleDataInizio();
    LineWithTitle("data_inizio_pubblicazione", "Data Inizio Pubblicazione", p.dataInizioPubblicazione);
    TitleMittente();
    LineWithTitle("mittente", "Mittente", p.mittente);
    TitleNumero();
    LineWithTitle("numero_pubblicazione", "Numero Pubblicazione", p.numeroPubblicazione);
    TitleOggetto();
    LineWithTitle("oggetto_atto", "Oggetto Atto", p.oggettoAtto);
  }

  // ---------------------------------------------------------------------
  // The document and attachment lines

  /** The values a record stores under `documento` and `allegati`. */
  lemma RecordAttachments(p: Pubblicazione)
    ensures Get(Items(p), "documento") == Some(p.documento)
    ensures Get(Items(p), "allegati") == Some(p.allegati)
  {
    ItemsIsDict(p);
    GetAt(Items(p), 8);
    GetAt(Items(p), 9);
  }

  /** The `Documento` line links exactly the document the registry stores
      for the same value; a string value gets no line exactly when the
      registry stores "" or "N/A", and an empty list (stored as "N/A")
      gets none either. */
  lemma DocumentoLineIsStored(v: Value)
    ensures DocumentoLines(Some(v)) != [] ==>
      DocumentoLines(Some(v)) == ["\n*Documento:* [Apri](" + DocumentoColumn(v) + ")"]
    ensures v.Str? ==> (DocumentoLines(Some(v)) == [] <==> DocumentoColumn(v) == "" || DocumentoColumn(v) == "N/A")
    ensures v.List? ==> (DocumentoLines(Some(v)) == [] <==> v.items == [])
  {
  }

  /** A record's `Documento` line, as the listing extractor fills the field. */
  lemma RecordDocumentoLine(p: Pubblicazione)
    ensures var lines := DocumentoLines(Get(Items(p), "documento"));
      && (lines == [] <==> !p.documento.Truthy() || p.documento == Str("N/A"))
      && (lines != [] ==> lines == ["\n*Documento:* [Apri](" + DocumentoColumn(p.documento) + ")"])
  {
    RecordAttachments(p);
    DocumentoLineIsStored(p.documento);
  }

  lemma {:induction false} KeepStrippedClean(parts: seq<string>)
    requires forall k :: 0 <= k < |parts| ==> Trimmed(parts[k])
    ensures KeepStripped(parts) == parts
    decreases |parts|
  {
    if parts != [] {
      var init, last := parts[..|parts| - 1], parts[|parts| - 1];
      assert forall k :: 0 <= k < |init| ==> Trimmed(init[k]) by {
        forall k | 0 <= k < |init| ensures Trimmed(init[k]) {
          assert init[k] == parts[k];
        }
      }
      KeepStrippedClean(init);
      assert Strip(last) == last && last != [] by {
        assert Trimmed(last);
        StripStripped(last);
      }
      KeepStrippedLast(parts);
      FrontLast(parts);
    }
  }

  /** One unfolding of `KeepStripped` at the last part. */
  lemma KeepStrippedLast(parts: seq<string>)
    requires parts != []
    ensures KeepStripped(parts) == KeepStripped(parts[..|parts| - 1])
      + (if Strip(parts[|parts| - 1]) != [] then [Strip(parts[|parts| - 1])] else [])
  {
  }

  /** Links that are non-empty, hold no comma and have no blank at either
      end survive the registry's comma join and the notifier's split: the
      string stored for an attachment list splits back into that list. */
  lemma SplitStoredLinks(xs: seq<string>)
    requires forall k :: 0 <= k < |xs| ==>
      xs[k] != [] && ',' !in xs[k] && !IsSpace(xs[k][0]) && !IsSpace(xs[k][|xs[k]| - 1])
    ensures SplitLinks(AllegatiColumn(List(xs))) == xs
  {
    AllegatiColumnRoundTrip(xs);
    if xs != [] {
      KeepStrippedClean(xs);
    } else {
      assert Split("", ',') == [""];
    }
  }

  /** The numbered attachment line is the same whether the notifier gets
      the attachment list or the string the registry stores for it. */
  lemma StoredAllegatiSameLine(xs: seq<string>)
    requires forall k :: 0 <= k < |xs| ==>
      xs[k] != [] && ',' !in xs[k] && !IsSpace(xs[k][0]) && !IsSpace(xs[k][|xs[k]| - 1])
    requires xs != ["N/A"]
    ensures AllegatiLines(Some(Str(AllegatiColumn(List(xs))))) == AllegatiLines(Some(List(xs)))
  {
    SplitStoredLinks(xs);
    StoredIsTruthy(xs);
    var stored := AllegatiColumn(List(xs));
    if xs == [] {
      assert !Str(stored).Truthy() && !List(xs).Truthy();
      assert AllegatiLines(Some(Str(stored))) == [];
      assert AllegatiLines(Some(List(xs))) == [];
    } else {
      AllegatiLineOf(Str(stored), xs);
      AllegatiLineOf(List(xs), xs);
    }
  }

  /** A value with links gets the line that lists them. */
  lemma AllegatiLineOf(v: Value, links: seq<string>)
    requires v.Truthy() && v != Str("N/A") && AllegatiLinks(v) == links && links != []
    ensures AllegatiLines(Some(v)) == ["*Allegati:* " + Join(" ", Numbered(links))]
  {
  }

  /** The string stored for a non-empty list of non-empty links is neither
      empty nor "N/A", unless the list is ["N/A"]. */
  lemma StoredIsTruthy(xs: seq<string>)
    requires forall k :: 0 <= k < |xs| ==> xs[k] != []
    requires xs != ["N/A"]
    ensures xs != [] ==> AllegatiColumn(List(xs)) != "" && AllegatiColumn(List(xs)) != "N/A"
  {
    if |xs| == 1 {
      assert AllegatiColumn(List(xs)) == xs[0];
      assert xs == [xs[0]];
    } else if |xs| >= 2 {
      var stored := Join(",", xs);
      var init := xs[..|xs| - 1];
      assert stored == Join(",", init) + "," + xs[|xs| - 1];
      assert stored[|Join(",", init)|] == ',';
    }
  }
}

# Albo Pretorio monitor of the Comune di Acerno, in Dafny

The system watches the online notice board (Albo Pretorio) of the Comune di
Acerno. It reads the listing of publications and follows each row to its
detail page. From that page it builds a record of ten fields: publication
number, sender, act type, general register number and date, subject,
publication start and end dates, main document and further attachments. It
stores the records that are new in an SQLite table keyed by publication
number, and announces each new one on Telegram. A Streamlit dashboard reads
the same table. It filters the rows for display and measures how many
working days passed between an act's registration and the start of its
publication.

The scraper exists twice in the repository: the stand-alone script
`main.py`, and the `scraper/` and `db/` packages that `scraper_service.py`
drives. The model keeps both, over shared definitions:

- `Strings`: the ASCII behaviour of the Python string operations used:
  `strip`, `lower`, `title`, `replace`, `split`, `join`, `in`, and `sorted`
  in code-point order.
- `Telegram`: the escape of `_ * [ ] ( )` that both notifiers apply, an
  idealised reader that drops a backslash before any of those six
  characters, and the `sendMessage` request.
- `Albo`: the parsed listing and detail pages. A detail page is its
  label/value rows and its `onclick` strings. A listing row is its cell count
  and optional link. The site is a snapshot that answers a fetch or fails.
  The module also gives the specification of what the two extractors
  return.
- `Registry`: the `pubblicazioni` table as a map from publication number to
  row, with `CREATE TABLE IF NOT EXISTS` and `INSERT OR IGNORE`. The
  database file is a `Database` object that both `main.py` and
  `DatabaseManager` update in place.
- `Monitor`: one monitoring cycle as a function. For each extracted record
  in list order whose id is not stored, it saves the record, then posts the
  notification. The cycle records both effects in a log.
- `Scrape`: the two extraction loops, which `main.py` and `AlboParser` share
  line for line.
- `Calendar` and `Frame`: the dashboard's dates, as proleptic Gregorian day
  ordinals, and its rows.

The imperative source stays imperative:

- The loops of `escape_markdown`, `estrai_dettagli`,
  `estrai_pubblicazioni`, `invia_messaggio`, `job_monitor`, `monitora_albo`
  and `calculate_working_days` are methods. Each is proved equal to a
  specification function.
- `AlboParser`, `TelegramNotifier` and `DatabaseManager` are classes.
- The database is an object that the save methods modify.

`filter_data` and the delay analysis are functions.

## Model

| member | source | states |
|---|---|---|
| Strings.TrimLeftDropsSpace | main.py:91 | `lstrip` gives the suffix of the input left once the white space that starts it is dropped: everything dropped is white space and the result does not start with white space |
| Strings.TrimRightDropsSpace | main.py:91 | `rstrip` gives the prefix of the input left once the white space that ends it is dropped: everything dropped is white space and the result does not end with white space |
| Strings.StripStripped | main.py:91 | `strip` leaves a text that starts and ends with a non-space unchanged |
| Strings.StripEnds | main.py:91 | `strip` returns the slice of the input between its leading and trailing white space: every character outside the slice is white space, and the slice neither starts nor ends with white space |
| Strings.Lower | main.py:93 | `lower` keeps the length |
| Strings.Title | main.py:174 | `title` keeps the length |
| Strings.ReplaceChar | main.py:174 | replacing one character by another keeps the length |
| Strings.TitleLowerWord | scraper/telegram_notifier.py:35 | `title` of a word of lower-case letters upper-cases its first letter and keeps the rest |
| Strings.TitleAcrossBlank | scraper/telegram_notifier.py:35 | `title` treats the words on either side of a blank independently |
| Strings.ReplaceAcross | scraper/telegram_notifier.py:35 | replacing a character works piece by piece around each of its occurrences |
| Strings.Split | scraper/telegram_notifier.py:52 | `split` gives at least one part and no part contains the separator |
| Strings.SplitJoin | scraper/telegram_notifier.py:52 | joining the parts of a split with the separator gives back the text |
| Strings.JoinSplit | db/db_manager.py:42 | splitting a join of separator-free parts gives back the parts |
| Strings.NatToStringValue | scraper/telegram_notifier.py:55 | `str(n)` is the decimal numeral of n: its digits read back as n, and it has no leading zero unless n is 0 |
| Strings.LessEqTotal | scraper/telegram_notifier.py:34 | the string order used by `sorted` is total |
| Strings.LessEqTransitive | scraper/telegram_notifier.py:34 | the string order is transitive |
| Strings.LessEqAntisymmetric | scraper/telegram_notifier.py:34 | the string order is antisymmetric |
| Strings.LessEqPrefix | scraper/telegram_notifier.py:34 | a common prefix does not change the order of two strings |
| Strings.Insert | scraper/telegram_notifier.py:34 | inserting into a sorted list gives a sorted list with one more occurrence of the element |
| Strings.SortStrings | scraper/telegram_notifier.py:34 | `sorted` returns a sorted permutation of its input |
| Strings.SortedUnique | scraper/telegram_notifier.py:34 | two sorted permutations of the same elements are equal, so the order of the keys is determined |
| Strings.SortStringsDistinct | scraper/telegram_notifier.py:34 | sorting distinct keys gives distinct keys, with the same members |
| Telegram.ReplaceEscapeAppend | scraper/telegram_notifier.py:12 | escaping one character distributes over concatenation |
| Telegram.ReplaceExtendsEscape | scraper/telegram_notifier.py:11-12 | one more `replace` escapes one more special character |
| Telegram.ReplaceLoopStep | scraper/telegram_notifier.py:11-12 | iteration `i` of the replace loop escapes the first `i + 1` special characters |
| Telegram.EscapedInNone | scraper/telegram_notifier.py:11 | escaping no character leaves the text unchanged |
| Telegram.EscapedInEmpty | scraper/telegram_notifier.py:11 | before the loop runs the text is unchanged |
| Telegram.EscapedInAll | scraper/telegram_notifier.py:11-12 | after the loop every special character is escaped |
| Telegram.EscapedLength | scraper/telegram_notifier.py:10-12 | the escaped text is longer by exactly the number of special characters |
| Telegram.EscapedUnchangedIff | scraper/telegram_notifier.py:10-12 | the escape leaves a text unchanged if and only if it has no special character |
| Telegram.NoSpecialUnchanged | scraper/telegram_notifier.py:10-12 | a text without special characters is unchanged |
| Telegram.SpecialCountPositive | scraper/telegram_notifier.py:10 | a text holding a special character has a positive count |
| Telegram.EscapedHead | scraper/telegram_notifier.py:12 | an escaped non-empty text never starts with a bare special character |
| Telegram.UnescapeEscaped | scraper/telegram_notifier.py:4-14 | the idealised reader, which drops the backslash before each of the six characters, recovers the original text |
| Albo.Get | main.py:177 | `.get` finds a value exactly when the key is present |
| Albo.GetAt | main.py:177 | in a dict without repeated keys, `.get` of the i-th key gives the i-th value |
| Albo.ItemsIsDict | main.py:143-154 | a record has ten distinct keys, in the order the listing writes them |
| Albo.Fetch | main.py:137-142 | the placeholder link "#" never yields a page |
| Albo.QuoteFrom | main.py:101 | the scan stops at the first quote after the start, or at the end |
| Albo.MatchAt | main.py:101 | a match captures a non-empty text without quotes |
| Albo.SearchFrom | main.py:101 | a search result is a non-empty text without quotes |
| Albo.MatchAtIff | main.py:101 | the matcher succeeds at a position exactly when `window.open('x')` occurs there, with `x` non-empty and quote-free |
| Albo.SearchIsLeftmost | main.py:101 | `re.search` returns the capture of the leftmost match, and fails only when there is no match |
| Albo.LinkOf | main.py:100-103 | an `onclick` gives at most one link, which is `BASE_URL` followed by a non-empty quote-free path |
| Albo.AttachmentLinks | main.py:98-103 | at most one link per `onclick`, each made of `BASE_URL` and the captured path |
| Albo.AttachmentLinksAppend | main.py:99-103 | links are collected in page order: the links of two runs of `onclick`s are concatenated |
| Albo.NonAttachmentIgnored | main.py:100 | an `onclick` that does not name `mc_attachment.php` contributes nothing |
| Albo.LabelMap | main.py:86-95 | the field map never holds the labels Documento and Allegati, and holds only strings |
| Albo.LabelStepKeys | main.py:90-95 | a row adds its stripped label exactly when both divs are present and the label is not excluded |
| Albo.LabelStepKeeps | main.py:90-95 | a row that does not set a label leaves that label's value as it was |
| Albo.LabelMapKeys | main.py:86-95 | a label is in the map if and only if some row contributes it |
| Albo.LabelMapLastWins | main.py:95 | for a repeated label, the value of the last row that carries it wins, stripped |
| Albo.SplitAttachments | main.py:104-109 | the first link becomes Documento and the rest, in order, Allegati; no links gives "" and []; other fields are kept |
| Albo.DetailSpec | main.py:70-111 | a failed fetch gives the empty map; a fetched page always has a string Documento and a list Allegati |
| Albo.DetailOfPage | main.py:97-109 | a fetched page's map is the label map plus Documento and Allegati built from the attachment links |
| Albo.Record | main.py:143-154 | the document is a string value; the attachments are the detail's "Allegati" or [] when absent; the publication number is the detail's or "N/A" |
| Albo.RecordFields | main.py:143-154 | each of the ten keys, in record order, holds the value of its own detail label when present, and otherwise "N/A" (the attachments: []) |
| Albo.RecordOfFailedFetch | main.py:144-153 | a record whose detail page cannot be fetched has "N/A" in every field and no attachments |
| Albo.DetailLink | main.py:137-141 | the link is `BASE_URL` without its final slash followed by the row's href, or "#" when the row has none |
| Albo.AcceptedRows | main.py:133-136 | the rows kept are rows of the table with at least five cells |
| Albo.ListingSpec | main.py:113-129 | an unreachable listing or a page without the results table gives no records |
| Albo.RowsSpecIsMap | main.py:131-155 | one record per accepted row, in table order, each built from that row's detail page |
| Albo.RowsSpecAppend | main.py:133-155 | rows are processed independently and in order |
| Albo.MalformedRowSkipped | main.py:135-136 | a row with fewer than five cells contributes nothing |
| Albo.RowsSpecSkipped | main.py:135-136 | a single row with fewer than five cells yields no record |
| Albo.ListingSkipsHeader | main.py:132 | the first table row is never turned into a record |
| Registry.ToRow | db/db_manager.py:43-56 | the stored row is keyed by the record's publication number |
| Registry.AllegatiColumnRoundTrip | db/db_manager.py:40-42 | the comma-joined attachments split back into the same list when no link holds a comma; none are stored as "" |
| Registry.InsertOrIgnore | db/db_manager.py:43-56 | the key is present afterwards; existing rows are untouched; a new key gets the record's row |
| Registry.InsertOrIgnoreIdempotent | db/db_manager.py:43-44 | inserting the same record twice is inserting it once; a stored key is ignored |
| DbManager.DatabaseManager.constructor | db/db_manager.py:5-7 | the manager remembers the file name and the table exists afterwards, with its old rows |
| DbManager.DatabaseManager.InitDb | db/db_manager.py:9-26 | the table exists afterwards; an existing table is left untouched |
| DbManager.DatabaseManager.PubblicazioneEsiste | db/db_manager.py:28-32 | the answer is true exactly when the id is stored |
| DbManager.DatabaseManager.SalvaPubblicazione | db/db_manager.py:34-57 | the table becomes the insert-or-ignore of the record, and the id is stored afterwards |
| DbManager.DatabaseManager.GetPubblicazioni | db/db_manager.py:59-63 | the rows are the table's rows listed by its ids, each stored id exactly once, in some order |
| Scrape.LabelLoop | scraper/parser.py:24-32 | the label loop builds the label map of the specification |
| Scrape.LabelRow | scraper/parser.py:25-32 | the body of the label loop for one row performs one step of the label map |
| Scrape.AttachmentLoop | scraper/parser.py:34-39 | the attachment loop collects exactly the specified links, in page order |
| Scrape.AttachmentStep | scraper/parser.py:35-39 | the body of the attachment loop for one `onclick` appends exactly that anchor's link |
| Parser.AlboParser.constructor | scraper/parser.py:7-8 | the parser reads the given site |
| Parser.AlboParser.EstraiDettagli | scraper/parser.py:10-47 | the method returns the specified field map of the fetched page, or the empty map |
| Parser.AlboParser.EstraiPubblicazioni | scraper/parser.py:49-93 | the method returns the specified listing: one record per accepted data row, in order |
| Main.InitDb | main.py:18-35 | the table exists afterwards; an existing table is left untouched |
| Main.PubblicazioneEsiste | main.py:37-41 | the answer is true exactly when the id is stored |
| Main.SalvaPubblicazione | main.py:43-68 | the table becomes the insert-or-ignore of the record |
| Main.EstraiDettagli | main.py:70-111 | the function returns the specified field map of the fetched page, or the empty map |
| Main.EstraiPubblicazioni | main.py:113-157 | the function returns the specified listing |
| Main.EscapedUnlessUrlMeaning | main.py:159-167 | a text starting with "http" is returned as it is; any other is escaped, grows by its special characters and the idealised reader recovers it |
| Main.EscapeMarkdown | main.py:159-167 | the replace loop computes the escape of the value's string form, with the URL exemption |
| Main.FieldLines | main.py:171-174 | at most one line per key |
| Main.AppendFields | main.py:171-174 | the field loop appends exactly the field lines of the record, in dict order |
| Main.FieldLinesMarked | main.py:171-174 | every field line starts with the field mark, so it is told apart from the attachment lines |
| Main.FieldLinesAppend | main.py:171-174 | field lines follow the dict's order |
| Main.FieldLinesAll | main.py:171-174 | without documento and allegati keys, there is one line per key, in order |
| Main.RecordFieldLines | main.py:171-174 | a record gives eight field lines, one per scalar field, in the order the listing writes them |
| Main.LinkMarkup | main.py:184 | one `[Link](a)` per attachment |
| Main.MarksDiffer | main.py:170-174 | the header and the field lines never look like a Documento or Allegati line |
| Main.AttachmentMarksDiffer | main.py:179-187 | a Documento line is never an Allegati line |
| Main.MessageShape | main.py:170-189 | the header comes first, then the field lines, then exactly one Documento line and last exactly one Allegati line |
| Main.RecordAttachmentLines | main.py:176-187 | the Documento line links the document or says "Nessun documento"; the Allegati line links each attachment or says "Nessun allegato" |
| Main.InviaMessaggioTelegram | main.py:169-196 | the request posted is the notification of the record |
| Main.MonitoraAlbo | main.py:206-211 | one pass leaves the table and the log of the monitoring cycle |
| Main.MonitoraStep | main.py:209-211 | one record changes the table and the log as one step of the monitoring cycle |
| Main.Start | main.py:214-216 | the entry point creates the table if needed, then runs one pass |
| Monitor.Run | main.py:208-211 | the table gains exactly the ids of the list, keeps its old rows, and the log only grows |
| Monitor.SentIdsAppend | main.py:211 | the notified ids of two logs are concatenated |
| Monitor.RunSavesBeforeSending | main.py:209-211 | every notification comes right after the save of the same record |
| Monitor.CyclePersistsBeforeNotifying | main.py:209-211 | a cycle never notifies a record that it has not first saved |
| Monitor.RunNotifiesAdded | main.py:208-211 | the ids notified are distinct and exactly the ids the run added |
| Monitor.StepNotifiesAdded | main.py:209-211 | one record keeps the notified ids distinct and equal to the ids added: a new id is sent once, a stored one not at all |
| Monitor.CycleNotifiesEachNewIdOnce | main.py:208-211 | each id not stored before is notified once, and no other |
| Monitor.CycleStoresAll | main.py:208-211 | every listed id is stored after the cycle; old rows are untouched |
| Monitor.CycleSendsFirstOccurrence | main.py:208-211 | the record notified for an id is the first in the list with that id |
| Monitor.RunOnStoredIsNoop | main.py:209 | a run over ids that are all stored changes nothing |
| Monitor.SecondCycleSendsNothing | main.py:208-211 | repeating a cycle on the same listing sends nothing and stores nothing |
| Monitor.DuplicateIdNotifiedOnce | main.py:208-211 | two records with the same new id: only the first is saved and notified |
| TelegramNotifier.EscapeMarkdown | scraper/telegram_notifier.py:4-14 | the replace loop escapes every special character, even in a URL; the text grows by their number and the idealised reader recovers it |
| TelegramNotifier.KeyTitle | scraper/telegram_notifier.py:35 | the title of a key has the key's length |
| TelegramNotifier.KeyTitleOfWord | scraper/telegram_notifier.py:35 | a one-word lower-case key is titled as the word |
| TelegramNotifier.KeyTitleOfTwo | scraper/telegram_notifier.py:35 | a key of two lower-case words joined by "_" is titled word by word, with a blank between |
| TelegramNotifier.KeyTitleOfThree | scraper/telegram_notifier.py:35 | a key of three lower-case words joined by "_" is titled word by word, with blanks between |
| TelegramNotifier.TitleNumero | scraper/telegram_notifier.py:35 | numero_pubblicazione is titled "Numero Pubblicazione" |
| TelegramNotifier.TitleMittente | scraper/telegram_notifier.py:35 | mittente is titled "Mittente" |
| TelegramNotifier.TitleTipo | scraper/telegram_notifier.py:35 | tipo_atto is titled "Tipo Atto", which is skipped |
| TelegramNotifier.TitleRegistro | scraper/telegram_notifier.py:35 | registro_generale is titled "Registro Generale", which is skipped |
| TelegramNotifier.TitleDataRegistro | scraper/telegram_notifier.py:35 | data_registro_generale is titled "Data Registro Generale", which is skipped |
| TelegramNotifier.TitleOggetto | scraper/telegram_notifier.py:35 | oggetto_atto is titled "Oggetto Atto" |
| TelegramNotifier.TitleDataInizio | scraper/telegram_notifier.py:35 | data_inizio_pubblicazione is titled "Data Inizio Pubblicazione" |
| TelegramNotifier.TitleDataFine | scraper/telegram_notifier.py:35 | data_fine_pubblicazione is titled "Data Fine Pubblicazione", which is skipped |
| TelegramNotifier.TitleDocumento | scraper/telegram_notifier.py:35 | documento is titled "Documento", which is skipped |
| TelegramNotifier.TitleAllegati | scraper/telegram_notifier.py:35 | allegati is titled "Allegati", which is skipped |
| TelegramNotifier.ShownKeys | scraper/telegram_notifier.py:34-37 | no more keys are shown than there are |
| TelegramNotifier.ShownKeysFacts | scraper/telegram_notifier.py:34-37 | a key is shown exactly when it is present and its title is not skipped; order and distinctness are kept |
| TelegramNotifier.ShownKeysMembers | scraper/telegram_notifier.py:34-37 | a key is shown exactly when it is in the list and its title is not skipped |
| TelegramNotifier.ShownKeysSorted | scraper/telegram_notifier.py:34-37 | skipping keys of a sorted list leaves a sorted list |
| TelegramNotifier.ShownKeysDistinct | scraper/telegram_notifier.py:34-37 | skipping keys of a list without repeats leaves a list without repeats |
| TelegramNotifier.BodyLines | scraper/telegram_notifier.py:34-40 | at most one line per key |
| TelegramNotifier.AppendBody | scraper/telegram_notifier.py:34-40 | the body loop appends exactly the body lines of the sorted keys |
| TelegramNotifier.BodyLinesShown | scraper/telegram_notifier.py:34-40 | one body line per shown key, in order, with the key's value |
| TelegramNotifier.SortedKeysOf | scraper/telegram_notifier.py:34 | the sorted keys are keys of the dict |
| TelegramNotifier.BodyInKeyOrder | scraper/telegram_notifier.py:34-40 | the body lists the shown keys in sorted order, exactly the present unskipped ones, one line each with its escaped value |
| TelegramNotifier.DocumentoLines | scraper/telegram_notifier.py:43-46 | at most one document line |
| TelegramNotifier.DocumentoLineIsStored | scraper/telegram_notifier.py:43-46 | the document line links the stored document; it is absent exactly for "", "N/A" or an empty list |
| TelegramNotifier.AppendDocumento | scraper/telegram_notifier.py:42-46 | the document step appends exactly the document lines of the record |
| TelegramNotifier.KeepStripped | scraper/telegram_notifier.py:51-53 | kept parts are non-empty and stripped; no comma appears that was not in the input |
| TelegramNotifier.KeepStrippedClean | scraper/telegram_notifier.py:51-53 | parts that are non-empty and already stripped are all kept as they are |
| TelegramNotifier.KeepStrippedNoComma | scraper/telegram_notifier.py:51-53 | stripping and dropping empty parts introduces no comma |
| TelegramNotifier.SplitLinks | scraper/telegram_notifier.py:51-53 | the links split from a stored string are non-empty, stripped and comma-free |
| TelegramNotifier.SplitStoredLinks | scraper/telegram_notifier.py:50-53 | the stored comma-joined attachments split back into the same links |
| TelegramNotifier.Numbered | scraper/telegram_notifier.py:55 | one `[Apri n](a)` entry per link, numbered from 1 in order |
| TelegramNotifier.AllegatiLines | scraper/telegram_notifier.py:49-56 | at most one attachments line |
| TelegramNotifier.StoredAllegatiSameLine | scraper/telegram_notifier.py:49-56 | a stored attachment string gives the same line as the list it was stored from |
| TelegramNotifier.AppendAllegati | scraper/telegram_notifier.py:48-56 | the attachments step appends exactly the attachment lines of the record |
| TelegramNotifier.MessageShape | scraper/telegram_notifier.py:31-60 | the header comes first, the two closing notes last, and at most two link lines before them |
| TelegramNotifier.TelegramNotifier.constructor | scraper/telegram_notifier.py:17-20 | the notifier keeps its token and chat id |
| TelegramNotifier.TelegramNotifier.InviaMessaggio | scraper/telegram_notifier.py:22-72 | the loop and the appends build the specified message, and post it |
| TelegramNotifier.RecordKeyShown | scraper/telegram_notifier.py:26-37 | of a record's keys, exactly the start date, sender, number and subject are shown |
| TelegramNotifier.RecordShownOrdered | scraper/telegram_notifier.py:34 | those four keys are sorted and distinct |
| TelegramNotifier.RecordKeysDistinct | scraper/parser.py:79-90 | a record's keys are distinct |
| TelegramNotifier.RecordShownValues | scraper/parser.py:79-90 | the four shown keys hold the record's start date, sender, number and subject |
| TelegramNotifier.ShownOfRecordKeys | scraper/telegram_notifier.py:34-37 | any sorted distinct list of the record's keys shows exactly those four, in order |
| TelegramNotifier.ShownOfSortedRecordKeys | scraper/telegram_notifier.py:34-37 | sorting the record's keys and skipping leaves the four shown keys |
| TelegramNotifier.RecordShownKeys | scraper/telegram_notifier.py:34-37 | a record's message shows start date, sender, number and subject, in that order |
| TelegramNotifier.RecordBody | scraper/telegram_notifier.py:34-40 | a record's body is the four lines of start date, sender, number and subject |
| TelegramNotifier.RecordBodyTitles | scraper/telegram_notifier.py:35-40 | each body line reads `*Title:* value`, with the value escaped |
| TelegramNotifier.RecordAttachments | scraper/parser.py:88-89 | the record's documento and allegati are what the message reads |
| TelegramNotifier.RecordDocumentoLine | scraper/telegram_notifier.py:43-46 | a record's document line is present exactly when it has a real document link |
| ScraperService.JobMonitor | scraper/scraper_service.py:7-17 | the job creates the table if needed, then leaves the table and log of one cycle, with the notifier's message |
| ScraperService.JobStep | scraper/scraper_service.py:14-17 | one record changes the manager's table and the log as one step of the monitoring cycle, with the notifier's message |
| ScraperService.JobGuarantees | scraper/scraper_service.py:13-17 | the job stores every listed id and keeps old rows; it notifies each new id once, with its first record, right after saving it; repeating it does nothing |
| Calendar.Weekday | streamlit_app/ritardi.py:24 | the weekday is in 0..6, and the ordinal is one more than the weekday modulo 7 |
| Calendar.WeekdayNext | streamlit_app/ritardi.py:24-26 | the next day is one weekday later, Sunday wrapping to Monday |
| Calendar.WorkingDaysCounts | streamlit_app/ritardi.py:23-26 | the count is the number of days in the range, ends included, that fall Monday to Friday |
| Calendar.WorkingDaysSplit | streamlit_app/ritardi.py:23-26 | the count over a range is the sum over its two parts |
| Calendar.WorkingDaysAtMostDays | streamlit_app/ritardi.py:23 | an empty range counts 0; otherwise the count is at most the number of days |
| Calendar.WeekHasFiveWorkingDays | streamlit_app/ritardi.py:23-26 | any seven consecutive days count exactly 5 |
| Calendar.WeeksHaveFiveWorkingDaysEach | streamlit_app/ritardi.py:23-26 | k whole weeks count 5k |
| Calendar.DelayBounds | streamlit_app/ritardi.py:34-37 | publishing on or before the registration day is no delay; the delay never exceeds the calendar days between |
| Frame.Filter | streamlit_app/common.py:15 | a mask keeps exactly the rows that pass it |
| Frame.FilterAppend | streamlit_app/common.py:15-21 | a mask keeps frame order |
| Ritardi.CalculateWorkingDays | streamlit_app/ritardi.py:18-28 | the day-by-day loop counts the working days from start to end, both included |
| Ritardi.AnalyzePublicationDelays | streamlit_app/ritardi.py:30-39 | only rows of the frame with both dates are kept |
| Ritardi.DelaysKeepDatedRows | streamlit_app/ritardi.py:32 | a row appears in the result exactly when it has both dates |
| Ritardi.DelaysAppend | streamlit_app/ritardi.py:32-37 | the analysis works row by row and keeps frame order |
| Ritardi.DelayMeaning | streamlit_app/ritardi.py:34-37 | a row's delay is its working days less one, floored at 0: none when published by the registration day, at most the days between |
| Performance.CalculateWorkingDays | streamlit_app/performance.py:9-19 | the second copy of the loop counts the same working days |
| Performance.AnalyzePublicationDelays | streamlit_app/performance.py:21-33 | only rows of the frame with both dates are kept |
| Performance.SameAsRitardi | streamlit_app/performance.py:21-33 | the two delay analyses give the same result on every frame |
| Common.FilterData | streamlit_app/common.py:12-22 | the result has no more rows than the frame, all taken from it |
| Common.FilterDataMembers | streamlit_app/common.py:13-21 | a row is kept exactly when it is in the frame and passes every criterion that is set |
| Common.FilterDataAppend | streamlit_app/common.py:13-21 | filtering works row by row and keeps frame order |
| Common.FilterDataSingle | streamlit_app/common.py:13-21 | a single row is kept exactly when it is selected |
| Common.NoCriteriaKeepsAll | streamlit_app/common.py:14-21 | with no search, no type or "Tutti", and no dates, the frame comes back whole |
| Common.TypeCriterion | streamlit_app/common.py:16-17 | a chosen type keeps only acts of that type, and drops none of them that pass the other criteria |
| Common.DateCriteria | streamlit_app/common.py:18-21 | kept rows start no earlier than the lower bound and end no later than the upper one |
| Common.ContainsLower | streamlit_app/common.py:15 | an occurrence survives lower-casing both sides |
| Common.SearchCriterion | streamlit_app/common.py:14-15 | among rows that pass the other criteria, a search keeps a row exactly when some column contains it ignoring case; an occurrence as typed is enough |

## Left out

- HTTP is not modelled: sessions, `get` and `post`, `raise_for_status`, timeouts and the Telegram JSON response. A fetch is a lookup in a snapshot of the site that may fail. A notification is the request that would be posted, appended to a log. A failed post is not distinguished.
- HTML parsing with BeautifulSoup and the lxml fallback is not modelled. The model receives the already-parsed rows, `onclick` strings, cell counts and links.
- SQL text, connections and commits are not modelled. Only the table contents and the primary-key semantics are kept.
- The `while True` loop with `time.sleep(3600)` in `main.py` is not modelled: one pass of the loop is.
- The scheduler and the `--once` switch of `scraper_service.py` are not modelled: one run of the job is.
- `KeyboardInterrupt` handling is not modelled.
- Configuration is not modelled. `config.py` is not part of this model. The token and chat id are parameters, and `BASE_URL` is the constant of `main.py`.
- The Streamlit pages and charts are not modelled, and neither are `analisi.py`, `app.py`, `elenco.py` and `sfoglia.py`.
- `analyze_mittenti_performance` is not modelled: it is a floating-point mean per sender.
- `load_data` is not modelled: it is database I/O.
- `filter_data`'s search is not modelled as a regular expression. `str.contains` would treat the search text as one; the model looks for it literally, with ASCII case folding.
- Dates are not parsed. They are day ordinals already parsed from the text, and an unparsable or missing date is `None`. The error `pd.to_datetime` raises on malformed text is not modelled.
- `analyze_publication_delays` on an empty frame returns no rows. pandas' `apply` on an empty frame may behave differently, and the model does not follow it there.
- Unescape: an idealised reader that treats a backslash before any of `_ * [ ] ( )` as an escape. Telegram's legacy Markdown mode documents escapes only for `_ * `` ` `` [`, so Telegram shows `\]`, `\(` and `\)` with the backslash visible, and the round trip does not describe what Telegram displays for those three.
- String operations are modelled on ASCII: `str.title`, `lower` and `strip` ignore non-ASCII letters and white space.
- `str()` of a list value is rendered as the Python list display with single quotes, without escaping quotes inside the items.
- Albo.Fetch: every URL other than "#" is looked up in the snapshot. The model does not say which URLs a live site would answer.
- Records are processed in listing order, as `monitora_albo` (main.py:208-211) and `job_monitor` (scraper/scraper_service.py:13-17) do; nothing sorts them by id.

/** `scraper/scraper_service.py`: the scheduled job of the scraper service.
    It opens the registry, extracts the current listing and, for each
    record whose id is not stored, saves it and then notifies it. */
module ScraperService {
  import opened Strings
  import opened Albo
  import opened Registry
  import opened Telegram
  import opened Monitor
  import opened DbManager
  import opened Parser
  import opened TelegramNotifier

  /** The notification the job sends for a record. */
  function NotifierRender(token: string, chatId: string): Pubblicazione -> Request {
    p => Message(token, chatId, Items(p))
  }

  /** The body of the job's loop for one record: skipped when its id is
      stored, else saved and then notified. */
  method JobStep(dbManager: DatabaseManager, notifier: TelegramNotifier, pub: Pubblicazione, log: seq<Event>)
      returns (newLog: seq<Event>)
    requires dbManager.Valid()
    modifies dbManager.db
    ensures dbManager.Valid()
    ensures State(dbManager.db.pubblicazioni.value, newLog) ==
      Step(State(old(dbManager.db.pubblicazioni.value), log), pub, NotifierRender(notifier.token, notifier.chatId))
  {
    newLog := log;
    var esiste := dbManager.PubblicazioneEsiste(pub.numeroPubblicazione);
    if !esiste {
      dbManager.SalvaPubblicazione(pub);
      newLog := newLog + [Saved(pub)];
      var request := notifier.InviaMessaggio(Items(pub));
      newLog := newLog + [Sent(pub, request)];
    }
  }

  /** `job_monitor`: one run of the job against the database file `db`, the
      board as `site` serves it, and the bot `token`/`chatId`. The table is
      created if missing; the log records the saves and the requests
      posted, in order. */
  method JobMonitor(db: Database, site: Site, token: string, chatId: string) returns (log: seq<Event>)
    modifies db
    ensures var cycle := Cycle(CreateIfNotExists(old(db.pubblicazioni)), ListingSpec(site), NotifierRender(token, chatId));
      db.pubblicazioni == Some(cycle.table) && log == cycle.log
  {
    var dbManager := new DatabaseManager(DB_NAME, db);
    var parser := new AlboParser(site);
    var notifier := new TelegramNotifier(token, chatId);
    ghost var start := State(db.pubblicazioni.value, []);
    ghost var render := NotifierRender(token, chatId);
    var pubblicazioni := parser.EstraiPubblicazioni();
    log := [];
    for i := 0 to |pubblicazioni|
      invariant dbManager.db == db && dbManager.Valid()
      invariant State(db.pubblicazioni.value, log) == Run(start, pubblicazioni[..i], render)
    {
      log := JobStep(dbManager, notifier, pubblicazioni[i], log);
      RunStep(start, pubblicazioni, i, render);
    }
    assert pubblicazioni[..|pubblicazioni|] == pubblicazioni;
  }

  /** What one run of the job guarantees, over any stored table `t`:
      every id of the listing ends up stored and the rows stored before are
      kept; each new id is notified exactly once, with the first record
      carrying it; every notification comes right after the save of the
      same record; and running the job again on the same listing sends
      nothing and stores nothing. */
  lemma JobGuarantees(t: Table, site: Site, token: string, chatId: string)
    ensures var pubs := ListingSpec(site);
      var render := NotifierRender(token, chatId);
      var cycle := Cycle(t, pubs, render);
      var ids := SentIds(cycle.log);
      && (forall k :: 0 <= k < |pubs| ==> pubs[k].numeroPubblicazione in cycle.table)
      && (forall k :: k in t ==> k in cycle.table && cycle.table[k] == t[k])
      && (forall i, j :: 0 <= i < j < |ids| ==> ids[i] != ids[j])
      && (forall k :: k in ids <==> k in Ids(pubs) && k !in t)
      && SentAreFirst(pubs, cycle.log)
      && SavedThenSent(cycle.log, render)
      && Cycle(cycle.table, pubs, render) == State(cycle.table, [])
  {
    var pubs := ListingSpec(site);
    var render := NotifierRender(token, chatId);
    CycleStoresAll(t, pubs, render);
    CycleNotifiesEachNewIdOnce(t, pubs, render);
    CycleSendsFirstOccurrence(t, pubs, render);
    CyclePersistsBeforeNotifying(t, pubs, render);
    SecondCycleSendsNothing(t, pubs, render);
  }
}

/** `DatabaseManager`: the registry the scraper service uses, over the
    database file named at construction. */
module DbManager {
  import opened Strings
  import opened Albo
  import opened Registry

  const DB_NAME: string := "pubblicazioni.db"

  class DatabaseManager {
    const dbName: string
    /** The database file `dbName` names. */
    const db: Database

    ghost predicate Valid()
      reads this, db
    {
      db.pubblicazioni.Some?
    }

    /** Opens the file and creates the table if it is missing; rows already
        in the file are kept. */
    constructor (dbName: string, db: Database)
      modifies db
      ensures this.dbName == dbName && this.db == db
      ensures Valid() && db.pubblicazioni == Some(CreateIfNotExists(old(db.pubblicazioni)))
    {
      this.dbName := dbName;
      this.db := db;
      new;
      InitDb();
    }

    /** Creates the table only when it is absent, so running it again
        changes nothing. */
    method InitDb()
      modifies db
      ensures Valid()
      ensures db.pubblicazioni == Some(CreateIfNotExists(old(db.pubblicazioni)))
      ensures old(db.pubblicazioni).Some? ==> unchanged(db)
    {
      if db.pubblicazioni.None? {
        db.pubblicazioni := Some(map[]);
      }
    }

    /** True exactly when a stored row has this id. */
    method PubblicazioneEsiste(numeroPubblicazione: string) returns (found: bool)
      requires Valid()
      ensures found <==> numeroPubblicazione in db.pubblicazioni.value
    {
      found := numeroPubblicazione in db.pubblicazioni.value;
    }

    /** Normalises `documento` and `allegati`, then inserts the row unless
        its id is already stored. */
    method SalvaPubblicazione(p: Pubblicazione)
      requires Valid()
      modifies db
      ensures Valid()
      ensures db.pubblicazioni.value == InsertOrIgnore(old(db.pubblicazioni.value), p)
      ensures p.numeroPubblicazione in db.pubblicazioni.value
    {
      var documento: string;
      if p.documento.List? {
        documento := if p.documento.items != [] then p.documento.items[0] else "N/A";
      } else {
        documento := p.documento.s;
      }
      var allegati: string;
      if p.allegati.List? {
        allegati := Join(",", p.allegati.items);
      } else {
        allegati := p.allegati.s;
      }
      var row := Row(p.numeroPubblicazione, p.mittente, p.tipoAtto, p.registroGenerale,
                     p.dataRegistroGenerale, p.oggettoAtto, p.dataInizioPubblicazione,
                     p.dataFinePubblicazione, documento, allegati);
      var t := db.pubblicazioni.value;
      if p.numeroPubblicazione !in t {
        db.pubblicazioni := Some(t[p.numeroPubblicazione := row]);
      }
    }

    /** Every stored row, once each: the rows are those of the table
        listed by its ids, each id once, in some order. */
    method GetPubblicazioni() returns (rows: seq<Row>, ghost ids: seq<string>)
      requires Valid()
      ensures |rows| == |ids| == |db.pubblicazioni.value|
      ensures forall k :: k in ids <==> k in db.pubblicazioni.value
      ensures forall i, j :: 0 <= i < j < |ids| ==> ids[i] != ids[j]
      ensures forall i :: 0 <= i < |rows| ==> ids[i] in db.pubblicazioni.value && rows[i] == db.pubblicazioni.value[ids[i]]
      ensures forall r :: r in rows <==> r in db.pubblicazioni.value.Values
    {
      var t := db.pubblicazioni.value;
      var pending := t.Keys;
      rows := [];
      ids := [];
      while pending != {}
        invariant pending <= t.Keys
        invariant |rows| == |ids| && |rows| + |pending| == |t|
        invariant forall k :: k in ids <==> k in t.Keys - pending
        invariant forall i, j :: 0 <= i < j < |ids| ==> ids[i] != ids[j]
        invariant forall i :: 0 <= i < |rows| ==> ids[i] in t && rows[i] == t[ids[i]]
        decreases |pending|
      {
        var k :| k in pending;
        assert k !in ids;
        rows := rows + [t[k]];
        ids := ids + [k];
        pending := pending - {k};
      }
      forall r | r in t.Values ensures r in rows {
        var k :| k in t && t[k] == r;
        assert k in ids;
        var i :| 0 <= i < |ids| && ids[i] == k;
        assert rows[i] == r;
      }
    }
  }
}

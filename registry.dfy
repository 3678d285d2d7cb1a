/** The SQLite table `pubblicazioni`: ten text columns with
    `numero_pubblicazione` as PRIMARY KEY, written with INSERT OR IGNORE.
    Both the stand-alone script and `DatabaseManager` use this table in the
    same database file. */
module Registry {
  import opened Strings
  import opened Albo

  /** A stored row. */
  datatype Row = Row(
    numeroPubblicazione: string,
    mittente: string,
    tipoAtto: string,
    registroGenerale: string,
    dataRegistroGenerale: string,
    oggettoAtto: string,
    dataInizioPubblicazione: string,
    dataFinePubblicazione: string,
    documentoPrincipale: string,
    allegati: string)

  /** The table's contents, by primary key. */
  type Table = map<string, Row>

  /** Every row is stored under its own `numero_pubblicazione`. */
  ghost predicate KeyedById(t: Table) {
    forall k :: k in t ==> t[k].numeroPubblicazione == k
  }

  /** The stored form of `documento`: a list becomes its first element, or
      "N/A" when empty; a string is kept. */
  function DocumentoColumn(v: Value): string {
    match v
    case Str(s) => s
    case List(xs) => if xs != [] then xs[0] else "N/A"
  }

  /** The stored form of `allegati`: a list is joined with ","; a string is kept. */
  function AllegatiColumn(v: Value): string {
    match v
    case Str(s) => s
    case List(xs) => Join(",", xs)
  }

  /** The row stored for a record. */
  function ToRow(p: Pubblicazione): (r: Row)
    ensures r.numeroPubblicazione == p.numeroPubblicazione
  {
    Row(p.numeroPubblicazione, p.mittente, p.tipoAtto, p.registroGenerale,
        p.dataRegistroGenerale, p.oggettoAtto, p.dataInizioPubblicazione,
        p.dataFinePubblicazione, DocumentoColumn(p.documento), AllegatiColumn(p.allegati))
  }

  /** Stored attachments can be read back: splitting the stored column on ","
      gives the original list, when no link is empty or holds a comma. An
      empty list is stored as "". */
  lemma AllegatiColumnRoundTrip(xs: seq<string>)
    requires forall k :: 0 <= k < |xs| ==> ',' !in xs[k]
    ensures xs != [] ==> Split(AllegatiColumn(List(xs)), ',') == xs
    ensures xs == [] ==> AllegatiColumn(List(xs)) == ""
  {
    if xs != [] {
      JoinSplit(xs, ',');
    }
  }

  /** INSERT OR IGNORE keyed on `numero_pubblicazione`. */
  function InsertOrIgnore(t: Table, p: Pubblicazione): (r: Table)
    ensures r.Keys == t.Keys + {p.numeroPubblicazione}
    ensures forall k :: k in t ==> r[k] == t[k]
    ensures p.numeroPubblicazione !in t ==> r[p.numeroPubblicazione] == ToRow(p)
    ensures KeyedById(t) ==> KeyedById(r)
  {
    if p.numeroPubblicazione in t then t else t[p.numeroPubblicazione := ToRow(p)]
  }

  /** Saving the same record twice is the same as saving it once; saving a
      record whose id is stored changes nothing. */
  lemma InsertOrIgnoreIdempotent(t: Table, p: Pubblicazione)
    ensures InsertOrIgnore(InsertOrIgnore(t, p), p) == InsertOrIgnore(t, p)
    ensures p.numeroPubblicazione in t ==> InsertOrIgnore(t, p) == t
  {
  }

  /** CREATE TABLE IF NOT EXISTS. */
  function CreateIfNotExists(t: Option<Table>): (r: Table)
    ensures t.Some? ==> r == t.value
    ensures t.None? ==> r == map[]
  {
    t.GetOr(map[])
  }

  /** The database file: the table once it has been created. */
  class Database {
    var pubblicazioni: Option<Table>

    constructor (existing: Option<Table>)
      ensures pubblicazioni == existing
    {
      pubblicazioni := existing;
    }
  }
}

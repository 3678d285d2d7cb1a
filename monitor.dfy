/** One monitoring cycle, as both the stand-alone script and the scraper
    service run it: for each extracted record in list order, if its id is
    not stored, save it and then notify it. The effects are recorded in a
    log: a save, then the request posted to the Bot API. */
module Monitor {
  import opened Albo
  import opened Registry
  import opened Telegram

  datatype Event = Saved(p: Pubblicazione) | Sent(p: Pubblicazione, request: Request)

  /** The table after the records seen so far, and what was done. */
  datatype State = State(table: Table, log: seq<Event>)

  function Ids(pubs: seq<Pubblicazione>): set<string> {
    set k | 0 <= k < |pubs| :: pubs[k].numeroPubblicazione
  }

  /** One record: skipped when its id is stored, else saved and notified. */
  function Step(st: State, p: Pubblicazione, render: Pubblicazione -> Request): State {
    if p.numeroPubblicazione in st.table then st
    else State(InsertOrIgnore(st.table, p), st.log + [Saved(p), Sent(p, render(p))])
  }

  /** The records of `pubs` processed in order from `st`. */
  function Run(st: State, pubs: seq<Pubblicazione>, render: Pubblicazione -> Request): (r: State)
    ensures r.table.Keys == st.table.Keys + Ids(pubs)
    ensures forall k :: k in st.table ==> r.table[k] == st.table[k]
    ensures |st.log| <= |r.log| && r.log[..|st.log|] == st.log
    decreases |pubs|
  {
    if pubs == [] then st
    else
      var init := pubs[..|pubs| - 1];
      assert Ids(pubs) == Ids(init) + {pubs[|pubs| - 1].numeroPubblicazione} by {
        assert forall k :: 0 <= k < |init| ==> init[k] == pubs[k];
      }
      Step(Run(st, init, render), pubs[|pubs| - 1], render)
  }

  /** Processing one more record of the list is one more step. */
  lemma RunStep(start: State, pubs: seq<Pubblicazione>, i: nat, render: Pubblicazione -> Request)
    requires i < |pubs|
    ensures Run(start, pubs[..i + 1], render) == Step(Run(start, pubs[..i], render), pubs[i], render)
  {
    assert pubs[..i + 1][..i] == pubs[..i];
  }

  /** A cycle over the stored table `t`, with an empty log. */
  function Cycle(t: Table, pubs: seq<Pubblicazione>, render: Pubblicazione -> Request): State {
    Run(State(t, []), pubs, render)
  }

  /** The ids notified, in order. */
  function SentIds(log: seq<Event>): seq<string>
    decreases |log|
  {
    if log == [] then []
    else SentIds(log[..|log| - 1]) + (if log[|log| - 1].Sent? then [log[|log| - 1].p.numeroPubblicazione] else [])
  }

  lemma {:induction false} SentIdsAppend(a: seq<Event>, b: seq<Event>)
    ensures SentIds(a + b) == SentIds(a) + SentIds(b)
    decreases |b|
  {
    if b == [] {
      assert a + b == a;
    } else {
      assert (a + b)[..|a + b| - 1] == a + b[..|b| - 1];
      SentIdsAppend(a, b[..|b| - 1]);
    }
  }

  /** The log is a sequence of pairs: a save of a record immediately
      followed by the notification of that same record. Nothing is notified
      without having been saved just before. */
  ghost predicate SavedThenSent(log: seq<Event>, render: Pubblicazione -> Request) {
    |log| % 2 == 0 &&
    forall i :: 0 <= i < |log| / 2 ==>
      log[2 * i].Saved? && log[2 * i + 1] == Sent(log[2 * i].p, render(log[2 * i].p))
  }

  lemma {:induction false} RunSavesBeforeSending(st: State, pubs: seq<Pubblicazione>, render: Pubblicazione -> Request)
    requires SavedThenSent(st.log, render)
    ensures SavedThenSent(Run(st, pubs, render).log, render)
    decreases |pubs|
  {
    if pubs != [] {
      var init := pubs[..|pubs| - 1];
      RunSavesBeforeSending(st, init, render);
      var mid := Run(st, init, render);
      var p := pubs[|pubs| - 1];
      assert Run(st, pubs, render) == Step(mid, p, render);
      if p.numeroPubblicazione !in mid.table {
        var log := mid.log + [Saved(p), Sent(p, render(p))];
        assert |log| / 2 == |mid.log| / 2 + 1;
        forall i | 0 <= i < |log| / 2
          ensures log[2 * i].Saved? && log[2 * i + 1] == Sent(log[2 * i].p, render(log[2 * i].p))
        {
          if i < |mid.log| / 2 {
            assert log[2 * i] == mid.log[2 * i];
            assert log[2 * i + 1] == mid.log[2 * i + 1];
          } else {
            assert 2 * i == |mid.log|;
            assert log[2 * i] == Saved(p);
          }
        }
      }
    }
  }

  /** In a cycle every notification is preceded by the save of the same record. */
  lemma CyclePersistsBeforeNotifying(t: Table, pubs: seq<Pubblicazione>, render: Pubblicazione -> Request)
    ensures SavedThenSent(Cycle(t, pubs, render).log, render)
  {
    RunSavesBeforeSending(State(t, []), pubs, render);
  }

  /** The ids notified so far are distinct and are exactly those the run added to the table. */
  ghost predicate NotifiedAreAdded(t: Table, st: State) {
    var ids := SentIds(st.log);
    (forall i, j :: 0 <= i < j < |ids| ==> ids[i] != ids[j]) &&
    (forall k :: k in ids <==> k in st.table && k !in t) &&
    t.Keys <= st.table.Keys
  }

  lemma {:induction false} RunNotifiesAdded(t: Table, st: State, pubs: seq<Pubblicazione>, render: Pubblicazione -> Request)
    requires NotifiedAreAdded(t, st)
    ensures NotifiedAreAdded(t, Run(st, pubs, render))
    decreases |pubs|
  {
    if pubs != [] {
      var init := pubs[..|pubs| - 1];
      RunNotifiesAdded(t, st, init, render);
      var mid := Run(st, init, render);
      assert Run(st, pubs, render) == Step(mid, pubs[|pubs| - 1], render);
      StepNotifiesAdded(t, mid, pubs[|pubs| - 1], render);
    }
  }

  /** One record keeps the notified ids exactly the newly stored ones, each
      once: a new id is sent once, a known one not at all. */
  lemma StepNotifiesAdded(t: Table, st: State, p: Pubblicazione, render: Pubblicazione -> Request)
    requires NotifiedAreAdded(t, st)
    ensures NotifiedAreAdded(t, Step(st, p, render))
  {
    if p.numeroPubblicazione !in st.table {
      var pair := [Saved(p), Sent(p, render(p))];
      SentIdsAppend(st.log, pair);
      assert SentIds(pair) == [p.numeroPubblicazione] by {
        assert pair[..1] == [Saved(p)];
        assert [Saved(p)][..0] == [];
        assert SentIds([Saved(p)]) == SentIds([]) + [];
        assert SentIds(pair) == SentIds(pair[..1]) + [p.numeroPubblicazione];
      }
    }
  }

  /** Novelty: a cycle notifies each id of the list that was not stored
      before, and each only once, however often it occurs in the list (all
      the records whose id could not be read share the id "N/A"). */
  lemma CycleNotifiesEachNewIdOnce(t: Table, pubs: seq<Pubblicazione>, render: Pubblicazione -> Request)
    ensures var ids := SentIds(Cycle(t, pubs, render).log);
      && (forall i, j :: 0 <= i < j < |ids| ==> ids[i] != ids[j])
      && (forall k :: k in ids <==> k in Ids(pubs) && k !in t)
  {
    RunNotifiesAdded(t, State(t, []), pubs, render);
  }

  /** After a cycle every id of the list is stored, and the rows stored
      before are untouched. */
  lemma CycleStoresAll(t: Table, pubs: seq<Pubblicazione>, render: Pubblicazione -> Request)
    ensures var after := Cycle(t, pubs, render).table;
      && (forall k :: 0 <= k < |pubs| ==> pubs[k].numeroPubblicazione in after)
      && (forall k :: k in t ==> k in after && after[k] == t[k])
  {
    var after := Cycle(t, pubs, render).table;
    assert forall k :: 0 <= k < |pubs| ==> pubs[k].numeroPubblicazione in Ids(pubs);
  }

  /** The record at `j` is the first of the list with its id. */
  predicate FirstWithId(pubs: seq<Pubblicazione>, j: int)
    requires 0 <= j < |pubs|
  {
    forall j' :: 0 <= j' < j ==> pubs[j'].numeroPubblicazione != pubs[j].numeroPubblicazione
  }

  /** The record notified for an id is the first of the list with that id. */
  ghost predicate SentAreFirst(pubs: seq<Pubblicazione>, log: seq<Event>) {
    forall i :: 0 <= i < |log| && log[i].Sent? ==>
      exists j :: 0 <= j < |pubs| && pubs[j] == log[i].p && FirstWithId(pubs, j)
  }

  /** A first occurrence in a prefix of the list is one in the whole list. */
  lemma SentAreFirstPrefix(pubs: seq<Pubblicazione>, n: nat, log: seq<Event>)
    requires n <= |pubs| && SentAreFirst(pubs[..n], log)
    ensures SentAreFirst(pubs, log)
  {
    var init := pubs[..n];
    forall i | 0 <= i < |log| && log[i].Sent?
      ensures exists j :: 0 <= j < |pubs| && pubs[j] == log[i].p && FirstWithId(pubs, j)
    {
      var j :| 0 <= j < |init| && init[j] == log[i].p && FirstWithId(init, j);
      assert pubs[j] == init[j];
      assert FirstWithId(pubs, j) by {
        forall j' | 0 <= j' < j
          ensures pubs[j'].numeroPubblicazione != pubs[j].numeroPubblicazione
        {
          assert pubs[j'] == init[j'];
        }
      }
    }
  }

  lemma {:induction false} CycleSendsFirstOccurrence(t: Table, pubs: seq<Pubblicazione>, render: Pubblicazione -> Request)
    ensures SentAreFirst(pubs, Cycle(t, pubs, render).log)
    decreases |pubs|
  {
    if pubs != [] {
      var n := |pubs| - 1;
      var init, p := pubs[..n], pubs[n];
      CycleSendsFirstOccurrence(t, init, render);
      var mid := Cycle(t, init, render);
      SentAreFirstPrefix(pubs, n, mid.log);
      assert Cycle(t, pubs, render) == Step(mid, p, render);
      if p.numeroPubblicazione !in mid.table {
        assert FirstWithId(pubs, n) by {
          forall j' | 0 <= j' < n
            ensures pubs[j'].numeroPubblicazione != p.numeroPubblicazione
          {
            assert init[j'] == pubs[j'];
            assert pubs[j'].numeroPubblicazione in Ids(init);
          }
        }
        var log := mid.log + [Saved(p), Sent(p, render(p))];
        forall i | 0 <= i < |log| && log[i].Sent?
          ensures exists j :: 0 <= j < |pubs| && pubs[j] == log[i].p && FirstWithId(pubs, j)
        {
          if i < |mid.log| {
            assert log[i] == mid.log[i];
          } else {
            assert log[i].p == pubs[n];
          }
        }
      }
    }
  }

  /** When every id of the list is stored, processing the list changes nothing. */
  lemma {:induction false} RunOnStoredIsNoop(st: State, pubs: seq<Pubblicazione>, render: Pubblicazione -> Request)
    requires Ids(pubs) <= st.table.Keys
    ensures Run(st, pubs, render) == st
    decreases |pubs|
  {
    if pubs != [] {
      var init := pubs[..|pubs| - 1];
      assert Ids(init) <= Ids(pubs) by {
        forall k | 0 <= k < |init| ensures init[k].numeroPubblicazione in Ids(pubs) {
          assert init[k] == pubs[k];
        }
      }
      RunOnStoredIsNoop(st, init, render);
      assert pubs[|pubs| - 1].numeroPubblicazione in Ids(pubs);
    }
  }

  /** Idempotence: a second cycle over the same list, against the table the
      first one left, sends nothing and stores nothing. */
  lemma SecondCycleSendsNothing(t: Table, pubs: seq<Pubblicazione>, render: Pubblicazione -> Request)
    ensures var after := Cycle(t, pubs, render).table;
      Cycle(after, pubs, render) == State(after, [])
  {
    var after := Cycle(t, pubs, render).table;
    RunOnStoredIsNoop(State(after, []), pubs, render);
  }

  /** Two records with the same absent id (such as two "N/A"): only the
      first is saved and notified. */
  lemma DuplicateIdNotifiedOnce(t: Table, a: Pubblicazione, b: Pubblicazione, render: Pubblicazione -> Request)
    requires a.numeroPubblicazione == b.numeroPubblicazione && a.numeroPubblicazione !in t
    ensures Cycle(t, [a, b], render).log == [Saved(a), Sent(a, render(a))]
    ensures Cycle(t, [a, b], render).table == t[a.numeroPubblicazione := ToRow(a)]
  {
    var st := State(t, []);
    assert [a, b][..1] == [a];
    assert [a][..0] == [];
    assert Run(st, [a], render) == Step(st, a, render);
    assert Run(st, [a, b], render) == Step(Step(st, a, render), b, render);
  }
}

/** Whole runs of `db sync` beside a running core: after the first one, no live session is disturbed. */
module LiveSessions {
  import opened Results
  import opened Canonical
  import opened Subscribers
  import opened Collections
  import opened Sync
  import opened SyncLaws

  lemma EntryWanted(s: Subscriber, ids: Ids)
    ensures Wanted(EntryOf(s, ids))
  {
    DocValid(s, ids);
    DocLookups(s, ids);
    assert Valid(ObjectId(ids.top));
  }

  lemma EntriesWanted(subs: seq<Subscriber>, ids: seq<Ids>)
    ensures AllWanted(EntriesOf(subs, ids))
    ensures DistinctImsis(subs) ==> Distinct(EntriesOf(subs, ids))
  {
    var entries := EntriesOf(subs, ids);
    forall e | e in entries ensures Wanted(e) {
      var i :| 0 <= i < |entries| && entries[i] == e;
      EntryWanted(subs[i], IdAt(ids, i));
    }
  }

  lemma EntriesRelisted(subs: seq<Subscriber>, ids: seq<Ids>, again: seq<Ids>)
    ensures Relisted(EntriesOf(subs, ids), EntriesOf(subs, again))
  {
    forall i | 0 <= i < |subs| ensures Agrees(DocOf(subs[i], IdAt(ids, i)), DocOf(subs[i], IdAt(again, i))) {
      DocsAgreeIff(subs[i], subs[i], IdAt(ids, i), IdAt(again, i));
    }
  }

  /** The collection mirrors the store, whichever identifiers the comparison generates. */
  ghost predicate Mirrors(docs: seq<Value>, subs: seq<Subscriber>) { InSync(docs, EntriesOf(subs, [])) }

  lemma MirrorsAnyIds(docs: seq<Value>, subs: seq<Subscriber>, ids: seq<Ids>)
    ensures Mirrors(docs, subs) <==> InSync(docs, EntriesOf(subs, ids))
  {
    EntriesWanted(subs, []);
    EntriesWanted(subs, ids);
    EntriesRelisted(subs, [], ids);
    EntriesRelisted(subs, ids, []);
    if Mirrors(docs, subs) { RelistedSettled(docs, EntriesOf(subs, []), EntriesOf(subs, ids)); }
    if InSync(docs, EntriesOf(subs, ids)) { RelistedSettled(docs, EntriesOf(subs, ids), EntriesOf(subs, [])); }
  }

  /** A completed sync of any collection leaves it mirroring the store. */
  lemma SyncMirrors(docs: seq<Value>, subs: seq<Subscriber>, ids: seq<Ids>)
    requires Sound(docs) && DistinctImsis(subs) && Runnable(subs)
    ensures Mirrors(DocsAfter(docs, subs, ids), subs)
  {
    EntriesWanted(subs, ids);
    SyncSettles(docs, EntriesOf(subs, ids));
    MirrorsAnyIds(DocsAfter(docs, subs, ids), subs, ids);
  }

  /** What a completed sync does to each stored subscriber's document, and that it reports exactly those. */
  lemma SyncReports(docs: seq<Value>, subs: seq<Subscriber>, ids: seq<Ids>, i: nat, standing: Standing)
    requires Sound(docs) && DistinctImsis(subs) && Runnable(subs) && i < |subs|
    requires StandsAs(docs, EntryOf(subs[i], IdAt(ids, i)), standing)
    ensures
      var entries := EntriesOf(subs, ids);
      var before, after := Find(docs, subs[i].imsi), Find(DocsAfter(docs, subs, ids), subs[i].imsi);
      && Becomes(before, entries[i], after, standing)
      && OutcomeOf(docs, subs, ids).Done?
      && var t := OutcomeOf(docs, subs, ids).summary;
      && t.added == HowMany(docs, entries, Missing) && t.updated == HowMany(docs, entries, Different)
      && t.untouched == HowMany(docs, entries, Agreeing)
  {
    var entries := EntriesOf(subs, ids);
    EntriesWanted(subs, ids);
    forall e | e in entries ensures Lookup(e.doc, "_id") == None {
      var j :| 0 <= j < |entries| && entries[j] == e;
      DocLookups(subs[j], IdAt(ids, j));
    }
    SyncTells(docs, entries, i, standing);
  }

  /** Either the core writes a runtime field, or someone syncs the same store again. */
  datatype Event = CoreEvent(imsi: string, write: CoreWrite) | SyncEvent(ids: seq<Ids>)

  predicate IsEvent(ev: Event) { ev.CoreEvent? ==> IsCoreWrite(ev.write) }

  function Next(docs: seq<Value>, subs: seq<Subscriber>, ev: Event): seq<Value> {
    match ev
    case CoreEvent(imsi, w) => Touched(docs, imsi, w)
    case SyncEvent(ids) => DocsAfter(docs, subs, ids)
  }

  /** Along the run, every sync leaves the documents as they are and reports nothing written. */
  predicate Silent(docs: seq<Value>, subs: seq<Subscriber>, events: seq<Event>)
    decreases events
  {
    events == [] || (
      && (events[0].SyncEvent? ==>
        && DocsAfter(docs, subs, events[0].ids) == docs
        && NothingWritten(OutcomeOf(docs, subs, events[0].ids)))
      && Silent(Next(docs, subs, events[0]), subs, events[1..]))
  }

  predicate NothingWritten(r: Outcome) {
    r.Done? && r.summary.added == 0 && r.summary.updated == 0 && r.summary.removed == 0
  }

  lemma {:induction false} MirroredIsSilent(docs: seq<Value>, subs: seq<Subscriber>, events: seq<Event>)
    requires Mirrors(docs, subs) && Runnable(subs) && forall ev | ev in events :: IsEvent(ev)
    ensures Silent(docs, subs, events)
    decreases events
  {
    if events != [] {
      assert events[0] in events && forall ev | ev in events[1..] :: ev in events;
      EntriesWanted(subs, []);
      match events[0] {
        case CoreEvent(imsi, w) => TouchedInSync(docs, EntriesOf(subs, []), imsi, w);
        case SyncEvent(ids) =>
          EntriesWanted(subs, ids);
          MirrorsAnyIds(docs, subs, ids);
          QuietSync(docs, EntriesOf(subs, ids));
      }
      MirroredIsSilent(Next(docs, subs, events[0]), subs, events[1..]);
    }
  }

  /** Once a sync has completed, no interleaving of the core's own writes with further syncs of the same
      store ever inserts, replaces or deletes a document again. */
  lemma LiveSessionsUndisturbed(docs: seq<Value>, subs: seq<Subscriber>, ids: seq<Ids>, events: seq<Event>)
    requires Sound(docs) && DistinctImsis(subs) && Runnable(subs)
    requires forall ev | ev in events :: IsEvent(ev)
    ensures Silent(DocsAfter(docs, subs, ids), subs, events)
  {
    SyncMirrors(docs, subs, ids);
    MirroredIsSilent(DocsAfter(docs, subs, ids), subs, events);
  }

  /** After an edit of the store, a mirrored document is rewritten exactly when the core would see a
      difference: another key, OPc or AMF value, or another roaming policy. */
  lemma RewrittenIffServiceChanged(docs: seq<Value>, subs: seq<Subscriber>, i: nat, t: Subscriber, ids: Ids)
    requires Mirrors(docs, subs) && i < |subs| && t.imsi == subs[i].imsi && !Held(docs, t.imsi)
    ensures Find(docs, t.imsi).Some?
    ensures Canon(Find(docs, t.imsi).value) == Canon(DocOf(t, ids)) <==> SameService(subs[i], t)
  {
    var e := EntriesOf(subs, [])[i];
    EntriesWanted(subs, []);
    assert e in EntriesOf(subs, []) && Settled(docs, e);
    FindMember(docs, t.imsi);
    var d := Find(docs, t.imsi).value;
    DocValid(t, ids);
    CanonEqualIffAgrees(d, DocOf(t, ids));
    AgreesTransitive(d, e.doc, DocOf(t, ids));
    DocsAgreeIff(subs[i], t, IdAt([], i), ids);
  }

  // ----- the stores a sync can run on -----

  /** The field rules admit one final newline, and then no sync of that store ever runs: it runs exactly
      when every field has its nominal length. */
  lemma {:induction false} RunnableIff(subs: seq<Subscriber>)
    requires forall s | s in subs :: ValidSubscriber(s)
    ensures Runnable(subs) <==> forall s | s in subs :: |s.imsi| == 15 && |s.key| == 32 && |s.opc| == 32 && |s.amf| == 4
  {
    forall s | s in subs
      ensures '\n' !in s.imsi && '\n' !in s.key && '\n' !in s.opc && '\n' !in s.amf <==>
        |s.imsi| == 15 && |s.key| == 32 && |s.opc| == 32 && |s.amf| == 4
    {
      NewlineIff(s.imsi, 15);
      NewlineIff(s.key, 32);
      NewlineIff(s.opc, 32);
      NewlineIff(s.amf, 4);
    }
  }

  lemma NewlineIff(s: string, n: nat)
    requires FitsLength(s, n) && forall i | 0 <= i < n :: s[i] != '\n'
    ensures '\n' !in s <==> |s| == n
  {
    if |s| == n + 1 { assert s[n] in s; }
  }

  /** A subscriber the store accepts, and no store that holds it is ever carried to the core. */
  lemma {:induction false} TrailingNewlineBlocksSync(docs: seq<Value>, subs: seq<Subscriber>, s: Subscriber,
      ids: seq<Ids>)
    requires s == Subscriber("001010000000001\n", seq(32, _ => 'A'), seq(32, _ => 'B'), "", "", "8000", true, "")
    requires s in subs
    ensures ValidSubscriber(s) && DocsAfter(docs, subs, ids) == docs && OutcomeOf(docs, subs, ids) == Failed
  {
    assert s.imsi[15] == '\n';
  }
}

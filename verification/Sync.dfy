/** `db sync`: the reconcile of an island's collection with its local store. */
module Sync {
  import opened Canonical
  import opened Subscribers
  import opened Collections

  /** One element of the script's `subs`, with the identifier an insert would generate. */
  datatype Entry = Entry(imsi: string, doc: Value, id: Value)

  function Imsis(entries: seq<Entry>): set<string> { set e | e in entries :: e.imsi }

  // ----- one run -----

  datatype Progress = Progress(docs: seq<Value>, added: nat, updated: nat, untouched: nat)

  datatype Summary = Summary(added: nat, updated: nat, untouched: nat, removed: nat)

  /** One turn of the loop. */
  function Step(p: Progress, e: Entry): Progress {
    match Find(p.docs, e.imsi)
    case None => p.(docs := p.docs + [WithId(e.doc, e.id)], added := p.added + 1)
    case Some(existing) =>
      if Marked(existing) then p
      else if Canon(existing) == Canon(e.doc) then p.(untouched := p.untouched + 1)
      else p.(docs := ReplaceFirst(p.docs, e.imsi, e.doc), updated := p.updated + 1)
  }

  function Loop(docs: seq<Value>, entries: seq<Entry>): Progress {
    if entries == [] then Progress(docs, 0, 0, 0)
    else Step(Loop(docs, entries[..|entries| - 1]), entries[|entries| - 1])
  }

  function Synced(docs: seq<Value>, entries: seq<Entry>): seq<Value> { Keep(Loop(docs, entries).docs, Imsis(entries)) }

  lemma {:induction false} KeepShrinks(docs: seq<Value>, imsis: set<string>)
    ensures |Keep(docs, imsis)| <= |docs|
  {
    if docs != [] { KeepShrinks(docs[1..], imsis); }
  }

  function SummaryOf(docs: seq<Value>, entries: seq<Entry>): Summary {
    var p := Loop(docs, entries);
    KeepShrinks(p.docs, Imsis(entries));
    Summary(p.added, p.updated, p.untouched, |p.docs| - |Keep(p.docs, Imsis(entries))|)
  }

  /** The sync script, run against `db`. */
  method RunScript(db: Collection, entries: seq<Entry>) returns (summary: Summary)
    modifies db
    ensures db.docs == Synced(old(db.docs), entries) && summary == SummaryOf(old(db.docs), entries)
  {
    var added, updated, untouched, i := 0, 0, 0, 0;
    while i < |entries|
      invariant i <= |entries|
      invariant Progress(db.docs, added, updated, untouched) == Loop(old(db.docs), entries[..i])
    {
      var e := entries[i];
      assert entries[..i + 1][..i] == entries[..i];
      var existing := db.FindOne(e.imsi);
      i := i + 1;
      if existing.Some? && Marked(existing.value) {
        continue;
      }
      if existing.None? {
        db.InsertOne(e.doc, e.id);
        added := added + 1;
      } else if Canon(existing.value) == Canon(e.doc) {
        untouched := untouched + 1;
      } else {
        db.ReplaceOne(e.imsi, e.doc);
        updated := updated + 1;
      }
    }
    assert entries[..i] == entries;
    var removed := db.DeleteStrays(Imsis(entries));
    return Summary(added, updated, untouched, removed);
  }

  // ----- `db sync` -----

  function EntryOf(s: Subscriber, ids: Ids): Entry { Entry(s.imsi, DocOf(s, ids), ObjectId(ids.top)) }

  function EntriesOf(subs: seq<Subscriber>, ids: seq<Ids>): (r: seq<Entry>)
    ensures |r| == |subs| && forall i | 0 <= i < |r| :: r[i] == EntryOf(subs[i], IdAt(ids, i))
  {
    seq(|subs|, i requires 0 <= i < |subs| => EntryOf(subs[i], IdAt(ids, i)))
  }

  /** A raw newline inside a string literal is a syntax error: the script then changes nothing. */
  predicate Runnable(subs: seq<Subscriber>) {
    forall s | s in subs :: '\n' !in s.imsi && '\n' !in s.key && '\n' !in s.opc && '\n' !in s.amf
  }

  datatype Outcome = Failed | Done(summary: Summary)

  function DocsAfter(docs: seq<Value>, subs: seq<Subscriber>, ids: seq<Ids>): seq<Value> {
    if Runnable(subs) then Synced(docs, EntriesOf(subs, ids)) else docs
  }

  function OutcomeOf(docs: seq<Value>, subs: seq<Subscriber>, ids: seq<Ids>): Outcome {
    if Runnable(subs) then Done(SummaryOf(docs, EntriesOf(subs, ids))) else Failed
  }

  method RunSync(db: Collection, subs: seq<Subscriber>, ids: seq<Ids>) returns (r: Outcome)
    modifies db
    ensures db.docs == DocsAfter(old(db.docs), subs, ids) && r == OutcomeOf(old(db.docs), subs, ids)
  {
    if !Runnable(subs) { return Failed; }
    var summary := RunScript(db, EntriesOf(subs, ids));
    return Done(summary);
  }
}

/** What one sync run does to any collection, and why the ones after it leave live sessions alone. */
module SyncLaws {
  import opened Results
  import opened Json
  import opened Canonical
  import opened Subscribers
  import opened Collections
  import opened Sync

  // ----- writes inside a document -----

  lemma PutValid(fs: seq<Field<Value>>, k: string, v: Value)
    requires Valid(Doc(fs)) && Valid(v)
    ensures Valid(Doc(Put(fs, k, v)))
  {
    PutMembers(fs, k, v);
  }

  /** A value under a dropped key never shows. */
  lemma PutDropped(fs: seq<Field<Value>>, k: string, v: Value)
    requires Valid(Doc(fs)) && Dropped(k)
    ensures Agrees(Doc(Put(fs, k, v)), Doc(fs))
  {
    PutMembers(fs, k, v);
    var gs := Put(fs, k, v);
    PutKeptKeys(fs, k, v);
    forall f, g | f in gs && g in fs && f.key == g.key && !Dropped(f.key) ensures Agrees(f.val, g.val) {
      assert f in fs;
      SameField(fs, f, g);
      AgreesReflexive(f.val);
    }
  }

  lemma SameField(fs: seq<Field<Value>>, f: Field<Value>, g: Field<Value>)
    requires UniqueKeys(fs) && f in fs && g in fs && f.key == g.key
    ensures f == g
  {
    GetMember(fs, f.key);
  }

  lemma PutKeptKeys(fs: seq<Field<Value>>, k: string, v: Value)
    requires Dropped(k) || Get(fs, k).Some?
    ensures KeptKeys(Put(fs, k, v)) == KeptKeys(fs)
  {
    PutMembers(fs, k, v);
    GetMember(fs, k);
    var gs := Put(fs, k, v);
    forall x | x in KeptKeys(gs) ensures x in KeptKeys(fs) {
      var f :| f in gs && f.key == x && !Dropped(x);
      if f !in fs { assert Field(k, Get(fs, k).value) in fs; }
    }
    forall x | x in KeptKeys(fs) ensures x in KeptKeys(gs) {
      var f :| f in fs && f.key == x && !Dropped(x);
      if x == k { assert Field(k, v) in gs; }
    }
  }

  /** Replacing a value by one that agrees with it never shows. */
  lemma PutAgreeing(fs: seq<Field<Value>>, k: string, v: Value)
    requires Valid(Doc(fs)) && Get(fs, k).Some? && Agrees(v, Get(fs, k).value)
    ensures Agrees(Doc(Put(fs, k, v)), Doc(fs))
  {
    PutMembers(fs, k, v);
    GetMember(fs, k);
    PutKeptKeys(fs, k, v);
    forall f, g | f in Put(fs, k, v) && g in fs && f.key == g.key && !Dropped(f.key) ensures Agrees(f.val, g.val) {
      if f.key != k {
        SameField(fs, f, g);
        AgreesReflexive(f.val);
      }
    }
  }

  // ----- the fields the running core writes -----

  datatype CoreWrite = Runtime(key: string, val: Value) | SequenceNumber(val: Value)

  /** Device identity and 4G attachment fields, or the sequence number inside `security`. */
  predicate IsCoreWrite(w: CoreWrite) {
    Valid(w.val) && (w.Runtime? ==> w.key in {"imeisv", "mme_host", "mm_realm", "purge_flag"})
  }

  /** The core keeps a sequence number only where it authenticated against `security`. */
  function CoreWritten(doc: Value, w: CoreWrite): Value {
    match w
    case Runtime(k, v) => if doc.Doc? then Doc(Put(doc.fields, k, v)) else doc
    case SequenceNumber(v) =>
      match Lookup(doc, "security")
      case Some(sec) => if sec.Doc? then Doc(Put(doc.fields, "security", Doc(Put(sec.fields, "sqn", v)))) else doc
      case None => doc
  }

  lemma CoreWriteAgrees(doc: Value, w: CoreWrite)
    requires Valid(doc) && IsCoreWrite(w)
    ensures Valid(CoreWritten(doc, w)) && Agrees(CoreWritten(doc, w), doc)
  {
    if CoreWritten(doc, w) == doc {
      AgreesReflexive(doc);
    } else if w.Runtime? {
      PutValid(doc.fields, w.key, w.val);
      PutDropped(doc.fields, w.key, w.val);
    } else {
      GetMember(doc.fields, "security");
      var sec := Get(doc.fields, "security").value;
      PutValid(sec.fields, "sqn", w.val);
      PutDropped(sec.fields, "sqn", w.val);
      PutValid(doc.fields, "security", Doc(Put(sec.fields, "sqn", w.val)));
      PutAgreeing(doc.fields, "security", Doc(Put(sec.fields, "sqn", w.val)));
    }
  }

  lemma CoreWriteLookup(doc: Value, w: CoreWrite, k: string)
    requires IsCoreWrite(w) && k !in {"imeisv", "mme_host", "mm_realm", "purge_flag", "security"}
    ensures Lookup(CoreWritten(doc, w), k) == Lookup(doc, k)
  {
    if doc.Doc? {
      if w.Runtime? { GetPut(doc.fields, w.key, w.val, k); }
      else if Lookup(doc, "security").Some? && Lookup(doc, "security").value.Doc? {
        GetPut(doc.fields, "security", Doc(Put(Lookup(doc, "security").value.fields, "sqn", w.val)), k);
      }
    }
  }

  // ----- documents of a collection -----

  predicate Sound(docs: seq<Value>) { forall d | d in docs :: d.Doc? && Valid(d) }

  predicate Wanted(e: Entry) {
    e.doc.Doc? && Valid(e.doc) && Valid(e.id) && HasImsi(e.doc, e.imsi) && !Marked(e.doc)
  }

  predicate Distinct(entries: seq<Entry>) {
    forall i, j | 0 <= i < j < |entries| :: entries[i].imsi != entries[j].imsi
  }

  predicate AllWanted(entries: seq<Entry>) { forall e | e in entries :: Wanted(e) }

  lemma WithIdFacts(doc: Value, id: Value, k: string)
    requires doc.Doc? && Valid(doc) && Valid(id) && k != "_id"
    ensures var w := WithId(doc, id);
      w.Doc? && Valid(w) && Agrees(w, doc) && Lookup(w, k) == Lookup(doc, k)
  {
    PutValid(doc.fields, "_id", id);
    PutDropped(doc.fields, "_id", id);
    GetPut(doc.fields, "_id", id, k);
  }

  /** A replacement is the new document under the old identifier. */
  lemma ReplacementFacts(v: Value, doc: Value, k: string)
    requires doc.Doc? && Valid(doc) && Valid(v) && k != "_id"
    ensures var w := Replacement(v, doc);
      w.Doc? && Valid(w) && Agrees(w, doc) && Lookup(w, k) == Lookup(doc, k)
  {
    AgreesReflexive(doc);
    if Lookup(v, "_id").Some? {
      GetMember(v.fields, "_id");
      WithIdFacts(doc, Lookup(v, "_id").value, k);
    }
  }

  lemma {:induction false} FindMember(docs: seq<Value>, imsi: string)
    ensures Find(docs, imsi).Some? ==> Find(docs, imsi).value in docs && HasImsi(Find(docs, imsi).value, imsi)
    ensures Find(docs, imsi).None? <==> forall d | d in docs :: !HasImsi(d, imsi)
  {
    if docs != [] {
      FindMember(docs[1..], imsi);
      assert docs == [docs[0]] + docs[1..];
    }
  }

  lemma {:induction false} FindAppend(docs: seq<Value>, d: Value, imsi: string)
    ensures Find(docs + [d], imsi) ==
      if Find(docs, imsi).Some? then Find(docs, imsi) else if HasImsi(d, imsi) then Some(d) else None
  {
    if docs == [] {
      assert docs + [d] == [d] && [d][1..] == [];
    } else {
      FindAppend(docs[1..], d, imsi);
      assert (docs + [d])[1..] == docs[1..] + [d];
    }
  }

  lemma {:induction false} FindReplace(docs: seq<Value>, imsi: string, doc: Value, s: string)
    requires Sound(docs) && doc.Doc? && Valid(doc) && HasImsi(doc, imsi)
    ensures Find(ReplaceFirst(docs, imsi, doc), s) ==
      if s == imsi && Find(docs, imsi).Some? then Some(Replacement(Find(docs, imsi).value, doc)) else Find(docs, s)
  {
    if docs != [] {
      if HasImsi(docs[0], imsi) {
        ReplacementFacts(docs[0], doc, "imsi");
        assert ([Replacement(docs[0], doc)] + docs[1..])[1..] == docs[1..];
      } else {
        FindReplace(docs[1..], imsi, doc, s);
        assert ([docs[0]] + ReplaceFirst(docs[1..], imsi, doc))[1..] == ReplaceFirst(docs[1..], imsi, doc);
      }
    }
  }

  /** Only the first document with the IMSI changes. */
  lemma {:induction false} ReplaceMembers(docs: seq<Value>, imsi: string, doc: Value)
    ensures |ReplaceFirst(docs, imsi, doc)| == |docs|
    ensures forall i | 0 <= i < |docs| && !HasImsi(docs[i], imsi) :: ReplaceFirst(docs, imsi, doc)[i] == docs[i]
    ensures forall i | 0 <= i < |docs| ::
      || ReplaceFirst(docs, imsi, doc)[i] == docs[i]
      || (Find(docs, imsi) == Some(docs[i]) && ReplaceFirst(docs, imsi, doc)[i] == Replacement(docs[i], doc))
  {
    if docs != [] && !HasImsi(docs[0], imsi) { ReplaceMembers(docs[1..], imsi, doc); }
  }

  lemma {:induction false} FindKeep(docs: seq<Value>, imsis: set<string>, imsi: string)
    ensures imsi in imsis ==> Find(Keep(docs, imsis), imsi) == Find(docs, imsi)
  {
    if docs != [] {
      FindKeep(docs[1..], imsis, imsi);
      if Marked(docs[0]) || Listed(imsis, docs[0]) {
        assert ([docs[0]] + Keep(docs[1..], imsis))[1..] == Keep(docs[1..], imsis);
      }
    }
  }

  lemma {:induction false} KeepMembers(docs: seq<Value>, imsis: set<string>)
    ensures forall d :: d in Keep(docs, imsis) <==> d in docs && (Marked(d) || Listed(imsis, d))
    ensures (forall d | d in docs :: Marked(d) || Listed(imsis, d)) ==> Keep(docs, imsis) == docs
  {
    if docs != [] {
      KeepMembers(docs[1..], imsis);
      assert docs == [docs[0]] + docs[1..];
    }
  }

  // ----- at most one document per IMSI -----

  ghost predicate OnePerImsi(docs: seq<Value>) {
    forall i, j, s | 0 <= i < j < |docs| :: !(HasImsi(docs[i], s) && HasImsi(docs[j], s))
  }

  lemma {:induction false} OneMeansFound(docs: seq<Value>, d: Value, imsi: string)
    requires OnePerImsi(docs) && d in docs && HasImsi(d, imsi)
    ensures Find(docs, imsi) == Some(d)
  {
    var i :| 0 <= i < |docs| && docs[i] == d;
    if i == 0 {
    } else {
      assert !HasImsi(docs[0], imsi);
      assert docs[1..][i - 1] == d;
      OneMeansFound(docs[1..], d, imsi);
    }
  }

  lemma {:induction false} KeepOnePerImsi(docs: seq<Value>, imsis: set<string>)
    requires OnePerImsi(docs)
    ensures OnePerImsi(Keep(docs, imsis))
  {
    if docs != [] {
      KeepOnePerImsi(docs[1..], imsis);
      var k := Keep(docs[1..], imsis);
      forall j, s | 0 <= j < |k| ensures !(HasImsi(docs[0], s) && HasImsi(k[j], s)) {
        assert k[j] in k;
        KeepMembers(docs[1..], imsis);
        var i :| 0 <= i < |docs[1..]| && docs[1..][i] == k[j];
        assert docs[i + 1] == k[j];
      }
    }
  }

  lemma SameImsis(docs: seq<Value>, after: seq<Value>)
    requires OnePerImsi(docs) && |after| == |docs|
    requires forall i | 0 <= i < |docs| :: Lookup(after[i], "imsi") == Lookup(docs[i], "imsi")
    ensures OnePerImsi(after)
  {
    forall i, j, s | 0 <= i < j < |after| ensures !(HasImsi(after[i], s) && HasImsi(after[j], s)) {
      assert HasImsi(after[i], s) <==> HasImsi(docs[i], s);
      assert HasImsi(after[j], s) <==> HasImsi(docs[j], s);
    }
  }

  lemma AppendOnePerImsi(docs: seq<Value>, d: Value, imsi: string)
    requires OnePerImsi(docs) && Find(docs, imsi).None? && HasImsi(d, imsi)
    ensures OnePerImsi(docs + [d])
  {
    FindMember(docs, imsi);
    forall i, s | 0 <= i < |docs| ensures !(HasImsi(docs[i], s) && HasImsi(d, s)) {
      assert docs[i] in docs;
    }
  }

  /** The inbound-roamer documents, in order. */
  function MarkedOnly(docs: seq<Value>): seq<Value> {
    if docs == [] then [] else (if Marked(docs[0]) then [docs[0]] else []) + MarkedOnly(docs[1..])
  }

  lemma {:induction false} MarkedOnlyAppend(docs: seq<Value>, more: seq<Value>)
    ensures MarkedOnly(docs + more) == MarkedOnly(docs) + MarkedOnly(more)
  {
    if docs == [] {
      assert docs + more == more;
    } else {
      MarkedOnlyAppend(docs[1..], more);
      assert (docs + more)[0] == docs[0] && (docs + more)[1..] == docs[1..] + more;
      var head := if Marked(docs[0]) then [docs[0]] else [];
      assert head + (MarkedOnly(docs[1..]) + MarkedOnly(more)) == (head + MarkedOnly(docs[1..])) + MarkedOnly(more);
    }
  }

  lemma {:induction false} MarkedOnlyReplace(docs: seq<Value>, imsi: string, doc: Value)
    requires Sound(docs) && doc.Doc? && Valid(doc) && !Marked(doc)
    requires Find(docs, imsi).Some? && !Marked(Find(docs, imsi).value)
    ensures MarkedOnly(ReplaceFirst(docs, imsi, doc)) == MarkedOnly(docs)
  {
    if HasImsi(docs[0], imsi) {
      ReplacementFacts(docs[0], doc, "resccom_inbound_roamer");
      assert ([Replacement(docs[0], doc)] + docs[1..])[1..] == docs[1..];
    } else {
      MarkedOnlyReplace(docs[1..], imsi, doc);
      assert ([docs[0]] + ReplaceFirst(docs[1..], imsi, doc))[1..] == ReplaceFirst(docs[1..], imsi, doc);
    }
  }

  lemma MarkedOnlyCons(d: Value, docs: seq<Value>)
    ensures MarkedOnly([d] + docs) == (if Marked(d) then [d] else []) + MarkedOnly(docs)
  {
    assert ([d] + docs)[1..] == docs;
  }

  lemma {:induction false} MarkedOnlyKeep(docs: seq<Value>, imsis: set<string>)
    ensures MarkedOnly(Keep(docs, imsis)) == MarkedOnly(docs)
  {
    if docs != [] {
      MarkedOnlyKeep(docs[1..], imsis);
      MarkedOnlyCons(docs[0], Keep(docs[1..], imsis));
      assert docs == [docs[0]] + docs[1..];
    }
  }

  // ----- one turn of the loop -----

  /** The store's subscriber is where it should be: at an up-to-date document, or under a roamer's. */
  predicate Settled(docs: seq<Value>, e: Entry) {
    match Find(docs, e.imsi)
    case None => false
    case Some(d) => Marked(d) || Agrees(d, e.doc)
  }

  /** A roamer's document holds the IMSI. */
  predicate Held(docs: seq<Value>, imsi: string) {
    Find(docs, imsi).Some? && Marked(Find(docs, imsi).value)
  }

  lemma StepSound(p: Progress, e: Entry)
    requires Sound(p.docs) && Wanted(e)
    ensures Sound(Step(p, e).docs) && MarkedOnly(Step(p, e).docs) == MarkedOnly(p.docs)
  {
    var q := Step(p, e);
    FindMember(p.docs, e.imsi);
    match Find(p.docs, e.imsi) {
      case None =>
        WithIdFacts(e.doc, e.id, "resccom_inbound_roamer");
        MarkedOnlyAppend(p.docs, [WithId(e.doc, e.id)]);
      case Some(existing) =>
        if q.docs != p.docs {
          MarkedOnlyReplace(p.docs, e.imsi, e.doc);
          ReplaceMembers(p.docs, e.imsi, e.doc);
          ReplacementFacts(existing, e.doc, "imsi");
          forall d | d in q.docs ensures d.Doc? && Valid(d) {
            var i :| 0 <= i < |q.docs| && q.docs[i] == d;
          }
        }
    }
  }

  lemma StepFind(p: Progress, e: Entry, s: string)
    requires Sound(p.docs) && Wanted(e)
    ensures s != e.imsi ==> Find(Step(p, e).docs, s) == Find(p.docs, s)
    ensures Held(Step(p, e).docs, s) == Held(p.docs, s)
    ensures Settled(Step(p, e).docs, e)
  {
    FindMember(p.docs, e.imsi);
    match Find(p.docs, e.imsi) {
      case None =>
        WithIdFacts(e.doc, e.id, "imsi");
        WithIdFacts(e.doc, e.id, "resccom_inbound_roamer");
        FindAppend(p.docs, WithId(e.doc, e.id), s);
        FindAppend(p.docs, WithId(e.doc, e.id), e.imsi);
      case Some(existing) =>
        CanonEqualIffAgrees(existing, e.doc);
        ReplacementFacts(existing, e.doc, "imsi");
        ReplacementFacts(existing, e.doc, "resccom_inbound_roamer");
        FindReplace(p.docs, e.imsi, e.doc, s);
        FindReplace(p.docs, e.imsi, e.doc, e.imsi);
    }
  }

  lemma StaysSettled(p: Progress, e: Entry, f: Entry)
    requires Sound(p.docs) && Wanted(e) && f.imsi != e.imsi && Settled(p.docs, f)
    ensures Settled(Step(p, e).docs, f)
  {
    StepFind(p, e, f.imsi);
  }

  lemma StepOnePerImsi(p: Progress, e: Entry)
    requires Sound(p.docs) && Wanted(e) && OnePerImsi(p.docs)
    ensures OnePerImsi(Step(p, e).docs)
  {
    var docs, after := p.docs, Step(p, e).docs;
    FindMember(docs, e.imsi);
    match Find(docs, e.imsi) {
      case None =>
        WithIdFacts(e.doc, e.id, "imsi");
        AppendOnePerImsi(docs, WithId(e.doc, e.id), e.imsi);
      case Some(existing) =>
        if after != docs {
          ReplaceMembers(docs, e.imsi, e.doc);
          ReplacementFacts(existing, e.doc, "imsi");
          SameImsis(docs, after);
        }
    }
  }

  // ----- the loop -----

  /** The entries a roamer's document shuts out. */
  function Skipped(docs: seq<Value>, entries: seq<Entry>): (n: nat)
    ensures n <= |entries|
  {
    if entries == [] then 0
    else Skipped(docs, entries[..|entries| - 1]) + if Held(docs, entries[|entries| - 1].imsi) then 1 else 0
  }

  lemma LoopPrefix(docs: seq<Value>, entries: seq<Entry>)
    requires entries != [] && AllWanted(entries)
    ensures AllWanted(entries[..|entries| - 1]) && Wanted(entries[|entries| - 1])
    ensures Distinct(entries) ==> Distinct(entries[..|entries| - 1])
  {
    assert forall e | e in entries[..|entries| - 1] :: e in entries;
  }

  lemma {:induction false} LoopSound(docs: seq<Value>, entries: seq<Entry>)
    requires Sound(docs) && AllWanted(entries)
    ensures Sound(Loop(docs, entries).docs) && MarkedOnly(Loop(docs, entries).docs) == MarkedOnly(docs)
    ensures OnePerImsi(docs) ==> OnePerImsi(Loop(docs, entries).docs)
  {
    if entries != [] {
      LoopPrefix(docs, entries);
      var n := |entries| - 1;
      LoopSound(docs, entries[..n]);
      StepSound(Loop(docs, entries[..n]), entries[n]);
      if OnePerImsi(docs) { StepOnePerImsi(Loop(docs, entries[..n]), entries[n]); }
    }
  }

  lemma {:induction false} LoopFind(docs: seq<Value>, entries: seq<Entry>, s: string)
    requires Sound(docs) && AllWanted(entries)
    ensures Held(Loop(docs, entries).docs, s) == Held(docs, s)
    ensures (forall e | e in entries :: e.imsi != s) ==> Find(Loop(docs, entries).docs, s) == Find(docs, s)
  {
    if entries != [] {
      LoopPrefix(docs, entries);
      var n := |entries| - 1;
      LoopSound(docs, entries[..n]);
      LoopFind(docs, entries[..n], s);
      StepFind(Loop(docs, entries[..n]), entries[n], s);
    }
  }

  lemma {:induction false} LoopSettles(docs: seq<Value>, entries: seq<Entry>, i: nat)
    requires Sound(docs) && AllWanted(entries) && Distinct(entries) && i < |entries|
    ensures Settled(Loop(docs, entries).docs, entries[i])
  {
    LoopPrefix(docs, entries);
    var n := |entries| - 1;
    var p := Loop(docs, entries[..n]);
    LoopSound(docs, entries[..n]);
    if i < n {
      LoopSettles(docs, entries[..n], i);
      assert entries[..n][i] == entries[i];
      StaysSettled(p, entries[n], entries[i]);
    } else {
      StepFind(p, entries[n], entries[n].imsi);
    }
  }

  lemma {:induction false} LoopCounts(docs: seq<Value>, entries: seq<Entry>)
    requires Sound(docs) && AllWanted(entries)
    ensures var p := Loop(docs, entries);
      && |p.docs| == |docs| + p.added
      && p.added + p.updated + p.untouched == |entries| - Skipped(docs, entries)
  {
    if entries != [] {
      LoopPrefix(docs, entries);
      var n := |entries| - 1;
      LoopCounts(docs, entries[..n]);
      LoopFind(docs, entries[..n], entries[n].imsi);
      ReplaceMembers(Loop(docs, entries[..n]).docs, entries[n].imsi, entries[n].doc);
    }
  }

  // ----- one run on any collection -----

  /** The collection mirrors the store, except where a roamer's document holds an IMSI. */
  ghost predicate InSync(docs: seq<Value>, entries: seq<Entry>) {
    && Sound(docs)
    && (forall e | e in entries :: Settled(docs, e))
    && forall d | d in docs :: Marked(d) || Listed(Imsis(entries), d)
  }

  /** Nothing is lost or counted twice, and no roamer's document is touched, whatever was there before. */
  lemma SyncAccounts(docs: seq<Value>, entries: seq<Entry>)
    requires Sound(docs) && AllWanted(entries)
    ensures var s := SummaryOf(docs, entries);
      && s.added + s.updated + s.untouched == |entries| - Skipped(docs, entries)
      && |Synced(docs, entries)| == |docs| + s.added - s.removed
    ensures MarkedOnly(Synced(docs, entries)) == MarkedOnly(docs)
    ensures forall d | d in Synced(docs, entries) :: Marked(d) || Listed(Imsis(entries), d)
    ensures OnePerImsi(docs) ==> OnePerImsi(Synced(docs, entries))
  {
    LoopSound(docs, entries);
    LoopCounts(docs, entries);
    var p := Loop(docs, entries);
    KeepShrinks(p.docs, Imsis(entries));
    MarkedOnlyKeep(p.docs, Imsis(entries));
    KeepMembers(p.docs, Imsis(entries));
    if OnePerImsi(docs) { KeepOnePerImsi(p.docs, Imsis(entries)); }
  }

  // ----- what becomes of each subscriber -----

  /** How a subscriber stands to the collection a sync finds. */
  datatype Standing = Missing | Different | Agreeing | HeldByRoamer

  predicate StandsAs(docs: seq<Value>, e: Entry, standing: Standing) {
    match standing
    case Missing => Find(docs, e.imsi).None?
    case HeldByRoamer => Find(docs, e.imsi).Some? && Marked(Find(docs, e.imsi).value)
    case Agreeing =>
      var d := Find(docs, e.imsi);
      d.Some? && !Marked(d.value) && Agrees(d.value, e.doc)
    case Different =>
      var d := Find(docs, e.imsi);
      d.Some? && !Marked(d.value) && !Agrees(d.value, e.doc)
  }

  function HowMany(docs: seq<Value>, entries: seq<Entry>, standing: Standing): nat {
    if entries == [] then 0 else
    var n := |entries| - 1;
    HowMany(docs, entries[..n], standing) + if StandsAs(docs, entries[n], standing) then 1 else 0
  }

  /** `d` has the fields of `doc`, and this identifier. */
  ghost predicate LooksLike(d: Value, doc: Value, id: Option<Value>) {
    d.Doc? && Lookup(d, "_id") == id && forall k | k != "_id" :: Lookup(d, k) == Lookup(doc, k)
  }

  lemma WithIdLooks(doc: Value, id: Value)
    requires doc.Doc?
    ensures LooksLike(WithId(doc, id), doc, Some(id))
  {
    GetPut(doc.fields, "_id", id, "_id");
    forall k | k != "_id" ensures Lookup(WithId(doc, id), k) == Lookup(doc, k) {
      GetPut(doc.fields, "_id", id, k);
    }
  }

  lemma ReplacementLooks(v: Value, doc: Value)
    requires doc.Doc? && Lookup(doc, "_id") == None
    ensures LooksLike(Replacement(v, doc), doc, Lookup(v, "_id"))
  {
    if Lookup(v, "_id").Some? { WithIdLooks(doc, Lookup(v, "_id").value); }
  }

  /** A sync writes a missing subscriber's document under a new identifier, replaces a differing one under its own,
      and leaves any other the very same. */
  ghost predicate Becomes(before: Option<Value>, e: Entry, after: Option<Value>, standing: Standing) {
    match standing
    case Missing => after.Some? && LooksLike(after.value, e.doc, Some(e.id))
    case Different => before.Some? && after.Some? && LooksLike(after.value, e.doc, Lookup(before.value, "_id"))
    case _ => after == before
  }

  lemma StepBecomes(p: Progress, e: Entry, standing: Standing)
    requires Sound(p.docs) && Wanted(e) && Lookup(e.doc, "_id") == None && StandsAs(p.docs, e, standing)
    ensures Becomes(Find(p.docs, e.imsi), e, Find(Step(p, e).docs, e.imsi), standing)
    ensures var q := Step(p, e);
      && q.added == p.added + (if standing.Missing? then 1 else 0)
      && q.updated == p.updated + (if standing.Different? then 1 else 0)
      && q.untouched == p.untouched + (if standing.Agreeing? then 1 else 0)
  {
    FindMember(p.docs, e.imsi);
    match Find(p.docs, e.imsi) {
      case None =>
        WithIdFacts(e.doc, e.id, "imsi");
        WithIdLooks(e.doc, e.id);
        FindAppend(p.docs, WithId(e.doc, e.id), e.imsi);
      case Some(existing) =>
        CanonEqualIffAgrees(existing, e.doc);
        ReplacementFacts(existing, e.doc, "imsi");
        ReplacementLooks(existing, e.doc);
        FindReplace(p.docs, e.imsi, e.doc, e.imsi);
    }
  }

  predicate NoneHasId(entries: seq<Entry>) { forall e | e in entries :: Lookup(e.doc, "_id") == None }

  lemma StandsStill(docs: seq<Value>, after: seq<Value>, e: Entry)
    requires Find(after, e.imsi) == Find(docs, e.imsi)
    ensures forall standing :: StandsAs(after, e, standing) <==> StandsAs(docs, e, standing)
  {
  }

  lemma {:induction false} LoopTells(docs: seq<Value>, entries: seq<Entry>)
    requires Sound(docs) && AllWanted(entries) && Distinct(entries) && NoneHasId(entries)
    ensures var p := Loop(docs, entries);
      && p.added == HowMany(docs, entries, Missing) && p.updated == HowMany(docs, entries, Different)
      && p.untouched == HowMany(docs, entries, Agreeing)
  {
    if entries != [] {
      var n := |entries| - 1;
      LoopPrefix(docs, entries);
      LoopTells(docs, entries[..n]);
      LoopSound(docs, entries[..n]);
      LastUnseen(entries);
      assert entries[n] in entries;
      LoopFind(docs, entries[..n], entries[n].imsi);
      StandsStill(docs, Loop(docs, entries[..n]).docs, entries[n]);
      var standing := StandingOf(docs, entries[n]);
      StepBecomes(Loop(docs, entries[..n]), entries[n], standing);
    }
  }

  function StandingOf(docs: seq<Value>, e: Entry): (standing: Standing)
    ensures StandsAs(docs, e, standing)
  {
    match Find(docs, e.imsi)
    case None => Missing
    case Some(d) => if Marked(d) then HeldByRoamer else if Agrees(d, e.doc) then Agreeing else Different
  }

  lemma LastUnseen(entries: seq<Entry>)
    requires entries != [] && Distinct(entries)
    ensures forall e | e in entries[..|entries| - 1] :: e.imsi != entries[|entries| - 1].imsi
  {
  }

  lemma {:induction false} LoopBecomes(docs: seq<Value>, entries: seq<Entry>, i: nat, standing: Standing)
    requires Sound(docs) && AllWanted(entries) && Distinct(entries) && NoneHasId(entries) && i < |entries|
    requires StandsAs(docs, entries[i], standing)
    ensures Becomes(Find(docs, entries[i].imsi), entries[i], Find(Loop(docs, entries).docs, entries[i].imsi), standing)
  {
    var n := |entries| - 1;
    var front := entries[..n];
    LoopPrefix(docs, entries);
    LoopSound(docs, front);
    if i < n {
      LoopBecomes(docs, front, i, standing);
      StepFind(Loop(docs, front), entries[n], entries[i].imsi);
    } else {
      LastUnseen(entries);
      assert entries[n] in entries;
      LoopFind(docs, front, entries[n].imsi);
      StandsStill(docs, Loop(docs, front).docs, entries[n]);
      StepBecomes(Loop(docs, front), entries[n], standing);
    }
  }

  /** What a sync does to each stored subscriber's document, and that it counts exactly those. */
  lemma SyncTells(docs: seq<Value>, entries: seq<Entry>, i: nat, standing: Standing)
    requires Sound(docs) && AllWanted(entries) && Distinct(entries) && NoneHasId(entries) && i < |entries|
    requires StandsAs(docs, entries[i], standing)
    ensures Becomes(Find(docs, entries[i].imsi), entries[i], Find(Synced(docs, entries), entries[i].imsi), standing)
    ensures var t := SummaryOf(docs, entries);
      && t.added == HowMany(docs, entries, Missing) && t.updated == HowMany(docs, entries, Different)
      && t.untouched == HowMany(docs, entries, Agreeing)
  {
    LoopTells(docs, entries);
    LoopBecomes(docs, entries, i, standing);
    assert entries[i] in entries;
    FindKeep(Loop(docs, entries).docs, Imsis(entries), entries[i].imsi);
  }

  /** Every stored subscriber ends at a document that agrees with the store, or under a roamer's. */
  lemma SyncSettles(docs: seq<Value>, entries: seq<Entry>)
    requires Sound(docs) && AllWanted(entries) && Distinct(entries)
    ensures InSync(Synced(docs, entries), entries)
  {
    SyncAccounts(docs, entries);
    LoopSound(docs, entries);
    var p := Loop(docs, entries);
    KeepMembers(p.docs, Imsis(entries));
    forall e | e in entries ensures Settled(Synced(docs, entries), e) {
      var i :| 0 <= i < |entries| && entries[i] == e;
      LoopSettles(docs, entries, i);
      FindKeep(p.docs, Imsis(entries), e.imsi);
    }
  }

  /** In a mirrored collection with one document per IMSI the unmarked documents are exactly the stored
      subscribers that no roamer holds, and each agrees with the store. */
  lemma MirrorsStore(docs: seq<Value>, entries: seq<Entry>, d: Value)
    requires InSync(docs, entries) && OnePerImsi(docs) && d in docs && !Marked(d)
    ensures exists e | e in entries :: HasImsi(d, e.imsi) && Agrees(d, e.doc) && !Held(docs, e.imsi)
  {
    var e :| e in entries && HasImsi(d, e.imsi);
    OneMeansFound(docs, d, e.imsi);
    assert Settled(docs, e);
  }

  // ----- the runs after it -----

  /** The same store, listed again: fresh identifiers, the same subscribers. */
  predicate Relisted(entries: seq<Entry>, again: seq<Entry>) {
    |entries| == |again| && forall i | 0 <= i < |entries| ::
      entries[i].imsi == again[i].imsi && Agrees(entries[i].doc, again[i].doc)
  }

  lemma RelistedSettled(docs: seq<Value>, entries: seq<Entry>, again: seq<Entry>)
    requires InSync(docs, entries) && AllWanted(entries) && AllWanted(again) && Relisted(entries, again)
    ensures InSync(docs, again)
  {
    forall e | e in again ensures Settled(docs, e) {
      var i :| 0 <= i < |again| && again[i] == e;
      assert entries[i] in entries && Settled(docs, entries[i]);
      FindMember(docs, e.imsi);
      var d := Find(docs, e.imsi).value;
      if !Marked(d) {
        AgreesTransitive(d, entries[i].doc, e.doc);
      }
    }
    forall d | d in docs ensures Marked(d) || Listed(Imsis(again), d) {
      if !Marked(d) {
        var e :| e in entries && HasImsi(d, e.imsi);
        var i :| 0 <= i < |entries| && entries[i] == e;
        assert again[i] in again;
      }
    }
  }

  lemma {:induction false} QuietLoop(docs: seq<Value>, entries: seq<Entry>)
    requires Sound(docs) && AllWanted(entries) && forall e | e in entries :: Settled(docs, e)
    ensures Loop(docs, entries) == Progress(docs, 0, 0, |entries| - Skipped(docs, entries))
  {
    if entries != [] {
      LoopPrefix(docs, entries);
      var n := |entries| - 1;
      assert forall e | e in entries[..n] :: e in entries;
      QuietLoop(docs, entries[..n]);
      var e := entries[n];
      assert e in entries;
      FindMember(docs, e.imsi);
      CanonEqualIffAgrees(Find(docs, e.imsi).value, e.doc);
    }
  }

  /** A sync of a mirrored collection writes nothing. */
  lemma QuietSync(docs: seq<Value>, entries: seq<Entry>)
    requires InSync(docs, entries) && AllWanted(entries)
    ensures Synced(docs, entries) == docs
    ensures SummaryOf(docs, entries) == Summary(0, 0, |entries| - Skipped(docs, entries), 0)
  {
    QuietLoop(docs, entries);
    KeepMembers(docs, Imsis(entries));
  }

  /** The core's write to the first document with the IMSI. */
  function Touched(docs: seq<Value>, imsi: string, w: CoreWrite): seq<Value> {
    if docs == [] then []
    else if HasImsi(docs[0], imsi) then [CoreWritten(docs[0], w)] + docs[1..]
    else [docs[0]] + Touched(docs[1..], imsi, w)
  }

  lemma {:induction false} TouchedMembers(docs: seq<Value>, imsi: string, w: CoreWrite)
    ensures |Touched(docs, imsi, w)| == |docs|
    ensures forall i | 0 <= i < |docs| ::
              Touched(docs, imsi, w)[i] == docs[i] || Touched(docs, imsi, w)[i] == CoreWritten(docs[i], w)
  {
    if docs != [] && !HasImsi(docs[0], imsi) { TouchedMembers(docs[1..], imsi, w); }
  }

  lemma {:induction false} TouchedFind(docs: seq<Value>, imsi: string, w: CoreWrite, s: string)
    requires IsCoreWrite(w)
    ensures Find(docs, s).None? ==> Find(Touched(docs, imsi, w), s).None?
    ensures Find(docs, s).Some? ==> Find(Touched(docs, imsi, w), s).Some? && (var d := Find(docs, s).value;
      Find(Touched(docs, imsi, w), s).value == d || Find(Touched(docs, imsi, w), s).value == CoreWritten(d, w))
  {
    if docs != [] {
      CoreWriteLookup(docs[0], w, "imsi");
      if HasImsi(docs[0], imsi) {
        assert ([CoreWritten(docs[0], w)] + docs[1..])[1..] == docs[1..];
      } else {
        TouchedFind(docs[1..], imsi, w, s);
        assert ([docs[0]] + Touched(docs[1..], imsi, w))[1..] == Touched(docs[1..], imsi, w);
      }
    }
  }

  lemma TouchedOnePerImsi(docs: seq<Value>, imsi: string, w: CoreWrite)
    requires OnePerImsi(docs) && IsCoreWrite(w)
    ensures OnePerImsi(Touched(docs, imsi, w))
  {
    var after := Touched(docs, imsi, w);
    TouchedMembers(docs, imsi, w);
    forall i | 0 <= i < |docs| ensures Lookup(after[i], "imsi") == Lookup(docs[i], "imsi") {
      CoreWriteLookup(docs[i], w, "imsi");
    }
    SameImsis(docs, after);
  }

  lemma TouchedSound(docs: seq<Value>, imsi: string, w: CoreWrite)
    requires Sound(docs) && IsCoreWrite(w)
    ensures Sound(Touched(docs, imsi, w))
  {
    TouchedMembers(docs, imsi, w);
    forall d | d in Touched(docs, imsi, w) ensures d.Doc? && Valid(d) {
      var i :| 0 <= i < |docs| && Touched(docs, imsi, w)[i] == d;
      assert docs[i] in docs;
      CoreWriteAgrees(docs[i], w);
    }
  }

  lemma TouchedInSync(docs: seq<Value>, entries: seq<Entry>, imsi: string, w: CoreWrite)
    requires InSync(docs, entries) && AllWanted(entries) && IsCoreWrite(w)
    ensures InSync(Touched(docs, imsi, w), entries)
  {
    var after := Touched(docs, imsi, w);
    TouchedSound(docs, imsi, w);
    forall e | e in entries ensures Settled(after, e) {
      TouchedFind(docs, imsi, w, e.imsi);
      FindMember(docs, e.imsi);
      var d := Find(docs, e.imsi).value;
      CoreWriteLookup(d, w, "resccom_inbound_roamer");
      if !Marked(d) {
        CoreWriteAgrees(d, w);
        AgreesTransitive(CoreWritten(d, w), d, e.doc);
      }
    }
    TouchedMembers(docs, imsi, w);
    forall d | d in after ensures Marked(d) || Listed(Imsis(entries), d) {
      var i :| 0 <= i < |docs| && after[i] == d;
      CoreWriteLookup(docs[i], w, "imsi");
      CoreWriteLookup(docs[i], w, "resccom_inbound_roamer");
      assert docs[i] in docs;
      if !Marked(d) {
        var e :| e in entries && HasImsi(docs[i], e.imsi);
        assert HasImsi(d, e.imsi);
      }
    }
  }
}

/** What an import may touch, and what travels between two islands. */
module RoamingLaws {
  import opened Results
  import opened Json
  import opened Canonical
  import opened Subscribers
  import opened Collections
  import opened SyncLaws
  import opened Roaming

  // ----- what an inbound document holds -----

  lemma InboundFieldsFacts(imsi: string, plmn: Value, slice: Value)
    requires Valid(plmn) && Valid(slice)
    ensures var fs := InboundFields(imsi, plmn, slice);
      && Valid(Doc(fs)) && Get(fs, "imsi") == Some(Text(imsi)) && Get(fs, "slice") == Some(slice)
      && Get(fs, "resccom_inbound_roamer") == Some(Flag(true)) && Get(fs, "home_plmn") == Some(plmn)
  {
    var fs := InboundFields(imsi, plmn, slice);
    InboundFieldsUnique(imsi, plmn, slice);
    SimpleValid(1, imsi, true);
    SimpleValid(32, imsi, true);
    SimpleValid(0, imsi, true);
    SimpleValid(12, imsi, true);
    assert fs[0].val == Int32(1) && fs[5].val == Number(32) && fs[9].val == Number(12);
    forall i | 0 <= i < |fs| ensures Valid(fs[i].val) {
    }
    ValidDoc(fs);
    GetAt(fs, 1);
    GetAt(fs, 2);
    GetAt(fs, 3);
    GetAt(fs, 4);
  }

  lemma InboundFieldsUnique(imsi: string, plmn: Value, slice: Value)
    ensures UniqueKeys(InboundFields(imsi, plmn, slice))
  {
  }

  lemma InboundFieldsAbsent(imsi: string, plmn: Value, slice: Value)
    ensures Get(InboundFields(imsi, plmn, slice), "security") == None
  {
    var fs := InboundFields(imsi, plmn, slice);
    forall i | 0 <= i < |fs| ensures fs[i].key != "security" {}
    GetNone(fs, "security");
  }

  predicate Welcome(rec: Inbound) {
    && rec.doc.Doc? && Valid(rec.doc) && Valid(rec.id) && HasImsi(rec.doc, rec.imsi) && Marked(rec.doc)
    && Lookup(rec.doc, "security") == None
  }

  lemma PlmnValid(p: Plmn)
    ensures Valid(PlmnValue(p))
  {
    var fs := PlmnValue(p).fields;
    assert fs[0].key != fs[1].key;
    assert Valid(fs[0].val) && Valid(fs[1].val);
    ValidDoc(fs);
  }

  lemma InboundWelcome(r: PolicyRecord, home: Plmn, ids: Ids)
    ensures Welcome(InboundOf(r, home, ids))
    ensures Lookup(InboundDoc(r, home, ids), "slice") == Some(Slices(r.lboRoamingAllowed, ids))
    ensures Lookup(InboundDoc(r, home, ids), "home_plmn") == Some(PlmnValue(home))
  {
    PlmnValid(home);
    assert Valid(ObjectId(ids.top));
    SliceValid(r.lboRoamingAllowed, ids);
    InboundFieldsFacts(r.imsi, PlmnValue(home), Slices(r.lboRoamingAllowed, ids));
    InboundFieldsAbsent(r.imsi, PlmnValue(home), Slices(r.lboRoamingAllowed, ids));
  }

  predicate AllWelcome(recs: seq<Inbound>) { forall rec | rec in recs :: Welcome(rec) }

  lemma InboundsWelcome(rs: seq<PolicyRecord>, home: Plmn, ids: seq<Ids>)
    ensures AllWelcome(InboundsOf(rs, home, ids))
  {
    var recs := InboundsOf(rs, home, ids);
    forall rec | rec in recs ensures Welcome(rec) {
      var i :| 0 <= i < |recs| && recs[i] == rec;
      InboundWelcome(rs[i], home, IdAt(ids, i));
    }
  }

  // ----- the collection under an import -----

  /** The island's own documents, in order. */
  function UnmarkedOnly(docs: seq<Value>): seq<Value> {
    if docs == [] then [] else (if Marked(docs[0]) then [] else [docs[0]]) + UnmarkedOnly(docs[1..])
  }

  predicate NoSecrets(docs: seq<Value>) { forall d | d in docs && Marked(d) :: Lookup(d, "security") == None }

  lemma {:induction false} UnmarkedOnlyAppend(docs: seq<Value>, d: Value)
    requires Marked(d)
    ensures UnmarkedOnly(docs + [d]) == UnmarkedOnly(docs)
  {
    if docs == [] {
      assert docs + [d] == [d] && [d][1..] == [];
    } else {
      UnmarkedOnlyAppend(docs[1..], d);
      assert (docs + [d])[1..] == docs[1..] + [d];
    }
  }

  lemma {:induction false} UnmarkedOnlyReplace(docs: seq<Value>, rec: Inbound)
    requires Sound(docs) && Welcome(rec) && Held(docs, rec.imsi)
    ensures UnmarkedOnly(ReplaceFirst(docs, rec.imsi, rec.doc)) == UnmarkedOnly(docs)
  {
    if HasImsi(docs[0], rec.imsi) {
      ReplacementFacts(docs[0], rec.doc, "resccom_inbound_roamer");
      assert ([Replacement(docs[0], rec.doc)] + docs[1..])[1..] == docs[1..];
    } else {
      UnmarkedOnlyReplace(docs[1..], rec);
      var r := ReplaceFirst(docs[1..], rec.imsi, rec.doc);
      assert ([docs[0]] + r)[1..] == r;
    }
  }

  lemma RefreshKeeps(docs: seq<Value>, rec: Inbound, existing: Value)
    requires Sound(docs) && Welcome(rec) && Find(docs, rec.imsi) == Some(existing) && Marked(existing)
    ensures Sound(ReplaceFirst(docs, rec.imsi, rec.doc))
    ensures UnmarkedOnly(ReplaceFirst(docs, rec.imsi, rec.doc)) == UnmarkedOnly(docs)
    ensures NoSecrets(docs) ==> NoSecrets(ReplaceFirst(docs, rec.imsi, rec.doc))
    ensures OnePerImsi(docs) ==> OnePerImsi(ReplaceFirst(docs, rec.imsi, rec.doc))
  {
    FindMember(docs, rec.imsi);
    UnmarkedOnlyReplace(docs, rec);
    ReplacementFacts(existing, rec.doc, "imsi");
    ReplacementFacts(existing, rec.doc, "security");
    ReplaceMembers(docs, rec.imsi, rec.doc);
    var after := ReplaceFirst(docs, rec.imsi, rec.doc);
    forall d | d in after ensures d in docs || d == Replacement(existing, rec.doc) {
      var i :| 0 <= i < |after| && after[i] == d;
      assert docs[i] in docs;
    }
    if OnePerImsi(docs) { SameImsis(docs, after); }
  }

  lemma ImportStepKeeps(t: Tally, rec: Inbound)
    requires Sound(t.docs) && Welcome(rec)
    ensures var u := ImportStep(t, rec); Sound(u.docs) && UnmarkedOnly(u.docs) == UnmarkedOnly(t.docs)
    ensures NoSecrets(t.docs) ==> NoSecrets(ImportStep(t, rec).docs)
    ensures OnePerImsi(t.docs) ==> OnePerImsi(ImportStep(t, rec).docs)
  {
    var docs := t.docs;
    FindMember(docs, rec.imsi);
    match Find(docs, rec.imsi) {
      case None =>
        var d := WithId(rec.doc, rec.id);
        WithIdFacts(rec.doc, rec.id, "imsi");
        WithIdFacts(rec.doc, rec.id, "resccom_inbound_roamer");
        WithIdFacts(rec.doc, rec.id, "security");
        UnmarkedOnlyAppend(docs, d);
        if OnePerImsi(docs) { AppendOnePerImsi(docs, d, rec.imsi); }
      case Some(existing) =>
        if Marked(existing) {
          RefreshKeeps(docs, rec, existing);
        }
    }
  }

  lemma {:induction false} ImportLoopKeeps(docs: seq<Value>, recs: seq<Inbound>)
    requires Sound(docs) && AllWelcome(recs)
    ensures var t := ImportLoop(docs, recs); Sound(t.docs) && UnmarkedOnly(t.docs) == UnmarkedOnly(docs)
    ensures NoSecrets(docs) ==> NoSecrets(ImportLoop(docs, recs).docs)
    ensures OnePerImsi(docs) ==> OnePerImsi(ImportLoop(docs, recs).docs)
  {
    if recs != [] {
      var n := |recs| - 1;
      assert recs[n] in recs && forall rec | rec in recs[..n] :: rec in recs;
      ImportLoopKeeps(docs, recs[..n]);
      ImportStepKeeps(ImportLoop(docs, recs[..n]), recs[n]);
    }
  }

  /** Whatever the file holds, an import leaves the island's own documents as they are, in order, adds no
      second document for an IMSI, and brings no credential. */
  lemma ImportTouchesRoamersOnly(docs: seq<Value>, rs: seq<PolicyRecord>, home: Plmn, ids: seq<Ids>)
    requires Sound(docs)
    ensures var after := DocsAfterImport(docs, rs, home, ids);
      && Sound(after) && UnmarkedOnly(after) == UnmarkedOnly(docs)
      && (NoSecrets(docs) ==> NoSecrets(after)) && (OnePerImsi(docs) ==> OnePerImsi(after))
  {
    InboundsWelcome(rs, home, ids);
    ImportLoopKeeps(docs, InboundsOf(rs, home, ids));
  }

  lemma {:induction false} DropRoamerKeeps(docs: seq<Value>, imsi: string)
    ensures UnmarkedOnly(DropRoamer(docs, imsi)) == UnmarkedOnly(docs)
    ensures forall d | d in DropRoamer(docs, imsi) :: d in docs
    ensures OnePerImsi(docs) ==> OnePerImsi(DropRoamer(docs, imsi))
  {
    if docs != [] {
      assert docs == [docs[0]] + docs[1..];
      if !(HasImsi(docs[0], imsi) && Marked(docs[0])) {
        DropRoamerKeeps(docs[1..], imsi);
        var k := DropRoamer(docs[1..], imsi);
        assert ([docs[0]] + k)[1..] == k;
        if OnePerImsi(docs) {
          forall j, s | 0 <= j < |k| ensures !(HasImsi(docs[0], s) && HasImsi(k[j], s)) {
            assert k[j] in k;
            var i :| 0 <= i < |docs[1..]| && docs[1..][i] == k[j];
            assert docs[i + 1] == k[j];
          }
        }
      }
    }
  }

  // ----- what an import puts where -----

  /** A genuine local subscriber is in the way. */
  predicate LocalConflict(docs: seq<Value>, imsi: string) {
    Find(docs, imsi).Some? && !Marked(Find(docs, imsi).value)
  }

  /** The record's document is there, field by field, under whatever identifier. */
  ghost predicate Placed(docs: seq<Value>, rec: Inbound) {
    match Find(docs, rec.imsi)
    case None => false
    case Some(d) => Marked(d) && forall k | k != "_id" :: Lookup(d, k) == Lookup(rec.doc, k)
  }

  lemma AnyIdSame(doc: Value, id: Value)
    requires doc.Doc? && Valid(doc) && Valid(id)
    ensures forall k | k != "_id" :: Lookup(WithId(doc, id), k) == Lookup(doc, k)
  {
    forall k | k != "_id" ensures Lookup(WithId(doc, id), k) == Lookup(doc, k) {
      WithIdFacts(doc, id, k);
    }
  }

  lemma ReplacedSame(v: Value, doc: Value)
    requires doc.Doc? && Valid(doc) && Valid(v)
    ensures forall k | k != "_id" :: Lookup(Replacement(v, doc), k) == Lookup(doc, k)
  {
    forall k | k != "_id" ensures Lookup(Replacement(v, doc), k) == Lookup(doc, k) {
      ReplacementFacts(v, doc, k);
    }
  }

  lemma InsertPlaces(t: Tally, rec: Inbound)
    requires Sound(t.docs) && Welcome(rec) && Find(t.docs, rec.imsi).None?
    ensures Placed(t.docs + [WithId(rec.doc, rec.id)], rec)
  {
    AnyIdSame(rec.doc, rec.id);
    WithIdFacts(rec.doc, rec.id, "imsi");
    FindAppend(t.docs, WithId(rec.doc, rec.id), rec.imsi);
  }

  lemma InsertElsewhere(t: Tally, rec: Inbound, s: string)
    requires Sound(t.docs) && Welcome(rec) && Find(t.docs, rec.imsi).None? && s != rec.imsi
    ensures Find(t.docs + [WithId(rec.doc, rec.id)], s) == Find(t.docs, s)
  {
    WithIdFacts(rec.doc, rec.id, "imsi");
    FindAppend(t.docs, WithId(rec.doc, rec.id), s);
  }

  lemma ReplacePlaces(t: Tally, rec: Inbound)
    requires Sound(t.docs) && Welcome(rec) && Find(t.docs, rec.imsi).Some?
    ensures Placed(ReplaceFirst(t.docs, rec.imsi, rec.doc), rec)
  {
    var existing := Find(t.docs, rec.imsi).value;
    FindMember(t.docs, rec.imsi);
    ReplacedSame(existing, rec.doc);
    FindReplace(t.docs, rec.imsi, rec.doc, rec.imsi);
    ReplacementFacts(existing, rec.doc, "resccom_inbound_roamer");
    PlacedBy(ReplaceFirst(t.docs, rec.imsi, rec.doc), rec, Replacement(existing, rec.doc));
  }

  lemma PlacedBy(docs: seq<Value>, rec: Inbound, d: Value)
    requires Find(docs, rec.imsi) == Some(d) && Marked(d) && forall k | k != "_id" :: Lookup(d, k) == Lookup(rec.doc, k)
    ensures Placed(docs, rec)
  {
  }

  lemma PlacedParts(docs: seq<Value>, rec: Inbound)
    requires Placed(docs, rec)
    ensures Find(docs, rec.imsi).Some? && Marked(Find(docs, rec.imsi).value)
    ensures Lookup(Find(docs, rec.imsi).value, "slice") == Lookup(rec.doc, "slice")
    ensures Lookup(Find(docs, rec.imsi).value, "home_plmn") == Lookup(rec.doc, "home_plmn")
  {
  }

  lemma ImportStepFind(t: Tally, rec: Inbound, s: string)
    requires Sound(t.docs) && Welcome(rec)
    ensures s != rec.imsi ==> Find(ImportStep(t, rec).docs, s) == Find(t.docs, s)
    ensures LocalConflict(t.docs, rec.imsi) ==> ImportStep(t, rec).docs == t.docs
    ensures !LocalConflict(t.docs, rec.imsi) ==> Placed(ImportStep(t, rec).docs, rec)
    ensures LocalConflict(ImportStep(t, rec).docs, s) == LocalConflict(t.docs, s)
  {
    if Find(t.docs, rec.imsi).None? {
      InsertPlaces(t, rec);
      if s != rec.imsi { InsertElsewhere(t, rec, s); }
    } else if Marked(Find(t.docs, rec.imsi).value) {
      ReplacePlaces(t, rec);
      FindReplace(t.docs, rec.imsi, rec.doc, s);
    }
    if !LocalConflict(t.docs, rec.imsi) { PlacedParts(ImportStep(t, rec).docs, rec); }
  }

  /** The roamer's document at the visited island carries this policy of this home, and its slice is the one
      the home island's own document has, up to generated identifiers. */
  predicate Carries(docs: seq<Value>, r: PolicyRecord, home: Plmn) {
    match Find(docs, r.imsi)
    case None => false
    case Some(d) =>
      && Marked(d)
      && Lookup(d, "home_plmn") == Some(PlmnValue(home))
      && Lookup(d, "slice").Some?
      && Agrees(Lookup(d, "slice").value, Slices(r.lboRoamingAllowed, Ids("", "", "")))
  }

  lemma PlacedCarries(docs: seq<Value>, r: PolicyRecord, home: Plmn, ids: Ids)
    requires Placed(docs, InboundOf(r, home, ids))
    ensures Carries(docs, r, home)
  {
    PlacedParts(docs, InboundOf(r, home, ids));
    InboundWelcome(r, home, ids);
    SlicesAgree(r.lboRoamingAllowed, r.lboRoamingAllowed, ids, Ids("", "", ""));
  }

  /** Two records for one IMSI say the same, as they do in any export. */
  predicate Consistent(rs: seq<PolicyRecord>) {
    forall i, j | 0 <= i < j < |rs| && rs[i].imsi == rs[j].imsi :: rs[i] == rs[j]
  }

  function ConflictsAmong(docs: seq<Value>, recs: seq<Inbound>): (r: seq<string>)
    ensures |r| <= |recs|
  {
    if recs == [] then [] else
    ConflictsAmong(docs, recs[..|recs| - 1])
      + if LocalConflict(docs, recs[|recs| - 1].imsi) then [recs[|recs| - 1].imsi] else []
  }

  lemma WelcomePrefix(recs: seq<Inbound>)
    requires AllWelcome(recs) && recs != []
    ensures AllWelcome(recs[..|recs| - 1]) && Welcome(recs[|recs| - 1])
  {
    assert forall rec | rec in recs[..|recs| - 1] :: rec in recs;
  }

  lemma {:induction false} ImportConflicts(docs: seq<Value>, recs: seq<Inbound>, s: string)
    requires Sound(docs) && AllWelcome(recs)
    ensures LocalConflict(ImportLoop(docs, recs).docs, s) == LocalConflict(docs, s)
  {
    if recs != [] {
      var n := |recs| - 1;
      WelcomePrefix(recs);
      ImportLoopKeeps(docs, recs[..n]);
      ImportConflicts(docs, recs[..n], s);
      ImportStepFind(ImportLoop(docs, recs[..n]), recs[n], s);
    }
  }

  /** The loop reports exactly the records that local subscribers stand in the way of, and writes the rest. */
  lemma {:induction false} ImportCounts(docs: seq<Value>, recs: seq<Inbound>)
    requires Sound(docs) && AllWelcome(recs)
    ensures var t := ImportLoop(docs, recs);
      t.conflicts == ConflictsAmong(docs, recs) && t.imported == |recs| - |t.conflicts|
  {
    if recs != [] {
      WelcomePrefix(recs);
      ImportCounts(docs, recs[..|recs| - 1]);
      ImportConflicts(docs, recs[..|recs| - 1], recs[|recs| - 1].imsi);
    }
  }

  lemma {:induction false} ImportLeaves(docs: seq<Value>, recs: seq<Inbound>, imsi: string)
    requires Sound(docs) && AllWelcome(recs)
    requires LocalConflict(docs, imsi) || forall i | 0 <= i < |recs| :: recs[i].imsi != imsi
    ensures Find(ImportLoop(docs, recs).docs, imsi) == Find(docs, imsi)
  {
    if recs != [] {
      var n := |recs| - 1;
      WelcomePrefix(recs);
      ImportLoopKeeps(docs, recs[..n]);
      ImportLeaves(docs, recs[..n], imsi);
      ImportConflicts(docs, recs[..n], imsi);
      ImportStepFind(ImportLoop(docs, recs[..n]), recs[n], imsi);
    }
  }

  lemma StillPlaced(t: Tally, q: Inbound, rec: Inbound)
    requires Sound(t.docs) && Welcome(q) && q.imsi != rec.imsi && Placed(t.docs, rec)
    ensures Placed(ImportStep(t, q).docs, rec)
  {
    ImportStepFind(t, q, rec.imsi);
  }

  lemma NowPlaced(t: Tally, rec: Inbound)
    requires Sound(t.docs) && Welcome(rec) && !LocalConflict(t.docs, rec.imsi)
    ensures Placed(ImportStep(t, rec).docs, rec)
  {
    ImportStepFind(t, rec, rec.imsi);
  }

  lemma LastIsPlaced(docs: seq<Value>, recs: seq<Inbound>)
    requires Sound(docs) && AllWelcome(recs) && recs != [] && !LocalConflict(docs, recs[|recs| - 1].imsi)
    ensures Placed(ImportLoop(docs, recs).docs, recs[|recs| - 1])
  {
    var front, last := recs[..|recs| - 1], recs[|recs| - 1];
    WelcomePrefix(recs);
    ImportLoopKeeps(docs, front);
    ImportConflicts(docs, front, last.imsi);
    NowPlaced(ImportLoop(docs, front), last);
  }

  lemma OthersStayPlaced(docs: seq<Value>, recs: seq<Inbound>, rec: Inbound)
    requires Sound(docs) && AllWelcome(recs) && recs != [] && recs[|recs| - 1].imsi != rec.imsi
    requires Placed(ImportLoop(docs, recs[..|recs| - 1]).docs, rec)
    ensures Placed(ImportLoop(docs, recs).docs, rec)
  {
    var front := recs[..|recs| - 1];
    WelcomePrefix(recs);
    ImportLoopKeeps(docs, front);
    StillPlaced(ImportLoop(docs, front), recs[|recs| - 1], rec);
  }

  /** A record that no local subscriber stands in the way of is in place, from its last occurrence. */
  lemma {:induction false} ImportPlaces(docs: seq<Value>, recs: seq<Inbound>, i: nat) returns (j: nat)
    requires Sound(docs) && AllWelcome(recs) && i < |recs| && !LocalConflict(docs, recs[i].imsi)
    ensures j < |recs| && recs[j].imsi == recs[i].imsi && Placed(ImportLoop(docs, recs).docs, recs[j])
  {
    var n := |recs| - 1;
    if recs[n].imsi == recs[i].imsi {
      j := n;
      LastIsPlaced(docs, recs);
    } else {
      WelcomePrefix(recs);
      j := ImportPlaces(docs, recs[..n], i);
      OthersStayPlaced(docs, recs, recs[j]);
    }
  }

  // ----- from the home store to the visited collection -----

  lemma {:induction false} RoamersAre(subs: seq<Subscriber>)
    ensures forall r :: r in Roamers(subs) <==> exists s :: s in subs && s.lboRoamingAllowed && r == PolicyOf(s)
  {
    if subs != [] {
      RoamersAre(subs[1..]);
      assert subs == [subs[0]] + subs[1..];
    }
  }

  lemma {:induction false} LastRowIs(subs: seq<Subscriber>, imsi: string)
    ensures LastRow(subs, imsi).Some? ==> LastRow(subs, imsi).value in subs && LastRow(subs, imsi).value.imsi == imsi
    ensures LastRow(subs, imsi).None? ==> forall s | s in subs :: s.imsi != imsi
  {
    if subs != [] {
      LastRowIs(subs[..|subs| - 1], imsi);
      assert subs == subs[..|subs| - 1] + [subs[|subs| - 1]];
    }
  }

  lemma {:induction false} SelectedAre(subs: seq<Subscriber>, imsis: seq<string>)
    requires Selected(subs, imsis).Ok?
    ensures var rs := Selected(subs, imsis).value;
      && (forall r | r in rs :: exists s :: s in subs && s.lboRoamingAllowed && r == PolicyOf(s) && s.imsi in imsis)
      && forall n | n in imsis :: exists r :: r in rs && r.imsi == n
  {
    if imsis != [] {
      LastRowIs(subs, imsis[0]);
      SelectedAre(subs, imsis[1..]);
      assert imsis == [imsis[0]] + imsis[1..];
      var s := LastRow(subs, imsis[0]).value;
      var rest := Selected(subs, imsis[1..]).value;
      assert PolicyOf(s) in [PolicyOf(s)] + rest;
      forall n | n in imsis ensures exists r :: r in [PolicyOf(s)] + rest && r.imsi == n {
        if n == imsis[0] {
          assert PolicyOf(s).imsi == n;
        } else {
          var r :| r in rest && r.imsi == n;
          assert r in [PolicyOf(s)] + rest;
        }
      }
    }
  }

  /** The subscribers an export speaks for. */
  predicate Chosen(s: Subscriber, names: Option<seq<string>>) {
    match names
    case None => s.lboRoamingAllowed
    case Some(imsis) => s.imsi in imsis
  }

  lemma SameImsiSame(subs: seq<Subscriber>, s: Subscriber, t: Subscriber)
    requires DistinctImsis(subs) && s in subs && t in subs && s.imsi == t.imsi
    ensures s == t
  {
    var i :| 0 <= i < |subs| && subs[i] == s;
    var j :| 0 <= j < |subs| && subs[j] == t;
  }

  /** The records are the policies of the chosen subscribers, no more and no fewer. */
  lemma ExportIsExact(subs: seq<Subscriber>, names: Option<seq<string>>)
    requires DistinctImsis(subs) && ExportPolicyRecords(subs, names).Ok?
    ensures var rs := ExportPolicyRecords(subs, names).value;
      && (forall r | r in rs :: exists s :: s in subs && Chosen(s, names) && s.lboRoamingAllowed && r == PolicyOf(s))
      && (forall s | s in subs && Chosen(s, names) :: PolicyOf(s) in rs)
      && Consistent(rs)
  {
    var rs := ExportPolicyRecords(subs, names).value;
    match names {
      case None => RoamersAre(subs);
      case Some(imsis) =>
        SelectedAre(subs, imsis);
        forall s | s in subs && s.imsi in imsis ensures PolicyOf(s) in rs {
          var r :| r in rs && r.imsi == s.imsi;
          var t :| t in subs && t.lboRoamingAllowed && r == PolicyOf(t) && t.imsi in imsis;
          SameImsiSame(subs, s, t);
        }
    }
    forall i, j | 0 <= i < j < |rs| && rs[i].imsi == rs[j].imsi ensures rs[i] == rs[j] {
      assert rs[i] in rs && rs[j] in rs;
      var s :| s in subs && s.lboRoamingAllowed && rs[i] == PolicyOf(s);
      var t :| t in subs && t.lboRoamingAllowed && rs[j] == PolicyOf(t);
      SameImsiSame(subs, s, t);
    }
  }

  lemma RecordReadsBack(r: PolicyRecord)
    requires IsImsi(r.imsi)
    ensures ValidateRecord(RecordToTree(r)) == Ok(r)
  {
    var fs := RecordToTree(r).fields;
    assert Get(fs[1..], "lbo_roaming_allowed") == Some(Bool(r.lboRoamingAllowed));
    assert |Lower("imsi")| == 4 && |Lower("lbo_roaming_allowed")| == 19;
    assert Lower("imsi")[0] == 'i';
  }

  lemma {:induction false} RecordsReadBack(ts: seq<Tree>, rs: seq<PolicyRecord>)
    requires |ts| == |rs| && forall i | 0 <= i < |rs| :: ts[i] == RecordToTree(rs[i]) && IsImsi(rs[i].imsi)
    ensures ValidateAll(ts) == Ok(rs)
  {
    if rs != [] {
      RecordReadsBack(rs[0]);
      RecordsReadBack(ts[1..], rs[1..]);
      assert rs == [rs[0]] + rs[1..];
    }
  }

  lemma ExportReadsBack(rs: seq<PolicyRecord>)
    requires forall r | r in rs :: IsImsi(r.imsi)
    ensures ReadImportFile(ExportFile(rs)) == Ok(rs)
  {
    RecordsReadBack(RecordsToTrees(rs), rs);
    assert Get(ExportFile(rs).fields, "records") == Some(Arr(RecordsToTrees(rs)));
  }

  lemma ImportLeavesOthers(rs: seq<PolicyRecord>, docs: seq<Value>, home: Plmn, ids: seq<Ids>, imsi: string)
    requires Sound(docs) && (LocalConflict(docs, imsi) || forall r | r in rs :: r.imsi != imsi)
    ensures Find(DocsAfterImport(docs, rs, home, ids), imsi) == Find(docs, imsi)
  {
    var recs := InboundsOf(rs, home, ids);
    InboundsWelcome(rs, home, ids);
    forall i | 0 <= i < |recs| ensures LocalConflict(docs, imsi) || recs[i].imsi != imsi {
      assert rs[i] in rs;
    }
    ImportLeaves(docs, recs, imsi);
  }

  lemma SameRecord(rs: seq<PolicyRecord>, i: nat, j: nat)
    requires Consistent(rs) && i < |rs| && j < |rs| && rs[i].imsi == rs[j].imsi
    ensures rs[i] == rs[j]
  {
  }

  lemma ImportDelivers(rs: seq<PolicyRecord>, docs: seq<Value>, home: Plmn, ids: seq<Ids>, i: nat)
    requires Sound(docs) && Consistent(rs) && IsPlmn(home) && ImportRunnable(rs, home)
    requires i < |rs| && !LocalConflict(docs, rs[i].imsi)
    ensures Carries(DocsAfterImport(docs, rs, home, ids), rs[i], home)
  {
    InboundsWelcome(rs, home, ids);
    var recs := InboundsOf(rs, home, ids);
    forall k | 0 <= k < |recs| ensures recs[k].imsi == rs[k].imsi {
    }
    var j := ImportPlaces(docs, recs, i);
    SameRecord(rs, i, j);
    PlacedCarries(DocsAfterImport(docs, rs, home, ids), rs[j], home, IdAt(ids, j));
  }

  /** Export, carry the file over, read it, import it: the visited island ends with exactly the chosen
      Local-Breakout subscribers, each with the slice its home document has, except where a genuine local
      subscriber stands in the way; nothing else there moves. */
  lemma RoamingRoundTrip(subs: seq<Subscriber>, names: Option<seq<string>>, docs: seq<Value>, home: Plmn, ids: seq<Ids>)
    requires DistinctImsis(subs) && forall s | s in subs :: ValidSubscriber(s)
    requires Sound(docs) && ExportPolicyRecords(subs, names).Ok?
    ensures var rs := ExportPolicyRecords(subs, names).value;
      && ReadImportFile(ExportFile(rs)) == Ok(rs)
      && (IsPlmn(home) && ImportRunnable(rs, home) ==>
            Delivered(subs, names, docs, DocsAfterImport(docs, rs, home, ids), home))
  {
    ExportIsExact(subs, names);
    var rs := ExportPolicyRecords(subs, names).value;
    forall r | r in rs ensures IsImsi(r.imsi) {
      var s :| s in subs && Chosen(s, names) && s.lboRoamingAllowed && r == PolicyOf(s);
    }
    ExportReadsBack(rs);
    if IsPlmn(home) && ImportRunnable(rs, home) {
      var after := DocsAfterImport(docs, rs, home, ids);
      forall s | s in subs && Chosen(s, names)
        ensures if LocalConflict(docs, s.imsi) then Find(after, s.imsi) == Find(docs, s.imsi)
                else Carries(after, PolicyOf(s), home)
      {
        if LocalConflict(docs, s.imsi) {
          ImportLeavesOthers(rs, docs, home, ids, s.imsi);
        } else {
          var i :| 0 <= i < |rs| && rs[i] == PolicyOf(s);
          ImportDelivers(rs, docs, home, ids, i);
        }
      }
      forall imsi | NotChosen(subs, names, imsi) ensures Find(after, imsi) == Find(docs, imsi) {
        forall r | r in rs ensures r.imsi != imsi {
          var s :| s in subs && Chosen(s, names) && s.lboRoamingAllowed && r == PolicyOf(s);
        }
        ImportLeavesOthers(rs, docs, home, ids, imsi);
      }
    }
  }

  predicate NotChosen(subs: seq<Subscriber>, names: Option<seq<string>>, imsi: string) {
    forall s | s in subs && Chosen(s, names) :: s.imsi != imsi
  }

  ghost predicate Delivered(subs: seq<Subscriber>, names: Option<seq<string>>, docs: seq<Value>, after: seq<Value>,
      home: Plmn) {
    && (forall s | s in subs && Chosen(s, names) ::
      if LocalConflict(docs, s.imsi) then Find(after, s.imsi) == Find(docs, s.imsi)
      else Carries(after, PolicyOf(s), home))
    && forall imsi | NotChosen(subs, names, imsi) :: Find(after, imsi) == Find(docs, imsi)
  }

  /** The answer of `roaming import` on any records: it names every local subscriber in the way, and counts
      as imported only when there is none. */
  lemma ImportReports(docs: seq<Value>, rs: seq<PolicyRecord>, home: Plmn, ids: seq<Ids>)
    requires Sound(docs) && IsPlmn(home) && ImportRunnable(rs, home)
    ensures var c := ConflictsAmong(docs, InboundsOf(rs, home, ids));
      ImportOutcomeOf(docs, rs, home, ids) == if c == [] then Imported(|rs|) else Conflicts(c)
  {
    InboundsWelcome(rs, home, ids);
    ImportCounts(docs, InboundsOf(rs, home, ids));
  }

  // ----- what is refused -----

  /** Asking for named subscribers succeeds exactly when each is in the store and on Local Breakout; otherwise it fails
      for the first that is not, as missing or as home-routed. */
  lemma {:induction false} SelectedIff(subs: seq<Subscriber>, imsis: seq<string>)
    requires DistinctImsis(subs)
    ensures Selected(subs, imsis).Ok? <==> forall n | n in imsis :: MayRoam(subs, n)
    ensures Selected(subs, imsis).Ok? ==> |Selected(subs, imsis).value| == |imsis|
    ensures Selected(subs, imsis).Ok? ==> forall i | 0 <= i < |imsis| :: Selected(subs, imsis).value[i].imsi == imsis[i]
    ensures Selected(subs, imsis).Err? ==> FirstRefusal(subs, imsis, Selected(subs, imsis).error)
  {
    if imsis != [] {
      SelectedIff(subs, imsis[1..]);
      NameStands(subs, imsis[0]);
      assert imsis == [imsis[0]] + imsis[1..];
      if Selected(subs, imsis).Err? && MayRoam(subs, imsis[0]) {
        LaterRefusal(subs, imsis, Selected(subs, imsis).error);
      }
    }
  }

  predicate FirstRefusal(subs: seq<Subscriber>, imsis: seq<string>, e: RoamingError) {
    exists i | 0 <= i < |imsis| :: Refusal(subs, imsis[i], e) && forall j | 0 <= j < i :: MayRoam(subs, imsis[j])
  }

  lemma LaterRefusal(subs: seq<Subscriber>, imsis: seq<string>, e: RoamingError)
    requires imsis != [] && MayRoam(subs, imsis[0]) && FirstRefusal(subs, imsis[1..], e)
    ensures FirstRefusal(subs, imsis, e)
  {
    var rest := imsis[1..];
    var i :| 0 <= i < |rest| && Refusal(subs, rest[i], e) && forall j | 0 <= j < i :: MayRoam(subs, rest[j]);
    forall j | 0 <= j < i + 1 ensures MayRoam(subs, imsis[j]) {
      if j > 0 { assert rest[j - 1] == imsis[j]; }
    }
    assert Refusal(subs, imsis[i + 1], e);
  }

  predicate MayRoam(subs: seq<Subscriber>, imsi: string) {
    exists s | s in subs :: s.imsi == imsi && s.lboRoamingAllowed
  }

  /** The error names a subscriber that is not in the store, or is there and home-routed. */
  predicate Refusal(subs: seq<Subscriber>, imsi: string, e: RoamingError) {
    || (e == NoSuchSubscriber(imsi) && forall s | s in subs :: s.imsi != imsi)
    || (e == HomeRouted(imsi) && exists s | s in subs :: s.imsi == imsi && !s.lboRoamingAllowed)
  }

  lemma NameStands(subs: seq<Subscriber>, imsi: string)
    requires DistinctImsis(subs)
    ensures LastRow(subs, imsi).None? ==> !MayRoam(subs, imsi) && Refusal(subs, imsi, NoSuchSubscriber(imsi))
    ensures LastRow(subs, imsi).Some? ==>
      var t := LastRow(subs, imsi).value;
      && t.imsi == imsi && (MayRoam(subs, imsi) <==> t.lboRoamingAllowed)
      && (!t.lboRoamingAllowed ==> Refusal(subs, imsi, HomeRouted(imsi)))
  {
    LastRowIs(subs, imsi);
    if LastRow(subs, imsi).Some? {
      var t := LastRow(subs, imsi).value;
      forall s | s in subs && s.imsi == imsi ensures s == t {
        SameImsiSame(subs, s, t);
      }
    }
  }

  /** A full export always succeeds; a named one does exactly when every named subscriber is stored and may roam. */
  lemma ExportSucceedsIff(subs: seq<Subscriber>, names: Option<seq<string>>)
    requires DistinctImsis(subs)
    ensures ExportPolicyRecords(subs, names).Ok? <==>
      names.None? || forall n | n in names.value :: MayRoam(subs, n)
  {
    if names.Some? { SelectedIff(subs, names.value); }
  }

  /** A record of a file is accepted exactly when it is a dictionary without a credential-like key whose IMSI is
      fifteen digits, and its flag is on unless it says otherwise. */
  lemma RecordAccepted(raw: Tree, r: PolicyRecord)
    ensures ValidateRecord(raw) == Ok(r) <==>
      && raw.Obj? && IsImsi(r.imsi) && !CarriesCredential(raw.fields) && r.lboRoamingAllowed == FlagOn(raw.fields)
      && DigitsText(ValueAt(raw, "imsi")) == Some(r.imsi)
  {
    assert IsImsi(r.imsi) ==> |r.imsi| >= 15;
    assert |Digits(0)| == 1;
  }

  /** The roaming flag of a record: missing means yes, and false, null, zero and empty mean no. */
  predicate FlagOn(fs: seq<Field<Tree>>) {
    var t := Get(fs, "lbo_roaming_allowed");
    t.None? || !(t.value in {Null, Bool(false), Num(0), Real("0.0"), Real("-0.0"), Str(""), Arr([]), Obj([])})
  }

  /** A file is accepted exactly when each of its records is, in order. */
  lemma {:induction false} FileAccepted(items: seq<Tree>, rs: seq<PolicyRecord>)
    ensures ReadImportFile(Arr(items)) == Ok(rs) <==>
      |rs| == |items| && forall i | 0 <= i < |items| :: ValidateRecord(items[i]) == Ok(rs[i])
  {
    AllAccepted(items, rs);
  }

  lemma {:induction false} AllAccepted(items: seq<Tree>, rs: seq<PolicyRecord>)
    ensures ValidateAll(items) == Ok(rs) <==>
      |rs| == |items| && forall i | 0 <= i < |items| :: ValidateRecord(items[i]) == Ok(rs[i])
  {
    if items != [] && rs != [] {
      AllAccepted(items[1..], rs[1..]);
      assert rs == [rs[0]] + rs[1..];
      if |rs| == |items| && forall i | 0 <= i < |items| :: ValidateRecord(items[i]) == Ok(rs[i]) {
        forall i | 0 <= i < |items[1..]| ensures ValidateRecord(items[1..][i]) == Ok(rs[1..][i]) {
          assert items[1..][i] == items[i + 1];
        }
      }
      if ValidateAll(items) == Ok(rs) {
        forall i | 0 <= i < |items| ensures ValidateRecord(items[i]) == Ok(rs[i]) {
          if i > 0 { assert ValidateRecord(items[1..][i - 1]) == Ok(rs[1..][i - 1]); }
        }
      }
    }
  }

  /** A home PLMN is a three-digit and a two- or three-digit code, each perhaps with one line break after it; with any
      other the import is refused and nothing is written. */
  lemma OtherPlmnRefused(docs: seq<Value>, rs: seq<PolicyRecord>, home: Plmn, ids: seq<Ids>)
    ensures ImportOutcomeOf(docs, rs, home, ids) == InvalidPlmn <==>
      !(Code(home.mcc, 3) && (Code(home.mnc, 2) || Code(home.mnc, 3)))
    ensures ImportOutcomeOf(docs, rs, home, ids) == InvalidPlmn ==> DocsAfterImport(docs, rs, home, ids) == docs
  {
  }

  predicate Code(s: string, n: nat) {
    && n <= |s| <= n + 1 && (|s| == n + 1 ==> s[n] == '\n')
    && forall i | 0 <= i < n :: '0' <= s[i] <= '9'
  }

  // ----- K never leaves home -----

  /** Stores that differ only in what must not travel: keys, OPc, AMF values, labels, notes, times. */
  predicate SamePolicies(subs: seq<Subscriber>, others: seq<Subscriber>) {
    |subs| == |others| && forall i | 0 <= i < |subs| :: PolicyOf(subs[i]) == PolicyOf(others[i])
  }

  lemma {:induction false} SameRoamers(subs: seq<Subscriber>, others: seq<Subscriber>)
    requires SamePolicies(subs, others)
    ensures Roamers(subs) == Roamers(others)
  {
    if subs != [] {
      assert PolicyOf(subs[0]) == PolicyOf(others[0]);
      forall i | 0 <= i < |subs| - 1 ensures PolicyOf(subs[1..][i]) == PolicyOf(others[1..][i]) {
        assert PolicyOf(subs[i + 1]) == PolicyOf(others[i + 1]);
      }
      SameRoamers(subs[1..], others[1..]);
    }
  }

  lemma {:induction false} SameLastRow(subs: seq<Subscriber>, others: seq<Subscriber>, imsi: string)
    requires SamePolicies(subs, others)
    ensures LastRow(subs, imsi).Some? <==> LastRow(others, imsi).Some?
    ensures LastRow(subs, imsi).Some? ==> PolicyOf(LastRow(subs, imsi).value) == PolicyOf(LastRow(others, imsi).value)
  {
    if subs != [] {
      var n := |subs| - 1;
      assert PolicyOf(subs[n]) == PolicyOf(others[n]);
      SameLastRow(subs[..n], others[..n], imsi);
    }
  }

  lemma {:induction false} SameSelected(subs: seq<Subscriber>, others: seq<Subscriber>, imsis: seq<string>)
    requires SamePolicies(subs, others)
    ensures Selected(subs, imsis) == Selected(others, imsis)
  {
    if imsis != [] {
      SameLastRow(subs, others, imsis[0]);
      if LastRow(subs, imsis[0]).Some? {
        assert PolicyOf(LastRow(subs, imsis[0]).value) == PolicyOf(LastRow(others, imsis[0]).value);
      }
      SameSelected(subs, others, imsis[1..]);
    }
  }

  /** The visited collection cannot depend on anything but IMSI, roaming flag and home PLMN: two home stores
      that agree on those produce the same file, or the same refusal, and the same documents. */
  lemma CredentialsDoNotTravel(subs: seq<Subscriber>, others: seq<Subscriber>, names: Option<seq<string>>)
    requires SamePolicies(subs, others)
    ensures ExportPolicyRecords(subs, names) == ExportPolicyRecords(others, names)
  {
    match names {
      case None => SameRoamers(subs, others);
      case Some(imsis) => SameSelected(subs, others, imsis);
    }
  }

  /** `c` is the small letter `l`, in either case; the Kelvin sign counts as a capital of `k`. */
  predicate IsLetter(c: char, l: char) {
    c == l || ('A' <= c <= 'Z' && c as int - 'A' as int == l as int - 'a' as int) || (c as int == 0x212A && l == 'k')
  }

  predicate Spells(s: string, name: string) { |s| == |name| && forall i | 0 <= i < |s| :: IsLetter(s[i], name[i]) }

  lemma SpellsIff(s: string, name: string)
    requires forall i | 0 <= i < |name| :: 'a' <= name[i] <= 'z'
    ensures Lower(s) == name <==> Spells(s, name)
  {
    if |s| == |name| {
      forall i | 0 <= i < |s| ensures Lower(s)[i] == name[i] <==> IsLetter(s[i], name[i]) {
      }
    }
  }

  /** Which keys refuse a record, in any case of letters. */
  lemma CredentialKeys(fs: seq<Field<Tree>>)
    ensures CarriesCredential(fs) <==> exists f | f in fs ::
              || Spells(f.key, "security") || Spells(f.key, "k") || Spells(f.key, "opc") || Spells(f.key, "op")
              || Spells(f.key, "amf")
  {
    forall k: string ensures Lower(k) in CREDENTIAL_LIKE_KEYS <==>
      Spells(k, "security") || Spells(k, "k") || Spells(k, "opc") || Spells(k, "op") || Spells(k, "amf")
    {
      SpellsIff(k, "security");
      SpellsIff(k, "k");
      SpellsIff(k, "opc");
      SpellsIff(k, "op");
      SpellsIff(k, "amf");
    }
  }

  /** One record with a credential-like key, in any case of letters, refuses the whole file. */
  lemma {:induction false} OneCredentialRefusesAll(items: seq<Tree>, i: nat)
    requires i < |items| && items[i].Obj? && CarriesCredential(items[i].fields)
    ensures ValidateAll(items).Err?
  {
    if i > 0 { OneCredentialRefusesAll(items[1..], i - 1); }
  }
}

/** What the core finds in a document, field by field: the credentials and policy of the stored subscriber, and the
    values every subscriber has. */
module Provisioned {
  import opened Results
  import opened Json
  import opened Canonical
  import opened Subscribers
  import opened Collections
  import opened Sync
  import opened SyncLaws
  import opened LiveSessions
  import opened Roaming
  import opened RoamingLaws

  // ----- reading a document -----

  /** The field is this number, text or flag, wrapped or not. */
  predicate Reads(v: Value, k: string, p: Prim) {
    var x := Lookup(v, k);
    x.Some? && Atomic(x.value) && x.value.p == p
  }

  /** The field is a list of one element, and this is it. */
  function Only(v: Value, k: string): Option<Value> {
    match Lookup(v, k)
    case Some(List(items)) => if |items| == 1 then Some(items[0]) else None
    case _ => None
  }

  predicate ReadsEmpty(v: Value, k: string) { Lookup(v, k) == Some(List([])) }

  lemma AgreeingLookup(v: Value, w: Value, k: string)
    requires Valid(v) && Valid(w) && Agrees(v, w) && !Dropped(k) && Lookup(w, k).Some?
    ensures Lookup(v, k).Some? && Agrees(Lookup(v, k).value, Lookup(w, k).value)
    ensures Valid(Lookup(v, k).value) && Valid(Lookup(w, k).value)
  {
    GetMember(w.fields, k);
    var g := Field(k, Lookup(w, k).value);
    assert g in w.fields && k in KeptKeys(w.fields);
    assert v.Doc? && k in KeptKeys(v.fields);
    GetMember(v.fields, k);
    assert Field(k, Lookup(v, k).value) in v.fields;
  }

  lemma AgreeingReads(v: Value, w: Value, k: string, p: Prim)
    requires Valid(v) && Valid(w) && Agrees(v, w) && !Dropped(k) && Reads(w, k, p) && !p.PNonFinite?
    ensures Reads(v, k, p)
  {
    AgreeingLookup(v, w, k);
  }

  lemma AgreeingEmpty(v: Value, w: Value, k: string)
    requires Valid(v) && Valid(w) && Agrees(v, w) && !Dropped(k) && ReadsEmpty(w, k)
    ensures ReadsEmpty(v, k)
  {
    AgreeingLookup(v, w, k);
  }

  lemma AgreeingOnly(v: Value, w: Value, k: string)
    requires Valid(v) && Valid(w) && Agrees(v, w) && !Dropped(k) && Only(w, k).Some?
    ensures Only(v, k).Some? && Agrees(Only(v, k).value, Only(w, k).value)
    ensures Valid(Only(v, k).value) && Valid(Only(w, k).value)
  {
    AgreeingLookup(v, w, k);
    var x, y := Lookup(v, k).value, Lookup(w, k).value;
    assert Agrees(x.items[0], y.items[0]);
  }

  // ----- what each part holds -----

  predicate HoldsRate(v: Value) { Reads(v, "value", PNum(1_000_000_000)) && Reads(v, "unit", PNum(0)) }

  predicate HoldsAmbr(v: Value) {
    var down, up := Lookup(v, "downlink"), Lookup(v, "uplink");
    down.Some? && HoldsRate(down.value) && up.Some? && HoldsRate(up.value)
  }

  predicate HoldsPriority(v: Value) {
    && Reads(v, "priority_level", PNum(8)) && Reads(v, "pre_emption_capability", PNum(1))
    && Reads(v, "pre_emption_vulnerability", PNum(2))
  }

  predicate HoldsQos(v: Value) {
    var arp := Lookup(v, "arp");
    Reads(v, "index", PNum(9)) && arp.Some? && HoldsPriority(arp.value)
  }

  predicate HoldsSession(v: Value, lbo: bool) {
    var qos, ambr := Lookup(v, "qos"), Lookup(v, "ambr");
    && Reads(v, "name", PStr("internet")) && Reads(v, "type", PNum(3)) && Reads(v, "lbo_roaming_allowed", PBool(lbo))
    && ReadsEmpty(v, "pcc_rule")
    && qos.Some? && HoldsQos(qos.value) && ambr.Some? && HoldsAmbr(ambr.value)
  }

  /** One slice with one session, which carries the Local Breakout flag. */
  predicate HoldsSlice(v: Value, lbo: bool) {
    var session := Only(v, "session");
    && Reads(v, "sst", PNum(1)) && Reads(v, "default_indicator", PBool(true))
    && session.Some? && HoldsSession(session.value, lbo)
  }

  /** The text in upper case, character by character. */
  predicate Uppercased(u: string, s: string) {
    && |u| == |s|
    && forall i | 0 <= i < |s| ::
      if 'a' <= s[i] <= 'z' then 'A' <= u[i] <= 'Z' && u[i] as int - 'A' as int == s[i] as int - 'a' as int
      else u[i] == s[i]
  }

  /** The subscriber's own key under `k`, OPc under `opc`, AMF under `amf`, and no OP. */
  ghost predicate HoldsSecurity(v: Value, s: Subscriber) {
    && (exists u :: Reads(v, "k", PStr(u)) && Uppercased(u, s.key))
    && (exists u :: Reads(v, "opc", PStr(u)) && Uppercased(u, s.opc))
    && (exists u :: Reads(v, "amf", PStr(u)) && Uppercased(u, s.amf))
    && Lookup(v, "op").Some? && Nullish(Lookup(v, "op").value)
  }

  /** What every subscriber's document has, a roamer's too. */
  predicate HoldsTrailer(v: Value) {
    && Reads(v, "schema_version", PNum(1)) && Reads(v, "access_restriction_data", PNum(32))
    && Reads(v, "network_access_mode", PNum(0)) && Reads(v, "subscriber_status", PNum(0))
    && Reads(v, "operator_determined_barring", PNum(0)) && Reads(v, "subscribed_rau_tau_timer", PNum(12))
    && Reads(v, "__v", PNum(0))
  }

  predicate CarriesPolicy(v: Value, lbo: bool) {
    var slice := Only(v, "slice");
    slice.Some? && HoldsSlice(slice.value, lbo)
  }

  ghost predicate CarriesCredentials(v: Value, s: Subscriber) {
    var security := Lookup(v, "security");
    security.Some? && HoldsSecurity(security.value, s)
  }

  predicate CarriesRates(v: Value) {
    var ambr := Lookup(v, "ambr");
    ambr.Some? && HoldsAmbr(ambr.value)
  }

  /** The document provisions this subscriber. */
  ghost predicate Provisions(v: Value, s: Subscriber) {
    && HasImsi(v, s.imsi) && ReadsEmpty(v, "msisdn") && HoldsTrailer(v)
    && CarriesPolicy(v, s.lboRoamingAllowed) && CarriesCredentials(v, s) && CarriesRates(v)
  }

  // ----- agreeing documents hold the same -----

  lemma KeptEverywhere()
    ensures forall k | k in {"value", "unit", "downlink", "uplink", "priority_level"} :: !Dropped(k)
    ensures forall k | k in {"pre_emption_capability", "pre_emption_vulnerability", "index", "arp"} :: !Dropped(k)
    ensures forall k | k in {"name", "type", "qos", "ambr"} :: !Dropped(k)
    ensures forall k | k in {"lbo_roaming_allowed", "session", "sst", "default_indicator", "slice"} :: !Dropped(k)
    ensures forall k | k in {"security", "k", "op", "opc", "amf", "schema_version", "__v"} :: !Dropped(k)
    ensures forall k | k in {"access_restriction_data", "network_access_mode", "subscriber_status"} :: !Dropped(k)
    ensures forall k | k in {"operator_determined_barring", "subscribed_rau_tau_timer", "pcc_rule"} :: !Dropped(k)
  {
  }

  lemma MsisdnKept()
    ensures !Dropped("msisdn")
  {
  }

  lemma AgreeingRate(v: Value, w: Value)
    requires Valid(v) && Valid(w) && Agrees(v, w) && HoldsRate(w)
    ensures HoldsRate(v)
  {
    KeptEverywhere();
    AgreeingReads(v, w, "value", PNum(1_000_000_000));
    AgreeingReads(v, w, "unit", PNum(0));
  }

  lemma AgreeingAmbr(v: Value, w: Value)
    requires Valid(v) && Valid(w) && Agrees(v, w) && HoldsAmbr(w)
    ensures HoldsAmbr(v)
  {
    KeptEverywhere();
    AgreeingLookup(v, w, "downlink");
    AgreeingLookup(v, w, "uplink");
    AgreeingRate(Lookup(v, "downlink").value, Lookup(w, "downlink").value);
    AgreeingRate(Lookup(v, "uplink").value, Lookup(w, "uplink").value);
  }

  lemma AgreeingPriority(v: Value, w: Value)
    requires Valid(v) && Valid(w) && Agrees(v, w) && HoldsPriority(w)
    ensures HoldsPriority(v)
  {
    KeptEverywhere();
    AgreeingReads(v, w, "priority_level", PNum(8));
    AgreeingReads(v, w, "pre_emption_capability", PNum(1));
    AgreeingReads(v, w, "pre_emption_vulnerability", PNum(2));
  }

  lemma AgreeingQos(v: Value, w: Value)
    requires Valid(v) && Valid(w) && Agrees(v, w) && HoldsQos(w)
    ensures HoldsQos(v)
  {
    KeptEverywhere();
    AgreeingReads(v, w, "index", PNum(9));
    AgreeingLookup(v, w, "arp");
    AgreeingPriority(Lookup(v, "arp").value, Lookup(w, "arp").value);
  }

  lemma AgreeingSession(v: Value, w: Value, lbo: bool)
    requires Valid(v) && Valid(w) && Agrees(v, w) && HoldsSession(w, lbo)
    ensures HoldsSession(v, lbo)
  {
    KeptEverywhere();
    AgreeingReads(v, w, "name", PStr("internet"));
    AgreeingReads(v, w, "type", PNum(3));
    AgreeingReads(v, w, "lbo_roaming_allowed", PBool(lbo));
    AgreeingEmpty(v, w, "pcc_rule");
    AgreeingLookup(v, w, "qos");
    AgreeingLookup(v, w, "ambr");
    AgreeingQos(Lookup(v, "qos").value, Lookup(w, "qos").value);
    AgreeingAmbr(Lookup(v, "ambr").value, Lookup(w, "ambr").value);
  }

  lemma AgreeingSlice(v: Value, w: Value, lbo: bool)
    requires Valid(v) && Valid(w) && Agrees(v, w) && HoldsSlice(w, lbo)
    ensures HoldsSlice(v, lbo)
  {
    KeptEverywhere();
    AgreeingReads(v, w, "sst", PNum(1));
    AgreeingReads(v, w, "default_indicator", PBool(true));
    AgreeingOnly(v, w, "session");
    AgreeingSession(Only(v, "session").value, Only(w, "session").value, lbo);
  }

  lemma AgreeingSecurity(v: Value, w: Value, s: Subscriber)
    requires Valid(v) && Valid(w) && Agrees(v, w) && HoldsSecurity(w, s)
    ensures HoldsSecurity(v, s)
  {
    KeptEverywhere();
    var k :| Reads(w, "k", PStr(k)) && Uppercased(k, s.key);
    var opc :| Reads(w, "opc", PStr(opc)) && Uppercased(opc, s.opc);
    var amf :| Reads(w, "amf", PStr(amf)) && Uppercased(amf, s.amf);
    AgreeingReads(v, w, "k", PStr(k));
    AgreeingReads(v, w, "opc", PStr(opc));
    AgreeingReads(v, w, "amf", PStr(amf));
    AgreeingLookup(v, w, "op");
  }

  lemma AgreeingTrailer(v: Value, w: Value)
    requires Valid(v) && Valid(w) && Agrees(v, w) && HoldsTrailer(w)
    ensures HoldsTrailer(v)
  {
    KeptEverywhere();
    AgreeingReads(v, w, "schema_version", PNum(1));
    AgreeingReads(v, w, "access_restriction_data", PNum(32));
    AgreeingReads(v, w, "network_access_mode", PNum(0));
    AgreeingReads(v, w, "subscriber_status", PNum(0));
    AgreeingReads(v, w, "operator_determined_barring", PNum(0));
    AgreeingReads(v, w, "subscribed_rau_tau_timer", PNum(12));
    AgreeingReads(v, w, "__v", PNum(0));
  }

  lemma AgreeingPolicy(v: Value, w: Value, lbo: bool)
    requires Valid(v) && Valid(w) && Agrees(v, w) && CarriesPolicy(w, lbo)
    ensures CarriesPolicy(v, lbo)
  {
    KeptEverywhere();
    AgreeingOnly(v, w, "slice");
    AgreeingSlice(Only(v, "slice").value, Only(w, "slice").value, lbo);
  }

  lemma AgreeingCredentials(v: Value, w: Value, s: Subscriber)
    requires Valid(v) && Valid(w) && Agrees(v, w) && CarriesCredentials(w, s)
    ensures CarriesCredentials(v, s)
  {
    KeptEverywhere();
    AgreeingLookup(v, w, "security");
    AgreeingSecurity(Lookup(v, "security").value, Lookup(w, "security").value, s);
  }

  lemma AgreeingRates(v: Value, w: Value)
    requires Valid(v) && Valid(w) && Agrees(v, w) && CarriesRates(w)
    ensures CarriesRates(v)
  {
    KeptEverywhere();
    AgreeingLookup(v, w, "ambr");
    AgreeingAmbr(Lookup(v, "ambr").value, Lookup(w, "ambr").value);
  }

  /** A document that agrees with one that provisions a subscriber, and is filed under the same IMSI, does too. */
  lemma AgreeingProvisions(v: Value, w: Value, s: Subscriber)
    requires Valid(v) && Valid(w) && Agrees(v, w) && Provisions(w, s) && HasImsi(v, s.imsi)
    ensures Provisions(v, s)
  {
    MsisdnKept();
    AgreeingEmpty(v, w, "msisdn");
    AgreeingTrailer(v, w);
    AgreeingPolicy(v, w, s.lboRoamingAllowed);
    AgreeingCredentials(v, w, s);
    AgreeingRates(v, w);
  }

  // ----- the documents the scripts write -----

  /** A field of a literal document, by its place. */
  lemma At(fs: seq<Field<Value>>, i: nat)
    requires UniqueKeys(fs) && i < |fs|
    ensures Lookup(Doc(fs), fs[i].key) == Some(fs[i].val)
  {
    GetAt(fs, i);
  }

  lemma RateHolds()
    ensures HoldsRate(Rate())
  {
    var fs := Rate().fields;
    At(fs, 0);
    At(fs, 1);
  }

  lemma AmbrHolds()
    ensures HoldsAmbr(Ambr())
  {
    var fs := Ambr().fields;
    At(fs, 0);
    At(fs, 1);
    RateHolds();
  }

  lemma PriorityHolds(fs: seq<Field<Value>>)
    requires fs == [Field("priority_level", Int32(8)), Field("pre_emption_capability", Int32(1)),
                    Field("pre_emption_vulnerability", Int32(2))]
    ensures HoldsPriority(Doc(fs))
  {
    At(fs, 0);
    At(fs, 1);
    At(fs, 2);
  }

  lemma QosHolds()
    ensures HoldsQos(Qos())
  {
    var fs := Qos().fields;
    At(fs, 0);
    At(fs, 1);
    PriorityHolds(fs[1].val.fields);
  }

  lemma SessionFieldsUnique(qos: Value, ambr: Value, lbo: bool, id: Value)
    ensures UniqueKeys(SessionFields(qos, ambr, lbo, id))
  {
  }

  lemma SessionHolds(qos: Value, ambr: Value, lbo: bool, id: Value)
    requires HoldsQos(qos) && HoldsAmbr(ambr)
    ensures HoldsSession(Doc(SessionFields(qos, ambr, lbo, id)), lbo)
  {
    var fs := SessionFields(qos, ambr, lbo, id);
    SessionFieldsUnique(qos, ambr, lbo, id);
    At(fs, 0);
    At(fs, 1);
    At(fs, 2);
    At(fs, 3);
    At(fs, 4);
    At(fs, 5);
  }

  lemma SliceHolds(session: Value, lbo: bool, id: Value)
    requires HoldsSession(session, lbo)
    ensures HoldsSlice(Doc(SliceFields(List([session]), id)), lbo)
  {
    var fs := SliceFields(List([session]), id);
    At(fs, 0);
    At(fs, 1);
    At(fs, 2);
  }

  /** The slice every document carries is one slice with one session and the flag it was built for. */
  lemma SlicesHold(lbo: bool, ids: Ids)
    ensures Slices(lbo, ids).List? && |Slices(lbo, ids).items| == 1 && HoldsSlice(Slices(lbo, ids).items[0], lbo)
  {
    QosHolds();
    AmbrHolds();
    SessionHolds(Qos(), Ambr(), lbo, ObjectId(ids.session));
    SliceHolds(Session(lbo, ids.session), lbo, ObjectId(ids.slice));
  }

  lemma UpperIs(s: string)
    ensures Uppercased(Upper(s), s)
  {
  }

  lemma SecurityFieldsHold(k: string, opc: string, amf: string, s: Subscriber)
    requires Uppercased(k, s.key) && Uppercased(opc, s.opc) && Uppercased(amf, s.amf)
    ensures HoldsSecurity(Doc(SecurityFields(k, opc, amf)), s)
  {
    var fs := SecurityFields(k, opc, amf);
    At(fs, 0);
    At(fs, 1);
    At(fs, 2);
    At(fs, 3);
    assert Reads(Doc(fs), "k", PStr(k)) && Reads(Doc(fs), "opc", PStr(opc)) && Reads(Doc(fs), "amf", PStr(amf));
  }

  lemma DocTrailer(imsi: string, slice: Value, security: Value, ambr: Value)
    ensures HoldsTrailer(Doc(DocFields(imsi, slice, security, ambr)))
  {
    var fs := DocFields(imsi, slice, security, ambr);
    DocFieldsUnique(imsi, slice, security, ambr);
    At(fs, 0);
    At(fs, 10);
    At(fs, 11);
    At(fs, 12);
    At(fs, 13);
    At(fs, 14);
    At(fs, 15);
  }

  lemma DocParts(imsi: string, slice: Value, security: Value, ambr: Value)
    ensures var d := Doc(DocFields(imsi, slice, security, ambr));
      && HasImsi(d, imsi) && ReadsEmpty(d, "msisdn") && Lookup(d, "slice") == Some(slice)
      && Lookup(d, "security") == Some(security) && Lookup(d, "ambr") == Some(ambr)
  {
    var fs := DocFields(imsi, slice, security, ambr);
    DocFieldsUnique(imsi, slice, security, ambr);
    At(fs, 1);
    At(fs, 2);
    At(fs, 7);
    At(fs, 8);
    At(fs, 9);
  }

  /** What the core fills in by itself starts out empty. */
  lemma DocStartsEmpty(s: Subscriber, ids: Ids)
    ensures var d := DocOf(s, ids);
      && ReadsEmpty(d, "imeisv") && ReadsEmpty(d, "mme_host") && ReadsEmpty(d, "mm_realm")
      && ReadsEmpty(d, "purge_flag")
  {
    var slices, security := Slices(s.lboRoamingAllowed, ids), Security(s);
    RuntimeFieldsEmpty(s.imsi, slices, security, Ambr());
  }

  lemma RuntimeFieldsEmpty(imsi: string, slice: Value, security: Value, ambr: Value)
    ensures var d := Doc(DocFields(imsi, slice, security, ambr));
      && ReadsEmpty(d, "imeisv") && ReadsEmpty(d, "mme_host") && ReadsEmpty(d, "mm_realm")
      && ReadsEmpty(d, "purge_flag")
  {
    var fs := DocFields(imsi, slice, security, ambr);
    DocFieldsUnique(imsi, slice, security, ambr);
    At(fs, 3);
    At(fs, 4);
    At(fs, 5);
    At(fs, 6);
  }

  lemma DocFieldsProvision(s: Subscriber, slices: Value, security: Value, ambr: Value)
    requires slices.List? && |slices.items| == 1 && HoldsSlice(slices.items[0], s.lboRoamingAllowed)
    requires HoldsSecurity(security, s) && HoldsAmbr(ambr)
    ensures Provisions(Doc(DocFields(s.imsi, slices, security, ambr)), s)
  {
    DocTrailer(s.imsi, slices, security, ambr);
    DocParts(s.imsi, slices, security, ambr);
  }

  /** The document built for a subscriber provisions that subscriber. */
  lemma DocProvisions(s: Subscriber, ids: Ids)
    ensures Provisions(DocOf(s, ids), s)
  {
    UpperIs(s.key);
    UpperIs(s.opc);
    UpperIs(s.amf);
    SecurityFieldsHold(Upper(s.key), Upper(s.opc), Upper(s.amf), s);
    SlicesHold(s.lboRoamingAllowed, ids);
    AmbrHolds();
    DocFieldsProvision(s, Slices(s.lboRoamingAllowed, ids), Security(s), Ambr());
  }

  /** After a sync that runs, every stored subscriber whose IMSI no roamer holds has a document that provisions
      exactly that subscriber: its own key, OPc, AMF and roaming policy, whatever was there before. */
  lemma SyncProvisions(docs: seq<Value>, subs: seq<Subscriber>, ids: seq<Ids>, i: nat)
    requires Sound(docs) && DistinctImsis(subs) && Runnable(subs) && i < |subs| && !Held(docs, subs[i].imsi)
    ensures var d := Find(DocsAfter(docs, subs, ids), subs[i].imsi);
      d.Some? && !Marked(d.value) && Provisions(d.value, subs[i])
  {
    var after, entries := DocsAfter(docs, subs, ids), EntriesOf(subs, ids);
    EntriesWanted(subs, ids);
    SyncSettles(docs, entries);
    assert entries[i] in entries && Settled(after, entries[i]);
    NotHeldAfter(docs, entries, subs[i].imsi);
    FindMember(after, subs[i].imsi);
    DocProvisions(subs[i], IdAt(ids, i));
    DocValid(subs[i], IdAt(ids, i));
    AgreeingProvisions(Find(after, subs[i].imsi).value, DocOf(subs[i], IdAt(ids, i)), subs[i]);
  }

  lemma NotHeldAfter(docs: seq<Value>, entries: seq<Entry>, imsi: string)
    requires Sound(docs) && AllWanted(entries) && !Held(docs, imsi) && imsi in Imsis(entries)
    ensures !Held(Synced(docs, entries), imsi)
  {
    LoopFind(docs, entries, imsi);
    FindKeep(Loop(docs, entries).docs, Imsis(entries), imsi);
  }

  // ----- roamers -----

  /** The document is a roamer's: policy of this record, the home it belongs to, and no credential. */
  predicate ProvisionsRoamer(v: Value, r: PolicyRecord, home: Plmn) {
    var plmn := Lookup(v, "home_plmn");
    && HasImsi(v, r.imsi) && Marked(v) && HoldsTrailer(v) && CarriesPolicy(v, r.lboRoamingAllowed)
    && plmn.Some? && Reads(plmn.value, "mcc", PStr(home.mcc)) && Reads(plmn.value, "mnc", PStr(home.mnc))
    && Lookup(v, "security") == None
  }

  lemma PlmnReads(home: Plmn)
    ensures Reads(PlmnValue(home), "mcc", PStr(home.mcc)) && Reads(PlmnValue(home), "mnc", PStr(home.mnc))
  {
    var fs := PlmnValue(home).fields;
    At(fs, 0);
    At(fs, 1);
  }

  lemma InboundTrailer(imsi: string, plmn: Value, slice: Value)
    ensures HoldsTrailer(Doc(InboundFields(imsi, plmn, slice)))
  {
    var fs := InboundFields(imsi, plmn, slice);
    InboundFieldsUnique(imsi, plmn, slice);
    At(fs, 0);
    At(fs, 5);
    At(fs, 6);
    At(fs, 7);
    At(fs, 8);
    At(fs, 9);
    At(fs, 10);
  }

  lemma InboundParts(imsi: string, plmn: Value, slice: Value)
    ensures var d := Doc(InboundFields(imsi, plmn, slice));
      && HasImsi(d, imsi) && Marked(d) && Lookup(d, "home_plmn") == Some(plmn) && Lookup(d, "slice") == Some(slice)
      && Lookup(d, "security") == None
  {
    var fs := InboundFields(imsi, plmn, slice);
    InboundFieldsUnique(imsi, plmn, slice);
    InboundFieldsAbsent(imsi, plmn, slice);
    At(fs, 1);
    At(fs, 2);
    At(fs, 3);
    At(fs, 4);
  }

  lemma InboundDocProvisions(r: PolicyRecord, home: Plmn, ids: Ids)
    ensures ProvisionsRoamer(InboundDoc(r, home, ids), r, home)
  {
    PlmnReads(home);
    SlicesHold(r.lboRoamingAllowed, ids);
    InboundTrailer(r.imsi, PlmnValue(home), Slices(r.lboRoamingAllowed, ids));
    InboundParts(r.imsi, PlmnValue(home), Slices(r.lboRoamingAllowed, ids));
  }

  /** The same fields, identifiers aside. */
  ghost predicate SameFields(v: Value, w: Value) { forall k | k != "_id" :: Lookup(v, k) == Lookup(w, k) }

  lemma SameAt(v: Value, w: Value, k: string)
    requires SameFields(v, w) && !Dropped(k)
    ensures Lookup(v, k) == Lookup(w, k)
  {
  }

  lemma SameTrailer(v: Value, w: Value)
    requires SameFields(v, w) && HoldsTrailer(w)
    ensures HoldsTrailer(v)
  {
    KeptEverywhere();
    SameAt(v, w, "schema_version");
    SameAt(v, w, "access_restriction_data");
    SameAt(v, w, "network_access_mode");
    SameAt(v, w, "subscriber_status");
    SameAt(v, w, "operator_determined_barring");
    SameAt(v, w, "subscribed_rau_tau_timer");
    SameAt(v, w, "__v");
  }

  lemma RoamerKeysKept()
    ensures !Dropped("imsi") && !Dropped("resccom_inbound_roamer") && !Dropped("home_plmn")
  {
  }

  lemma SameFieldsProvision(v: Value, w: Value, r: PolicyRecord, home: Plmn)
    requires ProvisionsRoamer(w, r, home) && SameFields(v, w)
    ensures ProvisionsRoamer(v, r, home)
  {
    KeptEverywhere();
    RoamerKeysKept();
    SameTrailer(v, w);
    SameAt(v, w, "imsi");
    SameAt(v, w, "resccom_inbound_roamer");
    SameAt(v, w, "home_plmn");
    SameAt(v, w, "slice");
    SameAt(v, w, "security");
  }

  /** After an import that runs, every record no local subscriber stands in the way of has a document that gives the
      roamer exactly that policy, under that home, and nothing to authenticate with. */
  lemma ImportProvisions(docs: seq<Value>, rs: seq<PolicyRecord>, home: Plmn, ids: seq<Ids>, i: nat)
    requires Sound(docs) && Consistent(rs) && IsPlmn(home) && ImportRunnable(rs, home)
    requires i < |rs| && !LocalConflict(docs, rs[i].imsi)
    ensures var d := Find(DocsAfterImport(docs, rs, home, ids), rs[i].imsi);
      d.Some? && ProvisionsRoamer(d.value, rs[i], home)
  {
    InboundsWelcome(rs, home, ids);
    var recs := InboundsOf(rs, home, ids);
    forall k | 0 <= k < |recs| ensures recs[k].imsi == rs[k].imsi {
    }
    var j := ImportPlaces(docs, recs, i);
    SameRecord(rs, i, j);
    PlacedProvisions(DocsAfterImport(docs, rs, home, ids), rs[j], home, IdAt(ids, j));
  }

  lemma PlacedProvisions(docs: seq<Value>, r: PolicyRecord, home: Plmn, ids: Ids)
    requires Placed(docs, InboundOf(r, home, ids))
    ensures Find(docs, r.imsi).Some? && ProvisionsRoamer(Find(docs, r.imsi).value, r, home)
  {
    InboundDocProvisions(r, home, ids);
    SameFieldsProvision(Find(docs, r.imsi).value, InboundDoc(r, home, ids), r, home);
  }
}

/** Subscribers of the local store and the documents they become in the core's collection. */
module Subscribers {
  import opened Results
  import opened Json
  import opened Canonical

  datatype Subscriber = Subscriber(
    imsi: string, key: string, opc: string, tag: string, notes: string, amf: string,
    lboRoamingAllowed: bool, createdAt: string)

  // ----- field rules -----

  predicate IsHex(c: char) { IsDigit(c) || 'a' <= c <= 'f' || 'A' <= c <= 'F' }

  /** `$` also matches just before one final newline, so a pattern of `n` characters admits `n + 1`. */
  predicate FitsLength(s: string, n: nat) { |s| == n || (|s| == n + 1 && s[n] == '\n') }

  predicate IsImsi(s: string) { FitsLength(s, 15) && forall i | 0 <= i < 15 :: IsDigit(s[i]) }

  predicate IsHexField(s: string, n: nat) { FitsLength(s, n) && forall i | 0 <= i < n :: IsHex(s[i]) }

  /** What `Subscriber.__post_init__` accepts. */
  predicate ValidSubscriber(s: Subscriber) {
    IsImsi(s.imsi) && IsHexField(s.key, 32) && IsHexField(s.opc, 32) && IsHexField(s.amf, 4)
  }

  /** At most one subscriber per IMSI. */
  predicate DistinctImsis(subs: seq<Subscriber>) {
    forall i, j | 0 <= i < j < |subs| :: subs[i].imsi != subs[j].imsi
  }

  function UpperChar(c: char): char {
    if 'a' <= c <= 'z' then (c as int - 32) as char else c
  }

  function Upper(s: string): (r: string)
    ensures |r| == |s|
  {
    seq(|s|, i requires 0 <= i < |s| => UpperChar(s[i]))
  }

  // ----- documents -----

  function Int32(n: int): Value { Boxed(PNum(n)) }
  function Number(n: int): Value { Scalar(PNum(n)) }
  function Text(s: string): Value { Scalar(PStr(s)) }
  function Flag(b: bool): Value { Scalar(PBool(b)) }
  function ObjectId(hex: string): Value { Doc([Field("id", Text(hex))]) }

  /** The identifiers Mongo generates for one document: its own, its slice's and its session's. */
  datatype Ids = Ids(top: string, slice: string, session: string)

  /** The generated identifiers come from outside; a short supply repeats a default. */
  function IdAt(ids: seq<Ids>, i: nat): Ids { if i < |ids| then ids[i] else Ids("", "", "") }

  const DEFAULT_QOS_INDEX := 9
  const DEFAULT_ARP_PRIORITY := 8
  const DEFAULT_ARP_PREEMPT_CAP := 1
  const DEFAULT_ARP_PREEMPT_VULN := 2
  const DEFAULT_AMBR_VALUE := 1_000_000_000
  const DEFAULT_AMBR_UNIT := 0

  function Rate(): Value {
    Doc([Field("value", Int32(DEFAULT_AMBR_VALUE)), Field("unit", Int32(DEFAULT_AMBR_UNIT))])
  }

  function Ambr(): Value { Doc([Field("downlink", Rate()), Field("uplink", Rate())]) }

  function Qos(): Value {
    Doc([Field("index", Int32(DEFAULT_QOS_INDEX)),
         Field("arp", Doc([Field("priority_level", Int32(DEFAULT_ARP_PRIORITY)),
                           Field("pre_emption_capability", Int32(DEFAULT_ARP_PREEMPT_CAP)),
                           Field("pre_emption_vulnerability", Int32(DEFAULT_ARP_PREEMPT_VULN))]))])
  }

  function SessionFields(qos: Value, ambr: Value, lbo: bool, id: Value): seq<Field<Value>> {
    [Field("name", Text("internet")), Field("type", Int32(3)), Field("qos", qos), Field("ambr", ambr),
     Field("lbo_roaming_allowed", Flag(lbo)), Field("pcc_rule", List([])), Field("_id", id)]
  }

  function Session(lbo: bool, id: string): Value { Doc(SessionFields(Qos(), Ambr(), lbo, ObjectId(id))) }

  function SliceFields(sessions: Value, id: Value): seq<Field<Value>> {
    [Field("sst", Int32(1)), Field("default_indicator", Flag(true)), Field("session", sessions), Field("_id", id)]
  }

  function Slice(lbo: bool, ids: Ids): Value {
    Doc(SliceFields(List([Session(lbo, ids.session)]), ObjectId(ids.slice)))
  }

  function Slices(lbo: bool, ids: Ids): Value { List([Slice(lbo, ids)]) }

  function SecurityFields(k: string, opc: string, amf: string): seq<Field<Value>> {
    [Field("k", Text(k)), Field("op", Nil), Field("opc", Text(opc)), Field("amf", Text(amf))]
  }

  function Security(s: Subscriber): Value { Doc(SecurityFields(Upper(s.key), Upper(s.opc), Upper(s.amf))) }

  function DocFields(imsi: string, slice: Value, security: Value, ambr: Value): seq<Field<Value>> {
    [Field("schema_version", Int32(1)), Field("imsi", Text(imsi)),
     Field("msisdn", List([])), Field("imeisv", List([])), Field("mme_host", List([])),
     Field("mm_realm", List([])), Field("purge_flag", List([])),
     Field("slice", slice), Field("security", security), Field("ambr", ambr),
     Field("access_restriction_data", Number(32)), Field("network_access_mode", Number(0)),
     Field("subscriber_status", Number(0)), Field("operator_determined_barring", Number(0)),
     Field("subscribed_rau_tau_timer", Number(12)), Field("__v", Number(0))]
  }

  /** The document of a local subscriber. */
  function DocOf(s: Subscriber, ids: Ids): Value {
    Doc(DocFields(s.imsi, Slices(s.lboRoamingAllowed, ids), Security(s), Ambr()))
  }

  // ----- looking into documents -----

  function Lookup(v: Value, k: string): Option<Value> {
    if v.Doc? then Get(v.fields, k) else None
  }

  predicate HasImsi(v: Value, imsi: string) { Lookup(v, "imsi") == Some(Text(imsi)) }

  /** An inbound-roamer document, owned by another island's store. */
  predicate Marked(v: Value) { Lookup(v, "resccom_inbound_roamer") == Some(Flag(true)) }

  // ----- when two documents agree -----

  predicate SameKeys(fs: seq<Field<Value>>, gs: seq<Field<Value>>) {
    UniqueKeys(fs) && |fs| == |gs| && forall i | 0 <= i < |fs| :: fs[i].key == gs[i].key
  }

  lemma ZipKeptKeys(fs: seq<Field<Value>>, gs: seq<Field<Value>>)
    requires SameKeys(fs, gs)
    ensures KeptKeys(fs) == KeptKeys(gs)
  {
    forall k ensures k in KeptKeys(fs) <==> k in KeptKeys(gs) {
      if k in KeptKeys(fs) {
        var i :| 0 <= i < |fs| && fs[i].key == k && !Dropped(k);
        assert gs[i] in gs;
      }
      if k in KeptKeys(gs) {
        var i :| 0 <= i < |gs| && gs[i].key == k && !Dropped(k);
        assert fs[i] in fs;
      }
    }
  }

  /** Agreement field by field: a kept value is unchanged, or agrees with the old one. */
  lemma AgreesZipFrom(fs: seq<Field<Value>>, gs: seq<Field<Value>>)
    requires SameKeys(fs, gs) && forall f | f in fs :: Valid(f.val)
    requires forall i | 0 <= i < |fs| :: Dropped(fs[i].key) || fs[i].val == gs[i].val || Agrees(fs[i].val, gs[i].val)
    ensures Agrees(Doc(fs), Doc(gs))
  {
    ZipKeptKeys(fs, gs);
    forall f, g | f in fs && g in gs && f.key == g.key && !Dropped(f.key) ensures Agrees(f.val, g.val) {
      var i :| 0 <= i < |fs| && fs[i] == f;
      var j :| 0 <= j < |gs| && gs[j] == g;
      assert fs[j].key == fs[i].key;
      if f.val == g.val { AgreesReflexive(f.val); }
    }
  }

  lemma AgreesZipTo(fs: seq<Field<Value>>, gs: seq<Field<Value>>, i: nat)
    requires SameKeys(fs, gs) && Agrees(Doc(fs), Doc(gs)) && i < |fs| && !Dropped(fs[i].key)
    ensures Agrees(fs[i].val, gs[i].val)
  {
    assert fs[i] in fs && gs[i] in gs;
  }

  lemma AgreesAtom(p: Prim, q: Prim)
    requires !p.PNonFinite? && !q.PNonFinite?
    ensures Agrees(Scalar(p), Scalar(q)) <==> p == q
  {
  }

  lemma AgreesSingleton(v: Value, w: Value)
    ensures Agrees(List([v]), List([w])) <==> Agrees(v, w)
  {
    var vs, ws := [v], [w];
    assert Agrees(List(vs), List(ws)) <==> Agrees(vs[0], ws[0]);
  }

  lemma ValidDoc(fs: seq<Field<Value>>)
    requires UniqueKeys(fs) && forall i | 0 <= i < |fs| :: Valid(fs[i].val)
    ensures Valid(Doc(fs))
  {
  }

  lemma SimpleValid(n: int, s: string, b: bool)
    ensures Valid(Int32(n)) && Valid(Number(n)) && Valid(Text(s)) && Valid(Flag(b)) && Valid(Nil) && Valid(List([]))
  {
  }

  lemma AtomValid(v: Value)
    requires Atomic(v) && !v.p.PReal?
    ensures Valid(v)
  {
  }

  lemma AmbrValid()
    ensures Valid(Ambr())
  {
    assert Valid(Rate());
  }

  lemma QosValid()
    ensures Valid(Qos())
  {
    assert Valid(Qos().fields[1].val);
  }

  lemma SessionFieldsValid(qos: Value, ambr: Value, lbo: bool, id: Value)
    requires Valid(qos) && Valid(ambr) && Valid(id)
    ensures Valid(Doc(SessionFields(qos, ambr, lbo, id)))
  {
    var fs := SessionFields(qos, ambr, lbo, id);
    assert UniqueKeys(fs);
    SimpleValid(3, "internet", lbo);
    forall i | 0 <= i < |fs| ensures Valid(fs[i].val) {}
    ValidDoc(fs);
  }

  lemma SessionValid(lbo: bool, id: string)
    ensures Valid(Session(lbo, id))
  {
    AmbrValid();
    QosValid();
    assert Valid(ObjectId(id));
    SessionFieldsValid(Qos(), Ambr(), lbo, ObjectId(id));
  }

  lemma SliceFieldsValid(sessions: Value, id: Value)
    requires Valid(sessions) && Valid(id)
    ensures Valid(Doc(SliceFields(sessions, id)))
  {
    var fs := SliceFields(sessions, id);
    SimpleValid(1, "", true);
    forall i | 0 <= i < |fs| ensures Valid(fs[i].val) {}
    ValidDoc(fs);
  }

  lemma SliceValid(lbo: bool, ids: Ids)
    ensures Valid(Slice(lbo, ids)) && Valid(Slices(lbo, ids))
  {
    SessionValid(lbo, ids.session);
    var x := Session(lbo, ids.session);
    assert Valid(List([x]));
    assert Valid(ObjectId(ids.slice));
    SliceFieldsValid(List([x]), ObjectId(ids.slice));
    var y := Slice(lbo, ids);
    assert Valid(List([y]));
  }

  lemma SecurityValid(s: Subscriber)
    ensures Valid(Security(s))
  {
  }

  lemma DocFieldsValid(imsi: string, slice: Value, security: Value, ambr: Value)
    requires Valid(slice) && Valid(security) && Valid(ambr)
    ensures Valid(Doc(DocFields(imsi, slice, security, ambr)))
  {
    var fs := DocFields(imsi, slice, security, ambr);
    DocFieldsUnique(imsi, slice, security, ambr);
    forall i | 0 <= i < |fs| ensures Valid(fs[i].val) {
      if i != 7 && i != 8 && i != 9 {
        assert (Atomic(fs[i].val) && !fs[i].val.p.PReal?) || fs[i].val == List([]);
        if Atomic(fs[i].val) { AtomValid(fs[i].val); }
      }
    }
    ValidDoc(fs);
  }

  lemma DocValid(s: Subscriber, ids: Ids)
    ensures Valid(DocOf(s, ids))
  {
    SliceValid(s.lboRoamingAllowed, ids);
    SecurityValid(s);
    AmbrValid();
    DocFieldsValid(s.imsi, Slices(s.lboRoamingAllowed, ids), Security(s), Ambr());
  }

  lemma KeptNames()
    ensures !Dropped("lbo_roaming_allowed") && !Dropped("session") && !Dropped("imsi")
    ensures !Dropped("slice") && !Dropped("security") && !Dropped("k") && !Dropped("opc") && !Dropped("amf")
    ensures Dropped("_id") && Dropped("imeisv") && Dropped("mme_host") && Dropped("mm_realm") && Dropped("purge_flag")
  {
  }

  lemma SessionFieldsAgree(qos: Value, ambr: Value, l: bool, m: bool, x: Value, y: Value)
    requires Valid(qos) && Valid(ambr) && Valid(x)
    ensures Agrees(Doc(SessionFields(qos, ambr, l, x)), Doc(SessionFields(qos, ambr, m, y))) <==> l == m
  {
    var fs, gs := SessionFields(qos, ambr, l, x), SessionFields(qos, ambr, m, y);
    SessionFieldsValid(qos, ambr, l, x);
    KeptNames();
    assert SameKeys(fs, gs);
    if l == m {
      forall i | 0 <= i < |fs| ensures i == 6 || fs[i].val == gs[i].val {}
      assert fs[6].key == "_id";
      AgreesZipFrom(fs, gs);
    }
    if Agrees(Doc(fs), Doc(gs)) {
      AgreesZipTo(fs, gs, 4);
      AgreesAtom(PBool(l), PBool(m));
    }
  }

  lemma SliceFieldsAgree(v: Value, w: Value, x: Value, y: Value)
    requires Valid(v) && Valid(x)
    ensures Agrees(Doc(SliceFields(v, x)), Doc(SliceFields(w, y))) <==> Agrees(v, w)
  {
    var fs, gs := SliceFields(v, x), SliceFields(w, y);
    SliceFieldsValid(v, x);
    KeptNames();
    if Agrees(v, w) {
      forall i | 0 <= i < |fs| && i != 2 ensures Dropped(fs[i].key) || fs[i].val == gs[i].val {}
      AgreesZipFrom(fs, gs);
    }
    if Agrees(Doc(fs), Doc(gs)) { AgreesZipTo(fs, gs, 2); }
  }

  lemma SessionsAgree(l: bool, m: bool, i: string, j: string)
    ensures Valid(List([Session(l, i)])) && Valid(ObjectId(i))
    ensures Agrees(List([Session(l, i)]), List([Session(m, j)])) <==> l == m
  {
    AmbrValid();
    QosValid();
    assert Valid(ObjectId(i));
    SessionValid(l, i);
    SessionFieldsAgree(Qos(), Ambr(), l, m, ObjectId(i), ObjectId(j));
    var v, w := Session(l, i), Session(m, j);
    AgreesSingleton(v, w);
    assert Valid(List([v]));
  }

  /** What the visited core reads of a subscriber depends on the Local Breakout flag alone. */
  lemma SlicesAgree(l: bool, m: bool, i: Ids, j: Ids)
    ensures Agrees(Slices(l, i), Slices(m, j)) <==> l == m
  {
    SessionsAgree(l, m, i.session, j.session);
    var v, w := List([Session(l, i.session)]), List([Session(m, j.session)]);
    assert Valid(ObjectId(i.slice));
    SliceFieldsAgree(v, w, ObjectId(i.slice), ObjectId(j.slice));
    AgreesSingleton(Slice(l, i), Slice(m, j));
  }

  lemma SecurityFieldsAgree(k: string, opc: string, amf: string, k': string, opc': string, amf': string)
    ensures Agrees(Doc(SecurityFields(k, opc, amf)), Doc(SecurityFields(k', opc', amf'))) <==>
      k == k' && opc == opc' && amf == amf'
  {
    var fs, gs := SecurityFields(k, opc, amf), SecurityFields(k', opc', amf');
    assert UniqueKeys(fs);
    KeptNames();
    if k == k' && opc == opc' && amf == amf' { AgreesZipFrom(fs, gs); }
    if Agrees(Doc(fs), Doc(gs)) {
      AgreesZipTo(fs, gs, 0);
      AgreesZipTo(fs, gs, 2);
      AgreesZipTo(fs, gs, 3);
      AgreesAtom(PStr(k), PStr(k'));
      AgreesAtom(PStr(opc), PStr(opc'));
      AgreesAtom(PStr(amf), PStr(amf'));
    }
  }

  lemma DocFieldsUnique(imsi: string, slice: Value, security: Value, ambr: Value)
    ensures UniqueKeys(DocFields(imsi, slice, security, ambr))
  {
  }

  lemma DocFieldsKeys(imsi: string, slice: Value, security: Value, ambr: Value,
                      imsi': string, slice': Value, security': Value)
    ensures var fs, gs := DocFields(imsi, slice, security, ambr), DocFields(imsi', slice', security', ambr);
      |fs| == |gs| == 16 && forall i | 0 <= i < 16 :: fs[i].key == gs[i].key
  {
  }

  lemma DocFieldsShape(imsi: string, slice: Value, security: Value, ambr: Value,
                       imsi': string, slice': Value, security': Value)
    ensures var fs, gs := DocFields(imsi, slice, security, ambr), DocFields(imsi', slice', security', ambr);
      && SameKeys(fs, gs) && |fs| == 16
      && fs[1] == Field("imsi", Text(imsi)) && fs[7] == Field("slice", slice) && fs[8] == Field("security", security)
      && gs[1].val == Text(imsi') && gs[7].val == slice' && gs[8].val == security'
      && forall i | 0 <= i < |fs| :: i == 1 || i == 7 || i == 8 || fs[i].val == gs[i].val
  {
    DocFieldsUnique(imsi, slice, security, ambr);
    DocFieldsKeys(imsi, slice, security, ambr, imsi', slice', security');
  }

  lemma DocFieldsAgree(imsi: string, slice: Value, security: Value, ambr: Value,
                       imsi': string, slice': Value, security': Value)
    requires Valid(slice) && Valid(security) && Valid(ambr)
    ensures Agrees(Doc(DocFields(imsi, slice, security, ambr)), Doc(DocFields(imsi', slice', security', ambr))) <==>
      imsi == imsi' && Agrees(slice, slice') && Agrees(security, security')
  {
    DocFieldsValid(imsi, slice, security, ambr);
    DocFieldsShape(imsi, slice, security, ambr, imsi', slice', security');
    ThreeFieldsAgree(DocFields(imsi, slice, security, ambr), DocFields(imsi', slice', security', ambr));
    AgreesAtom(PStr(imsi), PStr(imsi'));
  }

  lemma ThreeFieldsAgree(fs: seq<Field<Value>>, gs: seq<Field<Value>>)
    requires SameKeys(fs, gs) && |fs| == 16 && forall f | f in fs :: Valid(f.val)
    requires fs[1].key == "imsi" && fs[7].key == "slice" && fs[8].key == "security"
    requires forall i | 0 <= i < |fs| :: i == 1 || i == 7 || i == 8 || fs[i].val == gs[i].val
    ensures Agrees(Doc(fs), Doc(gs)) <==>
      Agrees(fs[1].val, gs[1].val) && Agrees(fs[7].val, gs[7].val) && Agrees(fs[8].val, gs[8].val)
  {
    if Agrees(fs[1].val, gs[1].val) && Agrees(fs[7].val, gs[7].val) && Agrees(fs[8].val, gs[8].val) {
      AgreesZipFrom(fs, gs);
    }
    if Agrees(Doc(fs), Doc(gs)) { DocFieldsAgreeTo(fs, gs); }
  }

  lemma DocFieldsAgreeTo(fs: seq<Field<Value>>, gs: seq<Field<Value>>)
    requires SameKeys(fs, gs) && |fs| == 16 && Agrees(Doc(fs), Doc(gs))
    requires fs[1].key == "imsi" && fs[7].key == "slice" && fs[8].key == "security"
    ensures Agrees(fs[1].val, gs[1].val) && Agrees(fs[7].val, gs[7].val) && Agrees(fs[8].val, gs[8].val)
  {
    KeptNames();
    AgreesZipTo(fs, gs, 1);
    AgreesZipTo(fs, gs, 7);
    AgreesZipTo(fs, gs, 8);
  }

  /** The small letter is the capital one, and any other character is itself. */
  predicate SameLetter(c: char, d: char) {
    || c == d
    || ('a' <= c <= 'z' && 'A' <= d <= 'Z' && c as int - 'a' as int == d as int - 'A' as int)
    || ('a' <= d <= 'z' && 'A' <= c <= 'Z' && d as int - 'a' as int == c as int - 'A' as int)
  }

  predicate SameIgnoringCase(s: string, t: string) {
    |s| == |t| && forall i | 0 <= i < |s| :: SameLetter(s[i], t[i])
  }

  lemma UpperIgnoresCase(s: string, t: string)
    ensures Upper(s) == Upper(t) <==> SameIgnoringCase(s, t)
  {
    if Upper(s) == Upper(t) {
      forall i | 0 <= i < |s| ensures SameLetter(s[i], t[i]) {
        assert Upper(s)[i] == Upper(t)[i];
      }
    }
  }

  /** The same credentials, up to hexadecimal case, and the same roaming policy. */
  predicate SameService(s: Subscriber, t: Subscriber) {
    && s.imsi == t.imsi
    && SameIgnoringCase(s.key, t.key) && SameIgnoringCase(s.opc, t.opc) && SameIgnoringCase(s.amf, t.amf)
    && s.lboRoamingAllowed == t.lboRoamingAllowed
  }

  /** A subscriber's document changes in the eyes of the sync exactly when one of five fields does; the
      generated identifiers, the label, the notes and the creation time are never seen. */
  lemma DocsAgreeIff(s: Subscriber, t: Subscriber, i: Ids, j: Ids)
    ensures Agrees(DocOf(s, i), DocOf(t, j)) <==> SameService(s, t)
  {
    SliceValid(s.lboRoamingAllowed, i);
    SecurityValid(s);
    AmbrValid();
    SlicesAgree(s.lboRoamingAllowed, t.lboRoamingAllowed, i, j);
    SecurityFieldsAgree(Upper(s.key), Upper(s.opc), Upper(s.amf), Upper(t.key), Upper(t.opc), Upper(t.amf));
    UpperIgnoresCase(s.key, t.key);
    UpperIgnoresCase(s.opc, t.opc);
    UpperIgnoresCase(s.amf, t.amf);
    DocFieldsAgree(s.imsi, Slices(s.lboRoamingAllowed, i), Security(s), Ambr(),
                   t.imsi, Slices(t.lboRoamingAllowed, j), Security(t));
  }

  lemma GetAt(fs: seq<Field<Value>>, i: nat)
    requires UniqueKeys(fs) && i < |fs|
    ensures Get(fs, fs[i].key) == Some(fs[i].val)
  {
    assert fs[i] in fs;
    GetMember(fs, fs[i].key);
  }

  lemma GetNone(fs: seq<Field<Value>>, k: string)
    requires forall i | 0 <= i < |fs| :: fs[i].key != k
    ensures Get(fs, k) == None
  {
    GetMember(fs, k);
  }

  lemma DocFieldsLookups(imsi: string, slice: Value, security: Value, ambr: Value)
    ensures var fs := DocFields(imsi, slice, security, ambr);
      && Get(fs, "imsi") == Some(Text(imsi)) && Get(fs, "slice") == Some(slice) && Get(fs, "_id") == None
      && Get(fs, "resccom_inbound_roamer") == None
  {
    var fs := DocFields(imsi, slice, security, ambr);
    DocFieldsShape(imsi, slice, security, ambr, imsi, slice, security);
    GetAt(fs, 1);
    GetAt(fs, 7);
    DocFieldsAbsent(imsi, slice, security, ambr);
  }

  lemma DocFieldsAbsent(imsi: string, slice: Value, security: Value, ambr: Value)
    ensures var fs := DocFields(imsi, slice, security, ambr);
      Get(fs, "_id") == None && Get(fs, "resccom_inbound_roamer") == None
  {
    var fs := DocFields(imsi, slice, security, ambr);
    forall i | 0 <= i < |fs| ensures fs[i].key != "_id" && fs[i].key != "resccom_inbound_roamer" {}
    GetNone(fs, "_id");
    GetNone(fs, "resccom_inbound_roamer");
  }

  lemma DocLookups(s: Subscriber, ids: Ids)
    ensures HasImsi(DocOf(s, ids), s.imsi) && !Marked(DocOf(s, ids)) && Lookup(DocOf(s, ids), "_id") == None
    ensures Lookup(DocOf(s, ids), "slice") == Some(Slices(s.lboRoamingAllowed, ids))
  {
    DocFieldsLookups(s.imsi, Slices(s.lboRoamingAllowed, ids), Security(s), Ambr());
  }
}

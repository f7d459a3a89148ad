/** Inbound roamers: policy-only records that travel from the home island to a visited one. */
module Roaming {
  import opened Results
  import opened Json
  import opened Canonical
  import opened Subscribers
  import opened Collections

  /** A roaming-enabled subscriber's policy; it has no field for a credential. */
  datatype PolicyRecord = PolicyRecord(imsi: string, lboRoamingAllowed: bool)

  datatype RoamingError =
    | NoSuchSubscriber(imsi: string)
    | HomeRouted(imsi: string)
    | Credentialed
    | InvalidImsi
    | Malformed

  function PolicyOf(s: Subscriber): PolicyRecord { PolicyRecord(s.imsi, s.lboRoamingAllowed) }

  // ----- export -----

  /** `by_imsi.get(imsi)`: in a dictionary built from a list the last one wins. */
  function LastRow(subs: seq<Subscriber>, imsi: string): Option<Subscriber> {
    if subs == [] then None
    else if subs[|subs| - 1].imsi == imsi then Some(subs[|subs| - 1])
    else LastRow(subs[..|subs| - 1], imsi)
  }

  function Roamers(subs: seq<Subscriber>): seq<PolicyRecord> {
    if subs == [] then []
    else (if subs[0].lboRoamingAllowed then [PolicyOf(subs[0])] else []) + Roamers(subs[1..])
  }

  function Selected(subs: seq<Subscriber>, imsis: seq<string>): Result<seq<PolicyRecord>, RoamingError> {
    if imsis == [] then Ok([]) else
    match LastRow(subs, imsis[0])
    case None => Err(NoSuchSubscriber(imsis[0]))
    case Some(s) =>
      if !s.lboRoamingAllowed then Err(HomeRouted(imsis[0])) else
      match Selected(subs, imsis[1..])
      case Ok(rest) => Ok([PolicyOf(s)] + rest)
      case Err(e) => Err(e)
  }

  function ExportPolicyRecords(subs: seq<Subscriber>, imsis: Option<seq<string>>)
      : Result<seq<PolicyRecord>, RoamingError> {
    match imsis
    case None => Ok(Roamers(subs))
    case Some(names) => Selected(subs, names)
  }

  function RecordToTree(r: PolicyRecord): Tree {
    Obj([Field("imsi", Str(r.imsi)), Field("lbo_roaming_allowed", Bool(r.lboRoamingAllowed))])
  }

  function RecordsToTrees(rs: seq<PolicyRecord>): (ts: seq<Tree>)
    ensures |ts| == |rs| && forall i | 0 <= i < |rs| :: ts[i] == RecordToTree(rs[i])
  {
    seq(|rs|, i requires 0 <= i < |rs| => RecordToTree(rs[i]))
  }

  /** The content of the export file. */
  function ExportFile(rs: seq<PolicyRecord>): Tree { Obj([Field("records", Arr(RecordsToTrees(rs)))]) }

  // ----- reading an import file -----

  /** `str.lower`, as far as it can produce an ASCII letter: the Kelvin sign lower-cases to `k`. */
  function LowerChar(c: char): char {
    if 'A' <= c <= 'Z' then (c as int + 32) as char else if c == '\U{212A}' then 'k' else c
  }

  function Lower(s: string): string { seq(|s|, i requires 0 <= i < |s| => LowerChar(s[i])) }

  const CREDENTIAL_LIKE_KEYS: set<string> := {"security", "k", "opc", "op", "amf"}

  predicate CarriesCredential(fs: seq<Field<Tree>>) { exists f | f in fs :: Lower(f.key) in CREDENTIAL_LIKE_KEYS }

  /** `str(x)` where it can match fifteen digits: a string, or an integer. */
  function DigitsText(t: Tree): Option<string> {
    match t
    case Str(s) => Some(s)
    case Num(n) => Some(IntText(n))
    case _ => None
  }

  function ValidateRecord(raw: Tree): Result<PolicyRecord, RoamingError> {
    if !raw.Obj? then Err(Malformed)
    else if CarriesCredential(raw.fields) then Err(Credentialed)
    else
      match Get(raw.fields, "imsi")
      case None => Err(InvalidImsi)
      case Some(t) =>
        if !Truthy(t) || DigitsText(t).None? || !IsImsi(DigitsText(t).value) then Err(InvalidImsi)
        else Ok(PolicyRecord(DigitsText(t).value,
          match Get(raw.fields, "lbo_roaming_allowed") case None => true case Some(b) => Truthy(b)))
  }

  function ValidateAll(raws: seq<Tree>): Result<seq<PolicyRecord>, RoamingError> {
    if raws == [] then Ok([]) else
    match ValidateRecord(raws[0])
    case Err(e) => Err(e)
    case Ok(r) =>
      match ValidateAll(raws[1..])
      case Err(e) => Err(e)
      case Ok(rest) => Ok([r] + rest)
  }

  /** A dictionary's `records`, or the document itself; only a list can hold records, and anything else
      either is empty or fails. */
  function ReadImportFile(file: Tree): Result<seq<PolicyRecord>, RoamingError> {
    var raws: Option<Tree> := if file.Obj? then Get(file.fields, "records") else Some(file);
    match raws
    case Some(Arr(items)) => ValidateAll(items)
    case Some(Obj(fields)) => if fields == [] then Ok([]) else Err(Malformed)
    case Some(Str(s)) => if s == "" then Ok([]) else Err(Malformed)
    case _ => Err(Malformed)
  }

  // ----- import -----

  datatype Plmn = Plmn(mcc: string, mnc: string)

  predicate AllDigits(s: string, n: nat) { FitsLength(s, n) && forall i | 0 <= i < n :: IsDigit(s[i]) }

  predicate IsPlmn(p: Plmn) { AllDigits(p.mcc, 3) && (AllDigits(p.mnc, 2) || AllDigits(p.mnc, 3)) }

  function InboundFields(imsi: string, plmn: Value, slice: Value): seq<Field<Value>> {
    [Field("schema_version", Int32(1)), Field("imsi", Text(imsi)), Field("resccom_inbound_roamer", Flag(true)),
     Field("home_plmn", plmn), Field("slice", slice),
     Field("access_restriction_data", Number(32)), Field("network_access_mode", Number(0)),
     Field("subscriber_status", Number(0)), Field("operator_determined_barring", Number(0)),
     Field("subscribed_rau_tau_timer", Number(12)), Field("__v", Number(0))]
  }

  function PlmnValue(p: Plmn): Value { Doc([Field("mcc", Text(p.mcc)), Field("mnc", Text(p.mnc))]) }

  /** The document a visited island holds for a roamer. */
  function InboundDoc(r: PolicyRecord, home: Plmn, ids: Ids): Value {
    Doc(InboundFields(r.imsi, PlmnValue(home), Slices(r.lboRoamingAllowed, ids)))
  }

  /** One element of the script's `recs`, with the identifier an upsert would generate. */
  datatype Inbound = Inbound(imsi: string, doc: Value, id: Value)

  function InboundOf(r: PolicyRecord, home: Plmn, ids: Ids): Inbound {
    Inbound(r.imsi, InboundDoc(r, home, ids), ObjectId(ids.top))
  }

  function InboundsOf(rs: seq<PolicyRecord>, home: Plmn, ids: seq<Ids>): (r: seq<Inbound>)
    ensures |r| == |rs| && forall i | 0 <= i < |r| :: r[i] == InboundOf(rs[i], home, IdAt(ids, i))
  {
    seq(|rs|, i requires 0 <= i < |rs| => InboundOf(rs[i], home, IdAt(ids, i)))
  }

  datatype Tally = Tally(docs: seq<Value>, imported: nat, conflicts: seq<string>)

  function ImportStep(t: Tally, rec: Inbound): Tally {
    match Find(t.docs, rec.imsi)
    case Some(existing) =>
      if !Marked(existing) then t.(conflicts := t.conflicts + [rec.imsi])
      else t.(docs := ReplaceFirst(t.docs, rec.imsi, rec.doc), imported := t.imported + 1)
    case None => t.(docs := t.docs + [WithId(rec.doc, rec.id)], imported := t.imported + 1)
  }

  function ImportLoop(docs: seq<Value>, recs: seq<Inbound>): Tally {
    if recs == [] then Tally(docs, 0, []) else ImportStep(ImportLoop(docs, recs[..|recs| - 1]), recs[|recs| - 1])
  }

  /** The import script, run against `db`. */
  method RunImportScript(db: Collection, recs: seq<Inbound>) returns (imported: nat, conflicts: seq<string>)
    modifies db
    ensures Tally(db.docs, imported, conflicts) == ImportLoop(old(db.docs), recs)
  {
    imported, conflicts := 0, [];
    var i := 0;
    while i < |recs|
      invariant i <= |recs|
      invariant Tally(db.docs, imported, conflicts) == ImportLoop(old(db.docs), recs[..i])
    {
      var rec := recs[i];
      assert recs[..i + 1][..i] == recs[..i];
      var existing := db.FindOne(rec.imsi);
      i := i + 1;
      if existing.Some? && !Marked(existing.value) {
        conflicts := conflicts + [rec.imsi];
        continue;
      }
      if existing.Some? {
        db.ReplaceOne(rec.imsi, rec.doc);
      } else {
        db.InsertOne(rec.doc, rec.id);
      }
      imported := imported + 1;
    }
    assert recs[..i] == recs;
  }

  datatype ImportOutcome = InvalidPlmn | ScriptFailed | Conflicts(imsis: seq<string>) | Imported(count: nat)

  /** A raw newline, which the patterns admit at the end, breaks the script before it does anything. */
  predicate ImportRunnable(rs: seq<PolicyRecord>, home: Plmn) {
    rs != [] ==> '\n' !in home.mcc && '\n' !in home.mnc && forall r | r in rs :: '\n' !in r.imsi
  }

  function DocsAfterImport(docs: seq<Value>, rs: seq<PolicyRecord>, home: Plmn, ids: seq<Ids>): seq<Value> {
    if IsPlmn(home) && ImportRunnable(rs, home) then ImportLoop(docs, InboundsOf(rs, home, ids)).docs else docs
  }

  function ImportOutcomeOf(docs: seq<Value>, rs: seq<PolicyRecord>, home: Plmn, ids: seq<Ids>): ImportOutcome {
    if !IsPlmn(home) then InvalidPlmn
    else if !ImportRunnable(rs, home) then ScriptFailed
    else
      var t := ImportLoop(docs, InboundsOf(rs, home, ids));
      if t.conflicts != [] then Conflicts(t.conflicts) else Imported(t.imported)
  }

  /** `roaming import`: a conflict is reported after the other records were written. */
  method RunImport(db: Collection, rs: seq<PolicyRecord>, home: Plmn, ids: seq<Ids>) returns (r: ImportOutcome)
    modifies db
    ensures db.docs == DocsAfterImport(old(db.docs), rs, home, ids)
    ensures r == ImportOutcomeOf(old(db.docs), rs, home, ids)
  {
    if !IsPlmn(home) { return InvalidPlmn; }
    if !ImportRunnable(rs, home) { return ScriptFailed; }
    var imported, conflicts := RunImportScript(db, InboundsOf(rs, home, ids));
    if conflicts != [] { return Conflicts(conflicts); }
    return Imported(imported);
  }
}

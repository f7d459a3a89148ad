/** Draft documents: what an edit may change, and the checks a candidate has to pass. */
module Drafts {
  import opened Results
  import opened Json
  import opened Signing
  import opened Plans

  // ----- locked identity -----

  /** The fields no edit may change, as the document on disk has them; one that is missing is null. */
  datatype Locked = Locked(id: Tree, fingerprint: Tree, publicKey: Tree, wireguard: Tree)

  /** What there is to lock, or None when reading it raises. */
  function Identity(current: Tree): Option<Locked> {
    if !current.Obj? then None else
    match Get(current.fields, "island")
    case None => None
    case Some(island) =>
      if !island.Obj? then None else
      match Get(island.fields, "overlay")
      case None => Some(LockedIn(island.fields, []))
      case Some(overlay) => if overlay.Obj? then Some(LockedIn(island.fields, overlay.fields)) else None
  }

  function LockedIn(island: seq<Field<Tree>>, overlay: seq<Field<Tree>>): Locked {
    Locked(OrNull(Get(island, "id")), OrNull(Get(island, "signing_key_fingerprint")),
      OrNull(Get(island, "signing_public_key")), OrNull(Get(overlay, "wireguard_public_key")))
  }

  /** `setdefault(k, {})`, which has to be a dictionary to go on. */
  function Child(fs: seq<Field<Tree>>, k: string): Option<seq<Field<Tree>>> {
    match Get(fs, k)
    case None => Some([])
    case Some(t) => if t.Obj? then Some(t.fields) else None
  }

  function LockIsland(island: seq<Field<Tree>>, l: Locked): seq<Field<Tree>> {
    Put(Put(Put(island, "id", l.id), "signing_key_fingerprint", l.fingerprint), "signing_public_key", l.publicKey)
  }

  function Relock(l: Locked, posted: Tree): (candidate: Option<Tree>)
    ensures candidate.Some? ==> candidate.value.Obj?
  {
    if !posted.Obj? then None else
    var fs := Without(posted.fields, "signature");
    match Child(fs, "island")
    case None => None
    case Some(i) =>
      var island := LockIsland(i, l);
      match Child(island, "overlay")
      case None => None
      case Some(o) =>
        var overlay := Put(o, "wireguard_public_key", l.wireguard);
        Some(Obj(Put(fs, "island", Obj(Put(island, "overlay", Obj(overlay))))))
  }

  /** The posted document without its signature and with the identity of the current one; None for an exception. */
  function BuildCandidate(current: Tree, posted: Tree): (candidate: Option<Tree>)
    ensures candidate.Some? ==> candidate.value.Obj?
  {
    match Identity(current)
    case None => None
    case Some(l) => Relock(l, posted)
  }

  /** `c` is unsigned and holds exactly the locked identity. */
  predicate Staged(l: Locked, c: Tree) {
    && c.Obj? && Get(c.fields, "signature").None?
    && var island := OrNull(Get(c.fields, "island"));
    && island.Obj? && HoldsLocked(l, island.fields)
  }

  predicate HoldsLocked(l: Locked, island: seq<Field<Tree>>) {
    && Get(island, "id") == Some(l.id) && Get(island, "signing_key_fingerprint") == Some(l.fingerprint)
    && Get(island, "signing_public_key") == Some(l.publicKey)
    && var overlay := OrNull(Get(island, "overlay"));
    && overlay.Obj? && Get(overlay.fields, "wireguard_public_key") == Some(l.wireguard)
  }

  lemma LockIslandGet(island: seq<Field<Tree>>, l: Locked, k: string)
    ensures Get(LockIsland(island, l), k) ==
            if k == "id" then Some(l.id) else if k == "signing_key_fingerprint" then Some(l.fingerprint)
            else if k == "signing_public_key" then Some(l.publicKey) else Get(island, k)
  {
    var one := Put(island, "id", l.id);
    var two := Put(one, "signing_key_fingerprint", l.fingerprint);
    GetPut(island, "id", l.id, k);
    GetPut(one, "signing_key_fingerprint", l.fingerprint, k);
    GetPut(two, "signing_public_key", l.publicKey, k);
  }

  lemma RelockIsland(island: seq<Field<Tree>>, l: Locked, overlay: Tree, k: string)
    ensures Get(Put(LockIsland(island, l), "overlay", overlay), k) ==
            if k == "overlay" then Some(overlay) else Get(LockIsland(island, l), k)
  {
    GetPut(LockIsland(island, l), "overlay", overlay, k);
  }

  /** Whatever was posted, the candidate is unsigned and has the locked identity. */
  lemma RelockStages(l: Locked, posted: Tree)
    requires Relock(l, posted).Some?
    ensures Staged(l, Relock(l, posted).value)
  {
    var c := Relock(l, posted).value;
    var fs := Without(posted.fields, "signature");
    var i := Child(fs, "island").value;
    var island := LockIsland(i, l);
    var o := Child(island, "overlay").value;
    var overlay := Obj(Put(o, "wireguard_public_key", l.wireguard));
    var locked := Obj(Put(island, "overlay", overlay));
    GetPut(fs, "island", locked, "signature");
    GetPut(fs, "island", locked, "island");
    GetWithout(posted.fields, "signature", "signature");
    GetPut(o, "wireguard_public_key", l.wireguard, "wireguard_public_key");
    RelockIsland(i, l, overlay, "id");
    RelockIsland(i, l, overlay, "signing_key_fingerprint");
    RelockIsland(i, l, overlay, "signing_public_key");
    RelockIsland(i, l, overlay, "overlay");
    LockIslandGet(i, l, "id");
    LockIslandGet(i, l, "signing_key_fingerprint");
    LockIslandGet(i, l, "signing_public_key");
    assert HoldsLocked(l, locked.fields);
  }

  /** Field by field, the candidate's identity is that of the current file. */
  lemma IdentityKept(current: Tree, posted: Tree)
    requires BuildCandidate(current, posted).Some?
    ensures
      var c := BuildCandidate(current, posted).value;
      var was, now := ValueAt(current, "island"), ValueAt(c, "island");
      && ValueAt(c, "signature") == Null && ValueAt(now, "id") == ValueAt(was, "id")
      && ValueAt(now, "signing_key_fingerprint") == ValueAt(was, "signing_key_fingerprint")
      && ValueAt(now, "signing_public_key") == ValueAt(was, "signing_public_key")
      && ValueAt(ValueAt(now, "overlay"), "wireguard_public_key") ==
         ValueAt(ValueAt(was, "overlay"), "wireguard_public_key")
  {
    RelockStages(Identity(current).value, posted);
  }

  lemma LockIslandSame(island: seq<Field<Tree>>, l: Locked)
    requires HoldsLocked(l, island)
    ensures LockIsland(island, l) == island
  {
    PutSame(island, "id", l.id);
    PutSame(island, "signing_key_fingerprint", l.fingerprint);
    PutSame(island, "signing_public_key", l.publicKey);
  }

  /** Locking leaves a document exactly as it is when, and only when, it is a staged one: locking twice is
      locking once. */
  lemma RelockFixesIffStaged(l: Locked, c: Tree)
    ensures Relock(l, c) == Some(c) <==> Staged(l, c)
  {
    if Staged(l, c) {
      var island := Get(c.fields, "island").value.fields;
      var overlay := Get(island, "overlay").value.fields;
      WithoutSame(c.fields, "signature");
      LockIslandSame(island, l);
      PutSame(overlay, "wireguard_public_key", l.wireguard);
      PutSame(island, "overlay", Obj(overlay));
      PutSame(c.fields, "island", Obj(island));
    } else if Relock(l, c) == Some(c) {
      RelockStages(l, c);
    }
  }

  /** Every field that is not locked comes from the posted document. */
  lemma RelockKeepsEdits(l: Locked, posted: Tree, k: string)
    requires Relock(l, posted).Some?
    ensures k !in {"signature", "island"} ==> Get(Relock(l, posted).value.fields, k) == Get(posted.fields, k)
    ensures
      var before := Child(posted.fields, "island");
      var after := Child(Relock(l, posted).value.fields, "island");
      && before.Some? && after.Some?
      && (k !in {"id", "signing_key_fingerprint", "signing_public_key", "overlay"} ==>
            Get(after.value, k) == Get(before.value, k))
      && Child(before.value, "overlay").Some? && Child(after.value, "overlay").Some?
      && (k != "wireguard_public_key" ==>
            Get(Child(after.value, "overlay").value, k) == Get(Child(before.value, "overlay").value, k))
  {
    var fs := Without(posted.fields, "signature");
    var i := Child(fs, "island").value;
    var island := LockIsland(i, l);
    var o := Child(island, "overlay").value;
    var overlay := Obj(Put(o, "wireguard_public_key", l.wireguard));
    var locked := Obj(Put(island, "overlay", overlay));
    GetWithout(posted.fields, "signature", k);
    GetWithout(posted.fields, "signature", "island");
    GetPut(fs, "island", locked, k);
    GetPut(fs, "island", locked, "island");
    GetPut(o, "wireguard_public_key", l.wireguard, k);
    RelockIsland(i, l, overlay, k);
    RelockIsland(i, l, overlay, "overlay");
    LockIslandGet(i, l, k);
    LockIslandGet(i, l, "overlay");
  }

  /** A staged document, signed or not, has the identity it was locked to. */
  lemma StagedIdentity(l: Locked, c: Tree, signature: Tree)
    requires Staged(l, c)
    ensures Identity(c) == Some(l) && Identity(Obj(Put(c.fields, "signature", signature))) == Some(l)
  {
    GetPut(c.fields, "signature", signature, "island");
  }

  /** Building from a built candidate, against any file with the same identity, gives it back: what the console
      staged is what the host builds again. */
  lemma BuildIdempotent(current: Tree, posted: Tree, later: Tree)
    requires BuildCandidate(current, posted).Some? && Identity(later) == Identity(current)
    ensures BuildCandidate(later, BuildCandidate(current, posted).value) == BuildCandidate(current, posted)
  {
    var l := Identity(current).value;
    RelockStages(l, posted);
    RelockFixesIffStaged(l, Relock(l, posted).value);
  }

  // ----- checks -----

  predicate FalsyAt(fs: seq<Field<Tree>>, k: string) {
    !Truthy(OrNull(Get(fs, k)))
  }

  const TEST_MCC := "001"
  const TEST_MNC := "01"
  const TEST_IMSI_PREFIX := "00101"
  const ASSOCIATION_NAME_PLACEHOLDER := "[local association name]"

  /** Lab values a production document must not carry, by the field each is reported at. */
  function ProductionIssues(doc: Tree): Report
    requires doc.Obj?
  {
    if Get(doc.fields, "profile") != Some(Str("production")) then Some([]) else
    match DictAt(doc.fields, "allocations")
    case None => None
    case Some(allocations) =>
      match DictAt(allocations, "plmn")
      case None => None
      case Some(plmn) =>
        Joined(Some(When(Get(plmn, "mcc") == Some(Str(TEST_MCC)) && Get(plmn, "mnc") == Some(Str(TEST_MNC)),
                         "allocations.plmn.mcc")),
          Joined(BlockIssues(OrNull(Get(allocations, "imsi_block"))), OwnerIssues(doc)))
  }

  function BlockIssues(t: Tree): Report {
    if !Truthy(t) then Some([])
    else if t.Str? then Some(When(TEST_IMSI_PREFIX <= t.s, "allocations.imsi_block"))
    else None
  }

  function OwnerIssues(doc: Tree): Report
    requires doc.Obj?
  {
    match DictAt(doc.fields, "island")
    case None => None
    case Some(island) =>
      match DictAt(island, "overlay")
      case None => None
      case Some(overlay) =>
        match DictAt(doc.fields, "services")
        case None => None
        case Some(services) => Some(
          When(FalsyAt(island, "signing_key_fingerprint"), "island.signing_key_fingerprint")
          + When(FalsyAt(overlay, "wireguard_public_key"), "island.overlay.wireguard_public_key")
          + When(FalsyAt(services, "portal_association_name")
              || Get(services, "portal_association_name") == Some(Str(ASSOCIATION_NAME_PLACEHOLDER)),
              "services.portal_association_name")
          + When(FalsyAt(services, "portal_operator_contact"), "services.portal_operator_contact")
          + When(FalsyAt(island, "signing_public_key"), "island.signing_public_key")
          + When(FalsyAt(doc.fields, "signature"), "signature"))
  }

  function SignatureIssues(ed: Ed25519, doc: Tree): Report
    requires doc.Obj?
  {
    if FalsyAt(doc.fields, "signature") then Some([]) else
    match VerifyDocument(ed, doc)
    case Verified => Some([])
    case Crashed => None
    case _ => Some(["signature"])
  }

  /** The JSON Schema validation and the signature scheme. */
  datatype Checks = Checks(schema: Tree -> seq<string>, ed: Ed25519)

  /** Schema first; the semantic checks only for a document of the right shape. */
  function Validate(checks: Checks, doc: Tree): Report
    requires doc.Obj?
  {
    if checks.schema(doc) != [] then Some(checks.schema(doc))
    else Joined(PlanIssues(doc), Joined(ProductionIssues(doc), SignatureIssues(checks.ed, doc)))
  }

  predicate IsProduction(doc: Tree) { doc.Obj? && Get(doc.fields, "profile") == Some(Str("production")) }

  lemma OwnerWantsSignature(doc: Tree)
    requires doc.Obj? && Get(doc.fields, "signature").None?
    ensures OwnerIssues(doc) != Some([])
  {
    var issues := OwnerIssues(doc);
    if issues.Some? {
      assert When(FalsyAt(doc.fields, "signature"), "signature") == ["signature"];
      assert issues.value[|issues.value| - 1] == "signature";
    }
  }

  /** An unsigned production document never validates, so no built candidate that does is a production one. */
  lemma {:induction false} UnsignedProductionRefused(checks: Checks, doc: Tree)
    requires IsProduction(doc) && Get(doc.fields, "signature").None?
    ensures Validate(checks, doc) != Some([])
  {
    OwnerWantsSignature(doc);
  }

  // ----- what validation refuses -----

  /** What a production document may not leave out, by the field it is reported at. */
  predicate GapAt(doc: Tree, f: string)
    requires doc.Obj?
  {
    var island, overlay := ValueAt(doc, "island"), ValueAt(ValueAt(doc, "island"), "overlay");
    var services := ValueAt(doc, "services");
    || (f == "island.signing_key_fingerprint" && !Truthy(ValueAt(island, "signing_key_fingerprint")))
    || (f == "island.overlay.wireguard_public_key" && !Truthy(ValueAt(overlay, "wireguard_public_key")))
    || (f == "services.portal_association_name" &&
        (!Truthy(ValueAt(services, "portal_association_name")) ||
         ValueAt(services, "portal_association_name") == Str("[local association name]")))
    || (f == "services.portal_operator_contact" && !Truthy(ValueAt(services, "portal_operator_contact")))
    || (f == "island.signing_public_key" && !Truthy(ValueAt(island, "signing_public_key")))
    || (f == "signature" && !Truthy(ValueAt(doc, "signature")))
  }

  /** The lab values it may not have. */
  predicate LabValueAt(doc: Tree, f: string)
    requires doc.Obj?
  {
    var plmn := ValueAt(ValueAt(doc, "allocations"), "plmn");
    var block := ValueAt(ValueAt(doc, "allocations"), "imsi_block");
    || (f == "allocations.plmn.mcc" && ValueAt(plmn, "mcc") == Str("001") && ValueAt(plmn, "mnc") == Str("01"))
    || (f == "allocations.imsi_block" && block.Str? && "00101" <= block.s)
  }

  lemma DictFields(fs: seq<Field<Tree>>, k: string, j: string)
    requires DictAt(fs, k).Some?
    ensures OrNull(Get(DictAt(fs, k).value, j)) == ValueAt(OrNull(Get(fs, k)), j)
  {
  }

  lemma InSix(f: string, a: bool, k: string, b: bool, l: string, c: bool, m: string, d: bool, n: string, e: bool,
      o: string, g: bool, p: string)
    ensures f in When(a, k) + When(b, l) + When(c, m) + When(d, n) + When(e, o) + When(g, p) <==>
            (f == k && a) || (f == l && b) || (f == m && c) || (f == n && d) || (f == o && e) || (f == p && g)
  {
  }

  lemma OwnerIssuesMean(doc: Tree, f: string)
    requires doc.Obj? && OwnerIssues(doc).Some?
    ensures f in OwnerIssues(doc).value <==> GapAt(doc, f)
  {
    var island := DictAt(doc.fields, "island").value;
    var overlay := DictAt(island, "overlay").value;
    var services := DictAt(doc.fields, "services").value;
    InSix(f, FalsyAt(island, "signing_key_fingerprint"), "island.signing_key_fingerprint",
      FalsyAt(overlay, "wireguard_public_key"), "island.overlay.wireguard_public_key",
      FalsyAt(services, "portal_association_name")
        || Get(services, "portal_association_name") == Some(Str(ASSOCIATION_NAME_PLACEHOLDER)),
      "services.portal_association_name",
      FalsyAt(services, "portal_operator_contact"), "services.portal_operator_contact",
      FalsyAt(island, "signing_public_key"), "island.signing_public_key",
      FalsyAt(doc.fields, "signature"), "signature");
    DictFields(doc.fields, "island", "signing_key_fingerprint");
    DictFields(doc.fields, "island", "signing_public_key");
    DictFields(island, "overlay", "wireguard_public_key");
    DictFields(doc.fields, "island", "overlay");
    DictFields(doc.fields, "services", "portal_association_name");
    DictFields(doc.fields, "services", "portal_operator_contact");
  }

  /** A production document is refused for exactly the lab values and gaps it has, any other for none. */
  lemma ProductionIssuesMean(doc: Tree, f: string)
    requires doc.Obj? && ProductionIssues(doc).Some?
    ensures f in ProductionIssues(doc).value <==> IsProduction(doc) && (LabValueAt(doc, f) || GapAt(doc, f))
  {
    if IsProduction(doc) {
      OwnerIssuesMean(doc, f);
      var allocations := DictAt(doc.fields, "allocations").value;
      DictFields(doc.fields, "allocations", "plmn");
      DictFields(doc.fields, "allocations", "imsi_block");
      DictFields(allocations, "plmn", "mcc");
      DictFields(allocations, "plmn", "mnc");
    }
  }

  /** A document of the right shape passes exactly when the plan checks, the production check and the signature check
      all do; one of the wrong shape gets the schema's issues alone. */
  lemma ValidatesIff(checks: Checks, doc: Tree)
    requires doc.Obj?
    ensures checks.schema(doc) != [] ==> Validate(checks, doc) == Some(checks.schema(doc))
    ensures Validate(checks, doc) == Some([]) <==>
            && checks.schema(doc) == [] && Readable(doc) && DistinctPcis(doc) && DisjointPrefixes(doc)
            && ProductionIssues(doc) == Some([])
            && (Truthy(ValueAt(doc, "signature")) ==> VerifyDocument(checks.ed, doc) == Verified)
  {
    PlanCleanIff(doc);
  }

  /** What validation lists for a document of the right shape, wherever no check raises. */
  lemma ValidateReports(checks: Checks, doc: Tree, f: string)
    requires doc.Obj? && checks.schema(doc) == [] && Validate(checks, doc).Some?
    ensures f in Validate(checks, doc).value <==>
            || (exists p :: RepeatsPci(doc, p) && f == PciField(p))
            || (f == SERVICES_FIELD && !DisjointPrefixes(doc))
            || (IsProduction(doc) && (LabValueAt(doc, f) || GapAt(doc, f)))
            || (f == "signature" && Truthy(ValueAt(doc, f)) && VerifyDocument(checks.ed, doc) != Verified)
  {
    PciIssuesMean(doc, f);
    OverlapIssuesMean(doc);
    ProductionIssuesMean(doc, f);
  }

  /** An unsigned document passes exactly when it is not a production one, has the right shape and a sound plan. */
  lemma UnsignedPassesIff(checks: Checks, doc: Tree)
    requires doc.Obj? && Get(doc.fields, "signature").None?
    ensures Validate(checks, doc) == Some([]) <==> !IsProduction(doc) && Sound(checks, doc)
  {
    ValidatesIff(checks, doc);
    if IsProduction(doc) {
      UnsignedProductionRefused(checks, doc);
    }
  }

  /** The right shape, cells with different PCIs, and disjoint prefixes. */
  ghost predicate Sound(checks: Checks, doc: Tree) {
    checks.schema(doc) == [] && Readable(doc) && DistinctPcis(doc) && DisjointPrefixes(doc)
  }
}

/** Cross-peering two islands: the copies that name each other, the SEPP addressing each side renders for the
    other, and signing the copies again. */
module Peering {
  import opened Results
  import opened Json
  import opened Signing
  import opened Addressing

  /** `doc[k0][k1]..`; None where that raises. */
  function At(doc: Tree, keys: seq<string>): Option<Tree>
    decreases |keys|
  {
    if keys == [] then Some(doc)
    else if !doc.Obj? || Get(doc.fields, keys[0]).None? then None
    else At(Get(doc.fields, keys[0]).value, keys[1..])
  }

  lemma AtPut(doc: Tree, k: string, v: Tree, keys: seq<string>)
    requires doc.Obj? && keys != []
    ensures At(Obj(Put(doc.fields, k, v)), keys) == if keys[0] == k then At(v, keys[1..]) else At(doc, keys)
  {
    GetPut(doc.fields, k, v, keys[0]);
  }

  // ----- peered copies -----

  const WG_PORT := "51820"

  function PeerEntry(name: Tree, endpoint: string, key: Tree, base: Tree, services: Tree, plmn: Tree): Tree {
    Obj([Field("name", name), Field("endpoint", Str(endpoint)), Field("public_key", key),
         Field("node_internal_base", base), Field("services_prefix", services), Field("plmn", plmn)])
  }

  /** `own` with `peer` as its one peer; None when a field it reads is missing. */
  function BuildPeeredCopy(own: Tree, peer: Tree, peerWanIp: string): (copy: Option<Tree>)
    ensures copy.Some? ==> copy.value.Obj?
  {
    var name, key := At(peer, ["island", "id"]), At(peer, ["island", "overlay", "wireguard_public_key"]);
    var base, services := At(peer, ["node", "internal_base"]), At(peer, ["allocations", "services_prefix"]);
    var plmn := At(peer, ["allocations", "plmn"]);
    var federation := At(own, ["federation"]);
    if name.None? || key.None? || base.None? || services.None? || plmn.None? || federation.None? then None
    else if !federation.value.Obj? then None
    else
      var entry := PeerEntry(name.value, peerWanIp + ":" + WG_PORT, key.value, base.value, services.value, plmn.value);
      Some(WithPeers(own, federation.value.fields, [entry]))
  }

  function WithPeers(own: Tree, federation: seq<Field<Tree>>, peers: seq<Tree>): Tree {
    if own.Obj? then Obj(Put(own.fields, "federation", Obj(Put(federation, "peers", Arr(peers))))) else own
  }

  // ----- SEPP addressing -----

  /** The bundled TLS identity for a PLMN; None where there is none. */
  function SeppCert(plmn: Tree): Option<string> {
    var mcc, mnc := At(plmn, ["mcc"]), At(plmn, ["mnc"]);
    if mcc == Some(Str("999")) && mnc == Some(Str("70")) then Some("sepp1")
    else if mcc == Some(Str("001")) && mnc == Some(Str("01")) then Some("sepp2")
    else None
  }

  /** The two test PLMNs have an identity each, no other has one. */
  lemma CertsOf(plmn: Tree)
    ensures
      var (mcc, mnc) := (ValueAt(plmn, "mcc"), ValueAt(plmn, "mnc"));
      && (SeppCert(plmn) == Some("sepp1") <==> (mcc, mnc) == (Str("999"), Str("70")))
      && (SeppCert(plmn) == Some("sepp2") <==> (mcc, mnc) == (Str("001"), Str("01")))
      && (SeppCert(plmn).Some? ==> SeppCert(plmn).value in {"sepp1", "sepp2"})
  {
    var a, b := "sepp1", "sepp2";
    assert a[4] != b[4];
  }

  /** Where an island's SEPP is and what it calls itself. */
  datatype N32End = N32End(ip: nat, id: string)

  /** The SEPP's fixed address on the core network of this base; None where rendering raises. */
  function SeppIp(parse: Tree -> Option<Net>, base: Option<Tree>): Option<nat> {
    if base.None? then None else
    match parse(base.value)
    case None => None
    case Some(net) =>
      match CoreNet(net)
      case None => None
      case Some(core) => Plus(core.base, NodeOffset(Nf.Sepp))
  }

  function SeppOf(parse: Tree -> Option<Net>, base: Option<Tree>, plmn: Option<Tree>): Option<N32End> {
    if plmn.None? then None else
    match SeppIp(parse, base)
    case None => None
    case Some(ip) =>
      match SeppCert(plmn.value)
      case None => None
      case Some(cert) => Some(N32End(ip, cert + ".localdomain"))
  }

  lemma SeppIpMeans(parse: Tree -> Option<Net>, base: Tree)
    requires parse(base).Some? ==> IsNet(parse(base).value)
    ensures SeppIp(parse, Some(base)) ==
            if parse(base).Some? && parse(base).value.base % 256 == 0 then Some(parse(base).value.base + 16) else None
  {
    if parse(base).Some? {
      CoreNetOf(parse(base).value);
    }
  }

  lemma SeppNames(cert: string)
    ensures cert == "sepp1" ==> cert + ".localdomain" == "sepp1.localdomain"
    ensures cert == "sepp2" ==> cert + ".localdomain" == "sepp2.localdomain"
  {
  }

  /** An island has a SEPP exactly when its base is a prefix with a core network and its PLMN one of the two test
      PLMNs: at the sixteenth address of that network, under that PLMN's name. */
  lemma SeppMeans(parse: Tree -> Option<Net>, base: Tree, plmn: Tree)
    requires parse(base).Some? ==> IsNet(parse(base).value)
    ensures
      var sepp := SeppOf(parse, Some(base), Some(plmn));
      var (mcc, mnc) := (ValueAt(plmn, "mcc"), ValueAt(plmn, "mnc"));
      var home, visited := (mcc, mnc) == (Str("999"), Str("70")), (mcc, mnc) == (Str("001"), Str("01"));
      && (sepp.Some? <==> parse(base).Some? && parse(base).value.base % 256 == 0 && (home || visited))
      && (sepp.Some? ==> sepp.value.ip == parse(base).value.base + 16)
      && (sepp.Some? ==> sepp.value.id == if home then "sepp1.localdomain" else "sepp2.localdomain")
  {
    SeppIpMeans(parse, base);
    CertsOf(plmn);
    if SeppCert(plmn).Some? {
      SeppNames(SeppCert(plmn).value);
    }
  }

  /** What an island renders for a peer: the peer's SEPP address and receiver id; None where it refuses or raises. */
  function PeerSepp(parse: Tree -> Option<Net>, peer: Tree): Option<N32End> {
    SeppOf(parse, At(peer, ["node_internal_base"]), At(peer, ["plmn"]))
  }

  function PeerSepps(parse: Tree -> Option<Net>, raw: seq<Tree>): Option<seq<N32End>> {
    if raw == [] then Some([]) else
    match PeerSepps(parse, raw[..|raw| - 1])
    case None => None
    case Some(peers) =>
      match PeerSepp(parse, raw[|raw| - 1])
      case None => None
      case Some(p) => Some(peers + [p])
  }

  lemma {:induction false} RefusalStays(parse: Tree -> Option<Net>, raw: seq<Tree>, k: nat)
    requires k < |raw| && PeerSepp(parse, raw[k]).None?
    ensures PeerSepps(parse, raw).None?
    decreases |raw|
  {
    var front := raw[..|raw| - 1];
    if k < |front| {
      assert front[k] == raw[k];
      RefusalStays(parse, front, k);
    }
  }

  /** Derives every peer's SEPP, or refuses at the first that has none. */
  method RenderPeers(parse: Tree -> Option<Net>, raw: seq<Tree>) returns (peers: Option<seq<N32End>>)
    ensures peers == PeerSepps(parse, raw)
    ensures peers.Some? <==> forall i | 0 <= i < |raw| :: PeerSepp(parse, raw[i]).Some?
    ensures peers.Some? ==> |peers.value| == |raw|
    ensures peers.Some? ==> forall i | 0 <= i < |raw| :: Some(peers.value[i]) == PeerSepp(parse, raw[i])
  {
    var rendered: seq<N32End> := [];
    for k := 0 to |raw|
      invariant PeerSepps(parse, raw[..k]) == Some(rendered) && |rendered| == k
      invariant forall i | 0 <= i < k :: Some(rendered[i]) == PeerSepp(parse, raw[i])
    {
      assert raw[..k + 1][..k] == raw[..k];
      var p := PeerSepp(parse, raw[k]);
      if p.None? {
        RefusalStays(parse, raw, k);
        return None;
      }
      rendered := rendered + [p.value];
    }
    assert raw[..|raw|] == raw;
    peers := Some(rendered);
  }

  /** The N32 part of an island's rendering: its own SEPP address, its sender id if its PLMN has an identity, and its
      peers. */
  datatype N32 = N32(ip: nat, sender: Option<string>, peers: seq<N32End>)

  /** A PLMN the rest of the rendering can use. */
  predicate IsPlmn(plmn: Tree) {
    At(plmn, ["mcc"]).Some? && At(plmn, ["mnc"]).Some? && At(plmn, ["mnc"]).value.Str?
  }

  /** None where rendering refuses or raises over it; an island with peers must have an identity itself. */
  function RenderN32(parse: Tree -> Option<Net>, doc: Tree): Option<N32> {
    var plmn, raw := At(doc, ["allocations", "plmn"]), At(doc, ["federation", "peers"]);
    var ip := SeppIp(parse, At(doc, ["node", "internal_base"]));
    if plmn.None? || !IsPlmn(plmn.value) || ip.None? || raw.None? || !raw.value.Arr? then None else
    match PeerSepps(parse, raw.value.items)
    case None => None
    case Some(peers) =>
      match SeppCert(plmn.value)
      case None => if peers == [] then Some(N32(ip.value, None, [])) else None
      case Some(cert) => Some(N32(ip.value, Some(cert + ".localdomain"), peers))
  }

  /** Peering changes nothing outside the federation section. */
  lemma PeeringKeeps(own: Tree, peer: Tree, wanIp: string, keys: seq<string>)
    requires BuildPeeredCopy(own, peer, wanIp).Some? && keys != [] && keys[0] != "federation"
    ensures own.Obj? && At(BuildPeeredCopy(own, peer, wanIp).value, keys) == At(own, keys)
  {
    var copy := BuildPeeredCopy(own, peer, wanIp).value;
    var federation := At(own, ["federation"]).value;
    var peers := At(copy, ["federation", "peers"]);
    forall v: Tree ensures At(Obj(Put(own.fields, "federation", v)), keys) == At(own, keys) {
      AtPut(own, "federation", v, keys);
    }
  }

  lemma {:induction false} GetLater(fs: seq<Field<Tree>>, i: nat)
    requires i < |fs| && UniqueKeys(fs)
    ensures Get(fs, fs[i].key) == Some(fs[i].val)
  {
    if i > 0 {
      assert fs[0].key != fs[i].key;
      GetLater(fs[1..], i - 1);
    }
  }

  lemma EntryFields(name: Tree, endpoint: string, key: Tree, base: Tree, services: Tree, plmn: Tree)
    ensures
      var p := PeerEntry(name, endpoint, key, base, services, plmn);
      && p.Obj? && At(p, ["name"]) == Some(name) && At(p, ["endpoint"]) == Some(Str(endpoint))
      && At(p, ["public_key"]) == Some(key) && At(p, ["node_internal_base"]) == Some(base)
      && At(p, ["services_prefix"]) == Some(services) && At(p, ["plmn"]) == Some(plmn)
  {
    var fs := PeerEntry(name, endpoint, key, base, services, plmn).fields;
    GetLater(fs, 0);
    GetLater(fs, 1);
    GetLater(fs, 2);
    GetLater(fs, 3);
    GetLater(fs, 4);
    GetLater(fs, 5);
  }

  lemma PeersAt(own: Tree, federation: seq<Field<Tree>>, peers: seq<Tree>)
    requires own.Obj?
    ensures At(WithPeers(own, federation, peers), ["federation", "peers"]) == Some(Arr(peers))
  {
    var keys := ["federation", "peers"];
    var section := Obj(Put(federation, "peers", Arr(peers)));
    AtPut(own, "federation", section, keys);
    AtPut(Obj(federation), "peers", Arr(peers), keys[1..]);
    assert keys[1..] != [] && keys[1..][1..] == [];
  }

  lemma OnePeer(parse: Tree -> Option<Net>, entry: Tree)
    ensures PeerSepps(parse, [entry]) ==
            if PeerSepp(parse, entry).Some? then Some([PeerSepp(parse, entry).value]) else None
  {
    var raw := [entry];
    assert raw[..|raw| - 1] == [] && raw[|raw| - 1] == entry;
    assert PeerSepps(parse, []) == Some([]);
    var p := PeerSepp(parse, entry);
    if p.Some? {
      assert [] + [p.value] == [p.value];
    }
  }

  /** The SEPP of an island that has one: an address and an identity. */
  function OwnSepp(parse: Tree -> Option<Net>, doc: Tree): Option<N32End> {
    SeppOf(parse, At(doc, ["node", "internal_base"]), At(doc, ["allocations", "plmn"]))
  }

  /** A copy that names one peer renders exactly when both islands have a SEPP, and names the peer's as the peer's own
      base and PLMN give it. */
  lemma CopyRenders(parse: Tree -> Option<Net>, own: Tree, peer: Tree, wanIp: string)
    requires BuildPeeredCopy(own, peer, wanIp).Some?
    ensures
      var (mine, theirs) := (OwnSepp(parse, own), OwnSepp(parse, peer));
      RenderN32(parse, BuildPeeredCopy(own, peer, wanIp).value) ==
        if mine.Some? && theirs.Some? then Some(N32(mine.value.ip, Some(mine.value.id), [theirs.value])) else None
  {
    var entry := EntryOf(own, peer, wanIp);
    PeersAt(own, At(own, ["federation"]).value.fields, [entry]);
    OnePeer(parse, entry);
    PeeringKeeps(own, peer, wanIp, ["node", "internal_base"]);
    PeeringKeeps(own, peer, wanIp, ["allocations", "plmn"]);
    assert PeerSepp(parse, entry) == OwnSepp(parse, peer);
    var plmn := At(own, ["allocations", "plmn"]);
    if plmn.Some? {
      CertPlmn(plmn.value);
    }
  }

  lemma CertPlmn(plmn: Tree)
    ensures SeppCert(plmn).Some? ==> IsPlmn(plmn)
  {
  }

  /** The entry has what the peer's own document says, and the address the peer is reached at. */
  predicate Names(entry: Tree, peer: Tree, wanIp: string) {
    && At(entry, ["name"]) == At(peer, ["island", "id"])
    && At(entry, ["endpoint"]) == Some(Str(wanIp + ":51820"))
    && At(entry, ["public_key"]) == At(peer, ["island", "overlay", "wireguard_public_key"])
    && At(entry, ["node_internal_base"]) == At(peer, ["node", "internal_base"])
    && At(entry, ["services_prefix"]) == At(peer, ["allocations", "services_prefix"])
    && At(entry, ["plmn"]) == At(peer, ["allocations", "plmn"])
  }

  /** A copy has one peer, and names it as the peer names itself. */
  lemma CopyNamesPeer(own: Tree, peer: Tree, wanIp: string)
    requires BuildPeeredCopy(own, peer, wanIp).Some?
    ensures
      var peers := At(BuildPeeredCopy(own, peer, wanIp).value, ["federation", "peers"]);
      && peers.Some? && peers.value.Arr? && |peers.value.items| == 1 && Names(peers.value.items[0], peer, wanIp)
  {
    var entry := EntryOf(own, peer, wanIp);
    PeersAt(own, At(own, ["federation"]).value.fields, [entry]);
  }

  /** The one entry a copy has. */
  lemma EntryOf(own: Tree, peer: Tree, wanIp: string) returns (entry: Tree)
    requires BuildPeeredCopy(own, peer, wanIp).Some?
    ensures own.Obj? && At(own, ["federation"]).Some? && At(own, ["federation"]).value.Obj?
    ensures BuildPeeredCopy(own, peer, wanIp).value ==
            WithPeers(own, At(own, ["federation"]).value.fields, [entry])
    ensures Names(entry, peer, wanIp)
  {
    var name, key := At(peer, ["island", "id"]).value, At(peer, ["island", "overlay", "wireguard_public_key"]).value;
    var base, services := At(peer, ["node", "internal_base"]).value, At(peer, ["allocations", "services_prefix"]).value;
    var plmn := At(peer, ["allocations", "plmn"]).value;
    var endpoint := wanIp + ":" + WG_PORT;
    entry := PeerEntry(name, endpoint, key, base, services, plmn);
    EntryFields(name, endpoint, key, base, services, plmn);
    assert endpoint == wanIp + ":51820";
  }

  lemma {:induction false} AtWellFormed(doc: Tree, keys: seq<string>)
    requires WellFormed(doc) && At(doc, keys).Some?
    ensures WellFormed(At(doc, keys).value)
    decreases |keys|
  {
    if keys != [] {
      GetMember(doc.fields, keys[0]);
      AtWellFormed(Get(doc.fields, keys[0]).value, keys[1..]);
    }
  }

  lemma EntryWellFormed(name: Tree, endpoint: string, key: Tree, base: Tree, services: Tree, plmn: Tree)
    requires WellFormed(name) && WellFormed(key) && WellFormed(base) && WellFormed(services) && WellFormed(plmn)
    ensures WellFormed(PeerEntry(name, endpoint, key, base, services, plmn))
  {
  }

  lemma PutWellFormed(fs: seq<Field<Tree>>, k: string, v: Tree)
    requires WellFormed(Obj(fs)) && WellFormed(v)
    ensures WellFormed(Obj(Put(fs, k, v)))
  {
    PutMembers(fs, k, v);
  }

  lemma CopyWellFormed(own: Tree, peer: Tree, wanIp: string)
    requires BuildPeeredCopy(own, peer, wanIp).Some? && WellFormed(own) && WellFormed(peer)
    ensures WellFormed(BuildPeeredCopy(own, peer, wanIp).value)
  {
    var name, key := At(peer, ["island", "id"]).value, At(peer, ["island", "overlay", "wireguard_public_key"]).value;
    var base, services := At(peer, ["node", "internal_base"]).value, At(peer, ["allocations", "services_prefix"]).value;
    var plmn := At(peer, ["allocations", "plmn"]).value;
    var entry := PeerEntry(name, wanIp + ":" + WG_PORT, key, base, services, plmn);
    AtWellFormed(peer, ["island", "id"]);
    AtWellFormed(peer, ["island", "overlay", "wireguard_public_key"]);
    AtWellFormed(peer, ["node", "internal_base"]);
    AtWellFormed(peer, ["allocations", "services_prefix"]);
    AtWellFormed(peer, ["allocations", "plmn"]);
    EntryWellFormed(name, wanIp + ":" + WG_PORT, key, base, services, plmn);
    AtWellFormed(own, ["federation"]);
    var federation := At(own, ["federation"]).value.fields;
    assert WellFormed(Obj(federation));
    var peers := Arr([entry]);
    PutWellFormed(federation, "peers", peers);
    PutWellFormed(own.fields, "federation", Obj(Put(federation, "peers", peers)));
  }

  /** Two islands peered with each other: either both copies render or neither does, and then what each renders for
      the other's SEPP, address and receiver id, is the address and sender id the other renders for itself. */
  lemma PeersAgree(parse: Tree -> Option<Net>, a: Tree, b: Tree, aWanIp: string, bWanIp: string)
    requires BuildPeeredCopy(a, b, bWanIp).Some? && BuildPeeredCopy(b, a, aWanIp).Some?
    ensures
      var x := RenderN32(parse, BuildPeeredCopy(a, b, bWanIp).value);
      var y := RenderN32(parse, BuildPeeredCopy(b, a, aWanIp).value);
      && (x.Some? <==> y.Some?)
      && (x.Some? ==>
        && x.value.sender.Some? && y.value.sender.Some?
        && x.value.peers == [N32End(y.value.ip, y.value.sender.value)]
        && y.value.peers == [N32End(x.value.ip, x.value.sender.value)])
  {
    CopyRenders(parse, a, b, bWanIp);
    CopyRenders(parse, b, a, aWanIp);
  }

  // ----- signing again -----

  datatype Resigning = Resigned(doc: Tree) | KeyMismatch | Raised

  /** A signed copy is signed again with the island's key, which has to be the one whose fingerprint it declares. */
  function ResignIfNeeded(ed: Ed25519, parseKey: string -> Option<string>, fingerprintOf: string -> string, doc: Tree,
      keys: map<string, string>): Resigning
    requires doc.Obj?
  {
    if !Signed(doc) then Resigned(doc) else
    var id, fingerprint := At(doc, ["island", "id"]), At(doc, ["island", "signing_key_fingerprint"]);
    if id.None? || !id.value.Str? || fingerprint.None? || id.value.s !in keys then Raised else
    match parseKey(keys[id.value.s])
    case None => Raised
    case Some(k) =>
      var own := Str(fingerprintOf(ed.publicOf(k)));
      if own != fingerprint.value then KeyMismatch else Resigned(WithSignature(ed, doc, Keypair(k, own)))
  }

  predicate Signed(doc: Tree)
    requires doc.Obj?
  {
    var signature := Get(doc.fields, "signature");
    signature.Some? && Truthy(signature.value)
  }

  /** The document declares a public key and that key's fingerprint. */
  predicate Consistent(fingerprintOf: string -> string, doc: Tree, publicKey: string) {
    DeclaresKey(doc, publicKey) && At(doc, ["island", "signing_key_fingerprint"]) == Some(Str(fingerprintOf(publicKey)))
  }

  ghost predicate Distinguishes(fingerprintOf: string -> string) {
    forall p, q | fingerprintOf(p) == fingerprintOf(q) :: p == q
  }

  /** An unsigned document comes back as it is. A signed one is signed again exactly when the key file of its island
      is there, decodes and has the fingerprint it declares; a different fingerprint is refused, the rest raises. */
  lemma ResignsIff(ed: Ed25519, parseKey: string -> Option<string>, fingerprintOf: string -> string, doc: Tree,
      keys: map<string, string>)
    requires doc.Obj?
    ensures
      var r := ResignIfNeeded(ed, parseKey, fingerprintOf, doc, keys);
      var island := ValueAt(doc, "island");
      var id := ValueAt(island, "id");
      var k := if id.Str? && id.s in keys then parseKey(keys[id.s]) else None;
      var declares := island.Obj? && Get(island.fields, "signing_key_fingerprint").Some?;
      var own := k.Some? && ValueAt(island, "signing_key_fingerprint") == Str(fingerprintOf(ed.publicOf(k.value)));
      && (!Truthy(ValueAt(doc, "signature")) ==> r == Resigned(doc))
      && (Truthy(ValueAt(doc, "signature")) ==>
            && (r.Resigned? <==> own)
            && (own ==> r.doc == WithSignature(ed, doc, Keypair(k.value, ValueAt(island, "signing_key_fingerprint"))))
            && (r.KeyMismatch? <==> k.Some? && declares && !own))
  {
    IslandAt(doc, "id");
    IslandAt(doc, "signing_key_fingerprint");
  }

  lemma IslandAt(doc: Tree, k: string)
    requires doc.Obj?
    ensures At(doc, ["island", k]) ==
            if ValueAt(doc, "island").Obj? then Get(ValueAt(doc, "island").fields, k) else None
  {
    var keys := ["island", k];
    assert keys[1..] == [k] && [k][1..] == [];
    var island := ValueAt(doc, "island");
    assert island.Obj? ==> At(doc, keys) == At(island, [k]);
    assert island.Obj? && Get(island.fields, k).Some? ==> At(island, [k]) == At(Get(island.fields, k).value, []);
  }

  /** A peered copy of a signed island, signed again, verifies, and is the copy under a new signature. */
  lemma ResignedCopyVerifies(ed: Ed25519, parseKey: string -> Option<string>, fingerprintOf: string -> string,
      own: Tree, peer: Tree, wanIp: string, keys: map<string, string>, publicKey: string)
    requires Lawful(ed) && Distinguishes(fingerprintOf)
    requires BuildPeeredCopy(own, peer, wanIp).Some?
    requires own.Obj? && Signed(own) && Consistent(fingerprintOf, own, publicKey)
    requires ResignIfNeeded(ed, parseKey, fingerprintOf, BuildPeeredCopy(own, peer, wanIp).value, keys).Resigned?
    ensures
      var copy := BuildPeeredCopy(own, peer, wanIp).value;
      var doc := ResignIfNeeded(ed, parseKey, fingerprintOf, copy, keys).doc;
      doc.Obj? && VerifyDocument(ed, doc) == Verified && Unsigned(doc) == Unsigned(copy)
  {
    var copy := BuildPeeredCopy(own, peer, wanIp).value;
    PeeringKeeps(own, peer, wanIp, ["signature"]);
    PeeringKeeps(own, peer, wanIp, ["island"]);
    PeeringKeeps(own, peer, wanIp, ["island", "signing_key_fingerprint"]);
    SectionKept(own, copy, "signature");
    SectionKept(own, copy, "island");
    var k := parseKey(keys[At(copy, ["island", "id"]).value.s]).value;
    assert ed.publicOf(k) == publicKey;
    var pair := Keypair(k, Str(fingerprintOf(publicKey)));
    SignThenVerify(ed, copy, pair);
    WithoutPut(copy.fields, "signature", SignDocument(ed, copy, pair));
  }

  lemma SectionKept(own: Tree, copy: Tree, k: string)
    requires own.Obj? && copy.Obj? && At(copy, [k]) == At(own, [k])
    ensures Get(copy.fields, k) == Get(own.fields, k)
  {
    assert [k][1..] == [];
  }

  lemma BlockWellFormed(ed: Ed25519, doc: Tree, pair: Keypair)
    requires doc.Obj? && WellFormed(pair.fingerprint)
    ensures WellFormed(SignDocument(ed, doc, pair))
  {
  }

  /** Left with its old signature, a peered copy verifies exactly when peering changed nothing that is signed. */
  lemma StaleSignatureShows(ed: Ed25519, base: Tree, pair: Keypair, peer: Tree, wanIp: string)
    requires Lawful(ed) && WellFormed(base) && WellFormed(peer) && WellFormed(pair.fingerprint)
    requires DeclaresKey(base, ed.publicOf(pair.privateKey))
    requires BuildPeeredCopy(WithSignature(ed, base, pair), peer, wanIp).Some?
    ensures
      var copy := BuildPeeredCopy(WithSignature(ed, base, pair), peer, wanIp).value;
      VerifyDocument(ed, copy) == Verified <==> Same(Unsigned(copy), Unsigned(base))
  {
    var own := WithSignature(ed, base, pair);
    var copy := BuildPeeredCopy(own, peer, wanIp).value;
    SignatureLookups(ed, base, pair);
    BlockWellFormed(ed, base, pair);
    PutWellFormed(base.fields, "signature", SignDocument(ed, base, pair));
    CopyWellFormed(own, peer, wanIp);
    PeeringKeeps(own, peer, wanIp, ["signature"]);
    PeeringKeeps(own, peer, wanIp, ["island"]);
    SectionKept(own, copy, "signature");
    SectionKept(own, copy, "island");
    TamperingShows(ed, base, pair, copy);
  }
}

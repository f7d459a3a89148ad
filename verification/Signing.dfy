/** The signature over an island document: its canonical payload, signing and verifying. */
module Signing {
  import opened Results
  import opened Json

  /** `data` minus its own signature block, as compact sorted-key JSON in ASCII. */
  function CanonicalPayload(doc: Tree): string
    requires doc.Obj?
  {
    Serialize(Python, Unsigned(doc))
  }

  function Unsigned(doc: Tree): Tree
    requires doc.Obj?
  {
    Obj(Without(doc.fields, "signature"))
  }

  datatype Check = Good | Bad | MalformedInput

  /** The signature scheme on base64 texts: the public half of a private key, signing, and checking. */
  datatype Ed25519 = Ed25519(
    publicOf: string -> string,
    sign: (string, string) -> string,
    check: (string, string, string) -> Check)

  /** What a key signed checks under its public half, and for that payload only. */
  ghost predicate Lawful(ed: Ed25519) {
    && (forall k: string, m: string :: ed.check(ed.publicOf(k), m, ed.sign(k, m)) == Good)
    && (forall k: string, m: string, m': string :: ed.check(ed.publicOf(k), m', ed.sign(k, m)) == Good ==> m' == m)
    && (forall k: string :: ed.publicOf(k) != "")
  }

  datatype Keypair = Keypair(privateKey: string, fingerprint: Tree)

  function SignDocument(ed: Ed25519, doc: Tree, pair: Keypair): Tree
    requires doc.Obj?
  {
    Obj([Field("algorithm", Str("ed25519")), Field("public_key_fingerprint", pair.fingerprint),
         Field("value", Str(ed.sign(pair.privateKey, CanonicalPayload(doc))))])
  }

  function WithSignature(ed: Ed25519, doc: Tree, pair: Keypair): Tree
    requires doc.Obj?
  {
    Obj(Put(doc.fields, "signature", SignDocument(ed, doc, pair)))
  }

  // ----- verifying -----

  /** `Crashed` stands for an exception nothing on the way catches. */
  datatype Verdict = Verified | Unsupported | NoPublicKey | MalformedSignature | Mismatch | Crashed

  /** `t or {}` as a dictionary, when it is one. */
  function Dict(t: Tree): Option<seq<Field<Tree>>> {
    if !Truthy(t) then Some([]) else if t.Obj? then Some(t.fields) else None
  }

  /** `x.get(k) or {}`. */
  function DictAt(fs: seq<Field<Tree>>, k: string): Option<seq<Field<Tree>>> {
    Dict(OrNull(Get(fs, k)))
  }

  function VerifyDocument(ed: Ed25519, doc: Tree): Verdict
    requires doc.Obj?
  {
    match DictAt(doc.fields, "signature")
    case None => Crashed
    case Some(sig) =>
      if Get(sig, "algorithm") != Some(Str("ed25519")) then Unsupported else
      match DictAt(doc.fields, "island")
      case None => Crashed
      case Some(island) => CheckedWith(ed, doc, sig, Get(island, "signing_public_key"))
  }

  function CheckedWith(ed: Ed25519, doc: Tree, sig: seq<Field<Tree>>, key: Option<Tree>): Verdict
    requires doc.Obj?
  {
    if key.None? || !Truthy(key.value) then NoPublicKey
    else if !key.value.Str? then Crashed
    else
      match Get(sig, "value")
      case None => MalformedSignature
      case Some(v) =>
        if !v.Str? then Crashed else
        match ed.check(key.value.s, CanonicalPayload(doc), v.s)
        case Good => Verified
        case Bad => Mismatch
        case MalformedInput => MalformedSignature
  }

  /** When a signed document gets which verdict, in the order of precedence. */
  lemma VerdictMeans(ed: Ed25519, doc: Tree)
    requires doc.Obj? && ValueAt(doc, "signature").Obj?
    ensures
      var sig, island := ValueAt(doc, "signature"), ValueAt(doc, "island");
      var key, value := ValueAt(island, "signing_public_key"), ValueAt(sig, "value");
      var declared := ValueAt(sig, "algorithm") == Str("ed25519") && (!Truthy(island) || island.Obj?);
      var verdict := VerifyDocument(ed, doc);
      && (verdict == Unsupported <==> ValueAt(sig, "algorithm") != Str("ed25519"))
      && (verdict == NoPublicKey <==> declared && !Truthy(key))
      && (verdict == Verified <==>
            declared && Truthy(key) && key.Str? && value.Str? &&
            ed.check(key.s, CanonicalPayload(doc), value.s) == Good)
      && (verdict == Mismatch <==>
            declared && Truthy(key) && key.Str? && value.Str? &&
            ed.check(key.s, CanonicalPayload(doc), value.s) == Bad)
      && (verdict == MalformedSignature <==>
            declared && Truthy(key) && key.Str? &&
            (Get(sig.fields, "value").None? ||
             (value.Str? && ed.check(key.s, CanonicalPayload(doc), value.s) == MalformedInput)))
  {
    var sig := ValueAt(doc, "signature");
    assert sig.fields == [] ==> Get(sig.fields, "algorithm").None? && Get(sig.fields, "value").None?;
  }

  // ----- what the payload covers -----

  lemma {:induction false} WithoutPut<T>(fs: seq<Field<T>>, k: string, v: T)
    ensures Without(Put(fs, k, v), k) == Without(fs, k)
  {
    if fs == [] {
      assert [Field(k, v)][1..] == [];
    } else if fs[0].key == k {
      assert ([Field(k, v)] + fs[1..])[1..] == fs[1..];
    } else {
      WithoutPut(fs[1..], k, v);
      assert ([fs[0]] + Put(fs[1..], k, v))[1..] == Put(fs[1..], k, v);
    }
  }

  lemma UnsignedWellFormed(doc: Tree)
    requires doc.Obj? && WellFormed(doc)
    ensures WellFormed(Unsigned(doc))
  {
    WithoutMembers(doc.fields, "signature");
  }

  /** Two documents have the same payload exactly when they are the same JSON value outside their signature
      blocks, in whatever order their keys are written. */
  lemma PayloadEqualIffSame(doc: Tree, other: Tree)
    requires doc.Obj? && other.Obj? && WellFormed(doc) && WellFormed(other)
    ensures CanonicalPayload(doc) == CanonicalPayload(other) <==> Same(Unsigned(doc), Unsigned(other))
  {
    UnsignedWellFormed(doc);
    UnsignedWellFormed(other);
    SerializeEqualIffSame(Python, Unsigned(doc), Unsigned(other));
  }

  /** Attaching a signature does not change what is signed. */
  lemma SigningKeepsPayload(ed: Ed25519, doc: Tree, pair: Keypair)
    requires doc.Obj?
    ensures CanonicalPayload(WithSignature(ed, doc, pair)) == CanonicalPayload(doc)
  {
    WithoutPut(doc.fields, "signature", SignDocument(ed, doc, pair));
  }

  predicate DeclaresKey(doc: Tree, publicKey: string) {
    && doc.Obj? && Get(doc.fields, "island").Some? && Get(doc.fields, "island").value.Obj?
    && Get(Get(doc.fields, "island").value.fields, "signing_public_key") == Some(Str(publicKey))
  }

  lemma BlockLookups(f: Field<Tree>, g: Field<Tree>, h: Field<Tree>)
    requires f.key == "algorithm" && g.key == "public_key_fingerprint" && h.key == "value"
    ensures Get([f, g, h], "algorithm") == Some(f.val) && Get([f, g, h], "value") == Some(h.val)
    ensures Get([f, g, h], "public_key_fingerprint") == Some(g.val)
  {
    assert [f, g, h][1..] == [g, h] && [g, h][1..] == [h];
    assert Get([g, h], "value") == Some(h.val);
  }

  lemma SignatureLookups(ed: Ed25519, doc: Tree, pair: Keypair)
    requires doc.Obj?
    ensures
      var sig := SignDocument(ed, doc, pair).fields;
      && Get(sig, "algorithm") == Some(Str("ed25519")) && Get(sig, "public_key_fingerprint") == Some(pair.fingerprint)
      && Get(sig, "value") == Some(Str(ed.sign(pair.privateKey, CanonicalPayload(doc))))
    ensures
      var sig := SignDocument(ed, doc, pair);
      && Truthy(sig) && Get(WithSignature(ed, doc, pair).fields, "signature") == Some(sig)
    ensures Get(WithSignature(ed, doc, pair).fields, "island") == Get(doc.fields, "island")
  {
    var sig := SignDocument(ed, doc, pair);
    BlockLookups(sig.fields[0], sig.fields[1], sig.fields[2]);
    assert sig.fields == [sig.fields[0], sig.fields[1], sig.fields[2]];
    assert sig.fields != [];
    GetPut(doc.fields, "signature", sig, "signature");
    GetPut(doc.fields, "signature", sig, "island");
  }

  /** Signing with the key whose public half the document declares, attaching and verifying succeeds. */
  lemma SignThenVerify(ed: Ed25519, doc: Tree, pair: Keypair)
    requires Lawful(ed) && DeclaresKey(doc, ed.publicOf(pair.privateKey))
    ensures VerifyDocument(ed, WithSignature(ed, doc, pair)) == Verified
  {
    SignatureLookups(ed, doc, pair);
    SigningKeepsPayload(ed, doc, pair);
    VerdictOnBlock(ed, WithSignature(ed, doc, pair), SignDocument(ed, doc, pair), pair, CanonicalPayload(doc));
  }

  /** The verdict on a document that carries a block the key made over `payload`. */
  lemma VerdictOnBlock(ed: Ed25519, other: Tree, block: Tree, pair: Keypair, payload: string)
    requires Lawful(ed) && DeclaresKey(other, ed.publicOf(pair.privateKey))
    requires block.Obj? && Truthy(block) && Get(other.fields, "signature") == Some(block)
    requires Get(block.fields, "algorithm") == Some(Str("ed25519"))
    requires Get(block.fields, "value") == Some(Str(ed.sign(pair.privateKey, payload)))
    ensures VerifyDocument(ed, other) == Verified <==> CanonicalPayload(other) == payload
  {
    var island := Get(other.fields, "island").value;
    GetMember(island.fields, "signing_public_key");
    assert DictAt(other.fields, "island") == Some(island.fields);
    assert VerifyDocument(ed, other) ==
      CheckedWith(ed, other, block.fields, Some(Str(ed.publicOf(pair.privateKey))));
  }

  /** A document that carries another's signature block and declares the same key verifies exactly when it is
      the same JSON value outside that block. */
  lemma TamperingShows(ed: Ed25519, doc: Tree, pair: Keypair, other: Tree)
    requires Lawful(ed) && WellFormed(doc) && DeclaresKey(doc, ed.publicOf(pair.privateKey))
    requires WellFormed(other) && DeclaresKey(other, ed.publicOf(pair.privateKey))
    requires Get(other.fields, "signature") == Some(SignDocument(ed, doc, pair))
    ensures VerifyDocument(ed, other) == Verified <==> Same(Unsigned(other), Unsigned(doc))
  {
    SignatureLookups(ed, doc, pair);
    PayloadEqualIffSame(other, doc);
    VerdictOnBlock(ed, other, SignDocument(ed, doc, pair), pair, CanonicalPayload(doc));
  }
}

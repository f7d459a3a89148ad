/** The encrypted local store: an IMSI-keyed table behind an authenticated file. */
module Store {
  import opened Results
  import opened Json
  import opened Subscribers

  type Bytes = seq<bv8>

  datatype StoreError = NotAStore | WrongPassphrase | Exists(imsi: string) | Conflict(imsi: string)
    | InvalidRow(imsi: string)

  // ----- the table -----

  predicate HasRow(rows: seq<Subscriber>, imsi: string) { exists s | s in rows :: s.imsi == imsi }

  function RowOf(rows: seq<Subscriber>, imsi: string): Option<Subscriber> {
    if rows == [] then None else if rows[0].imsi == imsi then Some(rows[0]) else RowOf(rows[1..], imsi)
  }

  /** Everything but the creation time. */
  predicate SameRow(s: Subscriber, t: Subscriber) { s == t.(createdAt := s.createdAt) }

  function SetLbo(rows: seq<Subscriber>, imsi: string, allowed: bool): seq<Subscriber> {
    if rows == [] then []
    else
      var first := if rows[0].imsi == imsi then rows[0].(lboRoamingAllowed := allowed) else rows[0];
      [first] + SetLbo(rows[1..], imsi, allowed)
  }

  function RemoveRow(rows: seq<Subscriber>, imsi: string): seq<Subscriber> {
    if rows == [] then []
    else (if rows[0].imsi == imsi then [] else [rows[0]]) + RemoveRow(rows[1..], imsi)
  }

  datatype Op =
    | Add(sub: Subscriber)
    | AddIfMissing(sub: Subscriber)
    | Edit(imsi: string, allowed: bool)
    | Remove(imsi: string)

  /** The rows after the operation, and what it returns; an error leaves nothing to write back. */
  function Apply(rows: seq<Subscriber>, op: Op): Result<(seq<Subscriber>, bool), StoreError> {
    match op
    case Add(s) => if HasRow(rows, s.imsi) then Err(Exists(s.imsi)) else Ok((rows + [s], true))
    case AddIfMissing(s) =>
      (match RowOf(rows, s.imsi)
       case None => Ok((rows + [s], true))
       case Some(t) => if SameRow(t, s) then Ok((rows, false)) else Err(Conflict(s.imsi)))
    case Edit(imsi, allowed) => Ok((SetLbo(rows, imsi, allowed), HasRow(rows, imsi)))
    case Remove(imsi) => Ok((RemoveRow(rows, imsi), HasRow(rows, imsi)))
  }

  function RowsAfter(rows: seq<Subscriber>, op: Op): seq<Subscriber> {
    match Apply(rows, op)
    case Ok(r) => r.0
    case Err(_) => rows
  }

  // ----- the file -----

  /** A table as it was serialized: one written before the roaming column has rows without it. */
  datatype Table = Current(rows: seq<Subscriber>) | Legacy(unmarked: seq<LegacyRow>)

  datatype LegacyRow = LegacyRow(imsi: string, key: string, opc: string, tag: string, notes: string, amf: string,
    createdAt: string)

  /** The column added by the migration defaults to true. */
  function WithDefault(r: LegacyRow): Subscriber {
    Subscriber(r.imsi, r.key, r.opc, r.tag, r.notes, r.amf, true, r.createdAt)
  }

  function Migrated(t: Table): seq<Subscriber> {
    match t
    case Current(rows) => rows
    case Legacy(rows) => seq(|rows|, i requires 0 <= i < |rows| => WithDefault(rows[i]))
  }

  /** The database file format, the key derivation and the authenticated cipher, as functions. */
  datatype Primitives = Primitives(
    encode: Table -> Bytes, decode: Bytes -> Table,
    derive: (string, Bytes) -> Bytes,
    seal: (Bytes, Bytes, Bytes) -> Bytes,
    open: (Bytes, Bytes, Bytes) -> Option<Bytes>)

  ghost predicate Lawful(p: Primitives) {
    && (forall t: Table :: p.decode(p.encode(t)) == t)
    && (forall k: Bytes, n: Bytes, x: Bytes :: p.open(k, n, p.seal(k, n, x)) == Some(x))
    && (forall k: Bytes, k': Bytes, n: Bytes, x: Bytes :: k != k' ==> p.open(k', n, p.seal(k, n, x)) == None)
  }

  const MAGIC: Bytes := [0x52, 0x45, 0x53, 0x43, 0x53, 0x49, 0x4D, 0x31]
  const SALT_LEN := 16
  const NONCE_LEN := 12

  /** Python's slice, which stops at the end of a short blob. */
  function Cut(b: Bytes, lo: nat, hi: nat): Bytes
    requires lo <= hi
  {
    b[if lo < |b| then lo else |b| .. if hi < |b| then hi else |b|]
  }

  datatype Randomness = Randomness(salt: Bytes, nonce: Bytes)

  predicate IsRandomness(r: Randomness) { |r.salt| == SALT_LEN && |r.nonce| == NONCE_LEN }

  function Encrypt(p: Primitives, plaintext: Bytes, passphrase: string, r: Randomness): Bytes {
    MAGIC + r.salt + r.nonce + p.seal(p.derive(passphrase, r.salt), r.nonce, plaintext)
  }

  function Decrypt(p: Primitives, blob: Bytes, passphrase: string): Result<Bytes, StoreError> {
    if Cut(blob, 0, |MAGIC|) != MAGIC then Err(NotAStore) else
    var salt := Cut(blob, 8, 8 + SALT_LEN);
    var nonce := Cut(blob, 8 + SALT_LEN, 8 + SALT_LEN + NONCE_LEN);
    var ciphertext := Cut(blob, 8 + SALT_LEN + NONCE_LEN, if |blob| < 36 then 36 else |blob|);
    match p.open(p.derive(passphrase, salt), nonce, ciphertext)
    case Some(x) => Ok(x)
    case None => Err(WrongPassphrase)
  }

  /** The framing puts every part back where decryption looks for it. */
  lemma DecryptEncrypt(p: Primitives, x: Bytes, passphrase: string, r: Randomness, other: string)
    requires Lawful(p) && IsRandomness(r)
    ensures Decrypt(p, Encrypt(p, x, passphrase, r), passphrase) == Ok(x)
    ensures p.derive(other, r.salt) != p.derive(passphrase, r.salt) ==>
      Decrypt(p, Encrypt(p, x, passphrase, r), other) == Err(WrongPassphrase)
  {
    var c := p.seal(p.derive(passphrase, r.salt), r.nonce, x);
    var b := Encrypt(p, x, passphrase, r);
    assert b == MAGIC + (r.salt + (r.nonce + c));
    assert Cut(b, 0, 8) == MAGIC && Cut(b, 8, 24) == r.salt && Cut(b, 24, 36) == r.nonce;
    assert Cut(b, 36, |b|) == c;
  }

  /** The bytes of "RESCSIM1". */
  predicate BeginsAsStore(blob: Bytes) {
    && |blob| >= 8
    && blob[0] == 0x52 && blob[1] == 0x45 && blob[2] == 0x53 && blob[3] == 0x43
    && blob[4] == 0x53 && blob[5] == 0x49 && blob[6] == 0x4D && blob[7] == 0x31
  }

  lemma MagicBegins(blob: Bytes)
    ensures Cut(blob, 0, |MAGIC|) == MAGIC <==> BeginsAsStore(blob)
  {
    if |blob| >= 8 {
      var c := Cut(blob, 0, |MAGIC|);
      assert |c| == 8 && forall i | 0 <= i < 8 :: c[i] == blob[i];
      assert BeginsAsStore(blob) ==> forall i | 0 <= i < 8 :: c[i] == MAGIC[i];
      assert c == MAGIC ==> forall i | 0 <= i < 8 :: blob[i] == MAGIC[i];
    }
  }

  /** An encrypted file is those bytes, sixteen of salt, twelve of nonce, and what was sealed under both. */
  lemma EncryptLayout(p: Primitives, x: Bytes, passphrase: string, r: Randomness)
    requires IsRandomness(r)
    ensures var b := Encrypt(p, x, passphrase, r);
      && BeginsAsStore(b) && |b| >= 36 && b[8..24] == r.salt && b[24..36] == r.nonce
      && b[36..] == p.seal(p.derive(passphrase, r.salt), r.nonce, x)
  {
    var c := p.seal(p.derive(passphrase, r.salt), r.nonce, x);
    var b := Encrypt(p, x, passphrase, r);
    assert b == MAGIC + (r.salt + (r.nonce + c));
    assert Cut(b, 0, 8) == MAGIC;
    MagicBegins(b);
  }

  /** Decryption refuses every file that does not begin with those bytes as no store, and gives plaintext exactly
      when the parts after them open to it. */
  lemma DecryptIff(p: Primitives, blob: Bytes, passphrase: string, x: Bytes)
    ensures Decrypt(p, blob, passphrase) == Err(NotAStore) <==> !BeginsAsStore(blob)
    ensures |blob| >= 36 ==>
      (Decrypt(p, blob, passphrase) == Ok(x) <==>
        BeginsAsStore(blob) && p.open(p.derive(passphrase, blob[8..24]), blob[24..36], blob[36..]) == Some(x))
    ensures Decrypt(p, blob, passphrase).Err? && BeginsAsStore(blob) ==>
      Decrypt(p, blob, passphrase) == Err(WrongPassphrase)
  {
    MagicBegins(blob);
    if |blob| >= 36 {
      assert Cut(blob, 8, 24) == blob[8..24] && Cut(blob, 24, 36) == blob[24..36];
      assert Cut(blob, 36, |blob|) == blob[36..];
    }
  }

  /** What opening the store reads: an empty table when there is no file. */
  function Load(p: Primitives, file: Option<Bytes>, passphrase: string): Result<seq<Subscriber>, StoreError> {
    match file
    case None => Ok([])
    case Some(blob) =>
      match Decrypt(p, blob, passphrase)
      case Ok(x) => Ok(Migrated(p.decode(x)))
      case Err(e) => Err(e)
  }

  function Saved(p: Primitives, rows: seq<Subscriber>, passphrase: string, r: Randomness): Bytes {
    Encrypt(p, p.encode(Current(rows)), passphrase, r)
  }

  lemma LoadSaved(p: Primitives, rows: seq<Subscriber>, passphrase: string, r: Randomness)
    requires Lawful(p) && IsRandomness(r)
    ensures Load(p, Some(Saved(p, rows, passphrase, r)), passphrase) == Ok(rows)
  {
    DecryptEncrypt(p, p.encode(Current(rows)), passphrase, r, passphrase);
  }

  /** The file after one operation, which rewrites it unless something failed. */
  function FileAfter(p: Primitives, file: Option<Bytes>, passphrase: string, op: Op, r: Randomness): Option<Bytes> {
    match Load(p, file, passphrase)
    case Err(_) => file
    case Ok(rows) =>
      match Apply(rows, op)
      case Ok(done) => Some(Saved(p, done.0, passphrase, r))
      case Err(_) => file
  }

  function Returned(p: Primitives, file: Option<Bytes>, passphrase: string, op: Op): Result<bool, StoreError> {
    match Load(p, file, passphrase)
    case Err(e) => Err(e)
    case Ok(rows) =>
      match Apply(rows, op)
      case Ok(done) => Ok(done.1)
      case Err(e) => Err(e)
  }

  // ----- listing -----

  /** `ORDER BY created_at`, in the byte order of the text. */
  function InsertByTime(s: Subscriber, rows: seq<Subscriber>): (r: seq<Subscriber>)
    ensures multiset(r) == multiset(rows) + multiset{s}
  {
    if rows == [] || !Before(Python, rows[0].createdAt, s.createdAt) then [s] + rows
    else
      assert rows == [rows[0]] + rows[1..];
      [rows[0]] + InsertByTime(s, rows[1..])
  }

  function ListAll(rows: seq<Subscriber>): (r: seq<Subscriber>)
    ensures multiset(r) == multiset(rows)
  {
    if rows == [] then []
    else
      assert rows == [rows[0]] + rows[1..];
      InsertByTime(rows[0], ListAll(rows[1..]))
  }

  lemma {:induction false} InsertByTimeDistinct(s: Subscriber, rows: seq<Subscriber>)
    requires DistinctImsis(rows) && forall t | t in rows :: t.imsi != s.imsi
    ensures DistinctImsis(InsertByTime(s, rows))
    ensures forall t :: t in InsertByTime(s, rows) <==> t == s || t in rows
  {
    if rows == [] || !Before(Python, rows[0].createdAt, s.createdAt) {
    } else {
      InsertByTimeDistinct(s, rows[1..]);
      var r := InsertByTime(s, rows[1..]);
      assert rows == [rows[0]] + rows[1..];
      forall i | 0 <= i < |r| ensures r[i].imsi != rows[0].imsi {
        assert r[i] in r;
        if r[i] != s {
          var j :| 0 <= j < |rows[1..]| && rows[1..][j] == r[i];
          assert rows[j + 1] == r[i];
        }
      }
    }
  }

  /** Listing reorders the rows and nothing else. */
  lemma {:induction false} ListAllRows(rows: seq<Subscriber>)
    requires DistinctImsis(rows)
    ensures DistinctImsis(ListAll(rows)) && forall s :: s in ListAll(rows) <==> s in rows
  {
    if rows != [] {
      ListAllRows(rows[1..]);
      assert rows == [rows[0]] + rows[1..];
      forall t | t in ListAll(rows[1..]) ensures t.imsi != rows[0].imsi {
        var j :| 0 <= j < |rows[1..]| && rows[1..][j] == t;
        assert rows[j + 1] == t;
      }
      InsertByTimeDistinct(rows[0], ListAll(rows[1..]));
    }
  }

  /** Rows in the order of their creation times. */
  predicate InOrder(rows: seq<Subscriber>) {
    forall i | 0 < i < |rows| :: !Before(Python, rows[i].createdAt, rows[i - 1].createdAt)
  }

  lemma {:induction false} InsertByTimeInOrder(s: Subscriber, rows: seq<Subscriber>)
    requires InOrder(rows)
    ensures InOrder(InsertByTime(s, rows))
    ensures InsertByTime(s, rows)[0] == s || (rows != [] && InsertByTime(s, rows)[0] == rows[0])
  {
    if rows != [] && Before(Python, rows[0].createdAt, s.createdAt) {
      InsertByTimeInOrder(s, rows[1..]);
      BeforeTrichotomy(Python, rows[0].createdAt, s.createdAt);
    }
  }

  lemma {:induction false} ListAllInOrder(rows: seq<Subscriber>)
    ensures InOrder(ListAll(rows))
  {
    if rows != [] {
      ListAllInOrder(rows[1..]);
      InsertByTimeInOrder(rows[0], ListAll(rows[1..]));
    }
  }

  predicate AllValid(rows: seq<Subscriber>) { forall s | s in rows :: ValidSubscriber(s) }

  // ----- the store object -----

  class SubscriberStore {
    const prims: Primitives
    const passphrase: string
    var file: Option<Bytes>

    constructor (p: Primitives, path: Option<Bytes>, pass: string)
      ensures prims == p && passphrase == pass && file == path
    {
      prims, passphrase, file := p, pass, path;
    }

    method WithDb(op: Op, r: Randomness) returns (result: Result<bool, StoreError>)
      modifies this
      ensures file == FileAfter(prims, old(file), passphrase, op, r)
      ensures result == Returned(prims, old(file), passphrase, op)
    {
      var loaded := Load(prims, file, passphrase);
      match loaded {
        case Err(e) => return Err(e);
        case Ok(rows) =>
          match Apply(rows, op) {
            case Err(e) => return Err(e);
            case Ok(done) =>
              file := Some(Saved(prims, done.0, passphrase, r));
              return Ok(done.1);
          }
      }
    }

    /** Lists every row once, in order; each is built anew, which raises at the first the field rules refuse. */
    method List() returns (result: Result<seq<Subscriber>, StoreError>)
      ensures Load(prims, file, passphrase).Err? ==> result == Load(prims, file, passphrase)
      ensures Load(prims, file, passphrase).Ok? ==>
        var rows := Load(prims, file, passphrase).value;
        if AllValid(rows) then result == Ok(ListAll(rows)) && multiset(result.value) == multiset(rows)
        else exists s | s in rows :: !ValidSubscriber(s) && result == Err(InvalidRow(s.imsi))
    {
      var loaded := Load(prims, file, passphrase);
      if loaded.Err? { return loaded; }
      var rows, listed := ListAll(loaded.value), [];
      SameElements(rows, loaded.value);
      for i := 0 to |rows|
        invariant listed == rows[..i] && AllValid(listed)
      {
        assert rows[i] in rows;
        if !ValidSubscriber(rows[i]) {
          return Err(InvalidRow(rows[i].imsi));
        }
        listed := listed + [rows[i]];
      }
      assert rows[..|rows|] == rows;
      assert forall s | s in loaded.value :: s in rows;
      return Ok(listed);
    }
  }

  lemma SameElements(a: seq<Subscriber>, b: seq<Subscriber>)
    requires multiset(a) == multiset(b)
    ensures forall s :: s in a <==> s in b
  {
    forall s ensures s in a <==> s in b {
      assert s in a <==> s in multiset(a);
      assert s in b <==> s in multiset(b);
    }
  }

  // ----- runs -----

  predicate IsOp(op: Op) { (op.Add? || op.AddIfMissing?) ==> ValidSubscriber(op.sub) }

  lemma {:induction false} RowOfMember(rows: seq<Subscriber>, imsi: string)
    ensures RowOf(rows, imsi).Some? <==> HasRow(rows, imsi)
    ensures RowOf(rows, imsi).Some? ==> RowOf(rows, imsi).value in rows && RowOf(rows, imsi).value.imsi == imsi
    ensures DistinctImsis(rows) ==> forall s | s in rows && s.imsi == imsi :: RowOf(rows, imsi) == Some(s)
  {
    if rows != [] {
      RowOfMember(rows[1..], imsi);
      assert rows == [rows[0]] + rows[1..];
      if DistinctImsis(rows) && rows[0].imsi == imsi {
        forall s | s in rows && s.imsi == imsi ensures s == rows[0] {
          var i :| 0 <= i < |rows| && rows[i] == s;
        }
      }
    }
  }

  lemma {:induction false} SetLboRows(rows: seq<Subscriber>, imsi: string, allowed: bool)
    ensures var r := SetLbo(rows, imsi, allowed);
      |r| == |rows| && forall i | 0 <= i < |rows| ::
        r[i] == if rows[i].imsi == imsi then rows[i].(lboRoamingAllowed := allowed) else rows[i]
  {
    if rows != [] { SetLboRows(rows[1..], imsi, allowed); }
  }

  lemma {:induction false} RemoveRowRows(rows: seq<Subscriber>, imsi: string)
    ensures forall s :: s in RemoveRow(rows, imsi) <==> s in rows && s.imsi != imsi
    ensures DistinctImsis(rows) ==> DistinctImsis(RemoveRow(rows, imsi))
  {
    if rows != [] {
      RemoveRowRows(rows[1..], imsi);
      assert rows == [rows[0]] + rows[1..];
      var r := RemoveRow(rows[1..], imsi);
      if DistinctImsis(rows) {
        forall j | 0 <= j < |r| ensures r[j].imsi != rows[0].imsi {
          assert r[j] in rows[1..];
          var i :| 0 <= i < |rows[1..]| && rows[1..][i] == r[j];
          assert rows[i + 1] == r[j];
        }
      }
    }
  }

  lemma AppendKeeps(rows: seq<Subscriber>, s: Subscriber)
    requires DistinctImsis(rows) && AllValid(rows) && ValidSubscriber(s) && !HasRow(rows, s.imsi)
    ensures DistinctImsis(rows + [s]) && AllValid(rows + [s])
  {
    forall i | 0 <= i < |rows| ensures rows[i].imsi != s.imsi {
      assert rows[i] in rows;
    }
  }

  lemma EditKeeps(rows: seq<Subscriber>, imsi: string, allowed: bool)
    requires DistinctImsis(rows) && AllValid(rows)
    ensures DistinctImsis(SetLbo(rows, imsi, allowed)) && AllValid(SetLbo(rows, imsi, allowed))
  {
    var after := SetLbo(rows, imsi, allowed);
    SetLboRows(rows, imsi, allowed);
    forall s | s in after ensures ValidSubscriber(s) {
      var i :| 0 <= i < |after| && after[i] == s;
      assert rows[i] in rows;
    }
  }

  /** Every operation keeps the table keyed by IMSI and its rows acceptable to the field rules, so listing
      the store never fails. */
  lemma ApplyKeeps(rows: seq<Subscriber>, op: Op)
    requires DistinctImsis(rows) && AllValid(rows) && IsOp(op)
    ensures DistinctImsis(RowsAfter(rows, op)) && AllValid(RowsAfter(rows, op))
  {
    match op {
      case Add(s) => if !HasRow(rows, s.imsi) { AppendKeeps(rows, s); }
      case AddIfMissing(s) =>
        RowOfMember(rows, s.imsi);
        if !HasRow(rows, s.imsi) { AppendKeeps(rows, s); }
      case Edit(imsi, allowed) => EditKeeps(rows, imsi, allowed);
      case Remove(imsi) => RemoveRowRows(rows, imsi);
    }
  }

  /** The table as a map from IMSI to subscriber. */
  function AsMap(rows: seq<Subscriber>): map<string, Subscriber> {
    if rows == [] then map[] else AsMap(rows[1..])[rows[0].imsi := rows[0]]
  }

  /** The operation on the map, with no file, no rows and no order. */
  function MapAfter(m: map<string, Subscriber>, op: Op): map<string, Subscriber> {
    match op
    case Add(s) => if s.imsi in m then m else m[s.imsi := s]
    case AddIfMissing(s) => if s.imsi in m then m else m[s.imsi := s]
    case Edit(imsi, allowed) => if imsi in m then m[imsi := m[imsi].(lboRoamingAllowed := allowed)] else m
    case Remove(imsi) => m - {imsi}
  }

  /** What the caller gets back, read off the map. */
  function MapReturned(m: map<string, Subscriber>, op: Op): Result<bool, StoreError> {
    match op
    case Add(s) => if s.imsi in m then Err(Exists(s.imsi)) else Ok(true)
    case AddIfMissing(s) =>
      if s.imsi !in m then Ok(true) else if SameRow(m[s.imsi], s) then Ok(false) else Err(Conflict(s.imsi))
    case Edit(imsi, _) => Ok(imsi in m)
    case Remove(imsi) => Ok(imsi in m)
  }

  predicate SameButTime(s: Subscriber, t: Subscriber) {
    && s.imsi == t.imsi && s.key == t.key && s.opc == t.opc && s.amf == t.amf && s.tag == t.tag && s.notes == t.notes
    && s.lboRoamingAllowed == t.lboRoamingAllowed
  }

  predicate HasTwin(rows: seq<Subscriber>, s: Subscriber) { exists t | t in rows :: SameButTime(s, t) }

  /** Adding if missing inserts a subscriber whose IMSI is new, tolerates one that is there with every field but the
      creation time the same, and refuses one that differs in any. */
  lemma AddIfMissingMeans(rows: seq<Subscriber>, s: Subscriber)
    requires DistinctImsis(rows)
    ensures Apply(rows, AddIfMissing(s)) ==
            if !HasRow(rows, s.imsi) then Ok((rows + [s], true))
            else if HasTwin(rows, s) then Ok((rows, false)) else Err(Conflict(s.imsi))
  {
    RowOfMember(rows, s.imsi);
  }

  lemma {:induction false} AsMapRow(rows: seq<Subscriber>, imsi: string)
    ensures imsi in AsMap(rows) <==> HasRow(rows, imsi)
    ensures RowOf(rows, imsi) == if imsi in AsMap(rows) then Some(AsMap(rows)[imsi]) else None
  {
    if rows != [] {
      AsMapRow(rows[1..], imsi);
      assert rows == [rows[0]] + rows[1..];
    }
  }

  lemma AsMapBy(rows: seq<Subscriber>, m: map<string, Subscriber>)
    requires DistinctImsis(rows) && forall s | s in rows :: s.imsi in m && m[s.imsi] == s
    requires forall imsi | imsi in m :: HasRow(rows, imsi)
    ensures AsMap(rows) == m
  {
    forall imsi ensures imsi in AsMap(rows) <==> imsi in m {
      AsMapRow(rows, imsi);
    }
    forall imsi | imsi in m ensures AsMap(rows)[imsi] == m[imsi] {
      AsMapRow(rows, imsi);
      RowOfMember(rows, imsi);
    }
  }

  lemma AsMapHas(rows: seq<Subscriber>)
    requires DistinctImsis(rows)
    ensures forall s | s in rows :: s.imsi in AsMap(rows) && AsMap(rows)[s.imsi] == s
    ensures forall imsi | imsi in AsMap(rows) :: HasRow(rows, imsi)
  {
    forall s | s in rows ensures s.imsi in AsMap(rows) && AsMap(rows)[s.imsi] == s {
      AsMapRow(rows, s.imsi);
      RowOfMember(rows, s.imsi);
    }
    forall imsi | imsi in AsMap(rows) ensures HasRow(rows, imsi) {
      AsMapRow(rows, imsi);
    }
  }

  lemma {:induction false} EditIsMapEdit(rows: seq<Subscriber>, imsi: string, allowed: bool)
    ensures AsMap(SetLbo(rows, imsi, allowed)) == MapAfter(AsMap(rows), Edit(imsi, allowed))
  {
    if rows != [] {
      EditIsMapEdit(rows[1..], imsi, allowed);
      assert SetLbo(rows, imsi, allowed)[1..] == SetLbo(rows[1..], imsi, allowed);
    }
  }

  lemma RemoveIsMapRemove(rows: seq<Subscriber>, imsi: string)
    requires DistinctImsis(rows)
    ensures AsMap(RemoveRow(rows, imsi)) == MapAfter(AsMap(rows), Remove(imsi))
  {
    var r, m := RemoveRow(rows, imsi), MapAfter(AsMap(rows), Remove(imsi));
    AsMapHas(rows);
    RemoveRowRows(rows, imsi);
    forall x | x in m ensures HasRow(r, x) {
      assert HasRow(rows, x);
      var s :| s in rows && s.imsi == x;
      assert s in r;
    }
    AsMapBy(r, m);
  }

  lemma AppendIsMapInsert(rows: seq<Subscriber>, s: Subscriber)
    requires DistinctImsis(rows) && !HasRow(rows, s.imsi)
    ensures AsMap(rows + [s]) == AsMap(rows)[s.imsi := s]
  {
    AsMapHas(rows);
    AsMapRow(rows, s.imsi);
    forall i | 0 <= i < |rows| ensures rows[i].imsi != s.imsi {
      assert rows[i] in rows;
    }
    forall x | x in AsMap(rows)[s.imsi := s] ensures HasRow(rows + [s], x) {
      if x == s.imsi {
        assert s in rows + [s];
      } else {
        var t :| t in rows && t.imsi == x;
        assert t in rows + [s];
      }
    }
    AsMapBy(rows + [s], AsMap(rows)[s.imsi := s]);
  }

  /** The table refines the map, in what it becomes and in what it answers. */
  lemma TableRefinesMap(rows: seq<Subscriber>, op: Op)
    requires DistinctImsis(rows)
    ensures AsMap(RowsAfter(rows, op)) == MapAfter(AsMap(rows), op)
    ensures match Apply(rows, op)
      case Ok(done) => MapReturned(AsMap(rows), op) == Ok(done.1)
      case Err(e) => MapReturned(AsMap(rows), op) == Err(e)
  {
    match op {
      case Add(s) =>
        AsMapRow(rows, s.imsi);
        if !HasRow(rows, s.imsi) { AppendIsMapInsert(rows, s); }
      case AddIfMissing(s) =>
        AsMapRow(rows, s.imsi);
        if !HasRow(rows, s.imsi) { AppendIsMapInsert(rows, s); }
      case Edit(imsi, allowed) =>
        AsMapRow(rows, imsi);
        EditIsMapEdit(rows, imsi, allowed);
      case Remove(imsi) =>
        AsMapRow(rows, imsi);
        RemoveIsMapRemove(rows, imsi);
    }
  }

  function FileRun(p: Primitives, file: Option<Bytes>, passphrase: string, ops: seq<Op>,
      rs: seq<Randomness>): Option<Bytes>
    requires |ops| == |rs|
    decreases ops
  {
    if ops == [] then file else FileRun(p, FileAfter(p, file, passphrase, ops[0], rs[0]), passphrase, ops[1..], rs[1..])
  }

  function MapRun(m: map<string, Subscriber>, ops: seq<Op>): map<string, Subscriber>
    decreases ops
  {
    if ops == [] then m else MapRun(MapAfter(m, ops[0]), ops[1..])
  }

  /** Any run of operations on the encrypted file, reopened with the same passphrase, reads back the map the
      run computes, in rows that the field rules accept. */
  lemma {:induction false} FileRefinesMap(p: Primitives, file: Option<Bytes>, passphrase: string, ops: seq<Op>,
      rs: seq<Randomness>)
    requires Lawful(p) && |ops| == |rs|
    requires (forall r | r in rs :: IsRandomness(r)) && forall op | op in ops :: IsOp(op)
    requires Load(p, file, passphrase).Ok?
    requires DistinctImsis(Load(p, file, passphrase).value) && AllValid(Load(p, file, passphrase).value)
    ensures var end := Load(p, FileRun(p, file, passphrase, ops, rs), passphrase);
      && end.Ok? && DistinctImsis(end.value) && AllValid(end.value)
      && AsMap(end.value) == MapRun(AsMap(Load(p, file, passphrase).value), ops)
    decreases ops
  {
    if ops != [] {
      var rows := Load(p, file, passphrase).value;
      assert ops[0] in ops && rs[0] in rs;
      ApplyKeeps(rows, ops[0]);
      TableRefinesMap(rows, ops[0]);
      LoadSaved(p, RowsAfter(rows, ops[0]), passphrase, rs[0]);
      FileRefinesMap(p, FileAfter(p, file, passphrase, ops[0], rs[0]), passphrase, ops[1..], rs[1..]);
    }
  }

  /** Whatever was done to a store that began empty, opening it with its passphrase works and every row of it passes
      the field rules, which is when listing does not raise. */
  lemma ListingNeverRaises(p: Primitives, passphrase: string, ops: seq<Op>, rs: seq<Randomness>)
    requires Lawful(p) && |ops| == |rs|
    requires (forall r | r in rs :: IsRandomness(r)) && forall op | op in ops :: IsOp(op)
    ensures var end := Load(p, FileRun(p, None, passphrase, ops, rs), passphrase);
      end.Ok? && AllValid(end.value) && DistinctImsis(ListAll(end.value)) && AsMap(end.value) == MapRun(map[], ops)
  {
    FileRefinesMap(p, None, passphrase, ops, rs);
    var end := Load(p, FileRun(p, None, passphrase, ops, rs), passphrase).value;
    assert AsMap([]) == map[];
    ListAllRows(end);
  }

  /** One operation on the file: a refusal leaves the very same bytes; a success leaves a file that reads
      back as the operation's result, and the caller is told what the map says. */
  lemma OperationOnFile(p: Primitives, file: Option<Bytes>, passphrase: string, op: Op, r: Randomness)
    requires Lawful(p) && IsRandomness(r)
    requires Load(p, file, passphrase).Ok? ==> DistinctImsis(Load(p, file, passphrase).value)
    ensures Returned(p, file, passphrase, op).Err? ==> FileAfter(p, file, passphrase, op, r) == file
    ensures Returned(p, file, passphrase, op).Ok? ==>
      && Load(p, file, passphrase).Ok?
      && var m := AsMap(Load(p, file, passphrase).value);
         && Returned(p, file, passphrase, op) == MapReturned(m, op)
         && Load(p, FileAfter(p, file, passphrase, op, r), passphrase).Ok?
         && AsMap(Load(p, FileAfter(p, file, passphrase, op, r), passphrase).value) == MapAfter(m, op)
  {
    if Load(p, file, passphrase).Ok? {
      var rows := Load(p, file, passphrase).value;
      TableRefinesMap(rows, op);
      LoadSaved(p, RowsAfter(rows, op), passphrase, r);
    }
  }

  /** A store saved under one passphrase answers nothing and changes nothing under another. */
  lemma WrongPassphraseKeepsBytes(p: Primitives, rows: seq<Subscriber>, passphrase: string, other: string,
                                  r: Randomness, op: Op, r': Randomness)
    requires Lawful(p) && IsRandomness(r) && p.derive(other, r.salt) != p.derive(passphrase, r.salt)
    ensures var file := Some(Saved(p, rows, passphrase, r));
      && Returned(p, file, other, op) == Err(WrongPassphrase)
      && FileAfter(p, file, other, op, r') == file
  {
    DecryptEncrypt(p, p.encode(Current(rows)), passphrase, r, other);
  }

  /** A file that is no store answers nothing and is never overwritten, whatever the passphrase and the operation. */
  lemma OtherFileKept(p: Primitives, blob: Bytes, passphrase: string, op: Op, r: Randomness)
    requires !BeginsAsStore(blob)
    ensures Returned(p, Some(blob), passphrase, op) == Err(NotAStore)
    ensures FileAfter(p, Some(blob), passphrase, op, r) == Some(blob)
  {
    DecryptIff(p, blob, passphrase, []);
  }

  /** A file of the older schema opens with every field kept and every row on Local Breakout. */
  lemma LegacyFileLoads(p: Primitives, rows: seq<LegacyRow>, passphrase: string, r: Randomness, i: nat)
    requires Lawful(p) && IsRandomness(r) && i < |rows|
    ensures var read := Load(p, Some(Encrypt(p, p.encode(Legacy(rows)), passphrase, r)), passphrase);
      && read.Ok? && |read.value| == |rows|
      && var s := read.value[i];
         s.lboRoamingAllowed && LegacyRow(s.imsi, s.key, s.opc, s.tag, s.notes, s.amf, s.createdAt) == rows[i]
  {
    DecryptEncrypt(p, p.encode(Legacy(rows)), passphrase, r, passphrase);
  }
}

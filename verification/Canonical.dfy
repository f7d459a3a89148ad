/** The comparison text `canon` that decides whether a subscriber document is rewritten. */
module Canonical {
  import opened Json

  datatype Prim = PBool(b: bool) | PNum(n: int) | PReal(lit: string) | PNonFinite | PStr(s: string)

  /** A value as mongosh sees it.  `Boxed` is an object whose `valueOf` gives a primitive, as the
      numeric wrappers of a read-back document do. */
  datatype Value =
    | Undefined
    | Nil
    | Scalar(p: Prim)
    | Boxed(p: Prim)
    | List(items: seq<Value>)
    | Doc(fields: seq<Field<Value>>)

  const IGNORED_KEYS: set<string> := {"_id", "imeisv", "sqn", "mme_host", "mm_realm", "purge_flag"}

  /** Keys that do not reach `out`: the ignored ones, and `__proto__`, whose assignment sets the
      prototype of `out` instead of creating a key. */
  predicate Dropped(k: string) { k in IGNORED_KEYS || k == "__proto__" }

  // ----- the two functions of the script -----

  function Normalize(v: Value): Value
    decreases v, 1
  {
    match v
    case List(items) => List(NormalizeAll(items))
    case Boxed(p) => Scalar(p)
    case Doc(fields) => Doc(NormalizeFields(fields))
    case _ => v
  }

  function NormalizeAll(items: seq<Value>): (r: seq<Value>)
    ensures |r| == |items| && forall i | 0 <= i < |r| :: r[i] == Normalize(items[i])
    decreases items, 0
  {
    if items == [] then [] else [Normalize(items[0])] + NormalizeAll(items[1..])
  }

  function NormalizeFields(fs: seq<Field<Value>>): (r: seq<Field<Value>>)
    decreases fs, 0
  {
    if fs == [] then []
    else if Dropped(fs[0].key) then NormalizeFields(fs[1..])
    else [Field(fs[0].key, Normalize(fs[0].val))] + NormalizeFields(fs[1..])
  }

  /** `JSON.stringify` of a primitive. */
  function Stringify(p: Prim): string {
    match p
    case PBool(b) => if b then "true" else "false"
    case PNum(n) => IntText(n)
    case PReal(lit) => lit
    case PNonFinite => "null"
    case PStr(s) => WriteString(EcmaScript, s, "")
  }

  /** `v = normalize(v)` at every level, then the text: each level normalizes again. */
  function Canon(v: Value): string
    decreases Size(v), 1, 0
  {
    NormalizeShrinks(v);
    match Normalize(v)
    case Undefined => "null"
    case Nil => "null"
    case List(items) => "[" + JoinItems(items, 0) + "]"
    case Doc(fields) => SortShrinks(fields); "{" + JoinFields(Sort(EcmaScript, fields), 0) + "}"
    case Scalar(p) => Stringify(p)
    case Boxed(p) => Stringify(p)
  }

  /** `map(canon).join(",")`, from position `k` on. */
  function JoinItems(items: seq<Value>, k: nat): string
    requires k <= |items|
    decreases SizeAll(items), 0, |items| - k
  {
    if k == |items| then "" else
    SizeMember(items, k);
    Comma(k, Canon(items[k]) + JoinItems(items, k + 1))
  }

  function JoinFields(fs: seq<Field<Value>>, k: nat): string
    requires k <= |fs|
    decreases SizeFields(fs), 0, |fs| - k
  {
    if k == |fs| then "" else
    SizeField(fs, k);
    Comma(k, WriteString(EcmaScript, fs[k].key, ":" + Canon(fs[k].val)) + JoinFields(fs, k + 1))
  }

  // ----- the measure under the recursion -----

  function Size(v: Value): nat
    decreases v, 1
  {
    match v
    case List(items) => 1 + SizeAll(items)
    case Doc(fields) => 1 + SizeFields(fields)
    case _ => 0
  }

  function SizeAll(items: seq<Value>): nat
    decreases items, 0
  {
    if items == [] then 0 else 1 + Size(items[0]) + SizeAll(items[1..])
  }

  function SizeFields(fs: seq<Field<Value>>): nat
    decreases fs, 0
  {
    if fs == [] then 0 else 1 + Size(fs[0].val) + SizeFields(fs[1..])
  }

  lemma {:induction false} SizeMember(items: seq<Value>, k: nat)
    requires k < |items|
    ensures Size(items[k]) < SizeAll(items)
  {
    if k > 0 { SizeMember(items[1..], k - 1); }
  }

  lemma {:induction false} SizeField(fs: seq<Field<Value>>, k: nat)
    requires k < |fs|
    ensures Size(fs[k].val) < SizeFields(fs)
  {
    if k > 0 { SizeField(fs[1..], k - 1); }
  }

  lemma {:induction false} NormalizeShrinks(v: Value)
    ensures Size(Normalize(v)) <= Size(v)
    decreases v, 1
  {
    match v {
      case List(items) => NormalizeAllShrinks(items);
      case Doc(fields) => NormalizeFieldsShrinks(fields);
      case _ =>
    }
  }

  lemma {:induction false} NormalizeAllShrinks(items: seq<Value>)
    ensures SizeAll(NormalizeAll(items)) <= SizeAll(items)
    decreases items, 0
  {
    if items != [] {
      NormalizeShrinks(items[0]);
      NormalizeAllShrinks(items[1..]);
      assert NormalizeAll(items)[1..] == NormalizeAll(items[1..]);
    }
  }

  lemma {:induction false} NormalizeFieldsShrinks(fs: seq<Field<Value>>)
    ensures SizeFields(NormalizeFields(fs)) <= SizeFields(fs)
    decreases fs, 0
  {
    if fs != [] {
      NormalizeShrinks(fs[0].val);
      NormalizeFieldsShrinks(fs[1..]);
      var r := NormalizeFields(fs[1..]);
      assert ([Field(fs[0].key, Normalize(fs[0].val))] + r)[1..] == r;
    }
  }

  lemma {:induction false} InsertSize(f: Field<Value>, fs: seq<Field<Value>>)
    ensures SizeFields(Insert(EcmaScript, f, fs)) == 1 + Size(f.val) + SizeFields(fs)
  {
    if fs == [] || Before(EcmaScript, f.key, fs[0].key) {
      assert ([f] + fs)[1..] == fs;
    } else {
      InsertSize(f, fs[1..]);
      assert ([fs[0]] + Insert(EcmaScript, f, fs[1..]))[1..] == Insert(EcmaScript, f, fs[1..]);
    }
  }

  lemma {:induction false} SortShrinks(fs: seq<Field<Value>>)
    ensures SizeFields(Sort(EcmaScript, fs)) == SizeFields(fs)
  {
    if fs != [] {
      SortShrinks(fs[1..]);
      InsertSize(fs[0], Sort(EcmaScript, fs[1..]));
    }
  }

  // ----- what the text means -----

  /** Key names are unique at every depth, as in any document; non-integers are real literals. */
  predicate Valid(v: Value) {
    match v
    case Scalar(p) => p.PReal? ==> IsRealLiteral(p.lit)
    case Boxed(p) => p.PReal? ==> IsRealLiteral(p.lit)
    case List(items) => forall x | x in items :: Valid(x)
    case Doc(fields) => UniqueKeys(fields) && forall f | f in fields :: Valid(f.val)
    case _ => true
  }

  /** Prints as null: null itself, undefined, and a number JSON cannot hold. */
  predicate Nullish(v: Value) {
    v.Undefined? || v.Nil? || ((v.Scalar? || v.Boxed?) && v.p.PNonFinite?)
  }

  predicate Atomic(v: Value) { v.Scalar? || v.Boxed? }

  function KeptKeys(fs: seq<Field<Value>>): set<string> {
    set f | f in fs && !Dropped(f.key) :: f.key
  }

  /** Equality up to the dropped keys at every depth, key order, numeric wrappers and the several nulls. */
  predicate Agrees(v: Value, w: Value) {
    if v.List? && w.List? then
      |v.items| == |w.items| && forall i | 0 <= i < |v.items| :: Agrees(v.items[i], w.items[i])
    else if v.Doc? && w.Doc? then
      && KeptKeys(v.fields) == KeptKeys(w.fields)
      && forall f, g | f in v.fields && g in w.fields && f.key == g.key && !Dropped(f.key) :: Agrees(f.val, g.val)
    else if Nullish(v) || Nullish(w) then
      Nullish(v) && Nullish(w)
    else
      Atomic(v) && Atomic(w) && v.p == w.p
  }

  /** The JSON value that `canon` prints. */
  function Erase(v: Value): Tree
    decreases v, 1
  {
    match v
    case Undefined => Null
    case Nil => Null
    case Scalar(p) => EraseAtom(p)
    case Boxed(p) => EraseAtom(p)
    case List(items) => Arr(EraseAll(items))
    case Doc(fields) => Obj(EraseFields(fields))
  }

  function EraseAtom(p: Prim): Tree {
    match p
    case PBool(b) => Bool(b)
    case PNum(n) => Num(n)
    case PReal(lit) => Real(lit)
    case PNonFinite => Null
    case PStr(s) => Str(s)
  }

  function EraseAll(items: seq<Value>): (r: seq<Tree>)
    ensures |r| == |items| && forall i | 0 <= i < |r| :: r[i] == Erase(items[i])
    decreases items, 0
  {
    if items == [] then [] else [Erase(items[0])] + EraseAll(items[1..])
  }

  function EraseFields(fs: seq<Field<Value>>): seq<Field<Tree>>
    decreases fs, 0
  {
    if fs == [] then []
    else if Dropped(fs[0].key) then EraseFields(fs[1..])
    else [Field(fs[0].key, Erase(fs[0].val))] + EraseFields(fs[1..])
  }

  /** `f` is kept by `EraseFields`, and everything it keeps comes from such an `f`. */
  lemma {:induction false} EraseFieldsHas(fs: seq<Field<Value>>)
    ensures forall f | f in fs && !Dropped(f.key) :: Field(f.key, Erase(f.val)) in EraseFields(fs)
    ensures forall e | e in EraseFields(fs) :: exists f :: f in fs && !Dropped(f.key) && e == Field(f.key, Erase(f.val))
    ensures Keys(EraseFields(fs)) == KeptKeys(fs)
  {
    if fs != [] {
      EraseFieldsHas(fs[1..]);
      assert fs == [fs[0]] + fs[1..];
      assert KeptKeys(fs) == KeptKeys(fs[1..]) + if Dropped(fs[0].key) then {} else {fs[0].key};
      var e := Field(fs[0].key, Erase(fs[0].val));
      assert Keys([e] + EraseFields(fs[1..])) == {e.key} + Keys(EraseFields(fs[1..])) by {
        assert e in [e] + EraseFields(fs[1..]);
      }
    }
  }

  lemma {:induction false} EraseFieldsUnique(fs: seq<Field<Value>>)
    requires UniqueKeys(fs)
    ensures UniqueKeys(EraseFields(fs))
  {
    if fs != [] {
      EraseFieldsUnique(fs[1..]);
      EraseFieldsHas(fs[1..]);
      var es := EraseFields(fs[1..]);
      forall i | 0 <= i < |es| ensures es[i].key != fs[0].key {
        assert es[i] in es;
        var f :| f in fs[1..] && es[i] == Field(f.key, Erase(f.val));
        var j :| 0 <= j < |fs[1..]| && fs[1..][j] == f;
        assert fs[j + 1] == f;
      }
    }
  }

  lemma {:induction false} EraseWellFormed(v: Value)
    requires Valid(v)
    ensures WellFormed(Erase(v))
  {
    if v.List? {
      forall x | x in v.items ensures WellFormed(Erase(x)) { EraseWellFormed(x); }
    } else if v.Doc? {
      EraseFieldsUnique(v.fields);
      EraseFieldsHas(v.fields);
      forall f | f in v.fields ensures WellFormed(Erase(f.val)) { EraseWellFormed(f.val); }
    }
  }

  lemma {:induction false} AgreesIffSame(v: Value, w: Value)
    requires Valid(v) && Valid(w)
    ensures Agrees(v, w) <==> Same(Erase(v), Erase(w))
  {
    if v.List? && w.List? {
      forall i | 0 <= i < |v.items| && i < |w.items|
        ensures Agrees(v.items[i], w.items[i]) <==> Same(Erase(v).items[i], Erase(w).items[i])
      {
        AgreesIffSame(v.items[i], w.items[i]);
      }
    } else if v.Doc? && w.Doc? {
      forall f, g | f in v.fields && g in w.fields && f.key == g.key && !Dropped(f.key)
        ensures Agrees(f.val, g.val) <==> Same(Erase(f.val), Erase(g.val))
      {
        AgreesIffSame(f.val, g.val);
      }
      SameKeptIff(v.fields, w.fields);
    }
  }

  predicate SameKept(fs: seq<Field<Value>>, gs: seq<Field<Value>>) {
    && KeptKeys(fs) == KeptKeys(gs)
    && forall f, g | f in fs && g in gs && f.key == g.key && !Dropped(f.key) :: Same(Erase(f.val), Erase(g.val))
  }

  lemma SameKeptIff(fs: seq<Field<Value>>, gs: seq<Field<Value>>)
    ensures SameKept(fs, gs) <==> Same(Obj(EraseFields(fs)), Obj(EraseFields(gs)))
  {
    EraseFieldsHas(fs);
    EraseFieldsHas(gs);
    var es, hs := EraseFields(fs), EraseFields(gs);
    if SameKept(fs, gs) {
      forall e, h | e in es && h in hs && e.key == h.key ensures Same(e.val, h.val) {
        var f :| f in fs && !Dropped(f.key) && e == Field(f.key, Erase(f.val));
        var g :| g in gs && !Dropped(g.key) && h == Field(g.key, Erase(g.val));
      }
    }
    if Same(Obj(es), Obj(hs)) {
      forall f, g | f in fs && g in gs && f.key == g.key && !Dropped(f.key) ensures Same(Erase(f.val), Erase(g.val)) {
        assert Field(f.key, Erase(f.val)) in es && Field(g.key, Erase(g.val)) in hs;
      }
    }
  }

  // ----- canon prints the erased value -----

  lemma {:induction false} EraseNormalize(v: Value)
    ensures Erase(Normalize(v)) == Erase(v)
    decreases v, 1
  {
    match v {
      case List(items) =>
        forall i | 0 <= i < |items| ensures Erase(NormalizeAll(items)[i]) == Erase(items[i]) {
          EraseNormalize(items[i]);
        }
        assert EraseAll(NormalizeAll(items)) == EraseAll(items);
      case Doc(fields) => EraseNormalizeFields(fields);
      case _ =>
    }
  }

  lemma {:induction false} EraseNormalizeFields(fs: seq<Field<Value>>)
    ensures EraseFields(NormalizeFields(fs)) == EraseFields(fs)
    decreases fs, 0
  {
    if fs != [] {
      EraseNormalize(fs[0].val);
      EraseNormalizeFields(fs[1..]);
      var r := NormalizeFields(fs[1..]);
      assert ([Field(fs[0].key, Normalize(fs[0].val))] + r)[1..] == r;
    }
  }

  /** Normalizing a second time changes nothing. */
  lemma {:induction false} NormalizeIdempotent(v: Value)
    ensures Normalize(Normalize(v)) == Normalize(v)
    decreases v, 1
  {
    match v {
      case List(items) =>
        forall i | 0 <= i < |items| ensures Normalize(NormalizeAll(items)[i]) == NormalizeAll(items)[i] {
          NormalizeIdempotent(items[i]);
        }
        assert NormalizeAll(NormalizeAll(items)) == NormalizeAll(items);
      case Doc(fields) => NormalizeFieldsIdempotent(fields);
      case _ =>
    }
  }

  lemma {:induction false} NormalizeFieldsIdempotent(fs: seq<Field<Value>>)
    ensures NormalizeFields(NormalizeFields(fs)) == NormalizeFields(fs)
    decreases fs, 0
  {
    if fs != [] {
      NormalizeIdempotent(fs[0].val);
      NormalizeFieldsIdempotent(fs[1..]);
      var r := NormalizeFields(fs[1..]);
      assert ([Field(fs[0].key, Normalize(fs[0].val))] + r)[1..] == r;
    }
  }

  /** Nothing is dropped from a list that was normalized, so erasing keeps its order. */
  predicate NoneDropped(fs: seq<Field<Value>>) { forall f | f in fs :: !Dropped(f.key) }

  lemma {:induction false} NormalizeDrops(fs: seq<Field<Value>>)
    ensures NoneDropped(NormalizeFields(fs))
  {
    if fs != [] { NormalizeDrops(fs[1..]); }
  }

  lemma {:induction false} EraseKept(fs: seq<Field<Value>>)
    requires NoneDropped(fs)
    ensures |EraseFields(fs)| == |fs|
    ensures forall i | 0 <= i < |fs| :: EraseFields(fs)[i] == Field(fs[i].key, Erase(fs[i].val))
  {
    if fs != [] {
      assert fs[0] in fs && forall f | f in fs[1..] :: f in fs;
      EraseKept(fs[1..]);
    }
  }

  lemma {:induction false} EraseInsert(f: Field<Value>, fs: seq<Field<Value>>)
    requires NoneDropped(fs) && !Dropped(f.key)
    ensures EraseFields(Insert(EcmaScript, f, fs)) == Insert(EcmaScript, Field(f.key, Erase(f.val)), EraseFields(fs))
  {
    if fs == [] || Before(EcmaScript, f.key, fs[0].key) {
      assert ([f] + fs)[1..] == fs;
      EraseKept(fs);
    } else {
      assert fs[0] in fs && forall g | g in fs[1..] :: g in fs;
      EraseInsert(f, fs[1..]);
      assert ([fs[0]] + Insert(EcmaScript, f, fs[1..]))[1..] == Insert(EcmaScript, f, fs[1..]);
      assert EraseFields(fs)[1..] == EraseFields(fs[1..]);
    }
  }

  lemma {:induction false} EraseSort(fs: seq<Field<Value>>)
    requires NoneDropped(fs)
    ensures EraseFields(Sort(EcmaScript, fs)) == Sort(EcmaScript, EraseFields(fs))
  {
    if fs != [] {
      assert fs[0] in fs && forall g | g in fs[1..] :: g in fs;
      EraseSort(fs[1..]);
      EraseInsert(fs[0], Sort(EcmaScript, fs[1..]));
      assert EraseFields(fs)[1..] == EraseFields(fs[1..]);
    }
  }

  lemma StringThenCat(s: string, x: string, rest: string)
    ensures WriteString(EcmaScript, s, x) + rest == WriteString(EcmaScript, s, x + rest)
  {
    TailThenCat(s, x, rest);
    assert (['"'] + WriteTail(EcmaScript, s, x)) + rest == ['"'] + (WriteTail(EcmaScript, s, x) + rest);
  }

  lemma {:induction false} TailThenCat(s: string, x: string, rest: string)
    ensures WriteTail(EcmaScript, s, x) + rest == WriteTail(EcmaScript, s, x + rest)
  {
    if s == "" {
      assert (['"'] + x) + rest == ['"'] + (x + rest);
    } else {
      TailThenCat(s[1..], x, rest);
      CharThenCat(s[0], WriteTail(EcmaScript, s[1..], x), rest);
    }
  }

  lemma CharThenCat(c: char, x: string, rest: string)
    ensures WriteChar(EcmaScript, c, x) + rest == WriteChar(EcmaScript, c, x + rest)
  {
    if IsPlain(EcmaScript, c) {
      assert ([c] + x) + rest == [c] + (x + rest);
    } else if ShortEscape(c) != ' ' {
      assert (['\\', ShortEscape(c)] + x) + rest == ['\\', ShortEscape(c)] + (x + rest);
    } else {
      UnitThenCat(FirstUnit(c), if c as int < 0x10000 then x else WriteUnit(SecondUnit(c), x), rest);
      if c as int >= 0x10000 { UnitThenCat(SecondUnit(c), x, rest); }
    }
  }

  lemma UnitThenCat(n: nat, x: string, rest: string)
    requires n < 0x10000
    ensures WriteUnit(n, x) + rest == WriteUnit(n, x + rest)
  {
    assert (['\\', 'u'] + (Hex4(n) + x)) + rest == ['\\', 'u'] + (Hex4(n) + (x + rest));
  }

  lemma Enclose(open: string, j: string, close: string, rest: string)
    ensures (open + j + close) + rest == open + (j + (close + rest))
  {
  }

  lemma ElementThen(k: nat, c: string, j: string, rest: string)
    ensures Comma(k, c + j) + rest == Comma(k, c + (j + rest))
  {
    assert (c + j) + rest == c + (j + rest);
  }

  lemma {:induction false} CanonWrites(v: Value, rest: string)
    ensures Canon(v) + rest == Write(EcmaScript, Erase(v), rest)
    decreases Size(v), 1, 0
  {
    NormalizeShrinks(v);
    EraseNormalize(v);
    match Normalize(v) {
      case List(items) =>
        CanonItems(items, Erase(v), 0, rest);
        Enclose("[", JoinItems(items, 0), "]", rest);
      case Doc(fields) =>
        SortShrinks(fields);
        NormalizeDrops(v.fields);
        EraseSort(fields);
        SortWithin(EcmaScript, Erase(v));
        CanonFields(Sort(EcmaScript, fields), Erase(v), 0, rest);
        Enclose("{", JoinFields(Sort(EcmaScript, fields), 0), "}", rest);
      case Scalar(p) => if p.PStr? { StringThenCat(p.s, "", rest); assert "" + rest == rest; }
      case _ =>
    }
  }

  lemma {:induction false} CanonItems(items: seq<Value>, t: Tree, k: nat, rest: string)
    requires t.Arr? && t.items == EraseAll(items) && k <= |items|
    ensures JoinItems(items, k) + ("]" + rest) == WriteItems(EcmaScript, t, k, rest)
    decreases SizeAll(items), 0, |items| - k
  {
    if k < |items| {
      SizeMember(items, k);
      CanonItems(items, t, k + 1, rest);
      CanonWrites(items[k], WriteItems(EcmaScript, t, k + 1, rest));
      ElementThen(k, Canon(items[k]), JoinItems(items, k + 1), "]" + rest);
    } else {
      assert "" + ("]" + rest) == [']'] + rest;
    }
  }

  lemma MemberThen(f: Field<Value>, rest: string)
    requires Canon(f.val) + rest == Write(EcmaScript, Erase(f.val), rest)
    ensures WriteString(EcmaScript, f.key, ":" + Canon(f.val)) + rest
         == WriteString(EcmaScript, f.key, [':'] + Write(EcmaScript, Erase(f.val), rest))
  {
    StringThenCat(f.key, ":" + Canon(f.val), rest);
    assert (":" + Canon(f.val)) + rest == [':'] + (Canon(f.val) + rest);
  }

  lemma {:induction false} CanonFields(fs: seq<Field<Value>>, t: Tree, k: nat, rest: string)
    requires NoneDropped(fs) && k <= |fs| && Within(t, EraseFields(fs))
    ensures |EraseFields(fs)| == |fs|
    ensures JoinFields(fs, k) + ("}" + rest) == WriteMembers(EcmaScript, t, EraseFields(fs), k, rest)
    decreases SizeFields(fs), 0, |fs| - k
  {
    EraseKept(fs);
    if k < |fs| {
      SizeField(fs, k);
      CanonFields(fs, t, k + 1, rest);
      var f, after := fs[k], WriteMembers(EcmaScript, t, EraseFields(fs), k + 1, rest);
      CanonWrites(f.val, after);
      ElementThen(k, WriteString(EcmaScript, f.key, ":" + Canon(f.val)), JoinFields(fs, k + 1), "}" + rest);
      MemberThen(f, after);
      assert EraseFields(fs)[k] == Field(f.key, Erase(f.val));
    } else {
      assert "" + ("}" + rest) == ['}'] + rest;
    }
  }

  lemma CanonIsSerialize(v: Value)
    ensures Canon(v) == Serialize(EcmaScript, Erase(v))
  {
    CanonWrites(v, "");
    assert Canon(v) + "" == Canon(v);
  }

  /** The comparison text is equal exactly for documents that agree: no difference outside the dropped
      keys goes unseen, and none inside them is ever seen. */
  lemma CanonEqualIffAgrees(v: Value, w: Value)
    requires Valid(v) && Valid(w)
    ensures Canon(v) == Canon(w) <==> Agrees(v, w)
  {
    CanonIsSerialize(v);
    CanonIsSerialize(w);
    EraseWellFormed(v);
    EraseWellFormed(w);
    SerializeEqualIffSame(EcmaScript, Erase(v), Erase(w));
    AgreesIffSame(v, w);
  }

  lemma AgreesReflexive(v: Value)
    requires Valid(v)
    ensures Agrees(v, v)
  {
    EraseWellFormed(v);
    AgreesIffSame(v, v);
    SameReflexive(Erase(v));
  }

  /** Agreement is equality of texts, hence an equivalence. */
  lemma AgreesTransitive(u: Value, v: Value, w: Value)
    requires Valid(u) && Valid(v) && Valid(w) && Agrees(u, v)
    ensures Agrees(v, u) && (Agrees(v, w) <==> Agrees(u, w))
  {
    CanonEqualIffAgrees(u, v);
    CanonEqualIffAgrees(v, u);
    CanonEqualIffAgrees(v, w);
    CanonEqualIffAgrees(u, w);
  }
}

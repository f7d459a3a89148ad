/** JSON trees and the compact, key-sorted text both languages of the repository build from them.

    The JavaScript comparison text of the subscriber sync and the Python payload under the document
    signature share one shape and differ in what a string escapes and in how keys are ordered; a
    `Dialect` selects between them.  The main result is `SerializeEqualIffSame`: two trees have the
    same text exactly when they are the same JSON value, whatever the order of their keys. */
module Json {
  import opened Results

  /** A number that is not an integer is held as its shortest round-trip literal, which determines it. */
  datatype Tree =
    | Null
    | Bool(b: bool)
    | Num(n: int)
    | Real(lit: string)
    | Str(s: string)
    | Arr(items: seq<Tree>)
    | Obj(fields: seq<Field<Tree>>)

  datatype Field<T> = Field(key: string, val: T)

  datatype Dialect = EcmaScript | Python

  /** Python's `bool(x)`. */
  predicate Truthy(t: Tree) {
    match t
    case Null => false
    case Bool(b) => b
    case Num(n) => n != 0
    case Real(lit) => lit != "0.0" && lit != "-0.0"
    case Str(s) => s != ""
    case Arr(items) => items != []
    case Obj(fields) => fields != []
  }

  // ----- numbers -----

  lemma CatCancel(a: string, b: string, x: string, y: string)
    requires a + x == b + y && |a| == |b|
    ensures a == b && x == y
  {
    assert a == (a + x)[..|a|] && b == (b + y)[..|b|];
    assert x == (a + x)[|a|..] && y == (b + y)[|b|..];
  }

  function DigitChar(k: nat): char
    requires k < 10
  {
    "0123456789"[k]
  }

  function Digits(n: nat): string {
    if n < 10 then [DigitChar(n)] else Digits(n / 10) + [DigitChar(n % 10)]
  }

  function IntText(n: int): string {
    if n < 0 then "-" + Digits(-n) else Digits(n)
  }

  predicate IsDigit(c: char) { '0' <= c <= '9' }

  predicate IsNumeric(c: char) { IsDigit(c) || c == '+' || c == '-' || c == '.' || c == 'e' }

  predicate AllNumeric(s: string) { forall i | 0 <= i < |s| :: IsNumeric(s[i]) }

  predicate IsRealLiteral(s: string) { AllNumeric(s) && ('.' in s || 'e' in s) }

  /** The value a digit string denotes; the inverse of `Digits`. */
  function ValueOf(s: string): int {
    if s == "" then 0 else 10 * ValueOf(s[..|s| - 1]) + (s[|s| - 1] as int - '0' as int)
  }

  lemma {:induction false} ValueOfDigits(n: nat)
    ensures ValueOf(Digits(n)) == n
    ensures Digits(n) != "" && forall i | 0 <= i < |Digits(n)| :: IsDigit(Digits(n)[i])
  {
    if n < 10 {
      assert ValueOf([DigitChar(n)]) == 10 * ValueOf("") + n;
    } else {
      ValueOfDigits(n / 10);
      assert Digits(n)[..|Digits(n)| - 1] == Digits(n / 10);
    }
  }

  lemma IntTextInjective(m: int, n: int)
    requires IntText(m) == IntText(n)
    ensures m == n
  {
    var m', n' := if m < 0 then -m else m, if n < 0 then -n else n;
    ValueOfDigits(m');
    ValueOfDigits(n');
    assert m < 0 ==> IntText(m)[0] == '-' && IntText(m)[1..] == Digits(m');
    assert n < 0 ==> IntText(n)[0] == '-' && IntText(n)[1..] == Digits(n');
  }

  lemma IntTextShape(n: int)
    ensures IntText(n) != "" && AllNumeric(IntText(n)) && '.' !in IntText(n) && 'e' !in IntText(n)
    ensures IntText(n)[0] == '-' || IsDigit(IntText(n)[0])
  {
    ValueOfDigits(if n < 0 then -n else n);
  }

  /** What may follow a number so that the number ends where it ends. */
  predicate Stops(s: string) { s == "" || !IsNumeric(s[0]) }

  lemma LongerHolds(a: string, b: string, s: string, r: string)
    requires a + s == b + r
    ensures |a| < |b| ==> s != "" && s[0] == b[|a|]
  {
    assert |a| < |b| ==> (a + s)[|a|] == (b + r)[|a|];
  }

  lemma NumericCancel(a: string, b: string, s: string, r: string)
    requires AllNumeric(a) && AllNumeric(b) && Stops(s) && Stops(r)
    requires a + s == b + r
    ensures a == b && s == r
  {
    LongerHolds(a, b, s, r);
    LongerHolds(b, a, r, s);
    CatCancel(a, b, s, r);
  }

  // ----- strings -----

  // Text is built in front of what follows it: `Write...(x, rest)` is the text of `x`, then `rest`.

  function HexChar(k: nat): char
    requires k < 16
  {
    "0123456789abcdef"[k]
  }

  function Hex4(n: nat): string
    requires n < 0x10000
  {
    [HexChar(n / 0x1000), HexChar(n / 0x100 % 16), HexChar(n / 16 % 16), HexChar(n % 16)]
  }

  lemma HexCharInjective(j: nat, k: nat)
    requires j < 16 && k < 16 && HexChar(j) == HexChar(k)
    ensures j == k
  {
  }

  lemma Nibbles(n: nat)
    requires n < 0x10000
    ensures n == n / 0x1000 * 0x1000 + n / 0x100 % 16 * 0x100 + n / 16 % 16 * 16 + n % 16
  {
    assert n / 0x100 == n / 16 / 16 && n / 0x1000 == n / 16 / 16 / 16;
  }

  lemma Hex4Injective(m: nat, n: nat)
    requires m < 0x10000 && n < 0x10000 && Hex4(m) == Hex4(n)
    ensures m == n
  {
    Nibbles(m);
    Nibbles(n);
    var a, b := Hex4(m), Hex4(n);
    assert a[0] == b[0] && a[1] == b[1] && a[2] == b[2] && a[3] == b[3];
    HexCharInjective(m / 0x1000, n / 0x1000);
    HexCharInjective(m / 0x100 % 16, n / 0x100 % 16);
    HexCharInjective(m / 16 % 16, n / 16 % 16);
    HexCharInjective(m % 16, n % 16);
  }

  function WriteUnit(n: nat, rest: string): string
    requires n < 0x10000
  {
    ['\\', 'u'] + (Hex4(n) + rest)
  }

  lemma UnitCancel(m: nat, n: nat, x: string, y: string)
    requires m < 0x10000 && n < 0x10000 && WriteUnit(m, x) == WriteUnit(n, y)
    ensures m == n && x == y
  {
    CatCancel(['\\', 'u'], ['\\', 'u'], Hex4(m) + x, Hex4(n) + y);
    CatCancel(Hex4(m), Hex4(n), x, y);
    Hex4Injective(m, n);
  }

  /** The UTF-16 unit, or first unit of the surrogate pair, of a character, and the second unit. */
  function FirstUnit(c: char): (n: nat)
    ensures n < 0x10000
  {
    if c as int < 0x10000 then c as int else 0xD800 + (c as int - 0x10000) / 0x400
  }

  function SecondUnit(c: char): (n: nat)
    requires c as int >= 0x10000
    ensures n < 0x10000
  {
    0xDC00 + (c as int - 0x10000) % 0x400
  }

  /** `\uXXXX`, as a surrogate pair beyond the basic plane. */
  function WriteUnicode(c: char, rest: string): string {
    WriteUnit(FirstUnit(c), if c as int < 0x10000 then rest else WriteUnit(SecondUnit(c), rest))
  }

  lemma PairUnits(c: char)
    requires c as int >= 0x10000
    ensures c as int == 0x10000 + (FirstUnit(c) - 0xD800) * 0x400 + (SecondUnit(c) - 0xDC00)
  {
    var m := c as int - 0x10000;
    assert m == m / 0x400 * 0x400 + m % 0x400;
  }

  lemma UnicodeCancel(c: char, c': char, x: string, y: string)
    requires WriteUnicode(c, x) == WriteUnicode(c', y)
    ensures c == c' && x == y
  {
    var x' := if c as int < 0x10000 then x else WriteUnit(SecondUnit(c), x);
    var y' := if c' as int < 0x10000 then y else WriteUnit(SecondUnit(c'), y);
    UnitCancel(FirstUnit(c), FirstUnit(c'), x', y');
    assert c as int < 0x10000 <==> c' as int < 0x10000;
    if c as int >= 0x10000 {
      UnitCancel(SecondUnit(c), SecondUnit(c'), x, y);
      PairUnits(c);
      PairUnits(c');
    }
  }

  /** JavaScript leaves everything from space up as it is; Python keeps printable ASCII only. */
  predicate IsPlain(d: Dialect, c: char) {
    c != '"' && c != '\\' && ' ' <= c && (d.Python? ==> c <= '~')
  }

  /** The letter of the two-character escape, for the characters that have one. */
  function ShortEscape(c: char): (e: char)
    ensures e != 'u'
  {
    match c as int
    case 0x22 => '"'
    case 0x5C => '\\'
    case 0x08 => 'b'
    case 0x0C => 'f'
    case 0x0A => 'n'
    case 0x0D => 'r'
    case 0x09 => 't'
    case _ => ' '
  }

  function WriteChar(d: Dialect, c: char, rest: string): string {
    if IsPlain(d, c) then [c] + rest
    else if ShortEscape(c) != ' ' then ['\\', ShortEscape(c)] + rest
    else WriteUnicode(c, rest)
  }

  lemma CharCancel(d: Dialect, c: char, c': char, x: string, y: string)
    requires WriteChar(d, c, x) == WriteChar(d, c', y)
    ensures c == c' && x == y
  {
    var a, b := WriteChar(d, c, x), WriteChar(d, c', y);
    assert a[0] == b[0];
    if IsPlain(d, c) {
      CatCancel([c], [c'], x, y);
    } else {
      assert a[1] == b[1];
      if ShortEscape(c) != ' ' {
        CatCancel(['\\', ShortEscape(c)], ['\\', ShortEscape(c')], x, y);
      } else {
        UnicodeCancel(c, c', x, y);
      }
    }
  }

  /** The escaped characters of `s`, the closing quote, then `rest`. */
  function WriteTail(d: Dialect, s: string, rest: string): string {
    if s == "" then ['"'] + rest else WriteChar(d, s[0], WriteTail(d, s[1..], rest))
  }

  lemma TailHead(d: Dialect, s: string, x: string)
    ensures WriteTail(d, s, x) != "" && (WriteTail(d, s, x)[0] == '"' <==> s == "")
  {
  }

  /** A quoted string ends at its own closing quote, and its text determines it. */
  lemma {:induction false} TailCancel(d: Dialect, s: string, t: string, x: string, y: string)
    requires WriteTail(d, s, x) == WriteTail(d, t, y)
    ensures s == t && x == y
    decreases |s| + |t|
  {
    TailHead(d, s, x);
    TailHead(d, t, y);
    if s == "" {
      CatCancel(['"'], ['"'], x, y);
    } else {
      CharCancel(d, s[0], t[0], WriteTail(d, s[1..], x), WriteTail(d, t[1..], y));
      TailCancel(d, s[1..], t[1..], x, y);
      assert s == [s[0]] + s[1..] && t == [t[0]] + t[1..];
    }
  }

  function WriteString(d: Dialect, s: string, rest: string): string { ['"'] + WriteTail(d, s, rest) }

  lemma StringCancel(d: Dialect, s: string, t: string, x: string, y: string)
    requires WriteString(d, s, x) == WriteString(d, t, y)
    ensures s == t && x == y
  {
    CatCancel(['"'], ['"'], WriteTail(d, s, x), WriteTail(d, t, y));
    TailCancel(d, s, t, x, y);
  }

  // ----- key order -----

  /** JavaScript compares UTF-16 units, so the planes beyond the basic one sort before U+E000;
      Python compares code points. */
  function Rank(d: Dialect, c: char): int {
    var n := c as int;
    if d.EcmaScript? && 0xE000 <= n < 0x10000 then n + 0x110000 else n
  }

  predicate Before(d: Dialect, s: string, t: string) {
    t != "" && (s == "" || (if s[0] == t[0] then Before(d, s[1..], t[1..]) else Rank(d, s[0]) < Rank(d, t[0])))
  }

  lemma {:induction false} BeforeTransitive(d: Dialect, s: string, t: string, u: string)
    requires Before(d, s, t) && Before(d, t, u)
    ensures Before(d, s, u)
  {
    if s != "" && s[0] == t[0] && t[0] == u[0] {
      BeforeTransitive(d, s[1..], t[1..], u[1..]);
    }
  }

  lemma {:induction false} BeforeTrichotomy(d: Dialect, s: string, t: string)
    ensures s == t || Before(d, s, t) || Before(d, t, s)
    ensures !(Before(d, s, t) && Before(d, t, s)) && (s == t ==> !Before(d, s, t))
  {
    if s != "" && t != "" {
      BeforeTrichotomy(d, s[1..], t[1..]);
      assert s == [s[0]] + s[1..] && t == [t[0]] + t[1..];
    }
  }

  predicate UniqueKeys<T>(fs: seq<Field<T>>) {
    forall i, j | 0 <= i < j < |fs| :: fs[i].key != fs[j].key
  }

  predicate Ascending<T>(d: Dialect, fs: seq<Field<T>>) {
    forall i, j | 0 <= i < j < |fs| :: Before(d, fs[i].key, fs[j].key)
  }

  function Keys<T(==)>(fs: seq<Field<T>>): set<string> { set f | f in fs :: f.key }

  function Insert<T(==,!new)>(d: Dialect, f: Field<T>, fs: seq<Field<T>>): (r: seq<Field<T>>)
    ensures forall g :: g in r <==> g == f || g in fs
  {
    if fs == [] || Before(d, f.key, fs[0].key) then [f] + fs
    else [fs[0]] + Insert(d, f, fs[1..])
  }

  /** The fields in ascending key order, as `Object.keys(v).sort()` and `sort_keys=True` list them. */
  function Sort<T(==,!new)>(d: Dialect, fs: seq<Field<T>>): (r: seq<Field<T>>)
    ensures forall g :: g in r <==> g in fs
  {
    if fs == [] then [] else Insert(d, fs[0], Sort(d, fs[1..]))
  }

  lemma {:induction false} InsertAscending<T(!new)>(d: Dialect, f: Field<T>, fs: seq<Field<T>>)
    requires Ascending(d, fs) && forall g | g in fs :: g.key != f.key
    ensures Ascending(d, Insert(d, f, fs))
  {
    if fs == [] {
    } else if Before(d, f.key, fs[0].key) {
      forall j | 0 < j < |fs| ensures Before(d, f.key, fs[j].key) {
        BeforeTransitive(d, f.key, fs[0].key, fs[j].key);
      }
    } else {
      BeforeTrichotomy(d, f.key, fs[0].key);
      InsertAscending(d, f, fs[1..]);
      var r := Insert(d, f, fs[1..]);
      forall j | 0 <= j < |r| ensures Before(d, fs[0].key, r[j].key) {
        assert r[j] in r;
        if r[j] != f {
          var i :| 0 <= i < |fs[1..]| && fs[1..][i] == r[j];
          assert fs[i + 1] == r[j];
        }
      }
    }
  }

  lemma {:induction false} SortAscending<T(!new)>(d: Dialect, fs: seq<Field<T>>)
    requires UniqueKeys(fs)
    ensures Ascending(d, Sort(d, fs))
  {
    if fs != [] {
      SortAscending(d, fs[1..]);
      InsertAscending(d, fs[0], Sort(d, fs[1..]));
    }
  }

  lemma AscendingDistinct<T>(d: Dialect, fs: seq<Field<T>>)
    requires Ascending(d, fs)
    ensures UniqueKeys(fs)
  {
    forall i, j | 0 <= i < j < |fs| ensures fs[i].key != fs[j].key {
      BeforeTrichotomy(d, fs[i].key, fs[j].key);
    }
  }

  /** Two ascending lists over the same keys list them in the same positions. */
  lemma {:induction false} AscendingUnique<T>(d: Dialect, fs: seq<Field<T>>, gs: seq<Field<T>>)
    requires Ascending(d, fs) && Ascending(d, gs) && Keys(fs) == Keys(gs)
    ensures |fs| == |gs| && forall i | 0 <= i < |fs| :: fs[i].key == gs[i].key
  {
    if fs == [] || gs == [] {
      assert fs != [] ==> fs[0].key in Keys(fs);
      assert gs != [] ==> gs[0].key in Keys(gs);
    } else {
      assert fs[0].key in Keys(gs) && gs[0].key in Keys(fs);
      var j :| 0 <= j < |gs| && gs[j].key == fs[0].key;
      var i :| 0 <= i < |fs| && fs[i].key == gs[0].key;
      BeforeTrichotomy(d, fs[0].key, gs[0].key);
      assert fs[0].key == gs[0].key;
      TailKeys(d, fs);
      TailKeys(d, gs);
      AscendingUnique(d, fs[1..], gs[1..]);
      forall k | 0 <= k < |fs| ensures fs[k].key == gs[k].key {
        if k > 0 {
          assert fs[1..][k - 1].key == gs[1..][k - 1].key;
        }
      }
    }
  }

  lemma TailKeys<T>(d: Dialect, fs: seq<Field<T>>)
    requires fs != [] && Ascending(d, fs)
    ensures Keys(fs[1..]) == Keys(fs) - {fs[0].key}
  {
    AscendingDistinct(d, fs);
    forall k | k in Keys(fs) && k != fs[0].key ensures k in Keys(fs[1..]) {
      var i :| 0 <= i < |fs| && fs[i].key == k;
      assert fs[1..][i - 1] == fs[i];
    }
  }

  // ----- field lists as dictionaries -----

  function Get<T>(fs: seq<Field<T>>, k: string): Option<T> {
    if fs == [] then None else if fs[0].key == k then Some(fs[0].val) else Get(fs[1..], k)
  }

  /** `dict.get(k)`. */
  function OrNull(t: Option<Tree>): Tree { if t.Some? then t.value else Null }

  /** The value under a key, null where there is none. */
  function ValueAt(t: Tree, k: string): Tree { if t.Obj? then OrNull(Get(t.fields, k)) else Null }

  /** `dict[k] = v`: an existing key keeps its place, a new one goes last. */
  function Put<T>(fs: seq<Field<T>>, k: string, v: T): seq<Field<T>> {
    if fs == [] then [Field(k, v)]
    else if fs[0].key == k then [Field(k, v)] + fs[1..]
    else [fs[0]] + Put(fs[1..], k, v)
  }

  /** `dict.pop(k, None)`. */
  function Without<T>(fs: seq<Field<T>>, k: string): seq<Field<T>> {
    if fs == [] then []
    else if fs[0].key == k then Without(fs[1..], k)
    else [fs[0]] + Without(fs[1..], k)
  }

  lemma {:induction false} GetPut<T>(fs: seq<Field<T>>, k: string, v: T, j: string)
    ensures Get(Put(fs, k, v), j) == if j == k then Some(v) else Get(fs, j)
  {
    if fs != [] && fs[0].key != k {
      GetPut(fs[1..], k, v, j);
      assert ([fs[0]] + Put(fs[1..], k, v))[1..] == Put(fs[1..], k, v);
    }
  }

  lemma {:induction false} GetWithout<T>(fs: seq<Field<T>>, k: string, j: string)
    ensures Get(Without(fs, k), j) == if j == k then None else Get(fs, j)
  {
    if fs != [] {
      GetWithout(fs[1..], k, j);
      if fs[0].key != k {
        assert ([fs[0]] + Without(fs[1..], k))[1..] == Without(fs[1..], k);
      }
    }
  }

  lemma {:induction false} PutSame<T>(fs: seq<Field<T>>, k: string, v: T)
    ensures Put(fs, k, v) == fs <==> Get(fs, k) == Some(v)
  {
    GetPut(fs, k, v, k);
    if fs != [] && fs[0].key != k {
      PutSame(fs[1..], k, v);
      assert fs == [fs[0]] + fs[1..];
    }
  }

  lemma {:induction false} WithoutSame<T>(fs: seq<Field<T>>, k: string)
    ensures Without(fs, k) == fs <==> Get(fs, k).None?
  {
    GetWithout(fs, k, k);
    if fs != [] && fs[0].key != k {
      WithoutSame(fs[1..], k);
      assert fs == [fs[0]] + fs[1..];
    }
  }

  lemma {:induction false} GetMember<T>(fs: seq<Field<T>>, k: string)
    ensures Get(fs, k).Some? ==> Field(k, Get(fs, k).value) in fs
    ensures Get(fs, k).None? <==> forall f | f in fs :: f.key != k
    ensures UniqueKeys(fs) ==> forall f | f in fs && f.key == k :: Get(fs, k) == Some(f.val)
  {
    if fs != [] {
      GetMember(fs[1..], k);
      assert fs == [fs[0]] + fs[1..];
      if UniqueKeys(fs) && fs[0].key == k {
        forall f | f in fs && f.key == k ensures f == fs[0] {
          var i :| 0 <= i < |fs| && fs[i] == f;
        }
      }
    }
  }

  /** Writing one key leaves the others alone. */
  lemma {:induction false} PutMembers<T(!new)>(fs: seq<Field<T>>, k: string, v: T)
    ensures Field(k, v) in Put(fs, k, v)
    ensures forall f | f in Put(fs, k, v) :: f == Field(k, v) || f in fs
    ensures forall f | f in fs && f.key != k :: f in Put(fs, k, v)
    ensures UniqueKeys(fs) ==> UniqueKeys(Put(fs, k, v)) && forall f | f in Put(fs, k, v) && f.key == k :: f.val == v
  {
    if fs != [] {
      assert fs == [fs[0]] + fs[1..];
      if fs[0].key != k {
        PutMembers(fs[1..], k, v);
        if UniqueKeys(fs) {
          var r := Put(fs[1..], k, v);
          forall i | 0 <= i < |r| ensures r[i].key != fs[0].key {
            assert r[i] in r;
            if r[i] != Field(k, v) {
              var j :| 0 <= j < |fs[1..]| && fs[1..][j] == r[i];
              assert fs[j + 1] == r[i];
            }
          }
        }
      } else if UniqueKeys(fs) {
        forall f | f in fs[1..] ensures f.key != k {
          var j :| 0 <= j < |fs[1..]| && fs[1..][j] == f;
          assert fs[j + 1] == f;
        }
      }
    }
  }

  lemma {:induction false} WithoutMembers<T(!new)>(fs: seq<Field<T>>, k: string)
    ensures forall f :: f in Without(fs, k) <==> f in fs && f.key != k
    ensures UniqueKeys(fs) ==> UniqueKeys(Without(fs, k))
  {
    if fs != [] {
      assert fs == [fs[0]] + fs[1..];
      WithoutMembers(fs[1..], k);
      if UniqueKeys(fs) && fs[0].key != k {
        var r := Without(fs[1..], k);
        forall i | 0 <= i < |r| ensures r[i].key != fs[0].key {
          assert r[i] in r;
          var j :| 0 <= j < |fs[1..]| && fs[1..][j] == r[i];
          assert fs[j + 1] == r[i];
        }
      }
    }
  }

  // ----- trees -----

  /** Keys are unique at every depth, and non-integers are real literals. */
  predicate WellFormed(t: Tree) {
    match t
    case Real(lit) => IsRealLiteral(lit)
    case Arr(items) => forall x | x in items :: WellFormed(x)
    case Obj(fields) => UniqueKeys(fields) && forall f | f in fields :: WellFormed(f.val)
    case _ => true
  }

  /** The same JSON value: key order plays no part, at any depth. */
  predicate Same(t: Tree, u: Tree) {
    if t.Arr? && u.Arr? then
      |t.items| == |u.items| && forall i | 0 <= i < |t.items| :: Same(t.items[i], u.items[i])
    else if t.Obj? && u.Obj? then
      && Keys(t.fields) == Keys(u.fields)
      && forall f, g | f in t.fields && g in u.fields && f.key == g.key :: Same(f.val, g.val)
    else
      t == u
  }

  /** The members are parts of `t`, so that writing them is writing something smaller. */
  ghost predicate Within(t: Tree, fs: seq<Field<Tree>>) { forall i | 0 <= i < |fs| :: fs[i].val < t }

  lemma SortWithin(d: Dialect, t: Tree)
    requires t.Obj?
    ensures Within(t, Sort(d, t.fields))
  {
    var fs := Sort(d, t.fields);
    forall i | 0 <= i < |fs| ensures fs[i].val < t {
      assert fs[i] in t.fields;
    }
  }

  predicate WellFormedMembers(fs: seq<Field<Tree>>) { forall i | 0 <= i < |fs| :: WellFormed(fs[i].val) }

  lemma SortWellFormed(d: Dialect, t: Tree)
    requires t.Obj? && WellFormed(t)
    ensures WellFormedMembers(Sort(d, t.fields))
  {
    var fs := Sort(d, t.fields);
    forall i | 0 <= i < |fs| ensures WellFormed(fs[i].val) {
      assert fs[i] in t.fields;
    }
  }

  /** The text of a tree, then `rest`. */
  function Write(d: Dialect, t: Tree, rest: string): string
    decreases t, 1, 0
  {
    match t
    case Null => "null" + rest
    case Bool(b) => (if b then "true" else "false") + rest
    case Num(n) => IntText(n) + rest
    case Real(lit) => lit + rest
    case Str(s) => WriteString(d, s, rest)
    case Arr(items) => ['['] + WriteItems(d, t, 0, rest)
    case Obj(fields) => SortWithin(d, t); ['{'] + WriteMembers(d, t, Sort(d, fields), 0, rest)
  }

  function Comma(k: nat, rest: string): string { if k == 0 then rest else [','] + rest }

  function WriteItems(d: Dialect, t: Tree, k: nat, rest: string): string
    requires t.Arr? && k <= |t.items|
    decreases t, 0, |t.items| - k
  {
    if k == |t.items| then [']'] + rest
    else Comma(k, Write(d, t.items[k], WriteItems(d, t, k + 1, rest)))
  }

  function WriteMembers(d: Dialect, t: Tree, fs: seq<Field<Tree>>, k: nat, rest: string): string
    requires k <= |fs| && Within(t, fs)
    decreases t, 0, |fs| - k
  {
    if k == |fs| then ['}'] + rest else
    Comma(k, WriteString(d, fs[k].key, [':'] + Write(d, fs[k].val, WriteMembers(d, t, fs, k + 1, rest))))
  }

  function Serialize(d: Dialect, t: Tree): string { Write(d, t, "") }

  /** The first character of a value's text tells which kind of value it is. */
  function Head(t: Tree): char {
    match t
    case Null => 'n'
    case Bool(b) => if b then 't' else 'f'
    case Num(_) => '0'
    case Real(_) => '0'
    case Str(_) => '"'
    case Arr(_) => '['
    case Obj(_) => '{'
  }

  lemma WriteHead(d: Dialect, t: Tree, rest: string)
    requires WellFormed(t)
    ensures var w := Write(d, t, rest);
      w != "" && if t.Num? || t.Real? then IsNumeric(w[0]) else w[0] == Head(t)
  {
    if t.Num? { IntTextShape(t.n); }
  }

  function NumberText(t: Tree): string
    requires t.Num? || t.Real?
  {
    if t.Num? then IntText(t.n) else t.lit
  }

  lemma NumberCancel(t: Tree, u: Tree, s: string, r: string)
    requires (t.Num? || t.Real?) && (u.Num? || u.Real?) && WellFormed(t) && WellFormed(u) && Stops(s) && Stops(r)
    requires NumberText(t) + s == NumberText(u) + r
    ensures t == u && s == r
  {
    if t.Num? { IntTextShape(t.n); }
    if u.Num? { IntTextShape(u.n); }
    NumericCancel(NumberText(t), NumberText(u), s, r);
    if t.Num? && u.Num? { IntTextInjective(t.n, u.n); }
  }

  /** A value's text determines the value and ends where it ends: no text is a proper prefix of another. */
  lemma {:induction false} WriteCancel(d: Dialect, t: Tree, u: Tree, s: string, r: string)
    requires WellFormed(t) && WellFormed(u) && Stops(s) && Stops(r)
    requires Write(d, t, s) == Write(d, u, r)
    ensures Same(t, u) && s == r
    decreases t, 1, 0
  {
    WriteHead(d, t, s);
    WriteHead(d, u, r);
    match t {
      case Null => CatCancel("null", "null", s, r);
      case Bool(b) => CatCancel(if b then "true" else "false", if b then "true" else "false", s, r);
      case Num(_) => NumberCancel(t, u, s, r);
      case Real(_) => NumberCancel(t, u, s, r);
      case Str(x) => StringCancel(d, x, u.s, s, r);
      case Arr(items) =>
        CatCancel(['['], ['['], WriteItems(d, t, 0, s), WriteItems(d, u, 0, r));
        ItemsCancel(d, t, u, 0, s, r);
      case Obj(fields) =>
        var fs, gs := Sort(d, fields), Sort(d, u.fields);
        SortWithin(d, t);
        SortWithin(d, u);
        SortWellFormed(d, t);
        SortWellFormed(d, u);
        CatCancel(['{'], ['{'], WriteMembers(d, t, fs, 0, s), WriteMembers(d, u, gs, 0, r));
        MembersCancel(d, t, u, fs, gs, 0, s, r);
        SortAscending(d, fields);
        SortAscending(d, u.fields);
        SameFromSorted(d, t, u, fs, gs);
    }
  }

  lemma CommaCancel(k: nat, x: string, y: string)
    requires Comma(k, x) == Comma(k, y)
    ensures x == y
  {
    if k > 0 { CatCancel([','], [','], x, y); }
  }

  lemma ItemsHead(d: Dialect, t: Tree, k: nat, rest: string)
    requires t.Arr? && WellFormed(t) && k <= |t.items|
    ensures var w := WriteItems(d, t, k, rest); w != "" && (w[0] == ']' <==> k == |t.items|)
  {
    if k < |t.items| { WriteHead(d, t.items[k], WriteItems(d, t, k + 1, rest)); }
  }

  lemma MembersHead(d: Dialect, t: Tree, fs: seq<Field<Tree>>, k: nat, rest: string)
    requires k <= |fs| && Within(t, fs)
    ensures var w := WriteMembers(d, t, fs, k, rest); w != "" && (w[0] == '}' <==> k == |fs|)
  {
  }

  lemma MemberCancel(d: Dialect, k: nat, j: string, j': string, x: string, y: string)
    requires Comma(k, WriteString(d, j, [':'] + x)) == Comma(k, WriteString(d, j', [':'] + y))
    ensures j == j' && x == y
  {
    CommaCancel(k, WriteString(d, j, [':'] + x), WriteString(d, j', [':'] + y));
    StringCancel(d, j, j', [':'] + x, [':'] + y);
    CatCancel([':'], [':'], x, y);
  }

  lemma {:induction false} ItemsCancel(d: Dialect, t: Tree, u: Tree, k: nat, s: string, r: string)
    requires t.Arr? && u.Arr? && WellFormed(t) && WellFormed(u) && k <= |t.items| && k <= |u.items|
    requires WriteItems(d, t, k, s) == WriteItems(d, u, k, r)
    ensures |t.items| == |u.items| && s == r
    ensures forall i | k <= i < |t.items| :: Same(t.items[i], u.items[i])
    decreases t, 0, |t.items| - k
  {
    ItemsHead(d, t, k, s);
    ItemsHead(d, u, k, r);
    if k == |t.items| {
      CatCancel([']'], [']'], s, r);
    } else {
      var s', r' := WriteItems(d, t, k + 1, s), WriteItems(d, u, k + 1, r);
      CommaCancel(k, Write(d, t.items[k], s'), Write(d, u.items[k], r'));
      WriteCancel(d, t.items[k], u.items[k], s', r');
      ItemsCancel(d, t, u, k + 1, s, r);
    }
  }

  lemma {:induction false} MembersCancel(d: Dialect, t: Tree, u: Tree, fs: seq<Field<Tree>>, gs: seq<Field<Tree>>,
      k: nat, s: string, r: string)
    requires WellFormedMembers(fs) && WellFormedMembers(gs) && k <= |fs| && k <= |gs|
    requires Within(t, fs) && Within(u, gs)
    requires WriteMembers(d, t, fs, k, s) == WriteMembers(d, u, gs, k, r)
    ensures |fs| == |gs| && s == r
    ensures forall i | k <= i < |fs| :: fs[i].key == gs[i].key && Same(fs[i].val, gs[i].val)
    decreases t, 0, |fs| - k
  {
    MembersHead(d, t, fs, k, s);
    MembersHead(d, u, gs, k, r);
    if k == |fs| {
      CatCancel(['}'], ['}'], s, r);
    } else {
      var s', r' := WriteMembers(d, t, fs, k + 1, s), WriteMembers(d, u, gs, k + 1, r);
      var x, y := Write(d, fs[k].val, s'), Write(d, gs[k].val, r');
      MemberCancel(d, k, fs[k].key, gs[k].key, x, y);
      WriteCancel(d, fs[k].val, gs[k].val, s', r');
      MembersCancel(d, t, u, fs, gs, k + 1, s, r);
    }
  }

  lemma SameFromSorted(d: Dialect, t: Tree, u: Tree, fs: seq<Field<Tree>>, gs: seq<Field<Tree>>)
    requires t.Obj? && u.Obj? && Ascending(d, fs) && |fs| == |gs|
    requires (forall f :: f in fs <==> f in t.fields) && forall g :: g in gs <==> g in u.fields
    requires forall i | 0 <= i < |fs| :: fs[i].key == gs[i].key && Same(fs[i].val, gs[i].val)
    ensures Same(t, u)
  {
    AscendingDistinct(d, fs);
    forall k | k in Keys(t.fields) ensures k in Keys(u.fields) {
      var f :| f in t.fields && f.key == k;
      var i :| 0 <= i < |fs| && fs[i] == f;
      assert gs[i] in gs;
    }
    forall k | k in Keys(u.fields) ensures k in Keys(t.fields) {
      var g :| g in u.fields && g.key == k;
      var i :| 0 <= i < |gs| && gs[i] == g;
      assert fs[i] in fs;
    }
    forall f, g | f in t.fields && g in u.fields && f.key == g.key ensures Same(f.val, g.val) {
      assert f in fs && g in gs;
      var i :| 0 <= i < |fs| && fs[i] == f;
      var j :| 0 <= j < |gs| && gs[j] == g;
      assert fs[j].key == fs[i].key;
    }
  }

  /** Equal values have equal text: the text does not depend on the order the keys were stored in. */
  lemma {:induction false} SameWrite(d: Dialect, t: Tree, u: Tree, rest: string)
    requires WellFormed(t) && WellFormed(u) && Same(t, u)
    ensures Write(d, t, rest) == Write(d, u, rest)
    decreases t, 1, 0
  {
    if t.Arr? && u.Arr? {
      SameItems(d, t, u, 0, rest);
    } else if t.Obj? && u.Obj? {
      var fs, gs := Sort(d, t.fields), Sort(d, u.fields);
      SortAscending(d, t.fields);
      SortAscending(d, u.fields);
      SortWithin(d, t);
      SortWithin(d, u);
      SortWellFormed(d, t);
      SortWellFormed(d, u);
      assert Keys(fs) == Keys(t.fields) && Keys(gs) == Keys(u.fields);
      AscendingUnique(d, fs, gs);
      forall i | 0 <= i < |fs| ensures Same(fs[i].val, gs[i].val) {
        assert fs[i] in t.fields && gs[i] in u.fields;
      }
      SameMembers(d, t, u, fs, gs, 0, rest);
    }
  }

  lemma {:induction false} SameItems(d: Dialect, t: Tree, u: Tree, k: nat, rest: string)
    requires t.Arr? && u.Arr? && WellFormed(t) && WellFormed(u) && Same(t, u) && k <= |t.items|
    ensures WriteItems(d, t, k, rest) == WriteItems(d, u, k, rest)
    decreases t, 0, |t.items| - k
  {
    if k < |t.items| {
      SameItems(d, t, u, k + 1, rest);
      SameWrite(d, t.items[k], u.items[k], WriteItems(d, t, k + 1, rest));
    }
  }

  lemma {:induction false} SameMembers(d: Dialect, t: Tree, u: Tree, fs: seq<Field<Tree>>, gs: seq<Field<Tree>>,
      k: nat, rest: string)
    requires WellFormedMembers(fs) && WellFormedMembers(gs) && k <= |fs| == |gs| && Within(t, fs) && Within(u, gs)
    requires forall i | 0 <= i < |fs| :: fs[i].key == gs[i].key && Same(fs[i].val, gs[i].val)
    ensures WriteMembers(d, t, fs, k, rest) == WriteMembers(d, u, gs, k, rest)
    decreases t, 0, |fs| - k
  {
    if k < |fs| {
      var f, g := fs[k], gs[k];
      SameMembers(d, t, u, fs, gs, k + 1, rest);
      var w := WriteMembers(d, t, fs, k + 1, rest);
      SameWrite(d, f.val, g.val, w);
      assert WriteMembers(d, t, fs, k, rest) == Comma(k, WriteString(d, f.key, [':'] + Write(d, f.val, w)));
      assert WriteMembers(d, u, gs, k, rest) == Comma(k, WriteString(d, g.key, [':'] + Write(d, g.val, w)));
    }
  }

  /** The compact sorted text is a complete invariant of the JSON value. */
  lemma SerializeEqualIffSame(d: Dialect, t: Tree, u: Tree)
    requires WellFormed(t) && WellFormed(u)
    ensures Serialize(d, t) == Serialize(d, u) <==> Same(t, u)
  {
    if Serialize(d, t) == Serialize(d, u) {
      WriteCancel(d, t, u, "", "");
    }
    if Same(t, u) {
      SameWrite(d, t, u, "");
    }
  }

  lemma {:induction false} SameReflexive(t: Tree)
    requires WellFormed(t)
    ensures Same(t, t)
  {
    if t.Arr? {
      forall i | 0 <= i < |t.items| ensures Same(t.items[i], t.items[i]) {
        SameReflexive(t.items[i]);
      }
    } else if t.Obj? {
      forall f, g | f in t.fields && g in t.fields && f.key == g.key ensures Same(f.val, g.val) {
        SameReflexive(f.val);
      }
    }
  }
}

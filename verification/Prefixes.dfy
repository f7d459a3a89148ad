/** Reading an IPv4 prefix from its text, with a length, a netmask or a hostmask, as `ip_network(.., strict=False)`
    does. */
module Prefixes {
  import opened Results
  import opened Json
  import opened Addressing

  function Split(s: string, c: char): (parts: seq<string>)
    ensures parts != []
  {
    if s == "" then [""] else
    var rest := Split(s[1..], c);
    if s[0] == c then [""] + rest else [[s[0]] + rest[0]] + rest[1..]
  }

  predicate AllDigits(s: string) { s != "" && forall i | 0 <= i < |s| :: IsDigit(s[i]) }

  /** At most three digits, none of them a leading zero, and at most 255. */
  function Octet(s: string): Option<int> {
    if !AllDigits(s) || |s| > 3 || (s != "0" && s[0] == '0') || ValueOf(s) > 255 then None else Some(ValueOf(s))
  }

  lemma {:induction false} ValueNotNegative(s: string)
    requires forall i | 0 <= i < |s| :: IsDigit(s[i])
    ensures ValueOf(s) >= 0
  {
    if s != "" {
      ValueNotNegative(s[..|s| - 1]);
    }
  }

  lemma OctetRange(s: string)
    requires Octet(s).Some?
    ensures 0 <= Octet(s).value <= 255
  {
    ValueNotNegative(s);
  }

  function FromOctets(a: int, b: int, c: int, d: int): int { 0x100_0000 * a + 0x1_0000 * b + 0x100 * c + d }

  function Address(s: string): (address: Option<nat>)
    ensures address.Some? ==> address.value < SPACE
  {
    var parts := Split(s, '.');
    if |parts| != 4 then None else
    var a, b, c, d := Octet(parts[0]), Octet(parts[1]), Octet(parts[2]), Octet(parts[3]);
    if a.None? || b.None? || c.None? || d.None? then None else
    OctetRange(parts[0]);
    OctetRange(parts[1]);
    OctetRange(parts[2]);
    OctetRange(parts[3]);
    Some(FromOctets(a.value, b.value, c.value, d.value))
  }

  /** The length, up to `len`, whose netmask is `m`. */
  function MaskLength(m: nat, len: nat): (r: Option<nat>)
    requires len <= 32
    ensures r.Some? ==> r.value <= 32 && m + Size(r.value) == SPACE
    ensures r.None? ==> forall k | 0 <= k <= len :: m + Size(k) != SPACE
  {
    if m + Size(len) == SPACE then Some(len) else if len == 0 then None else MaskLength(m, len - 1)
  }

  /** A decimal length, a netmask, or failing that a hostmask. */
  function Length(s: string): (len: Option<nat>)
    ensures len.Some? ==> len.value <= 32
  {
    if AllDigits(s) && ValueOf(s) <= 32 then ValueNotNegative(s); Some(ValueOf(s)) else
    match Address(s)
    case None => None
    case Some(m) => if MaskLength(m, 32).Some? then MaskLength(m, 32) else MaskLength(SPACE - 1 - m, 32)
  }

  /** The prefix a text denotes, None for one that is no IPv4 prefix. */
  function ReadNet(s: string): (n: Option<Net>)
    ensures n.Some? ==> IsNet(n.value)
  {
    var parts := Split(s, '/');
    if |parts| > 2 then None else
    match Address(parts[0])
    case None => None
    case Some(a) =>
      match if |parts| == 1 then Some(32) else Length(parts[1])
      case None => None
      case Some(len) => NetOfIsNet(a, len); Some(NetOf(a, len))
  }

  // ----- writing -----

  function AddressText(a: nat): string {
    Digits(a / 0x100_0000) + ['.'] + (Digits(a / 0x1_0000 % 256) + ['.']
      + (Digits(a / 256 % 256) + ['.'] + Digits(a % 256)))
  }

  function NetText(a: nat, len: nat): string { AddressText(a) + ['/'] + Digits(len) }

  lemma {:induction false} SplitCat(a: string, c: char, b: string)
    requires c !in a
    ensures Split(a, c) == [a] && Split(a + [c] + b, c) == [a] + Split(b, c)
  {
    if a == "" {
      assert (a + [c] + b)[1..] == b;
    } else {
      SplitCat(a[1..], c, b);
      assert (a + [c] + b)[1..] == a[1..] + [c] + b;
      assert [a[0]] + a[1..] == a;
    }
  }

  lemma {:induction false} DigitsShape(n: nat)
    ensures AllDigits(Digits(n)) && (n > 0 ==> Digits(n)[0] != '0')
    ensures n < 1000 ==> |Digits(n)| <= 3
    ensures n < 100 ==> |Digits(n)| <= 2
    ensures n < 10 ==> |Digits(n)| == 1
  {
    ValueOfDigits(n);
    if n >= 10 {
      DigitsShape(n / 10);
    }
  }

  lemma OctetReads(n: nat)
    requires n < 256
    ensures Octet(Digits(n)) == Some(n) && '.' !in Digits(n) && '/' !in Digits(n)
  {
    DigitsShape(n);
    ValueOfDigits(n);
    assert Digits(0) == "0";
  }

  lemma Octets(a: nat)
    requires a < SPACE
    ensures a / 0x100_0000 < 256
    ensures FromOctets(a / 0x100_0000, a / 0x1_0000 % 256, a / 256 % 256, a % 256) == a
  {
    assert a / 0x1_0000 == a / 256 / 256 && a / 0x100_0000 == a / 256 / 256 / 256;
  }

  lemma FourParts(w: string, x: string, y: string, z: string)
    requires '.' !in w && '.' !in x && '.' !in y && '.' !in z
    ensures Split(w + ['.'] + (x + ['.'] + (y + ['.'] + z)), '.') == [w, x, y, z]
  {
    SplitCat(z, '.', "");
    SplitCat(y, '.', z);
    SplitCat(x, '.', y + ['.'] + z);
    SplitCat(w, '.', x + ['.'] + (y + ['.'] + z));
  }

  lemma AddressReads(a: nat)
    requires a < SPACE
    ensures Address(AddressText(a)) == Some(a) && '/' !in AddressText(a) && '.' in AddressText(a)
  {
    var b, c, d, e := a / 0x100_0000, a / 0x1_0000 % 256, a / 256 % 256, a % 256;
    Octets(a);
    OctetReads(b);
    OctetReads(c);
    OctetReads(d);
    OctetReads(e);
    FourParts(Digits(b), Digits(c), Digits(d), Digits(e));
  }

  /** A written prefix reads back with its host bits cleared. */
  lemma NetReads(a: nat, len: nat)
    requires a < SPACE && len <= 32
    ensures ReadNet(NetText(a, len)) == Some(NetOf(a, len))
    ensures ReadNet(AddressText(a)) == Some(NetOf(a, 32))
  {
    AddressReads(a);
    DigitsShape(len);
    ValueOfDigits(len);
    SplitCat(AddressText(a), '/', Digits(len));
    SplitCat(Digits(len), '/', "");
  }

  lemma Even(n: int)
    ensures 2 * n % 2 == 0
  {
  }

  lemma Pow2Even(i: nat)
    requires i > 0
    ensures Pow2(i) % 2 == 0
  {
    assert Pow2(i) == 2 * Pow2(i - 1);
    Even(Pow2(i - 1));
  }

  lemma SizeInjective(k: nat, len: nat)
    requires k <= len <= 32
    ensures Size(k) == Size(len) <==> k == len
  {
    if k < len {
      Pow2Grows(32 - len, 32 - k - 1);
    }
  }

  lemma MaskFound(m: nat, len: nat)
    requires len <= 32 && m + Size(len) == SPACE
    ensures MaskLength(m, 32) == Some(len)
  {
    var k := MaskLength(m, 32);
    if k.Some? {
      if k.value <= len { SizeInjective(k.value, len); } else { SizeInjective(len, k.value); }
    }
  }

  lemma NoNetmask(len: nat, k: nat)
    requires 0 < len < 32 && k <= 32
    ensures Size(len) - 1 + Size(k) != SPACE
  {
    SpaceIsSize();
    Pow2Even(32);
    Pow2Even(32 - len);
    if k < 32 {
      Pow2Even(32 - k);
    } else {
      SizeInjective(0, len);
    }
  }

  /** A hostmask is taken for a netmask only when it is all zeros or all ones. */
  lemma HostmaskFound(len: nat)
    requires 0 < len < 32
    ensures MaskLength(Size(len) - 1, 32).None?
  {
    var k := MaskLength(Size(len) - 1, 32);
    if k.Some? {
      NoNetmask(len, k.value);
    }
  }

  lemma MaskText(m: nat)
    requires m < SPACE
    ensures Length(AddressText(m)) ==
            if MaskLength(m, 32).Some? then MaskLength(m, 32) else MaskLength(SPACE - 1 - m, 32)
  {
    AddressReads(m);
  }

  function MaskedText(a: nat, m: nat): string { AddressText(a) + ['/'] + AddressText(m) }

  lemma WithMask(a: nat, m: nat, len: nat)
    requires a < SPACE && m < SPACE && len <= 32
    requires MaskLength(m, 32) == Some(len) || (MaskLength(m, 32).None? && MaskLength(SPACE - 1 - m, 32) == Some(len))
    ensures ReadNet(MaskedText(a, m)) == Some(NetOf(a, len))
  {
    AddressReads(a);
    AddressReads(m);
    MaskText(m);
    SplitCat(AddressText(a), '/', AddressText(m));
    SplitCat(AddressText(m), '/', "");
  }

  /** A netmask reads as the length it stands for. */
  lemma NetmaskReads(a: nat, m: nat, len: nat)
    requires a < SPACE && len <= 32 && m + Size(len) == SPACE
    ensures ReadNet(MaskedText(a, m)) == Some(NetOf(a, len))
  {
    MaskFound(m, len);
    WithMask(a, m, len);
  }

  /** So does a hostmask, unless it is all zeros or all ones, which is a netmask too. */
  lemma HostmaskReads(a: nat, m: nat, len: nat)
    requires a < SPACE && len <= 32 && m + 1 == Size(len)
    ensures m < SPACE
    ensures ReadNet(MaskedText(a, m)) == Some(NetOf(a, if len == 0 then 32 else if len == 32 then 0 else len))
  {
    SpaceIsSize();
    Pow2Grows(32 - len, 32);
    if 0 < len < 32 {
      HostmaskFound(len);
      MaskFound(SPACE - 1 - m, len);
      WithMask(a, m, len);
    } else {
      MaskFound(m, 32 - len);
      WithMask(a, m, 32 - len);
    }
  }

  // ----- the lab island -----

  /** Where the lab island's own compose file has each core container on 10.10.0.0/24. */
  function LabNode(nf: Nf): string {
    match nf
    case Mongo => "2" case Smf => "4" case Amf => "5" case Upf => "7" case Nrf => "10" case Ausf => "11"
    case Udm => "12" case Pcf => "13" case Nssf => "14" case Bsf => "15" case Sepp => "16" case Udr => "20"
    case Mme => "30" case Sgwc => "31" case Sgwu => "32" case Hss => "33" case Pcrf => "34"
  }

  /** Where its zone file and compose files have the members of 10.46.0.0/24, as far as they do. */
  function LabService(m: Member): Option<string> {
    match m
    case Dns => Some("53") case Portal => Some("10") case Library => Some("11") case Chat => Some("20")
    case Talk => Some("30") case Console => Some("40") case UpfGateway => Some("2") case WgOverlay => Some("45")
    case _ => None
  }

  lemma ShortDigits(n: nat)
    requires n < 100
    ensures Digits(n) == if n < 10 then [DigitChar(n)] else [DigitChar(n / 10), DigitChar(n % 10)]
  {
  }

  lemma LastOctet(x: nat, e: nat)
    requires e < 256
    ensures (0x100 * x + e) / 256 == x && (0x100 * x + e) % 256 == e
  {
  }

  lemma OctetsOf(b: nat, c: nat, d: nat, e: nat)
    requires b < 256 && c < 256 && d < 256 && e < 256
    ensures var a := FromOctets(b, c, d, e);
      a >= 0 && a / 0x100_0000 == b && a / 0x1_0000 % 256 == c && a / 256 % 256 == d && a % 256 == e
  {
    var a := FromOctets(b, c, d, e);
    var x := 0x100 * b + c;
    var y := 0x100 * x + d;
    assert a == 0x100 * y + e;
    LastOctet(y, e);
    LastOctet(x, d);
    LastOctet(b, c);
    assert a / 0x1_0000 == a / 256 / 256 && a / 0x100_0000 == a / 256 / 256 / 256;
  }

  lemma TextOf(b: nat, c: nat, d: nat, e: nat)
    requires b < 256 && c < 256 && d < 256 && e < 256
    ensures FromOctets(b, c, d, e) >= 0
    ensures AddressText(FromOctets(b, c, d, e)) ==
            Digits(b) + ['.'] + (Digits(c) + ['.'] + (Digits(d) + ['.'] + Digits(e)))
  {
    OctetsOf(b, c, d, e);
  }

  lemma Flat(w: string, x: string, y: string, z: string)
    ensures w + ['.'] + (x + ['.'] + (y + ['.'] + z)) == (w + ['.'] + x + ['.'] + y + ['.']) + z
  {
  }

  lemma Leading(second: nat, text: string)
    requires second < 100 && Digits(second) == text
    ensures Digits(10) + ['.'] + Digits(second) + ['.'] + Digits(0) + ['.'] == "10." + text + ".0."
  {
    ShortDigits(10);
    ShortDigits(0);
    assert Digits(10) + ['.'] == "10." && ['.'] + Digits(0) + ['.'] == ".0.";
  }

  lemma LabText(second: nat, text: string, e: nat, last: string)
    requires second < 100 && Digits(second) == text && e < 256 && Digits(e) == last
    ensures AddressText(FromOctets(10, second, 0, e)) == "10." + text + ".0." + last
  {
    TextOf(10, second, 0, e);
    Flat(Digits(10), Digits(second), Digits(0), Digits(e));
    Leading(second, text);
  }

  /** Planned from the lab island's prefixes, every core container is where its compose file has it. */
  lemma LabNodesAgree(nf: Nf)
    ensures AddressText(FromOctets(10, 10, 0, 0) + NodeOffset(nf)) == "10." + "10" + ".0." + LabNode(nf)
  {
    ShortDigits(10);
    ShortDigits(NodeOffset(nf));
    LabText(10, "10", NodeOffset(nf), LabNode(nf));
  }

  /** And every member of the services network. */
  lemma LabServicesAgree(m: Member)
    ensures LabService(m).Some? ==>
              AddressText(FromOctets(10, 46, 0, 0) + ServiceOffset(m)) == "10." + "46" + ".0." + LabService(m).value
  {
    ShortDigits(46);
    ShortDigits(ServiceOffset(m));
    if LabService(m).Some? {
      LabText(46, "46", ServiceOffset(m), LabService(m).value);
    }
  }
}

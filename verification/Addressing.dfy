/** IPv4 prefixes, the overlap check, and the addresses an island's rendering plans from its prefixes. */
module Addressing {
  import opened Results

  const SPACE: nat := 0x1_0000_0000

  function Pow2(n: nat): (p: nat)
    ensures p > 0
  {
    if n == 0 then 1 else 2 * Pow2(n - 1)
  }

  /** A prefix by its network address and length, as `ip_network` holds it. */
  datatype Net = Net(base: nat, len: nat)

  function Size(len: nat): (s: nat)
    requires len <= 32
    ensures s > 0
  {
    Pow2(32 - len)
  }

  /** `a` with its lowest bits cleared. */
  function Cleared(a: nat, bits: nat): (m: nat)
    ensures m <= a
  {
    if bits == 0 then a else 2 * Cleared(a / 2, bits - 1)
  }

  /** The address with its host bits cleared. */
  function Masked(a: nat, len: nat): nat
    requires len <= 32
  {
    Cleared(a, 32 - len)
  }

  predicate IsNet(n: Net) { n.len <= 32 && n.base < SPACE && Masked(n.base, n.len) == n.base }

  /** `ip_network(.., strict=False)`. */
  function NetOf(a: nat, len: nat): Net
    requires a < SPACE && len <= 32
  {
    Net(Masked(a, len), len)
  }

  predicate Contains(n: Net, a: nat)
    requires IsNet(n)
  {
    Masked(a, n.len) == n.base
  }

  function Broadcast(n: Net): nat
    requires IsNet(n)
  {
    n.base + Size(n.len) - 1
  }

  /** `overlaps`: an end of one is in the other. */
  predicate Overlaps(n: Net, m: Net)
    requires IsNet(n) && IsNet(m)
  {
    Contains(n, m.base) || Contains(n, Broadcast(m)) || Contains(m, n.base) || Contains(m, Broadcast(n))
  }

  // ----- what prefixes mean -----

  lemma TimesGrows(s: int, x: int, y: int)
    requires s > 0 && x <= y
    ensures s * x <= s * y
  {
  }

  lemma TimesDistributes(s: nat, k: nat, i: nat)
    ensures (s * k) * i == s * (k * i) && (s * k) * i + s * k == s * (k * i + k)
  {
  }

  /** Clearing the low bits leads to the start of the block the address is in. */
  lemma {:induction false} ClearedBlock(a: nat, bits: nat) returns (k: nat)
    ensures Cleared(a, bits) == Pow2(bits) * k
    ensures Cleared(a, bits) <= a < Cleared(a, bits) + Pow2(bits)
  {
    if bits == 0 {
      k := a;
    } else {
      k := ClearedBlock(a / 2, bits - 1);
      TimesDistributes(2, Pow2(bits - 1), k);
    }
  }

  lemma NextBlock(s: int, q: int, k: int)
    requires s > 0 && q < k
    ensures s * q + s <= s * k
  {
    TimesGrows(s, q + 1, k);
  }

  lemma BlockUnique(a: int, s: int, q: int, k: int)
    requires s > 0 && s * q <= a < s * q + s
    ensures s * q == s * k <==> s * k <= a < s * k + s
  {
    if q < k {
      NextBlock(s, q, k);
    } else if k < q {
      NextBlock(s, k, q);
    }
  }

  lemma MaskedIffBlock(a: nat, len: nat, k: nat)
    requires len <= 32
    ensures Masked(a, len) == Size(len) * k <==> Size(len) * k <= a < Size(len) * k + Size(len)
  {
    var q := ClearedBlock(a, 32 - len);
    BlockUnique(a, Size(len), q, k);
  }

  lemma BaseIsMultiple(n: Net) returns (k: nat)
    requires IsNet(n)
    ensures n.base == Size(n.len) * k
  {
    k := ClearedBlock(n.base, 32 - n.len);
  }

  /** A prefix holds exactly the addresses from its network address to its broadcast address. */
  lemma ContainsIffBetween(n: Net, a: nat)
    requires IsNet(n)
    ensures Contains(n, a) <==> n.base <= a <= Broadcast(n)
  {
    var k := BaseIsMultiple(n);
    MaskedIffBlock(a, n.len, k);
  }

  lemma {:induction false} Pow2Product(i: nat, j: nat)
    ensures Pow2(i + j) == Pow2(i) * Pow2(j)
  {
    if i > 0 {
      Pow2Product(i - 1, j);
      assert Pow2(i) * Pow2(j) == 2 * (Pow2(i - 1) * Pow2(j));
    }
  }

  lemma {:induction false} Pow2Grows(i: nat, j: nat)
    requires i <= j
    ensures Pow2(i) <= Pow2(j)
  {
    if i < j {
      Pow2Grows(i, j - 1);
    }
  }

  lemma NetOfIsNet(a: nat, len: nat)
    requires a < SPACE && len <= 32
    ensures IsNet(NetOf(a, len)) && Contains(NetOf(a, len), a)
  {
    var k := ClearedBlock(a, 32 - len);
    MaskedIffBlock(Masked(a, len), len, k);
  }

  /** A block of `s` and a longer one that both start and end at multiples of `s` do not cross. */
  lemma Aligned(s: nat, j: nat, first: nat, last: nat, a: nat)
    requires s > 0
    requires s * j <= a < s * (j + 1) && s * first <= a < s * last
    ensures s * first <= s * j && s * (j + 1) <= s * last
  {
    if j < first {
      TimesGrows(s, j + 1, first);
    } else {
      TimesGrows(s, first, j);
    }
    if last < j + 1 {
      TimesGrows(s, last, j);
    } else {
      TimesGrows(s, j + 1, last);
    }
  }

  predicate Within(m: Net, n: Net)
    requires IsNet(n) && IsNet(m)
  {
    n.base <= m.base && Broadcast(m) <= Broadcast(n)
  }

  /** A prefix ends, as it starts, at a multiple of the size of any longer one. */
  lemma Ends(n: Net, len: nat) returns (first: nat, last: nat)
    requires IsNet(n) && n.len <= len <= 32
    ensures n.base == Size(len) * first && n.base + Size(n.len) == Size(len) * last
  {
    var s, k := Size(len), Pow2(len - n.len);
    Pow2Product(32 - len, len - n.len);
    var i := BaseIsMultiple(n);
    TimesDistributes(s, k, i);
    first, last := k * i, k * i + k;
  }

  lemma SharedMeansNested(n: Net, m: Net, a: nat)
    requires IsNet(n) && IsNet(m) && n.len <= m.len
    requires Contains(n, a) && Contains(m, a)
    ensures Within(m, n)
  {
    var s := Size(m.len);
    var first, last := Ends(n, m.len);
    var j := BaseIsMultiple(m);
    ContainsIffBetween(n, a);
    ContainsIffBetween(m, a);
    Aligned(s, j, first, last, a);
  }

  ghost predicate Share(n: Net, m: Net)
    requires IsNet(n) && IsNet(m)
  {
    exists a: nat :: Contains(n, a) && Contains(m, a)
  }

  /** Two prefixes are nested, the longer in the shorter, or have no address in common. */
  lemma NestedOrDisjoint(n: Net, m: Net)
    requires IsNet(n) && IsNet(m) && n.len <= m.len
    ensures Share(n, m) <==> Within(m, n)
    ensures Within(m, n) <==> forall a: nat :: Contains(m, a) ==> Contains(n, a)
  {
    ContainsIffBetween(m, m.base);
    ContainsIffBetween(m, Broadcast(m));
    ContainsIffBetween(n, m.base);
    ContainsIffBetween(n, Broadcast(m));
    if a: nat :| Contains(n, a) && Contains(m, a) {
      SharedMeansNested(n, m, a);
    }
    forall a: nat | Contains(m, a) && Within(m, n) ensures Contains(n, a) {
      ContainsIffBetween(m, a);
      ContainsIffBetween(n, a);
    }
  }

  lemma OverlapsOneWay(n: Net, m: Net)
    requires IsNet(n) && IsNet(m) && n.len <= m.len
    ensures (Overlaps(n, m) <==> Share(n, m)) && (Overlaps(m, n) <==> Share(n, m))
  {
    NestedOrDisjoint(n, m);
    ContainsIffBetween(m, m.base);
    ContainsIffBetween(m, Broadcast(m));
    ContainsIffBetween(n, n.base);
    ContainsIffBetween(n, Broadcast(n));
    ContainsIffBetween(n, m.base);
  }

  /** `overlaps` looks at four addresses and says whether any is shared. */
  lemma OverlapsIffShare(n: Net, m: Net)
    requires IsNet(n) && IsNet(m)
    ensures Overlaps(n, m) <==> Share(n, m)
  {
    if n.len <= m.len {
      OverlapsOneWay(n, m);
    } else {
      OverlapsOneWay(m, n);
      if a: nat :| Contains(n, a) && Contains(m, a) {
        assert Share(m, n);
      }
    }
  }

  /** The prefix-overlap check on the two prefixes as read, None for one that is missing or malformed. */
  predicate PrefixesReported(ue: Option<Net>, services: Option<Net>)
    requires (ue.Some? ==> IsNet(ue.value)) && (services.Some? ==> IsNet(services.value))
  {
    ue.Some? && services.Some? && Overlaps(ue.value, services.value)
  }

  // ----- the address plan -----

  /** The core containers with a fixed address on the node's core network. */
  datatype Nf = Mongo | Smf | Amf | Upf | Nrf | Ausf | Udm | Pcf | Nssf | Bsf | Udr | Mme | Sgwc | Sgwu | Hss
    | Pcrf | Sepp

  function NodeOffset(nf: Nf): nat {
    match nf
    case Mongo => 2 case Smf => 4 case Amf => 5 case Upf => 7 case Nrf => 10 case Ausf => 11 case Udm => 12
    case Pcf => 13 case Nssf => 14 case Bsf => 15 case Udr => 20 case Mme => 30 case Sgwc => 31 case Sgwu => 32
    case Hss => 33 case Pcrf => 34 case Sepp => 16
  }

  /** The services by name, and the second addresses upf, wg-overlay, amf and sepp have beside them. */
  datatype Member = Dns | Portal | Library | Chat | Talk | Console | UpfGateway | WgOverlay | AmfPeered | SeppPeered

  function ServiceOffset(m: Member): nat {
    match m
    case Dns => 53 case Portal => 10 case Library => 11 case Chat => 20 case Talk => 30 case Console => 40
    case UpfGateway => 2 case WgOverlay => 45 case AmfPeered => 5 case SeppPeered => 46
  }

  /** The first /24 of the base, None where `ip_network` refuses it for its host bits. */
  function CoreNet(base: Net): Option<Net> {
    if base.base % 256 == 0 then Some(Net(base.base, 24)) else None
  }

  /** `network_address + offset`, None past the end of the address space. */
  function Plus(base: nat, offset: nat): Option<nat> {
    if base + offset < SPACE then Some(base + offset) else None
  }

  lemma SizeOf(len: nat)
    requires len <= 32
    ensures Size(24) == 256 && Size(26) == 64
    ensures len <= 26 <==> Size(len) >= 64
    ensures len > 26 ==> Size(len) <= 32
    ensures len <= 31 <==> Size(len) >= 2
  {
    assert Pow2(4) == 16;
    assert Pow2(5) == 32 && Pow2(6) == 64;
    assert Pow2(8) == 256;
    if len <= 26 { Pow2Grows(6, 32 - len); } else { Pow2Grows(32 - len, 5); }
    if len <= 31 { Pow2Grows(1, 32 - len); }
  }

  lemma SpaceIsSize()
    ensures Size(0) == SPACE
  {
    assert Pow2(8) == 2 * (2 * (2 * (2 * Pow2(4)))) && Pow2(4) == 16;
    Pow2Product(8, 8);
    Pow2Product(16, 16);
  }

  /** A prefix ends inside the address space. */
  lemma EndsInSpace(n: Net)
    requires IsNet(n)
    ensures n.base + Size(n.len) <= SPACE
  {
    var whole := Net(0, 0);
    SpaceIsSize();
    MaskedIffBlock(0, 0, 0);
    MaskedIffBlock(n.base, 0, 0);
    SharedMeansNested(whole, n, n.base);
  }

  lemma Divisible(x: nat, k: nat)
    ensures x == 256 * k ==> x % 256 == 0
    ensures x == 64 * k ==> x % 64 == 0
  {
  }

  lemma ShortBase(base: Net)
    requires IsNet(base) && base.len <= 24
    ensures base.base % 256 == 0 && base.base + 256 <= base.base + Size(base.len)
  {
    SizeOf(24);
    var first, last := Ends(base, 24);
    Divisible(base.base, first);
    if last <= first {
      TimesGrows(256, last, first);
    }
    TimesGrows(256, first + 1, last);
  }

  /** A base of length at most 24 always has a core network, inside it; a longer one may, wider than itself. */
  lemma CoreNetOf(base: Net)
    requires IsNet(base)
    ensures base.len <= 24 ==> CoreNet(base).Some?
    ensures CoreNet(base).Some? ==>
              IsNet(CoreNet(base).value) && (Within(CoreNet(base).value, base) <==> base.len <= 24)
    ensures CoreNet(base).Some? ==> base.base + 256 <= SPACE
  {
    SizeOf(24);
    if base.len <= 24 {
      ShortBase(base);
    } else {
      Pow2Grows(32 - base.len, 7);
      assert Pow2(7) == 128;
    }
    if CoreNet(base).Some? {
      MaskedIffBlock(base.base, 24, base.base / 256);
      EndsInSpace(CoreNet(base).value);
    }
  }

  /** Every address of a plan exists and lies in `n`. */
  ghost predicate AllInside<A(!new)>(n: Net, offset: A -> nat)
    requires IsNet(n)
  {
    forall x :: Plus(n.base, offset(x)).Some? && Contains(n, n.base + offset(x))
  }

  lemma InsideIffSize<A(!new)>(n: Net, offset: A -> nat, last: A)
    requires IsNet(n) && forall x :: offset(x) <= offset(last)
    ensures AllInside(n, offset) <==> offset(last) < Size(n.len)
  {
    EndsInSpace(n);
    forall x ensures Contains(n, n.base + offset(x)) <==> offset(x) < Size(n.len) {
      ContainsIffBetween(n, n.base + offset(x));
    }
  }

  /** Every node address of a base with a core network exists, and all lie inside the base exactly when its
      length is at most 26. */
  lemma NodeAddressesFit(base: Net)
    requires IsNet(base) && CoreNet(base).Some?
    ensures forall nf :: Plus(base.base, NodeOffset(nf)) == Some(base.base + NodeOffset(nf))
    ensures AllInside(base, NodeOffset) <==> base.len <= 26
  {
    CoreNetOf(base);
    SizeOf(base.len);
    InsideIffSize(base, NodeOffset, Pcrf);
  }

  /** The service addresses exist inside their prefix exactly when its length is at most 26. */
  lemma ServiceAddressesFit(n: Net)
    requires IsNet(n)
    ensures AllInside(n, ServiceOffset) <==> n.len <= 26
  {
    SizeOf(n.len);
    InsideIffSize(n, ServiceOffset, Dns);
  }

  /** Some address of one plan is an address of the other. */
  ghost predicate Collide<A(!new), B(!new)>(a: nat, offset: A -> nat, b: nat, other: B -> nat) {
    exists x, y :: Plus(a, offset(x)).Some? && Plus(a, offset(x)) == Plus(b, other(y))
  }

  /** No two names of a plan share an address. */
  lemma NamesApart(base: nat)
    ensures forall x, y | Plus(base, NodeOffset(x)).Some? && Plus(base, NodeOffset(x)) == Plus(base, NodeOffset(y)) ::
              x == y
    ensures forall x, y | Plus(base, ServiceOffset(x)).Some? &&
              Plus(base, ServiceOffset(x)) == Plus(base, ServiceOffset(y)) :: x == y
  {
  }

  lemma FarApart<A(!new), B(!new)>(a: nat, offset: A -> nat, b: nat, other: B -> nat, gap: nat)
    requires forall x :: offset(x) < gap
    requires forall y :: other(y) < gap
    requires a + gap <= b || b + gap <= a
    ensures !Collide(a, offset, b, other)
  {
  }

  lemma Together<A(!new), B(!new)>(a: nat, offset: A -> nat, other: B -> nat, x: A, y: B)
    requires offset(x) == other(y) && a + offset(x) < SPACE
    ensures Collide(a, offset, a, other)
  {
    assert Plus(a, offset(x)) == Plus(a, other(y));
  }

  lemma Spaced(a: nat, b: nat)
    requires a % 256 == 0 && b % 64 == 0 && a != b
    ensures a + 64 <= b || b + 64 <= a
  {
  }

  lemma WideSpaced(a: nat, b: nat)
    requires a % 256 == 0 && b % 256 == 0 && a != b
    ensures a + 256 <= b || b + 256 <= a
  {
  }

  lemma NodesApart(a: nat, b: nat)
    requires a % 256 == 0 && b % 256 == 0 && a + 256 <= SPACE
    ensures Collide(a, NodeOffset, b, NodeOffset) <==> a == b
  {
    if a == b {
      Together(a, NodeOffset, NodeOffset, Nrf, Nrf);
    } else {
      WideSpaced(a, b);
      FarApart(a, NodeOffset, b, NodeOffset, 256);
    }
  }

  /** The node addresses of two islands are apart exactly when their bases start at different addresses, and
      always when the bases share no address. */
  lemma IslandsApart(a: Net, b: Net)
    requires IsNet(a) && IsNet(b) && CoreNet(a).Some? && CoreNet(b).Some?
    ensures Collide(a.base, NodeOffset, b.base, NodeOffset) <==> a.base == b.base
    ensures !Share(a, b) ==> a.base != b.base
  {
    CoreNetOf(a);
    NodesApart(a.base, b.base);
    if a.base == b.base {
      OverlapsIffShare(a, b);
    }
  }

  lemma MultipleOf64(n: Net)
    requires IsNet(n) && n.len <= 26
    ensures n.base % 64 == 0
  {
    SizeOf(26);
    var first, last := Ends(n, 26);
    Divisible(n.base, first);
  }

  predicate IsNodeOffset(o: int) {
    o == 2 || 4 <= o <= 5 || o == 7 || 10 <= o <= 16 || o == 20 || 30 <= o <= 34
  }

  lemma NodeWith(o: int) returns (nf: Nf)
    requires IsNodeOffset(o)
    ensures NodeOffset(nf) == o
  {
    nf := match o
      case 2 => Mongo case 4 => Smf case 5 => Amf case 7 => Upf case 10 => Nrf case 11 => Ausf case 12 => Udm
      case 13 => Pcf case 14 => Nssf case 15 => Bsf case 16 => Sepp case 20 => Udr case 30 => Mme case 31 => Sgwc
      case 32 => Sgwu case 33 => Hss case _ => Pcrf;
  }

  /** How far apart a services prefix and a node's base may start for some of their addresses to coincide. */
  predicate Clashing(gap: int) { -51 <= gap <= 32 && gap !in {-50, -47, -45, -2, 16, 17} }

  lemma ClashingPair(gap: int) returns (m: Member, nf: Nf)
    requires Clashing(gap)
    ensures NodeOffset(nf) == gap + ServiceOffset(m)
  {
    m :=
      if IsNodeOffset(gap + 53) then Dns else if IsNodeOffset(gap + 10) then Portal
      else if IsNodeOffset(gap + 11) then Library else if IsNodeOffset(gap + 20) then Chat
      else if IsNodeOffset(gap + 30) then Talk else if IsNodeOffset(gap + 40) then Console
      else if IsNodeOffset(gap + 2) then UpfGateway else if IsNodeOffset(gap + 45) then WgOverlay
      else if IsNodeOffset(gap + 5) then AmfPeered else SeppPeered;
    nf := NodeWith(gap + ServiceOffset(m));
  }

  lemma PairsClash(nf: Nf, m: Member)
    ensures Clashing(NodeOffset(nf) - ServiceOffset(m))
  {
    assert IsNodeOffset(NodeOffset(nf));
  }

  /** Which distances between the two prefixes make addresses on the services network collide with node addresses; up
      to a length of 26 the services prefix has to start where the node's base does. */
  lemma NodesAndServicesApart(base: Net, services: Net)
    requires IsNet(base) && CoreNet(base).Some? && IsNet(services)
    ensures Collide(base.base, NodeOffset, services.base, ServiceOffset) <==> Clashing(services.base - base.base)
    ensures services.len <= 26 ==> (Clashing(services.base - base.base) <==> base.base == services.base)
  {
    CoreNetOf(base);
    if services.len <= 26 {
      MultipleOf64(services);
      if base.base != services.base { Spaced(base.base, services.base); }
    }
    ClashesIff(base.base, services.base);
  }

  lemma ClashesIff(a: nat, b: nat)
    requires a + 256 <= SPACE
    ensures Collide(a, NodeOffset, b, ServiceOffset) <==> Clashing(b - a)
  {
    if Clashing(b - a) {
      var m, nf := ClashingPair(b - a);
      assert Plus(a, NodeOffset(nf)) == Plus(b, ServiceOffset(m));
    }
    if nf, m :| Plus(a, NodeOffset(nf)).Some? && Plus(a, NodeOffset(nf)) == Plus(b, ServiceOffset(m)) {
      PairsClash(nf, m);
    }
  }

  /** The overlap check compares the UE and services prefixes only: a services prefix that is the core network
      itself passes it, and its addresses collide with the node's. */
  lemma CheckMissesNodeBase(base: Net, ue: Net)
    requires IsNet(base) && base.len <= 24 && IsNet(ue) && !Share(ue, base)
    ensures
      var services := CoreNet(base);
      && services.Some? && IsNet(services.value) && !PrefixesReported(Some(ue), services)
      && Collide(base.base, NodeOffset, services.value.base, ServiceOffset)
  {
    CoreNetOf(base);
    var services := CoreNet(base).value;
    OverlapsIffShare(ue, services);
    if a: nat :| Contains(ue, a) && Contains(services, a) {
      ContainsIffBetween(services, a);
      ContainsIffBetween(base, a);
      assert Share(ue, base);
    }
    NodesAndServicesApart(base, services);
  }

  /** With prefixes the check passes, the UE gateway is inside its own prefix unless that is a single address, and
      is then none of the service addresses. */
  lemma GatewayApart(ue: Net, services: Net)
    requires IsNet(ue) && IsNet(services) && !PrefixesReported(Some(ue), Some(services))
    ensures Contains(ue, ue.base + 1) <==> ue.len <= 31
    ensures ue.len <= 31 && services.len <= 26 ==>
              forall m :: Plus(services.base, ServiceOffset(m)) != Some(ue.base + 1)
  {
    SizeOf(ue.len);
    ContainsIffBetween(ue, ue.base + 1);
    OverlapsIffShare(ue, services);
    ServiceAddressesFit(services);
  }
}

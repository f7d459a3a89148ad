/** SUPI ranges of an IMSI block, and the generator of unused test IMSIs. */
module Numbering {
  import opened Results
  import opened Json
  import opened Subscribers
  import Store

  // ----- SUPI ranges -----

  /** String comparison, as whatever reads a range compares its ends. */
  predicate AtMost(s: string, t: string) { s == t || Before(Python, s, t) }

  function Fill(n: nat, c: char): string { if n == 0 then "" else [c] + Fill(n - 1, c) }

  /** `s.ljust(n, c)`. */
  function LJust(s: string, n: nat, c: char): string { if |s| >= n then s else s + Fill(n - |s|, c) }

  datatype SupiRange = SupiRange(start: string, end: string)

  function SupiRangeOf(block: string): SupiRange { SupiRange(LJust(block, 15, '0'), LJust(block, 15, '9')) }

  predicate InRange(r: SupiRange, supi: string) { AtMost(r.start, supi) && AtMost(supi, r.end) }

  predicate DigitString(s: string) { forall i | 0 <= i < |s| :: IsDigit(s[i]) }

  predicate IsSupi(s: string) { |s| == 15 && DigitString(s) }

  lemma {:induction false} FillBounds(s: string)
    requires DigitString(s)
    ensures AtMost(Fill(|s|, '0'), s) && AtMost(s, Fill(|s|, '9'))
  {
    if s != "" {
      FillBounds(s[1..]);
      assert s == [s[0]] + s[1..];
      assert Fill(|s|, '0')[1..] == Fill(|s| - 1, '0') && Fill(|s|, '9')[1..] == Fill(|s| - 1, '9');
    }
  }

  lemma AtMostCons(s: string, t: string)
    requires s != "" && t != ""
    ensures AtMost(s, t) <==> (if s[0] == t[0] then AtMost(s[1..], t[1..]) else s[0] < t[0])
  {
    assert s == [s[0]] + s[1..] && t == [t[0]] + t[1..];
  }

  lemma LJustCons(s: string, n: nat, c: char)
    requires s != "" && |s| <= n
    ensures LJust(s, n, c) == [s[0]] + LJust(s[1..], n - 1, c)
  {
    var rest := s[1..];
    assert s == [s[0]] + rest && |rest| == |s| - 1;
    if |s| < n {
      var f := Fill(n - |s|, c);
      assert ([s[0]] + rest) + f == [s[0]] + (rest + f);
    }
  }

  lemma PrefixCons(s: string, t: string)
    requires s != "" && t != ""
    ensures s <= t <==> s[0] == t[0] && s[1..] <= t[1..]
  {
    assert s == [s[0]] + s[1..] && t == [t[0]] + t[1..];
    if s <= t {
      assert s[1..] == t[1..][..|s| - 1];
    }
  }

  lemma {:induction false} BetweenIffPrefix(block: string, supi: string)
    requires DigitString(block) && DigitString(supi) && |block| <= |supi|
    ensures AtMost(LJust(block, |supi|, '0'), supi) && AtMost(supi, LJust(block, |supi|, '9')) <==> block <= supi
  {
    if block == "" {
      FillBounds(supi);
      assert "" + Fill(|supi|, '0') == Fill(|supi|, '0') && "" + Fill(|supi|, '9') == Fill(|supi|, '9');
    } else {
      LJustCons(block, |supi|, '0');
      LJustCons(block, |supi|, '9');
      AtMostCons(LJust(block, |supi|, '0'), supi);
      AtMostCons(supi, LJust(block, |supi|, '9'));
      PrefixCons(block, supi);
      if block[0] == supi[0] {
        BetweenIffPrefix(block[1..], supi[1..]);
      }
    }
  }

  /** A SUPI is in the range of a block exactly when the block is its prefix. */
  lemma InRangeIffPrefix(block: string, supi: string)
    requires DigitString(block) && |block| <= 15 && IsSupi(supi)
    ensures InRange(SupiRangeOf(block), supi) <==> block <= supi
  {
    BetweenIffPrefix(block, supi);
  }

  lemma {:induction false} FillDigits(n: nat, c: char)
    requires IsDigit(c)
    ensures |Fill(n, c)| == n && DigitString(Fill(n, c))
  {
    if n > 0 {
      FillDigits(n - 1, c);
    }
  }

  lemma StartIsSupi(block: string)
    requires DigitString(block) && |block| <= 15
    ensures IsSupi(SupiRangeOf(block).start) && block <= SupiRangeOf(block).start
  {
    FillDigits(15 - |block|, '0');
  }

  ghost predicate Shared(a: string, b: string) {
    exists s :: IsSupi(s) && InRange(SupiRangeOf(a), s) && InRange(SupiRangeOf(b), s)
  }

  lemma PrefixesNest(a: string, b: string, s: string)
    requires a <= s && b <= s && |a| <= |b|
    ensures a <= b
  {
    assert a == s[..|a|] && b == s[..|b|];
  }

  lemma NestedShare(a: string, b: string)
    requires DigitString(a) && DigitString(b) && |b| <= 15 && a <= b
    ensures Shared(a, b) && Shared(b, a)
  {
    StartIsSupi(b);
    var start := SupiRangeOf(b).start;
    assert b == start[..|b|] && a == start[..|a|];
    InRangeIffPrefix(a, start);
    InRangeIffPrefix(b, start);
  }

  /** Two blocks share a SUPI exactly when one is a prefix of the other. */
  lemma RangesMeetIffNested(a: string, b: string)
    requires DigitString(a) && |a| <= 15 && DigitString(b) && |b| <= 15
    ensures Shared(a, b) <==> a <= b || b <= a
  {
    if a <= b {
      NestedShare(a, b);
    } else if b <= a {
      NestedShare(b, a);
    } else if Shared(a, b) {
      var s :| IsSupi(s) && InRange(SupiRangeOf(a), s) && InRange(SupiRangeOf(b), s);
      InRangeIffPrefix(a, s);
      InRangeIffPrefix(b, s);
      if |a| <= |b| { PrefixesNest(a, b, s); } else { PrefixesNest(b, a, s); }
    }
  }

  // ----- generated IMSIs -----

  const TEST_PLMN := "00101"

  function Pow10(n: nat): (p: nat)
    ensures p > 0
  {
    if n == 0 then 1 else 10 * Pow10(n - 1)
  }

  /** `f"{n:0{width}d}"`. */
  function ZeroPadded(n: nat, width: nat): string {
    if |Digits(n)| >= width then Digits(n) else Fill(width - |Digits(n)|, '0') + Digits(n)
  }

  function Candidate(n: nat): string { TEST_PLMN + ZeroPadded(n, 10) }

  lemma {:induction false} LeadingZeros(k: nat, s: string)
    ensures ValueOf(Fill(k, '0') + s) == ValueOf(s)
  {
    FillDigits(k, '0');
    var t := Fill(k, '0') + s;
    if s != "" {
      LeadingZeros(k, s[..|s| - 1]);
      assert t[..|t| - 1] == Fill(k, '0') + s[..|s| - 1];
    } else if k > 0 {
      LeadingZeros(k - 1, "");
      FillEnd(k);
      assert t == Fill(k, '0') && Fill(k - 1, '0') + "" == Fill(k - 1, '0');
    }
  }

  lemma {:induction false} FillEnd(k: nat)
    requires k > 0
    ensures Fill(k, '0') == Fill(k - 1, '0') + "0"
    ensures |Fill(k, '0')| == k && Fill(k, '0')[..k - 1] == Fill(k - 1, '0') && Fill(k, '0')[k - 1] == '0'
  {
    if k > 1 {
      FillEnd(k - 1);
    }
    FillDigits(k - 1, '0');
  }

  lemma PaddedValue(n: nat, width: nat)
    ensures ValueOf(ZeroPadded(n, width)) == n
  {
    ValueOfDigits(n);
    if |Digits(n)| < width {
      LeadingZeros(width - |Digits(n)|, Digits(n));
    }
  }

  lemma CandidateInjective(m: nat, n: nat)
    requires Candidate(m) == Candidate(n)
    ensures m == n
  {
    CatCancel(TEST_PLMN, TEST_PLMN, ZeroPadded(m, 10), ZeroPadded(n, 10));
    PaddedValue(m, 10);
    PaddedValue(n, 10);
  }

  lemma {:induction false} DigitsLength(n: nat, k: nat)
    requires k > 0
    ensures |Digits(n)| <= k <==> n < Pow10(k)
  {
    if k == 1 {
      assert Pow10(1) == 10;
      if n >= 10 {
        ValueOfDigits(n / 10);
      }
    } else if n >= 10 {
      DigitsLength(n / 10, k - 1);
    }
  }

  /** A candidate has the fifteen digits of an IMSI exactly while its number has at most ten. */
  lemma CandidateIsImsi(n: nat)
    ensures IsSupi(Candidate(n)) <==> n < 10_000_000_000
    ensures n < 10_000_000_000 ==> IsImsi(Candidate(n))
  {
    DigitsLength(n, 10);
    TenDigits();
    ValueOfDigits(n);
    if |Digits(n)| < 10 {
      FillDigits(10 - |Digits(n)|, '0');
    }
  }

  lemma TenDigits()
    ensures Pow10(10) == 10_000_000_000
  {
    assert Pow10(5) == 100_000;
  }

  /** Every candidate numbered from 1 up to `n` is taken. */
  ghost predicate TakenBelow(existing: set<string>, n: nat) { forall m: nat | 1 <= m < n :: Candidate(m) in existing }

  ghost function Tried(n: nat): set<string> {
    if n <= 1 then {} else Tried(n - 1) + {Candidate(n - 1)}
  }

  lemma {:induction false} TriedCount(existing: set<string>, n: nat)
    requires n >= 1 && TakenBelow(existing, n)
    ensures Tried(n) <= existing && |Tried(n)| == n - 1
    ensures forall c | c in Tried(n) :: exists m: nat :: 1 <= m < n && c == Candidate(m)
  {
    if n > 1 {
      TriedCount(existing, n - 1);
      if Candidate(n - 1) in Tried(n - 1) {
        var m: nat :| 1 <= m < n - 1 && Candidate(n - 1) == Candidate(m);
        CandidateInjective(m, n - 1);
      }
    }
  }

  lemma Pigeonhole(existing: set<string>, n: nat)
    requires n >= 1 && TakenBelow(existing, n)
    ensures n <= |existing| + 1
  {
    TriedCount(existing, n);
    SubsetCount(Tried(n), existing);
  }

  lemma {:induction false} SubsetCount(a: set<string>, b: set<string>)
    requires a <= b
    ensures |a| <= |b|
  {
    if x :| x in a {
      SubsetCount(a - {x}, b - {x});
    }
  }

  /** The least unused candidate, found within one more step than there are IMSIs in use. */
  method GenerateTestImsi(existing: set<string>) returns (imsi: string)
    ensures imsi !in existing
    ensures exists n: nat :: 1 <= n <= |existing| + 1 && imsi == Candidate(n) && TakenBelow(existing, n)
  {
    var n := 1;
    while true
      invariant n >= 1 && TakenBelow(existing, n)
      decreases |existing| + 2 - n
    {
      Pigeonhole(existing, n);
      var candidate := Candidate(n);
      if candidate !in existing {
        return candidate;
      }
      n := n + 1;
      Pigeonhole(existing, n);
    }
  }

  /** With fewer than 10^10 - 1 IMSIs in use, the generated one is an IMSI of the test block's range, and adding a
      subscriber under it is not refused as a duplicate. */
  lemma GeneratedIsUsable(existing: set<string>, n: nat, rows: seq<Subscriber>, s: Subscriber)
    requires 1 <= n <= |existing| + 1 && |existing| < 9_999_999_999
    requires s.imsi == Candidate(n) && s.imsi !in existing && existing == set r | r in rows :: r.imsi
    ensures IsImsi(s.imsi) && InRange(SupiRangeOf(TEST_PLMN), s.imsi)
    ensures Store.Apply(rows, Store.Add(s)) == Ok((rows + [s], true))
  {
    CandidateIsImsi(n);
    InRangeIffPrefix(TEST_PLMN, s.imsi);
    forall r | r in rows ensures r.imsi != s.imsi {
      assert r.imsi in existing;
    }
  }
}

/**
 The three CIDR tests of the gateway and the IPv4 block list (src/common/security/ssrf-guard.ts,
 src/common/utils/ip.ts, src/modules/auth/auth.service.ts), with JavaScript's 32-bit operators on integers.
 */
module Cidr {
  import opened Support
  import opened Text

  // ----- JavaScript's bit operators -----

  const Word := 0x1_0000_0000

  function ToUint32(x: int): (u: nat)
    ensures u < Word
  {
    x % Word
  }

  function ToInt32(x: int): int {
    var u := x % Word;
    if u >= Word / 2 then u - Word else u
  }

  /** Bit by bit, on unsigned words. */
  function AndBits(x: nat, y: nat): nat {
    if x == 0 then 0 else 2 * AndBits(x / 2, y / 2) + (x % 2) * (y % 2)
  }

  function BitAnd(x: int, y: int): int {
    ToInt32(AndBits(ToUint32(x), ToUint32(y)))
  }

  function BitNot(x: int): int {
    -1 - ToInt32(x)
  }

  /** `x << n`: the shift count counts modulo 32. */
  function ShiftLeft(x: int, n: nat): int {
    ShiftWord(ToUint32(x), n % 32)
  }

  function ShiftWord(u: nat, k: nat): int {
    ToInt32(u * Pow2(k))
  }

  function ShiftRight(x: int, n: nat): int {
    ToInt32(x) / Pow2(n % 32)
  }

  // ----- Masks -----

  /** Whole steps of `p` below `x`. */
  function Steps(x: nat, p: nat): (q: nat)
    requires p > 0
    ensures q * p <= x < q * p + p && q == x / p
  {
    x / p
  }

  lemma {:induction false} AndOnes(x: nat, n: nat)
    requires x < Pow2(n)
    ensures AndBits(x, Pow2(n) - 1) == x
  {
    if x != 0 {
      assert (Pow2(n) - 1) / 2 == Pow2(n - 1) - 1 && (Pow2(n) - 1) % 2 == 1;
      AndOnes(x / 2, n - 1);
    }
  }

  lemma {:induction false} AndHighMask(x: nat, k: nat, n: nat)
    requires k <= n && x < Pow2(n)
    ensures Pow2(k) <= Pow2(n) && AndBits(x, Pow2(n) - Pow2(k)) == Steps(x, Pow2(k)) * Pow2(k)
  {
    Pow2Grows(k, n);
    if k == 0 {
      AndOnes(x, n);
    } else {
      AndHighMask(x / 2, k - 1, n - 1);
      var m := Pow2(n) - Pow2(k);
      assert m / 2 == Pow2(n - 1) - Pow2(k - 1) && m % 2 == 0;
      HalvedQuotient(x, Pow2(k - 1));
      assert AndBits(x, m) == 2 * (x / 2 / Pow2(k - 1) * Pow2(k - 1));
      Regroup(x / Pow2(k), Pow2(k - 1));
    }
  }

  lemma Regroup(q: nat, p: nat)
    ensures 2 * (q * p) == q * (2 * p)
  {
  }

  lemma AtLeastOne(d: nat, p: nat)
    requires d > 0
    ensures d * p >= p
  {
  }

  lemma Distribute(a: int, b: int, p: int)
    ensures (a - b) * p == a * p - b * p
  {
  }

  lemma NotSmaller(p: nat, q: nat, r: nat, x: nat)
    requires p > 0 && r < p && x * p <= q * p + r
    ensures x <= q
  {
    if x > q {
      Distribute(x, q, p);
      AtLeastOne(x - q, p);
    }
  }

  /** The quotient is the only number of whole steps of `p` below `x`. */
  lemma QuotientIs(x: nat, p: nat, q: nat)
    requires p > 0 && q * p <= x < q * p + p
    ensures x / p == q && x % p == x - q * p
  {
    var d, r := x / p, x % p;
    assert x == d * p + r;
    NotSmaller(p, q, x - q * p, d);
    NotSmaller(p, d, r, q);
  }

  lemma HalvedQuotient(x: nat, p: nat)
    requires p > 0
    ensures x / 2 / p == x / (2 * p)
    ensures x % (2 * p) == 2 * (x / 2 % p) + x % 2
  {
    var y, q := x / 2, x / 2 / p;
    assert y == q * p + y % p;
    Regroup(q, p);
    QuotientIs(x, 2 * p, q);
  }

  lemma {:induction false} AndLowMask(x: nat, k: nat)
    ensures AndBits(x, Pow2(k) - 1) == x % Pow2(k)
    decreases k
  {
    if k == 0 {
      AndZero(x);
    } else if x != 0 {
      AndLowMask(x / 2, k - 1);
      var m := Pow2(k) - 1;
      assert m / 2 == Pow2(k - 1) - 1 && m % 2 == 1;
      HalvedQuotient(x, Pow2(k - 1));
      assert AndBits(x, m) == 2 * AndBits(x / 2, m / 2) + x % 2;
    }
  }

  lemma {:induction false} AndZero(x: nat)
    ensures AndBits(x, 0) == 0
  {
    if x != 0 {
      AndZero(x / 2);
    }
  }

  lemma {:induction false} Pow2Adds(m: nat, n: nat)
    ensures Pow2(m + n) == Pow2(m) * Pow2(n)
  {
    if m > 0 {
      Pow2Adds(m - 1, n);
    }
  }

  lemma WordIsPow2()
    ensures Pow2(32) == Word && Pow2(31) == Word / 2 && Pow2(16) == 65536 && Pow2(8) == 256
  {
    assert Pow2(8) == 256;
    Pow2Adds(8, 8);
    Pow2Adds(16, 16);
  }

  // ----- The three tests -----

  /** Mask of ssrf-guard.ts and ip.ts: 0xffffffff shifted and made unsigned; no bits, no mask. */
  function ShiftMask(bits: nat): nat
    requires bits <= 32
  {
    if bits == 0 then 0 else ToUint32(ShiftLeft(0xffff_ffff, 32 - bits))
  }

  /** Mask of auth.service.ts: `~(2 ** n - 1)`. */
  function NotMask(bits: nat): int
    requires bits <= 32
  {
    BitNot(Pow2(32 - bits) - 1)
  }

  /** The network of an address in blocks of 2^(32 - bits): section 3.1 of RFC 4632. */
  function Block(n: nat, bits: nat): nat
    requires bits <= 32
  {
    Steps(n, Pow2(32 - bits))
  }

  predicate InCidr4(n: nat, base: nat, bits: nat)
    requires bits <= 32
  {
    ToUint32(BitAnd(n, ShiftMask(bits))) == ToUint32(BitAnd(base, ShiftMask(bits)))
  }

  /** The end of ipMatches, once both addresses and the bits are read. */
  predicate MatchesRange(n: nat, base: nat, bits: nat)
    requires bits <= 32
  {
    bits == 0 || BitAnd(n, ShiftMask(bits)) == BitAnd(base, ShiftMask(bits))
  }

  /** The end of ipInCidr. */
  predicate InRange(n: nat, base: nat, bits: nat)
    requires bits <= 32
  {
    BitAnd(n, NotMask(bits)) == BitAnd(base, NotMask(bits))
  }

  lemma Unsigned(x: int)
    ensures ToUint32(ToInt32(x)) == ToUint32(x)
    ensures 0 <= x < Word ==> ToUint32(x) == x
  {
  }

  lemma WrapsTo(x: int, q: int, r: nat)
    requires x == q * Word + r && r < Word
    ensures ToUint32(x) == r
  {
  }

  lemma OnesTimes(p: nat)
    requires 0 < p <= Word / 2
    ensures ToUint32(ToInt32(0xffff_ffff * p)) == Word - p
  {
    WrapsTo(0xffff_ffff * p, p - 1, Word - p);
    Unsigned(0xffff_ffff * p);
  }

  lemma ShiftLeftIs(x: nat, k: nat)
    requires x < Word && k < 32
    ensures ShiftLeft(x, k) == ShiftWord(x, k)
  {
    Unsigned(x);
  }

  lemma ShiftedOnes(k: nat)
    requires k < 32
    ensures ToUint32(ShiftLeft(0xffff_ffff, k)) == Word - Pow2(k)
  {
    WordIsPow2();
    Pow2Grows(k, 31);
    ShiftLeftIs(0xffff_ffff, k);
    OnesTimes(Pow2(k));
  }

  lemma ShiftMaskIs(bits: nat)
    requires bits <= 32
    ensures ShiftMask(bits) == Word - Pow2(32 - bits)
  {
    if bits == 0 {
      WordIsPow2();
    } else {
      ShiftedOnes(32 - bits);
    }
  }

  lemma NegatedOnes(p: nat)
    requires 0 < p <= Word / 2
    ensures ToUint32(BitNot(p - 1)) == Word - p
  {
    var minus: int := 0 - p;
    WrapsTo(minus, -1, Word - p);
  }

  lemma NotMaskIs(bits: nat)
    requires bits <= 32
    ensures ToUint32(NotMask(bits)) == Word - Pow2(32 - bits)
  {
    WordIsPow2();
    if bits > 0 {
      Pow2Grows(32 - bits, 31);
      NegatedOnes(Pow2(32 - bits));
    }
  }

  /** A mask of the top `bits` bits leaves the address rounded down to its block. */
  lemma MaskedIs(n: nat, mask: int, bits: nat)
    requires n < Word && bits <= 32 && ToUint32(mask) == Word - Pow2(32 - bits)
    ensures BitAnd(n, mask) == ToInt32(Block(n, bits) * Pow2(32 - bits))
  {
    WordIsPow2();
    AndHighMask(n, 32 - bits, 32);
    Unsigned(n);
  }

  lemma SameBlock(a: nat, b: nat, p: nat)
    requires p > 0
    ensures a * p == b * p <==> a == b
  {
    if a * p == b * p {
      NotSmaller(p, a, 0, b);
      NotSmaller(p, b, 0, a);
    }
  }

  lemma SameWord(a: nat, b: nat)
    requires a < Word && b < Word
    ensures ToInt32(a) == ToInt32(b) <==> a == b
    ensures ToUint32(ToInt32(a)) == ToUint32(ToInt32(b)) <==> a == b
  {
  }

  lemma BlockStart(n: nat, bits: nat)
    requires n < Word && bits <= 32
    ensures Block(n, bits) * Pow2(32 - bits) < Word
  {
  }

  lemma SameStart(a: nat, b: nat, p: nat)
    requires p > 0 && a * p < Word && b * p < Word
    ensures ToInt32(a * p) == ToInt32(b * p) <==> a == b
    ensures ToUint32(ToInt32(a * p)) == ToUint32(ToInt32(b * p)) <==> a == b
  {
    SameBlock(a, b, p);
    SameWord(a * p, b * p);
  }

  lemma MaskedEqual(n: nat, base: nat, mask: int, bits: nat)
    requires n < Word && base < Word && bits <= 32 && ToUint32(mask) == Word - Pow2(32 - bits)
    ensures BitAnd(n, mask) == BitAnd(base, mask) <==> Block(n, bits) == Block(base, bits)
    ensures ToUint32(BitAnd(n, mask)) == ToUint32(BitAnd(base, mask)) <==> Block(n, bits) == Block(base, bits)
  {
    BlockStart(n, bits);
    BlockStart(base, bits);
    MaskedIs(n, mask, bits);
    MaskedIs(base, mask, bits);
    SameStart(Block(n, bits), Block(base, bits), Pow2(32 - bits));
  }

  /** The three tests decide the same relation, for all addresses and all prefix lengths. */
  lemma TestsAgree(n: nat, base: nat, bits: nat)
    requires n < Word && base < Word && bits <= 32
    ensures InCidr4(n, base, bits) <==> Block(n, bits) == Block(base, bits)
    ensures MatchesRange(n, base, bits) <==> Block(n, bits) == Block(base, bits)
    ensures InRange(n, base, bits) <==> Block(n, bits) == Block(base, bits)
  {
    ShiftMaskIs(bits);
    NotMaskIs(bits);
    Unsigned(ShiftMask(bits));
    MaskedEqual(n, base, ShiftMask(bits), bits);
    MaskedEqual(n, base, NotMask(bits), bits);
    if bits == 0 {
      WordIsPow2();
    }
  }

  // ----- Reading dotted quads -----

  /** Four numbers below 256 in one to three digits, separated by dots. */
  predicate IsQuad(ip: string) {
    var parts := Split(ip, '.');
    |parts| == 4 && forall i :: 0 <= i < 4 ==> IsOctet(parts[i])
  }

  function Octets(parts: seq<string>): (octets: seq<nat>)
    ensures |octets| == |parts| && forall i :: 0 <= i < |parts| ==> octets[i] == Decimal(parts[i])
  {
    seq(|parts|, i requires 0 <= i < |parts| => Decimal(parts[i]))
  }

  /** ssrf-guard.ts: reduce by `acc * 256 + octet`. */
  function Value(octets: seq<nat>): nat {
    if octets == [] then 0 else Value(octets[..|octets| - 1]) * 256 + octets[|octets| - 1]
  }

  /** parseInt of each part; None is NaN. */
  function ReadParts(parts: seq<string>): (nums: seq<Option<int>>)
    ensures |nums| == |parts| && forall i :: 0 <= i < |parts| ==> nums[i] == ParseInt(parts[i])
  {
    seq(|parts|, i requires 0 <= i < |parts| => ParseInt(parts[i]))
  }

  /** auth.service.ts: reduce by `(acc << 8) + octet`; NaN makes the sum NaN, and `<<` reads NaN as 0. */
  function ShiftSum(nums: seq<Option<int>>): Option<int> {
    if nums == [] then Some(0)
    else
      var n := |nums| - 1;
      if nums[n].None? then None else Some(ShiftLeft(OrZero(ShiftSum(nums[..n])), 8) + nums[n].value)
  }

  function OrZero(o: Option<int>): int {
    if o.Some? then o.value else 0
  }

  function QuadValue(ip: string): nat {
    Value(Octets(Split(ip, '.')))
  }

  function NumberOf(parts: seq<string>): (n: nat)
    ensures n < Word
  {
    if |parts| != 4 then 0 else ToUint32(OrZero(ShiftSum(ReadParts(parts))))
  }

  function IpToNumber(ip: string): (n: nat)
    ensures n < Word
  {
    NumberOf(Split(ip, '.'))
  }

  lemma ShiftByEight(x: int, u: nat, d: nat)
    requires ToUint32(x) == u % Word
    ensures ToUint32(ShiftLeft(x, 8) + d) == (u * 256 + d) % Word
  {
    assert Pow2(8) == 256;
    var y := u % Word * 256;
    WrapsBack(u * 256 + d, u / Word * 256, y + d);
    WrapsBack(ShiftLeft(x, 8) + d, (ShiftLeft(x, 8) - y) / Word, y + d);
  }

  lemma WrapsBack(x: int, q: int, y: int)
    requires x == q * Word + y
    ensures x % Word == y % Word
  {
  }

  lemma {:induction false} ShiftSumWraps(nums: seq<Option<int>>, octets: seq<nat>)
    requires |nums| == |octets| && forall i :: 0 <= i < |nums| ==> nums[i] == Some(octets[i])
    ensures ToUint32(OrZero(ShiftSum(nums))) == Value(octets) % Word
  {
    if nums != [] {
      var n := |nums| - 1;
      ShiftSumWraps(nums[..n], octets[..n]);
      ShiftByEight(OrZero(ShiftSum(nums[..n])), Value(octets[..n]), octets[n]);
    }
  }

  lemma OctetsAreRead(parts: seq<string>)
    requires |parts| == 4 && forall i :: 0 <= i < 4 ==> IsOctet(parts[i])
    ensures forall i :: 0 <= i < 4 ==> ReadParts(parts)[i] == Some(Octets(parts)[i]) && Octets(parts)[i] < 256
  {
    forall i | 0 <= i < 4 ensures ParseInt(parts[i]) == Some(Decimal(parts[i])) && Decimal(parts[i]) < 256 {
      ParseIntOfDigits(parts[i]);
    }
  }

  lemma OctetsMakeWord(nums: seq<Option<int>>, octets: seq<nat>)
    requires |nums| == 4 && |octets| == 4
    requires forall i :: 0 <= i < 4 ==> nums[i] == Some(octets[i]) && octets[i] < 256
    ensures Value(octets) < Word && ToUint32(OrZero(ShiftSum(nums))) == Value(octets)
  {
    ValueIsWord(octets);
    ShiftSumWraps(nums, octets);
  }

  lemma {:induction false} ValueIsBelow(octets: seq<nat>)
    requires forall i :: 0 <= i < |octets| ==> octets[i] < 256
    ensures Value(octets) < Pow2(8 * |octets|)
  {
    if octets != [] {
      ValueIsBelow(octets[..|octets| - 1]);
      Pow2Adds(8, 8 * (|octets| - 1));
      assert Pow2(8) == 256;
    }
  }

  lemma ValueIsWord(octets: seq<nat>)
    requires |octets| == 4 && forall i :: 0 <= i < 4 ==> octets[i] < 256
    ensures Value(octets) < Word
  {
    ValueIsBelow(octets);
    WordIsPow2();
  }

  /** On a dotted quad the shift form and the multiply form read the same 32-bit number. */
  lemma QuadIsWord(ip: string)
    requires IsQuad(ip)
    ensures QuadValue(ip) < Word && IpToNumber(ip) == QuadValue(ip)
  {
    OctetsAreRead(Split(ip, '.'));
    OctetsMakeWord(ReadParts(Split(ip, '.')), Octets(Split(ip, '.')));
  }

  lemma ValueStep(octets: seq<nat>, i: nat)
    requires i < |octets|
    ensures Value(octets[..i + 1]) == Value(octets[..i]) * 256 + octets[i]
  {
    assert octets[..i + 1][..i] == octets[..i];
  }

  /** One round's test: the digits, then the bound. */
  method ReadOctet(part: string) returns (octet: Option<nat>)
    ensures octet == if IsOctet(part) then Some(Decimal(part)) else None
  {
    if !(1 <= |part| <= 3 && AllDigits(part)) {
      return None;
    }
    var n := Decimal(part);
    return if n > 255 then None else Some(n);
  }

  /** ipv4ToInt of ip.ts: the checked loop; None is null. */
  method Ipv4ToInt(ip: string) returns (r: Option<nat>)
    ensures r == if IsQuad(ip) then Some(QuadValue(ip)) else None
  {
    var parts := Split(ip, '.');
    if |parts| != 4 {
      return None;
    }
    var result := 0;
    ghost var octets := Octets(parts);
    for i := 0 to 4
      invariant forall j :: 0 <= j < i ==> IsOctet(parts[j])
      invariant result == Value(octets[..i])
    {
      var octet := ReadOctet(parts[i]);
      if octet.None? {
        return None;
      }
      ValueStep(octets, i);
      result := result * 256 + octet.value;
    }
    assert octets[..4] == octets;
    QuadIsWord(ip);
    Unsigned(result);
    return Some(ToUint32(result));
  }

  /** Two dotted quads in one block of a stated length: section 3.1 of RFC 4632. */
  predicate InBlock(ip: string, range: string, bits: int) {
    IsQuad(ip) && IsQuad(range) && 0 <= bits <= 32 && Block(QuadValue(ip), bits) == Block(QuadValue(range), bits)
  }

  /** No bits: every quad. All bits: the same number. Any other length than 0 to 32: none. */
  lemma BlockEnds(ip: string, range: string, bits: int)
    requires IsQuad(ip) && IsQuad(range)
    ensures InBlock(ip, range, 0)
    ensures InBlock(ip, range, 32) <==> QuadValue(ip) == QuadValue(range)
    ensures bits < 0 || bits > 32 ==> !InBlock(ip, range, bits)
  {
    QuadIsWord(ip);
    QuadIsWord(range);
    WordIsPow2();
    assert Pow2(0) == 1;
  }

  /** ipMatches on a CIDR target whose prefix length has been read as `bits`. */
  method IpMatchesCidr(ip: string, range: string, bits: int) returns (r: bool)
    ensures r <==> InBlock(ip, range, bits)
  {
    if bits < 0 || bits > 32 {
      return false;
    }
    var n := Ipv4ToInt(ip);
    var base := Ipv4ToInt(range);
    if n.None? || base.None? {
      return false;
    }
    QuadIsWord(ip);
    QuadIsWord(range);
    TestsAgree(n.value, base.value, bits);
    r := MatchesRange(n.value, base.value, bits);
  }

  const Mapped := "::ffff:"

  /** normalizeIp: the bare address of an IPv4-mapped one, in either case. */
  function NormalizeIp(ip: string): string {
    if |ip| >= |Mapped| && Lower(ip[..|Mapped|]) == Mapped && IsDotted(ip[|Mapped|..]) then ip[|Mapped|..] else ip
  }

  /**
   ipMatches: an exact address or, with a slash, a CIDR block. `number` gives the integer that Number() reads
   in a text, None where it reads none.
   */
  predicate Matches(ip: string, target: string, number: string -> Option<int>) {
    var candidate, ref := NormalizeIp(Trim(ip)), Trim(target);
    var parts := Split(ref, '/');
    if |parts| == 1 then NormalizeIp(ref) == candidate
    else number(parts[1]).Some? && InBlock(candidate, NormalizeIp(parts[0]), number(parts[1]).value)
  }

  method IpMatches(ip: string, target: string, number: string -> Option<int>) returns (r: bool)
    ensures r <==> Matches(ip, target, number)
  {
    var candidate, ref := NormalizeIp(Trim(ip)), Trim(target);
    var parts := Split(ref, '/');
    if |parts| == 1 {
      return NormalizeIp(ref) == candidate;
    }
    var bits := number(parts[1]);
    if bits.None? {
      return false;
    }
    r := IpMatchesCidr(candidate, NormalizeIp(parts[0]), bits.value);
  }

  /** "::ffff:" in either case, then four groups of digits. */
  ghost predicate IsMapped(ip: string) {
    exists prefix, rest :: ip == prefix + rest && |prefix| == 7 && Lower(prefix) == "::ffff:" && IsDotted(rest)
  }

  /** Only a mapped address is rewritten, to what follows its prefix; any other text stays as it is. */
  lemma OnlyMappedIsRewritten(ip: string)
    ensures IsMapped(ip) ==> |ip| > 7 && NormalizeIp(ip) == ip[7..]
    ensures !IsMapped(ip) ==> NormalizeIp(ip) == ip
  {
    assert |Mapped| == 7;
    if IsMapped(ip) {
      var prefix, rest :| ip == prefix + rest && |prefix| == 7 && Lower(prefix) == "::ffff:" && IsDotted(rest);
      assert ip[..7] == prefix && ip[7..] == rest;
      DottedIsNotEmpty(rest);
    }
    if |ip| >= 7 && Lower(ip[..7]) == Mapped && IsDotted(ip[7..]) {
      assert ip == ip[..7] + ip[7..];
    }
  }

  lemma DottedIsNotEmpty(t: string)
    requires IsDotted(t)
    ensures t != ""
  {
    assert Head("", '.') == "";
  }

  /** Two addresses that are not mapped, the target without a slash, match exactly when their texts are equal. */
  lemma PlainAddressesMatchExactly(ip: string, target: string, number: string -> Option<int>)
    requires '/' !in Trim(target) && !IsMapped(Trim(ip)) && !IsMapped(Trim(target))
    ensures Matches(ip, target, number) <==> Trim(ip) == Trim(target)
  {
    OnlyMappedIsRewritten(Trim(ip));
    OnlyMappedIsRewritten(Trim(target));
    WholePart(Trim(target), '/');
  }

  lemma WholePart(t: string, c: char)
    requires c !in t
    ensures Split(t, c) == [t]
  {
    HeadIs(t, c, |t|);
    assert t[..|t|] == t;
  }

  lemma QuadIsDotted(ip: string)
    requires IsQuad(ip)
    ensures IsDotted(ip)
  {
    var parts := Split(ip, '.');
    forall i | 0 <= i < 4 ensures 1 <= |parts[i]| <= 3 && AllDigits(parts[i]) {
      assert IsOctet(parts[i]);
    }
  }

  /** An IPv4-mapped address is read as the address it embeds. */
  lemma MappedIsTheSame(prefix: string, ip: string)
    requires IsQuad(ip) && |prefix| == |Mapped| && Lower(prefix) == Mapped
    ensures NormalizeIp(prefix + ip) == ip && NormalizeIp(ip) == ip
  {
    QuadIsDotted(ip);
    assert (prefix + ip)[..|Mapped|] == prefix && (prefix + ip)[|Mapped|..] == ip;
    QuadStartsWithDigit(ip);
    assert |ip| >= |Mapped| ==> Lower(ip[..|Mapped|])[0] == LowerChar(ip[0]);
  }

  lemma QuadStartsWithDigit(ip: string)
    requires IsQuad(ip)
    ensures ip != "" && '0' <= ip[0] <= '9'
  {
    var first := Split(ip, '.')[0];
    assert IsOctet(first);
    assert first == Head(ip, '.') && first[0] == ip[0];
  }

  /** ipInCidr, on the texts: the range before the first slash, the bits after it. */
  predicate IpInCidr(ip: string, cidr: string) {
    var parts := Split(cidr, '/');
    |parts| > 1 &&
    var bits := ParseInt(parts[1]);
    bits.Some? && 0 <= bits.value <= 32 && InRange(IpToNumber(ip), IpToNumber(parts[0]), bits.value)
  }

  /**
   The allow list of API keys decides, for all texts, whether the numbers it reads share a block. On dotted
   quads that is CIDR membership; any other text than four dot-separated parts reads as 0.
   */
  lemma AllowListIsCidr(ip: string, cidr: string)
    requires |Split(cidr, '/')| > 1
    ensures var range, bits := Split(cidr, '/')[0], ParseInt(Split(cidr, '/')[1]);
      && (IpInCidr(ip, cidr)
          <==> bits.Some? && 0 <= bits.value <= 32
               && Block(IpToNumber(ip), bits.value) == Block(IpToNumber(range), bits.value))
      && (IsQuad(ip) && IsQuad(range) ==> (IpInCidr(ip, cidr) <==> bits.Some? && InBlock(ip, range, bits.value)))
      && (|Split(ip, '.')| != 4 ==> IpToNumber(ip) == 0)
  {
    var range, bits := Split(cidr, '/')[0], ParseInt(Split(cidr, '/')[1]);
    if bits.Some? && 0 <= bits.value <= 32 {
      TestsAgree(IpToNumber(ip), IpToNumber(range), bits.value);
    }
    if IsQuad(ip) && IsQuad(range) {
      QuadIsWord(ip);
      QuadIsWord(range);
    }
  }

  /** An entry with a slash is a block, any other an exact address. */
  predicate Admits(entry: string, clientIp: string) {
    if '/' in entry then IpInCidr(clientIp, entry) else clientIp == entry
  }

  /** An entry without a slash admits exactly the same text. */
  lemma ExactEntryAdmits(entry: string, clientIp: string)
    ensures '/' !in entry ==> (Admits(entry, clientIp) <==> clientIp == entry)
    ensures '/' in entry ==> (Admits(entry, clientIp) <==> IpInCidr(clientIp, entry))
  {
  }

  /** A last part that is no number makes the whole read as 0; an earlier one drops all that came before it. */
  lemma NotANumber(nums: seq<Option<int>>, octet: Option<int>)
    ensures ShiftSum([]) == Some(0) && ShiftSum(nums + [None]) == None && OrZero(None) == 0
    ensures ShiftSum(nums).None? && octet.Some? ==> ShiftSum(nums + [octet]) == octet
  {
    assert (nums + [None])[..|nums|] == nums && (nums + [octet])[..|nums|] == nums;
    assert ShiftWord(0, 8) == 0;
  }

  /** isIpAllowed: some entry admits the address. */
  method IsIpAllowed(clientIp: string, allowedIps: seq<string>) returns (allowed: bool)
    ensures allowed <==> exists i :: 0 <= i < |allowedIps| && Admits(allowedIps[i], clientIp)
  {
    for i := 0 to |allowedIps|
      invariant forall j :: 0 <= j < i ==> !Admits(allowedIps[j], clientIp)
    {
      if Admits(allowedIps[i], clientIp) {
        return true;
      }
    }
    allowed := false;
  }

  // ----- The block list -----

  datatype Range = Range(base: seq<nat>, bits: nat)

  /** BLOCKED_V4. */
  function BlockedV4(i: nat): (r: Range)
    requires i < 11
    ensures |r.base| == 4 && r.bits <= 32
  {
    match i
    case 0 => Range([0, 0, 0, 0], 8)
    case 1 => Range([10, 0, 0, 0], 8)
    case 2 => Range([100, 64, 0, 0], 10)
    case 3 => Range([127, 0, 0, 0], 8)
    case 4 => Range([169, 254, 0, 0], 16)
    case 5 => Range([172, 16, 0, 0], 12)
    case 6 => Range([192, 0, 0, 0], 24)
    case 7 => Range([192, 168, 0, 0], 16)
    case 8 => Range([198, 18, 0, 0], 15)
    case 9 => Range([224, 0, 0, 0], 4)
    case _ => Range([240, 0, 0, 0], 4)
  }

  /** isBlockedAddress on an IPv4 literal. */
  predicate IsBlockedV4(octets: seq<nat>) {
    exists i :: 0 <= i < 11 && InCidr4(Value(octets), Value(BlockedV4(i).base), BlockedV4(i).bits)
  }

  /** The eleven intervals, as first and last address. */
  function Interval(i: nat): (int, int)
    requires i < 11
  {
    match i
    case 0 => (0, 16777215)
    case 1 => (167772160, 184549375)
    case 2 => (1681915904, 1686110207)
    case 3 => (2130706432, 2147483647)
    case 4 => (2851995648, 2852061183)
    case 5 => (2886729728, 2887778303)
    case 6 => (3221225472, 3221225727)
    case 7 => (3232235520, 3232301055)
    case 8 => (3323068416, 3323199487)
    case 9 => (3758096384, 4026531839)
    case _ => (4026531840, 4294967295)
  }

  lemma BlockIsInterval(n: nat, base: nat, p: nat)
    requires p > 0 && base % p == 0
    ensures n / p == base / p <==> base <= n < base + p
  {
    var q := base / p;
    assert base == q * p;
    if base <= n < base + p {
      QuotientIs(n, p, q);
    }
  }

  lemma FourOctets(octets: seq<nat>)
    requires |octets| == 4
    ensures Value(octets) == ((octets[0] * 256 + octets[1]) * 256 + octets[2]) * 256 + octets[3]
  {
    var three, two, one := octets[..3], octets[..2], octets[..1];
    assert three[..2] == two && two[..1] == one && one[..0] == [];
    assert Value(one) == octets[0];
    assert Value(two) == Value(one) * 256 + octets[1];
    assert Value(three) == Value(two) * 256 + octets[2];
  }

  lemma SmallPowers()
    ensures Pow2(8) == 256 && Pow2(16) == 65536 && Pow2(17) == 131072 && Pow2(20) == 1048576
    ensures Pow2(22) == 4194304 && Pow2(24) == 16777216 && Pow2(28) == 268435456
  {
    WordIsPow2();
    Pow2Adds(1, 16);
    Pow2Adds(4, 16);
    Pow2Adds(4, 20);
    Pow2Adds(2, 20);
    Pow2Adds(4, 24);
    assert Pow2(1) == 2 && Pow2(2) == 4 && Pow2(4) == 16;
  }

  lemma RangeStarts(i: nat)
    requires i < 11
    ensures Value(BlockedV4(i).base) == Interval(i).0
  {
    FourOctets(BlockedV4(i).base);
  }

  lemma IntervalIsAligned(i: nat)
    requires i < 11
    ensures var p := Interval(i).1 - Interval(i).0 + 1; p > 0 && Interval(i).0 % p == 0
  {
  }

  lemma RangeWidth(i: nat)
    requires i < 11
    ensures Pow2(32 - BlockedV4(i).bits) == Interval(i).1 - Interval(i).0 + 1
  {
    SmallPowers();
  }

  lemma RangeIsInterval(n: nat, i: nat)
    requires n < Word && i < 11
    ensures InCidr4(n, Value(BlockedV4(i).base), BlockedV4(i).bits) <==> Interval(i).0 <= n <= Interval(i).1
  {
    var bits, base := BlockedV4(i).bits, Value(BlockedV4(i).base);
    RangeStarts(i);
    IntervalIsAligned(i);
    RangeWidth(i);
    TestsAgree(n, base, bits);
    BlockIsInterval(n, base, Pow2(32 - bits));
  }

  /** An IPv4 address is blocked exactly when it lies in one of the eleven intervals. */
  lemma BlockedIsElevenIntervals(octets: seq<nat>)
    requires |octets| == 4 && forall i :: 0 <= i < 4 ==> octets[i] < 256
    ensures IsBlockedV4(octets) <==> exists i :: 0 <= i < 11 && Interval(i).0 <= Value(octets) <= Interval(i).1
  {
    ValueIsWord(octets);
    forall i | 0 <= i < 11
      ensures InCidr4(Value(octets), Value(BlockedV4(i).base), BlockedV4(i).bits)
        <==> Interval(i).0 <= Value(octets) <= Interval(i).1
    {
      RangeIsInterval(Value(octets), i);
    }
  }

  // ----- IPv4 inside IPv6 -----

  /** hextetsToV4: two 16-bit groups as four octets. */
  function HextetsToV4(hi: nat, lo: nat): seq<int> {
    [BitAnd(ShiftRight(hi, 8), 0xff), BitAnd(hi, 0xff), BitAnd(ShiftRight(lo, 8), 0xff), BitAnd(lo, 0xff)]
  }

  lemma SmallIsSelf(x: nat)
    requires x < Word / 2
    ensures ToInt32(x) == x
  {
  }

  lemma LowMaskIs(x: nat, m: nat, k: nat)
    requires x < Word && m == Pow2(k) - 1 && m < Word / 2
    ensures BitAnd(x, m) == x % Pow2(k)
  {
    AndLowMask(x, k);
    Unsigned(x);
    Unsigned(m);
    SmallIsSelf(x % Pow2(k));
  }

  lemma LowByte(x: nat)
    requires x < Word
    ensures BitAnd(x, 0xff) == x % 256
  {
    WordIsPow2();
    LowMaskIs(x, 0xff, 8);
  }

  lemma ShiftRightByte(x: nat)
    requires x < 0x1_0000
    ensures ShiftRight(x, 8) == x / 256 < 256
  {
    assert Pow2(8 % 32) == 256;
    SmallIsSelf(x);
  }

  lemma SmallByte(h: nat)
    requires h < 256
    ensures BitAnd(h, 0xff) == h
  {
    LowByte(h);
  }

  lemma HighByte(x: nat)
    requires x < 0x1_0000
    ensures BitAnd(ShiftRight(x, 8), 0xff) == x / 256
  {
    ShiftRightByte(x);
    SmallByte(ShiftRight(x, 8));
  }

  /** The octets stand for the number the two groups make together. */
  lemma HextetsMakeWord(hi: nat, lo: nat)
    requires hi < 0x1_0000 && lo < 0x1_0000
    ensures var o := HextetsToV4(hi, lo);
      && (forall i :: 0 <= i < 4 ==> 0 <= o[i] < 256)
      && ((o[0] * 256 + o[1]) * 256 + o[2]) * 256 + o[3] == hi * 0x1_0000 + lo
  {
    HighByte(hi);
    LowByte(hi);
    HighByte(lo);
    LowByte(lo);
  }
}

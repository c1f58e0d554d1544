/**
 expandIPv6 of src/common/security/ssrf-guard.ts, against the text forms of an address in section 2.2 of
 RFC 4291: hexadecimal groups with or without leading zeros, one "::" run, a dotted-quad tail.
 */
module Ipv6 {
  import opened Support
  import opened Text

  // ----- Digits -----

  predicate IsHexDigit(c: char) {
    '0' <= c <= '9' || 'a' <= c <= 'f'
  }

  function HexDigitValue(c: char): (v: nat)
    ensures v < 16
  {
    if !IsHexDigit(c) then 0 else if c <= '9' then (c - '0') as nat else 10 + (c - 'a') as nat
  }

  function HexDigit(v: nat): (c: char)
    requires v < 16
    ensures IsHexDigit(c) && HexDigitValue(c) == v
  {
    if v < 10 then '0' + v as char else 'a' + (v - 10) as char
  }

  lemma HexDigits()
    ensures HexDigitValue('0') == 0 && HexDigitValue('9') == 9 && HexDigitValue('a') == 10 && HexDigitValue('f') == 15
    ensures !IsHexDigit('g') && !IsHexDigit('`') && !IsHexDigit('A') && !IsHexDigit(':') && !IsHexDigit('/')
    ensures IsHexDigit('0') && IsHexDigit('9') && IsHexDigit('a') && IsHexDigit('f')
  {
  }

  predicate HexText(s: string) {
    forall i :: 0 <= i < |s| ==> IsHexDigit(s[i])
  }

  /** The pattern `^[0-9a-f]{1,4}$`. */
  predicate IsGroup(h: string) {
    1 <= |h| <= 4 && HexText(h)
  }

  /** parseInt(h, 16). */
  function HexValue(h: string): nat {
    if h == "" then 0 else 16 * HexValue(h[..|h| - 1]) + HexDigitValue(h[|h| - 1])
  }

  /** toString(16). */
  function Hex(n: nat): string {
    if n < 16 then [HexDigit(n)] else Hex(n / 16) + [HexDigit(n % 16)]
  }

  lemma Pow2OfGroup(k: nat)
    ensures Pow2(4 * (k + 1)) == 16 * Pow2(4 * k)
  {
    var n := 4 * k;
    assert Pow2(n + 1) == 2 * Pow2(n);
    assert Pow2(n + 2) == 2 * Pow2(n + 1);
    assert Pow2(n + 3) == 2 * Pow2(n + 2);
    assert Pow2(n + 4) == 2 * Pow2(n + 3);
  }

  lemma {:induction false} HexValueIsBelow(h: string)
    ensures HexValue(h) < Pow2(4 * |h|)
  {
    if h != "" {
      HexValueIsBelow(h[..|h| - 1]);
      Pow2OfGroup(|h| - 1);
    }
  }

  lemma GroupIsBelow(h: string)
    requires IsGroup(h)
    ensures HexValue(h) < 0x1_0000
  {
    HexValueIsBelow(h);
    Pow2Grows(4 * |h|, 16);
    assert Pow2(4) == 16 && Pow2(8) == 256 && Pow2(12) == 4096 && Pow2(16) == 65536;
  }

  lemma {:induction false} HexRoundTrips(n: nat)
    ensures HexText(Hex(n)) && HexValue(Hex(n)) == n && Hex(n) != ""
    ensures forall k: nat :: n < Pow2(4 * k) && k > 0 ==> |Hex(n)| <= k
  {
    if n >= 16 {
      HexRoundTrips(n / 16);
      assert Hex(n)[..|Hex(n)| - 1] == Hex(n / 16);
      forall k: nat | n < Pow2(4 * k) && k > 0 ensures |Hex(n)| <= k {
        assert Pow2(4) == 16;
        assert k > 1;
        Pow2OfGroup(k - 1);
      }
    }
  }

  // ----- Cutting the text -----

  function Join(parts: seq<string>): string {
    if parts == [] then ""
    else if |parts| == 1 then parts[0]
    else parts[0] + ":" + Join(parts[1..])
  }

  predicate PairAt(s: string, i: int) {
    0 <= i < |s| - 1 && s[i] == ':' && s[i + 1] == ':'
  }

  /** The first "::" at or after `i`. */
  function FindPair(s: string, i: nat): (r: Option<nat>)
    ensures r.Some? ==> i <= r.value && PairAt(s, r.value) && forall j :: i <= j < r.value ==> !PairAt(s, j)
    ensures r.None? ==> forall j :: i <= j ==> !PairAt(s, j)
    decreases |s| - i
  {
    if i >= |s| then None else if PairAt(s, i) then Some(i) else FindPair(s, i + 1)
  }

  /** split('::'). */
  function Halves(s: string): (halves: seq<string>)
    ensures halves != []
    decreases |s|
  {
    var p := FindPair(s, 0);
    if p.None? then [s] else [s[..p.value]] + Halves(s[p.value + 2..])
  }

  /** split(':'), of a possibly empty half. */
  function GroupsOf(half: string): seq<string> {
    if half == "" then [] else Split(half, ':')
  }

  function Zeros(n: nat): seq<string> {
    seq(n, i => "0")
  }

  function ZeroValues(n: nat): (nums: seq<nat>)
    ensures |nums| == n
  {
    seq(n, i => 0)
  }

  function Values(parts: seq<string>): (nums: seq<nat>)
    ensures |nums| == |parts| && forall i :: 0 <= i < |parts| ==> nums[i] == HexValue(parts[i])
  {
    seq(|parts|, i requires 0 <= i < |parts| => HexValue(parts[i]))
  }

  function Numbers(parts: seq<string>): Option<seq<nat>> {
    if |parts| != 8 then None
    else if forall i :: 0 <= i < |parts| ==> IsGroup(parts[i]) then Some(Values(parts))
    else None
  }

  /** The part after the dotted tail has been folded: `s` is pure hexadecimal. */
  function ExpandHex(s: string): Option<seq<nat>> {
    var halves := Halves(s);
    if |halves| > 2 then None
    else
      var head := GroupsOf(halves[0]);
      var tail := if |halves| == 2 then GroupsOf(halves[1]) else [];
      var gap := 8 - |head| - |tail|;
      if (if |halves| == 1 then |head| != 8 else gap < 1) then None
      else
        Numbers(head + Zeros(if gap > 0 then gap else 0) + tail)
  }

  predicate DottedAt(s: string, i: nat) {
    i <= |s| && IsDotted(s[i..])
  }

  /** Where the leftmost dotted quad ending the text begins, at or after `i`. */
  function FindDotted(s: string, i: nat): (r: Option<nat>)
    ensures r.Some? ==> i <= r.value <= |s| && DottedAt(s, r.value)
    ensures r.Some? ==> forall j: nat :: i <= j < r.value ==> !DottedAt(s, j)
    ensures r.None? ==> forall j: nat :: i <= j ==> !DottedAt(s, j)
    decreases |s| - i
  {
    if i > |s| then None
    else if DottedAt(s, i) then Some(i)
    else FindDotted(s, i + 1)
  }

  /** `(a << 8) | b` of two bytes. */
  function TwoBytes(a: nat, b: nat): nat {
    a * 256 + b
  }

  function FoldedTail(octets: seq<string>): seq<string>
    requires |octets| == 4
  {
    [Hex(TwoBytes(Decimal(octets[0]), Decimal(octets[1]))), Hex(TwoBytes(Decimal(octets[2]), Decimal(octets[3])))]
  }

  function ExpandIPv6(s: string): Option<seq<nat>> {
    var dotted := FindDotted(s, 0);
    if dotted.None? then ExpandHex(s)
    else
      var octets := Split(s[dotted.value..], '.');
      if exists i :: 0 <= i < 4 && Decimal(octets[i]) > 255 then None
      else ExpandHex(s[..dotted.value] + FoldedTail(octets)[0] + ":" + FoldedTail(octets)[1])
  }

  // ----- Text forms -----

  /** A text form: the groups before and after the "::", if there is one, and the closing octets, if dotted. */
  datatype Form = Form(head: seq<string>, compressed: bool, tail: seq<string>, octets: Option<seq<string>>)

  predicate AllGroups(parts: seq<string>) {
    forall i :: 0 <= i < |parts| ==> IsGroup(parts[i])
  }

  function Count(f: Form): nat {
    |f.head| + |f.tail| + if f.octets.Some? then 2 else 0
  }

  /** Eight groups in full, or at most seven and a "::" that stands for the missing ones. */
  predicate Legal(f: Form) {
    && AllGroups(f.head) && AllGroups(f.tail)
    && (f.octets.Some? ==> |f.octets.value| == 4 && forall i :: 0 <= i < 4 ==> IsOctet(f.octets.value[i]))
    && (if f.compressed then Count(f) <= 7 else Count(f) == 8 && f.tail == [])
  }

  function JoinDots(octets: seq<string>): string
    requires |octets| == 4
  {
    octets[0] + "." + (octets[1] + "." + (octets[2] + "." + octets[3]))
  }

  function Pieces(parts: seq<string>, octets: Option<seq<string>>): seq<string>
    requires octets.Some? ==> |octets.value| == 4
  {
    if octets.Some? then parts + [JoinDots(octets.value)] else parts
  }

  /** The text of a form. */
  function Written(f: Form): string
    requires Legal(f)
  {
    if f.compressed then Join(f.head) + "::" + Join(Pieces(f.tail, f.octets))
    else Join(Pieces(f.head, f.octets))
  }

  /** The eight groups a form stands for. */
  function Meaning(f: Form): (g: seq<nat>)
    requires Legal(f)
    ensures |g| == 8
  {
    var v4 := if f.octets.None? then [] else
      var o := f.octets.value;
      [TwoBytes(Decimal(o[0]), Decimal(o[1])), TwoBytes(Decimal(o[2]), Decimal(o[3]))];
    Values(f.head) + ZeroValues(8 - Count(f)) + Values(f.tail) + v4
  }

  // ----- Joining and cutting -----

  lemma GroupHasNoColon(h: string)
    requires HexText(h)
    ensures ':' !in h && '.' !in h
  {
  }

  lemma SplitWhole(t: string, c: char)
    requires c !in t
    ensures Split(t, c) == [t]
  {
    HeadIs(t, c, |t|);
    assert t[..|t|] == t;
  }

  lemma SplitStep(h: string, sep: string, rest: string)
    requires |sep| == 1 && sep[0] !in h
    ensures Split(h + sep + rest, sep[0]) == [h] + Split(rest, sep[0])
  {
    var s := h + sep + rest;
    assert s[..|h|] == h && s[|h| + 1..] == rest;
    HeadIs(s, sep[0], |h|);
  }

  /** Cutting what was joined gives the groups back. */
  lemma {:induction false} SplitOfJoin(parts: seq<string>)
    requires parts != [] && AllGroups(parts)
    ensures Split(Join(parts), ':') == parts
  {
    var h := parts[0];
    GroupHasNoColon(h);
    if |parts| == 1 {
      SplitWhole(h, ':');
      assert parts == [h];
    } else {
      SplitOfJoin(parts[1..]);
      SplitStep(h, ":", Join(parts[1..]));
      assert parts == [h] + parts[1..];
    }
  }

  /** Text without "::" that neither starts nor ends with ':'. */
  predicate Solid(s: string) {
    s != "" && s[0] != ':' && s[|s| - 1] != ':' && forall i :: 0 <= i < |s| - 1 ==> !PairAt(s, i)
  }

  lemma GroupIsSolid(h: string)
    requires IsGroup(h)
    ensures Solid(h)
  {
    forall i | 0 <= i < |h| ensures h[i] != ':' {
      assert IsHexDigit(h[i]);
    }
  }

  lemma SolidJoins(a: string, b: string)
    requires Solid(a) && Solid(b)
    ensures Solid(a + ":" + b)
  {
    var s := a + ":" + b;
    forall i | 0 <= i < |s| - 1 ensures !PairAt(s, i) {
      if i < |a| - 1 {
        assert !PairAt(a, i) && s[i] == a[i] && s[i + 1] == a[i + 1];
      } else if i > |a| {
        assert !PairAt(b, i - |a| - 1) && s[i] == b[i - |a| - 1] && s[i + 1] == b[i - |a|];
      } else if i == |a| {
        assert s[i + 1] == b[0];
      } else {
        assert s[i] == a[i];
      }
    }
  }

  lemma {:induction false} JoinIsSolid(parts: seq<string>)
    requires parts != [] && AllGroups(parts)
    ensures Solid(Join(parts))
  {
    GroupIsSolid(parts[0]);
    if |parts| > 1 {
      JoinIsSolid(parts[1..]);
      SolidJoins(parts[0], Join(parts[1..]));
    }
  }

  lemma FindPairIs(s: string, n: nat)
    requires PairAt(s, n) && forall j :: 0 <= j < n ==> !PairAt(s, j)
    ensures FindPair(s, 0) == Some(n)
  {
  }

  lemma NoPair(s: string)
    requires s == "" || Solid(s)
    ensures Halves(s) == [s]
  {
  }

  lemma OnePair(a: string, b: string)
    requires a == "" || Solid(a)
    requires b == "" || Solid(b)
    ensures Halves(a + "::" + b) == [a, b]
  {
    var s := a + "::" + b;
    forall j | 0 <= j < |a| ensures !PairAt(s, j) {
      assert s[j] == a[j];
      if j + 1 < |a| {
        assert !PairAt(a, j) && s[j + 1] == a[j + 1];
      }
    }
    FindPairIs(s, |a|);
    assert s[..|a|] == a && s[|a| + 2..] == b;
    NoPair(b);
  }

  lemma GroupsOfJoin(parts: seq<string>)
    requires AllGroups(parts)
    ensures GroupsOf(Join(parts)) == parts && (Join(parts) == "" || Solid(Join(parts)))
  {
    if parts != [] {
      JoinIsSolid(parts);
      SplitOfJoin(parts);
    }
  }

  lemma ZerosAreGroups(n: nat)
    ensures AllGroups(Zeros(n)) && Values(Zeros(n)) == ZeroValues(n)
  {
    assert HexValue("0") == 0;
  }

  lemma ValuesOfAppend(a: seq<string>, b: seq<string>)
    ensures Values(a + b) == Values(a) + Values(b)
  {
  }

  lemma PaddedNumbers(head: seq<string>, gap: nat, tail: seq<string>)
    requires |head| + gap + |tail| == 8 && AllGroups(head) && AllGroups(tail)
    ensures Numbers(head + Zeros(gap) + tail) == Some(Values(head) + ZeroValues(gap) + Values(tail))
  {
    ZerosAreGroups(gap);
    ValuesOfAppend(head, Zeros(gap));
    ValuesOfAppend(head + Zeros(gap), tail);
    var parts := head + Zeros(gap) + tail;
    assert AllGroups(parts);
  }

  lemma CompressedExpands(s: string, a: string, b: string, gap: nat)
    requires Halves(s) == [a, b] && |GroupsOf(a)| + gap + |GroupsOf(b)| == 8 && gap > 0
    requires AllGroups(GroupsOf(a)) && AllGroups(GroupsOf(b))
    ensures ExpandHex(s) == Some(Values(GroupsOf(a)) + ZeroValues(gap) + Values(GroupsOf(b)))
  {
    PaddedNumbers(GroupsOf(a), gap, GroupsOf(b));
  }

  lemma FullExpands(s: string)
    requires Halves(s) == [s] && |GroupsOf(s)| == 8 && AllGroups(GroupsOf(s))
    ensures ExpandHex(s) == Some(Values(GroupsOf(s)))
  {
    assert GroupsOf(s) + Zeros(0) + [] == GroupsOf(s);
  }

  /** Pure hexadecimal forms expand to their meaning. */
  lemma HexFormExpands(f: Form)
    requires Legal(f) && f.octets.None?
    ensures ExpandHex(Written(f)) == Some(Meaning(f))
  {
    GroupsOfJoin(f.head);
    if f.compressed {
      GroupsOfJoin(f.tail);
      OnePair(Join(f.head), Join(f.tail));
      CompressedExpands(Written(f), Join(f.head), Join(f.tail), 8 - Count(f));
      assert Meaning(f) == Values(f.head) + ZeroValues(8 - Count(f)) + Values(f.tail);
    } else {
      NoPair(Join(f.head));
      FullExpands(Written(f));
      assert Meaning(f) == Values(f.head);
    }
  }

  // ----- The dotted tail -----

  lemma SplitCut(s: string, c: char) returns (h: string, rest: string)
    requires |Head(s, c)| < |s|
    ensures |rest| < |s| && Split(s, c) == [h] + Split(rest, c)
    ensures forall x :: x in s ==> x in h || x == c || x in rest
  {
    h := Head(s, c);
    rest := s[|h| + 1..];
    assert s == h + [c] + rest;
  }

  lemma InLater(h: string, parts: seq<string>, i: nat, x: char)
    requires i < |parts| && x in parts[i]
    ensures x in ([h] + parts)[i + 1]
  {
  }

  /** A character other than the separator survives in one of the parts. */
  lemma {:induction false} SplitKeeps(s: string, c: char, x: char)
    requires x != c && x in s
    ensures exists i :: 0 <= i < |Split(s, c)| && x in Split(s, c)[i]
    decreases |s|
  {
    if |Head(s, c)| == |s| {
      assert x in Split(s, c)[0];
    } else {
      var h, rest := SplitCut(s, c);
      if x in h {
        assert x in Split(s, c)[0];
      } else {
        SplitKeeps(rest, c, x);
        var i :| 0 <= i < |Split(rest, c)| && x in Split(rest, c)[i];
        InLater(h, Split(rest, c), i, x);
      }
    }
  }

  lemma DottedHasNoColon(t: string)
    requires IsDotted(t)
    ensures ':' !in t && '.' in t
  {
    var parts := Split(t, '.');
    forall i | 0 <= i < 4 ensures ':' !in parts[i] {
    }
    if ':' in t {
      SplitKeeps(t, '.', ':');
    }
    if '.' !in t {
      SplitWhole(t, '.');
    }
  }

  lemma DigitsHaveNoDot(s: string)
    requires AllDigits(s)
    ensures '.' !in s
  {
  }

  lemma SplitCons(h: string, rest: string, parts: seq<string>)
    requires AllDigits(h) && Split(rest, '.') == parts
    ensures Split(h + "." + rest, '.') == [h] + parts
  {
    DigitsHaveNoDot(h);
    SplitStep(h, ".", rest);
  }

  lemma SplitTwo(c: string, d: string)
    requires AllDigits(c) && AllDigits(d)
    ensures Split(c + "." + d, '.') == [c, d]
  {
    DigitsHaveNoDot(d);
    SplitWhole(d, '.');
    SplitCons(c, d, [d]);
  }

  lemma SplitThree(b: string, c: string, d: string)
    requires AllDigits(b) && AllDigits(c) && AllDigits(d)
    ensures Split(b + "." + (c + "." + d), '.') == [b, c, d]
  {
    SplitTwo(c, d);
    SplitCons(b, c + "." + d, [c, d]);
  }

  lemma SplitFour(a: string, b: string, c: string, d: string)
    requires AllDigits(a) && AllDigits(b) && AllDigits(c) && AllDigits(d)
    ensures Split(a + "." + (b + "." + (c + "." + d)), '.') == [a, b, c, d]
  {
    SplitThree(b, c, d);
    SplitCons(a, b + "." + (c + "." + d), [b, c, d]);
  }

  lemma SplitOfDots(octets: seq<string>)
    requires |octets| == 4 && forall i :: 0 <= i < 4 ==> IsOctet(octets[i])
    ensures Split(JoinDots(octets), '.') == octets && IsDotted(JoinDots(octets))
  {
    SplitFour(octets[0], octets[1], octets[2], octets[3]);
    assert octets == [octets[0], octets[1], octets[2], octets[3]];
  }

  lemma ColonIsNotDotted(s: string, j: nat, k: nat)
    requires j <= k < |s| && s[k] == ':'
    ensures !DottedAt(s, j)
  {
    assert s[j..][k - j] == ':';
    if IsDotted(s[j..]) {
      DottedHasNoColon(s[j..]);
    }
  }

  lemma FindDottedIs(s: string, n: nat)
    requires DottedAt(s, n) && forall j: nat :: j < n ==> !DottedAt(s, j)
    ensures FindDotted(s, 0) == Some(n)
  {
  }

  /** The leftmost dotted quad starts right after the last ':'. */
  lemma FindsTail(p: string, q: string)
    requires p != "" && p[|p| - 1] == ':' && IsDotted(q)
    ensures FindDotted(p + q, 0) == Some(|p|)
  {
    var s := p + q;
    assert s[|p|..] == q;
    assert DottedAt(s, |p|);
    forall j: nat | j < |p| ensures !DottedAt(s, j) {
      ColonIsNotDotted(s, j, |p| - 1);
    }
    FindDottedIs(s, |p|);
  }

  lemma FindsNoTail(s: string)
    requires '.' !in s
    ensures FindDotted(s, 0).None?
  {
    var r := FindDotted(s, 0);
    if r.Some? {
      DottedHasNoColon(s[r.value..]);
    }
  }

  function Lead(parts: seq<string>): string {
    if parts == [] then "" else Join(parts) + ":"
  }

  lemma {:induction false} JoinAppend(parts: seq<string>, more: seq<string>)
    requires more != []
    ensures Join(parts + more) == Lead(parts) + Join(more)
  {
    if parts == [] {
      assert parts + more == more;
    } else {
      assert (parts + more)[1..] == parts[1..] + more;
      JoinAppend(parts[1..], more);
    }
  }

  /** The text before the dotted tail. */
  function BeforeTail(f: Form): string {
    if f.compressed then Join(f.head) + "::" + Lead(f.tail) else Lead(f.head)
  }

  /** The same form with its tail in hexadecimal. */
  function InHex(f: Form): Form
    requires Legal(f) && f.octets.Some?
  {
    if f.compressed then f.(tail := f.tail + FoldedTail(f.octets.value), octets := None)
    else f.(head := f.head + FoldedTail(f.octets.value), octets := None)
  }

  lemma RegroupLead(a: string, b: string, q: string)
    ensures a + "::" + (b + q) == a + "::" + b + q
  {
  }

  lemma LeadEnds(f: Form)
    requires Legal(f) && f.octets.Some?
    ensures BeforeTail(f) != "" && BeforeTail(f)[|BeforeTail(f)| - 1] == ':'
  {
  }

  lemma WrittenTail(f: Form)
    requires Legal(f) && f.octets.Some?
    ensures Written(f) == BeforeTail(f) + JoinDots(f.octets.value)
    ensures BeforeTail(f) != "" && BeforeTail(f)[|BeforeTail(f)| - 1] == ':'
  {
    var q := JoinDots(f.octets.value);
    LeadEnds(f);
    assert Join([q]) == q;
    if f.compressed {
      JoinAppend(f.tail, [q]);
      RegroupLead(Join(f.head), Lead(f.tail), q);
    } else {
      JoinAppend(f.head, [q]);
    }
  }

  lemma FoldedIsHex(octets: seq<string>)
    requires |octets| == 4 && forall i :: 0 <= i < 4 ==> IsOctet(octets[i])
    ensures AllGroups(FoldedTail(octets))
    ensures Values(FoldedTail(octets))
         == [TwoBytes(Decimal(octets[0]), Decimal(octets[1])), TwoBytes(Decimal(octets[2]), Decimal(octets[3]))]
  {
    assert Pow2(4 * 4) == 65536 by {
      assert Pow2(4) == 16 && Pow2(8) == 256 && Pow2(12) == 4096;
    }
    HexRoundTrips(TwoBytes(Decimal(octets[0]), Decimal(octets[1])));
    HexRoundTrips(TwoBytes(Decimal(octets[2]), Decimal(octets[3])));
  }

  lemma Regroup(a: string, b: string, x: string, y: string)
    ensures a + "::" + (b + (x + ":" + y)) == a + "::" + b + x + ":" + y
    ensures b + (x + ":" + y) == b + x + ":" + y
  {
  }

  lemma JoinTwo(t: seq<string>)
    requires |t| == 2
    ensures Join(t) == t[0] + ":" + t[1]
  {
    assert Join(t[1..]) == t[1];
  }

  lemma WrittenInHex(f: Form)
    requires Legal(f) && f.octets.Some?
    ensures Legal(InHex(f))
    ensures Written(InHex(f)) == BeforeTail(f) + FoldedTail(f.octets.value)[0] + ":" + FoldedTail(f.octets.value)[1]
  {
    var t := FoldedTail(f.octets.value);
    FoldedIsHex(f.octets.value);
    JoinTwo(t);
    Regroup(Join(f.head), Lead(f.tail), t[0], t[1]);
    Regroup(Join(f.head), Lead(f.head), t[0], t[1]);
    JoinAppend(f.tail, t);
    JoinAppend(f.head, t);
  }

  lemma MeaningInHex(f: Form)
    requires Legal(f) && f.octets.Some? && Legal(InHex(f))
    ensures Meaning(InHex(f)) == Meaning(f)
  {
    var t, n := FoldedTail(f.octets.value), 8 - Count(f);
    FoldedIsHex(f.octets.value);
    assert Values([]) == [];
    if f.compressed {
      ValuesOfAppend(f.tail, t);
      Associate(Values(f.head) + ZeroValues(n), Values(f.tail), Values(t));
    } else {
      ValuesOfAppend(f.head, t);
      assert ZeroValues(0) == [];
    }
  }

  lemma Associate(a: seq<nat>, b: seq<nat>, c: seq<nat>)
    ensures a + (b + c) == a + b + c && a + (b + c) + [] == a + b + c
  {
  }

  lemma {:induction false} JoinHasNoDot(parts: seq<string>)
    requires AllGroups(parts)
    ensures '.' !in Join(parts)
  {
    if parts != [] {
      GroupHasNoColon(parts[0]);
      JoinHasNoDot(parts[1..]);
    }
  }

  /** expandIPv6 undoes every legal text form. */
  lemma FormsExpand(f: Form)
    requires Legal(f)
    ensures ExpandIPv6(Written(f)) == Some(Meaning(f))
  {
    if f.octets.None? {
      JoinHasNoDot(f.head);
      JoinHasNoDot(f.tail);
      FindsNoTail(Written(f));
      HexFormExpands(f);
    } else {
      var o, p := f.octets.value, BeforeTail(f);
      WrittenTail(f);
      SplitOfDots(o);
      FindsTail(p, JoinDots(o));
      assert Written(f)[|p|..] == JoinDots(o) && Written(f)[..|p|] == p;
      WrittenInHex(f);
      HexFormExpands(InHex(f));
      MeaningInHex(f);
    }
  }

  /** Whatever the text, a result is eight groups below 65536. */
  lemma ExpandedIsEightGroups(s: string)
    requires ExpandIPv6(s).Some?
    ensures |ExpandIPv6(s).value| == 8 && forall i :: 0 <= i < 8 ==> ExpandIPv6(s).value[i] < 0x1_0000
  {
    var d := FindDotted(s, 0);
    if d.None? {
      HexIsEightGroups(s);
    } else {
      var t := FoldedTail(Split(s[d.value..], '.'));
      HexIsEightGroups(s[..d.value] + t[0] + ":" + t[1]);
    }
  }

  /** A result of the hexadecimal part is the values of eight groups. */
  lemma HexParts(s: string) returns (parts: seq<string>)
    requires ExpandHex(s).Some?
    ensures |parts| == 8 && AllGroups(parts) && ExpandHex(s) == Some(Values(parts))
  {
    var halves := Halves(s);
    var head := GroupsOf(halves[0]);
    var tail := if |halves| == 2 then GroupsOf(halves[1]) else [];
    var gap := 8 - |head| - |tail|;
    parts := head + Zeros(if gap > 0 then gap else 0) + tail;
  }

  lemma HexIsEightGroups(s: string)
    requires ExpandHex(s).Some?
    ensures |ExpandHex(s).value| == 8 && forall i :: 0 <= i < 8 ==> ExpandHex(s).value[i] < 0x1_0000
  {
    var parts := HexParts(s);
    forall i | 0 <= i < 8 ensures Values(parts)[i] < 0x1_0000 {
      GroupIsBelow(parts[i]);
    }
  }

  // ----- Which accepted texts are legal forms -----

  lemma {:induction false} JoinOfSplit(s: string)
    ensures Join(Split(s, ':')) == s
    decreases |s|
  {
    var h := Head(s, ':');
    if |h| < |s| {
      var rest := s[|h| + 1..];
      JoinOfSplit(rest);
      assert s == h + ":" + rest;
      assert Split(s, ':') == [h] + Split(rest, ':');
    }
  }

  lemma JoinOfGroups(half: string)
    ensures Join(GroupsOf(half)) == half
  {
    JoinOfSplit(half);
  }

  lemma HalvesCover(s: string)
    ensures |Halves(s)| == 1 ==> s == Halves(s)[0]
    ensures |Halves(s)| == 2 ==> s == Halves(s)[0] + "::" + Halves(s)[1]
  {
    var p := FindPair(s, 0);
    if p.Some? {
      var rest := s[p.value + 2..];
      assert s == s[..p.value] + "::" + rest;
      assert |Halves(rest)| == 1 ==> Halves(rest) == [rest];
    }
  }

  lemma PaddedGroups(head: seq<string>, gap: nat, tail: seq<string>)
    requires Numbers(head + Zeros(gap) + tail).Some?
    ensures |head| + gap + |tail| == 8 && AllGroups(head) && AllGroups(tail)
  {
    var parts := head + Zeros(gap) + tail;
    forall i | 0 <= i < |head| ensures IsGroup(head[i]) {
      assert parts[i] == head[i];
    }
    forall i | 0 <= i < |tail| ensures IsGroup(tail[i]) {
      assert parts[|head| + gap + i] == tail[i];
    }
  }

  lemma ExpandedHalves(s: string) returns (head: seq<string>, tail: seq<string>, two: bool)
    requires ExpandHex(s).Some?
    ensures AllGroups(head) && AllGroups(tail)
    ensures if two then |head| + |tail| <= 7 else |head| == 8 && tail == []
    ensures two == (|Halves(s)| == 2) && |Halves(s)| <= 2
    ensures head == GroupsOf(Halves(s)[0]) && (two ==> tail == GroupsOf(Halves(s)[1]))
  {
    var halves := Halves(s);
    two := |halves| == 2;
    head := GroupsOf(halves[0]);
    tail := if two then GroupsOf(halves[1]) else [];
    var gap := 8 - |head| - |tail|;
    PaddedGroups(head, if gap > 0 then gap else 0, tail);
  }

  lemma HexTextHasForm(s: string) returns (f: Form)
    requires ExpandHex(s).Some?
    ensures Legal(f) && f.octets.None? && Written(f) == s
  {
    var head, tail, two := ExpandedHalves(s);
    f := Form(head, two, tail, None);
    HalvesCover(s);
    JoinOfGroups(Halves(s)[0]);
    if two {
      JoinOfGroups(Halves(s)[1]);
    }
  }

  /** The quad that ends the text, if there is one, follows a ':'. */
  predicate QuadStandsAlone(s: string) {
    var d := FindDotted(s, 0);
    d.Some? ==> d.value > 0 && s[d.value - 1] == ':'
  }

  lemma FormStandsAlone(f: Form)
    requires Legal(f)
    ensures QuadStandsAlone(Written(f))
  {
    if f.octets.None? {
      JoinHasNoDot(f.head);
      JoinHasNoDot(f.tail);
      FindsNoTail(Written(f));
    } else {
      WrittenTail(f);
      SplitOfDots(f.octets.value);
      FindsTail(BeforeTail(f), JoinDots(f.octets.value));
    }
  }

  lemma Nest(h: string, rest: string, b: string)
    ensures h + ":" + rest + ":" + b == h + ":" + (rest + ":" + b)
  {
  }

  lemma CutFirst(a: string) returns (h: string, rest: string)
    requires ':' in a
    ensures ':' !in h && a == h + ":" + rest && |rest| < |a|
  {
    h := Head(a, ':');
    rest := a[|h| + 1..];
  }

  lemma {:induction false} SplitAppend(a: string, b: string)
    requires ':' !in b
    ensures Split(a + ":" + b, ':') == Split(a, ':') + [b]
    decreases |a|
  {
    if ':' in a {
      var h, rest := CutFirst(a);
      SplitAppend(rest, b);
      Nest(h, rest, b);
      SplitStep(h, ":", rest + ":" + b);
      SplitStep(h, ":", rest);
    } else {
      SplitStep(a, ":", b);
      SplitWhole(a, ':');
      SplitWhole(b, ':');
    }
  }

  /** Cutting text that ends in two groups after a ':', or is just the two. */
  lemma LastTwo(x: string, a: string, b: string) returns (front: seq<string>)
    requires x == "" || x[|x| - 1] == ':'
    requires ':' !in a && ':' !in b
    ensures Split(x + a + ":" + b, ':') == front + [a] + [b]
  {
    if x == "" {
      front := [];
      SplitWhole(a, ':');
      SplitAppend(a, b);
      assert x + a + ":" + b == a + ":" + b;
    } else {
      var y := x[..|x| - 1];
      front := Split(y, ':');
      assert x + a == y + ":" + a;
      SplitAppend(y, a);
      SplitAppend(x + a, b);
    }
  }

  lemma FirstPart(q: string) returns (rest: string)
    requires |Split(q, '.')| > 1
    ensures q == Split(q, '.')[0] + "." + rest && Split(rest, '.') == Split(q, '.')[1..]
  {
    rest := q[|Head(q, '.')| + 1..];
  }

  lemma OnlyPart(q: string)
    requires |Split(q, '.')| == 1
    ensures q == Split(q, '.')[0]
  {
  }

  lemma JoinDotsOfSplit(q: string)
    requires |Split(q, '.')| == 4
    ensures JoinDots(Split(q, '.')) == q
  {
    var q1 := FirstPart(q);
    var q2 := FirstPart(q1);
    var q3 := FirstPart(q2);
    OnlyPart(q3);
  }

  /** One to three digits. */
  predicate ShortNumber(s: string) {
    1 <= |s| <= 3 && AllDigits(s)
  }

  lemma FourNumbersAreDotted(a: string, b: string, c: string, d: string)
    requires ShortNumber(a) && ShortNumber(b) && ShortNumber(c) && ShortNumber(d)
    ensures IsDotted(JoinDots([a, b, c, d]))
  {
    SplitFour(a, b, c, d);
  }

  lemma DottedHasFourNumbers(t: string) returns (a: string, b: string, c: string, d: string)
    requires IsDotted(t)
    ensures ShortNumber(a) && ShortNumber(b) && ShortNumber(c) && ShortNumber(d) && t == JoinDots([a, b, c, d])
  {
    var o := Split(t, '.');
    a, b, c, d := o[0], o[1], o[2], o[3];
    JoinDotsOfSplit(t);
    assert o == [a, b, c, d];
  }

  /** A dotted text is exactly four such numbers with dots between them. */
  lemma DottedIsFourNumbers(t: string)
    ensures IsDotted(t)
      <==> exists a, b, c, d :: ShortNumber(a) && ShortNumber(b) && ShortNumber(c) && ShortNumber(d)
                                && t == JoinDots([a, b, c, d])
  {
    if IsDotted(t) {
      var a, b, c, d := DottedHasFourNumbers(t);
    }
    forall a, b, c, d | ShortNumber(a) && ShortNumber(b) && ShortNumber(c) && ShortNumber(d)
      ensures IsDotted(JoinDots([a, b, c, d]))
    {
      FourNumbersAreDotted(a, b, c, d);
    }
  }

  /** The "::" lies before the folded quad. */
  lemma PairIsBeforeTail(x: string, a: string, b: string, n: nat)
    requires x != "" && x[|x| - 1] == ':' && IsGroup(a) && IsGroup(b) && PairAt(x + a + ":" + b, n)
    ensures n + 2 <= |x|
  {
    var s := x + a + ":" + b;
    assert forall i :: 0 <= i < |a| ==> s[|x| + i] == a[i] && IsHexDigit(a[i]);
    assert forall i :: 0 <= i < |b| ==> s[|x| + |a| + 1 + i] == b[i] && IsHexDigit(b[i]);
    assert s[|x|] == a[0] && s[|x| + |a| + 1] == b[0];
  }

  lemma DropFront(x: string, a: string, b: string, n: nat)
    requires n <= |x|
    ensures (x + a + ":" + b)[n..] == x[n..] + a + ":" + b
  {
  }

  /** The last half of folded text ends in the two groups of the quad. */
  lemma LastHalf(x: string, a: string, b: string) returns (front: seq<string>)
    requires x != "" && x[|x| - 1] == ':' && IsGroup(a) && IsGroup(b)
    requires |Halves(x + a + ":" + b)| <= 2
    ensures var halves := Halves(x + a + ":" + b);
      GroupsOf(halves[|halves| - 1]) == front + [a] + [b]
  {
    var s := x + a + ":" + b;
    GroupHasNoColon(a);
    GroupHasNoColon(b);
    var p := FindPair(s, 0);
    if p.None? {
      front := LastTwo(x, a, b);
    } else {
      PairIsBeforeTail(x, a, b, p.value);
      DropFront(x, a, b, p.value + 2);
      front := LastTwo(x[p.value + 2..], a, b);
      LaterHalf(s, p.value);
    }
  }

  lemma LaterHalf(s: string, n: nat)
    requires FindPair(s, 0) == Some(n) && |Halves(s)| == 2
    ensures Halves(s)[1] == s[n + 2..]
  {
  }

  lemma FrontIsLegal(f: Form, last: seq<string>, head: seq<string>, two: bool, front: seq<string>, a: string, b: string)
    requires AllGroups(last) && AllGroups(head) && last == front + [a] + [b]
    requires f.octets.Some? && |f.octets.value| == 4 && forall i :: 0 <= i < 4 ==> IsOctet(f.octets.value[i])
    requires f == if two then Form(head, true, front, f.octets) else Form(front, false, [], f.octets)
    requires if two then |head| + |last| <= 7 else |last| == 8
    ensures Legal(f)
  {
    forall i | 0 <= i < |front| ensures IsGroup(front[i]) {
      assert last[i] == front[i];
    }
  }

  /** Folded text that expands comes from a form with those octets. */
  lemma FoldedTextHasForm(x: string, o: seq<string>) returns (f: Form)
    requires x != "" && x[|x| - 1] == ':' && |o| == 4 && forall i :: 0 <= i < 4 ==> IsOctet(o[i])
    requires ExpandHex(x + FoldedTail(o)[0] + ":" + FoldedTail(o)[1]).Some?
    ensures Legal(f) && f.octets == Some(o) && BeforeTail(f) == x
  {
    var a, b := FoldedTail(o)[0], FoldedTail(o)[1];
    var hex := x + a + ":" + b;
    FoldedIsHex(o);
    var head, tail, two := ExpandedHalves(hex);
    var front := LastHalf(x, a, b);
    f := if two then Form(head, true, front, Some(o)) else Form(front, false, [], Some(o));
    FrontIsLegal(f, if two then tail else head, head, two, front, a, b);
    WrittenInHex(f);
    EndsInPair(front, FoldedTail(o));
    FoldedFormIs(f, hex, head, tail, two);
    SameLead(BeforeTail(f), x, a, b);
  }

  lemma EndsInPair(front: seq<string>, t: seq<string>)
    requires |t| == 2
    ensures front + [t[0]] + [t[1]] == front + t
  {
  }

  lemma SameLead(x: string, y: string, a: string, b: string)
    requires x + a + ":" + b == y + a + ":" + b
    ensures x == y
  {
    assert |x| == |y|;
    assert x == (x + a + ":" + b)[..|x|];
  }

  lemma DottedOctets(s: string, n: nat) returns (o: seq<string>)
    requires ExpandIPv6(s).Some? && FindDotted(s, 0) == Some(n)
    ensures |o| == 4 && (forall i :: 0 <= i < 4 ==> IsOctet(o[i])) && s == s[..n] + JoinDots(o)
    ensures ExpandHex(s[..n] + FoldedTail(o)[0] + ":" + FoldedTail(o)[1]).Some?
  {
    o := Split(s[n..], '.');
    forall i | 0 <= i < 4 ensures IsOctet(o[i]) {
    }
    JoinDotsOfSplit(s[n..]);
    assert s == s[..n] + s[n..];
  }

  lemma DottedTextHasForm(s: string, n: nat) returns (f: Form)
    requires ExpandIPv6(s).Some? && FindDotted(s, 0) == Some(n) && QuadStandsAlone(s)
    ensures Legal(f) && Written(f) == s
  {
    var o := DottedOctets(s, n);
    f := FoldedTextHasForm(s[..n], o);
    WrittenTail(f);
  }

  lemma FoldedFormIs(f: Form, hex: string, head: seq<string>, tail: seq<string>, two: bool)
    requires Legal(f) && f.octets.Some? && InHex(f) == Form(head, two, tail, None)
    requires two == (|Halves(hex)| == 2) && |Halves(hex)| <= 2
    requires head == GroupsOf(Halves(hex)[0]) && (if two then tail == GroupsOf(Halves(hex)[1]) else tail == [])
    requires Legal(InHex(f))
    ensures Written(InHex(f)) == hex
  {
    HalvesCover(hex);
    JoinOfGroups(Halves(hex)[0]);
    if two {
      JoinOfGroups(Halves(hex)[1]);
    }
  }

  /** The accepted texts are the legal forms, with their meanings, exactly where a closing quad follows a ':'. */
  lemma AcceptsExactlyForms(s: string, g: seq<nat>)
    ensures ExpandIPv6(s) == Some(g) && QuadStandsAlone(s)
      <==> exists f :: Legal(f) && Written(f) == s && Meaning(f) == g
  {
    if ExpandIPv6(s) == Some(g) && QuadStandsAlone(s) {
      var f;
      if FindDotted(s, 0).None? {
        f := HexTextHasForm(s);
      } else {
        f := DottedTextHasForm(s, FindDotted(s, 0).value);
      }
      FormsExpand(f);
    }
    forall f | Legal(f) && Written(f) == s ensures ExpandIPv6(s) == Some(Meaning(f)) && QuadStandsAlone(s) {
      FormsExpand(f);
      FormStandsAlone(f);
    }
  }

  /** The leftmost quad of "<x><letter><quad>" is the quad. */
  lemma FindsGlued(p: string, q: string)
    requires p != "" && IsHexDigit(p[|p| - 1]) && !('0' <= p[|p| - 1] <= '9') && IsDotted(q)
    ensures FindDotted(p + q, 0) == Some(|p|)
  {
    var s := p + q;
    assert s[|p|..] == q;
    assert DottedAt(s, |p|);
    forall j: nat | j < |p| ensures !DottedAt(s, j) {
      LetterIsNotDotted(s, j, |p| - 1);
    }
    FindDottedIs(s, |p|);
  }

  lemma LetterIsNotDotted(s: string, j: nat, k: nat)
    requires j <= k < |s| && 'a' <= s[k] <= 'f'
    ensures !DottedAt(s, j)
  {
    var t, x := s[j..], s[k];
    assert t[k - j] == x;
    if IsDotted(t) {
      SplitKeeps(t, '.', x);
    }
  }

  /** A quad glued to a hexadecimal group is accepted, although no legal form writes it. */
  lemma GluedQuadIsAccepted(o: seq<string>)
    requires |o| == 4 && (forall i :: 0 <= i < 4 ==> IsOctet(o[i])) && |FoldedTail(o)[0]| <= 3
    ensures var s := "::a" + JoinDots(o); ExpandIPv6(s).Some? && !QuadStandsAlone(s)
  {
    var q, t := JoinDots(o), FoldedTail(o);
    SplitOfDots(o);
    FindsGlued("::a", q);
    assert ("::a" + q)[3..] == q && ("::a" + q)[..3] == "::a";
    GluedHexExpands(o);
  }

  lemma GluedText(a: string, b: string)
    ensures "" + "::" + ("a" + a + ":" + b) == "::a" + a + ":" + b
  {
    assert "::a" == "::" + "a";
  }

  lemma GluedGroup(a: string)
    requires IsGroup(a) && |a| <= 3
    ensures IsGroup("a" + a)
  {
  }

  /** The text of a form that starts with "::" and has two groups. */
  lemma TwoAfterPair(x: string, b: string)
    requires IsGroup(x) && IsGroup(b)
    ensures ExpandHex("" + "::" + (x + ":" + b)).Some?
  {
    var f := Form([], true, [x, b], None);
    JoinTwo(f.tail);
    HexFormExpands(f);
  }

  lemma GluedHexExpands(o: seq<string>)
    requires |o| == 4 && (forall i :: 0 <= i < 4 ==> IsOctet(o[i])) && |FoldedTail(o)[0]| <= 3
    ensures ExpandHex("::a" + FoldedTail(o)[0] + ":" + FoldedTail(o)[1]).Some?
  {
    var a, b := FoldedTail(o)[0], FoldedTail(o)[1];
    FoldedIsHex(o);
    GluedGroup(a);
    TwoAfterPair("a" + a, b);
    GluedText(a, b);
  }

  /** Such as "::a0.0.0.0". */
  lemma ZeroQuadIsGlued()
    ensures ExpandIPv6("::a" + JoinDots(["0", "0", "0", "0"])).Some?
  {
    var o := ["0", "0", "0", "0"];
    assert Decimal("0") == 0 && |Hex(0)| == 1;
    GluedQuadIsAccepted(o);
  }
}

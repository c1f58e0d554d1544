/** The string operations the identity code uses, on sequences of characters. */
module Text {
  import opened Support

  /** The text before the first `c`, or all of it: split(c)[0]. */
  function Head(s: string, c: char): (h: string)
    ensures |h| <= |s| && h == s[..|h|] && c !in h && (|h| < |s| ==> s[|h|] == c)
  {
    if s == "" || s[0] == c then "" else [s[0]] + Head(s[1..], c)
  }

  /** split(c). */
  function Split(s: string, c: char): (parts: seq<string>)
    ensures parts != [] && forall i :: 0 <= i < |parts| ==> c !in parts[i]
    decreases |s|
  {
    var h := Head(s, c);
    if |h| == |s| then [h] else [h] + Split(s[|h| + 1..], c)
  }

  function DigitValue(c: char): nat {
    if '0' <= c <= '9' then (c - '0') as nat else 0
  }

  predicate AllDigits(s: string) {
    forall i :: 0 <= i < |s| ==> '0' <= s[i] <= '9'
  }

  /** The number a string of decimal digits stands for. */
  function Decimal(s: string): nat {
    if s == "" then 0 else 10 * Decimal(s[..|s| - 1]) + DigitValue(s[|s| - 1])
  }

  function LeadingDigits(s: string): (d: string)
    ensures d <= s && AllDigits(d)
  {
    if s == "" || !('0' <= s[0] <= '9') then "" else [s[0]] + LeadingDigits(s[1..])
  }

  /** parseInt(s, 10): leading space, a sign, the digits at the front; None is NaN. */
  function ParseInt(s: string): Option<int> {
    ReadSigned(TrimLeft(s))
  }

  function ReadSigned(t: string): Option<int> {
    var signed := t != "" && (t[0] == '-' || t[0] == '+');
    var d := LeadingDigits(if signed then t[1..] else t);
    if d == "" then None
    else if signed && t[0] == '-' then Some(0 - Decimal(d))
    else Some(Decimal(d))
  }

  lemma {:induction false} DigitsLead(s: string)
    requires AllDigits(s)
    ensures LeadingDigits(s) == s
  {
    if s != "" {
      DigitsLead(s[1..]);
    }
  }

  lemma ParseIntOfDigits(s: string)
    requires AllDigits(s) && s != ""
    ensures ParseInt(s) == Some(Decimal(s))
  {
    DigitsLead(s);
    assert '0' <= s[0] <= '9';
    assert !IsWhite(s[0]);
  }

  lemma {:induction false} DigitsStop(d: string, rest: string)
    requires AllDigits(d) && (rest == "" || !('0' <= rest[0] <= '9'))
    ensures LeadingDigits(d + rest) == d
  {
    if d == "" {
      assert d + rest == rest;
    } else {
      assert (d + rest)[1..] == d[1..] + rest;
      DigitsStop(d[1..], rest);
    }
  }

  lemma SignedDigits(t: string, d: string)
    requires t != "" && (t[0] == '-' || t[0] == '+') && LeadingDigits(t[1..]) == d
    ensures ReadSigned(t) == if d == "" then None else if t[0] == '-' then Some(0 - Decimal(d)) else Some(Decimal(d))
  {
  }

  lemma DropFirst(a: string, b: string)
    requires |a| == 1
    ensures (a + b)[0] == a[0] && (a + b)[1..] == b
  {
  }

  lemma ReadsSign(sign: string, d: string, rest: string)
    requires |sign| == 1 && (sign[0] == '+' || sign[0] == '-')
    requires AllDigits(d) && (rest == "" || !('0' <= rest[0] <= '9'))
    ensures ReadSigned(sign + (d + rest))
         == if d == "" then None else if sign[0] == '-' then Some(0 - Decimal(d)) else Some(Decimal(d))
  {
    DigitsStop(d, rest);
    DropFirst(sign, d + rest);
    SignedDigits(sign + (d + rest), d);
  }

  lemma {:induction false} TrimLeftSkips(space: string, s: string)
    requires forall i :: 0 <= i < |space| ==> IsWhite(space[i])
    ensures TrimLeft(space + s) == TrimLeft(s)
    decreases |space|
  {
    if space == "" {
      assert space + s == s;
    } else {
      assert (space + s)[1..] == space[1..] + s;
      TrimLeftSkips(space[1..], s);
    }
  }

  /** parseInt skips leading space, reads a sign and the digits up to anything else; without digits it is NaN. */
  lemma ParseIntReads(space: string, sign: string, d: string, rest: string)
    requires forall i :: 0 <= i < |space| ==> IsWhite(space[i])
    requires |sign| == 1 && (sign[0] == '+' || sign[0] == '-')
    requires AllDigits(d) && (rest == "" || !('0' <= rest[0] <= '9'))
    ensures ParseInt(space + (sign + (d + rest)))
         == if d == "" then None else if sign[0] == '-' then Some(0 - Decimal(d)) else Some(Decimal(d))
    ensures d != "" ==> ParseInt(space + (d + rest)) == Some(Decimal(d))
  {
    TrimLeftSkips(space, sign + (d + rest));
    TrimLeftSkips(space, d + rest);
    SignIsInk(sign, d + rest);
    ReadsSign(sign, d, rest);
    if d != "" {
      ReadsDigits(d, rest);
    }
  }

  lemma SignIsInk(sign: string, t: string)
    requires |sign| == 1 && (sign[0] == '+' || sign[0] == '-')
    ensures TrimLeft(sign + t) == sign + t
  {
    DropFirst(sign, t);
  }

  lemma ReadsDigits(d: string, rest: string)
    requires AllDigits(d) && d != "" && (rest == "" || !('0' <= rest[0] <= '9'))
    ensures TrimLeft(d + rest) == d + rest && ReadSigned(d + rest) == Some(Decimal(d))
  {
    DigitsStop(d, rest);
    assert (d + rest)[0] == d[0] && '0' <= d[0] <= '9';
  }

  /** The decimal text of a number. */
  function DecimalText(n: nat): string {
    if n < 10 then ['0' + n as char] else DecimalText(n / 10) + ['0' + (n % 10) as char]
  }

  lemma {:induction false} DecimalRoundTrips(n: nat)
    ensures AllDigits(DecimalText(n)) && DecimalText(n) != "" && Decimal(DecimalText(n)) == n
  {
    if n >= 10 {
      DecimalRoundTrips(n / 10);
      assert DecimalText(n)[..|DecimalText(n)| - 1] == DecimalText(n / 10);
    }
  }

  /** A number below 256 in one to three digits. */
  predicate IsOctet(part: string) {
    1 <= |part| <= 3 && AllDigits(part) && Decimal(part) <= 255
  }

  lemma {:induction false} DecimalLength(n: nat)
    ensures n < 10 ==> |DecimalText(n)| == 1
    ensures 10 <= n < 100 ==> |DecimalText(n)| == 2
    ensures 100 <= n < 1000 ==> |DecimalText(n)| == 3
  {
    if n >= 10 {
      DecimalLength(n / 10);
    }
  }

  /** Every byte is written as an octet; no larger number is, nor more than three digits, nor none. */
  lemma OctetsAreBytes(n: nat, s: string)
    ensures IsOctet(DecimalText(n)) <==> n < 256
    ensures s == "" || |s| > 3 ==> !IsOctet(s)
  {
    DecimalRoundTrips(n);
    DecimalLength(n);
  }

  /** The pattern `\d{1,3}(\.\d{1,3}){3}`, whole. */
  predicate IsDotted(t: string) {
    var parts := Split(t, '.');
    |parts| == 4 && forall i :: 0 <= i < 4 ==> 1 <= |parts[i]| <= 3 && AllDigits(parts[i])
  }

  /** lastIndexOf. */
  function LastIndex(s: string, c: char): (i: Option<nat>)
    ensures i.Some? ==> i.value < |s| && s[i.value] == c && c !in s[i.value + 1..]
    ensures i.None? <==> c !in s
  {
    if s == "" then None
    else if s[|s| - 1] == c then Some(|s| - 1)
    else LastIndex(s[..|s| - 1], c)
  }

  /** ASCII lower case. */
  function LowerChar(c: char): char {
    if 'A' <= c <= 'Z' then c - 'A' + 'a' else c
  }

  function Lower(s: string): (l: string)
    ensures |l| == |s| && forall i :: 0 <= i < |s| ==> l[i] == LowerChar(s[i])
  {
    seq(|s|, i requires 0 <= i < |s| => LowerChar(s[i]))
  }

  /** The white space of trim() and of \s. */
  predicate IsWhite(c: char) {
    || '\t' <= c <= '\r' || c == ' ' || c == '\U{00A0}' || c == '\U{1680}' || '\U{2000}' <= c <= '\U{200A}'
    || c == '\U{2028}' || c == '\U{2029}' || c == '\U{202F}' || c == '\U{205F}' || c == '\U{3000}' || c == '\U{FEFF}'
  }

  function TrimLeft(s: string): (t: string)
    ensures t == "" || !IsWhite(t[0])
  {
    if s != "" && IsWhite(s[0]) then TrimLeft(s[1..]) else s
  }

  function TrimRight(s: string): (t: string)
    ensures |t| <= |s| && t == s[..|t|] && (forall i :: |t| <= i < |s| ==> IsWhite(s[i]))
    ensures t == "" || !IsWhite(t[|t| - 1])
  {
    if s != "" && IsWhite(s[|s| - 1]) then TrimRight(s[..|s| - 1]) else s
  }

  function Trim(s: string): string {
    TrimRight(TrimLeft(s))
  }

  /** Trimming takes off white space at both ends and nothing else. */
  lemma TrimTakesOffWhite(s: string) returns (before: string, after: string)
    ensures s == before + Trim(s) + after
    ensures forall i :: 0 <= i < |before| ==> IsWhite(before[i])
    ensures forall i :: 0 <= i < |after| ==> IsWhite(after[i])
    ensures Trim(s) == "" || (!IsWhite(Trim(s)[0]) && !IsWhite(Trim(s)[|Trim(s)| - 1]))
  {
    before := TrimLeftTakesOff(s);
    after := TrimRightTakesOff(TrimLeft(s));
  }

  lemma TrimRightTakesOff(t: string) returns (after: string)
    ensures t == TrimRight(t) + after && forall i :: 0 <= i < |after| ==> IsWhite(after[i])
  {
    after := t[|TrimRight(t)|..];
  }

  lemma {:induction false} TrimLeftTakesOff(s: string) returns (before: string)
    ensures s == before + TrimLeft(s) && forall i :: 0 <= i < |before| ==> IsWhite(before[i])
    decreases |s|
  {
    if s != "" && IsWhite(s[0]) {
      var rest := TrimLeftTakesOff(s[1..]);
      before := [s[0]] + rest;
      assert s == [s[0]] + s[1..];
    } else {
      before := "";
    }
  }

  predicate EndsWith(s: string, suffix: string) {
    |suffix| <= |s| && s[|s| - |suffix|..] == suffix
  }

  /** Where the classes begin and end. */
  lemma CharacterBounds()
    ensures LowerChar('A') == 'a' && LowerChar('Z') == 'z' && LowerChar('@') == '@' && LowerChar('[') == '['
    ensures LowerChar('a') == 'a' && LowerChar('z') == 'z' && LowerChar('0') == '0'
    ensures IsWhite('\t') && IsWhite('\n') && IsWhite('\r') && IsWhite(' ')
    ensures !IsWhite('!') && !IsWhite('a') && !IsWhite('@') && !IsWhite('0')
    ensures DigitValue('0') == 0 && DigitValue('1') == 1 && DigitValue('9') == 9
  {
  }

  predicate NoLeadingWhite(s: string) {
    s == "" || !IsWhite(s[0])
  }

  lemma NotIn(s: string, c: char, lo: nat, hi: nat)
    requires lo <= hi <= |s| && c !in s[lo..hi]
    ensures forall i :: lo <= i < hi ==> s[i] != c
  {
    forall i | lo <= i < hi ensures s[i] != c {
      assert s[i] == s[lo..hi][i - lo];
    }
  }

  lemma HeadIs(s: string, c: char, n: nat)
    requires n <= |s| && c !in s[..n] && (n < |s| ==> s[n] == c)
    ensures Head(s, c) == s[..n]
  {
    NotIn(s, c, 0, n);
    NotIn(s, c, 0, |Head(s, c)|);
  }

  lemma LastIndexIs(s: string, c: char, n: nat)
    requires n < |s| && s[n] == c && c !in s[n + 1..]
    ensures LastIndex(s, c) == Some(n)
  {
    assert c in s;
    NotIn(s, c, n + 1, |s|);
    NotIn(s, c, LastIndex(s, c).value + 1, |s|);
  }

  /** Lower casing moves no '@' and no ':'. */
  lemma LowerCharKeepsSeparators(c: char)
    ensures LowerChar(c) == '@' <==> c == '@'
    ensures LowerChar(c) == ':' <==> c == ':'
  {
  }

  lemma LowerOfHead(s: string)
    ensures Head(Lower(s), ':') == Lower(Head(s, ':'))
  {
    var n := |Head(s, ':')|;
    forall i | 0 <= i < |s| ensures Lower(s)[i] == ':' <==> s[i] == ':' {
      LowerCharKeepsSeparators(s[i]);
    }
    assert forall i :: 0 <= i < n ==> s[i] == Head(s, ':')[i];
    HeadIs(Lower(s), ':', n);
    LowerOfSlice(s, n);
  }

  lemma LowerIsIdempotent(s: string)
    ensures Lower(Lower(s)) == Lower(s)
  {
  }

  lemma LowerOfAppend(a: string, b: string)
    ensures Lower(a + b) == Lower(a) + Lower(b)
  {
  }

  lemma {:induction false} TrimLeftOfAppend(a: string, b: string)
    requires b != "" && !IsWhite(b[0])
    ensures TrimLeft(a + b) == TrimLeft(a) + b
    decreases |a|
  {
    if a == "" {
      assert a + b == b;
    } else if IsWhite(a[0]) {
      assert (a + b)[1..] == a[1..] + b;
      TrimLeftOfAppend(a[1..], b);
    }
  }

  /** Text that starts and ends with ink is not trimmed. */
  lemma TrimKeeps(s: string)
    requires s == "" || (!IsWhite(s[0]) && !IsWhite(s[|s| - 1]))
    ensures Trim(s) == s
  {
  }

  lemma TrimOfAppend(a: string, b: string)
    requires b != "" && !IsWhite(b[0]) && !IsWhite(b[|b| - 1])
    ensures Trim(a + b) == TrimLeft(a) + b
  {
    TrimLeftOfAppend(a, b);
    var t := TrimLeft(a) + b;
    assert t[|t| - 1] == b[|b| - 1];
    assert TrimRight(t) == t;
  }

  lemma LowerOfSlice(s: string, n: nat)
    requires n <= |s|
    ensures Lower(s[..n]) == Lower(s)[..n] && Lower(s[n..]) == Lower(s)[n..]
  {
  }

  /** Cutting at `a` and at `b` commutes: either way the text ends at the first of the two. */
  lemma HeadsCommute(s: string, a: char, b: char)
    ensures Head(Head(s, a), b) == Head(Head(s, b), a)
  {
    var hb := Head(s, b);
    if |hb| <= |Head(s, a)| {
      assert Head(s, a)[..|hb|] == hb;
      HeadIs(Head(s, a), b, |hb|);
      HeadIs(hb, a, |hb|);
    } else {
      HeadIs(hb, a, |Head(s, a)|);
      assert Head(s, a) == hb[..|Head(s, a)|];
      HeadIs(Head(s, a), b, |Head(s, a)|);
    }
  }
}

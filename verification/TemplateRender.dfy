/**
 Template rendering (src/common/utils/template-render.ts): the matches of `{{key}}` and `{key}`, and the
 single left-to-right replacement that uses them.
 */
module TemplateRender {
  import opened Support
  import opened Text

  // ----- The pattern, as a grammar -----

  predicate IsWord(c: char) {
    'a' <= c <= 'z' || 'A' <= c <= 'Z' || '0' <= c <= '9' || c == '_'
  }

  predicate IsKeyChar(c: char) {
    IsWord(c) || c == '.' || c == '-'
  }

  /** \w is the ASCII letters, the digits and the underscore; a double-brace key also takes '.' and '-'. */
  lemma WordCharacters()
    ensures IsWord('a') && IsWord('z') && IsWord('A') && IsWord('Z') && IsWord('0') && IsWord('9') && IsWord('_')
    ensures !IsWord('`') && !IsWord('{') && !IsWord('@') && !IsWord('[') && !IsWord('/') && !IsWord(':')
    ensures IsKeyChar('.') && IsKeyChar('-') && !IsWord('.') && !IsWord('-') && !IsKeyChar(' ') && !IsKeyChar('}')
  {
  }

  predicate AllWhite(s: string) {
    forall i :: 0 <= i < |s| ==> IsWhite(s[i])
  }

  predicate AllKey(s: string) {
    forall i :: 0 <= i < |s| ==> IsKeyChar(s[i])
  }

  predicate AllWord(s: string) {
    forall i :: 0 <= i < |s| ==> IsWord(s[i])
  }

  /** Two braces, spaces, the key, spaces, two braces. */
  function DoubleText(before: string, key: string, after: string): string {
    "{{" + before + key + after + "}}"
  }

  /** `t` is a whole match of the double-brace branch, with this key. */
  ghost predicate IsDouble(t: string, key: string) {
    && key != "" && AllKey(key)
    && exists before, after :: AllWhite(before) && AllWhite(after) && t == DoubleText(before, key, after)
  }

  /** `t` is a whole match of the single-brace branch, with this key. */
  predicate IsSingle(t: string, key: string) {
    key != "" && AllWord(key) && t == "{" + key + "}"
  }

  // ----- The pattern, as a scanner -----

  /** How much of the text a match at its start takes, and the key it captures. */
  datatype Match = Match(size: nat, key: string)

  /** The end of the longest run from `i` of characters in the class. */
  function Skip(s: string, i: nat, inClass: char -> bool): (j: nat)
    requires i <= |s|
    ensures i <= j <= |s| && (forall k :: i <= k < j ==> inClass(s[k])) && (j < |s| ==> !inClass(s[j]))
    decreases |s| - i
  {
    if i < |s| && inClass(s[i]) then Skip(s, i + 1, inClass) else i
  }

  predicate TwoAt(s: string, i: nat, c: char) {
    i + 1 < |s| && s[i] == c && s[i + 1] == c
  }

  /** The double-brace branch at the start of the text. */
  function DoubleMatch(s: string): (m: Option<Match>)
    ensures m.Some? ==> 0 < m.value.size <= |s|
  {
    if !TwoAt(s, 0, '{') then None
    else
      var a := Skip(s, 2, IsWhite);
      var b := Skip(s, a, IsKeyChar);
      var c := Skip(s, b, IsWhite);
      if a < b && TwoAt(s, c, '}') then Some(Match(c + 2, s[a..b])) else None
  }

  /** The single-brace branch at the start of the text. */
  function SingleMatch(s: string): (m: Option<Match>)
    ensures m.Some? ==> 0 < m.value.size <= |s|
  {
    if s == "" || s[0] != '{' then None
    else
      var b := Skip(s, 1, IsWord);
      if 1 < b < |s| && s[b] == '}' then Some(Match(b + 1, s[1..b])) else None
  }

  /** The match at the start of the text, the double-brace branch first. */
  function FirstMatch(s: string): (m: Option<Match>)
    ensures m.Some? ==> 0 < m.value.size <= |s|
  {
    var d := DoubleMatch(s);
    if d.Some? then d else SingleMatch(s)
  }

  // ----- Rendering -----

  type Vars = map<string, Option<string>>

  predicate Bound(vars: Vars, key: string) {
    key in vars && vars[key].Some?
  }

  /** What a match is replaced by. */
  function Value(vars: Vars, text: string, key: string): string {
    if Bound(vars, key) then vars[key].value else text
  }

  /** renderTemplate: from left to right, a match is replaced and skipped, any other character is kept. */
  function RenderTemplate(body: string, vars: Vars): string {
    if body == "" then ""
    else
      var m := FirstMatch(body);
      if m.None? then [body[0]] + RenderTemplate(body[1..], vars)
      else Value(vars, body[..m.value.size], m.value.key) + RenderTemplate(body[m.value.size..], vars)
  }

  // ----- The scanner finds exactly the grammar's matches -----

  lemma SkipIs(s: string, i: nat, inClass: char -> bool, j: nat)
    requires i <= j <= |s| && (forall k :: i <= k < j ==> inClass(s[k])) && (j < |s| ==> !inClass(s[j]))
    ensures Skip(s, i, inClass) == j
  {
  }

  lemma ClassesAreDisjoint(c: char)
    ensures IsKeyChar(c) ==> !IsWhite(c) && c != '{' && c != '}'
    ensures IsWhite(c) ==> c != '{' && c != '}'
  {
  }

  lemma DoubleIsSound(s: string)
    requires DoubleMatch(s).Some?
    ensures var m := DoubleMatch(s).value; IsDouble(s[..m.size], m.key)
  {
    var m := DoubleMatch(s).value;
    var a := Skip(s, 2, IsWhite);
    var b := Skip(s, a, IsKeyChar);
    var c := Skip(s, b, IsWhite);
    SpellsDouble(s, a, b, c);
    assert AllWhite(s[2..a]) && AllWhite(s[b..c]);
  }

  lemma SpellsDouble(s: string, a: nat, b: nat, c: nat)
    requires 2 <= a <= b <= c && TwoAt(s, 0, '{') && TwoAt(s, c, '}')
    ensures s[..c + 2] == DoubleText(s[2..a], s[a..b], s[b..c])
  {
    assert s[..c + 2] == s[..2] + s[2..a] + s[a..b] + s[b..c] + s[c..c + 2];
    assert s[..2] == "{{" && s[c..c + 2] == "}}";
  }

  /** Where the parts of a double-brace match lie. */
  lemma PartsOfDouble(before: string, key: string, after: string)
    ensures var t := DoubleText(before, key, after);
      var a := 2 + |before|; var b := a + |key|; var c := b + |after|;
      && |t| == c + 2 && TwoAt(t, 0, '{') && TwoAt(t, c, '}')
      && t[2..a] == before && t[a..b] == key && t[b..c] == after
  {
  }

  lemma DoubleScans(s: string, a: nat, b: nat, c: nat)
    requires 2 <= a < b <= c && TwoAt(s, 0, '{') && TwoAt(s, c, '}')
    requires forall k :: 2 <= k < a ==> IsWhite(s[k])
    requires forall k :: a <= k < b ==> IsKeyChar(s[k])
    requires forall k :: b <= k < c ==> IsWhite(s[k])
    ensures DoubleMatch(s) == Some(Match(c + 2, s[a..b]))
  {
    ClassesAreDisjoint(s[a]);
    ClassesAreDisjoint(s[b]);
    ClassesAreDisjoint(s[c]);
    SkipIs(s, 2, IsWhite, a);
    SkipIs(s, a, IsKeyChar, b);
    SkipIs(s, b, IsWhite, c);
  }

  lemma SliceOfPrefix(s: string, e: nat, a: nat, b: nat)
    requires a <= b <= e <= |s|
    ensures s[..e][a..b] == s[a..b]
  {
  }

  lemma AllOf(s: string, a: nat, b: nat, inClass: char -> bool)
    requires a <= b <= |s| && forall k :: 0 <= k < |s[a..b]| ==> inClass(s[a..b][k])
    ensures forall k :: a <= k < b ==> inClass(s[k])
  {
    forall k | a <= k < b ensures inClass(s[k]) {
      assert s[k] == s[a..b][k - a];
    }
  }

  /** Where the parts lie in a text that begins with a double-brace match. */
  lemma PartsOfPrefix(s: string, before: string, key: string, after: string, e: nat)
    requires e <= |s| && s[..e] == DoubleText(before, key, after)
    ensures var a := 2 + |before|; var b := a + |key|; var c := b + |after|;
      && e == c + 2 && TwoAt(s, 0, '{') && TwoAt(s, c, '}')
      && s[2..a] == before && s[a..b] == key && s[b..c] == after
  {
    var a := 2 + |before|;
    var b := a + |key|;
    var c := b + |after|;
    PartsOfDouble(before, key, after);
    SliceOfPrefix(s, e, 2, a);
    SliceOfPrefix(s, e, a, b);
    SliceOfPrefix(s, e, b, c);
    TwoInPrefix(s, e, 0, '{');
    TwoInPrefix(s, e, c, '}');
  }

  lemma TwoInPrefix(s: string, e: nat, i: nat, c: char)
    requires e <= |s| && TwoAt(s[..e], i, c)
    ensures TwoAt(s, i, c)
  {
  }

  lemma DoubleIsComplete(s: string, before: string, key: string, after: string, e: nat)
    requires e <= |s| && key != "" && AllWhite(before) && AllKey(key) && AllWhite(after)
    requires s[..e] == DoubleText(before, key, after)
    ensures DoubleMatch(s) == Some(Match(e, key))
  {
    var a := 2 + |before|;
    var b := a + |key|;
    var c := b + |after|;
    PartsOfPrefix(s, before, key, after, e);
    AllOf(s, 2, a, IsWhite);
    AllOf(s, a, b, IsKeyChar);
    AllOf(s, b, c, IsWhite);
    DoubleScans(s, a, b, c);
  }

  /** The double-brace scanner answers exactly the grammar's match, and there is at most one. */
  lemma DoubleMatchesGrammar(s: string, e: nat, key: string)
    requires e <= |s|
    ensures DoubleMatch(s) == Some(Match(e, key)) <==> IsDouble(s[..e], key)
  {
    if DoubleMatch(s) == Some(Match(e, key)) {
      DoubleIsSound(s);
    }
    if IsDouble(s[..e], key) {
      var before, after :| AllWhite(before) && AllWhite(after) && s[..e] == DoubleText(before, key, after);
      DoubleIsComplete(s, before, key, after, e);
    }
  }

  lemma SingleMatchesGrammar(s: string, e: nat, key: string)
    requires e <= |s|
    ensures SingleMatch(s) == Some(Match(e, key)) <==> IsSingle(s[..e], key)
  {
    if SingleMatch(s) == Some(Match(e, key)) {
      assert s[..e] == "{" + key + "}";
    }
    if IsSingle(s[..e], key) {
      var b := 1 + |key|;
      var t := s[..e];
      assert t[1..b] == key && t[0] == '{' && t[b] == '}';
      assert s[1..b] == t[1..b];
      forall k | 1 <= k < b ensures IsWord(s[k]) {
        assert s[k] == key[k - 1];
      }
      SkipIs(s, 1, IsWord, b);
    }
  }

  /** `s[..e]` is a match of the pattern: a double-brace one, or a single-brace one where no double-brace one starts. */
  ghost predicate Matches(s: string, e: nat, key: string)
    requires e <= |s|
  {
    || IsDouble(s[..e], key)
    || (IsSingle(s[..e], key) && forall e2: nat, key2 :: e2 <= |s| ==> !IsDouble(s[..e2], key2))
  }

  lemma FirstMatchIs(s: string, e: nat, key: string)
    requires e <= |s|
    ensures FirstMatch(s) == Some(Match(e, key)) <==> Matches(s, e, key)
  {
    DoubleMatchesGrammar(s, e, key);
    SingleMatchesGrammar(s, e, key);
    if DoubleMatch(s).Some? {
      DoubleIsSound(s);
    }
    forall e2: nat, key2 | e2 <= |s| && IsDouble(s[..e2], key2) ensures DoubleMatch(s).Some? {
      DoubleMatchesGrammar(s, e2, key2);
    }
  }

  ghost predicate NoMatch(s: string) {
    forall e: nat, key :: e <= |s| ==> !Matches(s, e, key)
  }

  lemma FirstMatchIsNone(s: string)
    ensures FirstMatch(s).None? <==> NoMatch(s)
  {
    if FirstMatch(s).Some? {
      var m := FirstMatch(s).value;
      FirstMatchIs(s, m.size, m.key);
    } else {
      forall e: nat, key | e <= |s| ensures !Matches(s, e, key) {
        FirstMatchIs(s, e, key);
      }
    }
  }

  // ----- Pieces -----

  /** A literal character, or a matched placeholder. */
  datatype Piece = Literal(c: char) | Slot(text: string, key: string)

  function PieceText(p: Piece): string {
    match p
    case Literal(c) => [c]
    case Slot(text, _) => text
  }

  function Rendered(p: Piece, vars: Vars): string {
    match p
    case Literal(c) => [c]
    case Slot(text, key) => Value(vars, text, key)
  }

  function Concat(pieces: seq<Piece>): string {
    if pieces == [] then "" else PieceText(pieces[0]) + Concat(pieces[1..])
  }

  function RenderedAll(pieces: seq<Piece>, vars: Vars): string {
    if pieces == [] then "" else Rendered(pieces[0], vars) + RenderedAll(pieces[1..], vars)
  }

  /** The pieces spell out `s`; slots are matches and no match starts at a literal. */
  ghost predicate Leftmost(s: string, pieces: seq<Piece>)
    decreases |pieces|
  {
    if pieces == [] then s == ""
    else FitsFirst(s, pieces[0]) && Leftmost(s[|PieceText(pieces[0])|..], pieces[1..])
  }

  ghost predicate FitsFirst(s: string, p: Piece) {
    match p
    case Literal(c) => s != "" && s[0] == c && NoMatch(s)
    case Slot(text, key) => text <= s && Matches(s, |text|, key)
  }

  function FirstPiece(s: string): (p: Piece)
    requires s != ""
    ensures 0 < |PieceText(p)| && PieceText(p) <= s
  {
    var m := FirstMatch(s);
    if m.None? then Literal(s[0]) else Slot(s[..m.value.size], m.value.key)
  }

  function Rest(s: string): string
    requires s != ""
  {
    s[|PieceText(FirstPiece(s))|..]
  }

  function Pieces(s: string): seq<Piece>
    decreases |s|
  {
    if s == "" then [] else [FirstPiece(s)] + Pieces(Rest(s))
  }

  lemma RenderStep(s: string, vars: Vars)
    requires s != ""
    ensures RenderTemplate(s, vars) == Rendered(FirstPiece(s), vars) + RenderTemplate(Rest(s), vars)
  {
  }

  lemma FirstPieceIs(s: string, p: Piece)
    requires s != ""
    ensures FitsFirst(s, p) <==> p == FirstPiece(s)
  {
    FirstMatchIsNone(s);
    if FirstMatch(s).Some? {
      FirstMatchIs(s, FirstMatch(s).value.size, FirstMatch(s).value.key);
    }
    if p.Slot? && p.text <= s {
      FirstMatchIs(s, |p.text|, p.key);
    }
  }

  lemma EmptyFitsNothing(p: Piece)
    ensures !FitsFirst("", p)
  {
  }

  /** The body is partitioned into literals and leftmost, double-brace-first matches in exactly one way. */
  lemma {:induction false} PartitionIsUnique(s: string, pieces: seq<Piece>)
    ensures Leftmost(s, pieces) <==> pieces == Pieces(s)
    decreases |s|
  {
    if s == "" {
      if pieces != [] {
        EmptyFitsNothing(pieces[0]);
      }
    } else {
      if pieces != [] {
        FirstPieceIs(s, pieces[0]);
        PartitionIsUnique(Rest(s), pieces[1..]);
        assert pieces == [pieces[0]] + pieces[1..];
      }
    }
  }

  lemma {:induction false} PiecesSpellBody(s: string, pieces: seq<Piece>)
    requires Leftmost(s, pieces)
    ensures Concat(pieces) == s
    decreases |pieces|
  {
    if pieces != [] {
      var n := |PieceText(pieces[0])|;
      PiecesSpellBody(s[n..], pieces[1..]);
      assert s == s[..n] + s[n..];
      assert s[..n] == PieceText(pieces[0]);
    }
  }

  lemma {:induction false} RenderIsPiecewise(s: string, vars: Vars)
    ensures RenderTemplate(s, vars) == RenderedAll(Pieces(s), vars)
    decreases |s|
  {
    if s != "" {
      RenderStep(s, vars);
      RenderIsPiecewise(Rest(s), vars);
    }
  }

  /**
   The result is the pieces of the one leftmost partition of the body, which spell it out, with each match
   replaced once: substituted values are not scanned again.
   */
  lemma RenderReplacesOnce(body: string, vars: Vars, pieces: seq<Piece>)
    ensures Leftmost(body, Pieces(body))
    ensures Leftmost(body, pieces) ==> Concat(pieces) == body && RenderTemplate(body, vars) == RenderedAll(pieces, vars)
  {
    PartitionIsUnique(body, Pieces(body));
    PartitionIsUnique(body, pieces);
    if Leftmost(body, pieces) {
      PiecesSpellBody(body, pieces);
    }
    RenderIsPiecewise(body, vars);
  }

  lemma {:induction false} UnboundIsIdentity(pieces: seq<Piece>, vars: Vars)
    requires forall i :: 0 <= i < |pieces| && pieces[i].Slot? ==> !Bound(vars, pieces[i].key)
    ensures RenderedAll(pieces, vars) == Concat(pieces)
  {
    if pieces != [] {
      UnboundIsIdentity(pieces[1..], vars);
    }
  }

  /** With no key of the body bound, the body comes back unchanged. */
  lemma MissingVariablesStayVisible(body: string, vars: Vars)
    requires forall i :: 0 <= i < |Pieces(body)| && Pieces(body)[i].Slot? ==> !Bound(vars, Pieces(body)[i].key)
    ensures RenderTemplate(body, vars) == body
  {
    RenderReplacesOnce(body, vars, Pieces(body));
    UnboundIsIdentity(Pieces(body), vars);
  }

  lemma WholeMatchRenders(t: string, key: string, vars: Vars)
    requires FirstMatch(t) == Some(Match(|t|, key))
    ensures RenderTemplate(t, vars) == Value(vars, t, key)
  {
    assert t[..|t|] == t && t[|t|..] == "";
  }

  /** A placeholder of either form whose key is bound renders as exactly the bound value. */
  lemma BoundPlaceholderIsReplaced(t: string, key: string, vars: Vars)
    requires (IsDouble(t, key) || IsSingle(t, key)) && Bound(vars, key)
    ensures RenderTemplate(t, vars) == vars[key].value
  {
    assert t[..|t|] == t;
    if IsDouble(t, key) {
      DoubleMatchesGrammar(t, |t|, key);
    } else {
      SingleMatchesGrammar(t, |t|, key);
      assert t[1] == key[0];
      assert !TwoAt(t, 0, '{');
    }
    WholeMatchRenders(t, key, vars);
  }

  // ----- Concatenation -----

  /** A character some match can contain. */
  predicate MatchChar(c: char) {
    IsKeyChar(c) || IsWhite(c) || c == '{' || c == '}'
  }

  lemma DoubleIsMatchChars(t: string, key: string)
    requires IsDouble(t, key)
    ensures t != "" && forall k :: 0 <= k < |t| ==> MatchChar(t[k])
  {
    var before, after :| AllWhite(before) && AllWhite(after) && t == DoubleText(before, key, after);
    PartsOfDouble(before, key, after);
    var a := 2 + |before|;
    var b := a + |key|;
    var c := b + |after|;
    forall k | 0 <= k < |t| ensures MatchChar(t[k]) {
      if 2 <= k < a {
        assert t[k] == before[k - 2];
      } else if a <= k < b {
        assert t[k] == key[k - a];
      } else if b <= k < c {
        assert t[k] == after[k - b];
      }
    }
  }

  lemma SingleIsMatchChars(t: string, key: string)
    requires IsSingle(t, key)
    ensures t != "" && forall k :: 0 <= k < |t| ==> MatchChar(t[k])
  {
    forall k | 0 <= k < |t| ensures MatchChar(t[k]) {
      if 1 <= k < |key| + 1 {
        assert t[k] == key[k - 1];
      }
    }
  }

  lemma EndsBeforeBarrier(a: string, b: string, e: nat)
    requires a != "" && !MatchChar(a[|a| - 1]) && e <= |a + b|
    requires var t := (a + b)[..e]; forall k :: 0 <= k < |t| ==> MatchChar(t[k])
    ensures e < |a| && (a + b)[..e] == a[..e]
  {
    var t := (a + b)[..e];
    assert forall k :: 0 <= k < e && k < |a| ==> t[k] == a[k];
  }

  lemma DoubleStopsAtBarrier(a: string, b: string)
    requires a != "" && !MatchChar(a[|a| - 1])
    ensures DoubleMatch(a + b) == DoubleMatch(a)
  {
    if DoubleMatch(a + b).Some? {
      var m := DoubleMatch(a + b).value;
      DoubleIsSound(a + b);
      DoubleIsMatchChars((a + b)[..m.size], m.key);
      EndsBeforeBarrier(a, b, m.size);
      DoubleMatchesGrammar(a, m.size, m.key);
    } else if DoubleMatch(a).Some? {
      var m := DoubleMatch(a).value;
      DoubleIsSound(a);
      assert (a + b)[..m.size] == a[..m.size];
      DoubleMatchesGrammar(a + b, m.size, m.key);
    }
  }

  lemma SingleStopsAtBarrier(a: string, b: string)
    requires a != "" && !MatchChar(a[|a| - 1])
    ensures SingleMatch(a + b) == SingleMatch(a)
  {
    if SingleMatch(a + b).Some? {
      var m := SingleMatch(a + b).value;
      SingleMatchesGrammar(a + b, m.size, m.key);
      SingleIsMatchChars((a + b)[..m.size], m.key);
      EndsBeforeBarrier(a, b, m.size);
      SingleMatchesGrammar(a, m.size, m.key);
    } else if SingleMatch(a).Some? {
      var m := SingleMatch(a).value;
      assert (a + b)[..m.size] == a[..m.size];
      SingleMatchesGrammar(a, m.size, m.key);
      SingleMatchesGrammar(a + b, m.size, m.key);
    }
  }

  lemma FitStops(a: string, b: string, p: Piece)
    requires a != "" && !MatchChar(a[|a| - 1]) && FitsFirst(a, p)
    ensures FitsFirst(a + b, p)
  {
    DoubleStopsAtBarrier(a, b);
    SingleStopsAtBarrier(a, b);
    assert FirstMatch(a + b) == FirstMatch(a);
    match p {
      case Literal(_) =>
        FirstMatchIsNone(a);
        FirstMatchIsNone(a + b);
      case Slot(text, key) =>
        FirstMatchIs(a, |text|, key);
        FirstMatchIs(a + b, |text|, key);
    }
  }

  /** The piece and the rest of a left part with a barrier, in front of `b`. */
  lemma CutsAlike(a: string, b: string, p: Piece)
    requires a != "" && !MatchChar(a[|a| - 1]) && FitsFirst(a, p)
    ensures var n := |PieceText(p)|;
      && n <= |a| && FitsFirst(a + b, p) && (a + b)[n..] == a[n..] + b
      && (a[n..] == "" || !MatchChar(a[n..][|a[n..]| - 1]))
  {
    FitFits(a, p);
    FitStops(a, b, p);
  }

  lemma FirstThenRest(pa: seq<Piece>, pb: seq<Piece>)
    requires pa != []
    ensures pa + pb == [pa[0]] + (pa[1..] + pb)
  {
  }

  lemma LeftmostCons(s: string, p: Piece, rest: seq<Piece>)
    requires FitsFirst(s, p) && |PieceText(p)| <= |s| && Leftmost(s[|PieceText(p)|..], rest)
    ensures Leftmost(s, [p] + rest)
  {
    assert ([p] + rest)[1..] == rest;
  }

  lemma {:induction false} LeftmostAppends(a: string, pa: seq<Piece>, b: string, pb: seq<Piece>)
    requires a == "" || !MatchChar(a[|a| - 1])
    requires Leftmost(a, pa) && Leftmost(b, pb)
    ensures Leftmost(a + b, pa + pb)
    decreases |pa|
  {
    if pa == [] {
      assert a + b == b && pa + pb == pb;
    } else {
      var p := pa[0];
      var n := |PieceText(p)|;
      FitFits(a, p);
      CutsAlike(a, b, p);
      LeftmostAppends(a[n..], pa[1..], b, pb);
      LeftmostCons(a + b, p, pa[1..] + pb);
      FirstThenRest(pa, pb);
    }
  }

  lemma FitFits(s: string, p: Piece)
    requires FitsFirst(s, p)
    ensures s != "" && |PieceText(p)| <= |s|
  {
    EmptyFitsNothing(p);
  }

  lemma {:induction false} RenderedAppends(pa: seq<Piece>, pb: seq<Piece>, vars: Vars)
    ensures RenderedAll(pa + pb, vars) == RenderedAll(pa, vars) + RenderedAll(pb, vars)
  {
    if pa == [] {
      assert pa + pb == pb;
    } else {
      assert (pa + pb)[1..] == pa[1..] + pb;
      RenderedAppends(pa[1..], pb, vars);
    }
  }

  /** Rendering distributes over concatenation when the left part ends in a character no match can contain. */
  lemma RenderDistributes(a: string, b: string, vars: Vars)
    requires a == "" || !MatchChar(a[|a| - 1])
    ensures RenderTemplate(a + b, vars) == RenderTemplate(a, vars) + RenderTemplate(b, vars)
  {
    var pa, pb := Pieces(a), Pieces(b);
    RenderReplacesOnce(a, vars, pa);
    RenderReplacesOnce(b, vars, pb);
    LeftmostAppends(a, pa, b, pb);
    RenderReplacesOnce(a + b, vars, pa + pb);
    RenderedAppends(pa, pb, vars);
  }
}

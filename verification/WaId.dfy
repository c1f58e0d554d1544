/**
 Engine-neutral WhatsApp identity (src/engine/identity/wa-id.ts and wa-id.value.ts): the JID parser,
 the reduction to the neutral dialect, and the typed value object.
 */
module WaIdentity {
  import opened Support
  import opened Text

  datatype Kind = User | Group | Lid | StatusKind | Newsletter | Broadcast | Unknown

  datatype Parsed = Parsed(kind: Kind, userPart: string, device: Option<string>, raw: string)

  /** Maps a lid JID to a phone, when the engine knows one. */
  type Resolver = string -> Option<string>

  function UserPart(jid: string): string {
    Head(Head(jid, '@'), ':')
  }

  function KindOf(domain: string): Kind {
    if domain == "c.us" || domain == "s.whatsapp.net" then User
    else if domain == "g.us" then Group
    else if domain == "lid" then Lid
    else if domain == "newsletter" then Newsletter
    else if domain == "broadcast" then Broadcast
    else Unknown
  }

  /** split(':')[1]. */
  function SecondPart(local: string): Option<string> {
    var h := Head(local, ':');
    if |h| == |local| then None else Some(Head(local[|h| + 1..], ':'))
  }

  function ParseWaId(jid: string): Parsed {
    ParseClean(Lower(Trim(jid)), jid)
  }

  const StatusJid := "status@broadcast"

  function ParseClean(lower: string, jid: string): Parsed {
    if lower == StatusJid then Parsed(StatusKind, "status", None, jid)
    else
      match LastIndex(lower, '@')
      case None => Parsed(Unknown, lower, None, jid)
      case Some(at) => Parsed(KindOf(lower[at + 1..]), Head(lower[..at], ':'), SecondPart(lower[..at]), jid)
  }

  /** The neutral domain of each kind; a user also answers to "s.whatsapp.net". */
  function DomainOf(kind: Kind): string {
    match kind
    case User => "c.us"
    case Group => "g.us"
    case Lid => "lid"
    case StatusKind => "broadcast"
    case Newsletter => "newsletter"
    case Broadcast => "broadcast"
    case Unknown => ""
  }

  function Address(userPart: string, domain: string): string {
    userPart + "@" + domain
  }

  function ToNeutralJid(jid: string, resolve: Resolver): string {
    if jid == "" then jid
    else
      var parsed := ParseWaId(jid);
      match parsed.kind
      case User => Address(parsed.userPart, DomainOf(User))
      case Group => Address(parsed.userPart, DomainOf(Group))
      case Lid =>
        var phone := resolve(jid);
        if Truthy(phone) then Address(phone.value, DomainOf(User)) else Address(parsed.userPart, DomainOf(Lid))
      case StatusKind => StatusJid
      case Newsletter => Address(parsed.userPart, DomainOf(Newsletter))
      case Broadcast => Address(parsed.userPart, DomainOf(Broadcast))
      case Unknown => jid
  }

  const EngineDomain := "s.whatsapp.net"

  function ToEngineJid(jid: string): string {
    var parsed := ParseWaId(jid);
    if parsed.kind == User then Address(parsed.userPart, EngineDomain) else jid
  }

  // ----- Parsing what the functions build -----

  /** A user part as the parser produces it. */
  predicate Plain(u: string) {
    Lower(u) == u && ':' !in u && NoLeadingWhite(u)
  }

  /** A domain that lower casing and trimming keep and that no separator cuts. */
  predicate Ordinary(d: string) {
    d != "" && !IsWhite(d[|d| - 1]) && Lower(d) == d && '@' !in d
  }

  predicate Domain(d: string) {
    d == EngineDomain || exists kind :: kind != Unknown && d == DomainOf(kind)
  }

  predicate DomainChar(c: char) {
    'a' <= c <= 'z' || c == '.'
  }

  lemma DomainCharIsOrdinary(c: char)
    requires DomainChar(c)
    ensures LowerChar(c) == c && c != '@' && c != ':' && !IsWhite(c)
  {
  }

  lemma DomainChars(d: string)
    requires Domain(d)
    ensures d != "" && forall i :: 0 <= i < |d| ==> DomainChar(d[i])
  {
  }

  lemma OrdinaryText(d: string)
    requires d != "" && forall i :: 0 <= i < |d| ==> DomainChar(d[i])
    ensures Ordinary(d) && ':' !in d
  {
    forall i | 0 <= i < |d| ensures LowerChar(d[i]) == d[i] && d[i] != '@' && d[i] != ':' && !IsWhite(d[i]) {
      DomainCharIsOrdinary(d[i]);
    }
  }

  lemma BuiltIsClean(u: string, d: string)
    requires Ordinary(d) && Lower(u) == u && NoLeadingWhite(u)
    ensures Lower(Trim(Address(u, d))) == Address(u, d)
  {
    var j := Address(u, d);
    assert j[|j| - 1] == d[|d| - 1];
    assert j[0] == if u == "" then '@' else u[0];
    TrimKeeps(j);
    forall i | 0 <= i < |j| ensures LowerChar(j[i]) == j[i] {
      if i < |u| {
        assert j[i] == u[i] == Lower(u)[i];
      } else if i > |u| {
        assert j[i] == d[i - |u| - 1] == Lower(d)[i - |u| - 1];
      }
    }
  }

  lemma LastAtIs(u: string, d: string)
    requires '@' !in d
    ensures var j := Address(u, d); LastIndex(j, '@') == Some(|u|) && j[..|u|] == u && j[|u| + 1..] == d
  {
    var j := Address(u, d);
    assert j[|u| + 1..] == d;
    LastIndexIs(j, '@', |u|);
  }

  lemma StatusText(u: string, d: string)
    requires '@' !in d
    ensures Address(u, d) == StatusJid <==> u == "status" && d == "broadcast"
  {
    var j := Address(u, d);
    if j == StatusJid {
      assert j[|u|] == '@' && forall i :: |u| < i < |j| ==> j[i] == d[i - |u| - 1];
      assert j[6] == '@' && forall i :: 7 <= i < 16 ==> j[i] != '@';
      assert |u| == 6;
      assert u == j[..6];
      assert d == j[7..];
    }
  }

  lemma CleanParts(u: string, d: string, raw: string)
    requires '@' !in d && ':' !in u && Address(u, d) != StatusJid
    ensures ParseClean(Address(u, d), raw) == Parsed(KindOf(d), u, None, raw)
  {
    LastAtIs(u, d);
    HeadIs(u, ':', |u|);
  }

  /** Parsing an address gives the kind of its domain and its plain user part back. */
  lemma ParseBuilt(u: string, d: string)
    requires Ordinary(d) && Plain(u)
    ensures var p := ParseWaId(Address(u, d));
      && p.kind == (if u == "status" && d == "broadcast" then StatusKind else KindOf(d))
      && p.userPart == u && p.device.None?
  {
    var j := Address(u, d);
    BuiltIsClean(u, d);
    StatusText(u, d);
    if j != StatusJid {
      CleanParts(u, d, j);
    }
  }

  lemma WithDevice(u: string, device: string)
    requires Plain(u) && Lower(device) == device
    ensures Lower(u + ":" + device) == u + ":" + device && NoLeadingWhite(u + ":" + device)
    ensures Head(u + ":" + device, ':') == u && SecondPart(u + ":" + device) == Some(Head(device, ':'))
  {
    var l := u + ":" + device;
    assert l[..|u|] == u && l[|u| + 1..] == device;
    HeadIs(l, ':', |u|);
    LowerOfAppend(u, ":");
    LowerOfAppend(u + ":", device);
    assert Lower(":") == ":" && !IsWhite(':');
  }

  lemma CleanDevice(u: string, device: string, d: string, raw: string)
    requires Plain(u) && Lower(device) == device && '@' !in d && d != "broadcast"
    ensures ParseClean(Address(u + ":" + device, d), raw) == Parsed(KindOf(d), u, Some(Head(device, ':')), raw)
  {
    WithDevice(u, device);
    LastAtIs(u + ":" + device, d);
    StatusText(u + ":" + device, d);
  }

  /** `<u>:<device>@<domain>` parses to the kind of the domain, the user part without the device, and the device. */
  lemma ParseWithDevice(u: string, device: string, d: string)
    requires Ordinary(d) && Plain(u) && Lower(device) == device && ':' !in device && d != "broadcast"
    ensures var jid := Address(u + ":" + device, d); ParseWaId(jid) == Parsed(KindOf(d), u, Some(device), jid)
  {
    var jid := Address(u + ":" + device, d);
    WithDevice(u, device);
    BuiltIsClean(u + ":" + device, d);
    CleanDevice(u, device, d, jid);
    HeadIs(device, ':', |device|);
    assert device[..|device|] == device;
  }

  /** The domains the parser knows, and what each names; any other is unknown. */
  lemma KnownDomains(d: string)
    ensures KindOf("c.us") == User && KindOf("s.whatsapp.net") == User && KindOf("g.us") == Group
    ensures KindOf("lid") == Lid && KindOf("newsletter") == Newsletter && KindOf("broadcast") == Broadcast
    ensures KindOf(d) == Unknown <==> d !in ["c.us", "s.whatsapp.net", "g.us", "lid", "newsletter", "broadcast"]
  {
  }

  /** An id of unknown kind passes through both dialects unchanged; only user ids have an engine form. */
  lemma OthersPassThrough(jid: string, resolve: Resolver)
    ensures ParseWaId(jid).kind == Unknown ==> ToNeutralJid(jid, resolve) == jid
    ensures ParseWaId(jid).kind != User ==> ToEngineJid(jid) == jid
    ensures '@' !in Lower(Trim(jid)) ==> ParseWaId(jid).kind == Unknown
  {
  }

  lemma DomainsAreOrdinary(kind: Kind)
    requires kind != Unknown
    ensures Ordinary(DomainOf(kind))
    ensures KindOf(DomainOf(kind)) == if kind == StatusKind then Broadcast else kind
  {
    DomainChars(DomainOf(kind));
    OrdinaryText(DomainOf(kind));
  }

  lemma EngineDomainIsOrdinary()
    ensures Ordinary(EngineDomain) && KindOf(EngineDomain) == User
  {
    DomainChars(EngineDomain);
    OrdinaryText(EngineDomain);
  }

  lemma DomainTail(u: string, d: string) returns (tail: string)
    requires d != "" && !IsWhite(d[|d| - 1])
    ensures tail != "" && !IsWhite(tail[0]) && !IsWhite(tail[|tail| - 1])
    ensures Address(u, d) == u + tail && Address(TrimLeft(u), d) == TrimLeft(u) + tail
  {
    tail := "@" + d;
  }

  lemma AddressIsTrimmed(u: string, d: string)
    requires d != "" && !IsWhite(d[|d| - 1])
    ensures Trim(Address(u, d)) == Address(TrimLeft(u), d)
  {
    var tail := DomainTail(u, d);
    TrimOfAppend(u, tail);
  }

  lemma AddressIsLowered(u: string, d: string)
    requires Lower(d) == d
    ensures Lower(Address(u, d)) == Address(Lower(u), d)
  {
    LowerOfAppend(u, "@");
    LowerOfAppend(u + "@", d);
    assert Lower("@") == "@";
  }

  /** A leading run of spaces and the case of the user part do not change the kind. */
  lemma KindBuilt(u: string, d: string)
    requires Ordinary(d) && d != "broadcast"
    ensures ParseWaId(Address(u, d)).kind == KindOf(d)
  {
    var v := Lower(TrimLeft(u));
    AddressIsTrimmed(u, d);
    AddressIsLowered(TrimLeft(u), d);
    StatusText(v, d);
    LastAtIs(v, d);
  }

  /** What the parser cuts up: lower case, no leading space. */
  predicate Clean(l: string) {
    Lower(l) == l && NoLeadingWhite(l)
  }

  lemma TrimmedIsClean(jid: string)
    ensures Clean(Lower(Trim(jid)))
  {
    var t := Trim(jid);
    LowerIsIdempotent(t);
    if t != "" {
      assert t[0] == TrimLeft(jid)[0];
    }
  }

  lemma HeadIsPlain(l: string, n: nat)
    requires Clean(l) && n <= |l|
    ensures Plain(Head(l[..n], ':'))
  {
    var h := Head(l[..n], ':');
    assert h == l[..|h|];
    LowerOfSlice(l, |h|);
  }

  lemma UserPartIsPlain(jid: string)
    requires ParseWaId(jid).kind != Unknown
    ensures Plain(ParseWaId(jid).userPart)
  {
    var l := Lower(Trim(jid));
    if l == StatusJid {
      assert Lower("status") == "status" && !IsWhite('s');
    } else {
      TrimmedIsClean(jid);
      HeadIsPlain(l, LastIndex(l, '@').value);
    }
  }

  lemma EmptyIsUnknown()
    ensures ParseWaId("").kind == Unknown
  {
    assert Trim("") == "";
  }

  // ----- The neutral dialect -----

  /** A phone the resolver gives for `jid` can stand as a user part. */
  predicate PhoneOk(jid: string, resolve: Resolver) {
    ParseWaId(jid).kind == Lid && Truthy(resolve(jid)) ==> Plain(resolve(jid).value)
  }

  /** Who the result names: the resolved phone's user, else the same kind and user part. */
  function NeutralKind(jid: string, resolve: Resolver): Kind {
    var k := ParseWaId(jid).kind;
    if k == Lid && Truthy(resolve(jid)) then User else k
  }

  function NeutralPart(jid: string, resolve: Resolver): string {
    var p := ParseWaId(jid);
    if p.kind == Lid && Truthy(resolve(jid)) then resolve(jid).value else p.userPart
  }

  /** On a recognised id the result is the address of that kind and user part. */
  lemma NeutralForm(jid: string, resolve: Resolver)
    requires ParseWaId(jid).kind != Unknown
    ensures ToNeutralJid(jid, resolve) == Address(NeutralPart(jid, resolve), DomainOf(NeutralKind(jid, resolve)))
  {
    KnownIsNotEmpty(jid);
    StatusPart(jid);
    StatusAddress();
  }

  lemma StatusAddress()
    ensures Address("status", DomainOf(StatusKind)) == StatusJid
  {
    StatusText("status", "broadcast");
  }

  lemma NeutralPartIsPlain(jid: string, resolve: Resolver)
    requires ParseWaId(jid).kind != Unknown && PhoneOk(jid, resolve)
    ensures Plain(NeutralPart(jid, resolve))
  {
    UserPartIsPlain(jid);
  }

  lemma KnownIsNotEmpty(jid: string)
    requires ParseWaId(jid).kind != Unknown
    ensures jid != ""
  {
    EmptyIsUnknown();
  }

  /** Read back, the result gives that kind and user part; only "status:<device>@broadcast" becomes the status id. */
  lemma NeutralReadsBack(jid: string, resolve: Resolver)
    requires ParseWaId(jid).kind != Unknown && PhoneOk(jid, resolve)
    ensures var p := ParseWaId(ToNeutralJid(jid, resolve));
      && p.userPart == NeutralPart(jid, resolve) && p.device.None?
      && p.kind
         == if ParseWaId(jid).kind == Broadcast && p.userPart == "status" then StatusKind else NeutralKind(jid, resolve)
  {
    var k := NeutralKind(jid, resolve);
    NeutralForm(jid, resolve);
    NeutralPartIsPlain(jid, resolve);
    DomainsAreOrdinary(k);
    ParseBuilt(NeutralPart(jid, resolve), DomainOf(k));
    StatusPart(jid);
    OnlyBroadcast(k);
  }

  lemma KindIsNotStatus(domain: string)
    ensures KindOf(domain) != StatusKind
  {
  }

  lemma StatusPartOf(l: string, jid: string)
    ensures ParseClean(l, jid).kind == StatusKind ==> ParseClean(l, jid).userPart == "status"
  {
    var at := LastIndex(l, '@');
    if at.Some? {
      KindIsNotStatus(l[at.value + 1..]);
    }
  }

  lemma StatusPart(jid: string)
    ensures ParseWaId(jid).kind == StatusKind ==> ParseWaId(jid).userPart == "status"
  {
    StatusPartOf(Lower(Trim(jid)), jid);
  }

  lemma OnlyBroadcast(kind: Kind)
    ensures DomainOf(kind) == "broadcast" <==> kind == StatusKind || kind == Broadcast
  {
  }

  lemma AddressesDiffer(u: string, d: string, v: string, e: string)
    requires Address(u, d) == Address(v, e) && '@' !in d && '@' !in e
    ensures u == v && d == e
  {
    LastAtIs(u, d);
    LastAtIs(v, e);
  }

  lemma NoColonInAddress(u: string, kind: Kind)
    requires Plain(u)
    ensures ':' !in Address(u, DomainOf(kind))
  {
    if kind != Unknown {
      DomainChars(DomainOf(kind));
      OrdinaryText(DomainOf(kind));
    }
  }

  /** The neutral form never carries a device suffix nor the engine's user domain. */
  lemma NeutralHasNoDevice(jid: string, resolve: Resolver)
    requires ParseWaId(jid).kind != Unknown && PhoneOk(jid, resolve)
    ensures ':' !in ToNeutralJid(jid, resolve)
    ensures forall u :: ToNeutralJid(jid, resolve) != Address(u, EngineDomain)
  {
    var u, k := NeutralPart(jid, resolve), NeutralKind(jid, resolve);
    NeutralForm(jid, resolve);
    NeutralPartIsPlain(jid, resolve);
    DomainsAreOrdinary(k);
    NoColonInAddress(u, k);
    EngineDomainIsOrdinary();
    forall v ensures Address(u, DomainOf(k)) != Address(v, EngineDomain) {
      if Address(u, DomainOf(k)) == Address(v, EngineDomain) {
        AddressesDiffer(u, DomainOf(k), v, EngineDomain);
      }
    }
  }

  /** `<p>@c.us` is a fixed point exactly when `p` is plain: what a learned phone has to be. */
  lemma UserIdIsFixed(p: string, resolve: Resolver)
    ensures var jid := Address(p, DomainOf(User)); ToNeutralJid(jid, resolve) == jid <==> Plain(p)
  {
    var d := DomainOf(User);
    var jid := Address(p, d);
    DomainsAreOrdinary(User);
    KindBuilt(p, d);
    UserPartIsPlain(jid);
    var q := ParseWaId(jid).userPart;
    assert ToNeutralJid(jid, resolve) == Address(q, d);
    if Address(q, d) == jid {
      AddressesDiffer(q, d, p, d);
    }
    if Plain(p) {
      ParseBuilt(p, d);
    }
  }

  lemma NeutralIsFixed(u: string, k: Kind, resolve: Resolver)
    requires Plain(u) && k != Unknown && (k == StatusKind ==> u == "status")
    requires k == Lid ==> !Truthy(resolve(Address(u, DomainOf(Lid))))
    ensures ToNeutralJid(Address(u, DomainOf(k)), resolve) == Address(u, DomainOf(k))
  {
    var j := Address(u, DomainOf(k));
    DomainsAreOrdinary(k);
    ParseBuilt(u, DomainOf(k));
    if u == "status" && DomainOf(k) == "broadcast" {
      StatusText(u, DomainOf(k));
    } else {
      assert ParseWaId(j).kind == k;
    }
  }

  /** A resolved lid has a plain phone, and an unresolved one stays unresolved once its device is stripped. */
  predicate SettledLid(jid: string, resolve: Resolver) {
    ParseWaId(jid).kind == Lid ==>
      if Truthy(resolve(jid)) then Plain(resolve(jid).value)
      else !Truthy(resolve(Address(ParseWaId(jid).userPart, DomainOf(Lid))))
  }

  /** Whatever the resolver, reducing twice is reducing once exactly on ids that are settled in this sense. */
  lemma IdempotentExactlyWhenSettled(jid: string, resolve: Resolver)
    ensures ToNeutralJid(ToNeutralJid(jid, resolve), resolve) == ToNeutralJid(jid, resolve)
      <==> SettledLid(jid, resolve)
  {
    var p := ParseWaId(jid);
    if p.kind == Lid && Truthy(resolve(jid)) {
      NeutralForm(jid, resolve);
      UserIdIsFixed(resolve(jid).value, resolve);
    } else if p.kind == Lid {
      NeutralForm(jid, resolve);
      UserPartIsPlain(jid);
      StrippedLid(p.userPart, resolve);
    } else if p.kind != Unknown {
      NeutralForm(jid, resolve);
      UserPartIsPlain(jid);
      StatusPart(jid);
      NeutralIsFixed(p.userPart, p.kind, resolve);
    }
  }

  lemma StrippedLid(u: string, resolve: Resolver)
    requires Plain(u)
    ensures var j := Address(u, DomainOf(Lid)); ToNeutralJid(j, resolve) == j <==> !Truthy(resolve(j))
  {
    var j := Address(u, DomainOf(Lid));
    if Truthy(resolve(j)) {
      DomainsAreOrdinary(Lid);
      DomainsAreOrdinary(User);
      ParseBuilt(u, DomainOf(Lid));
      if Address(resolve(j).value, DomainOf(User)) == j {
        AddressesDiffer(resolve(j).value, DomainOf(User), u, DomainOf(Lid));
      }
    } else {
      NeutralIsFixed(u, Lid, resolve);
    }
  }

  /** On plain user parts the neutral and the engine dialect undo each other. */
  lemma DialectsUndoEachOther(u: string, resolve: Resolver)
    requires Plain(u)
    ensures var neutral, engine := Address(u, DomainOf(User)), Address(u, EngineDomain);
      ToNeutralJid(engine, resolve) == neutral && ToEngineJid(neutral) == engine
  {
    EngineDomainIsOrdinary();
    DomainsAreOrdinary(User);
    ParseBuilt(u, EngineDomain);
    ParseBuilt(u, DomainOf(User));
  }

  // ----- The value object -----

  datatype WaId = WaId(kind: Kind, raw: string, phone: Option<string>, lid: Option<string>, groupId: Option<string>) {

    static function FromEngineJid(jid: string, resolve: Resolver): WaId {
      var parsed := ParseWaId(jid);
      match parsed.kind
      case User => WaId(User, jid, Some(parsed.userPart), None, None)
      case Group => WaId(Group, jid, None, None, Some(parsed.userPart))
      case Lid => WaId(Lid, jid, resolve(jid), Some(parsed.userPart), None)
      case _ => WaId(parsed.kind, jid, None, None, None)
    }

    function ToNeutral(): string {
      match kind
      case User => Address(Shown(phone), DomainOf(User))
      case Group => Address(Shown(groupId), DomainOf(Group))
      case Lid => if Truthy(phone) then Address(phone.value, DomainOf(User)) else Address(Shown(lid), DomainOf(Lid))
      case StatusKind => StatusJid
      case Newsletter => Address(UserPart(raw), DomainOf(Newsletter))
      case Broadcast => Address(UserPart(raw), DomainOf(Broadcast))
      case Unknown => raw
    }
  }

  /** A missing field in a template string. */
  function Shown(o: Option<string>): string {
    if o.Some? then o.value else "undefined"
  }

  /** The text before the domain: up to the last '@'. */
  function BeforeDomain(jid: string): string {
    match LastIndex(jid, '@')
    case None => jid
    case Some(at) => jid[..at]
  }

  /** Written as the parser would write it: no leading space, lower case, one '@' before the domain. */
  predicate WrittenNeutrally(jid: string) {
    NoLeadingWhite(jid) && Lower(UserPart(jid)) == UserPart(jid) && '@' !in Head(BeforeDomain(jid), ':')
  }

  lemma LowerKeepsLastAt(s: string)
    ensures LastIndex(Lower(s), '@') == LastIndex(s, '@')
    ensures '@' in s ==> BeforeDomain(Lower(s)) == Lower(BeforeDomain(s))
  {
    forall i | 0 <= i < |s| ensures Lower(s)[i] == '@' <==> s[i] == '@' {
      LowerCharKeepsSeparators(s[i]);
    }
    if '@' in s {
      var at := LastIndex(s, '@').value;
      NotIn(s, '@', at + 1, |s|);
      LastIndexIs(Lower(s), '@', at);
      LowerOfSlice(s, at);
    }
  }

  lemma TrimRightKeepsLastAt(s: string)
    ensures LastIndex(TrimRight(s), '@') == LastIndex(s, '@')
    ensures '@' in s ==> '@' in TrimRight(s) && BeforeDomain(TrimRight(s)) == BeforeDomain(s)
  {
    var t := TrimRight(s);
    assert !IsWhite('@');
    if '@' in s {
      var at := LastIndex(s, '@').value;
      assert t[at] == '@';
      NotIn(s, '@', at + 1, |s|);
      LastIndexIs(t, '@', at);
      assert t[..at] == s[..at];
    }
  }

  /** The parser cuts a JID without leading space where the raw text is cut. */
  lemma CleanBeforeDomain(jid: string)
    requires NoLeadingWhite(jid)
    ensures LastIndex(Lower(Trim(jid)), '@') == LastIndex(jid, '@')
    ensures '@' in jid ==> BeforeDomain(Lower(Trim(jid))) == Lower(BeforeDomain(jid))
  {
    assert TrimLeft(jid) == jid;
    TrimRightKeepsLastAt(jid);
    LowerKeepsLastAt(TrimRight(jid));
  }

  /** When the text before the first ':' of the local part holds no '@', userPart() returns it. */
  lemma FirstPart(jid: string)
    requires '@' in jid && '@' !in Head(BeforeDomain(jid), ':')
    ensures UserPart(jid) == Head(BeforeDomain(jid), ':')
  {
    var b := BeforeDomain(jid);
    var h := Head(b, ':');
    assert h == jid[..|h|];
    if |h| == |b| {
      HeadIs(jid, '@', |h|);
    } else {
      assert jid[|h|] == ':';
      HeadIs(jid, ':', |h|);
      HeadsCommute(jid, '@', ':');
      HeadIs(h, '@', |h|);
    }
  }

  lemma UserPartStartsAsWritten(jid: string)
    requires NoLeadingWhite(UserPart(jid))
    ensures NoLeadingWhite(jid)
  {
    assert !IsWhite('@') && !IsWhite(':');
  }

  lemma LowerKeepsAts(s: string)
    ensures '@' in Lower(s) <==> '@' in s
  {
    forall i | 0 <= i < |s| ensures Lower(s)[i] == '@' <==> s[i] == '@' {
      LowerCharKeepsSeparators(s[i]);
    }
    if '@' in s {
      var i :| 0 <= i < |s| && s[i] == '@';
      assert Lower(s)[i] == '@';
    }
  }

  predicate Channel(kind: Kind) {
    kind == Newsletter || kind == Broadcast
  }

  /** userPart() of the raw text and the parser's user part agree exactly on neutrally written ids. */
  lemma UserPartsAgree(jid: string)
    requires Channel(ParseWaId(jid).kind)
    ensures UserPart(jid) == ParseWaId(jid).userPart <==> WrittenNeutrally(jid)
  {
    var p := ParseWaId(jid).userPart;
    var h := Head(BeforeDomain(jid), ':');
    if NoLeadingWhite(jid) {
      CleanBeforeDomain(jid);
      LowerOfHead(BeforeDomain(jid));
      assert p == Lower(h);
      if WrittenNeutrally(jid) {
        FirstPart(jid);
      }
    }
    if UserPart(jid) == p {
      UserPartIsPlain(jid);
      UserPartStartsAsWritten(jid);
      LowerKeepsAts(h);
    }
  }

  lemma SameDomain(u: string, v: string, kind: Kind)
    requires kind != Unknown
    ensures Address(u, DomainOf(kind)) == Address(v, DomainOf(kind)) <==> u == v
  {
    DomainsAreOrdinary(kind);
    if Address(u, DomainOf(kind)) == Address(v, DomainOf(kind)) {
      AddressesDiffer(u, DomainOf(kind), v, DomainOf(kind));
    }
  }

  lemma SameOutsideChannels(jid: string, resolve: Resolver)
    requires !Channel(ParseWaId(jid).kind)
    ensures WaId.FromEngineJid(jid, resolve).ToNeutral() == ToNeutralJid(jid, resolve)
  {
    if ParseWaId(jid).kind != Unknown {
      KnownIsNotEmpty(jid);
    }
  }

  lemma ChannelText(jid: string, resolve: Resolver)
    requires Channel(ParseWaId(jid).kind)
    ensures ToNeutralJid(jid, resolve) == Address(ParseWaId(jid).userPart, DomainOf(ParseWaId(jid).kind))
  {
    KnownIsNotEmpty(jid);
  }

  lemma ChannelIdText(jid: string, resolve: Resolver)
    requires Channel(ParseWaId(jid).kind)
    ensures WaId.FromEngineJid(jid, resolve).ToNeutral() == Address(UserPart(jid), DomainOf(ParseWaId(jid).kind))
  {
  }

  /**
   The typed identity serialises to the adapters' string, except for channels and broadcast lists, where
   it does so exactly when the id is neutrally written: toNeutral re-reads the raw text there.
   */
  lemma ValueObjectAgrees(jid: string, resolve: Resolver)
    ensures WaId.FromEngineJid(jid, resolve).ToNeutral() == ToNeutralJid(jid, resolve)
      <==> (Channel(ParseWaId(jid).kind) ==> WrittenNeutrally(jid))
  {
    var p := ParseWaId(jid);
    if Channel(p.kind) {
      UserPartsAgree(jid);
      SameDomain(p.userPart, UserPart(jid), p.kind);
      ChannelText(jid, resolve);
      ChannelIdText(jid, resolve);
    } else {
      SameOutsideChannels(jid, resolve);
    }
  }

  /** In particular on every trimmed lower-case JID with one '@'. */
  lemma TrimmedLowerCaseAgrees(u: string, d: string, resolve: Resolver)
    requires '@' !in u && '@' !in d && Lower(u) == u && NoLeadingWhite(u)
    ensures var jid := Address(u, d);
      WaId.FromEngineJid(jid, resolve).ToNeutral() == ToNeutralJid(jid, resolve)
  {
    var jid := Address(u, d);
    LastAtIs(u, d);
    var h := Head(u, ':');
    FirstPart(jid);
    LowerOfSlice(u, |h|);
    assert !IsWhite('@');
    assert jid[0] == if u == "" then '@' else u[0];
    ValueObjectAgrees(jid, resolve);
  }

  lemma FirstIsUpper(d: string)
    requires '@' !in d
    ensures !WrittenNeutrally(Address("A", d))
  {
    var u := "A";
    LastAtIs(u, d);
    HeadIs(u, ':', 1);
    FirstPart(Address(u, d));
    assert Lower(u)[0] == 'a';
  }

  /** The two spellings differ on an upper-case channel id. */
  lemma UpperCaseChannelDiffers(resolve: Resolver)
    ensures var jid := Address("A", DomainOf(Newsletter));
      WaId.FromEngineJid(jid, resolve).ToNeutral() != ToNeutralJid(jid, resolve)
  {
    var d := DomainOf(Newsletter);
    var jid := Address("A", d);
    DomainsAreOrdinary(Newsletter);
    KindBuilt("A", d);
    FirstIsUpper(d);
    ValueObjectAgrees(jid, resolve);
  }
}

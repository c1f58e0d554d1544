/**
 The per-session contact snapshot (src/engine/adapters/baileys-session-store.ts) over the shared lid index:
 what a session learns, how it resolves a lid to a phone, and the neutral ids it emits.
 */
module SessionStore {
  import opened Support
  import opened Text
  import opened WaIdentity
  import opened LidIndex

  /** A stored contact, as far as identity goes. */
  datatype Contact = Contact(
    id: string, lid: Option<string>, jid: Option<string>, phoneNumber: Option<string>, name: Option<string>)

  /** A field of a partial record: absent, or written over the stored one. */
  datatype Field = Keep | Put(value: Option<string>)

  datatype Record = Record(id: Option<string>, lid: Field, jid: Field, phoneNumber: Field, name: Field)

  datatype Mapping = Mapping(lid: Option<string>, pn: Option<string>)

  datatype Local = Local(contacts: map<string, Contact>, lidToPn: map<string, string>)

  /** A session's own maps and the shared index, if it was given one. */
  datatype State = State(local: Local, index: Option<Index>)

  function Over(f: Field, existing: Option<string>): Option<string> {
    if f.Keep? then existing else f.value
  }

  /** `{ ...existing, ...r }`. */
  function Merged(contacts: map<string, Contact>, r: Record): Contact
    requires Truthy(r.id)
  {
    var id := r.id.value;
    var c := if id in contacts then contacts[id] else Contact(id, None, None, None, None);
    Contact(id, Over(r.lid, c.lid), Over(r.jid, c.jid), Over(r.phoneNumber, c.phoneNumber), Over(r.name, c.name))
  }

  /** Keeps a pair and writes it through. */
  function Learn(s: State, lid: string, pn: string): State {
    State(s.local.(lidToPn := s.local.lidToPn[lid := pn]),
          if s.index.None? then None else Some(Remember(s.index.value, UserPart(lid), Some(UserPart(pn)))))
  }

  function UpsertOne(s: State, r: Record): State {
    if !Truthy(r.id) then s
    else
      var c := Merged(s.local.contacts, r);
      var stored := s.(local := s.local.(contacts := s.local.contacts[r.id.value := c]));
      var phone := Or(c.phoneNumber, c.jid);
      if Truthy(c.lid) && Truthy(phone) then Learn(stored, c.lid.value, phone.value) else stored
  }

  function Upserted(s: State, records: seq<Record>): State {
    if records == [] then s
    else UpsertOne(Upserted(s, records[..|records| - 1]), records[|records| - 1])
  }

  function AddOne(s: State, m: Mapping): State {
    if Truthy(m.lid) && Truthy(m.pn) then Learn(s, m.lid.value, m.pn.value) else s
  }

  function Added(s: State, mappings: seq<Mapping>): State {
    if mappings == [] then s
    else AddOne(Added(s, mappings[..|mappings| - 1]), mappings[|mappings| - 1])
  }

  /** What the session itself holds for a lid: a learned pair, else a contact's phone number. */
  function OwnPhone(l: Local, lidJid: string, id: string): Option<string> {
    var pn := Or(Get(l.lidToPn, lidJid), Get(l.lidToPn, id));
    var c := Or(Get(l.contacts, lidJid), Get(l.contacts, id));
    if Truthy(pn) then pn
    else if c.Some? && Truthy(c.value.phoneNumber) then c.value.phoneNumber
    else None
  }

  function ResolvePhone(s: State, id: string): Option<string> {
    var parsed := ParseWaId(id);
    if parsed.kind == User then Some(parsed.userPart)
    else if parsed.kind == Lid then
      var own := OwnPhone(s.local, Address(parsed.userPart, DomainOf(Lid)), id);
      if own.Some? then Some(UserPart(own.value))
      else if s.index.None? then None
      else var c := Cached(s.index.value, parsed.userPart); if c.Some? then c.value else None
    else None
  }

  function Resolver(s: State): WaIdentity.Resolver {
    id => ResolvePhone(s, id)
  }

  function Neutral(s: State, jid: string): string {
    ToNeutralJid(jid, Resolver(s))
  }

  /** A user id is its own phone; an id that is neither user nor lid has none. */
  lemma UserIsItsOwnPhone(s: State, id: string)
    ensures ParseWaId(id).kind == User ==> ResolvePhone(s, id) == Some(ParseWaId(id).userPart)
    ensures ParseWaId(id).kind != User && ParseWaId(id).kind != Lid ==> ResolvePhone(s, id) == None
  {
  }

  // ----- Phones are digits -----

  predicate Digits(p: string) {
    p != "" && forall i :: 0 <= i < |p| ==> '0' <= p[i] <= '9'
  }

  /** A phone JID whose user part is a digit string. */
  predicate DigitPhone(pn: string) {
    Digits(UserPart(pn))
  }

  predicate DigitOption(o: Option<string>) {
    Truthy(o) ==> DigitPhone(o.value)
  }

  predicate DigitContact(c: Contact) {
    DigitOption(c.jid) && DigitOption(c.phoneNumber)
  }

  predicate DigitField(f: Field) {
    f.Put? ==> DigitOption(f.value)
  }

  predicate DigitRecord(r: Record) {
    DigitField(r.jid) && DigitField(r.phoneNumber)
  }

  ghost predicate DigitLocal(l: Local) {
    && (forall k :: k in l.lidToPn ==> DigitPhone(l.lidToPn[k]))
    && (forall k :: k in l.contacts ==> DigitContact(l.contacts[k]))
  }

  ghost predicate DigitIndex(ix: Index) {
    forall lid :: lid in ix.lidToPhone && Truthy(ix.lidToPhone[lid]) ==> Digits(ix.lidToPhone[lid].value)
  }

  ghost predicate DigitState(s: State) {
    DigitLocal(s.local) && (s.index.Some? ==> DigitIndex(s.index.value))
  }

  lemma DigitsArePlain(p: string)
    requires Digits(p)
    ensures Plain(p)
  {
  }

  lemma LearnKeepsDigits(s: State, lid: string, pn: string)
    requires DigitState(s) && DigitPhone(pn)
    ensures DigitState(Learn(s, lid, pn))
  {
  }

  lemma UpsertOneKeepsDigits(s: State, r: Record)
    requires DigitState(s) && DigitRecord(r)
    ensures DigitState(UpsertOne(s, r))
  {
    if Truthy(r.id) {
      var c := Merged(s.local.contacts, r);
      var stored := s.(local := s.local.(contacts := s.local.contacts[r.id.value := c]));
      assert DigitContact(c);
      assert DigitState(stored);
      var phone := Or(c.phoneNumber, c.jid);
      if Truthy(c.lid) && Truthy(phone) {
        LearnKeepsDigits(stored, c.lid.value, phone.value);
      }
    }
  }

  lemma {:induction false} UpsertKeepsDigits(s: State, records: seq<Record>)
    requires DigitState(s) && forall i :: 0 <= i < |records| ==> DigitRecord(records[i])
    ensures DigitState(Upserted(s, records))
  {
    if records != [] {
      UpsertKeepsDigits(s, records[..|records| - 1]);
      UpsertOneKeepsDigits(Upserted(s, records[..|records| - 1]), records[|records| - 1]);
    }
  }

  lemma {:induction false} AddKeepsDigits(s: State, mappings: seq<Mapping>)
    requires DigitState(s) && forall i :: 0 <= i < |mappings| ==> DigitOption(mappings[i].pn)
    ensures DigitState(Added(s, mappings))
  {
    if mappings != [] {
      var before, m := Added(s, mappings[..|mappings| - 1]), mappings[|mappings| - 1];
      AddKeepsDigits(s, mappings[..|mappings| - 1]);
      if Truthy(m.lid) && Truthy(m.pn) {
        LearnKeepsDigits(before, m.lid.value, m.pn.value);
      }
    }
  }

  lemma ResolvedIsDigits(s: State, jid: string)
    requires DigitState(s) && ParseWaId(jid).kind == Lid && Truthy(ResolvePhone(s, jid))
    ensures Digits(ResolvePhone(s, jid).value)
  {
  }

  lemma StrippedParse(jid: string)
    requires ParseWaId(jid).kind == Lid
    ensures var u := ParseWaId(jid).userPart; var p := ParseWaId(Address(u, DomainOf(Lid)));
      p.kind == Lid && p.userPart == u
  {
    UserPartIsPlain(jid);
    DomainsAreOrdinary(Lid);
    ParseBuilt(ParseWaId(jid).userPart, DomainOf(Lid));
  }

  lemma NoOwnPhone(l: Local, lidJid: string, id: string)
    requires OwnPhone(l, lidJid, id).None?
    requires DigitLocal(l)
    ensures OwnPhone(l, lidJid, lidJid).None?
  {
  }

  /** Stripping the device of an unresolved lid leaves it unresolved: the lookup strips it too. */
  lemma StrippedStaysUnresolved(s: State, jid: string)
    requires DigitState(s) && ParseWaId(jid).kind == Lid && !Truthy(ResolvePhone(s, jid))
    ensures !Truthy(ResolvePhone(s, Address(ParseWaId(jid).userPart, DomainOf(Lid))))
  {
    var lidJid := Address(ParseWaId(jid).userPart, DomainOf(Lid));
    StrippedParse(jid);
    OwnPhoneIsDigits(s.local, lidJid, jid);
    NoOwnPhone(s.local, lidJid, jid);
  }

  lemma OwnPhoneIsDigits(l: Local, lidJid: string, id: string)
    requires DigitLocal(l)
    ensures var own := OwnPhone(l, lidJid, id); own.Some? ==> DigitPhone(own.value)
  {
  }

  /** On digit phones the emitted id is neutral and reducing it again changes nothing. */
  lemma NeutralIdsAreStable(s: State, jid: string)
    requires DigitState(s)
    ensures Neutral(s, Neutral(s, jid)) == Neutral(s, jid)
    ensures ParseWaId(jid).kind != Unknown ==> ':' !in Neutral(s, jid)
    ensures ParseWaId(jid).kind != Unknown ==> forall u :: Neutral(s, jid) != Address(u, EngineDomain)
  {
    var resolve := Resolver(s);
    if ParseWaId(jid).kind == Lid {
      if Truthy(resolve(jid)) {
        ResolvedIsDigits(s, jid);
        DigitsArePlain(resolve(jid).value);
      } else {
        StrippedStaysUnresolved(s, jid);
      }
    }
    IdempotentExactlyWhenSettled(jid, resolve);
    if ParseWaId(jid).kind != Unknown {
      NeutralHasNoDevice(jid, resolve);
    }
  }

  // ----- What a session learns itself -----

  /** A session's own pair answers, before the contacts and the shared table, with or without a device. */
  lemma OwnPairResolves(s: State, u: string, pn: string, jid: string)
    requires ParseWaId(jid).kind == Lid && ParseWaId(jid).userPart == u && pn != "" && UserPart(pn) != ""
    ensures Neutral(Learn(s, Address(u, DomainOf(Lid)), pn), jid) == Address(UserPart(pn), DomainOf(User))
  {
    KnownIsNotEmpty(jid);
  }

  /** Without a pair a contact's phone number answers, under the bare lid first. */
  lemma ContactPhoneResolves(s: State, id: string)
    requires ParseWaId(id).kind == Lid
    requires var lidJid := Address(ParseWaId(id).userPart, DomainOf(Lid));
      && lidJid !in s.local.lidToPn && id !in s.local.lidToPn && lidJid in s.local.contacts
      && Truthy(s.local.contacts[lidJid].phoneNumber)
    ensures var lidJid := Address(ParseWaId(id).userPart, DomainOf(Lid));
      ResolvePhone(s, id) == Some(UserPart(s.local.contacts[lidJid].phoneNumber.value))
  {
  }

  /** With nothing of its own and no shared table, or no entry in it, a session has no answer. */
  lemma NothingKnown(s: State, id: string)
    requires ParseWaId(id).kind == Lid
    requires OwnPhone(s.local, Address(ParseWaId(id).userPart, DomainOf(Lid)), id).None?
    requires s.index.Some? ==> Cached(s.index.value, ParseWaId(id).userPart).None?
    ensures ResolvePhone(s, id) == None
  {
  }

  function LidUpdate(id: string, lid: string): Record {
    Record(Some(id), Put(Some(lid)), Keep, Keep, Keep)
  }

  function PhoneUpdate(id: string, pn: string): Record {
    Record(Some(id), Keep, Keep, Put(Some(pn)), Keep)
  }

  /** A lid and a phone number that arrive in separate updates of one contact make a pair, in either order. */
  lemma SeparateUpdatesTeach(s: State, id: string, lid: string, pn: string)
    requires id != "" && lid != "" && pn != ""
    ensures Get(Upserted(s, [LidUpdate(id, lid), PhoneUpdate(id, pn)]).local.lidToPn, lid) == Some(pn)
    ensures Get(Upserted(s, [PhoneUpdate(id, pn), LidUpdate(id, lid)]).local.lidToPn, lid) == Some(pn)
  {
    UpsertedTwo(s, LidUpdate(id, lid), PhoneUpdate(id, pn));
    UpsertedTwo(s, PhoneUpdate(id, pn), LidUpdate(id, lid));
  }

  lemma UpsertedTwo(s: State, a: Record, b: Record)
    ensures Upserted(s, [a, b]) == UpsertOne(UpsertOne(s, a), b)
  {
    assert [a, b][..1] == [a] && [a][..0] == [];
    assert Upserted(s, [a]) == UpsertOne(Upserted(s, []), a);
  }

  // ----- Several sessions over one index -----

  /** The live sessions by id, and the index they share. */
  datatype World = World(sessions: map<nat, Local>, index: Index)

  const NewSession := Local(map[], map[])

  datatype Event =
    | Reset(session: nat)
    | Upsert(session: nat, records: seq<Record>)
    | AddMappings(session: nat, mappings: seq<Mapping>)

  function LocalOf(w: World, session: nat): Local {
    if session in w.sessions then w.sessions[session] else NewSession
  }

  function StateOf(w: World, session: nat): State {
    State(LocalOf(w, session), Some(w.index))
  }

  function Acted(s: State, e: Event): State {
    match e
    case Reset(_) => s.(local := NewSession)
    case Upsert(_, records) => Upserted(s, records)
    case AddMappings(_, mappings) => Added(s, mappings)
  }

  lemma {:induction false} UpsertedKeepsIndex(s: State, records: seq<Record>)
    ensures Upserted(s, records).index.Some? <==> s.index.Some?
  {
    if records != [] {
      UpsertedKeepsIndex(s, records[..|records| - 1]);
    }
  }

  lemma {:induction false} AddedKeepsIndex(s: State, mappings: seq<Mapping>)
    ensures Added(s, mappings).index.Some? <==> s.index.Some?
  {
    if mappings != [] {
      AddedKeepsIndex(s, mappings[..|mappings| - 1]);
    }
  }

  function WorldNext(w: World, e: Event): World {
    var s := Acted(StateOf(w, e.session), e);
    World(w.sessions[e.session := s.local], if s.index.Some? then s.index.value else w.index)
  }

  ghost predicate Run(w: World, run: seq<Event>, v: World)
    decreases |run|
  {
    if run == [] then w == v else Run(WorldNext(w, run[0]), run[1..], v)
  }

  lemma RunStep(w: World, e: Event, run: seq<Event>, v: World)
    requires Run(WorldNext(w, e), run, v)
    ensures Run(w, [], w) && Run(w, [e] + run, v)
  {
    assert ([e] + run)[1..] == run;
  }

  predicate DigitEvent(e: Event) {
    match e
    case Reset(_) => true
    case Upsert(_, records) => forall i :: 0 <= i < |records| ==> DigitRecord(records[i])
    case AddMappings(_, mappings) => forall i :: 0 <= i < |mappings| ==> DigitOption(mappings[i].pn)
  }

  ghost predicate DigitWorld(w: World) {
    forall session: nat :: DigitState(StateOf(w, session))
  }

  /** A session that starts over forgets what it had; the shared index and the other sessions keep theirs. */
  lemma ResetForgets(w: World, session: nat, other: nat)
    ensures var v := WorldNext(w, Reset(session));
      && LocalOf(v, session) == NewSession && v.index == w.index
      && (other != session ==> LocalOf(v, other) == LocalOf(w, other))
  {
  }

  lemma WorldNextStates(w: World, e: Event)
    ensures StateOf(WorldNext(w, e), e.session) == Acted(StateOf(w, e.session), e)
    ensures forall session: nat :: session != e.session ==> LocalOf(WorldNext(w, e), session) == LocalOf(w, session)
  {
    if e.Upsert? {
      UpsertedKeepsIndex(StateOf(w, e.session), e.records);
    } else if e.AddMappings? {
      AddedKeepsIndex(StateOf(w, e.session), e.mappings);
    }
  }

  lemma WorldNextKeepsDigits(w: World, e: Event)
    requires DigitWorld(w) && DigitEvent(e)
    ensures DigitWorld(WorldNext(w, e))
  {
    var s := StateOf(w, e.session);
    assert DigitState(s);
    WorldNextStates(w, e);
    match e {
      case Reset(_) =>
      case Upsert(_, records) => UpsertKeepsDigits(s, records);
      case AddMappings(_, mappings) => AddKeepsDigits(s, mappings);
    }
    var v := WorldNext(w, e);
    assert DigitState(Acted(s, e));
    forall session: nat ensures DigitState(StateOf(v, session)) {
      assert DigitState(StateOf(w, session));
    }
  }

  lemma {:induction false} RunsKeepDigits(w: World, run: seq<Event>, v: World)
    requires Run(w, run, v) && DigitWorld(w) && forall i :: 0 <= i < |run| ==> DigitEvent(run[i])
    ensures DigitWorld(v)
    decreases |run|
  {
    if run != [] {
      WorldNextKeepsDigits(w, run[0]);
      RunsKeepDigits(WorldNext(w, run[0]), run[1..], v);
    }
  }

  /**
   In every state reached from an index loaded with digit phones by events that carry digit phones, the ids
   every session emits are neutral and stable.
   */
  lemma EmittedIdsAreStable(index: Index, run: seq<Event>, v: World, session: nat, jid: string)
    requires DigitIndex(index) && Run(World(map[], index), run, v)
    requires forall i :: 0 <= i < |run| ==> DigitEvent(run[i])
    ensures var s := StateOf(v, session);
      && Neutral(s, Neutral(s, jid)) == Neutral(s, jid)
      && (ParseWaId(jid).kind != Unknown ==>
            ':' !in Neutral(s, jid) && forall u :: Neutral(s, jid) != Address(u, EngineDomain))
  {
    RunsKeepDigits(World(map[], index), run, v);
    assert DigitState(StateOf(v, session));
    NeutralIdsAreStable(StateOf(v, session), jid);
  }

  lemma LearnKeepsCurrent(s: State, lid: string, pn: string, rows: map<string, Option<string>>)
    requires s.index.Some? && Current(s.index.value, rows) && Exact(s.index.value)
    ensures var t := Learn(s, lid, pn);
      && Current(t.index.value, rows) && Exact(t.index.value)
      && t.index.value.calls == s.index.value.calls + [Pair(UserPart(lid), Some(UserPart(pn)))]
  {
    RememberKeepsCurrent(s.index.value, rows, UserPart(lid), Some(UserPart(pn)));
    RememberKeepsExact(s.index.value, UserPart(lid), Some(UserPart(pn)));
  }

  /** `t` is reached from `s` by learning: the index stays current and its history only grows. */
  ghost predicate Grown(s: State, t: State, rows: map<string, Option<string>>) {
    && s.index.Some? && t.index.Some? && Current(t.index.value, rows) && Exact(t.index.value)
    && s.index.value.calls <= t.index.value.calls
  }

  lemma {:induction false} UpsertedGrows(s: State, records: seq<Record>, rows: map<string, Option<string>>)
    requires s.index.Some? && Current(s.index.value, rows) && Exact(s.index.value)
    ensures Grown(s, Upserted(s, records), rows)
  {
    if records != [] {
      var before, r := Upserted(s, records[..|records| - 1]), records[|records| - 1];
      UpsertedGrows(s, records[..|records| - 1], rows);
      if Truthy(r.id) {
        var c := Merged(before.local.contacts, r);
        var stored := before.(local := before.local.(contacts := before.local.contacts[r.id.value := c]));
        var phone := Or(c.phoneNumber, c.jid);
        if Truthy(c.lid) && Truthy(phone) {
          LearnKeepsCurrent(stored, c.lid.value, phone.value, rows);
        }
      }
    }
  }

  lemma {:induction false} AddedGrows(s: State, mappings: seq<Mapping>, rows: map<string, Option<string>>)
    requires s.index.Some? && Current(s.index.value, rows) && Exact(s.index.value)
    ensures Grown(s, Added(s, mappings), rows)
  {
    if mappings != [] {
      var before, m := Added(s, mappings[..|mappings| - 1]), mappings[|mappings| - 1];
      AddedGrows(s, mappings[..|mappings| - 1], rows);
      if Truthy(m.lid) && Truthy(m.pn) {
        LearnKeepsCurrent(before, m.lid.value, m.pn.value, rows);
      }
    }
  }

  lemma ActedGrows(s: State, e: Event, rows: map<string, Option<string>>)
    requires s.index.Some? && Current(s.index.value, rows) && Exact(s.index.value)
    ensures Grown(s, Acted(s, e), rows)
  {
    match e
    case Reset(_) =>
    case Upsert(_, records) => UpsertedGrows(s, records, rows);
    case AddMappings(_, mappings) => AddedGrows(s, mappings, rows);
  }

  lemma {:induction false} RunsGrow(w: World, run: seq<Event>, v: World, rows: map<string, Option<string>>)
    requires Run(w, run, v) && Current(w.index, rows) && Exact(w.index)
    ensures Current(v.index, rows) && Exact(v.index) && w.index.calls <= v.index.calls
    decreases |run|
  {
    if run != [] {
      ActedGrows(StateOf(w, run[0].session), run[0], rows);
      RunsGrow(WorldNext(w, run[0]), run[1..], v, rows);
    }
  }

  /** A session that holds nothing of its own on a lid answers with the shared index's phone. */
  lemma SharedPhoneResolves(s: State, jid: string, p: string)
    requires ParseWaId(jid).kind == Lid && s.index.Some? && p != ""
    requires OwnPhone(s.local, Address(ParseWaId(jid).userPart, DomainOf(Lid)), jid).None?
    requires Cached(s.index.value, ParseWaId(jid).userPart) == Some(Some(p))
    ensures ResolvePhone(s, jid) == Some(p) && Neutral(s, jid) == Address(p, DomainOf(User))
  {
    KnownIsNotEmpty(jid);
  }

  /** The last pair an event teaches: the closing mapping, or the closing record merged over what was stored. */
  predicate Teaches(s: State, e: Event, lid: string, pn: string) {
    && lid != "" && pn != ""
    && match e
       case Reset(_) => false
       case AddMappings(_, ms) => ms != [] && ms[|ms| - 1] == Mapping(Some(lid), Some(pn))
       case Upsert(_, rs) =>
         && rs != [] && Truthy(rs[|rs| - 1].id)
         && var c := Merged(Upserted(s, rs[..|rs| - 1]).local.contacts, rs[|rs| - 1]);
            c.lid == Some(lid) && Or(c.phoneNumber, c.jid) == Some(pn)
  }

  lemma TaughtIsLatest(s: State, e: Event, lid: string, pn: string)
    requires s.index.Some? && Teaches(s, e, lid, pn)
    ensures Acted(s, e).index.Some?
    ensures Latest(Acted(s, e).index.value.calls, UserPart(lid)) == Some(Some(UserPart(pn)))
  {
    match e
    case Upsert(_, rs) => UpsertedKeepsIndex(s, rs[..|rs| - 1]);
    case AddMappings(_, ms) => AddedKeepsIndex(s, ms[..|ms| - 1]);
  }

  lemma {:induction false} LatestOfAppend(a: seq<Pair>, b: seq<Pair>, lid: string)
    ensures Latest(a + b, lid) == if Latest(b, lid).Some? then Latest(b, lid) else Latest(a, lid)
  {
    if b == [] {
      assert a + b == a;
    } else {
      assert (a + b)[..|a + b| - 1] == a + b[..|b| - 1];
      LatestOfAppend(a, b[..|b| - 1], lid);
    }
  }

  /** No call after the first `n` is about `lid`. */
  predicate Undisturbed(ix: Index, n: nat, lid: string) {
    n <= |ix.calls| ==> Latest(ix.calls[n..], lid).None?
  }

  lemma LatestStays(w: World, run: seq<Event>, v: World, rows: map<string, Option<string>>,
                    lid: string, phone: Option<string>)
    requires Run(w, run, v) && Current(w.index, rows) && Exact(w.index)
    requires lid != "" && Latest(w.index.calls, lid) == Some(phone) && Undisturbed(v.index, |w.index.calls|, lid)
    ensures Cached(v.index, lid) == Some(phone)
  {
    RunsGrow(w, run, v, rows);
    var a, b := w.index.calls, v.index.calls[|w.index.calls|..];
    assert v.index.calls == a + b;
    LatestOfAppend(a, b, lid);
  }

  lemma TaughtIsCurrent(w: World, e: Event, lid: string, pn: string, rows: map<string, Option<string>>)
    requires Current(w.index, rows) && Exact(w.index) && Teaches(StateOf(w, e.session), e, lid, pn)
    ensures var ix := WorldNext(w, e).index;
      Current(ix, rows) && Exact(ix) && Latest(ix.calls, UserPart(lid)) == Some(Some(UserPart(pn)))
  {
    ActedGrows(StateOf(w, e.session), e, rows);
    TaughtIsLatest(StateOf(w, e.session), e, lid, pn);
  }

  /**
   A pair one session learns resolves in every other session that holds nothing of its own on that lid,
   through any later run that teaches nothing new about it.
   */
  lemma PairTravels(index: Index, rows: map<string, Option<string>>, before: seq<Event>, w: World, e: Event,
                    lid: string, pn: string, run: seq<Event>, v: World, session: nat, jid: string)
    requires Current(index, rows) && Exact(index) && Run(World(map[], index), before, w)
    requires Teaches(StateOf(w, e.session), e, lid, pn) && UserPart(lid) != "" && UserPart(pn) != ""
    requires Run(WorldNext(w, e), run, v) && Undisturbed(v.index, |WorldNext(w, e).index.calls|, UserPart(lid))
    requires ParseWaId(jid).kind == Lid && ParseWaId(jid).userPart == UserPart(lid)
    requires OwnPhone(LocalOf(v, session), Address(UserPart(lid), DomainOf(Lid)), jid).None?
    ensures Neutral(StateOf(v, session), jid) == Address(UserPart(pn), DomainOf(User))
  {
    RunsGrow(World(map[], index), before, w, rows);
    TaughtIsCurrent(w, e, lid, pn, rows);
    LatestStays(WorldNext(w, e), run, v, rows, UserPart(lid), Some(UserPart(pn)));
    SharedPhoneResolves(StateOf(v, session), jid, UserPart(pn));
  }

  // ----- Contacts by their emitted id -----

  datatype Listed = Listed(id: string, name: Option<string>, number: string)

  function Number(c: Contact): string {
    if Truthy(c.phoneNumber) then UserPart(c.phoneNumber.value)
    else if EndsWith(c.id, "@" + EngineDomain) then UserPart(c.id) else ""
  }

  function NeutralContact(s: State, c: Contact): Listed {
    Listed(Neutral(s, c.id), c.name, Number(c))
  }

  function FindContact(s: State, id: string): Option<Listed> {
    var c := Or(Get(s.local.contacts, id), Get(s.local.contacts, ToEngineJid(id)));
    if c.Some? then Some(NeutralContact(s, c.value)) else None
  }

  function ListContacts(s: State): set<Listed> {
    set id | id in s.local.contacts :: NeutralContact(s, s.local.contacts[id])
  }

  /** The number shown: the phone number's user part, else that of an engine user id, else none. */
  lemma NumberIs(c: Contact)
    ensures Truthy(c.phoneNumber) ==> Number(c) == UserPart(c.phoneNumber.value)
    ensures !Truthy(c.phoneNumber) && EndsWith(c.id, "@s.whatsapp.net") ==> Number(c) == UserPart(c.id)
    ensures !Truthy(c.phoneNumber) && !EndsWith(c.id, "@s.whatsapp.net") ==> Number(c) == ""
  {
    assert "@" + EngineDomain == "@s.whatsapp.net";
  }

  /** A lookup tries the id as given, then its engine form, and misses exactly when neither is stored. */
  lemma FindTriesBoth(s: State, id: string)
    ensures id in s.local.contacts ==> FindContact(s, id) == Some(NeutralContact(s, s.local.contacts[id]))
    ensures FindContact(s, id).None? <==> id !in s.local.contacts && ToEngineJid(id) !in s.local.contacts
  {
  }

  /** Every contact is stored under its own id. */
  predicate Keyed(l: Local) {
    forall id :: id in l.contacts ==> l.contacts[id].id == id && id != ""
  }

  lemma {:induction false} UpsertKeepsKeyed(s: State, records: seq<Record>)
    requires Keyed(s.local)
    ensures Keyed(Upserted(s, records).local)
    ensures forall id :: id in s.local.contacts ==> id in Upserted(s, records).local.contacts
  {
    if records != [] {
      UpsertKeepsKeyed(s, records[..|records| - 1]);
    }
  }

  /** The stored contacts show alike: same name, same number. */
  predicate ShowAlike(a: Contact, b: Contact) {
    a.name == b.name && Number(a) == Number(b)
  }

  /**
   A contact stored under the engine id of a plain user part is listed under the neutral one, and found from
   it exactly when no contact that shows differently is stored under the neutral id itself.
   */
  lemma ListedContactIsFound(s: State, u: string)
    requires Keyed(s.local) && Plain(u) && Address(u, EngineDomain) in s.local.contacts
    ensures var own := s.local.contacts[Address(u, EngineDomain)];
      var twin := Get(s.local.contacts, Address(u, DomainOf(User)));
      var c := NeutralContact(s, own);
      && c in ListContacts(s) && c.id == Address(u, DomainOf(User))
      && (FindContact(s, c.id) == Some(c) <==> (twin.Some? ==> ShowAlike(twin.value, own)))
  {
    var id := Address(u, EngineDomain);
    DialectsUndoEachOther(u, Resolver(s));
    UserIdIsFixed(u, Resolver(s));
    assert NeutralContact(s, s.local.contacts[id]) in ListContacts(s);
  }

  /** Two stored contacts of one user with different names: the listed one is not the one found. */
  lemma TwinIsFoundInstead(s: State, u: string, name: string, other: string)
    requires Plain(u) && name != other
    requires s.local.contacts == map[
      Address(u, EngineDomain) := Contact(Address(u, EngineDomain), None, None, None, Some(name)),
      Address(u, DomainOf(User)) := Contact(Address(u, DomainOf(User)), None, None, None, Some(other))]
    ensures var c := NeutralContact(s, s.local.contacts[Address(u, EngineDomain)]);
      c in ListContacts(s) && FindContact(s, c.id).Some? && FindContact(s, c.id) != Some(c)
  {
    EngineIdDiffers(u);
    ListedContactIsFound(s, u);
  }

  lemma EngineIdDiffers(u: string)
    ensures Address(u, EngineDomain) != Address(u, DomainOf(User))
  {
    assert |EngineDomain| != |DomainOf(User)|;
  }

  // ----- The newest message of each chat -----

  datatype Message = Message(chat: Option<string>, key: string, timestamp: int, text: string)

  function Recorded(last: map<string, Message>, m: Message): map<string, Message> {
    if !Truthy(m.chat) then last
    else if m.chat.value in last && last[m.chat.value].timestamp >= m.timestamp then last
    else last[m.chat.value := m]
  }

  function AllRecorded(messages: seq<Message>): map<string, Message> {
    if messages == [] then map[]
    else Recorded(AllRecorded(messages[..|messages| - 1]), messages[|messages| - 1])
  }

  /** messages[k] is the first of the newest messages of its chat. */
  predicate FirstNewest(messages: seq<Message>, k: nat)
    requires k < |messages|
  {
    forall i :: 0 <= i < |messages| && messages[i].chat == messages[k].chat ==>
      messages[i].timestamp <= messages[k].timestamp && (i < k ==> messages[i].timestamp < messages[k].timestamp)
  }

  predicate Newest(messages: seq<Message>, k: nat, chat: string)
    requires k < |messages|
  {
    messages[k].chat == Some(chat) && FirstNewest(messages, k)
  }

  /** Whatever the order of arrival, the store keeps for each chat the first of its newest messages. */
  lemma {:induction false} KeepsTheNewest(messages: seq<Message>, chat: string)
    ensures chat in AllRecorded(messages)
      <==> chat != "" && exists k :: 0 <= k < |messages| && messages[k].chat == Some(chat)
    ensures chat in AllRecorded(messages) ==>
      exists k :: 0 <= k < |messages| && AllRecorded(messages)[chat] == messages[k] && Newest(messages, k, chat)
  {
    if messages != [] {
      var n := |messages| - 1;
      var before, m := messages[..n], messages[n];
      KeepsTheNewest(before, chat);
      if chat in AllRecorded(before) {
        var k :| 0 <= k < n && AllRecorded(before)[chat] == before[k] && Newest(before, k, chat);
        assert messages[k].chat == Some(chat);
        assert forall i :: 0 <= i < n ==> messages[i] == before[i];
        if m.chat == Some(chat) && m.timestamp > before[k].timestamp {
          assert FirstNewest(messages, n);
        } else {
          assert FirstNewest(messages, k);
        }
      } else if chat in AllRecorded(messages) {
        assert FirstNewest(messages, n);
      }
    }
  }

  // ----- The store -----

  class BaileysSessionStore {
    var contacts: map<string, Contact>
    var lidToPn: map<string, string>
    var lastMessages: map<string, Message>
    const lidStore: LidMappingStoreService?

    ghost function View(): State
      reads this, lidStore
    {
      State(Local(contacts, lidToPn), if lidStore == null then None else Some(lidStore.View()))
    }

    constructor (lidStore: LidMappingStoreService?)
      ensures this.lidStore == lidStore && View().local == NewSession && lastMessages == map[]
    {
      contacts, lidToPn, lastMessages := map[], map[], map[];
      this.lidStore := lidStore;
    }

    method UpsertContacts(records: seq<Record>)
      modifies this`contacts, this`lidToPn, lidStore
      ensures View() == Upserted(old(View()), records)
    {
      for i := 0 to |records|
        invariant View() == Upserted(old(View()), records[..i])
      {
        assert records[..i + 1][..i] == records[..i];
        var r := records[i];
        if Truthy(r.id) {
          var merged := Merged(contacts, r);
          contacts := contacts[r.id.value := merged];
          var phone := Or(merged.phoneNumber, merged.jid);
          if Truthy(merged.lid) && Truthy(phone) {
            KeepPair(merged.lid.value, phone.value);
          }
        }
      }
      assert records[..|records|] == records;
    }

    method AddLidMappings(mappings: seq<Mapping>)
      modifies this`lidToPn, lidStore
      ensures View() == Added(old(View()), mappings)
    {
      for i := 0 to |mappings|
        invariant View() == Added(old(View()), mappings[..i])
      {
        assert mappings[..i + 1][..i] == mappings[..i];
        var m := mappings[i];
        if Truthy(m.lid) && Truthy(m.pn) {
          KeepPair(m.lid.value, m.pn.value);
        }
      }
      assert mappings[..|mappings|] == mappings;
    }

    /** Keeps a pair in the session map and, through persistLidMapping, in the shared table. */
    method KeepPair(lid: string, pn: string)
      modifies this`lidToPn, lidStore
      ensures View() == Learn(old(View()), lid, pn)
    {
      lidToPn := lidToPn[lid := pn];
      if lidStore != null {
        var _ := lidStore.RememberPair(UserPart(lid), Some(UserPart(pn)));
      }
    }

    method RecordMessage(m: Message)
      modifies this`lastMessages
      ensures lastMessages == Recorded(old(lastMessages), m)
    {
      if !Truthy(m.chat) {
        return;
      }
      if m.chat.value in lastMessages && lastMessages[m.chat.value].timestamp >= m.timestamp {
        return;
      }
      lastMessages := lastMessages[m.chat.value := m];
    }
  }
}

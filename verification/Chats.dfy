/**
 The chat view's message list (dashboard/src/pages/Chats.tsx): the delivery-status merge, and the updaters
 for an optimistic send, its response or failure, the realtime echo and acknowledgements.
 */
module Chats {
  import opened Support

  // ----- Delivery status -----

  datatype Status = Pending | Sent | Delivered | Read | Failed | Other(name: string)

  function Rank(s: Status): Option<int> {
    match s
    case Pending => Some(0)
    case Sent => Some(1)
    case Delivered => Some(2)
    case Read => Some(3)
    case Failed => None
    case Other(_) => None
  }

  function MergeDeliveryStatus(current: Option<Status>, incoming: Option<Status>): Option<Status> {
    if incoming.None? then current
    else if current.None? then incoming
    else if current.value == Failed then Some(Failed)
    else if incoming.value == Failed then
      if current.value == Pending || current.value == Sent then Some(Failed) else current
    else if Rank(incoming.value).None? then current
    else if Rank(current.value).None? then incoming
    else if Rank(incoming.value).value >= Rank(current.value).value then incoming else current
  }

  /** The status after a sequence of acknowledgements. */
  function Merged(current: Option<Status>, acks: seq<Option<Status>>): Option<Status> {
    if acks == [] then current else MergeDeliveryStatus(Merged(current, acks[..|acks| - 1]), acks[|acks| - 1])
  }

  /** Terminal failure on top; then the ranks; unknown and missing statuses below. */
  function Height(s: Option<Status>): int {
    match s
    case None => -2
    case Some(Failed) => 4
    case Some(st) => if Rank(st).Some? then Rank(st).value else -1
  }

  /** A merge never lowers a status, and never turns a delivered or read message into a failed one. */
  lemma RankNeverFalls(current: Option<Status>, incoming: Option<Status>)
    ensures Height(MergeDeliveryStatus(current, incoming)) >= Height(current)
    ensures var m := MergeDeliveryStatus(current, incoming);
      && (current == Some(Delivered) || current == Some(Read) ==> m != Some(Failed))
      && (Height(m) == Height(current) ==> m == current)
  {
  }

  predicate Unknown(s: Option<Status>) {
    s.Some? && s.value.Other?
  }

  /** Merging `ack` into `s` has no effect, now and after any further acknowledgements. */
  predicate Absorbed(s: Option<Status>, ack: Option<Status>) {
    match ack
    case None => true
    case Some(Other(_)) => s.Some?
    case Some(Failed) => s == Some(Failed) || s == Some(Delivered) || s == Some(Read)
    case Some(a) => Height(s) >= Height(ack)
  }

  lemma AbsorbedStays(s: Option<Status>, ack: Option<Status>, next: Option<Status>)
    requires Absorbed(s, ack)
    ensures Absorbed(MergeDeliveryStatus(s, next), ack) && MergeDeliveryStatus(s, ack) == s
  {
  }

  lemma MergeAbsorbs(s: Option<Status>, ack: Option<Status>)
    requires !(ack == Some(Failed) && Unknown(s))
    ensures Absorbed(MergeDeliveryStatus(s, ack), ack)
  {
  }

  lemma {:induction false} ReplayOfKnown(current: Option<Status>, acks: seq<Option<Status>>, i: nat)
    requires i < |acks| && !(acks[i] == Some(Failed) && Unknown(Merged(current, acks[..i])))
    ensures Absorbed(Merged(current, acks), acks[i])
    decreases |acks|
  {
    var before := acks[..|acks| - 1];
    if i == |acks| - 1 {
      MergeAbsorbs(Merged(current, before), acks[i]);
    } else {
      assert before[..i] == acks[..i];
      ReplayOfKnown(current, before, i);
      AbsorbedStays(Merged(current, before), acks[i], acks[|acks| - 1]);
    }
  }

  /**
   Replaying an acknowledgement already seen is a no-op after any sequence, except exactly for a failure that
   was ignored because the status was unknown then, on a message that is now pending or sent.
   */
  lemma ReplayIsNoOp(current: Option<Status>, acks: seq<Option<Status>>, i: nat)
    requires i < |acks|
    ensures MergeDeliveryStatus(Merged(current, acks), acks[i]) == Merged(current, acks)
      <==> !(acks[i] == Some(Failed) && Unknown(Merged(current, acks[..i]))
             && (Merged(current, acks) == Some(Pending) || Merged(current, acks) == Some(Sent)))
  {
    var ignored := acks[i] == Some(Failed) && Unknown(Merged(current, acks[..i]));
    if !ignored {
      ReplayOfKnown(current, acks, i);
      AbsorbedStays(Merged(current, acks), acks[i], None);
    } else {
      NeverUnsetAgain(current, acks, i);
    }
  }

  lemma {:induction false} NeverUnsetAgain(current: Option<Status>, acks: seq<Option<Status>>, i: nat)
    requires i <= |acks| && Merged(current, acks[..i]).Some?
    ensures Merged(current, acks).Some?
    decreases |acks|
  {
    if i == |acks| {
      assert acks[..i] == acks;
    } else {
      assert acks[..|acks| - 1][..i] == acks[..i];
      NeverUnsetAgain(current, acks[..|acks| - 1], i);
    }
  }

  /** The exception is real: an unknown status, a failure, then a first known status. */
  lemma IgnoredFailureReturns()
    ensures var acks := [Some(Failed), Some(Pending)];
      MergeDeliveryStatus(Merged(Some(Other("played")), acks), acks[0]) != Merged(Some(Other("played")), acks)
  {
    var acks := [Some(Failed), Some(Pending)];
    assert acks[..1] == [Some(Failed)] && acks[..1][..0] == [];
    assert Merged(Some(Other("played")), acks[..1]) == Some(Other("played"));
    assert Merged(Some(Other("played")), acks) == Some(Pending);
  }

  /** Starting from a known status, every replay is a no-op. */
  lemma {:induction false} KnownStaysKnown(current: Option<Status>, acks: seq<Option<Status>>)
    requires current.Some? && !Unknown(current)
    ensures Merged(current, acks).Some? && !Unknown(Merged(current, acks))
  {
    if acks != [] {
      KnownStaysKnown(current, acks[..|acks| - 1]);
    }
  }

  // ----- The message list -----

  datatype Entry = Entry(id: string, waMessageId: Option<string>, status: Option<Status>, body: string)

  datatype Event =
    | Send(temp: string, body: string)
    | Echo(id: string, body: string)
    | Ack(id: string, status: Option<Status>)
    | Responded(temp: string, messageId: string)
    | SendFailed(temp: string)

  predicate Carries(m: Entry, id: string) {
    m.id == id || m.waMessageId == Some(id)
  }

  predicate Carried(list: seq<Entry>, id: string) {
    exists i :: 0 <= i < |list| && Carries(list[i], id)
  }

  /** The ids of optimistic placeholders. */
  predicate IsTemp(id: string) {
    "temp_" <= id
  }

  /** prev.filter(m => m.id !== id) */
  function Without(list: seq<Entry>, id: string): seq<Entry> {
    if list == [] then []
    else (if list[0].id == id then [] else [list[0]]) + Without(list[1..], id)
  }

  /** prev.map(...) */
  function Mapped(list: seq<Entry>, f: Entry -> Entry): (r: seq<Entry>)
    ensures |r| == |list| && forall i :: 0 <= i < |list| ==> r[i] == f(list[i])
  {
    seq(|list|, i requires 0 <= i < |list| => f(list[i]))
  }

  function Acked(m: Entry, id: string, status: Option<Status>): Entry {
    if Carries(m, id) then m.(status := Or(MergeDeliveryStatus(m.status, status), m.status)) else m
  }

  function Renamed(m: Entry, temp: string, messageId: string): Entry {
    if m.id == temp then m.(id := messageId, waMessageId := Some(messageId), status := Some(Sent)) else m
  }

  function MarkedFailed(m: Entry, temp: string): Entry {
    if m.id == temp then m.(status := Some(Failed)) else m
  }

  /** Temp ids are new and tell themselves apart from WhatsApp ids. */
  predicate Enabled(list: seq<Entry>, e: Event) {
    match e
    case Send(temp, _) => IsTemp(temp) && !Carried(list, temp)
    case Echo(id, _) => !IsTemp(id)
    case Ack(id, _) => !IsTemp(id)
    case Responded(temp, messageId) => IsTemp(temp) && !IsTemp(messageId)
    case SendFailed(temp) => IsTemp(temp)
  }

  function Next(list: seq<Entry>, e: Event): seq<Entry> {
    match e
    case Send(temp, body) => list + [Entry(temp, None, Some(Pending), body)]
    case Echo(id, body) => if Carried(list, id) then list else list + [Entry(id, Some(id), Some(Sent), body)]
    case Ack(id, status) => Mapped(list, m => Acked(m, id, status))
    case Responded(temp, messageId) =>
      if Carried(list, messageId) then Without(list, temp) else Mapped(list, m => Renamed(m, temp, messageId))
    case SendFailed(temp) => Mapped(list, m => MarkedFailed(m, temp))
  }

  /** Two entries share an id. */
  predicate Share(m: Entry, n: Entry) {
    Carries(m, n.id) || (n.waMessageId.Some? && Carries(m, n.waMessageId.value))
  }

  /** A placeholder carries its temp id alone; any other entry carries no temp id. */
  predicate WellNamed(m: Entry) {
    if IsTemp(m.id) then m.waMessageId.None? else m.waMessageId.Some? ==> !IsTemp(m.waMessageId.value)
  }

  ghost predicate Distinct(list: seq<Entry>) {
    && (forall i :: 0 <= i < |list| ==> WellNamed(list[i]))
    && (forall i, j :: 0 <= i < j < |list| ==> !Share(list[i], list[j]))
  }

  ghost predicate Run(list: seq<Entry>, run: seq<Event>, final: seq<Entry>)
    decreases |run|
  {
    if run == [] then list == final else Enabled(list, run[0]) && Run(Next(list, run[0]), run[1..], final)
  }

  lemma {:induction false} WithoutOnlyKeeps(list: seq<Entry>, id: string, m: Entry)
    requires m in Without(list, id)
    ensures m in list && m.id != id
  {
    if !(list[0].id != id && m == list[0]) {
      WithoutOnlyKeeps(list[1..], id, m);
    }
  }

  lemma ConsIsDistinct(m: Entry, rest: seq<Entry>)
    requires WellNamed(m) && Distinct(rest) && forall n :: n in rest ==> !Share(m, n)
    ensures Distinct([m] + rest)
  {
    var list := [m] + rest;
    forall i, j | 0 <= i < j < |list| ensures !Share(list[i], list[j]) {
      assert list[j] == rest[j - 1];
      assert i > 0 ==> list[i] == rest[i - 1];
    }
  }

  lemma TailIsDistinct(list: seq<Entry>)
    requires Distinct(list) && list != []
    ensures Distinct(list[1..]) && WellNamed(list[0]) && forall n :: n in list[1..] ==> !Share(list[0], n)
  {
  }

  lemma {:induction false} WithoutIsDistinct(list: seq<Entry>, id: string)
    requires Distinct(list)
    ensures Distinct(Without(list, id))
  {
    if list != [] {
      var rest := Without(list[1..], id);
      TailIsDistinct(list);
      WithoutIsDistinct(list[1..], id);
      forall n | n in rest ensures !Share(list[0], n) {
        WithoutOnlyKeeps(list[1..], id, n);
      }
      ConsIsDistinct(list[0], rest);
      assert [] + rest == rest;
    }
  }

  lemma {:induction false} WithoutKeepsOthers(list: seq<Entry>, id: string, m: Entry)
    requires m in list && m.id != id
    ensures m in Without(list, id)
  {
    if list[0] != m {
      WithoutKeepsOthers(list[1..], id, m);
    }
  }

  lemma RunStep(list: seq<Entry>, e: Event, run: seq<Event>, final: seq<Entry>)
    requires Enabled(list, e) && Run(Next(list, e), run, final)
    ensures Run(list, [], list) && Run(list, [e] + run, final)
  {
    assert ([e] + run)[1..] == run;
  }

  lemma AppendKeepsDistinct(list: seq<Entry>, m: Entry)
    requires Distinct(list) && WellNamed(m)
    requires !Carried(list, m.id) && (m.waMessageId.Some? ==> !Carried(list, m.waMessageId.value))
    ensures Distinct(list + [m])
  {
  }

  lemma NextKeepsDistinct(list: seq<Entry>, e: Event)
    requires Distinct(list) && Enabled(list, e)
    ensures Distinct(Next(list, e))
  {
    match e {
      case Send(temp, body) => AppendKeepsDistinct(list, Entry(temp, None, Some(Pending), body));
      case Echo(id, body) =>
        if !Carried(list, id) {
          AppendKeepsDistinct(list, Entry(id, Some(id), Some(Sent), body));
        }
      case Ack(_, _) =>
      case Responded(temp, messageId) =>
        if Carried(list, messageId) {
          WithoutIsDistinct(list, temp);
        } else {
          RenameKeepsDistinct(list, temp, messageId);
        }
      case SendFailed(_) =>
    }
  }

  lemma RenameKeepsDistinct(list: seq<Entry>, temp: string, messageId: string)
    requires Distinct(list) && IsTemp(temp) && !IsTemp(messageId) && !Carried(list, messageId)
    ensures Distinct(Next(list, Responded(temp, messageId)))
  {
  }

  /** In every interleaving no two entries share an id, WhatsApp's or the view's. */
  lemma {:induction false} EntriesStayDistinct(list: seq<Entry>, run: seq<Event>, final: seq<Entry>)
    requires Distinct(list) && Run(list, run, final)
    ensures Distinct(final)
    decreases |run|
  {
    if run != [] {
      NextKeepsDistinct(list, run[0]);
      EntriesStayDistinct(Next(list, run[0]), run[1..], final);
    }
  }

  // ----- One bubble per message -----

  /** What a run makes of an entry that already has its real id: only acknowledgements touch it. */
  function AfterAcks(m: Entry, run: seq<Event>): Entry
    decreases |run|
  {
    if run == [] then m
    else AfterAcks(if run[0].Ack? then Acked(m, run[0].id, run[0].status) else m, run[1..])
  }

  /** The acknowledgements of a run addressed to an entry, in order. */
  function AcksFor(m: Entry, run: seq<Event>): seq<Option<Status>> {
    if run == [] then []
    else (if run[0].Ack? && Carries(m, run[0].id) then [run[0].status] else []) + AcksFor(m, run[1..])
  }

  lemma EntryPersists(list: seq<Entry>, e: Event, m: Entry)
    requires Distinct(list) && Enabled(list, e) && m in list && !IsTemp(m.id)
    ensures (if e.Ack? then Acked(m, e.id, e.status) else m) in Next(list, e)
  {
    var i :| 0 <= i < |list| && list[i] == m;
    match e {
      case Send(_, _) => assert Next(list, e)[i] == m;
      case Echo(_, _) => assert Next(list, e)[i] == m;
      case Ack(_, _) => assert Next(list, e)[i] == Acked(m, e.id, e.status);
      case Responded(temp, messageId) =>
        if Carried(list, messageId) {
          WithoutKeepsOthers(list, temp, m);
        } else {
          assert Next(list, e)[i] == m;
        }
      case SendFailed(_) => assert Next(list, e)[i] == m;
    }
  }

  lemma {:induction false} EntriesPersist(list: seq<Entry>, run: seq<Event>, final: seq<Entry>, m: Entry)
    requires Distinct(list) && Run(list, run, final) && m in list && !IsTemp(m.id)
    ensures AfterAcks(m, run) in final
    decreases |run|
  {
    if run != [] {
      EntryPersists(list, run[0], m);
      NextKeepsDistinct(list, run[0]);
      var n := if run[0].Ack? then Acked(m, run[0].id, run[0].status) else m;
      EntriesPersist(Next(list, run[0]), run[1..], final, n);
    }
  }

  lemma {:induction false} MergedFirst(current: Option<Status>, ack: Option<Status>, acks: seq<Option<Status>>)
    ensures Merged(current, [ack] + acks) == Merged(MergeDeliveryStatus(current, ack), acks)
  {
    if acks == [] {
      assert ([ack] + acks)[..0] == [];
      assert Merged(current, [ack]) == MergeDeliveryStatus(Merged(current, [ack][..0]), ack);
    } else {
      assert ([ack] + acks)[..|acks|] == [ack] + acks[..|acks| - 1];
      MergedFirst(current, ack, acks[..|acks| - 1]);
    }
  }

  /** Its status is the merge of the acknowledgements addressed to it, and nothing else changes. */
  lemma {:induction false} AcksAreMerged(m: Entry, run: seq<Event>)
    ensures AfterAcks(m, run) == m.(status := Merged(m.status, AcksFor(m, run)))
    decreases |run|
  {
    if run != [] {
      var n := if run[0].Ack? then Acked(m, run[0].id, run[0].status) else m;
      AcksAreMerged(n, run[1..]);
      SameAddressee(m, n, run[1..]);
      if run[0].Ack? && Carries(m, run[0].id) {
        MergedFirst(m.status, run[0].status, AcksFor(m, run[1..]));
        assert n.status == MergeDeliveryStatus(m.status, run[0].status);
      } else {
        assert AcksFor(m, run) == AcksFor(m, run[1..]);
      }
    }
  }

  lemma {:induction false} SameAddressee(m: Entry, n: Entry, run: seq<Event>)
    requires m.id == n.id && m.waMessageId == n.waMessageId
    ensures AcksFor(m, run) == AcksFor(n, run)
  {
    if run != [] {
      SameAddressee(m, n, run[1..]);
    }
  }

  ghost predicate CarriedOnce(list: seq<Entry>, id: string, m: Entry) {
    m in list && Carries(m, id) && forall i :: 0 <= i < |list| && Carries(list[i], id) ==> list[i] == m
  }

  /** The event that first shows a message: its echo, or the response to a send whose placeholder is listed. */
  predicate Shows(list: seq<Entry>, e: Event, id: string) {
    match e
    case Echo(echoed, _) => echoed == id
    case Responded(temp, messageId) => messageId == id && Carried(list, temp)
    case _ => false
  }

  lemma ShownIsCarried(list: seq<Entry>, e: Event, id: string) returns (m: Entry)
    requires Distinct(list) && Enabled(list, e) && Shows(list, e, id)
    ensures m in Next(list, e) && Carries(m, id) && !IsTemp(m.id)
  {
    var next := Next(list, e);
    if Carried(list, id) {
      var i :| 0 <= i < |list| && Carries(list[i], id);
      m := list[i];
      EntryPersists(list, e, m);
    } else if e.Echo? {
      m := Entry(id, Some(id), Some(Sent), e.body);
      assert next[|list|] == m;
    } else {
      var i :| 0 <= i < |list| && Carries(list[i], e.temp);
      m := Renamed(list[i], e.temp, id);
      assert next[i] == m;
    }
  }

  lemma SameEntry(list: seq<Entry>, i: nat, j: nat, id: string)
    requires Distinct(list) && i <= j < |list| && Carries(list[i], id) && Carries(list[j], id)
    ensures i == j
  {
    assert Share(list[i], list[j]);
  }

  /** An echo not yet shown is appended, as sent and with its own text; a shown one changes nothing. */
  lemma EchoAppends(list: seq<Entry>, id: string, body: string)
    ensures Carried(list, id) ==> Next(list, Echo(id, body)) == list
    ensures !Carried(list, id) ==> Next(list, Echo(id, body)) == list + [Entry(id, Some(id), Some(Sent), body)]
  {
  }

  /** A send appends its placeholder; its response renames it in place, keeping the text. */
  lemma ResponseRenamesInPlace(list: seq<Entry>, temp: string, body: string, messageId: string)
    requires Distinct(list) && Enabled(list, Send(temp, body)) && !IsTemp(messageId) && !Carried(list, messageId)
    ensures var sent := Next(list, Send(temp, body));
      && sent == list + [Entry(temp, None, Some(Pending), body)]
      && Next(sent, Responded(temp, messageId)) == list + [Entry(messageId, Some(messageId), Some(Sent), body)]
      && Next(sent, SendFailed(temp)) == list + [Entry(temp, None, Some(Failed), body)]
  {
    var sent := Next(list, Send(temp, body));
    assert sent[|list|] == Entry(temp, None, Some(Pending), body);
    assert !Carried(sent, messageId);
    forall i | 0 <= i < |list| ensures list[i].id != temp {
      assert !Carries(list[i], temp);
    }
  }

  lemma DistinctCarriesOnce(list: seq<Entry>, id: string, m: Entry)
    requires Distinct(list) && m in list && Carries(m, id)
    ensures CarriedOnce(list, id, m)
  {
    var i :| 0 <= i < |list| && list[i] == m;
    forall j | 0 <= j < |list| && Carries(list[j], id) ensures list[j] == m {
      SameEntry(list, if i <= j then i else j, if i <= j then j else i, id);
    }
  }

  /**
   Once a message has been shown, by echo or by response, exactly one entry carries its WhatsApp id in every
   continuation, whichever of the two came first; its status is the merge of the acknowledgements it got since.
   */
  lemma OneBubblePerMessage(list: seq<Entry>, e: Event, run: seq<Event>, final: seq<Entry>, id: string)
    returns (m: Entry)
    requires Distinct(list) && Enabled(list, e) && Shows(list, e, id) && Run(Next(list, e), run, final)
    ensures m in Next(list, e) && Carries(m, id)
    ensures CarriedOnce(final, id, m.(status := Merged(m.status, AcksFor(m, run))))
  {
    m := ShownIsCarried(list, e, id);
    NextKeepsDistinct(list, e);
    EntriesPersist(Next(list, e), run, final, m);
    EntriesStayDistinct(Next(list, e), run, final);
    AcksAreMerged(m, run);
    DistinctCarriesOnce(final, id, m.(status := Merged(m.status, AcksFor(m, run))));
  }

  // ----- Acknowledgements that come before their message -----

  /** All acknowledgements of a WhatsApp id in a run, shown or not. */
  function AcksOf(id: string, run: seq<Event>): seq<Option<Status>> {
    if run == [] then []
    else (if run[0].Ack? && run[0].id == id then [run[0].status] else []) + AcksOf(id, run[1..])
  }

  lemma {:induction false} OneIdOneAddressee(m: Entry, id: string, run: seq<Event>)
    requires m.id == id && m.waMessageId == Some(id)
    ensures AcksFor(m, run) == AcksOf(id, run)
  {
    if run != [] {
      OneIdOneAddressee(m, id, run[1..]);
    }
  }

  lemma FirstShownIsSent(list: seq<Entry>, e: Event, id: string, m: Entry)
    requires Distinct(list) && Enabled(list, e) && Shows(list, e, id) && !Carried(list, id)
    requires m in Next(list, e) && Carries(m, id)
    ensures m.id == id && m.waMessageId == Some(id) && m.status == Some(Sent)
  {
    var i :| 0 <= i < |Next(list, e)| && Next(list, e)[i] == m;
    if i < |list| {
      assert !Carries(list[i], id);
    }
  }

  lemma {:induction false} MergedAppends(current: Option<Status>, a: seq<Option<Status>>, b: seq<Option<Status>>)
    ensures Merged(current, a + b) == Merged(Merged(current, a), b)
    decreases |b|
  {
    if b == [] {
      assert a + b == a;
    } else {
      assert (a + b)[..|a + b| - 1] == a + b[..|b| - 1];
      MergedAppends(current, a, b[..|b| - 1]);
    }
  }

  /** Delivered, read or failed: what a sent message can still become. */
  predicate Strong(ack: Option<Status>) {
    ack == Some(Delivered) || ack == Some(Read) || ack == Some(Failed)
  }

  lemma {:induction false} StrongAcksShow(acks: seq<Option<Status>>)
    ensures var s := Merged(Some(Sent), acks);
      && (s == Some(Sent) || Strong(s))
      && (s == Some(Sent) <==> forall i :: 0 <= i < |acks| ==> !Strong(acks[i]))
  {
    if acks != [] {
      StrongAcksShow(acks[..|acks| - 1]);
    }
  }

  /** What was lost, `early`, makes no difference to a status that ended as `shown`. */
  predicate Harmless(early: Option<Status>, shown: Option<Status>) {
    || early == Some(Sent)
    || (early == Some(Failed) && shown == Some(Failed))
    || ((early == Some(Delivered) || early == Some(Read)) && shown != Some(Failed) && Height(shown) >= Height(early))
  }

  lemma {:induction false} LossShowsExactly(early: Option<Status>, later: seq<Option<Status>>)
    requires early == Some(Sent) || Strong(early)
    ensures Merged(early, later) == Merged(Some(Sent), later) <==> Harmless(early, Merged(Some(Sent), later))
    ensures early == Some(Failed) || early == Some(Read) ==> Merged(early, later) == early
    ensures early == Some(Delivered) ==> Merged(early, later) == Some(Delivered) || Merged(early, later) == Some(Read)
    ensures var shown := Merged(Some(Sent), later);
      early == Some(Delivered) && (shown == Some(Delivered) || shown == Some(Sent)) ==>
        Merged(early, later) == Some(Delivered)
  {
    StrongAcksShow(later);
    if later != [] {
      LossShowsExactly(early, later[..|later| - 1]);
      StrongAcksShow(later[..|later| - 1]);
    }
  }

  /**
   An acknowledgement that comes before its message is lost: the status is the merge of those that came after.
   That is the merge of all of them, the lost ones first, exactly when the lost ones' merge is harmless to it.
   */
  lemma EarlyAcksAreLost(list: seq<Entry>, before: seq<Event>, mid: seq<Entry>, e: Event,
                         run: seq<Event>, final: seq<Entry>, id: string) returns (m: Entry)
    requires Distinct(list) && Run(list, before, mid) && !Carried(mid, id)
    requires Enabled(mid, e) && Shows(mid, e, id) && Run(Next(mid, e), run, final)
    ensures CarriedOnce(final, id, m) && m.status == Merged(Some(Sent), AcksOf(id, run))
    ensures m.status == Merged(Some(Sent), AcksOf(id, before) + AcksOf(id, run))
      <==> Harmless(Merged(Some(Sent), AcksOf(id, before)), m.status)
  {
    EntriesStayDistinct(list, before, mid);
    var n := OneBubblePerMessage(mid, e, run, final, id);
    FirstShownIsSent(mid, e, id, n);
    OneIdOneAddressee(n, id, run);
    m := n.(status := Merged(n.status, AcksFor(n, run)));
    MergedAppends(Some(Sent), AcksOf(id, before), AcksOf(id, run));
    StrongAcksShow(AcksOf(id, before));
    LossShowsExactly(Merged(Some(Sent), AcksOf(id, before)), AcksOf(id, run));
  }

  /** Whatever follows, nothing is lost if and only if no early acknowledgement was delivered, read or failed. */
  lemma NothingLostExactlyWhenWeak(early: seq<Option<Status>>)
    ensures (forall later :: Merged(Some(Sent), early + later) == Merged(Some(Sent), later))
      <==> (forall i :: 0 <= i < |early| ==> !Strong(early[i]))
  {
    StrongAcksShow(early);
    forall later ensures Merged(Some(Sent), early + later) == Merged(Merged(Some(Sent), early), later) {
      MergedAppends(Some(Sent), early, later);
    }
    assert Merged(Some(Sent), []) == Some(Sent) && early + [] == early;
  }

  /** A response leaves no placeholder behind. */
  lemma ResponseClearsPlaceholder(list: seq<Entry>, temp: string, messageId: string)
    requires Distinct(list) && Enabled(list, Responded(temp, messageId))
    ensures !Carried(Next(list, Responded(temp, messageId)), temp)
  {
    if Carried(list, messageId) {
      forall m | m in Without(list, temp) ensures !Carries(m, temp) {
        WithoutOnlyKeeps(list, temp, m);
      }
    }
  }

  /** What a run makes of a placeholder that gets no response: only its failure touches it. */
  function StillWaiting(m: Entry, run: seq<Event>): Entry {
    if SendFailed(m.id) in run then m.(status := Some(Failed)) else m
  }

  predicate NoResponse(run: seq<Event>, temp: string) {
    forall i :: 0 <= i < |run| ==> !(run[i].Responded? && run[i].temp == temp)
  }

  lemma PlaceholderStep(list: seq<Entry>, e: Event, m: Entry)
    requires Distinct(list) && Enabled(list, e) && m in list && IsTemp(m.id)
    requires !(e.Responded? && e.temp == m.id)
    ensures StillWaiting(m, [e]) in Next(list, e)
  {
    var i :| 0 <= i < |list| && list[i] == m;
    assert WellNamed(list[i]);
    match e {
      case Responded(temp, messageId) =>
        if Carried(list, messageId) {
          WithoutKeepsOthers(list, temp, m);
        } else {
          assert Next(list, e)[i] == m;
        }
      case SendFailed(temp) => assert Next(list, e)[i] == MarkedFailed(m, temp);
      case _ => assert Next(list, e)[i] == m;
    }
  }

  /** Until its response, a placeholder stays pending, or failed once its send has failed, whatever else happens. */
  lemma {:induction false} PlaceholderWaits(list: seq<Entry>, run: seq<Event>, final: seq<Entry>, m: Entry)
    requires Distinct(list) && Run(list, run, final) && m in list && IsTemp(m.id) && NoResponse(run, m.id)
    ensures StillWaiting(m, run) in final
    decreases |run|
  {
    if run != [] {
      var n := StillWaiting(m, [run[0]]);
      PlaceholderStep(list, run[0], m);
      NextKeepsDistinct(list, run[0]);
      PlaceholderWaits(Next(list, run[0]), run[1..], final, n);
      assert run == [run[0]] + run[1..];
      assert StillWaiting(n, run[1..]) == StillWaiting(m, run);
    }
  }
}

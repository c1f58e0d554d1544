/**
 Registry upkeep of the hook bus (src/core/hooks/hook-manager.service.ts, lines 19-84).

 Each event's list is kept sorted by priority with a stable sort. `serial` is a model-only field, the
 order in which registrations were made. A hook id is made of plugin, event and the millisecond, so
 two registrations may carry the same id.
 */
module HookRegistry {
  datatype HookEvent =
    | SessionCreated | SessionStarting | SessionReady | SessionQr | SessionDisconnected | SessionError | SessionDeleted
    | MessageReceived | MessageSending | MessageSent | MessageFailed | MessageAck
    | WebhookBefore | WebhookQueued | WebhookDelivered | WebhookAfter | WebhookError

  type PluginId = nat    // ids are only compared

  datatype HookId = HookId(plugin: PluginId, event: HookEvent, millis: int)

  datatype Registration = Registration(
    id: HookId, pluginId: PluginId, event: HookEvent, handler: nat, priority: int, serial: nat)

  type Chain = seq<Registration>

  datatype Registry = Registry(hooks: map<HookEvent, Chain>, pluginHooks: map<PluginId, set<HookId>>, registered: nat)

  // ----- Stable sorting -----

  /** Put `r` behind every entry of at most its priority. */
  function Insert(s: Chain, r: Registration): Chain {
    if s == [] || s[|s| - 1].priority <= r.priority then s + [r]
    else Insert(s[..|s| - 1], r) + [s[|s| - 1]]
  }

  /** Array.prototype.sort by priority, which is stable. */
  function StableSort(s: Chain): Chain {
    if s == [] then [] else Insert(StableSort(s[..|s| - 1]), s[|s| - 1])
  }

  predicate SortedByPriority(s: Chain) {
    forall i, j :: 0 <= i < j < |s| ==> s[i].priority <= s[j].priority
  }

  function WithPriority(s: Chain, p: int): Chain {
    if s == [] then []
    else WithPriority(s[..|s| - 1], p) + (if s[|s| - 1].priority == p then [s[|s| - 1]] else [])
  }

  function Only(x: Registration, p: int): Chain {
    if x.priority == p then [x] else []
  }

  lemma WithPrioritySnoc(s: Chain, x: Registration, p: int)
    ensures WithPriority(s + [x], p) == WithPriority(s, p) + Only(x, p)
  {
    assert (s + [x])[..|s|] == s;
  }

  lemma {:induction false} InsertIsStable(s: Chain, r: Registration, p: int)
    requires SortedByPriority(s)
    ensures WithPriority(Insert(s, r), p) == WithPriority(s, p) + Only(r, p)
    decreases |s|
  {
    if s == [] || s[|s| - 1].priority <= r.priority {
      WithPrioritySnoc(s, r, p);
    } else {
      var front, last := s[..|s| - 1], s[|s| - 1];
      InsertIsStable(front, r, p);
      WithPrioritySnoc(Insert(front, r), last, p);
    }
  }

  lemma {:induction false} InsertSorts(s: Chain, r: Registration)
    requires SortedByPriority(s)
    ensures SortedByPriority(Insert(s, r))
    decreases |s|
  {
    if s != [] && s[|s| - 1].priority > r.priority {
      var front := s[..|s| - 1];
      InsertSorts(front, r);
      InsertMembers(front, r);
      forall x | x in Insert(front, r) ensures x.priority <= s[|s| - 1].priority {
      }
    }
  }

  lemma {:induction false} InsertMembers(s: Chain, r: Registration)
    ensures forall x :: x in Insert(s, r) <==> x in s || x == r
    decreases |s|
  {
    if s != [] && s[|s| - 1].priority > r.priority {
      InsertMembers(s[..|s| - 1], r);
      assert s == s[..|s| - 1] + [s[|s| - 1]];
    }
  }

  /** The sort orders by priority and keeps the order of equals: the two facts that define its result. */
  lemma {:induction false} StableSortIsStable(s: Chain, p: int)
    ensures SortedByPriority(StableSort(s))
    ensures WithPriority(StableSort(s), p) == WithPriority(s, p)
    decreases |s|
  {
    if s != [] {
      StableSortIsStable(s[..|s| - 1], p);
      InsertIsStable(StableSort(s[..|s| - 1]), s[|s| - 1], p);
      InsertSorts(StableSort(s[..|s| - 1]), s[|s| - 1]);
    }
  }

  lemma {:induction false} WithPriorityMembers(s: Chain, p: int, x: Registration)
    ensures x in WithPriority(s, p) <==> x in s && x.priority == p
    decreases |s|
  {
    if s != [] {
      WithPriorityMembers(s[..|s| - 1], p, x);
      assert s == s[..|s| - 1] + [s[|s| - 1]];
    }
  }

  lemma LastTie(fa: Chain, x: Registration, fb: Chain, y: Registration)
    requires x.priority == y.priority
    requires WithPriority(fa + [x], x.priority) == WithPriority(fb + [y], x.priority)
    ensures x == y
  {
    WithPrioritySnoc(fa, x, x.priority);
    WithPrioritySnoc(fb, y, x.priority);
    var wa, wb := WithPriority(fa, x.priority) + [x], WithPriority(fb, x.priority) + [y];
    assert wa[|wa| - 1] == wb[|wb| - 1];
  }

  lemma CancelTail(u: Chain, v: Chain, w: Chain)
    requires u + w == v + w
    ensures u == v
  {
    assert |u + w| == |v + w|;
    assert u == (u + w)[..|u|] == (v + w)[..|v|] == v;
  }

  lemma EarlierTies(fa: Chain, fb: Chain, x: Registration)
    requires forall p :: WithPriority(fa + [x], p) == WithPriority(fb + [x], p)
    ensures forall p :: WithPriority(fa, p) == WithPriority(fb, p)
  {
    forall p ensures WithPriority(fa, p) == WithPriority(fb, p) {
      WithPrioritySnoc(fa, x, p);
      WithPrioritySnoc(fb, x, p);
      CancelTail(WithPriority(fa, p), WithPriority(fb, p), Only(x, p));
    }
  }

  /** The last entry of a sorted list has the greatest priority that still has entries. */
  lemma LastPriority(fa: Chain, x: Registration, b: Chain)
    requires SortedByPriority(b) && WithPriority(fa + [x], x.priority) == WithPriority(b, x.priority)
    ensures b != [] && x.priority <= b[|b| - 1].priority
  {
    WithPriorityMembers(fa + [x], x.priority, x);
    WithPriorityMembers(b, x.priority, x);
  }

  predicate FrontSorted(s: Chain, x: Registration) {
    SortedByPriority(s) && SortedByPriority(s + [x])
  }

  ghost predicate SameTies(a: Chain, b: Chain) {
    forall p :: WithPriority(a, p) == WithPriority(b, p)
  }

  lemma SameLast(fa: Chain, x: Registration, fb: Chain, y: Registration)
    requires FrontSorted(fa, x) && FrontSorted(fb, y) && SameTies(fa + [x], fb + [y])
    ensures x == y && SameTies(fa, fb)
  {
    assert WithPriority(fa + [x], x.priority) == WithPriority(fb + [y], x.priority);
    assert WithPriority(fa + [x], y.priority) == WithPriority(fb + [y], y.priority);
    LastPriority(fa, x, fb + [y]);
    LastPriority(fb, y, fa + [x]);
    LastTie(fa, x, fb, y);
    EarlierTies(fa, fb, x);
  }

  /** A sorted list is determined by its ties, so `StableSort` is the only stable sort. */
  lemma {:induction false} StableSortIsUnique(a: Chain, b: Chain)
    requires SortedByPriority(a) && SortedByPriority(b) && SameTies(a, b)
    ensures a == b
    decreases |a|
  {
    if a == [] || b == [] {
      if a == [] {
        EmptyTies(a, b);
      } else {
        EmptyTies(b, a);
      }
    } else {
      var fa, x, fb, y := a[..|a| - 1], a[|a| - 1], b[..|b| - 1], b[|b| - 1];
      assert a == fa + [x] && b == fb + [y];
      SameLast(fa, x, fb, y);
      StableSortIsUnique(fa, fb);
    }
  }

  lemma EmptyTies(a: Chain, b: Chain)
    requires SameTies(a, b) && a == []
    ensures b == []
  {
    if b != [] {
      assert WithPriority(a, b[0].priority) == WithPriority(b, b[0].priority);
      WithPriorityMembers(b, b[0].priority, b[0]);
    }
  }

  // ----- Operations -----

  function ChainOf(r: Registry, e: HookEvent): Chain {
    if e in r.hooks then r.hooks[e] else []
  }

  function TrackedIn(m: map<PluginId, set<HookId>>, p: PluginId): set<HookId> {
    if p in m then m[p] else {}
  }

  function NewRegistration(r: Registry, p: PluginId, e: HookEvent, handler: nat, priority: int, now: int)
    : Registration
  {
    Registration(HookId(p, e, now), p, e, handler, priority, r.registered)
  }

  function Register(r: Registry, p: PluginId, e: HookEvent, handler: nat, priority: int, now: int): Registry {
    var reg := NewRegistration(r, p, e, handler, priority, now);
    Registry(r.hooks[e := StableSort(ChainOf(r, e) + [reg])],
             r.pluginHooks[p := TrackedIn(r.pluginHooks, p) + {reg.id}], r.registered + 1)
  }

  function IndexOf(s: Chain, id: HookId): (i: nat)
    ensures i <= |s| && (forall j :: 0 <= j < i ==> s[j].id != id) && (i < |s| ==> s[i].id == id)
    decreases |s|
  {
    if s == [] || s[0].id == id then 0 else 1 + IndexOf(s[1..], id)
  }

  /** An id names its event, so only that event's list can hold it. */
  function Unregister(r: Registry, id: HookId): Registry {
    var s := ChainOf(r, id.event);
    var i := IndexOf(s, id);
    if i == |s| then r
    else
      var p := s[i].pluginId;
      Registry(r.hooks[id.event := s[..i] + s[i + 1..]],
               if p in r.pluginHooks then r.pluginHooks[p := r.pluginHooks[p] - {id}] else r.pluginHooks, r.registered)
  }

  function Without(s: Chain, p: PluginId): Chain
    decreases |s|
  {
    if s == [] then []
    else Without(s[..|s| - 1], p) + (if s[|s| - 1].pluginId != p then [s[|s| - 1]] else [])
  }

  function UnregisterPlugin(r: Registry, p: PluginId): Registry {
    if p !in r.pluginHooks then r
    else Registry(map e | e in r.hooks :: Without(r.hooks[e], p), r.pluginHooks - {p}, r.registered)
  }

  // ----- Invariant -----

  /** Sorted by priority, ties in registration order. */
  predicate InOrder(s: Chain) {
    forall i, j :: 0 <= i < j < |s| ==> Before(s[i], s[j])
  }

  predicate Inv(r: Registry) {
    forall e :: e in r.hooks ==> ChainOk(r, e, r.hooks[e])
  }

  predicate ChainOk(r: Registry, e: HookEvent, s: Chain) {
    && InOrder(s)
    && forall x :: x in s ==> Known(r, e, x)
  }

  predicate Known(r: Registry, e: HookEvent, x: Registration) {
    && x.event == e && x.id.event == e && x.id.plugin == x.pluginId
    && x.serial < r.registered && x.pluginId in r.pluginHooks
  }

  lemma {:induction false} SortOfSorted(s: Chain)
    requires SortedByPriority(s)
    ensures StableSort(s) == s
    decreases |s|
  {
    if s != [] {
      var front, last := s[..|s| - 1], s[|s| - 1];
      SortOfSorted(front);
      assert StableSort(s) == Insert(front, last) == front + [last];
    }
  }

  predicate Before(x: Registration, y: Registration) {
    x.priority < y.priority || (x.priority == y.priority && x.serial < y.serial)
  }

  lemma {:induction false} InsertKeepsOrder(s: Chain, r: Registration)
    requires InOrder(s) && forall x :: x in s ==> x.serial < r.serial
    ensures InOrder(Insert(s, r))
    decreases |s|
  {
    if s == [] {
    } else if s[|s| - 1].priority > r.priority {
      var front := s[..|s| - 1];
      InsertKeepsOrder(front, r);
      InsertMembers(front, r);
      SnocKeepsOrder(Insert(front, r), s[|s| - 1]);
    } else {
      SnocKeepsOrder(s, r);
    }
  }

  lemma SnocKeepsOrder(s: Chain, x: Registration)
    requires InOrder(s) && forall y :: y in s ==> Before(y, x)
    ensures InOrder(s + [x])
  {
  }

  lemma {:induction false} WithoutKeepsOrder(s: Chain, p: PluginId)
    requires InOrder(s)
    ensures InOrder(Without(s, p))
    ensures forall x :: x in Without(s, p) <==> x in s && x.pluginId != p
    decreases |s|
  {
    if s != [] {
      WithoutKeepsOrder(s[..|s| - 1], p);
      assert s == s[..|s| - 1] + [s[|s| - 1]];
    }
  }

  lemma PushAndSort(s: Chain, reg: Registration)
    requires InOrder(s) && forall x :: x in s ==> x.serial < reg.serial
    ensures InOrder(StableSort(s + [reg]))
    ensures forall x :: x in StableSort(s + [reg]) <==> x in s || x == reg
  {
    SortOfSorted(s);
    assert (s + [reg])[..|s|] == s;
    InsertKeepsOrder(s, reg);
    InsertMembers(s, reg);
  }

  /** Registering adds exactly the new registration, behind everything of at most its priority. */
  lemma RegisterAddsInOrder(r: Registry, p: PluginId, e: HookEvent, handler: nat, priority: int, now: int)
    requires Inv(r)
    ensures var f, reg := Register(r, p, e, handler, priority, now), NewRegistration(r, p, e, handler, priority, now);
      && Inv(f)
      && reg == Registration(HookId(p, e, now), p, e, handler, priority, r.registered)
      && (forall x :: x in ChainOf(f, e) <==> x in ChainOf(r, e) || x == reg)
      && (forall d :: d != e ==> ChainOf(f, d) == ChainOf(r, d))
  {
    var s, reg := ChainOf(r, e), NewRegistration(r, p, e, handler, priority, now);
    var f := Register(r, p, e, handler, priority, now);
    assert forall x :: x in s ==> Known(r, e, x);
    PushAndSort(s, reg);
    forall d | d in f.hooks ensures ChainOk(f, d, f.hooks[d]) {
      if d != e {
        assert ChainOk(r, d, r.hooks[d]);
      }
      forall x | x in f.hooks[d] ensures Known(f, d, x) {
        assert x == reg || Known(r, d, x);
      }
    }
  }

  /** A plugin's ids are tracked: registering adds the new one, unregistering drops the one it removed. */
  lemma IdsAreTracked(r: Registry, p: PluginId, e: HookEvent, handler: nat, priority: int, now: int, id: HookId)
    ensures var f := Register(r, p, e, handler, priority, now);
      && f.registered == r.registered + 1 && p in f.pluginHooks
      && f.pluginHooks[p] == (if p in r.pluginHooks then r.pluginHooks[p] else {}) + {HookId(p, e, now)}
      && forall q :: q != p ==> (q in f.pluginHooks <==> q in r.pluginHooks)
                                && (q in r.pluginHooks ==> f.pluginHooks[q] == r.pluginHooks[q])
    ensures var f, s := Unregister(r, id), ChainOf(r, id.event);
      var i := IndexOf(s, id);
      && f.registered == r.registered && f.pluginHooks.Keys == r.pluginHooks.Keys
      && forall q :: q in r.pluginHooks ==>
           f.pluginHooks[q] == if i < |s| && s[i].pluginId == q then r.pluginHooks[q] - {id} else r.pluginHooks[q]
  {
  }

  /** Unregistering removes the first registration with that id and nothing else. */
  lemma UnregisterRemovesOne(r: Registry, id: HookId)
    requires Inv(r)
    ensures var f := Unregister(r, id);
      && Inv(f)
      && (forall e :: e != id.event ==> ChainOf(f, e) == ChainOf(r, e))
      && var s, i := ChainOf(r, id.event), IndexOf(ChainOf(r, id.event), id);
         ChainOf(f, id.event) == if i < |s| then s[..i] + s[i + 1..] else s
  {
    var f := Unregister(r, id);
    forall d | d in f.hooks ensures ChainOk(f, d, f.hooks[d]) {
      assert ChainOk(r, d, r.hooks[d]);
      forall x | x in f.hooks[d] ensures Known(f, d, x) {
        assert x in r.hooks[d];
        assert Known(r, d, x);
      }
    }
  }

  ghost predicate OnlyOthers(after: Chain, before: Chain, p: PluginId) {
    forall x :: x in after <==> x in before && x.pluginId != p
  }

  /** After unregisterPlugin nothing of the plugin is left, whatever its ids; the rest keeps its place. */
  lemma UnregisterPluginLeavesNothing(r: Registry, p: PluginId)
    requires Inv(r)
    ensures Inv(UnregisterPlugin(r, p))
    ensures forall e :: OnlyOthers(ChainOf(UnregisterPlugin(r, p), e), ChainOf(r, e), p)
    ensures UnregisterPlugin(r, p).pluginHooks == r.pluginHooks - {p}
  {
    var f := UnregisterPlugin(r, p);
    forall e | e in r.hooks
      ensures InOrder(Without(r.hooks[e], p))
      ensures forall x :: x in Without(r.hooks[e], p) <==> x in r.hooks[e] && x.pluginId != p
      ensures forall x :: x in r.hooks[e] ==> Known(r, e, x)
    {
      assert ChainOk(r, e, r.hooks[e]);
      WithoutKeepsOrder(r.hooks[e], p);
    }
    forall d | d in f.hooks ensures ChainOk(f, d, f.hooks[d]) {
      assert ChainOk(r, d, r.hooks[d]);
      forall x | x in f.hooks[d] ensures Known(f, d, x) {
        assert Known(r, d, x);
      }
    }
    forall e ensures OnlyOthers(ChainOf(f, e), ChainOf(r, e), p) {
      if e in r.hooks && p !in r.pluginHooks {
        forall x | x in r.hooks[e] ensures x.pluginId != p {
          assert Known(r, e, x);
        }
      }
    }
  }

  ghost predicate IdsMatchEvents(r: Registry) {
    forall e, x :: e in r.hooks && x in r.hooks[e] ==> x.id.event == e
  }

  lemma IdsNameEvents(r: Registry)
    requires Inv(r)
    ensures IdsMatchEvents(r)
  {
    forall e, x | e in r.hooks && x in r.hooks[e] ensures x.id.event == e {
      assert ChainOk(r, e, r.hooks[e]) && Known(r, e, x);
    }
  }

  // ----- Any sequence of operations -----

  datatype Op =
    | DoRegister(plugin: PluginId, event: HookEvent, handler: nat, priority: int, now: int)
    | DoUnregister(id: HookId)
    | DoUnregisterPlugin(plugin: PluginId)

  function Apply(r: Registry, op: Op): Registry {
    match op
    case DoRegister(p, e, h, priority, now) => Register(r, p, e, h, priority, now)
    case DoUnregister(id) => Unregister(r, id)
    case DoUnregisterPlugin(p) => UnregisterPlugin(r, p)
  }

  function ApplyAll(r: Registry, ops: seq<Op>): Registry {
    if ops == [] then r else Apply(ApplyAll(r, ops[..|ops| - 1]), ops[|ops| - 1])
  }

  lemma ApplyAllStep(r: Registry, ops: seq<Op>, op: Op)
    ensures ApplyAll(r, []) == r && ApplyAll(r, ops + [op]) == Apply(ApplyAll(r, ops), op)
  {
    assert (ops + [op])[..|ops|] == ops;
  }

  /** After any operations every list is in order; if the last was unregisterPlugin(p), no list has p. */
  lemma {:induction false} ListsStayInOrder(ops: seq<Op>)
    ensures var f := ApplyAll(Registry(map[], map[], 0), ops);
      && Inv(f)
      && (ops != [] && ops[|ops| - 1].DoUnregisterPlugin? ==>
            forall e :: OnlyOthers(ChainOf(f, e), ChainOf(f, e), ops[|ops| - 1].plugin))
    decreases |ops|
  {
    if ops != [] {
      ListsStayInOrder(ops[..|ops| - 1]);
      var r := ApplyAll(Registry(map[], map[], 0), ops[..|ops| - 1]);
      match ops[|ops| - 1]
      case DoRegister(p, e, h, priority, now) => RegisterAddsInOrder(r, p, e, h, priority, now);
      case DoUnregister(id) => UnregisterRemovesOne(r, id);
      case DoUnregisterPlugin(p) => UnregisterPluginLeavesNothing(r, p);
    }
  }
}

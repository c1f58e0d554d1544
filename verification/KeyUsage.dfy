/**
 Usage accounting of API keys (src/modules/auth/auth.service.ts).

 `validateApiKey` reads the key's row, counts the call on its own copy plus the in-memory accumulator,
 and at most once per window writes the whole copy back. Reads and writes are database round trips, so
 calls interleave there; a call's snapshot may be stale when it resumes and when it is written.
 */
module KeyUsage {
  import opened Support

  const STAT_FLUSH_INTERVAL_MS: int := 60000

  type KeyId = nat    // ids are only compared

  datatype KeyRow = KeyRow(usageCount: nat, lastUsedAt: Option<int>, isActive: bool)

  datatype Task = Validate | Update | Revoke | Delete

  datatype Call =
    | Holding(task: Task, key: KeyId, row: KeyRow)   // findOne has answered
    | Saving(key: KeyId, row: KeyRow, carried: nat)  // save has been issued; carried: the increments it flushes
    | Removing(key: KeyId)                           // remove has been issued

  datatype System = System(
    db: map<KeyId, KeyRow>,
    pendingUsage: map<KeyId, nat>,
    calls: map<nat, Call>,
    accepted: map<KeyId, nat>     // history: validations accepted per key
  )

  datatype Event =
    | Read(call: nat, task: Task, key: KeyId)
    | Resume(call: nat, now: int, admitted: bool)
    | Write(call: nat)
    | Create(key: KeyId)
    | Restart

  function Count(m: map<KeyId, nat>, k: KeyId): nat {
    if k in m then m[k] else 0
  }

  /** No call on `k` is in flight. */
  predicate Unused(sys: System, k: KeyId) {
    forall c :: c in sys.calls ==> sys.calls[c].key != k
  }

  predicate Due(last: Option<int>, now: int) {
    last.None? || now - last.value >= STAT_FLUSH_INTERVAL_MS
  }

  predicate Enabled(sys: System, e: Event) {
    match e
    case Read(c, _, k) => c !in sys.calls && k in sys.db
    case Resume(c, _, _) => c in sys.calls && sys.calls[c].Holding?
    case Write(c) => c in sys.calls && !sys.calls[c].Holding?
    case Create(k) => k !in sys.db && Count(sys.accepted, k) == 0 && Unused(sys, k)
    case Restart => true
  }

  /** The await-free middle of validateApiKey, once the row is in hand. */
  function Tally(sys: System, c: nat, k: KeyId, row: KeyRow, now: int): System {
    var pending := Count(sys.pendingUsage, k) + 1;
    var counted := row.(usageCount := row.usageCount + pending, lastUsedAt := Some(now));
    var sys := sys.(accepted := sys.accepted[k := Count(sys.accepted, k) + 1]);
    if Due(row.lastUsedAt, now) then
      sys.(pendingUsage := sys.pendingUsage - {k}, calls := sys.calls[c := Saving(k, counted, pending)])
    else
      sys.(pendingUsage := sys.pendingUsage[k := pending], calls := sys.calls - {c})
  }

  function Next(sys: System, e: Event): System
    requires Enabled(sys, e)
  {
    match e
    case Read(c, task, k) => sys.(calls := sys.calls[c := Holding(task, k, sys.db[k])])
    case Resume(c, now, admitted) =>
      var Holding(task, k, row) := sys.calls[c];
      (match task
       case Validate =>
         if row.isActive && admitted then Tally(sys, c, k, row, now) else sys.(calls := sys.calls - {c})
       case Update => sys.(calls := sys.calls[c := Saving(k, row, 0)])
       case Revoke =>
         sys.(pendingUsage := sys.pendingUsage - {k}, calls := sys.calls[c := Saving(k, row.(isActive := false), 0)])
       case Delete => sys.(pendingUsage := sys.pendingUsage - {k}, calls := sys.calls[c := Removing(k)]))
    case Write(c) =>
      var sys1 := sys.(calls := sys.calls - {c});
      if sys.calls[c].Saving? then sys1.(db := sys.db[sys.calls[c].key := sys.calls[c].row])
      else sys1.(db := sys.db - {sys.calls[c].key})
    case Create(k) => sys.(db := sys.db[k := KeyRow(0, None, true)])
    case Restart => sys.(pendingUsage := map[], calls := map[])
  }

  predicate Valid(sys: System, run: seq<Event>)
    decreases |run|
  {
    run == [] || (Enabled(sys, run[0]) && Valid(Next(sys, run[0]), run[1..]))
  }

  function Run(sys: System, run: seq<Event>): System
    requires Valid(sys, run)
    decreases |run|
  {
    if run == [] then sys else Run(Next(sys, run[0]), run[1..])
  }

  lemma UnfoldRun(sys: System, e: Event, run: seq<Event>)
    requires Enabled(sys, e) && Valid(Next(sys, e), run)
    ensures Valid(sys, [e] + run) && Run(sys, [e] + run) == Run(Next(sys, e), run)
  {
    assert ([e] + run)[1..] == run;
  }

  /** A new key starts active, unused and without a stamp; a restart forgets only what is in memory. */
  lemma CreateAndRestart(sys: System, k: KeyId)
    ensures Enabled(sys, Restart) && Next(sys, Restart).db == sys.db
    ensures Next(sys, Restart).pendingUsage == map[] && Next(sys, Restart).calls == map[]
    ensures k !in sys.db && Count(sys.accepted, k) == 0 && Unused(sys, k) ==>
      Enabled(sys, Create(k)) && Next(sys, Create(k)) == sys.(db := sys.db[k := KeyRow(0, None, true)])
  {
  }

  // ----- Never over-counted -----

  /** The stored, the held and the in-flight counts of `k`, each plus the accumulator, stay within `accepted`. */
  predicate Bounded(sys: System, k: KeyId) {
    && (k in sys.db ==> sys.db[k].usageCount + Count(sys.pendingUsage, k) <= Count(sys.accepted, k))
    && (forall c :: c in sys.calls && sys.calls[c].key == k && !sys.calls[c].Removing? ==>
          sys.calls[c].row.usageCount + Count(sys.pendingUsage, k) <= Count(sys.accepted, k))
    && Count(sys.pendingUsage, k) <= Count(sys.accepted, k)
  }

  lemma NextKeepsBounded(sys: System, e: Event, k: KeyId)
    requires Bounded(sys, k) && Enabled(sys, e)
    ensures Bounded(Next(sys, e), k)
  {
    if e.Resume? {
      ResumeKeepsBounded(sys, e, k);
    }
  }

  lemma ResumeKeepsBounded(sys: System, e: Event, k: KeyId)
    requires Bounded(sys, k) && Enabled(sys, e) && e.Resume?
    ensures Bounded(Next(sys, e), k)
  {
    var call := sys.calls[e.call];
    if call.task.Validate? && call.row.isActive && e.admitted {
      TallyKeepsBounded(sys, e.call, call.key, call.row, e.now, k);
    }
  }

  lemma TallyKeepsBounded(sys: System, c: nat, j: KeyId, row: KeyRow, now: int, k: KeyId)
    requires Bounded(sys, k) && c in sys.calls && sys.calls[c].key == j
    requires j == k ==> row.usageCount + Count(sys.pendingUsage, k) <= Count(sys.accepted, k)
    ensures Bounded(Tally(sys, c, j, row, now), k)
  {
  }

  /** Main bound: in every interleaving of validations, updates, revocations, deletions and restarts. */
  lemma {:induction false} UsageIsNeverOvercounted(sys: System, run: seq<Event>, k: KeyId)
    requires Bounded(sys, k) && Valid(sys, run)
    ensures Bounded(Run(sys, run), k)
    decreases |run|
  {
    if run != [] {
      NextKeepsBounded(sys, run[0], k);
      UsageIsNeverOvercounted(Next(sys, run[0]), run[1..], k);
    }
  }

  // ----- Exact when serialised -----

  datatype Request = Request(key: KeyId, now: int, admitted: bool)

  /** Database and accumulator, with the history of accepted calls and of the stamps of usage writes. */
  datatype Ledger = Ledger(
    db: map<KeyId, KeyRow>, pendingUsage: map<KeyId, nat>,
    accepted: map<KeyId, nat>, writes: map<KeyId, seq<int>>
  )

  function WritesOf(l: Ledger, k: KeyId): seq<int> {
    if k in l.writes then l.writes[k] else []
  }

  /** One whole validateApiKey call; None is the UnauthorizedException. */
  function Serve(l: Ledger, q: Request): (Ledger, Option<KeyRow>) {
    if q.key !in l.db || !l.db[q.key].isActive || !q.admitted then (l, None)
    else
      var row := l.db[q.key];
      var pending := Count(l.pendingUsage, q.key) + 1;
      var counted := row.(usageCount := row.usageCount + pending, lastUsedAt := Some(q.now));
      var l := l.(accepted := l.accepted[q.key := Count(l.accepted, q.key) + 1]);
      if Due(row.lastUsedAt, q.now) then
        (l.(db := l.db[q.key := counted], pendingUsage := l.pendingUsage - {q.key},
            writes := l.writes[q.key := WritesOf(l, q.key) + [q.now]]), Some(counted))
      else (l.(pendingUsage := l.pendingUsage[q.key := pending]), Some(counted))
  }

  function ServeAll(l: Ledger, qs: seq<Request>): Ledger
    decreases |qs|
  {
    if qs == [] then l else ServeAll(Serve(l, qs[0]).0, qs[1..])
  }

  /** How many of the requests are for `k` and pass the checks. */
  function Admitted(qs: seq<Request>, k: KeyId): nat {
    if qs == [] then 0
    else (if qs[|qs| - 1].key == k && qs[|qs| - 1].admitted then 1 else 0) + Admitted(qs[..|qs| - 1], k)
  }

  lemma {:induction false} AdmittedFirst(qs: seq<Request>, k: KeyId)
    requires qs != []
    ensures Admitted(qs, k) == (if qs[0].key == k && qs[0].admitted then 1 else 0) + Admitted(qs[1..], k)
  {
    var n := |qs| - 1;
    if n > 0 {
      assert qs[1..][..n - 1] == qs[..n][1..];
      AdmittedFirst(qs[..n], k);
    }
  }

  predicate Exact(l: Ledger, k: KeyId) {
    k in l.db ==> l.db[k].usageCount + Count(l.pendingUsage, k) == Count(l.accepted, k)
  }

  /** Usage writes of `k` are a window apart, and the row carries the stamp of the last one. */
  predicate Spaced(l: Ledger, k: KeyId) {
    var w := WritesOf(l, k);
    && (forall i :: 0 < i < |w| ==> w[i] - w[i - 1] >= STAT_FLUSH_INTERVAL_MS)
    && (w != [] ==> k in l.db && l.db[k].lastUsedAt == Some(w[|w| - 1]))
  }

  /** Serialised calls lose nothing and write at most once per window; each answer carries the true count. */
  lemma {:induction false} SerialisedUsageIsExact(l: Ledger, qs: seq<Request>, k: KeyId)
    requires Exact(l, k) && Spaced(l, k)
    ensures var f := ServeAll(l, qs); Exact(f, k) && Spaced(f, k)
    ensures qs != [] && qs[0].key == k && Serve(l, qs[0]).1.Some? ==>
      Serve(l, qs[0]).1.value.usageCount == Count(l.accepted, k) + 1
    decreases |qs|
  {
    if qs != [] {
      SerialisedUsageIsExact(Serve(l, qs[0]).0, qs[1..], k);
    }
  }

  /**
   When a call writes: an accepted one exactly if the row has no stamp or one at least 60000 ms old. It then
   stores the full count and its own stamp and empties the accumulator; otherwise the row stays as it is and
   the accumulator takes the increment. A refused call leaves everything as it is.
   */
  lemma CallWritesExactlyWhenDue(l: Ledger, q: Request)
    ensures var (f, answer) := Serve(l, q);
      && (answer.Some? <==> q.key in l.db && l.db[q.key].isActive && q.admitted)
      && (answer.None? ==> f == l)
      && (answer.Some? ==>
            var row, p := l.db[q.key], Count(l.pendingUsage, q.key);
            var due := row.lastUsedAt.None? || q.now - row.lastUsedAt.value >= 60000;
            && answer.value == row.(usageCount := row.usageCount + p + 1, lastUsedAt := Some(q.now))
            && f.db == (if due then l.db[q.key := answer.value] else l.db)
            && Count(f.pendingUsage, q.key) == (if due then 0 else p + 1)
            && WritesOf(f, q.key) == (if due then WritesOf(l, q.key) + [q.now] else WritesOf(l, q.key))
            && Count(f.accepted, q.key) == Count(l.accepted, q.key) + 1)
      && (forall k :: k != q.key ==>
            Count(f.pendingUsage, k) == Count(l.pendingUsage, k) && Count(f.accepted, k) == Count(l.accepted, k))
  {
  }

  /** The same for a validation that resumes among others: what it sends, and when it sends nothing. */
  lemma ResumeWritesExactlyWhenDue(sys: System, c: nat, now: int, admitted: bool)
    requires Enabled(sys, Resume(c, now, admitted)) && sys.calls[c].task == Validate
    ensures var f, k, row := Next(sys, Resume(c, now, admitted)), sys.calls[c].key, sys.calls[c].row;
      var p := Count(sys.pendingUsage, k);
      var due := row.lastUsedAt.None? || now - row.lastUsedAt.value >= 60000;
      && f.db == sys.db
      && (if !row.isActive || !admitted then
            f.calls == sys.calls - {c} && f.pendingUsage == sys.pendingUsage && f.accepted == sys.accepted
          else
            && Count(f.accepted, k) == Count(sys.accepted, k) + 1
            && Count(f.pendingUsage, k) == (if due then 0 else p + 1)
            && f.calls
               == if due then
                 sys.calls[c := Saving(k, row.(usageCount := row.usageCount + p + 1, lastUsedAt := Some(now)), p + 1)]
               else sys.calls - {c})
  {
  }

  /** A read takes the row as stored, and a write puts the whole row back, or removes it. */
  lemma ReadsAndWritesAreWholeRows(sys: System, e: Event)
    requires Enabled(sys, e) && (e.Read? || e.Write?)
    ensures var f := Next(sys, e);
      && f.pendingUsage == sys.pendingUsage && f.accepted == sys.accepted
      && (e.Read? ==> f.db == sys.db && f.calls == sys.calls[e.call := Holding(e.task, e.key, sys.db[e.key])])
      && (e.Write? ==>
            var call := sys.calls[e.call];
            && f.calls == sys.calls - {e.call}
            && f.db == (if call.Saving? then sys.db[call.key := call.row] else sys.db - {call.key}))
  {
  }

  /** An update writes the row it read, a revocation the same row inactive; both a revocation and a deletion
      drop the increments that were pending. */
  lemma OtherTasksResume(sys: System, c: nat, now: int, admitted: bool)
    requires Enabled(sys, Resume(c, now, admitted)) && sys.calls[c].task != Validate
    ensures var f, k, row := Next(sys, Resume(c, now, admitted)), sys.calls[c].key, sys.calls[c].row;
      && f.db == sys.db && f.accepted == sys.accepted
      && (match sys.calls[c].task
          case Update => f.calls == sys.calls[c := Saving(k, row, 0)] && f.pendingUsage == sys.pendingUsage
          case Revoke =>
            f.calls == sys.calls[c := Saving(k, row.(isActive := false), 0)] && Count(f.pendingUsage, k) == 0
          case Delete => f.calls == sys.calls[c := Removing(k)] && Count(f.pendingUsage, k) == 0)
  {
  }

  /** Serialised calls on an active key are accepted exactly when they pass the checks, each counted once. */
  lemma {:induction false} EveryAdmittedCallCounts(l: Ledger, qs: seq<Request>, k: KeyId)
    requires Exact(l, k) && k in l.db && l.db[k].isActive
    ensures var f := ServeAll(l, qs);
      && k in f.db && f.db[k].isActive
      && f.db[k].usageCount + Count(f.pendingUsage, k) == Count(l.accepted, k) + Admitted(qs, k)
    decreases |qs|
  {
    if qs != [] {
      AdmittedFirst(qs, k);
      EveryAdmittedCallCounts(Serve(l, qs[0]).0, qs[1..], k);
    }
  }

  function WriteIfSaving(sys: System, c: nat): System {
    if Enabled(sys, Write(c)) then Next(sys, Write(c)) else sys
  }

  /** A served request is the interleaved run Read, Resume, Write with nothing in between. */
  lemma ServeIsAnUninterruptedRun(sys: System, l: Ledger, q: Request, c: nat)
    requires l.db == sys.db && l.pendingUsage == sys.pendingUsage && l.accepted == sys.accepted
    requires q.key in sys.db && c !in sys.calls
    ensures var s2 := Next(Next(sys, Read(c, Validate, q.key)), Resume(c, q.now, q.admitted));
      var s3 := WriteIfSaving(s2, c);
      var f := Serve(l, q).0;
      s3.db == f.db && s3.pendingUsage == f.pendingUsage && s3.accepted == f.accepted && s3.calls == sys.calls
  {
    var s1 := Next(sys, Read(c, Validate, q.key));
    assert s1.calls - {c} == sys.calls;
    var s2 := Next(s1, Resume(c, q.now, q.admitted));
    if sys.db[q.key].isActive && q.admitted {
      assert s2 == Tally(s1, c, q.key, sys.db[q.key], q.now);
      assert s2.calls - {c} == sys.calls;
    } else {
      assert s2.calls == sys.calls;
    }
  }

  // ----- Exact in which interleavings -----

  /** What a call saw of the schedule when it read the row of `k`. */
  datatype Mark = Mark(flushes: nat, clean: bool)

  /**
   The schedule of one key's reads and writes: how many flushes have landed, and whether the stored row is
   clean. A row written back is clean when the row its call had read was, and no flush landed in between.
   */
  datatype Schedule = Schedule(flushes: nat, clean: bool, marks: map<nat, Mark>)

  const Undisturbed := Schedule(0, true, map[])

  function Follow(sys: System, w: Schedule, e: Event, k: KeyId): Schedule
    requires Enabled(sys, e)
  {
    match e
    case Read(c, _, j) => if j == k then w.(marks := w.marks[c := Mark(w.flushes, w.clean)]) else w
    case Write(c) =>
      if sys.calls[c].Saving? && sys.calls[c].key == k && c in w.marks then
        var m := w.marks[c];
        w.(flushes := w.flushes + if sys.calls[c].carried > 0 then 1 else 0,
           clean := m.clean && m.flushes == w.flushes)
      else w
    case _ => w
  }

  function FollowAll(sys: System, w: Schedule, run: seq<Event>, k: KeyId): Schedule
    requires Valid(sys, run)
    decreases |run|
  {
    if run == [] then w else FollowAll(Next(sys, run[0]), Follow(sys, w, run[0], k), run[1..], k)
  }

  /** The increments of `k` that the database has been sent, and what had been sent at each call's read. */
  datatype Sent = Sent(landed: nat, atRead: map<nat, nat>)

  function Send(sys: System, n: Sent, e: Event, k: KeyId): Sent
    requires Enabled(sys, e)
  {
    match e
    case Read(c, _, j) => if j == k then n.(atRead := n.atRead[c := n.landed]) else n
    case Write(c) =>
      if sys.calls[c].Saving? && sys.calls[c].key == k then n.(landed := n.landed + sys.calls[c].carried) else n
    case _ => n
  }

  function SendAll(sys: System, n: Sent, run: seq<Event>, k: KeyId): Sent
    requires Valid(sys, run)
    decreases |run|
  {
    if run == [] then n else SendAll(Next(sys, run[0]), Send(sys, n, run[0], k), run[1..], k)
  }

  /** `k` is not deleted. */
  predicate KeepsKey(e: Event, k: KeyId) {
    !(e.Read? && e.key == k && e.task == Delete)
  }

  /** What a call will have put on top of the count it had read. */
  function Base(call: Call): int
    requires !call.Removing?
  {
    if call.Saving? then call.row.usageCount - call.carried else call.row.usageCount
  }

  predicate CallLinked(sys: System, w: Schedule, n: Sent, c: nat)
    requires c in sys.calls
  {
    && c in w.marks && c in n.atRead && !sys.calls[c].Removing?
    && (sys.calls[c].Holding? ==> sys.calls[c].task != Delete)
    && w.marks[c].flushes <= w.flushes && n.atRead[c] <= n.landed
    && (w.marks[c].flushes == w.flushes <==> n.atRead[c] == n.landed)
    && Base(sys.calls[c]) <= n.atRead[c]
    && (Base(sys.calls[c]) == n.atRead[c] <==> w.marks[c].clean)
  }

  predicate Linked(sys: System, w: Schedule, n: Sent, k: KeyId) {
    && k in sys.db && sys.db[k].usageCount <= n.landed
    && (sys.db[k].usageCount == n.landed <==> w.clean)
    && forall c :: c in sys.calls && sys.calls[c].key == k ==> CallLinked(sys, w, n, c)
  }

  lemma NextLinksCall(sys: System, w: Schedule, n: Sent, e: Event, k: KeyId, c: nat)
    requires Linked(sys, w, n, k) && Enabled(sys, e) && KeepsKey(e, k)
    requires c in Next(sys, e).calls && Next(sys, e).calls[c].key == k
    ensures CallLinked(Next(sys, e), Follow(sys, w, e, k), Send(sys, n, e, k), c)
  {
    if c in sys.calls {
      assert CallLinked(sys, w, n, c);
    }
    if e.Resume? {
      ResumeLinksCall(sys, w, n, e, k, c);
    } else if e.Write? && sys.calls[e.call].key == k {
      assert CallLinked(sys, w, n, e.call);
    }
  }

  lemma ResumeLinksCall(sys: System, w: Schedule, n: Sent, e: Event, k: KeyId, c: nat)
    requires Enabled(sys, e) && e.Resume?
    requires c in Next(sys, e).calls && Next(sys, e).calls[c].key == k
    requires c in sys.calls && sys.calls[c].key == k ==> CallLinked(sys, w, n, c)
    ensures CallLinked(Next(sys, e), w, n, c)
  {
  }

  lemma NextLinksRow(sys: System, w: Schedule, n: Sent, e: Event, k: KeyId)
    requires Linked(sys, w, n, k) && Enabled(sys, e) && KeepsKey(e, k)
    ensures var f, w2, n2 := Next(sys, e), Follow(sys, w, e, k), Send(sys, n, e, k);
      k in f.db && f.db[k].usageCount <= n2.landed && (f.db[k].usageCount == n2.landed <==> w2.clean)
  {
    if e.Write? && sys.calls[e.call].key == k {
      assert CallLinked(sys, w, n, e.call);
    }
  }

  lemma NextKeepsLinked(sys: System, w: Schedule, n: Sent, e: Event, k: KeyId)
    requires Linked(sys, w, n, k) && Enabled(sys, e) && KeepsKey(e, k)
    ensures Linked(Next(sys, e), Follow(sys, w, e, k), Send(sys, n, e, k), k)
  {
    NextLinksRow(sys, w, n, e, k);
    forall c | c in Next(sys, e).calls && Next(sys, e).calls[c].key == k
      ensures CallLinked(Next(sys, e), Follow(sys, w, e, k), Send(sys, n, e, k), c)
    {
      NextLinksCall(sys, w, n, e, k, c);
    }
  }

  /**
   In every run that does not delete `k`, restarts included: the stored count is the increments sent to the
   database if and only if the stored row is clean.
   */
  lemma {:induction false} StoredIsSentExactlyWhenClean(sys: System, w: Schedule, n: Sent, run: seq<Event>, k: KeyId)
    requires Linked(sys, w, n, k) && Valid(sys, run)
    requires forall i :: 0 <= i < |run| ==> KeepsKey(run[i], k)
    ensures Linked(Run(sys, run), FollowAll(sys, w, run, k), SendAll(sys, n, run, k), k)
    decreases |run|
  {
    if run != [] {
      NextKeepsLinked(sys, w, n, run[0], k);
      StoredIsSentExactlyWhenClean(Next(sys, run[0]), Follow(sys, w, run[0], k), Send(sys, n, run[0], k), run[1..], k);
    }
  }

  // ----- No accepted call goes missing on the way -----

  function Carries(call: Call, k: KeyId): nat {
    if call.Saving? && call.key == k then call.carried else 0
  }

  /** The increments of `k` in flight. */
  ghost function InTransit(calls: map<nat, Call>, k: KeyId): nat {
    if calls == map[] then 0 else var c :| c in calls; Carries(calls[c], k) + InTransit(calls - {c}, k)
  }

  lemma {:induction false} TakeOut(calls: map<nat, Call>, k: KeyId, c: nat)
    requires c in calls
    ensures InTransit(calls, k) == Carries(calls[c], k) + InTransit(calls - {c}, k)
    decreases |calls|
  {
    var d :| d in calls && InTransit(calls, k) == Carries(calls[d], k) + InTransit(calls - {d}, k);
    if c != d {
      TakeOut(calls - {d}, k, c);
      TakeOut(calls - {c}, k, d);
      assert calls - {d} - {c} == calls - {c} - {d};
    }
  }

  lemma PutIn(calls: map<nat, Call>, k: KeyId, c: nat, call: Call)
    ensures InTransit(calls[c := call], k) == Carries(call, k) + InTransit(calls - {c}, k)
  {
    TakeOut(calls[c := call], k, c);
    assert calls[c := call] - {c} == calls - {c};
  }

  lemma {:induction false} NothingInTransit(calls: map<nat, Call>, k: KeyId)
    requires forall c :: c in calls ==> !(calls[c].Saving? && calls[c].key == k)
    ensures InTransit(calls, k) == 0
    decreases |calls|
  {
    if calls != map[] {
      var c :| c in calls;
      TakeOut(calls, k, c);
      NothingInTransit(calls - {c}, k);
    }
  }

  /** Validations and updates of `k`, no restart; other keys are free. */
  predicate Gentle(e: Event, k: KeyId) {
    !e.Restart? && (e.Read? && e.key == k ==> e.task == Validate || e.task == Update)
  }

  predicate GentleCalls(sys: System, k: KeyId) {
    forall c :: c in sys.calls && sys.calls[c].key == k && sys.calls[c].Holding? ==>
      sys.calls[c].task == Validate || sys.calls[c].task == Update
  }

  /** Every accepted validation of `k` is pending, in flight or sent. */
  ghost predicate Conserved(sys: System, n: Sent, k: KeyId) {
    GentleCalls(sys, k) && Count(sys.accepted, k) == Count(sys.pendingUsage, k) + InTransit(sys.calls, k) + n.landed
  }

  lemma NextKeepsConserved(sys: System, n: Sent, e: Event, k: KeyId)
    requires Conserved(sys, n, k) && Enabled(sys, e) && Gentle(e, k)
    requires e.Write? && sys.calls[e.call].key == k ==> sys.calls[e.call].Saving?
    ensures Conserved(Next(sys, e), Send(sys, n, e, k), k)
  {
    match e
    case Read(c, task, j) =>
      PutIn(sys.calls, k, c, Holding(task, j, sys.db[j]));
      assert sys.calls - {c} == sys.calls;
    case Resume(c, now, admitted) =>
      ResumeKeepsConserved(sys, n, e, k);
    case Write(c) => TakeOut(sys.calls, k, c);
    case Create(_) =>
  }

  /** The call resumed is the only one that changes. */
  lemma ResumeMovesOneCall(sys: System, e: Event)
    requires Enabled(sys, e) && e.Resume?
    ensures var f, c := Next(sys, e).calls, e.call;
      if c in f then f == sys.calls[c := f[c]] else f == sys.calls - {c}
  {
  }

  function CarriesIn(calls: map<nat, Call>, c: nat, k: KeyId): nat {
    if c in calls then Carries(calls[c], k) else 0
  }

  /** What is accepted is pending, or carried by the call that resumed. */
  lemma ResumeCounts(sys: System, e: Event, k: KeyId)
    requires Enabled(sys, e) && e.Resume? && GentleCalls(sys, k)
    ensures var f := Next(sys, e);
      Count(f.accepted, k) + Count(sys.pendingUsage, k)
      == Count(sys.accepted, k) + Count(f.pendingUsage, k) + CarriesIn(f.calls, e.call, k)
  {
  }

  lemma ResumeStaysGentle(sys: System, e: Event, k: KeyId)
    requires Enabled(sys, e) && e.Resume? && GentleCalls(sys, k)
    ensures GentleCalls(Next(sys, e), k)
  {
    ResumeMovesOneCall(sys, e);
  }

  lemma ResumeKeepsConserved(sys: System, n: Sent, e: Event, k: KeyId)
    requires Conserved(sys, n, k) && Enabled(sys, e) && e.Resume?
    ensures Conserved(Next(sys, e), n, k)
  {
    var f, c := Next(sys, e), e.call;
    ResumeMovesOneCall(sys, e);
    ResumeCounts(sys, e, k);
    ResumeStaysGentle(sys, e, k);
    TakeOut(sys.calls, k, c);
    if c in f.calls {
      PutIn(sys.calls, k, c, f.calls[c]);
    }
  }

  lemma {:induction false} RunsKeepConserved(sys: System, w: Schedule, n: Sent, run: seq<Event>, k: KeyId)
    requires Conserved(sys, n, k) && Linked(sys, w, n, k) && Valid(sys, run)
    requires forall i :: 0 <= i < |run| ==> Gentle(run[i], k)
    ensures Conserved(Run(sys, run), SendAll(sys, n, run, k), k)
    decreases |run|
  {
    if run != [] {
      if run[0].Write? && sys.calls[run[0].call].key == k {
        assert CallLinked(sys, w, n, run[0].call);
      }
      NextKeepsConserved(sys, n, run[0], k);
      NextKeepsLinked(sys, w, n, run[0], k);
      RunsKeepConserved(Next(sys, run[0]), Follow(sys, w, run[0], k), Send(sys, n, run[0], k), run[1..], k);
    }
  }

  /**
   Exactly when the count stays accurate. In every interleaving of any number of validations and updates of
   `k`, the stored, the in-flight and the pending increments add up to the accepted validations if and only
   if the stored row is clean: along the reads and writes that produced it, no flush landed between a call's
   read and its write.
   */
  lemma UsageIsExactExactlyWhenClean(sys: System, run: seq<Event>, k: KeyId)
    requires k in sys.db && Unused(sys, k) && Valid(sys, run)
    requires sys.db[k].usageCount + Count(sys.pendingUsage, k) == Count(sys.accepted, k)
    requires forall i :: 0 <= i < |run| ==> Gentle(run[i], k)
    ensures var f := Run(sys, run);
      && k in f.db
      && (f.db[k].usageCount + InTransit(f.calls, k) + Count(f.pendingUsage, k) == Count(f.accepted, k)
          <==> FollowAll(sys, Undisturbed, run, k).clean)
      && (Unused(f, k) ==> InTransit(f.calls, k) == 0)
  {
    var n := Sent(sys.db[k].usageCount, map[]);
    NothingInTransit(sys.calls, k);
    StoredIsSentExactlyWhenClean(sys, Undisturbed, n, run, k);
    RunsKeepConserved(sys, Undisturbed, n, run, k);
    if Unused(Run(sys, run), k) {
      NothingInTransit(Run(sys, run).calls, k);
    }
  }

  // ----- Validations alone -----

  /** Each flush of `k` lands with no other flush of it between its call's read and its write. */
  predicate FlushesApart(sys: System, w: Schedule, run: seq<Event>, k: KeyId)
    requires Valid(sys, run)
    decreases |run|
  {
    run == [] ||
    (!Overlapped(sys, w, run[0], k) && FlushesApart(Next(sys, run[0]), Follow(sys, w, run[0], k), run[1..], k))
  }

  predicate Overlapped(sys: System, w: Schedule, e: Event, k: KeyId)
    requires Enabled(sys, e)
  {
    && e.Write? && sys.calls[e.call].Saving? && sys.calls[e.call].key == k
    && e.call in w.marks && w.marks[e.call].flushes != w.flushes
  }

  predicate OnlyValidates(e: Event, k: KeyId) {
    e.Read? && e.key == k ==> e.task == Validate
  }

  /** The call validates, and once the row is stale its mark is old or not clean. */
  predicate Validates(w: Schedule, call: Call, c: nat) {
    && c in w.marks && w.marks[c].flushes <= w.flushes
    && (if call.Holding? then call.task == Validate else call.Saving? && call.carried > 0)
    && (w.clean ==> w.marks[c].clean)
    && (!w.clean && w.marks[c].flushes == w.flushes ==> !w.marks[c].clean)
  }

  predicate ValidatesOnly(sys: System, w: Schedule, k: KeyId) {
    forall c :: c in sys.calls && sys.calls[c].key == k ==> Validates(w, sys.calls[c], c)
  }

  lemma NextCallValidates(sys: System, w: Schedule, e: Event, k: KeyId, c: nat)
    requires ValidatesOnly(sys, w, k) && Enabled(sys, e) && OnlyValidates(e, k)
    requires c in Next(sys, e).calls && Next(sys, e).calls[c].key == k
    ensures Validates(Follow(sys, w, e, k), Next(sys, e).calls[c], c)
  {
    if c in sys.calls {
      assert Validates(w, sys.calls[c], c);
    }
    if e.Write? && sys.calls[e.call].key == k {
      assert Validates(w, sys.calls[e.call], e.call);
    }
  }

  lemma NextValidatesOnly(sys: System, w: Schedule, e: Event, k: KeyId)
    requires ValidatesOnly(sys, w, k) && Enabled(sys, e) && OnlyValidates(e, k)
    ensures ValidatesOnly(Next(sys, e), Follow(sys, w, e, k), k)
    ensures Follow(sys, w, e, k).clean <==> w.clean && !Overlapped(sys, w, e, k)
  {
    if e.Write? && sys.calls[e.call].key == k {
      assert Validates(w, sys.calls[e.call], e.call);
    }
    forall c | c in Next(sys, e).calls && Next(sys, e).calls[c].key == k
      ensures Validates(Follow(sys, w, e, k), Next(sys, e).calls[c], c)
    {
      NextCallValidates(sys, w, e, k, c);
    }
  }

  lemma {:induction false} CleanIsFlushesApart(sys: System, w: Schedule, run: seq<Event>, k: KeyId)
    requires ValidatesOnly(sys, w, k) && Valid(sys, run)
    requires forall i :: 0 <= i < |run| ==> OnlyValidates(run[i], k)
    ensures FollowAll(sys, w, run, k).clean <==> w.clean && FlushesApart(sys, w, run, k)
    decreases |run|
  {
    if run != [] {
      NextValidatesOnly(sys, w, run[0], k);
      CleanIsFlushesApart(Next(sys, run[0]), Follow(sys, w, run[0], k), run[1..], k);
    }
  }

  /** For validations alone: the count stays accurate if and only if no flush overlaps another. */
  lemma ValidationsAreExactExactlyWhenApart(sys: System, run: seq<Event>, k: KeyId)
    requires k in sys.db && Unused(sys, k) && Valid(sys, run)
    requires sys.db[k].usageCount + Count(sys.pendingUsage, k) == Count(sys.accepted, k)
    requires forall i :: 0 <= i < |run| ==> !run[i].Restart? && OnlyValidates(run[i], k)
    ensures var f := Run(sys, run);
      && k in f.db
      && (f.db[k].usageCount + InTransit(f.calls, k) + Count(f.pendingUsage, k) == Count(f.accepted, k)
          <==> FlushesApart(sys, Undisturbed, run, k))
  {
    UsageIsExactExactlyWhenClean(sys, run, k);
    CleanIsFlushesApart(sys, Undisturbed, run, k);
  }

  /** One flush is enough to lose a count: an update that read before it writes its stale row after it. */
  lemma StaleUpdateLosesFlush(sys: System, k: KeyId, now: int)
    requires k in sys.db && sys.calls == map[] && sys.db[k].isActive && Due(sys.db[k].lastUsedAt, now)
    requires sys.db[k].usageCount + Count(sys.pendingUsage, k) == Count(sys.accepted, k)
    ensures var f := UpdateAroundFlush(sys, k, now);
      && f.calls.Keys == {} && k in f.db && Count(f.pendingUsage, k) == 0
      && f.db[k].usageCount == sys.db[k].usageCount < Count(f.accepted, k)
  {
  }

  function UpdateAroundFlush(sys: System, k: KeyId, now: int): System
    requires k in sys.db && sys.calls == map[] && sys.db[k].isActive && Due(sys.db[k].lastUsedAt, now)
  {
    var s1 := Next(Next(sys, Read(0, Update, k)), Read(1, Validate, k));
    var s2 := Next(Next(s1, Resume(1, now, true)), Write(1));
    Next(Next(s2, Resume(0, now, true)), Write(0))
  }

  // ----- Two overlapping validations -----

  /** Calls 0 and 1 both read the row, then both resume. */
  function BothResume(sys: System, k: KeyId, t0: int, t1: int): System
    requires k in sys.db && sys.calls == map[]
  {
    var s := Next(Next(sys, Read(0, Validate, k)), Read(1, Validate, k));
    Next(Next(s, Resume(0, t0, true)), Resume(1, t1, true))
  }

  /** At most the saves of calls 0 and 1 are in flight: `s0` and `s1` say whether, `u0` and `u1` what they count. */
  predicate InFlight(s: System, k: KeyId, s0: bool, u0: nat, s1: bool, u1: nat) {
    && s.calls.Keys == (if s0 then {0} else {}) + (if s1 then {1} else {})
    && (s0 ==> s.calls[0].Saving? && s.calls[0].key == k && s.calls[0].row.usageCount == u0)
    && (s1 ==> s.calls[1].Saving? && s.calls[1].key == k && s.calls[1].row.usageCount == u1)
  }

  lemma AfterBothResume(sys: System, k: KeyId, t0: int, t1: int)
    requires k in sys.db && sys.calls == map[] && sys.db[k].isActive
    ensures var s, row, p := BothResume(sys, k, t0, t1), sys.db[k], Count(sys.pendingUsage, k);
      var due0, due1 := Due(row.lastUsedAt, t0), Due(row.lastUsedAt, t1);
      var left := if due0 then 0 else p + 1;
      && s.db == sys.db && Count(s.accepted, k) == Count(sys.accepted, k) + 2
      && Count(s.pendingUsage, k) == (if due1 then 0 else left + 1)
      && InFlight(s, k, due0, row.usageCount + p + 1, due1, row.usageCount + left + 1)
  {
    var row := sys.db[k];
    var s1 := Next(sys, Read(0, Validate, k));
    var s2 := Next(s1, Read(1, Validate, k));
    var s3 := Next(s2, Resume(0, t0, true));
    assert s3 == Tally(s2, 0, k, row, t0);
    assert s3.calls.Keys == (if Due(row.lastUsedAt, t0) then {0} else {}) + {1};
  }

  lemma AfterBothWrites(s: System, k: KeyId, s0: bool, u0: nat, s1: bool, u1: nat, zeroFirst: bool)
    requires k in s.db && InFlight(s, k, s0, u0, s1, u1)
    ensures var f := if zeroFirst then WriteIfSaving(WriteIfSaving(s, 0), 1) else WriteIfSaving(WriteIfSaving(s, 1), 0);
      && f.calls.Keys == {} && k in f.db && f.pendingUsage == s.pendingUsage && f.accepted == s.accepted
      && f.db[k].usageCount ==
         if s0 && s1 then (if zeroFirst then u1 else u0) else if s0 then u0 else if s1 then u1 else s.db[k].usageCount
  {
  }

  /**
   Exactly when overlapping validations keep the count: two calls that read the same row, resume and
   write in either order leave the stored count plus the accumulator equal to the accepted calls if
   and only if at most one of them flushes.
   */
  lemma OverlapIsExactUnlessBothFlush(sys: System, k: KeyId, t0: int, t1: int, zeroFirst: bool)
    requires k in sys.db && sys.calls == map[] && sys.db[k].isActive
    requires sys.db[k].usageCount + Count(sys.pendingUsage, k) == Count(sys.accepted, k)
    ensures var s := BothResume(sys, k, t0, t1);
      var f := if zeroFirst then WriteIfSaving(WriteIfSaving(s, 0), 1) else WriteIfSaving(WriteIfSaving(s, 1), 0);
      && f.calls.Keys == {} && k in f.db && Count(f.accepted, k) == Count(sys.accepted, k) + 2
      && (f.db[k].usageCount + Count(f.pendingUsage, k) == Count(f.accepted, k)
          <==> !(Due(sys.db[k].lastUsedAt, t0) && Due(sys.db[k].lastUsedAt, t1)))
  {
    var row, p := sys.db[k], Count(sys.pendingUsage, k);
    var due0, due1 := Due(row.lastUsedAt, t0), Due(row.lastUsedAt, t1);
    var left := if due0 then 0 else p + 1;
    AfterBothResume(sys, k, t0, t1);
    AfterBothWrites(BothResume(sys, k, t0, t1), k,
      due0, row.usageCount + p + 1, due1, row.usageCount + left + 1, zeroFirst);
  }

  // ----- The service -----

  class AuthService {
    var db: map<KeyId, KeyRow>
    var pendingUsage: map<KeyId, nat>
    ghost var accepted: map<KeyId, nat>
    ghost var writes: map<KeyId, seq<int>>

    ghost function View(): Ledger
      reads this
    {
      Ledger(db, pendingUsage, accepted, writes)
    }

    /** `admitted`: the expiry, address and session checks pass. */
    method ValidateApiKey(key: KeyId, now: int, admitted: bool) returns (result: Option<KeyRow>)
      modifies this
      ensures (View(), result) == Serve(old(View()), Request(key, now, admitted))
    {
      if key !in db {
        return None;
      }
      var apiKey := db[key];
      if !apiKey.isActive || !admitted {
        return None;
      }
      var pending := (if key in pendingUsage then pendingUsage[key] else 0) + 1;
      var previousLastUsedAt := apiKey.lastUsedAt;
      apiKey := apiKey.(lastUsedAt := Some(now));
      apiKey := apiKey.(usageCount := apiKey.usageCount + pending);
      accepted := accepted[key := Count(accepted, key) + 1];
      if Due(previousLastUsedAt, now) {
        pendingUsage := pendingUsage - {key};
        db := db[key := apiKey];
        writes := writes[key := WritesOf(View(), key) + [now]];
      } else {
        pendingUsage := pendingUsage[key := pending];
      }
      result := Some(apiKey);
    }

    /** Revoking keeps the flushed count and forgets the accumulator; later calls are refused. */
    method Revoke(key: KeyId) returns (found: bool)
      modifies this`db, this`pendingUsage
      ensures found <==> key in old(db)
      ensures !found ==> db == old(db) && pendingUsage == old(pendingUsage)
      ensures found ==>
        && db == old(db)[key := old(db)[key].(isActive := false)]
        && pendingUsage == old(pendingUsage) - {key}
        && forall now, admitted :: Serve(View(), Request(key, now, admitted)).1.None?
    {
      found := key in db;
      if found {
        pendingUsage := pendingUsage - {key};
        db := db[key := db[key].(isActive := false)];
      }
    }

    method Delete(key: KeyId) returns (found: bool)
      modifies this`db, this`pendingUsage
      ensures found <==> key in old(db)
      ensures db == old(db) - {key}
      ensures pendingUsage == if found then old(pendingUsage) - {key} else old(pendingUsage)
    {
      found := key in db;
      if found {
        pendingUsage := pendingUsage - {key};
        db := db - {key};
      }
    }
  }
}

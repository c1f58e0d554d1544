/**
 The shared lid index (src/engine/identity/lid-mapping-store.service.ts): a cached table in two maps,
 lid -> phone and phone -> lids, with write-through to the database. A phone of None is a recorded
 negative; the empty phone counts as no phone, as in the source.
 */
module LidIndex {
  import opened Support

  datatype Pair = Pair(lid: string, phone: Option<string>)

  /** The two maps, and the history of remember() calls since the table was loaded. */
  datatype Index = Index(
    lidToPhone: map<string, Option<string>>, phoneToLids: map<string, set<string>>, calls: seq<Pair>)

  const Empty := Index(map[], map[], [])

  function Cached(ix: Index, lid: string): Option<Option<string>> {
    if lid in ix.lidToPhone then Some(ix.lidToPhone[lid]) else None
  }

  function LidsForPhone(ix: Index, phone: string): set<string> {
    if phone in ix.phoneToLids then ix.phoneToLids[phone] else {}
  }

  function Unlink(rev: map<string, set<string>>, phone: string, lid: string): map<string, set<string>> {
    if phone in rev then rev[phone := rev[phone] - {lid}] else rev
  }

  function Link(rev: map<string, set<string>>, phone: string, lid: string): map<string, set<string>> {
    rev[phone := (if phone in rev then rev[phone] else {}) + {lid}]
  }

  /** index(). */
  function Indexed(ix: Index, lid: string, phone: Option<string>): Index {
    var stale := lid in ix.lidToPhone && Truthy(ix.lidToPhone[lid]) && ix.lidToPhone[lid] != phone;
    var rev := if stale then Unlink(ix.phoneToLids, ix.lidToPhone[lid].value, lid) else ix.phoneToLids;
    ix.(lidToPhone := ix.lidToPhone[lid := phone],
        phoneToLids := if Truthy(phone) then Link(rev, phone.value, lid) else rev)
  }

  /** Whether remember() stores and writes the pair: only an unseen or changed value. */
  predicate IsNews(ix: Index, lid: string, phone: Option<string>) {
    lid != "" && Cached(ix, lid) != Some(phone)
  }

  function Remember(ix: Index, lid: string, phone: Option<string>): Index {
    var r := if IsNews(ix, lid, phone) then Indexed(ix, lid, phone) else ix;
    r.(calls := ix.calls + [Pair(lid, phone)])
  }

  // ----- The two maps agree -----

  /** The reverse map is exactly the inverse of the forward map on non-empty phones. */
  ghost predicate Exact(ix: Index) {
    forall lid: string, phone: string :: ExactAt(ix, lid, phone)
  }

  predicate ExactAt(ix: Index, lid: string, phone: string) {
    lid in LidsForPhone(ix, phone) <==> phone != "" && Cached(ix, lid) == Some(Some(phone))
  }

  lemma UnlinkAt(rev: map<string, set<string>>, phone: string, lid: string, p: string, l: string)
    ensures l in LidsForPhone(Index(map[], Unlink(rev, phone, lid), []), p)
      <==> l in LidsForPhone(Index(map[], rev, []), p) && !(p == phone && l == lid)
  {
  }

  lemma LinkAt(rev: map<string, set<string>>, phone: string, lid: string, p: string, l: string)
    ensures l in LidsForPhone(Index(map[], Link(rev, phone, lid), []), p)
      <==> l in LidsForPhone(Index(map[], rev, []), p) || (p == phone && l == lid)
  {
  }

  lemma IndexedKeepsExact(ix: Index, lid: string, phone: Option<string>)
    requires Exact(ix)
    ensures Exact(Indexed(ix, lid, phone))
  {
    var prev := if lid in ix.lidToPhone then ix.lidToPhone[lid] else None;
    var stale := Truthy(prev) && prev != phone;
    var rev := if stale then Unlink(ix.phoneToLids, prev.value, lid) else ix.phoneToLids;
    forall l, p ensures ExactAt(Indexed(ix, lid, phone), l, p) {
      assert ExactAt(ix, l, p);
      if stale {
        UnlinkAt(ix.phoneToLids, prev.value, lid, p, l);
      }
      if Truthy(phone) {
        LinkAt(rev, phone.value, lid, p, l);
      }
    }
  }

  lemma RememberKeepsExact(ix: Index, lid: string, phone: Option<string>)
    requires Exact(ix)
    ensures Exact(Remember(ix, lid, phone))
  {
    IndexedKeepsExact(ix, lid, phone);
    var r := Remember(ix, lid, phone);
    forall l, p ensures ExactAt(r, l, p) {
      assert ExactAt(r.(calls := ix.calls), l, p);
    }
  }

  /** The value of the latest remember() call for `lid`. */
  function Latest(calls: seq<Pair>, lid: string): Option<Option<string>> {
    if calls == [] then None
    else if calls[|calls| - 1].lid == lid then Some(calls[|calls| - 1].phone)
    else Latest(calls[..|calls| - 1], lid)
  }

  /** The index answers with the latest call, and with the loaded row where there was none. */
  ghost predicate Current(ix: Index, rows: map<string, Option<string>>) {
    forall lid: string :: lid != "" ==>
      Cached(ix, lid) == if Latest(ix.calls, lid).Some? then Latest(ix.calls, lid)
                         else if lid in rows then Some(rows[lid]) else None
  }

  lemma RememberKeepsCurrent(ix: Index, rows: map<string, Option<string>>, lid: string, phone: Option<string>)
    requires Current(ix, rows)
    ensures Current(Remember(ix, lid, phone), rows)
  {
    var r := Remember(ix, lid, phone);
    assert r.calls[..|ix.calls|] == ix.calls;
  }

  // ----- Loading the table -----

  /** The index after the rows have been read in the given order. */
  function Loaded(rows: seq<Pair>): Index {
    if rows == [] then Empty
    else Indexed(Loaded(rows[..|rows| - 1]), rows[|rows| - 1].lid, rows[|rows| - 1].phone)
  }

  /** `rows` lists the table, in some order: the lid is the table's key. */
  ghost predicate Lists(rows: seq<Pair>, db: map<string, Option<string>>) {
    && (forall i :: 0 <= i < |rows| ==> rows[i].lid in db && db[rows[i].lid] == rows[i].phone)
    && (forall lid :: lid in db ==> exists i :: 0 <= i < |rows| && rows[i].lid == lid)
  }

  lemma {:induction false} LoadedReadsRows(rows: seq<Pair>, db: map<string, Option<string>>)
    requires forall i :: 0 <= i < |rows| ==> rows[i].lid in db && db[rows[i].lid] == rows[i].phone
    ensures Exact(Loaded(rows)) && Loaded(rows).calls == []
    ensures forall lid :: lid in Loaded(rows).lidToPhone <==> exists i :: 0 <= i < |rows| && rows[i].lid == lid
    ensures forall lid :: lid in Loaded(rows).lidToPhone ==> lid in db && db[lid] == Loaded(rows).lidToPhone[lid]
  {
    if rows != [] {
      var n := |rows| - 1;
      var before := rows[..n];
      LoadedReadsRows(before, db);
      IndexedKeepsExact(Loaded(before), rows[n].lid, rows[n].phone);
      forall lid ensures lid in Loaded(rows).lidToPhone <==> exists i :: 0 <= i < |rows| && rows[i].lid == lid {
        if lid in Loaded(before).lidToPhone {
          var i :| 0 <= i < n && before[i].lid == lid;
          assert rows[i].lid == lid;
        }
        if i :| 0 <= i < |rows| && rows[i].lid == lid {
          assert i < n ==> before[i].lid == lid;
        }
      }
    }
  }

  /** Loading rebuilds the table in whatever order its rows come. */
  lemma LoadingIsOrderFree(rows: seq<Pair>, db: map<string, Option<string>>)
    requires Lists(rows, db)
    ensures Exact(Loaded(rows)) && Loaded(rows).lidToPhone == db && Current(Loaded(rows), db)
  {
    LoadedReadsRows(rows, db);
  }

  // ----- Write-through -----

  /** The index, the table, the writes still on their way in order, and the lids whose latest write was lost. */
  datatype System = System(ix: Index, db: map<string, Option<string>>, queue: seq<Pair>, lost: set<string>)

  datatype Event =
    | Called(lid: string, phone: Option<string>)
    | WriteLands
    | WriteFails

  function Booted(rows: seq<Pair>, db: map<string, Option<string>>): System {
    System(Loaded(rows), db, [], {})
  }

  predicate Enabled(s: System, e: Event) {
    e.Called? || s.queue != []
  }

  function Next(s: System, e: Event): System
    requires Enabled(s, e)
  {
    match e
    case Called(lid, phone) =>
      s.(ix := Remember(s.ix, lid, phone),
         queue := if IsNews(s.ix, lid, phone) then s.queue + [Pair(lid, phone)] else s.queue)
    case WriteLands =>
      s.(db := s.db[s.queue[0].lid := s.queue[0].phone], queue := s.queue[1..], lost := s.lost - {s.queue[0].lid})
    case WriteFails =>
      s.(queue := s.queue[1..], lost := s.lost + {s.queue[0].lid})
  }

  /** A call answers at once and sends its row if it is news; a write that lands is in the table, in order. */
  lemma StepsOfTheTable(s: System, e: Event)
    requires Enabled(s, e)
    ensures e.Called? ==>
      var f := Next(s, e);
      && (e.lid != "" ==> Cached(f.ix, e.lid) == Some(e.phone))
      && (forall lid :: lid != e.lid ==> Cached(f.ix, lid) == Cached(s.ix, lid))
      && f.db == s.db && f.lost == s.lost
      && f.queue
         == if e.lid != "" && Cached(s.ix, e.lid) != Some(e.phone) then s.queue + [Pair(e.lid, e.phone)] else s.queue
    ensures !e.Called? ==>
      var f := Next(s, e);
      && f.ix == s.ix && f.queue == s.queue[1..]
      && f.db == (if e.WriteLands? then s.db[s.queue[0].lid := s.queue[0].phone] else s.db)
      && f.lost == (if e.WriteLands? then s.lost - {s.queue[0].lid} else s.lost + {s.queue[0].lid})
  {
  }

  /** What the table will hold for `lid` once the queue has landed. */
  function Settled(s: System, lid: string): Option<Option<string>> {
    var q := Latest(s.queue, lid);
    if q.Some? then q else if lid in s.db then Some(s.db[lid]) else None
  }

  ghost predicate InStep(s: System) {
    forall lid: string :: lid !in s.lost || Latest(s.queue, lid).Some? ==> Settled(s, lid) == Cached(s.ix, lid)
  }

  ghost predicate Run(s: System, run: seq<Event>, t: System)
    decreases |run|
  {
    if run == [] then s == t else Enabled(s, run[0]) && Run(Next(s, run[0]), run[1..], t)
  }

  lemma RunStep(s: System, e: Event, run: seq<Event>, t: System)
    requires Enabled(s, e) && Run(Next(s, e), run, t)
    ensures Run(s, [], s) && Run(s, [e] + run, t)
  {
    assert ([e] + run)[1..] == run;
  }

  lemma {:induction false} LatestSkipsFirst(calls: seq<Pair>, lid: string)
    requires calls != []
    ensures Latest(calls, lid)
         == if Latest(calls[1..], lid).Some? then Latest(calls[1..], lid)
            else if calls[0].lid == lid then Some(calls[0].phone) else None
  {
    var n := |calls| - 1;
    if n > 0 {
      assert calls[1..][..n - 1] == calls[..n][1..];
      LatestSkipsFirst(calls[..n], lid);
    }
  }

  lemma NextKeepsInStep(s: System, e: Event)
    requires InStep(s) && Enabled(s, e)
    ensures InStep(Next(s, e))
  {
    var t := Next(s, e);
    if e.Called? {
      assert (s.queue + [Pair(e.lid, e.phone)])[..|s.queue|] == s.queue;
    } else {
      forall lid ensures lid !in t.lost || Latest(t.queue, lid).Some? ==> Settled(t, lid) == Cached(t.ix, lid) {
        LatestSkipsFirst(s.queue, lid);
      }
    }
  }

  lemma NextKeepsIndex(s: System, e: Event, rows: map<string, Option<string>>)
    requires Exact(s.ix) && Current(s.ix, rows) && Enabled(s, e)
    ensures Exact(Next(s, e).ix) && Current(Next(s, e).ix, rows)
  {
    if e.Called? {
      RememberKeepsExact(s.ix, e.lid, e.phone);
      RememberKeepsCurrent(s.ix, rows, e.lid, e.phone);
    }
  }

  lemma {:induction false} RunsKeep(s: System, run: seq<Event>, t: System, rows: map<string, Option<string>>)
    requires Run(s, run, t) && Exact(s.ix) && Current(s.ix, rows) && InStep(s)
    ensures Exact(t.ix) && Current(t.ix, rows) && InStep(t)
    decreases |run|
  {
    if run != [] {
      NextKeepsInStep(s, run[0]);
      NextKeepsIndex(s, run[0], rows);
      RunsKeep(Next(s, run[0]), run[1..], t, rows);
    }
  }

  lemma BootedIsInStep(rows: seq<Pair>, db: map<string, Option<string>>)
    requires Lists(rows, db)
    ensures var s := Booted(rows, db); Exact(s.ix) && Current(s.ix, db) && InStep(s)
  {
    LoadingIsOrderFree(rows, db);
  }

  /**
   After any run of remember() calls and writes that land in order, the reverse lookup is exactly the
   inverse of the forward one and every lookup gives the latest call's phone, or the loaded row.
   */
  lemma IndexIsExact(rows: seq<Pair>, db: map<string, Option<string>>, run: seq<Event>, t: System)
    requires Lists(rows, db) && Run(Booted(rows, db), run, t)
    ensures Exact(t.ix) && Current(t.ix, db)
  {
    BootedIsInStep(rows, db);
    RunsKeep(Booted(rows, db), run, t, db);
  }

  lemma SameReverse(a: Index, b: Index)
    requires Exact(a) && Exact(b) && a.lidToPhone == b.lidToPhone
    ensures forall phone :: LidsForPhone(a, phone) == LidsForPhone(b, phone)
  {
    forall phone ensures LidsForPhone(a, phone) == LidsForPhone(b, phone) {
      forall lid ensures lid in LidsForPhone(a, phone) <==> lid in LidsForPhone(b, phone) {
        assert ExactAt(a, lid, phone) && ExactAt(b, lid, phone);
      }
    }
  }

  lemma DrainedIsTable(t: System)
    requires InStep(t) && t.queue == [] && t.lost == {}
    ensures t.ix.lidToPhone == t.db
  {
    forall lid ensures Cached(t.ix, lid) == if lid in t.db then Some(t.db[lid]) else None {
      assert Settled(t, lid) == Cached(t.ix, lid);
    }
    assert forall lid :: lid in t.db <==> Cached(t.ix, lid).Some?;
  }

  /** A restart after the writes have landed rebuilds both lookups, from the rows in any order. */
  lemma RestartRebuilds(rows: seq<Pair>, db: map<string, Option<string>>, run: seq<Event>, t: System, again: seq<Pair>)
    requires Lists(rows, db) && Run(Booted(rows, db), run, t)
    requires t.queue == [] && t.lost == {} && Lists(again, t.db)
    ensures Loaded(again).lidToPhone == t.ix.lidToPhone
    ensures forall phone :: LidsForPhone(Loaded(again), phone) == LidsForPhone(t.ix, phone)
  {
    BootedIsInStep(rows, db);
    RunsKeep(Booted(rows, db), run, t, db);
    LoadingIsOrderFree(again, t.db);
    DrainedIsTable(t);
    SameReverse(Loaded(again), t.ix);
  }

  /** Where some writes failed, a restart still restores every lid whose latest write landed. */
  lemma RestartKeepsLanded(rows: seq<Pair>, db: map<string, Option<string>>, run: seq<Event>, t: System,
                           again: seq<Pair>, lid: string)
    requires Lists(rows, db) && Run(Booted(rows, db), run, t)
    requires t.queue == [] && lid !in t.lost && Lists(again, t.db)
    ensures Cached(Loaded(again), lid) == Cached(t.ix, lid)
  {
    BootedIsInStep(rows, db);
    RunsKeep(Booted(rows, db), run, t, db);
    LoadingIsOrderFree(again, t.db);
    assert Settled(t, lid) == Cached(t.ix, lid);
  }

  // ----- The service -----

  class LidMappingStoreService {
    var lidToPhone: map<string, Option<string>>
    var phoneToLids: map<string, set<string>>
    ghost var calls: seq<Pair>

    ghost function View(): Index
      reads this
    {
      Index(lidToPhone, phoneToLids, calls)
    }

    constructor ()
      ensures View() == Empty
    {
      lidToPhone, phoneToLids, calls := map[], map[], [];
    }

    /** onModuleInit(): None is a table that could not be read. */
    method OnModuleInit(rows: Option<seq<Pair>>)
      requires View() == Empty
      modifies this
      ensures View() == if rows.Some? then Loaded(rows.value) else Empty
    {
      if rows.Some? {
        for i := 0 to |rows.value|
          invariant View() == Loaded(rows.value[..i])
        {
          assert rows.value[..i + 1][..i] == rows.value[..i];
          IndexPair(rows.value[i].lid, rows.value[i].phone);
        }
        assert rows.value[..|rows.value|] == rows.value;
      }
    }

    method GetCached(lid: string) returns (phone: Option<Option<string>>)
      ensures phone == Cached(View(), lid)
    {
      phone := if lid in lidToPhone then Some(lidToPhone[lid]) else None;
    }

    method FindLids(phone: string) returns (lids: set<string>)
      ensures lids == LidsForPhone(View(), phone)
    {
      lids := if phone in phoneToLids then phoneToLids[phone] else {};
    }

    /** remember(): `write` is the row it sends to the database, if any. */
    method RememberPair(lid: string, phone: Option<string>) returns (write: Option<Pair>)
      modifies this
      ensures View() == Remember(old(View()), lid, phone)
      ensures write == if IsNews(old(View()), lid, phone) then Some(Pair(lid, phone)) else None
    {
      calls := calls + [Pair(lid, phone)];
      if lid == "" || (lid in lidToPhone && lidToPhone[lid] == phone) {
        return None;
      }
      IndexPair(lid, phone);
      return Some(Pair(lid, phone));
    }

    method IndexPair(lid: string, phone: Option<string>)
      modifies this
      ensures View() == Indexed(old(View()), lid, phone)
    {
      if lid in lidToPhone && Truthy(lidToPhone[lid]) && lidToPhone[lid] != phone {
        var prev := lidToPhone[lid].value;
        if prev in phoneToLids {
          phoneToLids := phoneToLids[prev := phoneToLids[prev] - {lid}];
        }
      }
      lidToPhone := lidToPhone[lid := phone];
      if Truthy(phone) {
        var lids := if phone.value in phoneToLids then phoneToLids[phone.value] else {};
        phoneToLids := phoneToLids[phone.value := lids + {lid}];
      }
    }
  }
}

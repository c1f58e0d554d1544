/**
 The capped per-session message store (src/engine/adapters/baileys-message-store.service.ts).

 `put` runs three database statements with awaits between them, and puts are started without being
 awaited, so the statements of different puts interleave. The unique index on (sessionId, waMessageId)
 is the key of the table; a row's id is generated on insert and kept by a later upsert, which
 refreshes `createdAt`. Ids are only compared, so integers stand for the uuid order.
 */
module MessageStore {
  import opened Support

  datatype MsgKey = MsgKey(session: string, waId: string)
  datatype Row = Row(id: int, payload: string, createdAt: int)
  datatype Rank = Rank(createdAt: int, id: int)

  type Table = map<MsgKey, Row>

  function RankOf(r: Row): Rank {
    Rank(r.createdAt, r.id)
  }

  /** The eviction order: createdAt, then id. */
  predicate Below(a: Rank, b: Rank) {
    a.createdAt < b.createdAt || (a.createdAt == b.createdAt && a.id < b.id)
  }

  function Rows(t: Table, s: string): set<MsgKey> {
    set k | k in t && k.session == s
  }

  /** The session's rows that rank above `c`. */
  function Above(t: Table, s: string, c: Rank): set<MsgKey> {
    set k | k in t && k.session == s && Below(c, RankOf(t[k]))
  }

  predicate DistinctIds(t: Table) {
    forall j, k :: j in t && k in t && t[j].id == t[k].id ==> j == k
  }

  /** What `find ... skip limit take 1` over the descending order returns. */
  predicate IsCutoff(t: Table, s: string, limit: nat, c: Option<Rank>) {
    match c
    case None => |Rows(t, s)| <= limit
    case Some(r) => (exists k :: k in Rows(t, s) && RankOf(t[k]) == r) && |Above(t, s, r)| == limit
  }

  function Upsert(t: Table, k: MsgKey, payload: string, stamp: int, newId: int): Table {
    t[k := Row(if k in t then t[k].id else newId, payload, stamp)]
  }

  function DeleteUpTo(t: Table, s: string, c: Rank): Table {
    map k | k in t && !(k.session == s && !Below(c, RankOf(t[k]))) :: t[k]
  }

  /** An upsert stores the payload and the stamp; a new row takes the new id, an old one keeps its own. */
  lemma UpsertStoresRow(t: Table, k: MsgKey, payload: string, stamp: int, newId: int, j: MsgKey)
    ensures var u := Upsert(t, k, payload, stamp, newId);
      && k in u && u[k].payload == payload && u[k].createdAt == stamp
      && u[k].id == (if k in t then t[k].id else newId)
      && (j != k ==> (j in u <==> j in t) && (j in t ==> u[j] == t[j]))
  {
  }

  // ----- The cutoff query -----

  lemma {:induction false} TopOf(t: Table, keys: set<MsgKey>) returns (top: MsgKey)
    requires keys != {} && (forall k :: k in keys ==> k in t) && DistinctIds(t)
    ensures top in keys && forall k :: k in keys && k != top ==> Below(RankOf(t[k]), RankOf(t[top]))
  {
    var x :| x in keys;
    if keys == {x} {
      return x;
    }
    var y := TopOf(t, keys - {x});
    top := if Below(RankOf(t[x]), RankOf(t[y])) then y else x;
  }

  lemma {:induction false} RankedAt(t: Table, keys: set<MsgKey>, n: nat) returns (at: MsgKey)
    requires n < |keys| && (forall k :: k in keys ==> k in t) && DistinctIds(t)
    ensures at in keys && |set k | k in keys && Below(RankOf(t[at]), RankOf(t[k]))| == n
    decreases n
  {
    var top := TopOf(t, keys);
    if n == 0 {
      at := top;
      assert (set k | k in keys && Below(RankOf(t[at]), RankOf(t[k]))) == {};
    } else {
      var rest := keys - {top};
      at := RankedAt(t, rest, n - 1);
      assert (set k | k in keys && Below(RankOf(t[at]), RankOf(t[k])))
          == (set k | k in rest && Below(RankOf(t[at]), RankOf(t[k]))) + {top};
    }
  }

  /** The query always has an answer, and only one. */
  lemma CutoffIsDefined(t: Table, s: string, limit: nat) returns (c: Option<Rank>)
    requires DistinctIds(t)
    ensures IsCutoff(t, s, limit, c)
    ensures forall d :: IsCutoff(t, s, limit, d) ==> d == c
  {
    if |Rows(t, s)| <= limit {
      c := None;
      forall d | IsCutoff(t, s, limit, d) ensures d == c {
        if d.Some? {
          var k :| k in Rows(t, s) && RankOf(t[k]) == d.value;
          assert Above(t, s, d.value) <= Rows(t, s) - {k};
          SubsetSize(Above(t, s, d.value), Rows(t, s) - {k});
        }
      }
    } else {
      var k := RankedAt(t, Rows(t, s), limit);
      c := Some(RankOf(t[k]));
      assert Above(t, s, c.value) == set j | j in Rows(t, s) && Below(RankOf(t[k]), RankOf(t[j]));
      forall d | IsCutoff(t, s, limit, d) ensures d == c {
        SameCountSameRank(t, s, d.value, c.value);
      }
    }
  }

  lemma SameCountSameRank(t: Table, s: string, a: Rank, b: Rank)
    requires exists k :: k in Rows(t, s) && RankOf(t[k]) == a
    requires exists k :: k in Rows(t, s) && RankOf(t[k]) == b
    requires |Above(t, s, a)| == |Above(t, s, b)|
    ensures a == b
  {
    var j :| j in Rows(t, s) && RankOf(t[j]) == a;
    var k :| k in Rows(t, s) && RankOf(t[k]) == b;
    if Below(a, b) {
      StrictlyFewerAbove(t, s, a, k);
    } else if Below(b, a) {
      StrictlyFewerAbove(t, s, b, j);
    }
  }

  lemma StrictlyFewerAbove(t: Table, s: string, a: Rank, k: MsgKey)
    requires k in Above(t, s, a)
    ensures |Above(t, s, RankOf(t[k]))| < |Above(t, s, a)|
  {
    var lower, upper := Above(t, s, a), Above(t, s, RankOf(t[k]));
    assert upper <= lower - {k};
    SubsetSize(upper, lower - {k});
  }

  lemma {:induction false} SubsetSize<T>(a: set<T>, b: set<T>)
    requires a <= b
    ensures |a| <= |b|
  {
    assert b == a + (b - a);
  }

  /** A row is cut exactly when `limit` rows rank above it. */
  lemma CutExactlyTheOutranked(t: Table, s: string, limit: nat, c: Rank, k: MsgKey)
    requires IsCutoff(t, s, limit, Some(c)) && k in Rows(t, s)
    ensures k in DeleteUpTo(t, s, c) <==> |Above(t, s, RankOf(t[k]))| < limit
  {
    if Below(c, RankOf(t[k])) {
      StrictlyFewerAbove(t, s, c, k);
    } else {
      assert Above(t, s, c) <= Above(t, s, RankOf(t[k]));
      SubsetSize(Above(t, s, c), Above(t, s, RankOf(t[k])));
    }
  }

  // ----- Interleaved puts -----

  datatype Stage = Stamped(payload: string, stamp: int) | Upserted | Cutting(cutoff: Rank)
  datatype Put = Put(key: MsgKey, stage: Stage)

  datatype System = System(
    table: Table,
    puts: map<nat, Put>,
    stored: set<MsgKey>,    // history: every message whose upsert has succeeded
    aborted: set<string>    // history: sessions with a find or delete that has thrown
  )

  datatype Event =
    | Begin(put: nat, key: MsgKey, payload: string, stamp: int)
    | DoUpsert(put: nat, newId: int)
    | UpsertFails(put: nat)
    | DoFind(put: nat, cutoff: Option<Rank>)
    | DoDelete(put: nat)
    | Abort(put: nat)

  predicate Enabled(sys: System, limit: nat, e: Event) {
    if e.Begin? then e.put !in sys.puts
    else
      && e.put in sys.puts
      && var p := sys.puts[e.put];
         match e
         case DoUpsert(_, newId) =>
           p.stage.Stamped? && forall k :: k in sys.table ==> sys.table[k].id != newId
         case UpsertFails(_) => p.stage.Stamped?
         case DoFind(_, c) => p.stage.Upserted? && IsCutoff(sys.table, p.key.session, limit, c)
         case DoDelete(_) => p.stage.Cutting?
         case _ => !p.stage.Stamped?
  }

  function Next(sys: System, limit: nat, e: Event): System
    requires Enabled(sys, limit, e)
  {
    match e
    case Begin(i, key, payload, stamp) => sys.(puts := sys.puts[i := Put(key, Stamped(payload, stamp))])
    case DoUpsert(i, newId) =>
      var p := sys.puts[i];
      sys.(table := Upsert(sys.table, p.key, p.stage.payload, p.stage.stamp, newId),
           puts := sys.puts[i := p.(stage := Upserted)],
           stored := sys.stored + {p.key})
    case UpsertFails(i) => sys.(puts := sys.puts - {i})
    case DoFind(i, c) =>
      if c.None? then sys.(puts := sys.puts - {i})
      else sys.(puts := sys.puts[i := sys.puts[i].(stage := Cutting(c.value))])
    case DoDelete(i) =>
      var p := sys.puts[i];
      sys.(table := DeleteUpTo(sys.table, p.key.session, p.stage.cutoff), puts := sys.puts - {i})
    case Abort(i) => sys.(puts := sys.puts - {i}, aborted := sys.aborted + {sys.puts[i].key.session})
  }

  /** What each statement does with its put, and that it touches neither another put nor, unless it says so, a row. */
  lemma StatementsStepOnePut(sys: System, limit: nat, e: Event)
    requires Enabled(sys, limit, e)
    ensures var f := Next(sys, limit, e);
      && (forall j :: j != e.put ==> (j in f.puts <==> j in sys.puts) && (j in sys.puts ==> f.puts[j] == sys.puts[j]))
      && (e.put in f.puts <==> e.Begin? || e.DoUpsert? || (e.DoFind? && e.cutoff.Some?))
      && (e.Begin? ==> f.puts[e.put] == Put(e.key, Stamped(e.payload, e.stamp)))
      && (e.DoUpsert? ==> f.puts[e.put] == Put(sys.puts[e.put].key, Upserted))
      && (e.DoFind? && e.cutoff.Some? ==> f.puts[e.put] == Put(sys.puts[e.put].key, Cutting(e.cutoff.value)))
      && (!e.DoUpsert? && !e.DoDelete? ==> f.table == sys.table)
      && (!e.DoUpsert? ==> f.stored == sys.stored) && (e.DoUpsert? ==> f.stored == sys.stored + {sys.puts[e.put].key})
      && f.aborted == sys.aborted + if e.Abort? then {sys.puts[e.put].key.session} else {}
  {
  }

  /** Every pending cutoff of the session still has `limit` rows above it once this upsert has landed. */
  predicate LandsSafely(sys: System, limit: nat, e: Event)
    requires Enabled(sys, limit, e)
  {
    e.DoUpsert? ==>
      var p := sys.puts[e.put];
      var t := Upsert(sys.table, p.key, p.stage.payload, p.stage.stamp, e.newId);
      forall i :: i in sys.puts && IsCutting(sys.puts[i], p.key.session) ==>
        |Above(t, p.key.session, sys.puts[i].stage.cutoff)| >= limit
  }

  /** The upsert lands no older stamp over a newer one. */
  predicate LandsInOrder(sys: System, limit: nat, e: Event)
    requires Enabled(sys, limit, e)
  {
    e.DoUpsert? && sys.puts[e.put].key in sys.table ==>
      sys.table[sys.puts[e.put].key].createdAt <= sys.puts[e.put].stage.stamp
  }

  predicate IsCutting(p: Put, s: string) {
    p.key.session == s && p.stage.Cutting?
  }

  predicate Valid(sys: System, limit: nat, run: seq<Event>)
    decreases |run|
  {
    run == [] || (Enabled(sys, limit, run[0]) && Valid(Next(sys, limit, run[0]), limit, run[1..]))
  }

  /** Every upsert of the run lands safely. */
  predicate Guarded(sys: System, limit: nat, run: seq<Event>)
    requires Valid(sys, limit, run)
    decreases |run|
  {
    run == [] || (LandsSafely(sys, limit, run[0]) && Guarded(Next(sys, limit, run[0]), limit, run[1..]))
  }

  function Run(sys: System, limit: nat, run: seq<Event>): System
    requires Valid(sys, limit, run)
    decreases |run|
  {
    if run == [] then sys else Run(Next(sys, limit, run[0]), limit, run[1..])
  }

  /** Puts of the session that still have to look for their cutoff. */
  function Searching(sys: System, s: string): set<nat> {
    set i | i in sys.puts && sys.puts[i].key.session == s && sys.puts[i].stage.Upserted?
  }

  /** The session's rows that every pending cutoff will spare. */
  function Spared(sys: System, s: string): set<MsgKey> {
    set k | k in sys.table && k.session == s && OutranksCutoffs(sys, s, k)
  }

  predicate OutranksCutoffs(sys: System, s: string, k: MsgKey)
    requires k in sys.table
  {
    forall i :: i in sys.puts && IsCutting(sys.puts[i], s) ==>
      Below(sys.puts[i].stage.cutoff, RankOf(sys.table[k]))
  }

  function StoredIn(sys: System, s: string): set<MsgKey> {
    set k | k in sys.stored && k.session == s
  }

  predicate Floor(sys: System, limit: nat, s: string) {
    Covers(Rows(sys.table, s), StoredIn(sys, s), limit)
  }

  predicate Covers(rows: set<MsgKey>, stored: set<MsgKey>, limit: nat) {
    rows <= stored && (|rows| >= limit || rows == stored)
  }

  predicate CutoffsSafe(sys: System, limit: nat, s: string) {
    forall i :: i in sys.puts && IsCutting(sys.puts[i], s) ==>
      |Above(sys.table, s, sys.puts[i].stage.cutoff)| >= limit
  }

  predicate Ceiling(sys: System, limit: nat, s: string) {
    s !in sys.aborted ==> |Spared(sys, s)| <= limit + |Searching(sys, s)|
  }

  predicate Inv(sys: System, limit: nat, s: string) {
    DistinctIds(sys.table) && Floor(sys, limit, s) && CutoffsSafe(sys, limit, s) && Ceiling(sys, limit, s)
  }

  lemma UpsertKeepsInv(sys: System, limit: nat, e: Event, s: string)
    requires Inv(sys, limit, s) && Enabled(sys, limit, e) && e.DoUpsert? && LandsSafely(sys, limit, e)
    ensures Inv(Next(sys, limit, e), limit, s)
  {
    UpsertKeepsFloor(sys, limit, e, s);
    UpsertKeepsCutoffsSafe(sys, limit, e, s);
    UpsertKeepsCeiling(sys, limit, e, s);
  }

  function Mine(k: MsgKey, s: string): set<MsgKey> {
    if k.session == s then {k} else {}
  }

  lemma RowsOfUpsert(t: Table, k: MsgKey, payload: string, stamp: int, newId: int, s: string)
    ensures Rows(Upsert(t, k, payload, stamp, newId), s) == Rows(t, s) + Mine(k, s)
  {
  }

  lemma UpsertKeepsFloor(sys: System, limit: nat, e: Event, s: string)
    requires DistinctIds(sys.table) && Floor(sys, limit, s) && Enabled(sys, limit, e) && e.DoUpsert?
    ensures var f := Next(sys, limit, e); DistinctIds(f.table) && Floor(f, limit, s)
  {
    var f := Next(sys, limit, e);
    var p := sys.puts[e.put];
    RowsOfUpsert(sys.table, p.key, p.stage.payload, p.stage.stamp, e.newId, s);
    StoredAfter(sys, f, p.key, s);
    CoversGrow(Rows(sys.table, s), StoredIn(sys, s), Mine(p.key, s), limit);
    UpsertKeepsIds(sys.table, p.key, p.stage.payload, p.stage.stamp, e.newId);
  }

  lemma StoredAfter(sys: System, f: System, k: MsgKey, s: string)
    requires f.stored == sys.stored + {k}
    ensures StoredIn(f, s) == StoredIn(sys, s) + Mine(k, s)
  {
  }

  lemma CoversGrow(rows: set<MsgKey>, stored: set<MsgKey>, more: set<MsgKey>, limit: nat)
    requires Covers(rows, stored, limit)
    ensures Covers(rows + more, stored + more, limit)
  {
    SubsetSize(rows, rows + more);
  }

  lemma UpsertKeepsIds(t: Table, k: MsgKey, payload: string, stamp: int, newId: int)
    requires DistinctIds(t) && forall j :: j in t ==> t[j].id != newId
    ensures DistinctIds(Upsert(t, k, payload, stamp, newId))
  {
  }

  lemma UpsertKeepsCutoffsSafe(sys: System, limit: nat, e: Event, s: string)
    requires CutoffsSafe(sys, limit, s) && Enabled(sys, limit, e) && e.DoUpsert? && LandsSafely(sys, limit, e)
    ensures CutoffsSafe(Next(sys, limit, e), limit, s)
  {
    var f := Next(sys, limit, e);
    forall i | i in f.puts && IsCutting(f.puts[i], s) ensures |Above(f.table, s, f.puts[i].stage.cutoff)| >= limit {
      assert i in sys.puts && sys.puts[i] == f.puts[i];
      if s != sys.puts[e.put].key.session {
        assert Above(f.table, s, f.puts[i].stage.cutoff) == Above(sys.table, s, f.puts[i].stage.cutoff);
      }
    }
  }

  /** Landing in stamp order is safe. */
  lemma InOrderLandsSafely(sys: System, limit: nat, e: Event)
    requires Enabled(sys, limit, e) && LandsInOrder(sys, limit, e)
    requires e.DoUpsert? ==> CutoffsSafe(sys, limit, sys.puts[e.put].key.session)
    ensures LandsSafely(sys, limit, e)
  {
    if e.DoUpsert? {
      var p := sys.puts[e.put];
      var s, t := p.key.session, Upsert(sys.table, p.key, p.stage.payload, p.stage.stamp, e.newId);
      forall i | i in sys.puts && IsCutting(sys.puts[i], s) ensures |Above(t, s, sys.puts[i].stage.cutoff)| >= limit {
        var c := sys.puts[i].stage.cutoff;
        assert Above(sys.table, s, c) <= Above(t, s, c);
        SubsetSize(Above(sys.table, s, c), Above(t, s, c));
      }
    }
  }

  lemma UpsertSearches(sys: System, limit: nat, e: Event, s: string)
    requires Enabled(sys, limit, e) && e.DoUpsert?
    ensures |Searching(Next(sys, limit, e), s)| == |Searching(sys, s)| + |Mine(sys.puts[e.put].key, s)|
  {
    var f := Next(sys, limit, e);
    if sys.puts[e.put].key.session == s {
      assert Searching(f, s) == Searching(sys, s) + {e.put};
    } else {
      assert Searching(f, s) == Searching(sys, s);
    }
  }

  lemma UpsertKeepsCeiling(sys: System, limit: nat, e: Event, s: string)
    requires Ceiling(sys, limit, s) && Enabled(sys, limit, e) && e.DoUpsert?
    ensures Ceiling(Next(sys, limit, e), limit, s)
  {
    UpsertSparesOneMore(sys, limit, e, s);
    UpsertSearches(sys, limit, e, s);
    SubsetSize(Spared(Next(sys, limit, e), s), Spared(sys, s) + Mine(sys.puts[e.put].key, s));
  }

  lemma UpsertSparesOneMore(sys: System, limit: nat, e: Event, s: string)
    requires Enabled(sys, limit, e) && e.DoUpsert?
    ensures Spared(Next(sys, limit, e), s) <= Spared(sys, s) + Mine(sys.puts[e.put].key, s)
  {
    var f := Next(sys, limit, e);
    forall j | j in Spared(f, s) && j != sys.puts[e.put].key ensures j in Spared(sys, s) {
      forall i | i in sys.puts && IsCutting(sys.puts[i], s)
        ensures Below(sys.puts[i].stage.cutoff, RankOf(sys.table[j]))
      {
        assert i in f.puts && f.puts[i] == sys.puts[i];
      }
    }
  }

  lemma FindKeepsInv(sys: System, limit: nat, e: Event, s: string)
    requires Inv(sys, limit, s) && Enabled(sys, limit, e) && e.DoFind?
    ensures Inv(Next(sys, limit, e), limit, s)
  {
    var f := Next(sys, limit, e);
    if sys.puts[e.put].key.session == s {
      if e.cutoff.None? {
        SubsetSize(Spared(f, s), Rows(sys.table, s));
      } else {
        assert f.puts[e.put].stage.cutoff == e.cutoff.value;
        assert Spared(f, s) <= Above(sys.table, s, e.cutoff.value);
        SubsetSize(Spared(f, s), Above(sys.table, s, e.cutoff.value));
      }
    } else {
      assert Searching(f, s) == Searching(sys, s);
      SameCutoffsSameSpared(sys, f, s);
    }
  }

  predicate SameCutoffs(sys: System, f: System, s: string) {
    && (forall i :: i in f.puts && IsCutting(f.puts[i], s) ==> i in sys.puts && sys.puts[i] == f.puts[i])
    && (forall i :: i in sys.puts && IsCutting(sys.puts[i], s) ==> i in f.puts && sys.puts[i] == f.puts[i])
  }

  lemma SameCutoffsSameSpared(sys: System, f: System, s: string)
    requires f.table == sys.table && SameCutoffs(sys, f, s)
    ensures Spared(f, s) == Spared(sys, s)
  {
    forall k | k in sys.table ensures OutranksCutoffs(f, s, k) <==> OutranksCutoffs(sys, s, k) {
    }
  }

  lemma DeleteKeepsInv(sys: System, limit: nat, e: Event, s: string)
    requires Inv(sys, limit, s) && Enabled(sys, limit, e) && e.DoDelete?
    ensures Inv(Next(sys, limit, e), limit, s)
  {
    var f := Next(sys, limit, e);
    var p := sys.puts[e.put];
    var c := p.stage.cutoff;
    assert Searching(f, s) == Searching(sys, s);
    forall k | k in Spared(f, s) ensures k in Spared(sys, s) {
      forall i | i in sys.puts && IsCutting(sys.puts[i], s)
        ensures Below(sys.puts[i].stage.cutoff, RankOf(sys.table[k]))
      {
        assert i != e.put ==> i in f.puts && f.puts[i] == sys.puts[i];
      }
    }
    SubsetSize(Spared(f, s), Spared(sys, s));
    assert StoredIn(f, s) == StoredIn(sys, s);
    if p.key.session == s {
      assert Above(sys.table, s, c) == Rows(f.table, s);
      forall i | i in f.puts && IsCutting(f.puts[i], s)
        ensures |Above(f.table, s, f.puts[i].stage.cutoff)| >= limit
      {
        var d := f.puts[i].stage.cutoff;
        assert sys.puts[i] == f.puts[i];
        var keep := if Below(d, c) then Above(sys.table, s, c) else Above(sys.table, s, d);
        assert keep <= Above(f.table, s, d);
        SubsetSize(keep, Above(f.table, s, d));
      }
    } else {
      assert Rows(f.table, s) == Rows(sys.table, s);
      forall d ensures Above(f.table, s, d) == Above(sys.table, s, d) {
      }
    }
  }

  lemma OtherKeepsInv(sys: System, limit: nat, e: Event, s: string)
    requires Inv(sys, limit, s) && Enabled(sys, limit, e) && (e.Begin? || e.UpsertFails? || e.Abort?)
    ensures Inv(Next(sys, limit, e), limit, s)
  {
    var f := Next(sys, limit, e);
    assert StoredIn(f, s) == StoredIn(sys, s);
    if !(e.Abort? && sys.puts[e.put].key.session == s) {
      assert Searching(f, s) == Searching(sys, s);
      SameCutoffsSameSpared(sys, f, s);
    }
  }

  lemma {:induction false} RunsKeepInv(sys: System, limit: nat, run: seq<Event>, s: string)
    requires Inv(sys, limit, s) && Valid(sys, limit, run) && Guarded(sys, limit, run)
    ensures Inv(Run(sys, limit, run), limit, s)
    decreases |run|
  {
    if run != [] {
      NextKeepsInv(sys, limit, run[0], s);
      RunsKeepInv(Next(sys, limit, run[0]), limit, run[1..], s);
    }
  }

  const Empty := System(map[], map[], {}, {})

  predicate FullEnough(sys: System, limit: nat, s: string) {
    |Rows(sys.table, s)| >= Min(limit, |StoredIn(sys, s)|)
  }

  /** In every run whose upserts land safely the store holds at least min(limit, distinct messages stored). */
  lemma StoreNeverUnderruns(limit: nat, run: seq<Event>, s: string)
    requires Valid(Empty, limit, run) && Guarded(Empty, limit, run)
    ensures FullEnough(Run(Empty, limit, run), limit, s)
  {
    assert Inv(Empty, limit, s);
    RunsKeepInv(Empty, limit, run, s);
  }

  /** Once the session's puts are done, and none of them has thrown, it holds exactly that many. */
  lemma QuiescentStoreIsExact(limit: nat, run: seq<Event>, s: string)
    requires Valid(Empty, limit, run) && Guarded(Empty, limit, run)
    requires var f := Run(Empty, limit, run);
      s !in f.aborted && forall i :: i in f.puts ==> f.puts[i].key.session != s
    ensures var f := Run(Empty, limit, run);
      |Rows(f.table, s)| == Min(limit, |StoredIn(f, s)|)
  {
    assert Inv(Empty, limit, s);
    RunsKeepInv(Empty, limit, run, s);
    var f := Run(Empty, limit, run);
    assert Searching(f, s) == {};
    assert Spared(f, s) == Rows(f.table, s);
    SubsetSize(Rows(f.table, s), StoredIn(f, s));
  }

  /** Whatever ran between its find and its delete, a put removes only rows that `limit` rows outrank. */
  lemma DeletedRowsAreOutranked(limit: nat, run: seq<Event>, e: Event, k: MsgKey)
    requires Valid(Empty, limit, run) && Guarded(Empty, limit, run)
    requires var f := Run(Empty, limit, run);
      && Enabled(f, limit, e)
      && k in f.table && k !in Next(f, limit, e).table
    ensures var f := Run(Empty, limit, run);
      && e.DoDelete? && k.session == f.puts[e.put].key.session
      && |Above(f.table, k.session, RankOf(f.table[k]))| >= limit
  {
    assert Inv(Empty, limit, k.session);
    RunsKeepInv(Empty, limit, run, k.session);
    var f := Run(Empty, limit, run);
    var c := f.puts[e.put].stage.cutoff;
    assert Above(f.table, k.session, c) <= Above(f.table, k.session, RankOf(f.table[k]));
    SubsetSize(Above(f.table, k.session, c), Above(f.table, k.session, RankOf(f.table[k])));
  }

  // ----- What the rows hold -----

  /** A run as a log: the puts begun and not yet landed, and the latest landing of each message. */
  datatype Content = Content(payload: string, stamp: int)
  datatype Log = Log(begun: map<nat, (MsgKey, Content)>, landed: map<MsgKey, Content>)

  function Note(log: Log, e: Event): Log {
    match e
    case Begin(i, key, payload, stamp) => log.(begun := log.begun[i := (key, Content(payload, stamp))])
    case DoUpsert(i, _) =>
      if i in log.begun then log.(landed := log.landed[log.begun[i].0 := log.begun[i].1]) else log
    case _ => log
  }

  function Notes(log: Log, run: seq<Event>): Log
    decreases |run|
  {
    if run == [] then log else Notes(Note(log, run[0]), run[1..])
  }

  predicate PutMatches(sys: System, log: Log, i: nat)
    requires i in sys.puts
  {
    var p := sys.puts[i];
    p.stage.Stamped? ==> i in log.begun && log.begun[i] == (p.key, Content(p.stage.payload, p.stage.stamp))
  }

  predicate RowMatches(sys: System, log: Log, k: MsgKey)
    requires k in sys.table
  {
    k in log.landed && log.landed[k] == Content(sys.table[k].payload, sys.table[k].createdAt)
  }

  ghost predicate Faithful(sys: System, log: Log) {
    && (forall i :: i in sys.puts ==> PutMatches(sys, log, i))
    && (forall k :: k in sys.table ==> RowMatches(sys, log, k))
  }

  lemma NextStaysFaithful(sys: System, limit: nat, e: Event, log: Log)
    requires Faithful(sys, log) && Enabled(sys, limit, e)
    ensures Faithful(Next(sys, limit, e), Note(log, e))
  {
    var f, n := Next(sys, limit, e), Note(log, e);
    assert !e.Begin? ==> PutMatches(sys, log, e.put);
    forall i | i in f.puts ensures PutMatches(f, n, i) {
      assert i in sys.puts ==> PutMatches(sys, log, i);
    }
    forall k | k in f.table ensures RowMatches(f, n, k) {
      assert k in sys.table ==> RowMatches(sys, log, k);
    }
  }

  lemma {:induction false} RunsStayFaithful(sys: System, limit: nat, run: seq<Event>, log: Log)
    requires Faithful(sys, log) && Valid(sys, limit, run)
    ensures Faithful(Run(sys, limit, run), Notes(log, run))
    decreases |run|
  {
    if run != [] {
      NextStaysFaithful(sys, limit, run[0], log);
      RunsStayFaithful(Next(sys, limit, run[0]), limit, run[1..], Note(log, run[0]));
    }
  }

  /** In every interleaving a row holds the payload and the stamp of the last put of its message to land. */
  lemma RowsHoldLastLanding(limit: nat, run: seq<Event>, k: MsgKey)
    requires Valid(Empty, limit, run) && k in Run(Empty, limit, run).table
    ensures var row := Run(Empty, limit, run).table[k];
      k in Notes(Log(map[], map[]), run).landed
      && Notes(Log(map[], map[]), run).landed[k] == Content(row.payload, row.createdAt)
  {
    RunsStayFaithful(Empty, limit, run, Log(map[], map[]));
    assert RowMatches(Run(Empty, limit, run), Notes(Log(map[], map[]), run), k);
  }

  // ----- When an upsert may land -----

  ghost predicate SafeAfter(sys: System, limit: nat, s: string) {
    forall run :: Valid(sys, limit, run) && Guarded(sys, limit, run) ==> FullEnough(Run(sys, limit, run), limit, s)
  }

  lemma UnsafeLandingUnderruns(sys: System, limit: nat, e: Event, i: nat)
    requires Enabled(sys, limit, e) && e.DoUpsert?
    requires var s := sys.puts[e.put].key.session;
      && Inv(sys, limit, s)
      && i in sys.puts && IsCutting(sys.puts[i], s)
      && |Above(Next(sys, limit, e).table, s, sys.puts[i].stage.cutoff)| < limit
    ensures var f := Next(sys, limit, e);
      Enabled(f, limit, DoDelete(i)) && !FullEnough(Next(f, limit, DoDelete(i)), limit, sys.puts[e.put].key.session)
  {
    var s, c, f := sys.puts[e.put].key.session, sys.puts[i].stage.cutoff, Next(sys, limit, e);
    assert f.puts[i] == sys.puts[i];
    var g := Next(f, limit, DoDelete(i));
    assert Rows(g.table, s) == Above(f.table, s, c);
    assert Rows(sys.table, s) <= StoredIn(sys, s);
    assert Above(sys.table, s, c) <= Rows(sys.table, s);
    StoredAfter(sys, f, sys.puts[e.put].key, s);
    assert StoredIn(g, s) == StoredIn(f, s);
    SubsetSize(Above(sys.table, s, c), StoredIn(g, s));
  }

  /**
   Exactly when an upsert may land: no later run of safe landings finds the session below
   min(limit, stored) if and only if every pending cutoff keeps `limit` rows above it.
   */
  lemma LandingIsSafeExactly(sys: System, limit: nat, e: Event)
    requires Enabled(sys, limit, e) && e.DoUpsert? && Inv(sys, limit, sys.puts[e.put].key.session)
    ensures SafeAfter(Next(sys, limit, e), limit, sys.puts[e.put].key.session) <==> LandsSafely(sys, limit, e)
  {
    var s, f := sys.puts[e.put].key.session, Next(sys, limit, e);
    if LandsSafely(sys, limit, e) {
      UpsertKeepsInv(sys, limit, e, s);
      forall run | Valid(f, limit, run) && Guarded(f, limit, run) ensures FullEnough(Run(f, limit, run), limit, s) {
        RunsKeepInv(f, limit, run, s);
      }
    } else {
      var i :| i in sys.puts && IsCutting(sys.puts[i], s) && |Above(f.table, s, sys.puts[i].stage.cutoff)| < limit;
      UnsafeLandingUnderruns(sys, limit, e, i);
      var run := [DoDelete(i)];
      assert run[1..] == [];
      assert Valid(f, limit, run) && Guarded(f, limit, run);
      assert Run(f, limit, run) == Next(f, limit, DoDelete(i));
    }
  }

  /** No put of a message is stamped while an earlier stamp of it has still to land, and the clock is monotone. */
  predicate Clocked(sys: System, limit: nat, run: seq<Event>, now: int)
    requires Valid(sys, limit, run)
    decreases |run|
  {
    run == [] ||
    (BeginsAlone(sys, run[0], now)
     && Clocked(Next(sys, limit, run[0]), limit, run[1..], if run[0].Begin? then run[0].stamp else now))
  }

  predicate BeginsAlone(sys: System, e: Event, now: int) {
    e.Begin? ==> now <= e.stamp && forall i :: i in sys.puts ==> !IsStamped(sys.puts[i], e.key)
  }

  predicate IsStamped(p: Put, k: MsgKey) {
    p.stage.Stamped? && p.key == k
  }

  ghost predicate ClockInv(sys: System, now: int) {
    && (forall k :: k in sys.table ==> sys.table[k].createdAt <= now)
    && (forall i :: i in sys.puts && sys.puts[i].stage.Stamped? ==> StampOk(sys, i, now))
    && (forall i, j :: i in sys.puts && j in sys.puts && sys.puts[i].stage.Stamped?
                       && IsStamped(sys.puts[j], sys.puts[i].key)
          ==> i == j)
  }

  predicate StampOk(sys: System, i: nat, now: int)
    requires i in sys.puts && sys.puts[i].stage.Stamped?
  {
    var p := sys.puts[i];
    p.stage.stamp <= now && (p.key in sys.table ==> sys.table[p.key].createdAt <= p.stage.stamp)
  }

  lemma NextKeepsClock(sys: System, limit: nat, e: Event, now: int)
    requires ClockInv(sys, now) && Enabled(sys, limit, e)
    requires BeginsAlone(sys, e, now)
    ensures ClockInv(Next(sys, limit, e), if e.Begin? then e.stamp else now) && LandsInOrder(sys, limit, e)
  {
    var f, later := Next(sys, limit, e), if e.Begin? then e.stamp else now;
    forall i | i in f.puts && f.puts[i].stage.Stamped? ensures StampOk(f, i, later) {
      assert !(e.Begin? && i == e.put) ==> i in sys.puts && sys.puts[i] == f.puts[i] && StampOk(sys, i, now);
    }
  }

  lemma NextKeepsInv(sys: System, limit: nat, e: Event, s: string)
    requires Inv(sys, limit, s) && Enabled(sys, limit, e) && LandsSafely(sys, limit, e)
    ensures Inv(Next(sys, limit, e), limit, s)
  {
    if e.DoUpsert? {
      UpsertKeepsInv(sys, limit, e, s);
    } else if e.DoFind? {
      FindKeepsInv(sys, limit, e, s);
    } else if e.DoDelete? {
      DeleteKeepsInv(sys, limit, e, s);
    } else {
      OtherKeepsInv(sys, limit, e, s);
    }
  }

  ghost predicate AllInv(sys: System, limit: nat) {
    forall s :: Inv(sys, limit, s)
  }

  /** Under a monotone clock, puts of one message that do not overlap before they land always land safely. */
  lemma {:induction false} ClockedRunsAreGuarded(sys: System, limit: nat, run: seq<Event>, now: int)
    requires AllInv(sys, limit) && ClockInv(sys, now) && Valid(sys, limit, run) && Clocked(sys, limit, run, now)
    ensures Guarded(sys, limit, run)
    decreases |run|
  {
    if run != [] {
      var e := run[0];
      NextKeepsClock(sys, limit, e, now);
      if e.DoUpsert? {
        assert Inv(sys, limit, sys.puts[e.put].key.session);
      }
      InOrderLandsSafely(sys, limit, e);
      forall s ensures Inv(Next(sys, limit, e), limit, s) {
        assert Inv(sys, limit, s);
        NextKeepsInv(sys, limit, e, s);
      }
      ClockedRunsAreGuarded(Next(sys, limit, e), limit, run[1..], if e.Begin? then e.stamp else now);
    }
  }

  /** A step of one session's put leaves every other session's rows exactly as they are. */
  lemma OtherSessionsUntouched(sys: System, limit: nat, e: Event, k: MsgKey)
    requires Enabled(sys, limit, e)
    requires e.put in sys.puts ==> sys.puts[e.put].key.session != k.session
    ensures var t := Next(sys, limit, e).table;
      (k in t <==> k in sys.table) && (k in t ==> t[k] == sys.table[k])
  {
  }

  lemma UnfoldRun(sys: System, limit: nat, e: Event, run: seq<Event>)
    requires Enabled(sys, limit, e) && Valid(Next(sys, limit, e), limit, run)
    ensures Valid(sys, limit, [e] + run)
    ensures Run(sys, limit, [e] + run) == Run(Next(sys, limit, e), limit, run)
  {
    assert ([e] + run)[1..] == run;
  }

  const A := MsgKey("s", "a")
  const B := MsgKey("s", "b")

  /** Two puts of `B` overlap; the later stamp has landed and looks for its cutoff, which is the row of `A`. */
  const Overlap: System := System(
    map[A := Row(1, "", 1), B := Row(2, "", 2)],
    map[0 := Put(B, Stamped("", 0)), 1 := Put(A, Upserted), 2 := Put(B, Upserted)],
    {A, B}, {})

  /** The stamps are taken in order, 0, 1 and 2. */
  const ToOverlap: seq<Event> :=
    [Begin(0, B, "", 0)] + ([Begin(1, A, "", 1)] + ([DoUpsert(1, 1)] + ([Begin(2, B, "", 2)] + [DoUpsert(2, 2)])))

  lemma OverlapIsReached()
    ensures Valid(Empty, 1, ToOverlap) && Run(Empty, 1, ToOverlap) == Overlap
  {
    var e0, e1, e2 := Begin(0, B, "", 0), Begin(1, A, "", 1), DoUpsert(1, 1);
    var e3, e4 := Begin(2, B, "", 2), DoUpsert(2, 2);
    var s1 := Next(Empty, 1, e0);
    var s2 := Next(s1, 1, e1);
    var s3 := Next(s2, 1, e2);
    var s4 := Next(s3, 1, e3);
    assert Enabled(s2, 1, e2);
    assert s3.table == map[A := Row(1, "", 1)];
    assert Enabled(s4, 1, e4);
    assert Next(s4, 1, e4) == Overlap;
    UnfoldRun(s4, 1, e4, []);
    UnfoldRun(s3, 1, e3, [e4]);
    UnfoldRun(s2, 1, e2, [e3] + [e4]);
    UnfoldRun(s1, 1, e1, [e2] + ([e3] + [e4]));
    UnfoldRun(Empty, 1, e0, [e1] + ([e2] + ([e3] + [e4])));
  }

  /** The cutoff is found, then the older stamp of `B` lands over the newer one, then the cutoff deletes. */
  const FromOverlap: seq<Event> := [DoFind(2, Some(Rank(1, 1)))] + ([DoUpsert(0, 3)] + [DoDelete(2)])

  lemma CutoffIsA()
    ensures Rows(Overlap.table, "s") == {A, B} && IsCutoff(Overlap.table, "s", 1, Some(Rank(1, 1)))
  {
    assert Rows(Overlap.table, "s") == {A, B};
    assert Above(Overlap.table, "s", Rank(1, 1)) == {B};
    assert A in Rows(Overlap.table, "s") && RankOf(Overlap.table[A]) == Rank(1, 1);
  }

  lemma OverlapEmptiesStore()
    ensures Valid(Overlap, 1, FromOverlap)
    ensures Rows(Run(Overlap, 1, FromOverlap).table, "s") == {} && Run(Overlap, 1, FromOverlap).stored == {A, B}
  {
    var e0, e1, e2 := DoFind(2, Some(Rank(1, 1))), DoUpsert(0, 3), DoDelete(2);
    CutoffIsA();
    var s1 := Next(Overlap, 1, e0);
    var s2 := Next(s1, 1, e1);
    assert s2.table[A] == Row(1, "", 1) && s2.table[B] == Row(2, "", 0);
    assert Rows(Next(s2, 1, e2).table, "s") == {};
    UnfoldRun(s2, 1, e2, []);
    UnfoldRun(s1, 1, e1, [e2]);
    UnfoldRun(Overlap, 1, e0, [e1] + [e2]);
  }

  lemma {:induction false} RunSplits(sys: System, limit: nat, a: seq<Event>, b: seq<Event>)
    requires Valid(sys, limit, a) && Valid(Run(sys, limit, a), limit, b)
    ensures Valid(sys, limit, a + b) && Run(sys, limit, a + b) == Run(Run(sys, limit, a), limit, b)
    decreases |a|
  {
    if a == [] {
      assert a + b == b;
    } else {
      assert (a + b)[1..] == a[1..] + b;
      RunSplits(Next(sys, limit, a[0]), limit, a[1..], b);
    }
  }

  predicate MonotoneClock(run: seq<Event>) {
    forall i, j :: 0 <= i < j < |run| && run[i].Begin? && run[j].Begin? ==> run[i].stamp <= run[j].stamp
  }

  lemma NoBeginKeepsClock(a: seq<Event>, b: seq<Event>)
    requires MonotoneClock(a) && forall i :: 0 <= i < |b| ==> !b[i].Begin?
    ensures MonotoneClock(a + b)
  {
  }

  lemma OverlapIsMonotone()
    ensures MonotoneClock(ToOverlap) && forall i :: 0 <= i < |FromOverlap| ==> !FromOverlap[i].Begin?
  {
  }

  /**
   A run from the empty store, its stamps taken in clock order, after which nothing is left of two stored
   messages: a monotone clock alone does not make upserts land safely.
   */
  lemma LateLandingEmptiesStore()
    ensures var run := ToOverlap + FromOverlap;
      && Valid(Empty, 1, run) && MonotoneClock(run)
      && Rows(Run(Empty, 1, run).table, "s") == {} && Run(Empty, 1, run).stored == {A, B}
  {
    OverlapIsReached();
    OverlapEmptiesStore();
    OverlapIsMonotone();
    NoBeginKeepsClock(ToOverlap, FromOverlap);
    RunSplits(Empty, 1, ToOverlap, FromOverlap);
  }

  // ----- The service -----

  class BaileysMessageStore {
    var table: Table
    var orphanWarnedSessions: set<string>

    constructor ()
      ensures table == map[] && orphanWarnedSessions == {}
    {
      table, orphanWarnedSessions := map[], {};
    }

    /** The upsert of `put`; a missing parent session drops the write and warns once per session. */
    method UpsertRow(key: MsgKey, payload: string, stamp: int, newId: int, parentExists: bool)
      returns (stored: bool, warned: bool)
      modifies this
      ensures stored == parentExists
      ensures stored ==> key in table && table[key].payload == payload && table[key].createdAt == stamp
      ensures table == if parentExists then Upsert(old(table), key, payload, stamp, newId) else old(table)
      ensures warned <==> !parentExists && key.session !in old(orphanWarnedSessions)
      ensures orphanWarnedSessions == old(orphanWarnedSessions) + (if parentExists then {} else {key.session})
    {
      stored, warned := parentExists, false;
      if parentExists {
        table := Upsert(table, key, payload, stamp, newId);
      } else if key.session !in orphanWarnedSessions {
        orphanWarnedSessions := orphanWarnedSessions + {key.session};
        warned := true;
      }
    }

    method FindCutoff(s: string, limit: nat) returns (c: Option<Rank>)
      requires DistinctIds(table)
      ensures IsCutoff(table, s, limit, c)
    {
      if |Rows(table, s)| <= limit {
        return None;
      }
      ghost var d := CutoffIsDefined(table, s, limit);
      var k :| k in table && k.session == s && |Above(table, s, RankOf(table[k]))| == limit;
      c := Some(RankOf(table[k]));
    }

    /** enforceLimit with nothing in between: exactly the newest `limit` rows of the session stay. */
    method EnforceLimit(s: string, limit: nat)
      requires DistinctIds(table)
      modifies this`table
      ensures DistinctIds(table)
      ensures forall k :: k in table <==>
        k in old(table) && (k.session == s ==> |Above(old(table), s, RankOf(old(table)[k]))| < limit)
      ensures forall k :: k in table ==> table[k] == old(table)[k]
    {
      var cutoff := FindCutoff(s, limit);
      if cutoff.None? {
        forall k | k in Rows(table, s) ensures |Above(table, s, RankOf(table[k]))| < limit {
          SubsetSize(Above(table, s, RankOf(table[k])), Rows(table, s) - {k});
        }
        return;
      }
      forall k | k in Rows(table, s)
        ensures k in DeleteUpTo(table, s, cutoff.value) <==> |Above(table, s, RankOf(table[k]))| < limit
      {
        CutExactlyTheOutranked(table, s, limit, cutoff.value, k);
      }
      table := DeleteUpTo(table, s, cutoff.value);
    }

    /** An uninterrupted put: the message is stored, then exactly the newest `limit` rows are kept. */
    method PutMessage(key: MsgKey, payload: string, stamp: int, newId: int, parentExists: bool, limit: nat)
      returns (warned: bool)
      requires DistinctIds(table) && forall k :: k in table ==> table[k].id != newId
      modifies this
      ensures DistinctIds(table)
      ensures warned <==> !parentExists && key.session !in old(orphanWarnedSessions)
      ensures !parentExists ==> table == old(table)
      ensures parentExists && key in table ==> table[key].payload == payload && table[key].createdAt == stamp
      ensures parentExists ==>
        var t := Upsert(old(table), key, payload, stamp, newId);
        table == map k | k in t && (k.session == key.session ==> |Above(t, key.session, RankOf(t[k]))| < limit) :: t[k]
    {
      var stored;
      stored, warned := UpsertRow(key, payload, stamp, newId, parentExists);
      if stored {
        EnforceLimit(key.session, limit);
      }
    }

    /** The stored message, if it is still there. */
    method GetMessage(key: MsgKey) returns (payload: Option<string>)
      ensures payload == if key in table then Some(table[key].payload) else None
    {
      payload := if key in table then Some(table[key].payload) else None;
    }

    method ClearSession(s: string)
      modifies this`table
      ensures table == map k | k in old(table) && k.session != s :: old(table)[k]
    {
      table := map k | k in table && k.session != s :: table[k];
    }
  }
}

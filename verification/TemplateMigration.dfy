/**
 The template-name migration (src/database/migrations/1781100000000-AddTemplateNameUnique.ts): the UPDATE
 that renames all but the earliest row of each (sessionId, name) group, and the unique index after it.
 */
module TemplateMigration {
  import opened Text

  /** A row of "templates"; `rest` stands for the columns the migration never names. */
  datatype Row = Row(id: string, sessionId: string, name: string, createdAt: int, rest: string)

  type Table = seq<Row>

  // ----- The order of the subquery -----

  predicate TextLess(a: string, b: string)
    decreases |a|
  {
    if b == "" then false
    else if a == "" then true
    else a[0] < b[0] || (a[0] == b[0] && TextLess(a[1..], b[1..]))
  }

  /** ORDER BY createdAt ASC, id ASC. */
  predicate Before(a: Row, b: Row) {
    a.createdAt < b.createdAt || (a.createdAt == b.createdAt && TextLess(a.id, b.id))
  }

  lemma {:induction false} TextOrder(a: string, b: string, c: string)
    ensures !TextLess(a, a)
    ensures TextLess(a, b) && TextLess(b, c) ==> TextLess(a, c)
    ensures a != b ==> TextLess(a, b) || TextLess(b, a)
    decreases |a| + |b| + |c|
  {
    if a != "" && b != "" && c != "" {
      TextOrder(a[1..], b[1..], c[1..]);
      assert a[0] == b[0] && a[1..] == b[1..] ==> a == b by {
        assert a == [a[0]] + a[1..] && b == [b[0]] + b[1..];
      }
    } else if a != "" && b != "" {
      TextOrder(a[1..], b[1..], "");
      assert a[0] == b[0] && a[1..] == b[1..] ==> a == b by {
        assert a == [a[0]] + a[1..] && b == [b[0]] + b[1..];
      }
    } else if a != "" {
      TextOrder(a[1..], "", "");
    }
  }

  lemma RowOrder(a: Row, b: Row, c: Row)
    ensures !Before(a, a)
    ensures Before(a, b) && Before(b, c) ==> Before(a, c)
    ensures a.id != b.id ==> Before(a, b) || Before(b, a)
  {
    TextOrder(a.id, b.id, c.id);
  }

  // ----- The UPDATE -----

  predicate InGroup(r: Row, sessionId: string, name: string) {
    r.sessionId == sessionId && r.name == name
  }

  /** SELECT ... ORDER BY ... LIMIT 1: the least row of a group. */
  function First(t: Table, sessionId: string, name: string): (r: Row)
    requires exists i :: 0 <= i < |t| && InGroup(t[i], sessionId, name)
    ensures InGroup(r, sessionId, name) && r in t
    ensures forall i :: 0 <= i < |t| && InGroup(t[i], sessionId, name) ==> !Before(t[i], r)
  {
    var n := |t| - 1;
    var rest := t[..n];
    if exists i :: 0 <= i < |rest| && InGroup(rest[i], sessionId, name) then
      var f := First(rest, sessionId, name);
      if InGroup(t[n], sessionId, name) && Before(t[n], f) then
        assert forall i :: 0 <= i < n && InGroup(t[i], sessionId, name) ==> !Before(t[i], t[n]) by {
          forall i | 0 <= i < n && InGroup(t[i], sessionId, name) ensures !Before(t[i], t[n]) {
            assert t[i] == rest[i];
            RowOrder(t[i], t[n], f);
          }
        }
        RowOrder(t[n], f, f);
        t[n]
      else
        assert forall i :: 0 <= i < n ==> t[i] == rest[i];
        f
    else
      assert forall i :: 0 <= i < n ==> t[i] == rest[i];
      RowOrder(t[n], t[n], t[n]);
      t[n]
  }

  function NewName(r: Row): string {
    FirstChars(r.name, 59) + "-dup-" + r.id
  }

  /** The WHERE clause: the row is not the first of its group. */
  predicate Renamed(t: Table, i: nat)
    requires i < |t|
  {
    t[i].id != First(t, t[i].sessionId, t[i].name).id
  }

  function UpdatedRow(t: Table, i: nat): Row
    requires i < |t|
  {
    if Renamed(t, i) then t[i].(name := NewName(t[i])) else t[i]
  }

  /** The whole UPDATE, on one snapshot of the table. */
  function Updated(t: Table): (u: Table)
    ensures |u| == |t| && forall i :: 0 <= i < |t| ==> u[i] == UpdatedRow(t, i)
  {
    seq(|t|, i requires 0 <= i < |t| => UpdatedRow(t, i))
  }

  // ----- What it guarantees -----

  /** The primary key: ids are unique, and UUIDs of 36 characters. */
  predicate Keyed(t: Table) {
    && (forall i :: 0 <= i < |t| ==> |t[i].id| == 36)
    && (forall i, j :: 0 <= i < j < |t| ==> t[i].id != t[j].id)
  }

  predicate SameName(a: Row, b: Row) {
    a.sessionId == b.sessionId && a.name == b.name
  }

  /** What the unique index demands. */
  predicate UniqueNames(t: Table) {
    forall i, j :: 0 <= i < j < |t| ==> !SameName(t[i], t[j])
  }

  /** A row is renamed exactly when another row of its group comes before it. */
  lemma KeepsTheEarliest(t: Table, i: nat)
    requires Keyed(t) && i < |t|
    ensures Renamed(t, i) <==> exists j :: 0 <= j < |t| && SameName(t[j], t[i]) && Before(t[j], t[i])
    ensures !Renamed(t, i) ==> First(t, t[i].sessionId, t[i].name) == t[i]
  {
    var f := First(t, t[i].sessionId, t[i].name);
    var k :| 0 <= k < |t| && t[k] == f;
    assert k != i ==> t[k].id != t[i].id;
    RowOrder(f, t[i], f);
    if f.id != t[i].id {
      assert SameName(t[k], t[i]) && Before(t[k], t[i]);
    }
  }

  /** No row is lost or reordered, no other column changes, and names still fit the column. */
  lemma OnlyNamesChange(t: Table, i: nat)
    requires Keyed(t) && i < |t|
    ensures |Updated(t)| == |t|
    ensures Updated(t)[i].(name := t[i].name) == t[i]
    ensures |t[i].name| <= 100 ==> |Updated(t)[i].name| <= 100
    ensures Renamed(t, i) ==> Updated(t)[i].name == FirstChars(t[i].name, 59) + "-dup-" + t[i].id
  {
  }

  /** substr(s, 1, n). */
  function FirstChars(s: string, n: nat): string {
    if |s| > n then s[..n] else s
  }

  function Suffix(r: Row): string {
    "-dup-" + r.id
  }

  lemma NewNameEnds(r: Row)
    ensures EndsWith(NewName(r), Suffix(r))
  {
    assert NewName(r) == FirstChars(r.name, 59) + Suffix(r);
  }

  lemma NewNamesDiffer(a: Row, b: Row)
    requires |a.id| == |b.id| && a.id != b.id
    ensures NewName(a) != NewName(b)
  {
    NewNameEnds(a);
    NewNameEnds(b);
    assert Suffix(a)[5..] == a.id && Suffix(b)[5..] == b.id;
  }

  /** A row that keeps its name already bears the new name of a renamed row of its session. */
  predicate Collides(t: Table, i: nat, j: nat)
    requires i < |t| && j < |t|
  {
    !Renamed(t, i) && Renamed(t, j) && t[i].sessionId == t[j].sessionId && t[i].name == NewName(t[j])
  }

  lemma KeptRowsDiffer(t: Table, i: nat, j: nat)
    requires Keyed(t) && i < |t| && j < |t| && i != j && !Renamed(t, i) && !Renamed(t, j)
    ensures !SameName(t[i], t[j])
  {
    KeepsTheEarliest(t, i);
    KeepsTheEarliest(t, j);
    assert t[i].id != t[j].id;
  }

  /** Two rows end up with one name exactly when one of them collides with the other. */
  lemma SameNameAfter(t: Table, i: nat, j: nat)
    requires Keyed(t) && i < |t| && j < |t| && i != j
    ensures SameName(Updated(t)[i], Updated(t)[j]) <==> Collides(t, i, j) || Collides(t, j, i)
  {
    assert t[i].id != t[j].id;
    if Renamed(t, i) && Renamed(t, j) {
      NewNamesDiffer(t[i], t[j]);
    } else if !Renamed(t, i) && !Renamed(t, j) {
      KeptRowsDiffer(t, i, j);
    }
  }

  /** The migration makes (sessionId, name) unique exactly when no kept name is already a new name. */
  lemma UniqueExactlyWithoutCollision(t: Table)
    requires Keyed(t)
    ensures UniqueNames(Updated(t)) <==> forall i, j :: 0 <= i < |t| && 0 <= j < |t| ==> !Collides(t, i, j)
  {
    forall i, j | 0 <= i < |t| && 0 <= j < |t| && i != j
      ensures SameName(Updated(t)[i], Updated(t)[j]) <==> Collides(t, i, j) || Collides(t, j, i)
    {
      SameNameAfter(t, i, j);
    }
  }

  /** In particular when no name ends in another row's "-dup-<id>". */
  lemma UniqueWithoutLookalikes(t: Table)
    requires Keyed(t)
    requires forall i, j :: 0 <= i < |t| && 0 <= j < |t| && i != j ==> !EndsWith(t[i].name, Suffix(t[j]))
    ensures UniqueNames(Updated(t)) && Updated(Updated(t)) == Updated(t)
  {
    forall i, j | 0 <= i < |t| && 0 <= j < |t| ensures !Collides(t, i, j) {
      NewNameEnds(t[j]);
    }
    UniqueExactlyWithoutCollision(t);
    UniqueIsFixed(Updated(t));
  }

  /** On unique names the UPDATE changes nothing. */
  lemma UniqueIsFixed(t: Table)
    requires UniqueNames(t)
    ensures Updated(t) == t
  {
    forall i | 0 <= i < |t| ensures !Renamed(t, i) {
      var f := First(t, t[i].sessionId, t[i].name);
      var k :| 0 <= k < |t| && t[k] == f;
      assert SameName(t[k], t[i]) && SameName(t[i], t[k]);
    }
  }

  /** The new name can collide: a third row may already bear it. */
  lemma LookalikeCollides(a: Row, b: Row, c: Row)
    requires Keyed([a, b, c]) && SameName(a, b) && Before(a, b)
    requires c.sessionId == b.sessionId && c.name == NewName(b) && c.name != a.name
    ensures !UniqueNames(Updated([a, b, c]))
  {
    var t := [a, b, c];
    KeepsTheEarliest(t, 1);
    KeepsTheEarliest(t, 2);
    assert SameName(t[0], t[1]) && Before(t[0], t[1]);
    assert Collides(t, 2, 1);
    SameNameAfter(t, 1, 2);
  }

  // ----- The migration -----

  class Templates {
    var hasTable: bool
    var rows: Table
    var indexed: bool

    predicate Valid()
      reads this
    {
      indexed ==> UniqueNames(rows)
    }

    /** up(): fails when the unique index cannot be created. */
    method Up() returns (ok: bool)
      requires Valid()
      modifies this
      ensures Valid() && hasTable == old(hasTable)
      ensures rows == if hasTable then Updated(old(rows)) else old(rows)
      ensures ok <==> (hasTable ==> UniqueNames(rows))
      ensures indexed == if hasTable then ok else old(indexed)
    {
      if !hasTable {
        return true;
      }
      var snapshot := rows;
      for i := 0 to |snapshot|
        invariant hasTable && indexed == old(indexed)
        invariant |rows| == |snapshot|
        invariant forall k :: 0 <= k < i ==> rows[k] == UpdatedRow(snapshot, k)
        invariant forall k :: i <= k < |snapshot| ==> rows[k] == snapshot[k]
      {
        var keeper := First(snapshot, snapshot[i].sessionId, snapshot[i].name);
        if snapshot[i].id != keeper.id {
          rows := rows[i := rows[i].(name := NewName(snapshot[i]))];
        }
      }
      assert rows == Updated(snapshot);
      if indexed {
        UniqueIsFixed(snapshot);
      } else {
        indexed := UniqueNames(rows);
      }
      ok := indexed;
    }
  }
}

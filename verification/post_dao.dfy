/** The `posts` table as the data-access object promises it: a keyed
    collection with at most one row per primary key, read back ordered by id.

    The concrete representation is the ordered read-back itself (a sequence
    strictly ascending by id); its meaning is the primary-key map
    `Contents`, and every operation is specified against that map. */
module PostDao {
  import opened Types
  import opened Models

  /** Strictly ascending ids: sorted, and no id twice. */
  predicate StrictlyAscending(rows: seq<PostEntity>) {
    forall i, j :: 0 <= i < j < |rows| ==> rows[i].id < rows[j].id
  }

  /** The table's state, kept in `ORDER BY id ASC` order. */
  type Table = rows: seq<PostEntity> | StrictlyAscending(rows)

  /** The ids occurring in a sequence of rows. */
  function IdSet(rows: seq<PostEntity>): set<Int32> {
    set x | x in rows :: x.id
  }

  /** The primary-key map a sequence of rows denotes (on a `Table` every id
      occurs once, so which occurrence wins never matters there). */
  function Contents(rows: seq<PostEntity>): map<Int32, PostEntity> {
    if |rows| == 0 then map[]
    else Contents(rows[1..])[rows[0].id := rows[0]]
  }

  /** The rows a batch writes, per id: a later row replaces an earlier row
      with the same id. */
  function Batch(rows: seq<PostEntity>): map<Int32, PostEntity> {
    if |rows| == 0 then map[]
    else
      var last := rows[|rows| - 1];
      Batch(rows[..|rows| - 1])[last.id := last]
  }

  /** The empty table. */
  const Empty: Table := []

  // ---------------------------------------------------------------------
  // Reads
  // ---------------------------------------------------------------------

  /** `getAllPosts`: every stored row, once, ascending by id. */
  function GetAllPosts(t: Table): (r: seq<PostEntity>)
    ensures StrictlyAscending(r)
    ensures |r| == |Contents(t)|
    ensures forall x :: x in r <==> x.id in Contents(t) && Contents(t)[x.id] == x
  {
    TableSize(t);
    TableMembership(t);
    t
  }

  /** `getPostById`: the row stored under that id, or none. */
  function GetPostById(t: Table, id: Int32): (r: Option<PostEntity>)
    ensures r == (if id in Contents(t) then Some(Contents(t)[id]) else None)
  {
    if |t| == 0 then None
    else
      var tail := Tail(t);
      ContentsCons(t[0], tail);
      if t[0].id == id then Some(t[0]) else GetPostById(tail, id)
  }

  // ---------------------------------------------------------------------
  // Writes
  // ---------------------------------------------------------------------

  /** `insertPost` with the REPLACE conflict strategy: the row for `e.id`
      becomes `e`, whatever was there before; no other row changes. */
  function InsertPost(t: Table, e: PostEntity): (r: Table)
    ensures Contents(r) == Contents(t)[e.id := e]
    ensures forall x :: x in r ==> x == e || x in t
  {
    if |t| == 0 then
      ContentsCons(e, []);
      [e]
    else if e.id < t[0].id then
      ConsAscending(e, t);
      ContentsCons(e, t);
      [e] + t
    else
      var tail := Tail(t);
      ContentsCons(t[0], tail);
      if e.id == t[0].id then
        ConsAscending(e, tail);
        ContentsCons(e, tail);
        UpdateTwice(Contents(tail), e.id, t[0], e);
        [e] + tail
      else
        var rest := InsertPost(tail, e);
        ConsAscending(t[0], rest);
        ContentsCons(t[0], rest);
        UpdateCommute(Contents(tail), e.id, e, t[0].id, t[0]);
        [t[0]] + rest
  }

  /** `insertPosts` with the REPLACE conflict strategy: the rows are written
      one after the other in list order, so the table afterwards is the old
      table overridden by the batch's last row per id. */
  function InsertPosts(t: Table, rows: seq<PostEntity>): (r: Table)
    ensures Contents(r) == Contents(t) + Batch(rows)
  {
    if |rows| == 0 then
      MapUnionEmpty(Contents(t));
      t
    else
      var last := rows[|rows| - 1];
      UnionUpdate(Contents(t), Batch(rows[..|rows| - 1]), last.id, last);
      InsertPost(InsertPosts(t, rows[..|rows| - 1]), last)
  }

  /** `deleteAllPosts`: the table afterwards holds no row. */
  function DeleteAllPosts(t: Table): (r: Table)
    ensures Contents(r) == map[]
    ensures forall id :: GetPostById(r, id) == None
    ensures GetAllPosts(r) == []
  {
    Empty
  }

  /** `updatePost` (an UPDATE by primary key): the row with `e.id`, if there
      is one, becomes `e`; when there is none, nothing changes. Positions and
      ids of all rows are kept. */
  function UpdatePost(t: Table, e: PostEntity): (r: Table)
    ensures |r| == |t|
    ensures forall i :: 0 <= i < |t| ==> r[i].id == t[i].id
    ensures e.id in Contents(t) ==> Contents(r) == Contents(t)[e.id := e]
    ensures e.id !in Contents(t) ==> r == t
  {
    if |t| == 0 then t
    else
      var tail := Tail(t);
      ContentsCons(t[0], tail);
      if t[0].id == e.id then
        ConsAscending(e, tail);
        ContentsCons(e, tail);
        UpdateTwice(Contents(tail), e.id, t[0], e);
        [e] + tail
      else
        var rest := UpdatePost(tail, e);
        SameIdsAbove(t[0], tail, rest);
        ConsAscending(t[0], rest);
        ContentsCons(t[0], rest);
        if e.id in Contents(tail) then
          UpdateCommute(Contents(tail), e.id, e, t[0].id, t[0]);
          [t[0]] + rest
        else
          [t[0]] + rest
  }

  // ---------------------------------------------------------------------
  // Facts about the representation
  // ---------------------------------------------------------------------

  /** Dropping the first row keeps a table a table, and every remaining id
      is above the dropped one. */
  function Tail(t: Table): (r: Table)
    requires |t| > 0
    ensures r == t[1..]
    ensures t == [t[0]] + r
    ensures forall x :: x in r ==> t[0].id < x.id
  {
    forall x | x in t[1..] ensures t[0].id < x.id {
      var k :| 0 <= k < |t[1..]| && t[1..][k] == x;
      assert t[k + 1] == x;
    }
    t[1..]
  }

  /** A row below every row of a table can be put in front of it. */
  lemma ConsAscending(x: PostEntity, t: Table)
    requires forall y :: y in t ==> x.id < y.id
    ensures StrictlyAscending([x] + t)
  {
    var r := [x] + t;
    forall i, j | 0 <= i < j < |r| ensures r[i].id < r[j].id {
      assert r[j] == t[j - 1];
      if i > 0 {
        assert r[i] == t[i - 1];
      } else {
        assert t[j - 1] in t;
      }
    }
  }

  /** Two sequences with the same ids position by position share every
      lower bound on their ids. */
  lemma SameIdsAbove(x: PostEntity, a: seq<PostEntity>, b: seq<PostEntity>)
    requires |a| == |b|
    requires forall i :: 0 <= i < |a| ==> b[i].id == a[i].id
    requires forall y :: y in a ==> x.id < y.id
    ensures forall y :: y in b ==> x.id < y.id
  {
    forall y | y in b ensures x.id < y.id {
      var k :| 0 <= k < |b| && b[k] == y;
      assert a[k] in a;
    }
  }

  /** The map of a sequence with one row in front. */
  lemma ContentsCons(x: PostEntity, rows: seq<PostEntity>)
    ensures Contents([x] + rows) == Contents(rows)[x.id := x]
  {
    assert ([x] + rows)[1..] == rows;
  }

  /** The keys of the map are the ids of the rows. */
  lemma {:induction false} ContentsKeys(rows: seq<PostEntity>)
    ensures Contents(rows).Keys == IdSet(rows)
  {
    if |rows| > 0 {
      ContentsKeys(rows[1..]);
      assert rows == [rows[0]] + rows[1..];
    }
  }

  /** The map's entry for an id is a row of the sequence carrying that id. */
  lemma {:induction false} ContentsValue(rows: seq<PostEntity>, id: Int32)
    requires id in Contents(rows)
    ensures Contents(rows)[id] in rows && Contents(rows)[id].id == id
  {
    if rows[0].id != id {
      ContentsValue(rows[1..], id);
    }
  }

  /** The keys a batch writes are the ids of its rows. */
  lemma {:induction false} BatchKeys(rows: seq<PostEntity>)
    ensures Batch(rows).Keys == IdSet(rows)
  {
    if |rows| > 0 {
      var init, last := rows[..|rows| - 1], rows[|rows| - 1];
      BatchKeys(init);
      assert rows == init + [last];
    }
  }

  /** Two writes to different keys commute. */
  lemma UpdateCommute<K, V>(m: map<K, V>, a: K, va: V, b: K, vb: V)
    requires a != b
    ensures m[a := va][b := vb] == m[b := vb][a := va]
  {
    var l, r := m[a := va][b := vb], m[b := vb][a := va];
    assert l.Keys == r.Keys;
    forall k | k in l ensures l[k] == r[k] {
    }
  }

  /** A second write to a key overwrites the first. */
  lemma UpdateTwice<K, V>(m: map<K, V>, a: K, v1: V, v2: V)
    ensures m[a := v1][a := v2] == m[a := v2]
  {
    var l, r := m[a := v1][a := v2], m[a := v2];
    assert l.Keys == r.Keys;
    forall k | k in l ensures l[k] == r[k] {
    }
  }

  /** A write after a union lands in the right-hand operand. */
  lemma UnionUpdate<K, V>(m: map<K, V>, n: map<K, V>, a: K, v: V)
    ensures (m + n)[a := v] == m + n[a := v]
  {
    var l, r := (m + n)[a := v], m + n[a := v];
    assert l.Keys == r.Keys;
    forall k | k in l ensures l[k] == r[k] {
    }
  }

  /** The empty map is a right unit of union. */
  lemma MapUnionEmpty<K, V>(m: map<K, V>)
    ensures m + map[] == m
  {
    var l := m + map[];
    assert l.Keys == m.Keys;
    forall k | k in l ensures l[k] == m[k] {
    }
  }

  /** A row is in the table exactly when it is the map's entry for its id. */
  lemma {:induction false} TableMembership(t: Table)
    ensures forall x :: x in t <==> x.id in Contents(t) && Contents(t)[x.id] == x
  {
    if |t| > 0 {
      var tail := Tail(t);
      TableMembership(tail);
      ContentsCons(t[0], tail);
      forall x | x in t ensures x.id in Contents(t) && Contents(t)[x.id] == x {
        if x != t[0] {
          assert x in tail;
        }
      }
      forall x: PostEntity | x.id in Contents(t) && Contents(t)[x.id] == x ensures x in t {
        ContentsValue(t, x.id);
      }
    }
  }

  /** The first row's id is not among the ids of the rest. */
  lemma FirstIdFresh(t: Table)
    requires |t| > 0
    ensures t[0].id !in Contents(t[1..])
  {
    var tail := Tail(t);
    ContentsKeys(tail);
    forall x | x in tail ensures x.id != t[0].id {
    }
    assert t[0].id !in IdSet(tail);
  }

  /** The table has one row per key of its map. */
  lemma {:induction false} TableSize(t: Table)
    ensures |Contents(t)| == |t|
  {
    if |t| > 0 {
      var tail := Tail(t);
      TableSize(tail);
      FirstIdFresh(t);
      ContentsCons(t[0], tail);
    }
  }

  /** The first row holds the least id of the table. */
  lemma FirstIsLeast(t: Table)
    requires |t| > 0
    ensures forall id :: id in Contents(t) ==> t[0].id <= id
  {
    forall id | id in Contents(t) ensures t[0].id <= id {
      ContentsValue(t, id);
      var k :| 0 <= k < |t| && t[k] == Contents(t)[id];
    }
  }

  /** The map of a table without its first row. */
  lemma ContentsTail(t: Table)
    requires |t| > 0
    ensures Contents(t[1..]) == Contents(t) - {t[0].id}
  {
    var tail := Tail(t);
    ContentsCons(t[0], tail);
    FirstIdFresh(t);
    var l, r := Contents(tail), Contents(t) - {t[0].id};
    assert l.Keys == r.Keys;
    forall k | k in l ensures l[k] == r[k] {
    }
  }

  /** The representation is canonical: two tables with the same map are the
      same sequence. So the read-back depends on the stored rows only, never
      on the order in which they were written. */
  lemma {:induction false} TableExtensional(a: Table, b: Table)
    requires Contents(a) == Contents(b)
    ensures a == b
  {
    if |a| == 0 || |b| == 0 {
      TableSize(a);
      TableSize(b);
    } else {
      ContentsCons(a[0], Tail(a));
      ContentsCons(b[0], Tail(b));
      assert a[0].id in Contents(a) && b[0].id in Contents(b);
      FirstIsLeast(a);
      FirstIsLeast(b);
      assert a[0].id <= b[0].id && b[0].id <= a[0].id;
      assert a[0].id == b[0].id;
      assert a[0] == b[0];
      ContentsTail(a);
      ContentsTail(b);
      TableExtensional(a[1..], b[1..]);
    }
  }

  // ---------------------------------------------------------------------
  // Properties of the store
  // ---------------------------------------------------------------------

  /** No id occurs twice in a sequence of rows. */
  predicate DistinctIds(rows: seq<PostEntity>) {
    forall i, j :: 0 <= i < j < |rows| ==> rows[i].id != rows[j].id
  }

  /** Within a batch, the last row written for an id is the one kept. */
  lemma {:induction false} BatchLastWins(rows: seq<PostEntity>, i: nat)
    requires i < |rows|
    requires forall j :: i < j < |rows| ==> rows[j].id != rows[i].id
    ensures rows[i].id in Batch(rows) && Batch(rows)[rows[i].id] == rows[i]
  {
    if i < |rows| - 1 {
      var init := rows[..|rows| - 1];
      BatchLastWins(init, i);
    }
  }

  /** Every entry a batch writes is one of its rows, under its own id. */
  lemma {:induction false} BatchValue(rows: seq<PostEntity>, id: Int32)
    requires id in Batch(rows)
    ensures Batch(rows)[id] in rows && Batch(rows)[id].id == id
  {
    var init, last := rows[..|rows| - 1], rows[|rows| - 1];
    assert rows == init + [last];
    if last.id != id {
      BatchValue(init, id);
    }
  }

  /** A batch with distinct ids writes one entry per row. */
  lemma {:induction false} BatchSize(rows: seq<PostEntity>)
    requires DistinctIds(rows)
    ensures |Batch(rows)| == |rows|
  {
    if |rows| > 0 {
      var init, last := rows[..|rows| - 1], rows[|rows| - 1];
      BatchSize(init);
      BatchKeys(init);
      forall x | x in init ensures x.id != last.id {
        var k :| 0 <= k < |init| && init[k] == x;
        assert rows[k] == x;
      }
      assert last.id !in IdSet(init);
    }
  }

  /** The empty map is a left unit of union. */
  lemma MapEmptyUnion<K, V>(m: map<K, V>)
    ensures map[] + m == m
  {
    var l := map[] + m;
    assert l.Keys == m.Keys;
    forall k | k in l ensures l[k] == m[k] {
    }
  }

  /** Writing a batch of rows with distinct ids into an empty table reads
      back exactly those rows, each once. */
  lemma InsertFreshBatch(rows: seq<PostEntity>)
    requires DistinctIds(rows)
    ensures |GetAllPosts(InsertPosts(Empty, rows))| == |rows|
    ensures forall x :: x in GetAllPosts(InsertPosts(Empty, rows)) <==> x in rows
  {
    var t := InsertPosts(Empty, rows);
    MapEmptyUnion(Batch(rows));
    assert Contents(t) == Batch(rows);
    BatchSize(rows);
    forall x ensures x in GetAllPosts(t) <==> x in rows {
      if x in rows {
        var i :| 0 <= i < |rows| && rows[i] == x;
        BatchLastWins(rows, i);
      }
      if x in GetAllPosts(t) {
        BatchValue(rows, x.id);
      }
    }
  }

  /** Two batches holding the same rows, each with distinct ids, write the
      same entries. */
  lemma SameRowsSameBatch(a: seq<PostEntity>, b: seq<PostEntity>)
    requires DistinctIds(a) && DistinctIds(b)
    requires forall x :: x in a <==> x in b
    ensures Batch(a) == Batch(b)
  {
    BatchKeys(a);
    BatchKeys(b);
    assert IdSet(a) == IdSet(b);
    forall id | id in Batch(a) ensures Batch(b)[id] == Batch(a)[id] {
      BatchValue(a, id);
      var k :| 0 <= k < |b| && b[k] == Batch(a)[id];
      BatchLastWins(b, k);
    }
  }

  /** The read-back does not depend on insertion order: writing the same
      rows (distinct ids) in any order yields the same table. */
  lemma InsertionOrderIrrelevant(t: Table, a: seq<PostEntity>, b: seq<PostEntity>)
    requires DistinctIds(a) && DistinctIds(b)
    requires forall x :: x in a <==> x in b
    ensures GetAllPosts(InsertPosts(t, a)) == GetAllPosts(InsertPosts(t, b))
  {
    SameRowsSameBatch(a, b);
    TableExtensional(InsertPosts(t, a), InsertPosts(t, b));
  }

  /** Writing an already ordered table's rows into an empty table gives
      back that table. */
  lemma InsertSortedRows(rows: Table)
    ensures InsertPosts(Empty, rows) == rows
  {
    var t := InsertPosts(Empty, rows);
    MapEmptyUnion(Batch(rows));
    ContentsKeys(rows);
    BatchKeys(rows);
    forall id | id in Contents(rows) ensures Batch(rows)[id] == Contents(rows)[id] {
      ContentsValue(rows, id);
      var k :| 0 <= k < |rows| && rows[k] == Contents(rows)[id];
      BatchLastWins(rows, k);
    }
    assert Contents(t) == Contents(rows);
    TableExtensional(t, rows);
  }

  /** Rows written with ids 5, 2, 8, 1 are read back with ids 1, 2, 5, 8. */
  lemma ReadBackAscendingExample(p1: PostEntity, p2: PostEntity, p5: PostEntity, p8: PostEntity)
    requires p1.id == 1 && p2.id == 2 && p5.id == 5 && p8.id == 8
    ensures GetAllPosts(InsertPosts(Empty, [p5, p2, p8, p1])) == [p1, p2, p5, p8]
  {
    var sorted: Table := [p1, p2, p5, p8];
    InsertionOrderIrrelevant(Empty, [p5, p2, p8, p1], sorted);
    InsertSortedRows(sorted);
  }

  /** A written row reads back by its id with identical fields, and every
      other id reads as before. */
  lemma InsertThenGet(t: Table, e: PostEntity, other: Int32)
    ensures GetPostById(InsertPost(t, e), e.id) == Some(e)
    ensures other != e.id ==> GetPostById(InsertPost(t, e), other) == GetPostById(t, other)
  {
  }

  /** Writing the same id twice leaves one row, holding the second write. */
  lemma InsertReplaces(t: Table, first: PostEntity, second: PostEntity)
    requires first.id == second.id
    ensures InsertPost(InsertPost(t, first), second) == InsertPost(t, second)
    ensures GetPostById(InsertPost(InsertPost(t, first), second), second.id) == Some(second)
  {
    UpdateTwice(Contents(t), first.id, first, second);
    TableExtensional(InsertPost(InsertPost(t, first), second), InsertPost(t, second));
  }

  /** On a stored id an update is an insert-or-replace; on an id not stored
      the update changes nothing, while the insert adds a row. */
  lemma UpdateVersusInsert(t: Table, e: PostEntity)
    ensures e.id in Contents(t) ==> UpdatePost(t, e) == InsertPost(t, e)
    ensures e.id !in Contents(t) ==> UpdatePost(t, e) == t && |InsertPost(t, e)| == |t| + 1
  {
    if e.id in Contents(t) {
      TableExtensional(UpdatePost(t, e), InsertPost(t, e));
    } else {
      TableSize(t);
      TableSize(InsertPost(t, e));
    }
  }
}

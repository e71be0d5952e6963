/**
 The FileBlock table (metadata/scripts/create.sql) and the SQL statements that
 metadata/src/mysql_helper.cc sends to it.  A table is a sequence of rows in
 storage order; INSERT may put a row anywhere, so nothing below depends on that order.
 */
module FileBlockTable {
  import opened Basics

  datatype Row = Row(userId: string, fileName: string, blockHash: Hash,
                     blockNumber: nat, version: nat, accessed: nat)

  type Table = seq<Row>

  // ---------------------------------------------------------------- WHERE

  function Where(t: Table, p: Row -> bool): Table {
    if t == [] then [] else (if p(t[0]) then [t[0]] else []) + Where(t[1..], p)
  }

  lemma {:induction false} WhereIn(t: Table, p: Row -> bool)
    ensures forall r :: r in Where(t, p) <==> r in t && p(r)
  {
    if t != [] {
      WhereIn(t[1..], p);
      assert t == [t[0]] + t[1..];
    }
  }

  /** A WHERE takes each row that satisfies it as often as it occurs. */
  lemma {:induction false} WhereCount(t: Table, p: Row -> bool, r: Row)
    ensures multiset(Where(t, p))[r] == if p(r) then multiset(t)[r] else 0
  {
    if t != [] {
      WhereCount(t[1..], p, r);
      assert t == [t[0]] + t[1..];
    }
  }

  lemma {:induction false} WhereAppend(a: Table, b: Table, p: Row -> bool)
    ensures Where(a + b, p) == Where(a, p) + Where(b, p)
  {
    if a == [] {
      assert a + b == b;
    } else {
      var head := if p(a[0]) then [a[0]] else [];
      assert Where(a + b, p) == head + Where(a[1..] + b, p) by {
        assert (a + b)[1..] == a[1..] + b;
      }
      WhereAppend(a[1..], b, p);
      assert head + (Where(a[1..], p) + Where(b, p)) == (head + Where(a[1..], p)) + Where(b, p);
    }
  }

  lemma {:induction false} WhereTwice(t: Table, p: Row -> bool, q: Row -> bool)
    requires forall r :: q(r) ==> p(r)
    ensures Where(Where(t, p), q) == Where(t, q)
  {
    if t != [] {
      WhereTwice(t[1..], p, q);
      var head := if p(t[0]) then [t[0]] else [];
      WhereAppend(head, Where(t[1..], p), q);
    }
  }

  lemma {:induction false} WhereNone(t: Table, p: Row -> bool, q: Row -> bool)
    requires forall r :: q(r) ==> !p(r)
    ensures Where(Where(t, p), q) == []
  {
    if t != [] {
      WhereNone(t[1..], p, q);
      WhereAppend(if p(t[0]) then [t[0]] else [], Where(t[1..], p), q);
    }
  }

  function FileIs(u: string, f: string): Row -> bool {
    (r: Row) => r.userId == u && r.fileName == f
  }

  function FileIsNot(u: string, f: string): Row -> bool {
    (r: Row) => !(r.userId == u && r.fileName == f)
  }

  function UserIs(u: string): Row -> bool {
    (r: Row) => r.userId == u
  }

  /** SELECT ... WHERE user_id = u AND file_name = f */
  function SelectFile(t: Table, u: string, f: string): Table {
    Where(t, FileIs(u, f))
  }

  /** SELECT ... WHERE user_id = u */
  function SelectUser(t: Table, u: string): Table {
    Where(t, UserIs(u))
  }

  /** The table that DELETE ... WHERE user_id = u AND file_name = f leaves behind. */
  function DeleteFile(t: Table, u: string, f: string): Table {
    Where(t, FileIsNot(u, f))
  }

  /** The three selections, in terms of the columns. */
  lemma SelectionsExact(t: Table, u: string, f: string, r: Row)
    ensures multiset(SelectFile(t, u, f))[r] == if r.userId == u && r.fileName == f then multiset(t)[r] else 0
    ensures multiset(SelectUser(t, u))[r] == if r.userId == u then multiset(t)[r] else 0
    ensures multiset(DeleteFile(t, u, f))[r] == if r.userId == u && r.fileName == f then 0 else multiset(t)[r]
  {
    WhereCount(t, FileIs(u, f), r);
    WhereCount(t, UserIs(u), r);
    WhereCount(t, FileIsNot(u, f), r);
  }

  // ----------------------------------------------------- other users' rows

  function UserIsNot(u: string): Row -> bool {
    (r: Row) => r.userId != u
  }

  /** The rows of all other users, in storage order. */
  function OtherRows(t: Table, u: string): Table {
    Where(t, UserIsNot(u))
  }

  /** Keeping them keeps what anyone else can select. */
  lemma OtherRowsKept(t: Table, t': Table, u: string, v: string, f: string)
    requires OtherRows(t', u) == OtherRows(t, u) && v != u
    ensures SelectFile(t', v, f) == SelectFile(t, v, f) && SelectUser(t', v) == SelectUser(t, v)
  {
    WhereTwice(t, UserIsNot(u), FileIs(v, f));
    WhereTwice(t', UserIsNot(u), FileIs(v, f));
    WhereTwice(t, UserIsNot(u), UserIs(v));
    WhereTwice(t', UserIsNot(u), UserIs(v));
  }

  lemma DeleteKeepsOtherRows(t: Table, u: string, f: string)
    ensures OtherRows(DeleteFile(t, u, f), u) == OtherRows(t, u)
  {
    WhereTwice(t, FileIsNot(u, f), UserIsNot(u));
  }

  /** The table after an INSERT whose row the storage engine put at position k. */
  function InsertAt(t: Table, k: nat, r: Row): Table
    requires k <= |t|
  {
    t[..k] + [r] + t[k..]
  }

  /** SELECT COUNT(*) ... WHERE block_hash = h */
  function CountHash(t: Table, h: Hash): (n: nat)
    ensures n == 0 <==> forall r | r in t :: r.blockHash != h
  {
    if t == [] then 0 else (if t[0].blockHash == h then 1 else 0) + CountHash(t[1..], h)
  }

  lemma WhereInsert(t: Table, k: nat, r: Row, p: Row -> bool)
    requires k <= |t|
    ensures !p(r) ==> Where(InsertAt(t, k, r), p) == Where(t, p)
    ensures p(r) ==> multiset(Where(InsertAt(t, k, r), p)) == multiset(Where(t, p)) + multiset{r}
  {
    WhereSplit(t, k, r, p);
    if p(r) {
      MultisetInsert(Where(t[..k], p), r, Where(t[k..], p));
    } else {
      assert Where(t[..k], p) + [] == Where(t[..k], p);
    }
  }

  lemma WhereSplit(t: Table, k: nat, r: Row, p: Row -> bool)
    requires k <= |t|
    ensures Where(t, p) == Where(t[..k], p) + Where(t[k..], p)
    ensures Where(InsertAt(t, k, r), p) ==
            Where(t[..k], p) + (if p(r) then [r] else []) + Where(t[k..], p)
  {
    assert Where(t, p) == Where(t[..k], p) + Where(t[k..], p) by {
      WhereAppend(t[..k], t[k..], p);
      assert t[..k] + t[k..] == t;
    }
    WhereAppend(t[..k] + [r], t[k..], p);
    WhereSnoc(t[..k], r, p);
  }

  lemma WhereSnoc(t: Table, r: Row, p: Row -> bool)
    ensures Where(t + [r], p) == Where(t, p) + (if p(r) then [r] else [])
  {
    WhereAppend(t, [r], p);
    assert Where([r], p) == (if p(r) then [r] else []) + Where([], p);
  }

  /** Deleting one file leaves every other file's rows as they were, in order. */
  lemma DeleteKeepsOthers(t: Table, u: string, f: string, u': string, f': string)
    requires u != u' || f != f'
    ensures SelectFile(DeleteFile(t, u, f), u', f') == SelectFile(t, u', f')
  {
    WhereTwice(t, FileIsNot(u, f), FileIs(u', f'));
  }

  lemma DeleteRemoves(t: Table, u: string, f: string)
    ensures SelectFile(DeleteFile(t, u, f), u, f) == []
    ensures DeleteFile(DeleteFile(t, u, f), u, f) == DeleteFile(t, u, f)
  {
    WhereNone(t, FileIsNot(u, f), FileIs(u, f));
    WhereTwice(t, FileIsNot(u, f), FileIsNot(u, f));
  }

  // ------------------------------------------------------------- ORDER BY

  datatype SortKey = SortKey(major: int, minor: int)

  predicate KeyLeq(a: SortKey, b: SortKey) {
    a.major < b.major || (a.major == b.major && a.minor <= b.minor)
  }

  /** ORDER BY block_number ASC */
  function ByNumber(): Row -> SortKey {
    (r: Row) => SortKey(r.blockNumber, 0)
  }

  /** ORDER BY block_number ASC, time_last_accessed DESC */
  function ByNumberThenRecent(): Row -> SortKey {
    (r: Row) => SortKey(r.blockNumber, 0 - r.accessed)
  }

  predicate SortedBy(rows: Table, key: Row -> SortKey) {
    forall i, j | 0 <= i < j < |rows| :: KeyLeq(key(rows[i]), key(rows[j]))
  }

  lemma SortedCons(first: Row, r: Row, rest: Table, tail: Table, key: Row -> SortKey)
    requires SortedBy([first] + rest, key) && SortedBy(tail, key)
    requires !KeyLeq(key(r), key(first))
    requires multiset(tail) == multiset{r} + multiset(rest)
    ensures SortedBy([first] + tail, key)
    ensures multiset([first] + tail) == multiset{r} + multiset([first] + rest)
  {
    var whole, old' := [first] + tail, [first] + rest;
    forall j | 0 < j < |whole|
      ensures KeyLeq(key(first), key(whole[j]))
    {
      assert whole[j] in multiset(tail);
      if whole[j] != r {
        assert whole[j] in rest;
        var i :| 0 <= i < |rest| && rest[i] == whole[j];
        assert old'[0] == first && old'[i + 1] == whole[j];
      }
    }
    assert forall i | 0 < i < |whole| :: whole[i] == tail[i - 1];
  }

  function InsertSorted(r: Row, rows: Table, key: Row -> SortKey): (out: Table)
    requires SortedBy(rows, key)
    ensures SortedBy(out, key)
    ensures multiset(out) == multiset{r} + multiset(rows)
  {
    assert rows != [] ==> rows == [rows[0]] + rows[1..];
    if rows == [] || KeyLeq(key(r), key(rows[0])) then
      assert multiset([r] + rows) == multiset{r} + multiset(rows);
      [r] + rows
    else
      var tail := InsertSorted(r, rows[1..], key);
      SortedCons(rows[0], r, rows[1..], tail, key);
      [rows[0]] + tail
  }

  function OrderBy(rows: Table, key: Row -> SortKey): (out: Table)
    ensures SortedBy(out, key)
    ensures multiset(out) == multiset(rows)
    ensures |out| == |rows|
  {
    if rows == [] then []
    else
      assert rows == [rows[0]] + rows[1..];
      var out := InsertSorted(rows[0], OrderBy(rows[1..], key), key);
      assert |multiset(out)| == |multiset(rows)|;
      out
  }

  function RowHashes(rows: Table): (hashes: seq<Hash>)
    ensures |hashes| == |rows|
    ensures forall i | 0 <= i < |rows| :: hashes[i] == rows[i].blockHash
  {
    seq(|rows|, i requires 0 <= i < |rows| => rows[i].blockHash)
  }

  /** What getFileBlockList reads for a file. */
  function BlockListOf(t: Table, u: string, f: string): seq<Hash> {
    RowHashes(OrderBy(SelectFile(t, u, f), ByNumber()))
  }

  /** The rows behind getRecentFirstHashes: ORDER BY ... LIMIT max. */
  function RecentRows(t: Table, u: string, max: nat): Table {
    var ordered := OrderBy(SelectUser(t, u), ByNumberThenRecent());
    ordered[..Min(max, |ordered|)]
  }

  // ------------------------------------- what a file's rows say together

  datatype Entry = Entry(version: nat, hashes: seq<Hash>)

  /** A row without its owner and time stamp. */
  datatype Cell = Cell(hash: Hash, number: nat, version: nat)

  function Cells(rows: Table): (cells: seq<Cell>)
    ensures |cells| == |rows|
    ensures forall i | 0 <= i < |rows| ::
      cells[i] == Cell(rows[i].blockHash, rows[i].blockNumber, rows[i].version)
  {
    seq(|rows|, i requires 0 <= i < |rows| =>
      Cell(rows[i].blockHash, rows[i].blockNumber, rows[i].version))
  }

  /** Blocks numbered 0..n-1, once each, all under one version. */
  function Numbered(e: Entry): (cells: seq<Cell>)
    ensures |cells| == |e.hashes|
    ensures forall i | 0 <= i < |cells| :: cells[i] == Cell(e.hashes[i], i, e.version)
  {
    seq(|e.hashes|, i requires 0 <= i < |e.hashes| => Cell(e.hashes[i], i, e.version))
  }

  /** The rows, in whatever order they are stored, are exactly the entry's blocks. */
  ghost predicate Holds(rows: Table, e: Entry) {
    multiset(Cells(rows)) == multiset(Numbered(e))
  }

  lemma {:induction false} CellsOfSame(a: Table, b: Table)
    requires multiset(a) == multiset(b)
    ensures multiset(Cells(a)) == multiset(Cells(b))
  {
    assert |multiset(a)| == |a| && |multiset(b)| == |b|;
    if a != [] {
      assert a[0] in multiset(b);
      var k :| 0 <= k < |b| && b[k] == a[0];
      SameAfterRemoval(a, 0, b, k);
      CellsOfSame(RemoveAt(a, 0), RemoveAt(b, k));
      CellsRemoveAt(a, 0);
      CellsRemoveAt(b, k);
      SameAfterRemoval(Cells(a), 0, Cells(b), k);
    }
  }

  lemma CellsRemoveAt(rows: Table, k: nat)
    requires k < |rows|
    ensures Cells(RemoveAt(rows, k)) == RemoveAt(Cells(rows), k)
  {
  }

  /** Sorting a file's cells by number gives back the entry in block order. */
  lemma {:induction false} SortedCellsAreNumbered(cells: seq<Cell>, e: Entry)
    requires multiset(cells) == multiset(Numbered(e))
    requires forall i, j | 0 <= i < j < |cells| :: cells[i].number <= cells[j].number
    ensures cells == Numbered(e)
    decreases |e.hashes|
  {
    var n, want := |e.hashes|, Numbered(e);
    assert |multiset(cells)| == |cells| && |multiset(want)| == n;
    if n > 0 {
      var e' := Entry(e.version, e.hashes[..n - 1]);
      WithoutLast(cells, e);
      SortedCellsAreNumbered(cells[..n - 1], e');
      forall i | 0 <= i < n
        ensures cells[i] == want[i]
      {
        assert i < n - 1 ==> cells[i] == cells[..n - 1][i] == Numbered(e')[i];
      }
    }
  }

  lemma WithoutLast(cells: seq<Cell>, e: Entry)
    requires multiset(cells) == multiset(Numbered(e)) && |cells| == |e.hashes| > 0
    requires forall i, j | 0 <= i < j < |cells| :: cells[i].number <= cells[j].number
    ensures var n := |cells|;
      && cells[n - 1] == Numbered(e)[n - 1]
      && multiset(cells[..n - 1]) == multiset(Numbered(Entry(e.version, e.hashes[..n - 1])))
  {
    var n, want := |cells|, Numbered(e);
    LastCell(cells, want);
    SameAfterRemoval(cells, n - 1, want, n - 1);
    assert RemoveAt(cells, n - 1) == cells[..n - 1];
    assert RemoveAt(want, n - 1) == Numbered(Entry(e.version, e.hashes[..n - 1]));
  }

  lemma LastCell(cells: seq<Cell>, want: seq<Cell>)
    requires |cells| == |want| > 0 && multiset(cells) == multiset(want)
    requires forall i | 0 <= i < |want| :: want[i].number == i
    requires forall i, j | 0 <= i < j < |cells| :: cells[i].number <= cells[j].number
    ensures cells[|cells| - 1] == want[|want| - 1]
  {
    var n := |cells|;
    assert want[n - 1] in multiset(cells);
    var j :| 0 <= j < n && cells[j] == want[n - 1];
    assert cells[n - 1] in multiset(want);
    var i :| 0 <= i < n && want[i] == cells[n - 1];
  }

  lemma HoldsGivesList(t: Table, u: string, f: string, e: Entry)
    requires Holds(SelectFile(t, u, f), e)
    ensures BlockListOf(t, u, f) == e.hashes
    ensures forall r | r in SelectFile(t, u, f) :: r.version == e.version
    ensures SelectFile(t, u, f) == [] <==> e.hashes == []
  {
    var rows := SelectFile(t, u, f);
    var sorted := OrderBy(rows, ByNumber());
    CellsOfSame(sorted, rows);
    assert forall i, j | 0 <= i < j < |sorted| ::
      KeyLeq(ByNumber()(sorted[i]), ByNumber()(sorted[j]));
    SortedCellsAreNumbered(Cells(sorted), e);
    assert |multiset(Cells(rows))| == |rows|;
    forall r | r in rows
      ensures r.version == e.version
    {
      var i :| 0 <= i < |rows| && rows[i] == r;
      assert Cells(rows)[i] in multiset(Numbered(e));
    }
  }
}

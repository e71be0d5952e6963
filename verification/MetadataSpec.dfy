/**
 What the metadata server promises: its row table refines a map from
 (user, file) to (version, hash list), at every statement boundary of a commit.
 */
module MetadataSpec {
  import opened Basics
  import opened FileBlockTable

  datatype FileKey = FileKey(user: string, name: string)

  type Catalog = map<FileKey, Entry>

  /** The abstract value of a table. */
  ghost predicate Represents(t: Table, m: Catalog) {
    forall u, f {:trigger SelectFile(t, u, f)} ::
      var k := FileKey(u, f);
      if k in m then m[k].hashes != [] && Holds(SelectFile(t, u, f), m[k])
      else SelectFile(t, u, f) == []
  }

  /** A file under a new hash list; a file without hashes leaves no trace. */
  function Put(m: Catalog, k: FileKey, e: Entry): Catalog {
    if e.hashes == [] then m - {k} else m[k := e]
  }

  /** The version check of updateFileData, on the map. */
  predicate MayCommit(m: Catalog, k: FileKey, version: nat) {
    if k in m then m[k].version < version else version == 0
  }

  /** The version check of updateFileData, on the rows: it looks at the first row only. */
  predicate Accepts(t: Table, u: string, f: string, version: nat) {
    var rows := SelectFile(t, u, f);
    if rows == [] then version == 0 else rows[0].version < version
  }

  /** One INSERT of block number n of a file. */
  ghost predicate Inserted(t: Table, t': Table, u: string, f: string, h: Hash, n: nat, version: nat) {
    exists k: nat, time: nat ::
      k <= |t| && t' == InsertAt(t, k, Row(u, f, h, n, version, time))
  }

  lemma InsertKeepsOtherRows(t: Table, t': Table, u: string, f: string, h: Hash, n: nat, version: nat)
    requires Inserted(t, t', u, f, h, n, version)
    ensures OtherRows(t', u) == OtherRows(t, u)
  {
    var k: nat, time: nat :| k <= |t| && t' == InsertAt(t, k, Row(u, f, h, n, version, time));
    WhereInsert(t, k, Row(u, f, h, n, version, time), UserIsNot(u));
  }

  /** The tables seen after 0, 1, 2, ... data-changing statements of one commit. */
  ghost predicate CommitTrace(trace: seq<Table>, u: string, f: string, hashes: seq<Hash>, version: nat) {
    && 1 <= |trace| <= |hashes| + 2
    && (|trace| > 1 ==> trace[1] == DeleteFile(trace[0], u, f))
    && forall i | 0 <= i < |trace| - 2 ::
         Inserted(trace[i + 1], trace[i + 2], u, f, hashes[i], i, version)
  }

  /** No statement of a commit touches a row of another user. */
  lemma {:induction false} TraceKeepsOtherRows(trace: seq<Table>, u: string, f: string, hashes: seq<Hash>,
                                                 version: nat, j: nat)
    requires CommitTrace(trace, u, f, hashes, version) && j < |trace|
    ensures OtherRows(trace[j], u) == OtherRows(trace[0], u)
    decreases j
  {
    if j == 1 {
      DeleteKeepsOtherRows(trace[0], u, f);
    } else if j > 1 {
      TraceKeepsOtherRows(trace, u, f, hashes, version, j - 1);
      assert Inserted(trace[j - 2 + 1], trace[j - 2 + 2], u, f, hashes[j - 2], j - 2, version);
      InsertKeepsOtherRows(trace[j - 1], trace[j], u, f, hashes[j - 2], j - 2, version);
    }
  }

  /** After the DELETE and j - 1 INSERTs the file is the new list's prefix; other rows are as before. */
  lemma {:induction false} TraceRows(trace: seq<Table>, u: string, f: string, hashes: seq<Hash>, version: nat, j: nat)
    requires CommitTrace(trace, u, f, hashes, version)
    requires 1 <= j < |trace|
    ensures Holds(SelectFile(trace[j], u, f), Entry(version, hashes[..j - 1]))
    ensures DeleteFile(trace[j], u, f) == DeleteFile(trace[0], u, f)
    decreases j
  {
    if j == 1 {
      DeleteRemoves(trace[0], u, f);
      assert Cells([]) == [] == Numbered(Entry(version, []));
      assert hashes[..0] == [];
    } else {
      TraceRows(trace, u, f, hashes, version, j - 1);
      assert Inserted(trace[j - 2 + 1], trace[j - 2 + 2], u, f, hashes[j - 2], j - 2, version);
      NextPrefix(trace[j - 1], trace[j], u, f, hashes, version, j - 2);
    }
  }

  lemma NextPrefix(t: Table, t': Table, u: string, f: string, hashes: seq<Hash>, version: nat, n: nat)
    requires n < |hashes| && Inserted(t, t', u, f, hashes[n], n, version)
    requires Holds(SelectFile(t, u, f), Entry(version, hashes[..n]))
    ensures Holds(SelectFile(t', u, f), Entry(version, hashes[..n + 1]))
    ensures DeleteFile(t', u, f) == DeleteFile(t, u, f)
  {
    InsertRows(t, t', u, f, hashes[n], Entry(version, hashes[..n]));
    assert hashes[..n] + [hashes[n]] == hashes[..n + 1];
  }

  lemma InsertRows(t: Table, t': Table, u: string, f: string, h: Hash, e: Entry)
    requires Inserted(t, t', u, f, h, |e.hashes|, e.version)
    requires Holds(SelectFile(t, u, f), e)
    ensures Holds(SelectFile(t', u, f), Entry(e.version, e.hashes + [h]))
    ensures DeleteFile(t', u, f) == DeleteFile(t, u, f)
  {
    var k: nat, time: nat :|
      k <= |t| && t' == InsertAt(t, k, Row(u, f, h, |e.hashes|, e.version, time));
    var r := Row(u, f, h, |e.hashes|, e.version, time);
    WhereInsert(t, k, r, FileIs(u, f));
    WhereInsert(t, k, r, FileIsNot(u, f));
    HoldsSnoc(SelectFile(t, u, f), r, SelectFile(t', u, f), e);
  }

  lemma HoldsSnoc(rows: Table, r: Row, rows': Table, e: Entry)
    requires Holds(rows, e)
    requires multiset(rows') == multiset(rows) + multiset{r}
    requires r.blockNumber == |e.hashes| && r.version == e.version
    ensures Holds(rows', Entry(e.version, e.hashes + [r.blockHash]))
  {
    assert multiset(rows') == multiset(rows + [r]);
    CellsOfSame(rows', rows + [r]);
    assert Cells(rows + [r]) == Cells(rows) + [Cell(r.blockHash, r.blockNumber, r.version)];
    assert Numbered(Entry(e.version, e.hashes + [r.blockHash])) ==
           Numbered(e) + [Cell(r.blockHash, r.blockNumber, r.version)];
  }

  /**
   Readers never see a mixture.  At every statement boundary of a commit the block list is
   the whole old list (no statement ran yet) or a prefix of the new one, and no other
   file's rows have changed.
   */
  lemma BoundaryBlockList(trace: seq<Table>, u: string, f: string, hashes: seq<Hash>, version: nat, j: nat)
    requires CommitTrace(trace, u, f, hashes, version) && j < |trace|
    ensures BlockListOf(trace[j], u, f) ==
            if j == 0 then BlockListOf(trace[0], u, f) else hashes[..j - 1]
    ensures forall u', f' | u' != u || f' != f ::
              SelectFile(trace[j], u', f') == SelectFile(trace[0], u', f')
  {
    if j > 0 {
      TraceRows(trace, u, f, hashes, version, j);
      HoldsGivesList(trace[j], u, f, Entry(version, hashes[..j - 1]));
      forall u', f' | u' != u || f' != f
        ensures SelectFile(trace[j], u', f') == SelectFile(trace[0], u', f')
      {
        DeleteKeepsOthers(trace[j], u, f, u', f');
        DeleteKeepsOthers(trace[0], u, f, u', f');
      }
    }
  }

  /** Every statement boundary of a commit still refines a map: the old one, or the new prefix. */
  lemma BoundaryRepresents(trace: seq<Table>, m: Catalog, u: string, f: string, hashes: seq<Hash>, version: nat, j: nat)
    requires CommitTrace(trace, u, f, hashes, version) && j < |trace|
    requires Represents(trace[0], m)
    ensures Represents(trace[j],
              if j == 0 then m else Put(m, FileKey(u, f), Entry(version, hashes[..j - 1])))
  {
    if j > 0 {
      var e := Entry(version, hashes[..j - 1]);
      var m' := Put(m, FileKey(u, f), e);
      TraceRows(trace, u, f, hashes, version, j);
      HoldsGivesList(trace[j], u, f, e);
      BoundaryBlockList(trace, u, f, hashes, version, j);
      forall u', f'
        ensures var k := FileKey(u', f');
          if k in m' then m'[k].hashes != [] && Holds(SelectFile(trace[j], u', f'), m'[k])
          else SelectFile(trace[j], u', f') == []
      {
        if u' != u || f' != f {
          assert SelectFile(trace[j], u', f') == SelectFile(trace[0], u', f');
        }
      }
    }
  }

  /** The row check and the map check agree, whichever row the SELECT returns first. */
  lemma AcceptsIsMayCommit(t: Table, m: Catalog, u: string, f: string, version: nat)
    requires Represents(t, m)
    ensures Accepts(t, u, f, version) <==> MayCommit(m, FileKey(u, f), version)
  {
    var k := FileKey(u, f);
    if k in m {
      HoldsGivesList(t, u, f, m[k]);
      assert SelectFile(t, u, f)[0] in SelectFile(t, u, f);
    }
  }

  lemma RemovalRepresents(t: Table, m: Catalog, u: string, f: string)
    requires Represents(t, m)
    ensures Represents(DeleteFile(t, u, f), m - {FileKey(u, f)})
  {
    var t' := DeleteFile(t, u, f);
    DeleteRemoves(t, u, f);
    forall u', f' | u' != u || f' != f
      ensures SelectFile(t', u', f') == SelectFile(t, u', f')
    {
      DeleteKeepsOthers(t, u, f, u', f');
    }
  }

  /** A reader of the table reads the map. */
  lemma ReadsTheMap(t: Table, m: Catalog, k: FileKey)
    requires Represents(t, m)
    ensures k in m ==> BlockListOf(t, k.user, k.name) == m[k].hashes != []
    ensures k in m ==> forall r | r in SelectFile(t, k.user, k.name) :: r.version == m[k].version
    ensures k !in m ==> BlockListOf(t, k.user, k.name) == []
  {
    if k in m {
      HoldsGivesList(t, k.user, k.name, m[k]);
    }
  }

  // ------------------------------------------------------ getUserFileNames

  datatype NamedVersion = NamedVersion(name: string, version: nat)

  function NamedVersions(rows: Table): (pairs: seq<NamedVersion>)
    ensures |pairs| == |rows|
    ensures forall i | 0 <= i < |rows| :: pairs[i] == NamedVersion(rows[i].fileName, rows[i].version)
  {
    seq(|rows|, i requires 0 <= i < |rows| => NamedVersion(rows[i].fileName, rows[i].version))
  }

  predicate NoDuplicates<T(==)>(s: seq<T>) {
    forall i, j | 0 <= i < j < |s| :: s[i] != s[j]
  }

  /** SELECT DISTINCT */
  function Distinct<T(==,!new)>(s: seq<T>): (d: seq<T>)
    ensures NoDuplicates(d)
    ensures forall x :: x in d <==> x in s
  {
    if s == [] then []
    else
      var last := s[|s| - 1];
      assert s == s[..|s| - 1] + [last];
      var d := Distinct(s[..|s| - 1]);
      if last in d then d else d + [last]
  }

  function Names(pairs: seq<NamedVersion>): (names: seq<string>)
    ensures |names| == |pairs|
    ensures forall i | 0 <= i < |pairs| :: names[i] == pairs[i].name
  {
    seq(|pairs|, i requires 0 <= i < |pairs| => pairs[i].name)
  }

  function FileListOf(t: Table, u: string): seq<NamedVersion> {
    Distinct(NamedVersions(SelectUser(t, u)))
  }

  /**
   The file list names no file twice exactly when each file's rows carry one version;
   two commits of one file whose statements interleave can leave two.
   */
  lemma ListedOnceIffOneVersion(t: Table, u: string)
    ensures NoDuplicates(Names(FileListOf(t, u))) <==>
            forall r, r' | r in SelectUser(t, u) && r' in SelectUser(t, u) && r.fileName == r'.fileName ::
              r.version == r'.version
  {
    if NoDuplicates(Names(FileListOf(t, u))) {
      forall r, r' | r in SelectUser(t, u) && r' in SelectUser(t, u) && r.fileName == r'.fileName
        ensures r.version == r'.version
      {
        ListedOnce(t, u, r, r');
      }
    } else {
      var r, r' := ListedTwice(t, u);
    }
  }

  lemma Listed(t: Table, u: string, r: Row) returns (j: nat)
    requires r in SelectUser(t, u)
    ensures j < |FileListOf(t, u)| && FileListOf(t, u)[j] == NamedVersion(r.fileName, r.version)
  {
    var rows := SelectUser(t, u);
    var i :| 0 <= i < |rows| && rows[i] == r;
    assert NamedVersions(rows)[i] in FileListOf(t, u);
    j :| 0 <= j < |FileListOf(t, u)| && FileListOf(t, u)[j] == NamedVersion(r.fileName, r.version);
  }

  lemma ListedOnce(t: Table, u: string, r: Row, r': Row)
    requires NoDuplicates(Names(FileListOf(t, u)))
    requires r in SelectUser(t, u) && r' in SelectUser(t, u) && r.fileName == r'.fileName
    ensures r.version == r'.version
  {
    var j := Listed(t, u, r);
    var j' := Listed(t, u, r');
    assert Names(FileListOf(t, u))[j] == Names(FileListOf(t, u))[j'];
  }

  lemma ListedTwice(t: Table, u: string) returns (r: Row, r': Row)
    requires !NoDuplicates(Names(FileListOf(t, u)))
    ensures r in SelectUser(t, u) && r' in SelectUser(t, u)
    ensures r.fileName == r'.fileName && r.version != r'.version
  {
    var rows, list := SelectUser(t, u), FileListOf(t, u);
    var all := NamedVersions(rows);
    var i, j :| 0 <= i < j < |list| && Names(list)[i] == Names(list)[j];
    assert list[i] in all && list[j] in all;
    var i' :| 0 <= i' < |all| && all[i'] == list[i];
    var j' :| 0 <= j' < |all| && all[j'] == list[j];
    r, r' := rows[i'], rows[j'];
  }

  /** On a table that refines a map, the list is that user's part of the map, each file once. */
  lemma FileListIsTheMap(t: Table, m: Catalog, u: string)
    requires Represents(t, m)
    ensures NoDuplicates(Names(FileListOf(t, u)))
    ensures forall f, v :: NamedVersion(f, v) in FileListOf(t, u) <==>
              FileKey(u, f) in m && m[FileKey(u, f)].version == v
  {
    forall r | r in SelectUser(t, u)
      ensures FileKey(u, r.fileName) in m && m[FileKey(u, r.fileName)].version == r.version
    {
      RowIsInMap(t, m, u, r);
    }
    ListedOnceIffOneVersion(t, u);
    forall f, v
      ensures NamedVersion(f, v) in FileListOf(t, u) <==>
                FileKey(u, f) in m && m[FileKey(u, f)].version == v
    {
      ListedIffRow(t, u, f, v);
      if FileKey(u, f) in m {
        MapHasRow(t, m, u, f);
      }
    }
  }

  lemma RowIsInMap(t: Table, m: Catalog, u: string, r: Row)
    requires Represents(t, m) && r in SelectUser(t, u)
    ensures FileKey(u, r.fileName) in m && m[FileKey(u, r.fileName)].version == r.version
  {
    var f := r.fileName;
    WhereIn(t, UserIs(u));
    WhereIn(t, FileIs(u, f));
    assert r in SelectFile(t, u, f);
    HoldsGivesList(t, u, f, m[FileKey(u, f)]);
  }

  lemma ListedIffRow(t: Table, u: string, f: string, v: nat)
    ensures NamedVersion(f, v) in FileListOf(t, u) <==>
            exists r :: r in SelectUser(t, u) && r.fileName == f && r.version == v
  {
    var rows := SelectUser(t, u);
    var all := NamedVersions(rows);
    if NamedVersion(f, v) in all {
      var i :| 0 <= i < |all| && all[i] == NamedVersion(f, v);
      assert rows[i] in rows;
    }
    forall r | r in rows && r.fileName == f && r.version == v
      ensures NamedVersion(f, v) in all
    {
      var i :| 0 <= i < |rows| && rows[i] == r;
      assert all[i] == NamedVersion(f, v);
    }
  }

  lemma MapHasRow(t: Table, m: Catalog, u: string, f: string)
    requires Represents(t, m) && FileKey(u, f) in m
    ensures exists r :: r in SelectUser(t, u) && r.fileName == f && r.version == m[FileKey(u, f)].version
  {
    HoldsGivesList(t, u, f, m[FileKey(u, f)]);
    var r := SelectFile(t, u, f)[0];
    WhereIn(t, FileIs(u, f));
    WhereIn(t, UserIs(u));
    assert r in SelectFile(t, u, f) && r in SelectUser(t, u);
  }

  // -------------------------------------------------- getRecentFirstHashes

  /** A smaller block number, or the same and accessed later. */
  predicate ListedBefore(q: Row, r: Row) {
    q.blockNumber < r.blockNumber || (q.blockNumber == r.blockNumber && q.accessed > r.accessed)
  }

  /**
   The rows behind the recent-hash list: the user's rows, as many as asked for if there are that
   many, none before one it should follow; and a row is left out only when every row it should
   precede is left out too.
   */
  lemma RecentFirst(t: Table, u: string, max: nat)
    ensures var all, picked := SelectUser(t, u), RecentRows(t, u, max);
      && |picked| == Min(max, |all|)
      && multiset(picked) <= multiset(all)
      && (forall i, j | 0 <= i < j < |picked| :: !ListedBefore(picked[j], picked[i]))
      && forall r, q | r in picked && q in all && ListedBefore(q, r) ::
           multiset(picked)[q] == multiset(all)[q]
  {
    var key, all := ByNumberThenRecent(), SelectUser(t, u);
    var ordered := OrderBy(all, key);
    var picked := RecentRows(t, u, max);
    PrefixIsPart(ordered, Min(max, |ordered|));
    forall i, j | 0 <= i < j < |picked|
      ensures !ListedBefore(picked[j], picked[i])
    {
      assert KeyLeq(key(ordered[i]), key(ordered[j]));
    }
    forall r, q | r in picked && q in all && ListedBefore(q, r)
      ensures multiset(picked)[q] == multiset(all)[q]
    {
      PrefixOfSorted(ordered, Min(max, |ordered|), key, r, q);
    }
  }

  lemma PrefixIsPart(rows: Table, n: nat)
    requires n <= |rows|
    ensures multiset(rows[..n]) <= multiset(rows)
  {
    assert rows == rows[..n] + rows[n..];
  }

  lemma PrefixOfSorted(rows: Table, n: nat, key: Row -> SortKey, r: Row, q: Row)
    requires SortedBy(rows, key) && n <= |rows|
    requires r in rows[..n] && !KeyLeq(key(r), key(q))
    ensures multiset(rows[..n])[q] == multiset(rows)[q]
  {
    var i :| 0 <= i < n && rows[i] == r;
    forall j | n <= j < |rows|
      ensures rows[j] != q
    {
      assert KeyLeq(key(rows[i]), key(rows[j]));
    }
    assert q !in rows[n..];
    assert rows == rows[..n] + rows[n..];
  }

  lemma LowerBlocksFirst(t: Table, u: string, max: nat, r: Row, q: Row)
    requires r in RecentRows(t, u, max) && q in SelectUser(t, u)
    requires q.blockNumber < r.blockNumber
    ensures q in RecentRows(t, u, max)
  {
    RecentFirst(t, u, max);
    var picked := RecentRows(t, u, max);
    assert ListedBefore(q, r);
    assert q in multiset(SelectUser(t, u));
    assert multiset(picked)[q] > 0;
  }
}

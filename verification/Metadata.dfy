/** The metadata server's database helper (metadata/src/mysql_helper.cc). */
module Metadata {
  import opened Basics
  import opened FileBlockTable
  import opened MetadataSpec

  /** Return code of a refused version (metadata/src/mysql_helper.hpp). */
  const EVERS := 1

  /**
   The error code MySQL gives to the n-th statement of a call; 0 when it succeeds.  A
   statement that fails changes nothing.
   */
  type Faults = nat -> int

  predicate NoFault(fault: Faults, n: nat) {
    forall i: nat | i < n :: fault(i) == 0
  }

  /** The hashes of which no row exists, in the order asked, duplicates included. */
  function MissingHashes(t: Table, hashes: seq<Hash>): (missing: seq<Hash>) {
    Keep(hashes, h => CountHash(t, h) == 0)
  }

  /** Asked in that order, and each as often as it was asked for, exactly when no row carries it. */
  lemma MissingHashesExact(t: Table, hashes: seq<Hash>) returns (idx: seq<nat>)
    ensures PicksOut(MissingHashes(t, hashes), hashes, idx)
    ensures forall h :: multiset(MissingHashes(t, hashes))[h] ==
                        if exists r :: r in t && r.blockHash == h then 0 else multiset(hashes)[h]
  {
    idx := KeepExact(hashes, h => CountHash(t, h) == 0);
  }

  /** The version of a row with the largest block number. */
  predicate LastVersion(rows: Table, version: nat) {
    exists r | r in rows :: r.version == version && forall q | q in rows :: q.blockNumber <= r.blockNumber
  }

  lemma LastInOrder(rows: Table, sorted: Table)
    requires sorted != [] && SortedBy(sorted, ByNumber()) && multiset(sorted) == multiset(rows)
    ensures LastVersion(rows, sorted[|sorted| - 1].version)
  {
    var last := sorted[|sorted| - 1];
    assert last in multiset(rows);
    forall q | q in rows
      ensures q.blockNumber <= last.blockNumber
    {
      assert q in multiset(sorted);
      var i :| 0 <= i < |sorted| && sorted[i] == q;
      assert KeyLeq(ByNumber()(sorted[i]), ByNumber()(last));
    }
  }

  class MySQLHelper {
    var fileBlock: Table

    constructor ()
      ensures fileBlock == []
    {
      fileBlock := [];
    }

    /** A SELECT that fails cuts the answer short: only the hashes before it were looked up. */
    method GetMissingBlockHashes(userHashes: seq<Hash>, fault: Faults)
      returns (rc: int, missing: seq<Hash>)
      ensures rc == 0 <==> NoFault(fault, |userHashes|)
      ensures rc == 0 ==> missing == MissingHashes(fileBlock, userHashes)
      ensures rc != 0 ==> exists n: nat ::
                && n < |userHashes| && NoFault(fault, n) && fault(n) == rc
                && missing == MissingHashes(fileBlock, userHashes[..n])
    {
      missing := [];
      for i := 0 to |userHashes|
        invariant NoFault(fault, i)
        invariant missing == MissingHashes(fileBlock, userHashes[..i])
      {
        if fault(i) != 0 {
          return fault(i), missing;
        }
        assert userHashes[..i + 1][..i] == userHashes[..i];
        if CountHash(fileBlock, userHashes[i]) == 0 {
          missing := missing + [userHashes[i]];
        }
      }
      assert userHashes[..|userHashes|] == userHashes;
      return 0, missing;
    }

    /**
     Version check, DELETE, then one INSERT per hash, with no transaction around them.  The
     trace lists the tables other sessions can see; the last one is where the call stopped.
     */
    method UpdateFileData(userId: string, fileName: string, hashes: seq<Hash>, version: nat, fault: Faults)
      returns (rc: int, ghost trace: seq<Table>)
      modifies this
      ensures CommitTrace(trace, userId, fileName, hashes, version)
      ensures trace[0] == old(fileBlock) && trace[|trace| - 1] == fileBlock
      ensures |trace| > 1 ==> Accepts(old(fileBlock), userId, fileName, version)
      ensures rc == 0 <==>
              Accepts(old(fileBlock), userId, fileName, version) && NoFault(fault, |hashes| + 2)
      ensures rc == 0 ==> |trace| == |hashes| + 2
      ensures fault(0) != 0 ==> rc == fault(0) && |trace| == 1
      ensures fault(0) == 0 && !Accepts(old(fileBlock), userId, fileName, version) ==> rc == EVERS
      ensures fault(0) == 0 && Accepts(old(fileBlock), userId, fileName, version) && rc != 0 ==>
                |trace| < |hashes| + 2 && NoFault(fault, |trace|) && rc == fault(|trace|)
    {
      trace := [fileBlock];
      // statement 0: SELECT version
      if fault(0) != 0 {
        return fault(0), trace;
      }
      var rows := SelectFile(fileBlock, userId, fileName);
      if rows == [] {
        if version != 0 {
          return EVERS, trace;
        }
      } else if rows[0].version >= version {
        return EVERS, trace;
      }
      // statement 1: DELETE
      if fault(1) != 0 {
        return fault(1), trace;
      }
      fileBlock := DeleteFile(fileBlock, userId, fileName);
      trace := trace + [fileBlock];
      // statements 2 ..: INSERT
      for i := 0 to |hashes|
        invariant NoFault(fault, i + 2)
        invariant |trace| == i + 2 && trace[|trace| - 1] == fileBlock
        invariant trace[0] == old(fileBlock)
        invariant CommitTrace(trace, userId, fileName, hashes, version)
      {
        if fault(i + 2) != 0 {
          return fault(i + 2), trace;
        }
        var time: nat :| true;
        var k: nat :| k <= |fileBlock|;
        var before := fileBlock;
        fileBlock := InsertAt(before, k, Row(userId, fileName, hashes[i], i, version, time));
        assert Inserted(before, fileBlock, userId, fileName, hashes[i], i, version);
        trace := trace + [fileBlock];
      }
      return 0, trace;
    }

    method RemoveFile(userId: string, fileName: string, fault: Faults) returns (rc: int)
      modifies this
      ensures rc == fault(0)
      ensures fileBlock == if rc == 0 then DeleteFile(old(fileBlock), userId, fileName) else old(fileBlock)
    {
      if fault(0) != 0 {
        return fault(0);
      }
      fileBlock := DeleteFile(fileBlock, userId, fileName);
      return 0;
    }

    /** The fetch loop: every row's hash, and the version of the last one. */
    static method ReadBlocks(res: Table) returns (hashes: seq<Hash>, version: nat)
      ensures hashes == RowHashes(res)
      ensures version == if res == [] then 0 else res[|res| - 1].version
    {
      hashes, version := [], 0;
      for i := 0 to |res|
        invariant hashes == RowHashes(res)[..i]
        invariant version == if i == 0 then 0 else res[i - 1].version
      {
        version := res[i].version;
        hashes := hashes + [res[i].blockHash];
      }
    }

    /** The version stays at the caller's initial 0 when the file has no rows. */
    method GetFileBlockList(userId: string, fileName: string, fault: Faults)
      returns (rc: int, hashes: seq<Hash>, version: nat)
      ensures rc == fault(0)
      ensures rc != 0 ==> hashes == []
      ensures rc == 0 ==> hashes == BlockListOf(fileBlock, userId, fileName)
      ensures rc == 0 && hashes == [] ==> version == 0
      ensures rc == 0 && hashes != [] ==> LastVersion(SelectFile(fileBlock, userId, fileName), version)
    {
      if fault(0) != 0 {
        return fault(0), [], 0;
      }
      var res := OrderBy(SelectFile(fileBlock, userId, fileName), ByNumber());
      hashes, version := ReadBlocks(res);
      if res != [] {
        LastInOrder(SelectFile(fileBlock, userId, fileName), res);
      }
      return 0, hashes, version;
    }

    method GetUserFileNames(userId: string, fault: Faults)
      returns (rc: int, fileNames: seq<string>, versions: seq<nat>)
      ensures rc == fault(0)
      ensures rc == 0 ==> fileNames == Names(FileListOf(fileBlock, userId))
      ensures rc == 0 ==> |versions| == |fileNames|
      ensures rc == 0 ==> forall i | 0 <= i < |versions| ::
                versions[i] == FileListOf(fileBlock, userId)[i].version
    {
      fileNames, versions := [], [];
      if fault(0) != 0 {
        return fault(0), fileNames, versions;
      }
      var res := FileListOf(fileBlock, userId);
      for i := 0 to |res|
        invariant fileNames == Names(res)[..i] && |versions| == i
        invariant forall j | 0 <= j < i :: versions[j] == res[j].version
      {
        fileNames := fileNames + [res[i].name];
        versions := versions + [res[i].version];
      }
      return 0, fileNames, versions;
    }

    method GetRecentFirstHashes(userId: string, maxHashes: nat, fault: Faults)
      returns (rc: int, firstHashes: seq<Hash>)
      ensures rc == fault(0)
      ensures rc == 0 ==> firstHashes == RowHashes(RecentRows(fileBlock, userId, maxHashes))
    {
      firstHashes := [];
      if fault(0) != 0 {
        return fault(0), firstHashes;
      }
      var res := RecentRows(fileBlock, userId, maxHashes);
      for i := 0 to |res|
        invariant firstHashes == RowHashes(res)[..i]
      {
        firstHashes := firstHashes + [res[i].blockHash];
      }
      return 0, firstHashes;
    }
  }
}

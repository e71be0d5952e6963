/** The sync script, client/sync.py, run by one user against the three servers. */
module SyncScript {
  import opened Basics
  import opened BlockNames
  import opened LevelDb
  import opened FileBlockTable
  import opened MetadataSpec
  import opened Metadata
  import opened CacheNode
  import opened SyncModel
  import opened SyncServers

  /** Fault code of each statement of a call; all statements succeed when the servers are reachable. */
  method AnyFaults(online: bool) returns (fault: Faults)
    ensures online ==> forall n: nat :: fault(n) == 0
  {
    fault := (n: nat) => 0;
    if !online {
      fault := *;
    }
  }

  /** Whether a request gets its reply. */
  method Replied(online: bool) returns (yes: bool)
    ensures online ==> yes
  {
    yes := true;
    if !online {
      yes := *;
    }
  }

  /** A local file the protocol can carry: not empty, few enough blocks, all of them in play. */
  ghost predicate Nameable(file: LocalFile, inPlay: iset<Bytes>) {
    && file.content != "" && |Split(file.content)| <= MAX_BLOCKS
    && forall b | b in Split(file.content) :: b in inPlay
  }

  ghost predicate AllNameable(files: Files, inPlay: iset<Bytes>) {
    forall f | f in files && f !in OWN_FILES :: Nameable(files[f], inPlay)
  }

  /** What a client's steps move besides the files of its user on the server. */
  datatype Surroundings =
    Surroundings(files: Files, saved: Versions, clock: nat, others: Table, blocks: Blocks, cached: Db)

  /**
   Time goes on and stamps what changes here; other users' rows stay as they are; blocks, and
   what the cache could serve, are never lost.
  */
  ghost predicate Forward(w: Surroundings, w': Surroundings) {
    && w.clock <= w'.clock
    && Stamped(w.files, w.saved, w.clock, w'.files, w'.saved)
    && w'.others == w.others
    && Grown(w.blocks, w'.blocks)
    && StillServed(w.cached, w'.cached)
  }

  lemma ForwardStill(w: Surroundings)
    ensures Forward(w, w)
  {
  }

  lemma ForwardOn(w0: Surroundings, w1: Surroundings, w2: Surroundings)
    requires Forward(w0, w1) && Forward(w1, w2)
    ensures Forward(w0, w2)
  {
  }

  lemma DownloadIsForward(w: Surroundings, w': Surroundings, f: string)
    requires w' == w.(files := w'.files, clock := w'.clock, cached := w'.cached)
    requires w.clock <= w'.clock && StillServed(w.cached, w'.cached)
    requires || w'.files == w.files
             || (f in w'.files && w'.files == w.files[f := w'.files[f]] && w.clock <= w'.files[f].mtime)
    ensures Forward(w, w') && SameBut(w.files, w'.files, f)
  {
  }

  class SyncClient {
    const user: string
    const cache: CacheHost
    const meta: MySQLHelper
    const digest: Digest
    var files: Files
    var saved: Versions
    var clock: nat
    var blockDir: Directory

    /** Uploads, downloads and deletions begun. */
    var transfers: nat

    /** The byte strings among which SHA-256 is assumed not to collide. */
    ghost const inPlay: iset<Bytes>

    /** What the servers hold, abstractly. */
    ghost var remote: Remotes
    ghost var catalog: Catalog

    /** A client whose directory is `files`, next to servers that hold nothing yet. */
    constructor (user: string, cache: CacheHost, meta: MySQLHelper, digest: Digest, files: Files,
                 now: nat, ghost inPlay: iset<Bytes>)
      requires cache.Valid() && Sha(digest, inPlay)
      requires meta.fileBlock == [] && cache.origin.blocks == map[] && cache.db.server.db == map[]
      requires forall f | f in files :: files[f].mtime <= now
      requires AllNameable(files, inPlay)
      ensures Valid() && this.files == files && saved == map[] && remote == map[]
      ensures this.user == user && this.cache == cache && this.meta == meta && this.digest == digest
      ensures Consistent(remote, this.files, saved, clock)
    {
      this.user, this.cache, this.meta, this.digest := user, cache, meta, digest;
      this.files, this.saved, this.blockDir := files, map[], map[];
      this.clock := now;
      this.transfers, this.inPlay := 0, inPlay;
      this.remote, this.catalog := map[], map[];
    }

    ghost function View(): Servers
      reads this, meta, cache.origin, cache.db.server
    {
      Servers(meta.fileBlock, cache.origin.blocks, cache.db.server.db, catalog, remote)
    }

    ghost predicate Valid()
      reads this, meta, cache.origin, cache.db.server
    {
      && cache.Valid()
      && ServersOk(View(), user, digest, inPlay)
      && AllNameable(files, inPlay)
    }

    /** Time passes. */
    method Tick()
      modifies this`clock
      ensures clock >= old(clock)
    {
      var t: nat :| t >= clock;
      clock := t;
    }

    /**
     Success means the servers hold the whole file under its version.  A failure can leave a
     prefix of its blocks (`rows` of them), or all of it when only the last reply was lost.
    */
    method UpFile(fi: string, version: nat, online: bool) returns (ok: bool, ghost rows: int)
      requires Valid() && fi in files && fi !in OWN_FILES
      modifies this`blockDir, this`transfers, this`remote, this`catalog, meta, cache.origin
      ensures Valid() && transfers == old(transfers) + 1
      ensures -1 <= rows <= |old(Split(files[fi].content))|
      ensures rows == -1 ==> unchanged(`remote)
      ensures rows >= 0 ==>
                && MayUpload(old(remote), fi, version)
                && remote == Committed(old(remote), fi, version, old(Split(files[fi].content)), rows)
      ensures ok ==> rows == |old(Split(files[fi].content))|
      ensures online ==> (ok <==> MayUpload(old(remote), fi, version))
      ensures Grown(old(cache.origin.blocks), cache.origin.blocks)
      ensures OtherRows(meta.fileBlock, user) == old(OtherRows(meta.fileBlock, user))
    {
      // split -b 4m, then hash every block
      var blocks := Split(files[fi].content);
      SplitIsCanonical(files[fi].content);
      assert Nameable(files[fi], inPlay);
      transfers := transfers + 1;
      blockDir := map[];
      var fileHashes, hashToFile := HashBlocks(blocks);
      ok, rows := SendFile(fi, blocks, fileHashes, hashToFile, version, online);
      blockDir := map[];
    }

    /** From block_query to file_commit. */
    method SendFile(fi: string, blocks: seq<Bytes>, hashes: seq<Hash>, hashToFile: map<Hash, Bytes>, version: nat,
                    online: bool) returns (ok: bool, ghost rows: int)
      requires Valid() && fi !in OWN_FILES
      requires hashes == HashesOf(digest, blocks)
      requires forall h :: h in hashToFile <==> h in hashes
      requires forall h | h in hashToFile :: hashToFile[h] in blocks && digest(hashToFile[h]) == h
      requires forall b | b in blocks :: b in inPlay && |b| <= BLOCK_BYTES
      requires Canonical(blocks) && 0 < |blocks| <= MAX_BLOCKS
      modifies this`remote, this`catalog, meta, cache.origin
      ensures Valid()
      ensures -1 <= rows <= |blocks|
      ensures rows == -1 ==> unchanged(`remote)
      ensures rows >= 0 ==>
                && MayUpload(old(remote), fi, version)
                && remote == Committed(old(remote), fi, version, blocks, rows)
      ensures ok ==> rows == |blocks|
      ensures online ==> (ok <==> MayUpload(old(remote), fi, version))
      ensures Grown(old(cache.origin.blocks), cache.origin.blocks)
      ensures OtherRows(meta.fileBlock, user) == old(OtherRows(meta.fileBlock, user))
    {
      rows := -1;
      ok := PushBlocks(blocks, hashes, hashToFile, online);
      if ok {
        ok, rows := Commit(fi, blocks, hashes, version, online);
      }
    }

    method PushBlocks(blocks: seq<Bytes>, hashes: seq<Hash>, hashToFile: map<Hash, Bytes>, online: bool)
      returns (ok: bool)
      requires Valid()
      requires hashes == HashesOf(digest, blocks)
      requires forall h :: h in hashToFile <==> h in hashes
      requires forall h | h in hashToFile :: hashToFile[h] in blocks && digest(hashToFile[h]) == h
      requires forall b | b in blocks :: b in inPlay && |b| <= BLOCK_BYTES
      modifies cache.origin
      ensures Valid()
      ensures Grown(old(cache.origin.blocks), cache.origin.blocks)
      ensures online ==> ok
      ensures ok ==> Stored(blocks, cache.origin.blocks, digest)
    {
      ok := Replied(online);
      if ok {
        ghost var before := View();
        ok := FillBlocks(blocks, hashes, hashToFile, online);
        GrowthKeepsServers(before, user, digest, inPlay, cache.origin.blocks);
        assert View() == before.(blocks := cache.origin.blocks);
      }
    }

    /** The hash loop: the list of digests, and for each digest a block that has it. */
    method HashBlocks(blocks: seq<Bytes>) returns (fileHashes: seq<Hash>, hashToFile: map<Hash, Bytes>)
      ensures fileHashes == HashesOf(digest, blocks)
      ensures forall h :: h in hashToFile <==> h in fileHashes
      ensures forall h | h in hashToFile :: hashToFile[h] in blocks && digest(hashToFile[h]) == h
    {
      fileHashes, hashToFile := [], map[];
      for i := 0 to |blocks|
        invariant fileHashes == HashesOf(digest, blocks[..i])
        invariant forall h :: h in hashToFile <==> h in fileHashes
        invariant forall h | h in hashToFile :: hashToFile[h] in blocks && digest(hashToFile[h]) == h
      {
        var blockHash := digest(blocks[i]);
        fileHashes := fileHashes + [blockHash];
        hashToFile := hashToFile[blockHash := blocks[i]];
      }
      assert blocks[..|blocks|] == blocks;
    }

    /** block_query, then block_store for every hash it names; afterwards all blocks are held. */
    method FillBlocks(blocks: seq<Bytes>, hashes: seq<Hash>, hashToFile: map<Hash, Bytes>, online: bool)
      returns (ok: bool)
      requires Sha(digest, inPlay) && Genuine(cache.origin.blocks, digest, inPlay)
      requires RowsBacked(meta.fileBlock, cache.origin.blocks)
      requires hashes == HashesOf(digest, blocks)
      requires forall h :: h in hashToFile <==> h in hashes
      requires forall h | h in hashToFile :: hashToFile[h] in blocks && digest(hashToFile[h]) == h
      requires forall b | b in blocks :: b in inPlay && |b| <= BLOCK_BYTES
      modifies cache.origin
      ensures Genuine(cache.origin.blocks, digest, inPlay)
      ensures Grown(old(cache.origin.blocks), cache.origin.blocks)
      ensures online ==> ok
      ensures ok ==> Stored(blocks, cache.origin.blocks, digest)
    {
      var rc, needed := meta.GetMissingBlockHashes(hashes, (n: nat) => 0);
      QueryIsEnough(meta.fileBlock, cache.origin.blocks, hashes, needed);
      ok := SendBlocks(needed, hashToFile, online);
      if ok {
        HeldHashesAreStored(blocks, old(cache.origin.blocks), cache.origin.blocks, needed, digest, inPlay);
      }
    }

    /** A request may fail before the block arrived or only lose its reply. */
    method SendBlocks(needed: seq<Hash>, hashToFile: map<Hash, Bytes>, online: bool) returns (ok: bool)
      requires Sha(digest, inPlay) && Genuine(cache.origin.blocks, digest, inPlay)
      requires forall i | 0 <= i < |needed| :: needed[i] in hashToFile
      requires forall h | h in hashToFile ::
        digest(hashToFile[h]) == h && hashToFile[h] in inPlay && |hashToFile[h]| <= BLOCK_BYTES
      modifies cache.origin
      ensures Genuine(cache.origin.blocks, digest, inPlay)
      ensures Grown(old(cache.origin.blocks), cache.origin.blocks)
      ensures online ==> ok
      ensures ok ==> HoldAll(cache.origin.blocks, needed)
    {
      for j := 0 to |needed|
        invariant Genuine(cache.origin.blocks, digest, inPlay)
        invariant Grown(old(cache.origin.blocks), cache.origin.blocks)
        invariant HoldAll(cache.origin.blocks, needed[..j])
      {
        var replied := Replied(online);
        var arrived := Replied(replied);
        if arrived {
          StoreKeepsBlocks(cache.origin.blocks, digest, inPlay, needed[j], hashToFile[needed[j]]);
          cache.origin.Store(needed[j], hashToFile[needed[j]]);
        }
        if !replied {
          return false;
        }
        assert needed[..j + 1] == needed[..j] + [needed[j]];
      }
      assert needed[..|needed|] == needed;
      return true;
    }

    /** postFileCommit: the commit may be refused, fail midway, or succeed with its reply lost. */
    method Commit(fi: string, blocks: seq<Bytes>, hashes: seq<Hash>, version: nat, online: bool)
      returns (ok: bool, ghost rows: int)
      requires Valid() && fi !in OWN_FILES
      requires hashes == HashesOf(digest, blocks) && Stored(blocks, cache.origin.blocks, digest)
      requires Canonical(blocks) && 0 < |blocks| <= MAX_BLOCKS
      modifies this`remote, this`catalog, meta
      ensures Valid()
      ensures -1 <= rows <= |blocks|
      ensures rows == -1 ==> unchanged(`remote)
      ensures rows >= 0 ==>
                && MayUpload(old(remote), fi, version)
                && remote == Committed(old(remote), fi, version, blocks, rows)
      ensures ok ==> rows == |blocks|
      ensures online ==> (ok <==> MayUpload(old(remote), fi, version))
      ensures OtherRows(meta.fileBlock, user) == old(OtherRows(meta.fileBlock, user))
    {
      var fault := AnyFaults(online);
      ghost var before := View();
      var rc, trace := meta.UpdateFileData(user, fi, hashes, version, fault);
      TraceKeepsOtherRows(trace, user, fi, hashes, version, |trace| - 1);
      ghost var after;
      after, rows := CommitKeepsServers(before, user, digest, inPlay, trace, fi, blocks, version);
      catalog, remote := after.catalog, after.remote;
      assert View() == after;
      assert blocks[..|blocks|] == blocks;
      var replied := Replied(online);
      ok := rc == 0 && replied;
    }

    /** getBlockFetch for every hash of the list, one file per block, then cat. */
    method DownFile(fi: string, blockList: seq<Hash>, online: bool) returns (ok: bool)
      requires cache.Valid() && Agrees(cache.db.server.db, cache.origin.blocks)
      requires Fetchable(blockList, cache.origin.blocks)
      modifies this`files, this`blockDir, this`clock, this`transfers
      modifies cache.db.server`db, cache.db.server.buffer
      ensures cache.Valid() && Agrees(cache.db.server.db, cache.origin.blocks)
      ensures clock >= old(clock) && transfers == old(transfers) + 1
      ensures online ==> ok
      ensures !ok ==> unchanged(`files)
      ensures ok ==>
                && fi in files && old(clock) <= files[fi].mtime <= clock
                && files[fi].content == Concat(Resolve(blockList, cache.origin.blocks))
                && files == old(files)[fi := files[fi]]
      ensures StillServed(old(cache.db.server.db), cache.db.server.db)
    {
      transfers := transfers + 1;
      var dir;
      ok, dir := FetchBlocks(fi, blockList, online);
      blockDir := dir;
      if ok {
        CatIsConcat(dir, fi, Resolve(blockList, cache.origin.blocks));
        Tick();
        files := files[fi := LocalFile(Cat(dir, fi + "_"), clock)];
        blockDir := map[];
      }
    }

    /** One turn of the fetching loop: block i of bs into the next file. */
    method FetchOne(fi: string, hash: Hash, saveBlock: nat, dir0: Directory, ghost bs: seq<Bytes>, ghost i: nat,
                    online: bool) returns (ok: bool, dir: Directory)
      requires cache.Valid() && Agrees(cache.db.server.db, cache.origin.blocks)
      requires IsHash(hash) && hash in cache.origin.blocks
      requires i < |bs| <= MAX_BLOCKS && bs[i] == cache.origin.blocks[hash]
      requires HoldsBlocks(dir0, fi, bs[..i]) && saveBlock == i + 1
      modifies cache.db.server`db, cache.db.server.buffer
      ensures cache.Valid() && Agrees(cache.db.server.db, cache.origin.blocks)
      ensures online ==> ok
      ensures ok ==> HoldsBlocks(dir, fi, bs[..i + 1])
      ensures StillServed(old(cache.db.server.db), cache.db.server.db)
    {
      dir := dir0;
      ok := Replied(online);
      if ok {
        var reply := cache.CacheBlockFetch(hash, true);
        ok := reply.code == "200";
        WriteNextBlock(dir, fi, bs[..i], reply.body);
        assert bs[..i] + [bs[i]] == bs[..i + 1];
        dir := dir[BlockName(fi, saveBlock) := reply.body];
      }
    }

    /** The fetching loop, into an emptied directory. */
    method FetchBlocks(fi: string, blockList: seq<Hash>, online: bool) returns (ok: bool, dir: Directory)
      requires cache.Valid() && Agrees(cache.db.server.db, cache.origin.blocks)
      requires Fetchable(blockList, cache.origin.blocks)
      modifies cache.db.server`db, cache.db.server.buffer
      ensures cache.Valid() && Agrees(cache.db.server.db, cache.origin.blocks)
      ensures online ==> ok
      ensures ok ==> HoldsBlocks(dir, fi, Resolve(blockList, cache.origin.blocks))
      ensures StillServed(old(cache.db.server.db), cache.db.server.db)
    {
      ok, dir := true, map[];
      ghost var bs := Resolve(blockList, cache.origin.blocks);
      NoBlocksYet(fi, bs);
      var saveBlock := 1;
      for i := 0 to |blockList|
        invariant cache.Valid() && Agrees(cache.db.server.db, cache.origin.blocks)
        invariant ok && saveBlock == i + 1
        invariant StillServed(old(cache.db.server.db), cache.db.server.db)
        invariant HoldsBlocks(dir, fi, bs[..i])
      {
        ok, dir := FetchOne(fi, blockList[i], saveBlock, dir, bs, i, online);
        if !ok {
          return;
        }
        saveBlock := saveBlock + 1;
      }
      assert bs[..|blockList|] == bs;
    }

    // --------------------------------------------------- one file at a time

    /** getBlockList: the hashes (none means the server does not have the file) and the version. */
    method GetBlockList(fi: string, online: bool) returns (replied: bool, list: seq<Hash>, version: nat)
      requires Valid()
      ensures online ==> replied
      ensures replied ==> (list == [] <==> fi !in remote)
      ensures replied && fi in remote ==> version == remote[fi].version
      ensures replied ==> Fetchable(list, cache.origin.blocks)
      ensures replied && fi in remote ==> Resolve(list, cache.origin.blocks) == remote[fi].blocks
    {
      var fault := AnyFaults(online);
      var rc;
      rc, list, version := meta.GetFileBlockList(user, fi, fault);
      ListingOf(View(), user, digest, inPlay, fi);
      replied := Replied(online);
      replied := replied && rc == 0;
    }

    /** addToVersionFile */
    method AddToVersionFile(fi: string, version: nat)
      modifies this`saved, this`clock
      ensures clock >= old(clock)
      ensures saved == old(saved)[fi := Saved(version, clock)]
    {
      Tick();
      saved := saved[fi := Saved(version, clock)];
    }

    /** addToVersionFile after a transfer that went through. */
    method RecordVersion(fi: string, version: nat)
      requires Valid() && Dated(files, saved, clock)
      requires fi in remote && fi in files && version == remote[fi].version
      requires files[fi].content == ContentOf(remote[fi])
      modifies this`saved, this`clock
      ensures Valid() && Dated(files, saved, clock)
      ensures SameBut(old(saved), saved, fi) && Synced(remote, files, saved, fi)
      ensures OnlyForward()
    {
      AddToVersionFile(fi, version);
    }

    /** Upload a local file and record its version. */
    method SyncUp(fi: string, version: nat, online: bool) returns (ok: bool)
      requires Valid() && Dated(files, saved, clock) && fi in files && fi !in OWN_FILES
      modifies this`blockDir, this`transfers, this`remote, this`catalog, this`saved, this`clock, meta, cache.origin
      ensures Valid() && Dated(files, saved, clock)
      ensures SameBut(old(remote), remote, fi) && SameBut(old(saved), saved, fi)
      ensures ok ==> Synced(remote, files, saved, fi) && remote[fi].version == version
      ensures !ok ==>
                && unchanged(`saved)
                && (unchanged(`remote) || PartOf(remote, fi, version, files[fi].content))
      ensures online ==> (ok <==> MayUpload(old(remote), fi, version))
      ensures OnlyForward()
    {
      ghost var bs, rows := Split(files[fi].content), -1;
      ok, rows := UpFile(fi, version, online);
      if ok {
        assert bs[..|bs|] == bs;
        SplitIsCanonical(files[fi].content);
        RecordVersion(fi, version);
      }
    }

    /** downFile for a file the server has. */
    method FetchFile(fi: string, list: seq<Hash>, online: bool) returns (ok: bool)
      requires Valid() && Dated(files, saved, clock) && fi in remote
      requires Fetchable(list, cache.origin.blocks) && Resolve(list, cache.origin.blocks) == remote[fi].blocks
      modifies this`files, this`blockDir, this`clock, this`transfers
      modifies cache.db.server`db, cache.db.server.buffer
      ensures Valid() && Dated(files, saved, clock)
      ensures SameBut(old(files), files, fi)
      ensures ok ==> fi in files && files[fi].content == ContentOf(remote[fi])
      ensures !ok ==> unchanged(`files)
      ensures online ==> ok
      ensures OnlyForward()
    {
      ghost var files0, before, around := files, View(), Around();
      ok := DownFile(fi, list, online);
      ReadKeepsServers(before, user, digest, inPlay, cache.db.server.db);
      assert View() == before.(cached := cache.db.server.db);
      DownloadIsForward(around, Around(), fi);
      if ok {
        DownloadIsNameable(before, user, digest, inPlay, files0, fi, files[fi].mtime);
      }
    }

    /** Download a listed file and record its version. */
    method SyncDown(fi: string, list: seq<Hash>, version: nat, online: bool) returns (ok: bool)
      requires Valid() && Dated(files, saved, clock)
      requires fi in remote && version == remote[fi].version
      requires Fetchable(list, cache.origin.blocks) && Resolve(list, cache.origin.blocks) == remote[fi].blocks
      modifies this`files, this`blockDir, this`clock, this`transfers, this`saved
      modifies cache.db.server`db, cache.db.server.buffer
      ensures Valid() && Dated(files, saved, clock)
      ensures SameBut(old(files), files, fi) && SameBut(old(saved), saved, fi)
      ensures ok ==> Synced(remote, files, saved, fi)
      ensures !ok ==> unchanged(`files) && unchanged(`saved)
      ensures online ==> ok
      ensures OnlyForward()
    {
      ok := FetchFile(fi, list, online);
      if ok {
        ghost var between := Around();
        RecordVersion(fi, version);
        ForwardOn(old(Around()), between, Around());
      }
    }

    /** The body of the script's loop over local files. */
    method CheckFile(fi: string, online: bool) returns (synced: bool)
      requires Valid() && Dated(files, saved, clock) && fi in files && fi !in OWN_FILES
      modifies this`blockDir, this`transfers, this`remote, this`catalog, this`files, this`saved, this`clock
      modifies meta, cache.origin, cache.db.server`db, cache.db.server.buffer
      ensures Valid() && Dated(files, saved, clock)
      ensures TurnOf(old(remote), old(files), old(saved), synced, remote, files, saved, fi)
      ensures online ==> synced
      ensures old(Synced(remote, files, saved, fi)) ==> NothingMoved()
      ensures OnlyForward()
    {
      IdleTurn(remote, files, saved, fi);
      ForwardStill(Around());
      ghost var remote0, files0, saved0 := remote, files, saved;
      var replied, list, version := GetBlockList(fi, online);
      if !replied {
        return false;
      }
      var listed := if list == [] then None else Some(version);
      match Decide(listed, Find(saved, fi), files[fi].mtime)
      case Upload(next) =>
        assert next == PushVersion(remote, saved, fi) && Pushed(remote, files, saved, fi);
        synced := SyncUp(fi, next, online);
        PushedTurn(remote0, files0, saved0, synced, remote, saved, fi);
      case Download =>
        synced := SyncDown(fi, list, version, online);
        if synced {
          FetchedTurn(remote0, files0, saved0, files, saved, fi);
        }
      case InSync =>
        synced := true;
      case DeleteLocal =>
        DeleteLocal(fi);
        DroppedTurn(remote0, files0, saved0, fi);
        synced := true;
    }

    /** os.remove, then the entry of versions.json. */
    method DeleteLocal(fi: string)
      requires Valid() && Dated(files, saved, clock)
      modifies this`transfers, this`files, this`saved
      ensures Valid() && Dated(files, saved, clock)
      ensures files == old(files) - {fi} && saved == old(saved) - {fi}
      ensures OnlyForward()
    {
      transfers := transfers + 1;
      files := files - {fi};
      saved := saved - {fi};
    }

    /**
     One turn of the loop over local files, which passes over the script's own two.  A request
     that failed either came back with an error status, and the script goes on with the next
     file, or raised an exception, which ends the script.
    */
    method CheckUnlessOwn(fi: string, answered: string -> bool) returns (crashed: bool)
      requires Valid() && Dated(files, saved, clock) && fi in files
      modifies this`blockDir, this`transfers, this`remote, this`catalog, this`files, this`saved, this`clock
      modifies meta, cache.origin, cache.db.server`db, cache.db.server.buffer
      ensures Valid() && Dated(files, saved, clock)
      ensures fi in OWN_FILES ==> NothingMoved() && !crashed
      ensures fi !in OWN_FILES ==>
                TurnOf(old(remote), old(files), old(saved), answered(fi), remote, files, saved, fi)
      ensures answered(fi) ==> !crashed
      ensures old(fi in OWN_FILES || Synced(remote, files, saved, fi)) ==> NothingMoved()
      ensures OnlyForward()
    {
      crashed := false;
      if fi !in OWN_FILES {
        var synced := CheckFile(fi, answered(fi));
        if !synced {
          crashed := *;
        }
      }
    }

    /** Files, saved versions, server contents and the count of transfers are what they were. */
    twostate predicate NothingMoved()
      reads this
    {
      unchanged(`files) && unchanged(`saved) && unchanged(`remote) && unchanged(`transfers)
    }

    ghost function Around(): Surroundings
      reads this, meta, cache.origin, cache.db.server
    {
      Surroundings(files, saved, clock, OtherRows(meta.fileBlock, user), cache.origin.blocks, cache.db.server.db)
    }

    twostate predicate OnlyForward()
      reads this, meta, cache.origin, cache.db.server
    {
      Forward(old(Around()), Around())
    }

    /**
     The body of the script's loop over the server's file list.  A failed request may end the
     script, as above; a file_delete that gets no usable reply always does.
    */
    method CheckListed(f: string, online: bool) returns (crashed: bool)
      requires Valid() && Dated(files, saved, clock) && f !in OWN_FILES && f in remote
      modifies this`blockDir, this`transfers, this`remote, this`catalog, this`files, this`saved, this`clock
      modifies meta, cache.db.server`db, cache.db.server.buffer
      ensures Valid() && Dated(files, saved, clock)
      ensures old(f in files) ==> NothingMoved() && !crashed
      ensures old(f !in files) ==> TurnOf(old(remote), old(files), old(saved), online, remote, files, saved, f)
      ensures online ==> !crashed
      ensures OnlyForward()
    {
      crashed := false;
      if f in files {
        return;
      }
      ghost var remote0, files0, saved0 := remote, files, saved;
      if f in saved {
        crashed := DeleteRemote(f, online);
        DeletedTurn(remote0, files0, saved0, !crashed, remote, saved, f);
      } else {
        IdleTurn(remote, files, saved, f);
        var replied, list, version := GetBlockList(f, online);
        var synced := replied;
        if replied {
          synced := SyncDown(f, list, version, online);
        }
        if synced {
          FetchedTurn(remote0, files0, saved0, files, saved, f);
        } else {
          crashed := *;
        }
      }
    }

    /** postFileDelete, then the entry of versions.json. */
    method DeleteRemote(f: string, online: bool) returns (crashed: bool)
      requires Valid() && f in saved
      modifies this`transfers, this`remote, this`catalog, this`saved, meta
      ensures Valid()
      ensures remote == old(remote) - {f} || (crashed && unchanged(`remote))
      ensures saved == if crashed then old(saved) else old(saved) - {f}
      ensures online ==> !crashed
      ensures OtherRows(meta.fileBlock, user) == old(OtherRows(meta.fileBlock, user))
    {
      transfers := transfers + 1;
      var rc := PostFileDelete(f, online);
      var replied := Replied(online);
      crashed := rc != 0 || !replied;
      if !crashed {
        saved := saved - {f};
      }
    }

    method PostFileDelete(f: string, online: bool) returns (rc: int)
      requires Valid()
      modifies this`remote, this`catalog, meta
      ensures Valid()
      ensures rc == 0 ==> remote == old(remote) - {f}
      ensures rc != 0 ==> unchanged(`remote)
      ensures online ==> rc == 0
      ensures OtherRows(meta.fileBlock, user) == old(OtherRows(meta.fileBlock, user))
    {
      var fault := AnyFaults(online);
      ghost var before := View();
      rc := meta.RemoveFile(user, f, fault);
      DeleteKeepsOtherRows(before.table, user, f);
      if rc == 0 {
        RemovalKeepsServers(before, user, digest, inPlay, f);
        catalog, remote := catalog - {FileKey(user, f)}, remote - {f};
      }
      assert View() == before.(table := meta.fileBlock, catalog := catalog, remote := remote);
    }

    // --------------------------------------------------------- a whole run

    /** One turn of the first loop, next to what the turns before it did since the loop began. */
    method LocalTurn(fi: string, answered: string -> bool,
                     ghost remote0: Remotes, ghost files0: Files, ghost saved0: Versions, ghost turns0: set<string>)
      returns (crashed: bool, ghost turns: set<string>)
      requires Valid() && Dated(files, saved, clock) && fi in files0 && fi !in turns0
      requires AfterTurns(remote0, files0, saved0, turns0, answered, remote, files, saved)
      modifies this`blockDir, this`transfers, this`remote, this`catalog, this`files, this`saved, this`clock
      modifies meta, cache.origin, cache.db.server`db, cache.db.server.buffer
      ensures Valid() && Dated(files, saved, clock)
      ensures turns == if fi in OWN_FILES then turns0 else turns0 + {fi}
      ensures AfterTurns(remote0, files0, saved0, turns, answered, remote, files, saved)
      ensures fi in OWN_FILES || answered(fi) ==> !crashed
      ensures old(fi in OWN_FILES || Synced(remote, files, saved, fi)) ==> NothingMoved()
      ensures OnlyForward()
    {
      ghost var remote1, files1, saved1 := remote, files, saved;
      StillThere(remote0, files0, saved0, turns0, answered, remote, files, saved, fi);
      crashed := CheckUnlessOwn(fi, answered);
      turns := turns0;
      if fi !in OWN_FILES {
        turns := turns0 + {fi};
        NextTurn(remote0, files0, saved0, turns0, answered, remote1, files1, saved1, remote, files, saved, fi);
      }
    }

    /** The first loop, over os.listdir in any order; `turns` are the files that had their turn. */
    method LocalPass(order: seq<string>, answered: string -> bool) returns (crashed: bool, ghost turns: set<string>)
      requires Valid() && Dated(files, saved, clock)
      requires NoDuplicates(order) && forall f :: f in order <==> f in files
      modifies this`blockDir, this`transfers, this`remote, this`catalog, this`files, this`saved, this`clock
      modifies meta, cache.origin, cache.db.server`db, cache.db.server.buffer
      ensures Valid() && Dated(files, saved, clock)
      ensures AfterTurns(old(remote), old(files), old(saved), turns, answered, remote, files, saved)
      ensures turns <= old(files.Keys) - OWN_FILES
      ensures if crashed then StoppedIn(order, OWN_FILES, answered, turns) else turns == old(files.Keys) - OWN_FILES
      ensures (forall f :: answered(f)) ==> !crashed
      ensures old(AllSynced(remote, files, saved)) ==> NothingMoved()
      ensures OnlyForward()
    {
      crashed, turns := false, {};
      for i := 0 to |order|
        invariant Valid() && Dated(files, saved, clock)
        invariant turns == TurnsOf(order, i, OWN_FILES)
        invariant AfterTurns(old(remote), old(files), old(saved), turns, answered, remote, files, saved)
        invariant old(AllSynced(remote, files, saved)) ==> NothingMoved()
        invariant OnlyForward()
      {
        assert old(AllSynced(remote, files, saved)) ==>
            old(order[i] in OWN_FILES || Synced(remote, files, saved, order[i]));
        NextOf(order, old(files.Keys), i, OWN_FILES);
        ghost var before := Around();
        crashed, turns := LocalTurn(order[i], answered, old(remote), old(files), old(saved), turns);
        ForwardOn(old(Around()), before, Around());
        if crashed {
          return;
        }
      }
      AllTurns(order, old(files.Keys), OWN_FILES);
    }

    /** One turn of the second loop, likewise. */
    method ListedTurn(f: string, answered: string -> bool,
                      ghost remote0: Remotes, ghost files0: Files, ghost saved0: Versions, ghost turns0: set<string>)
      returns (crashed: bool, ghost turns: set<string>)
      requires Valid() && Dated(files, saved, clock) && f in remote0 && f !in OWN_FILES && f !in turns0
      requires AfterTurns(remote0, files0, saved0, turns0, answered, remote, files, saved)
      modifies this`blockDir, this`transfers, this`remote, this`catalog, this`files, this`saved, this`clock
      modifies meta, cache.db.server`db, cache.db.server.buffer
      ensures Valid() && Dated(files, saved, clock)
      ensures turns == if f in files0 then turns0 else turns0 + {f}
      ensures AfterTurns(remote0, files0, saved0, turns, answered, remote, files, saved)
      ensures f in files0 || answered(f) ==> !crashed
      ensures f in files0 ==> NothingMoved()
      ensures OnlyForward()
    {
      ghost var remote1, files1, saved1 := remote, files, saved;
      StillThere(remote0, files0, saved0, turns0, answered, remote, files, saved, f);
      crashed := CheckListed(f, answered(f));
      turns := turns0;
      if f !in files0 {
        turns := turns0 + {f};
        NextTurn(remote0, files0, saved0, turns0, answered, remote1, files1, saved1, remote, files, saved, f);
      }
    }

    /** The second loop, over the server's file list. */
    method ListedPass(names: seq<string>, answered: string -> bool) returns (crashed: bool, ghost turns: set<string>)
      requires Valid() && Dated(files, saved, clock)
      requires NoDuplicates(names) && forall f :: f in names <==> f in remote
      modifies this`blockDir, this`transfers, this`remote, this`catalog, this`files, this`saved, this`clock
      modifies meta, cache.db.server`db, cache.db.server.buffer
      ensures Valid() && Dated(files, saved, clock)
      ensures AfterTurns(old(remote), old(files), old(saved), turns, answered, remote, files, saved)
      ensures turns <= old(remote.Keys - files.Keys)
      ensures if crashed then StoppedIn(names, old(files.Keys), answered, turns)
              else turns == old(remote.Keys - files.Keys)
      ensures old(remote.Keys <= files.Keys) ==> NothingMoved()
      ensures OnlyForward()
    {
      crashed, turns := false, {};
      for i := 0 to |names|
        invariant Valid() && Dated(files, saved, clock)
        invariant turns == TurnsOf(names, i, old(files.Keys))
        invariant AfterTurns(old(remote), old(files), old(saved), turns, answered, remote, files, saved)
        invariant old(remote.Keys <= files.Keys) ==> NothingMoved()
        invariant OnlyForward()
      {
        NextOf(names, old(remote.Keys), i, old(files.Keys));
        ghost var before := Around();
        crashed, turns := ListedTurn(names[i], answered, old(remote), old(files), old(saved), turns);
        ForwardOn(old(Around()), before, Around());
        if crashed {
          return;
        }
      }
      AllTurns(names, old(remote.Keys), old(files.Keys));
    }

    /** getFileList */
    method GetFileList(online: bool) returns (replied: bool, names: seq<string>)
      requires Valid()
      ensures online ==> replied
      ensures replied ==> NoDuplicates(names) && forall f :: f in names <==> f in remote
    {
      var fault := AnyFaults(online);
      var rc, versions;
      rc, names, versions := meta.GetUserFileNames(user, fault);
      FileListIsRemote(meta.fileBlock, catalog, user, cache.origin.blocks, remote, digest);
      replied := Replied(online);
      replied := replied && rc == 0;
    }

    /** file_list, then the second loop. */
    method ServerPass(answered: string -> bool, listed: bool) returns (completed: bool, ghost turns: set<string>)
      requires Valid() && Dated(files, saved, clock)
      modifies this`blockDir, this`transfers, this`remote, this`catalog, this`files, this`saved, this`clock
      modifies meta, cache.db.server`db, cache.db.server.buffer
      ensures Valid() && Dated(files, saved, clock)
      ensures AfterTurns(old(remote), old(files), old(saved), turns, answered, remote, files, saved)
      ensures turns <= old(remote.Keys - files.Keys)
      ensures if completed then turns == old(remote.Keys - files.Keys)
              else (!listed && turns == {}) || exists f :: f in turns && !answered(f)
      ensures old(remote.Keys <= files.Keys) ==> NothingMoved()
      ensures OnlyForward()
    {
      var replied, names := GetFileList(listed);
      if !replied {
        return false, {};
      }
      var crashed;
      crashed, turns := ListedPass(names, answered);
      completed := !crashed;
    }

    /**
     One run of the script, undisturbed by other clients, from any state.  `answered` names the
     files whose requests are answered, `listed` says whether file_list is.  Every name in `done`
     has had its turn and, if its requests are answered, has the outcome its two sides call for;
     otherwise its turn may have been cut short.  All others are as they were.  A run ends early
     only with a failed request, after the turns of all names before it.  One that finds both
     sides in sync moves nothing.
    */
    method Run(order: seq<string>, answered: string -> bool, listed: bool)
      returns (completed: bool, ghost done: set<string>)
      requires Valid() && Dated(files, saved, clock)
      requires NoDuplicates(order) && forall f :: f in order <==> f in files
      modifies this`blockDir, this`transfers, this`remote, this`catalog, this`files, this`saved, this`clock
      modifies meta, cache.origin, cache.db.server`db, cache.db.server.buffer
      ensures Valid() && Dated(files, saved, clock)
      ensures AfterTurns(old(remote), old(files), old(saved), done, answered, remote, files, saved)
      ensures Reached(order, old(files), old(remote), answered, listed, completed, done)
      ensures "sync.py" !in done && "versions.json" !in done
      ensures old(AllSynced(remote, files, saved)) ==> NothingMoved()
      ensures OnlyForward()
    {
      ghost var turns, turns1;
      var crashed;
      crashed, turns := LocalPass(order, answered);
      if crashed {
        return false, turns;
      }
      ghost var remote1, files1, saved1, between := remote, files, saved, Around();
      SameRest(old(remote), old(files), old(saved), turns, answered, remote1, files1, saved1);
      if old(AllSynced(remote, files, saved)) {
        NoneListed(remote, files, saved);
      }
      completed, turns1 := ServerPass(answered, listed);
      ForwardOn(old(Around()), between, Around());
      AllLoops(old(remote), old(files), old(saved), turns, answered, remote1, files1, saved1, turns1,
               remote, files, saved);
      done := turns + turns1;
    }

    /**
     What a run does for its user.  Whatever requests fail, the promise is kept, no version goes
     back, and every answered name whose turn came is synced.  When all are answered, the run
     converges.  A client with nothing to push leaves the servers' files as they are.
    */
    method Sync(order: seq<string>, answered: string -> bool, listed: bool)
      returns (completed: bool, ghost done: set<string>)
      requires Valid() && Consistent(remote, files, saved, clock)
      requires NoDuplicates(order) && forall f :: f in order <==> f in files
      modifies this`blockDir, this`transfers, this`remote, this`catalog, this`files, this`saved, this`clock
      modifies meta, cache.origin, cache.db.server`db, cache.db.server.buffer
      ensures Valid() && Consistent(remote, files, saved, clock)
      ensures AfterTurns(old(remote), old(files), old(saved), done, answered, remote, files, saved)
      ensures Reached(order, old(files), old(remote), answered, listed, completed, done)
      ensures "sync.py" !in done && "versions.json" !in done
      ensures forall f | f in done && answered(f) :: Synced(remote, files, saved, f)
      ensures (forall f :: answered(f)) && listed ==> completed && AllSynced(remote, files, saved)
      ensures forall f :: Newer(old(remote), remote, f)
      ensures old(NothingToPush(remote, files, saved)) ==> unchanged(`remote)
      ensures OnlyForward()
    {
      ghost var remote0, files0, saved0, clock0 := remote, files, saved, clock;
      completed, done := Run(order, answered, listed);
      RunKeepsConsistent(remote0, files0, saved0, clock0, done, answered, remote, files, saved, clock);
      RunConverges(remote0, files0, saved0, clock0, done, answered, remote, files, saved);
      RunKeepsNewer(remote0, files0, saved0, done, answered, remote, files, saved);
      if old(NothingToPush(remote, files, saved)) {
        NothingPushed(remote0, files0, saved0, done, answered, remote, files, saved);
      }
    }

    /**
     Bookkeeping of the proof: another client of the same user has changed the servers, and this
     one takes over what is known of them.
    */
    ghost method CatchUp(peer: SyncClient)
      requires peer.Valid() && SameServers(this, peer)
      requires cache.Valid() && Agrees(cache.db.server.db, cache.origin.blocks)
      requires AllNameable(files, inPlay)
      modifies this`remote, this`catalog
      ensures Valid() && remote == peer.remote
    {
      remote, catalog := peer.remote, peer.catalog;
    }
  }

  /** Two clients of one user on the same metadata and block servers. */
  ghost predicate SameServers(a: SyncClient, b: SyncClient) {
    && a.user == b.user && a.meta == b.meta && a.cache.origin == b.cache.origin
    && a.digest == b.digest && a.inPlay == b.inPlay
  }

  /** A block list whose blocks can all be had and named. */
  predicate Fetchable(blockList: seq<Hash>, blocks: Blocks) {
    && |blockList| <= MAX_BLOCKS
    && forall i | 0 <= i < |blockList| :: IsHash(blockList[i]) && blockList[i] in blocks
  }

  lemma NoBlocksYet(fi: string, bs: seq<Bytes>)
    ensures HoldsBlocks(map[], fi, bs[..0])
  {
  }

  /** The next block's name is none of those before. */
  lemma NewName(fi: string, n: nat)
    requires n < MAX_BLOCKS
    ensures BlockName(fi, n + 1) !in NamesUpTo(fi, n)
  {
    var names, name := NamesUpTo(fi, n), BlockName(fi, n + 1);
    forall i | 0 <= i < n
      ensures names[i] != name
    {
      NameOrder(fi, i + 1, n + 1);
      Trichotomy(name, name);
    }
  }

  /** Writing block number |bs| + 1 extends the download by that block. */
  lemma WriteNextBlock(dir: Directory, fi: string, bs: seq<Bytes>, block: Bytes)
    requires HoldsBlocks(dir, fi, bs) && |bs| < MAX_BLOCKS
    ensures HoldsBlocks(dir[BlockName(fi, |bs| + 1) := block], fi, bs + [block])
  {
    var names, names' := NamesUpTo(fi, |bs|), NamesUpTo(fi, |bs| + 1);
    var name := BlockName(fi, |bs| + 1);
    assert names' == names + [name];
    NewName(fi, |bs|);
  }

  predicate HoldAll(blocks: Blocks, hashes: seq<Hash>) {
    forall i | 0 <= i < |hashes| :: hashes[i] in blocks
  }

  /** A hash the query does not name has a row, so its block is held already. */
  lemma QueryIsEnough(t: Table, blocks: Blocks, hashes: seq<Hash>, needed: seq<Hash>)
    requires RowsBacked(t, blocks) && needed == MissingHashes(t, hashes)
    ensures forall h | h in needed :: h in hashes
    ensures forall h | h in hashes :: h in needed || h in blocks
  {
    var idx := MissingHashesExact(t, hashes);
    forall h | h in hashes && h !in needed
      ensures h in blocks
    {
      assert multiset(needed)[h] == 0 && multiset(hashes)[h] > 0;
    }
  }

  lemma HeldHashesAreStored(bs: seq<Bytes>, before: Blocks, after: Blocks, needed: seq<Hash>,
                            digest: Digest, inPlay: iset<Bytes>)
    requires Sha(digest, inPlay) && Genuine(after, digest, inPlay)
    requires forall b | b in bs :: b in inPlay
    requires forall h | h in HashesOf(digest, bs) :: h in needed || h in before
    requires Grown(before, after) && HoldAll(after, needed)
    ensures Stored(bs, after, digest)
  {
    forall i | 0 <= i < |bs|
      ensures digest(bs[i]) in after
    {
      assert HashesOf(digest, bs)[i] in HashesOf(digest, bs);
    }
    HeldIsStored(bs, after, digest, inPlay);
  }

  lemma ReadKeepsServers(s: Servers, user: string, digest: Digest, inPlay: iset<Bytes>, cached: Db)
    requires ServersOk(s, user, digest, inPlay) && Agrees(cached, s.blocks)
    ensures ServersOk(s.(cached := cached), user, digest, inPlay)
  {
  }

  /** A downloaded file is one the protocol can carry back. */
  lemma DownloadIsNameable(s: Servers, user: string, digest: Digest, inPlay: iset<Bytes>, files: Files,
                           f: string, mtime: nat)
    requires ServersOk(s, user, digest, inPlay) && f in s.remote
    requires AllNameable(files, inPlay)
    ensures AllNameable(files[f := LocalFile(ContentOf(s.remote[f]), mtime)], inPlay)
  {
    var r := s.remote[f];
    assert HoldsRemote(r, s.catalog[FileKey(user, f)], s.blocks, digest);
    SplitConcat(r.blocks);
    assert Split(ContentOf(r)) == r.blocks;
  }

  lemma CommittedWhole(remote: Remotes, f: string, version: nat, content: Bytes)
    requires content != ""
    ensures var remote' := Committed(remote, f, version, Split(content), |Split(content)|);
      f in remote' && ContentOf(remote'[f]) == content
  {
    SplitIsCanonical(content);
    assert Split(content)[..|Split(content)|] == Split(content);
  }

  /** block_list, then the download of what it lists, after another client's upload. */
  method DownloadListed(down: SyncClient, ghost up: SyncClient, fi: string, online: bool) returns (ok: bool)
    requires down != up && up.Valid() && fi in up.remote && SameServers(down, up)
    requires down.cache.Valid() && Agrees(down.cache.db.server.db, down.cache.origin.blocks)
    requires AllNameable(down.files, down.inPlay)
    modifies down`files, down`blockDir, down`clock, down`transfers, down`remote, down`catalog
    modifies down.cache.db.server`db, down.cache.db.server.buffer
    ensures ok ==> fi in down.files && down.files[fi].content == old(ContentOf(up.remote[fi]))
    ensures down.files == if ok then old(down.files)[fi := down.files[fi]] else old(down.files)
    ensures online ==> ok
    ensures down.cache.Valid() && Agrees(down.cache.db.server.db, down.cache.origin.blocks)
    ensures StillServed(old(down.cache.db.server.db), down.cache.db.server.db)
  {
    down.CatchUp(up);
    var list, version;
    ok, list, version := down.GetBlockList(fi, online);
    if ok {
      ok := down.DownFile(fi, list, online);
    }
  }

  /**
   End to end.  A non-empty file of at most 99999 blocks, uploaded by one client and then
   downloaded by another through any cache that agrees with the block server, is the
   original byte sequence.
   */
  method UploadThenDownload(up: SyncClient, down: SyncClient, fi: string, version: nat, online: bool)
    returns (ok: bool, ghost rows: int)
    requires up.Valid() && fi in up.files && fi !in OWN_FILES
    requires down != up && SameServers(down, up)
    requires down.cache.Valid() && Agrees(down.cache.db.server.db, up.cache.origin.blocks)
    requires AllNameable(down.files, down.inPlay)
    modifies up`blockDir, up`transfers, up`remote, up`catalog, up.meta, up.cache.origin
    modifies down`files, down`blockDir, down`clock, down`transfers, down`remote, down`catalog
    modifies down.cache.db.server`db, down.cache.db.server.buffer
    ensures ok ==> fi in down.files && down.files[fi].content == old(up.files[fi].content)
    ensures down.files == if ok then old(down.files)[fi := down.files[fi]] else old(down.files)
    ensures -1 <= rows <= |Split(up.files[fi].content)| && (ok ==> rows == |Split(up.files[fi].content)|)
    ensures up.remote == Committed(old(up.remote), fi, version, Split(up.files[fi].content), rows)
    ensures online ==> (ok <==> MayUpload(old(up.remote), fi, version))
    ensures Agrees(down.cache.db.server.db, down.cache.origin.blocks)
    ensures OtherRows(up.meta.fileBlock, up.user) == old(OtherRows(up.meta.fileBlock, up.user))
    ensures Grown(old(up.cache.origin.blocks), up.cache.origin.blocks)
    ensures StillServed(old(down.cache.db.server.db), down.cache.db.server.db)
  {
    assert Nameable(up.files[fi], up.inPlay);
    CommittedWhole(up.remote, fi, version, up.files[fi].content);
    ok, rows := up.UpFile(fi, version, online);
    assert up.cache.Valid();
    if ok {
      ok := DownloadListed(down, up, fi, online);
    }
  }
}

/** How the three servers together hold a user's files, and what an upload does to that. */
module SyncServers {
  import opened Basics
  import opened LevelDb
  import opened FileBlockTable
  import opened MetadataSpec
  import opened CacheNode
  import opened SyncModel

  /** More blocks than this and the block names of a download no longer sort in order. */
  const MAX_BLOCKS: nat := 99999

  /** SHA-256 as the protocol needs it: hexadecimal output, no collision among the blocks in play. */
  ghost predicate Sha(digest: Digest, inPlay: iset<Bytes>) {
    && (forall b :: IsHash(digest(b)))
    && NoCollision(digest, inPlay)
  }

  /** Every stored block hashes to its key, is in play and not too long. */
  ghost predicate Genuine(blocks: Blocks, digest: Digest, inPlay: iset<Bytes>) {
    && HashesRight(blocks, digest)
    && BlocksFit(blocks)
    && forall h | h in blocks :: blocks[h] in inPlay
  }

  ghost predicate Stored(bs: seq<Bytes>, blocks: Blocks, digest: Digest) {
    forall i | 0 <= i < |bs| :: digest(bs[i]) in blocks && blocks[digest(bs[i])] == bs[i]
  }

  ghost predicate HoldsRemote(r: Remote, e: Entry, blocks: Blocks, digest: Digest) {
    && e == Entry(r.version, HashesOf(digest, r.blocks))
    && Stored(r.blocks, blocks, digest)
    && Canonical(r.blocks) && 0 < |r.blocks| <= MAX_BLOCKS
  }

  /** The user's part of the catalog is the abstract `remote`. */
  ghost predicate HoldsUser(catalog: Catalog, blocks: Blocks, user: string, remote: Remotes, digest: Digest) {
    && (forall f {:trigger FileKey(user, f)} :: f in remote <==> FileKey(user, f) in catalog)
    && (forall f {:trigger FileKey(user, f)} | f in remote ::
          HoldsRemote(remote[f], catalog[FileKey(user, f)], blocks, digest))
  }

  /** The block server only ever gains blocks. */
  predicate Grown(before: Blocks, after: Blocks) {
    forall h | h in before :: h in after && after[h] == before[h]
  }

  lemma StoreKeepsBlocks(blocks: Blocks, digest: Digest, inPlay: iset<Bytes>, h: Hash, b: Bytes)
    requires Sha(digest, inPlay) && Genuine(blocks, digest, inPlay)
    requires b in inPlay && |b| <= BLOCK_BYTES && digest(b) == h
    ensures Genuine(blocks[h := b], digest, inPlay) && Grown(blocks, blocks[h := b])
  {
  }

  lemma GrownKeepsUser(catalog: Catalog, blocks: Blocks, blocks': Blocks, user: string, remote: Remotes, digest: Digest)
    requires HoldsUser(catalog, blocks, user, remote, digest)
    requires Grown(blocks, blocks')
    ensures HoldsUser(catalog, blocks', user, remote, digest)
  {
    forall f | f in remote
      ensures HoldsRemote(remote[f], catalog[FileKey(user, f)], blocks', digest)
    {
      assert HoldsRemote(remote[f], catalog[FileKey(user, f)], blocks, digest);
    }
  }

  /** A block that is held under its digest is that block. */
  lemma HeldIsStored(bs: seq<Bytes>, blocks: Blocks, digest: Digest, inPlay: iset<Bytes>)
    requires Sha(digest, inPlay) && Genuine(blocks, digest, inPlay)
    requires forall i | 0 <= i < |bs| :: bs[i] in inPlay && digest(bs[i]) in blocks
    ensures Stored(bs, blocks, digest)
  {
  }

  /** Rows come only from the table before the commit or from its own hash list. */
  lemma {:induction false} TraceBacked(trace: seq<Table>, u: string, f: string, hashes: seq<Hash>, version: nat,
                                          blocks: Blocks, j: nat)
    requires CommitTrace(trace, u, f, hashes, version) && j < |trace|
    requires RowsBacked(trace[0], blocks)
    requires forall i | 0 <= i < |hashes| :: hashes[i] in blocks
    ensures RowsBacked(trace[j], blocks)
    decreases j
  {
    if j > 0 {
      TraceBacked(trace, u, f, hashes, version, blocks, j - 1);
      if j == 1 {
        WhereIn(trace[0], FileIsNot(u, f));
      } else {
        assert Inserted(trace[j - 2 + 1], trace[j - 2 + 2], u, f, hashes[j - 2], j - 2, version);
      }
    }
  }

  /** Where a commit stopped, seen from the user: nothing happened, or a prefix of the new blocks is there. */
  lemma CommitKeepsUser(trace: seq<Table>, catalog: Catalog, user: string, f: string, bs: seq<Bytes>, version: nat,
                        blocks: Blocks, remote: Remotes, digest: Digest, j: nat)
    requires CommitTrace(trace, user, f, HashesOf(digest, bs), version) && j < |trace|
    requires Represents(trace[0], catalog)
    requires HoldsUser(catalog, blocks, user, remote, digest)
    requires Stored(bs, blocks, digest) && Canonical(bs) && |bs| <= MAX_BLOCKS
    ensures j == 0 ==> trace[j] == trace[0]
    ensures j > 0 ==>
      var catalog' := Put(catalog, FileKey(user, f), Entry(version, HashesOf(digest, bs)[..j - 1]));
      && Represents(trace[j], catalog')
      && HoldsUser(catalog', blocks, user, PutRemote(remote, f, Remote(version, bs[..j - 1])), digest)
  {
    if j > 0 {
      var hashes := HashesOf(digest, bs);
      BoundaryRepresents(trace, catalog, user, f, hashes, version, j);
      CanonicalPrefix(bs, j - 1);
      assert hashes[..j - 1] == HashesOf(digest, bs[..j - 1]);
      PutKeepsUser(catalog, user, f, Remote(version, bs[..j - 1]), blocks, remote, digest);
    }
  }

  lemma PutKeepsUser(catalog: Catalog, user: string, f: string, r: Remote, blocks: Blocks,
                     remote: Remotes, digest: Digest)
    requires HoldsUser(catalog, blocks, user, remote, digest)
    requires Stored(r.blocks, blocks, digest) && Canonical(r.blocks) && |r.blocks| <= MAX_BLOCKS
    ensures HoldsUser(Put(catalog, FileKey(user, f), Entry(r.version, HashesOf(digest, r.blocks))), blocks, user,
                      PutRemote(remote, f, r), digest)
  {
    var catalog' := Put(catalog, FileKey(user, f), Entry(r.version, HashesOf(digest, r.blocks)));
    var remote' := PutRemote(remote, f, r);
    forall g | g in remote'
      ensures HoldsRemote(remote'[g], catalog'[FileKey(user, g)], blocks, digest)
    {
      if g != f {
        assert HoldsRemote(remote[g], catalog[FileKey(user, g)], blocks, digest);
      }
    }
  }

  lemma RemovalKeepsUser(catalog: Catalog, user: string, f: string, blocks: Blocks, remote: Remotes, digest: Digest)
    requires HoldsUser(catalog, blocks, user, remote, digest)
    ensures HoldsUser(catalog - {FileKey(user, f)}, blocks, user, remote - {f}, digest)
  {
    forall g | g in remote - {f}
      ensures HoldsRemote(remote[g], catalog[FileKey(user, g)], blocks, digest)
    {
    }
  }

  /** The server accepts an upload's version exactly when the abstract check does. */
  lemma AcceptsIsMayUpload(t: Table, catalog: Catalog, user: string, f: string, blocks: Blocks, remote: Remotes,
                           digest: Digest, version: nat)
    requires Represents(t, catalog) && HoldsUser(catalog, blocks, user, remote, digest)
    ensures Accepts(t, user, f, version) <==> MayUpload(remote, f, version)
  {
    AcceptsIsMayCommit(t, catalog, user, f, version);
    if f in remote {
      assert HoldsRemote(remote[f], catalog[FileKey(user, f)], blocks, digest);
    }
  }

  /** What the list of a file resolves to at the block server. */
  function Resolve(hashes: seq<Hash>, blocks: Blocks): (bs: seq<Bytes>)
    requires forall i | 0 <= i < |hashes| :: hashes[i] in blocks
    ensures |bs| == |hashes| && forall i | 0 <= i < |hashes| :: bs[i] == blocks[hashes[i]]
  {
    seq(|hashes|, i requires 0 <= i < |hashes| => blocks[hashes[i]])
  }

  /** A reader of the block list gets hashes that resolve to the file's blocks, under its version. */
  lemma ListingResolves(t: Table, catalog: Catalog, user: string, f: string, blocks: Blocks,
                        remote: Remotes, digest: Digest)
    requires Represents(t, catalog) && HoldsUser(catalog, blocks, user, remote, digest)
    ensures BlockListOf(t, user, f) == [] <==> f !in remote
    ensures f in remote ==>
      && BlockListOf(t, user, f) == HashesOf(digest, remote[f].blocks)
      && (forall i | 0 <= i < |remote[f].blocks| :: HashesOf(digest, remote[f].blocks)[i] in blocks)
      && Resolve(HashesOf(digest, remote[f].blocks), blocks) == remote[f].blocks
      && (forall r | r in SelectFile(t, user, f) :: r.version == remote[f].version)
  {
    ReadsTheMap(t, catalog, FileKey(user, f));
    if f in remote {
      assert HoldsRemote(remote[f], catalog[FileKey(user, f)], blocks, digest);
    }
  }

  /** The file list names exactly the user's files, each once. */
  lemma FileListIsRemote(t: Table, catalog: Catalog, user: string, blocks: Blocks, remote: Remotes, digest: Digest)
    requires Represents(t, catalog) && HoldsUser(catalog, blocks, user, remote, digest)
    ensures NoDuplicates(Names(FileListOf(t, user)))
    ensures forall f :: f in Names(FileListOf(t, user)) <==> f in remote
  {
    FileListIsTheMap(t, catalog, user);
    var list := FileListOf(t, user);
    forall f
      ensures f in Names(list) <==> f in remote
    {
      if f in Names(list) {
        var i :| 0 <= i < |list| && Names(list)[i] == f;
        assert NamedVersion(f, list[i].version) in list;
      }
      if f in remote {
        var v := catalog[FileKey(user, f)].version;
        assert NamedVersion(f, v) in list;
        var i :| 0 <= i < |list| && list[i] == NamedVersion(f, v);
        assert Names(list)[i] == f;
      }
    }
  }

  // ------------------------------------------------ all of it in one value

  /** The contents of the three servers and what they mean for one user. */
  datatype Servers = Servers(table: Table, blocks: Blocks, cached: Db, catalog: Catalog, remote: Remotes)

  ghost predicate ServersOk(s: Servers, user: string, digest: Digest, inPlay: iset<Bytes>) {
    && Sha(digest, inPlay)
    && Represents(s.table, s.catalog)
    && RowsBacked(s.table, s.blocks)
    && Genuine(s.blocks, digest, inPlay)
    && Agrees(s.cached, s.blocks)
    && HoldsUser(s.catalog, s.blocks, user, s.remote, digest)
    && s.remote.Keys !! OWN_FILES
  }

  lemma GrowthKeepsServers(s: Servers, user: string, digest: Digest, inPlay: iset<Bytes>, blocks: Blocks)
    requires ServersOk(s, user, digest, inPlay)
    requires Genuine(blocks, digest, inPlay) && Grown(s.blocks, blocks)
    ensures ServersOk(s.(blocks := blocks), user, digest, inPlay)
  {
    GrownKeepsUser(s.catalog, s.blocks, blocks, user, s.remote, digest);
  }

  /**
   The remote files after a commit attempt whose statements stopped after `rows` INSERTs:
   a prefix of the new blocks, or nothing new when not even the DELETE ran (rows is -1).
   */
  function Committed(remote: Remotes, f: string, version: nat, bs: seq<Bytes>, rows: int): Remotes
    requires -1 <= rows <= |bs|
  {
    if rows == -1 then remote else PutRemote(remote, f, Remote(version, bs[..rows]))
  }

  /** Wherever the statements of a commit stop, the servers still hold a user's files properly. */
  lemma CommitKeepsServers(s: Servers, user: string, digest: Digest, inPlay: iset<Bytes>, trace: seq<Table>,
                           f: string, bs: seq<Bytes>, version: nat) returns (s': Servers, rows: int)
    requires ServersOk(s, user, digest, inPlay) && f !in OWN_FILES
    requires CommitTrace(trace, user, f, HashesOf(digest, bs), version) && trace[0] == s.table
    requires |trace| > 1 ==> Accepts(s.table, user, f, version)
    requires Stored(bs, s.blocks, digest) && Canonical(bs) && 0 < |bs| <= MAX_BLOCKS
    ensures s' == s.(table := trace[|trace| - 1], catalog := s'.catalog, remote := s'.remote)
    ensures ServersOk(s', user, digest, inPlay)
    ensures rows == |trace| - 2 && s'.remote == Committed(s.remote, f, version, bs, rows)
    ensures Accepts(s.table, user, f, version) <==> MayUpload(s.remote, f, version)
  {
    var j := |trace| - 1;
    s', rows := s, j - 1;
    AcceptsIsMayUpload(s.table, s.catalog, user, f, s.blocks, s.remote, digest, version);
    CommitKeepsUser(trace, s.catalog, user, f, bs, version, s.blocks, s.remote, digest, j);
    if j > 0 {
      TraceBacked(trace, user, f, HashesOf(digest, bs), version, s.blocks, j);
      s' := s.(table := trace[j],
               catalog := Put(s.catalog, FileKey(user, f), Entry(version, HashesOf(digest, bs)[..j - 1])),
               remote := PutRemote(s.remote, f, Remote(version, bs[..j - 1])));
    }
  }

  lemma RemovalKeepsServers(s: Servers, user: string, digest: Digest, inPlay: iset<Bytes>, f: string)
    requires ServersOk(s, user, digest, inPlay)
    ensures ServersOk(s.(table := DeleteFile(s.table, user, f), catalog := s.catalog - {FileKey(user, f)},
                         remote := s.remote - {f}), user, digest, inPlay)
  {
    RemovalRepresents(s.table, s.catalog, user, f);
    RemovalKeepsUser(s.catalog, user, f, s.blocks, s.remote, digest);
    WhereIn(s.table, FileIsNot(user, f));
  }

  /** What block_list answers for a file, and what its hashes resolve to. */
  lemma ListingOf(s: Servers, user: string, digest: Digest, inPlay: iset<Bytes>, f: string)
    requires ServersOk(s, user, digest, inPlay)
    ensures var list := BlockListOf(s.table, user, f);
      && (list == [] <==> f !in s.remote)
      && |list| <= MAX_BLOCKS
      && (forall i | 0 <= i < |list| :: IsHash(list[i]) && list[i] in s.blocks)
      && (f in s.remote ==> Resolve(list, s.blocks) == s.remote[f].blocks)
      && (f in s.remote ==> forall r | r in SelectFile(s.table, user, f) :: r.version == s.remote[f].version)
  {
    ListingResolves(s.table, s.catalog, user, f, s.blocks, s.remote, digest);
    if f in s.remote {
      assert HoldsRemote(s.remote[f], s.catalog[FileKey(user, f)], s.blocks, digest);
    }
  }
}

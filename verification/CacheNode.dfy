/** The block server and a cache host in front of it. */
module CacheNode {
  import opened Basics
  import opened LevelDb
  import opened FileBlockTable
  import opened MetadataSpec
  import opened Metadata

  type Blocks = map<Hash, Bytes>

  /** split -b 4m */
  const BLOCK_BYTES: nat := 4194304

  /** A hash parameter this long still leaves a frame room for a block and the put around them. */
  const MAX_PARAM: nat := 800000

  /** A digest as SHA-256 prints it: 64 characters, none of them a comma. */
  predicate IsHash(h: Hash) {
    |h| == 64 && CommaFree(h)
  }

  predicate BlocksFit(blocks: Blocks) {
    forall h | h in blocks :: |blocks[h]| <= BLOCK_BYTES
  }

  datatype HttpReply = HttpReply(code: string, body: Bytes)

  const NO_SUCH_KEY := "<html><p>400 Key does not exist</p></html>\n"

  /** requestFromBlockServer: a request that fails leaves both strings empty. */
  function OriginReply(blocks: Blocks, h: Hash, answered: bool): HttpReply {
    if !answered then HttpReply("", "")
    else if h in blocks then HttpReply("200", blocks[h])
    else HttpReply("400", NO_SUCH_KEY)
  }

  /** Every cached entry is the block server's. */
  predicate Agrees(cache: Db, blocks: Blocks) {
    forall h | h in cache :: h in blocks && cache[h] == blocks[h]
  }

  /** What a cache could serve it serves still. */
  ghost predicate StillServed(cache: Db, cache': Db) {
    forall h | Lookup(cache, h).Some? :: Lookup(cache', h) == Lookup(cache, h)
  }

  /** Every hash in a row is held by the block server. */
  ghost predicate RowsBacked(t: Table, blocks: Blocks) {
    forall r | r in t :: r.blockHash in blocks
  }

  /** Every stored block hashes to its key. */
  ghost predicate HashesRight(blocks: Blocks, digest: Digest) {
    forall h | h in blocks :: digest(blocks[h]) == h
  }

  /** SHA-256 does not collide among the byte strings in play. */
  ghost predicate NoCollision(digest: Digest, inPlay: iset<Bytes>) {
    forall a, b | a in inPlay && b in inPlay && digest(a) == digest(b) :: a == b
  }

  /** The block server: blockcache/block_store.cc and block_fetch.cc over one LevelDB. */
  class BlockServer {
    var blocks: Blocks

    constructor ()
      ensures blocks == map[]
    {
      blocks := map[];
    }

    method Store(hash: Hash, data: Bytes)
      modifies this
      ensures blocks == old(blocks)[hash := data]
    {
      blocks := blocks[hash := data];
    }

    method Fetch(hash: Hash, answered: bool) returns (reply: HttpReply)
      ensures reply == OriginReply(blocks, hash, answered)
    {
      if !answered {
        return HttpReply("", "");
      }
      if hash !in blocks {
        return HttpReply("400", NO_SUCH_KEY);
      }
      return HttpReply("200", blocks[hash]);
    }
  }

  /** What filling the cache from the picked hashes makes of it; answered(i) tells whether fetch i got a reply. */
  function Filled(db: Db, picked: seq<Hash>, blocks: Blocks, answered: nat -> bool): Db {
    if picked == [] then db
    else
      var i := |picked| - 1;
      var before := Filled(db, picked[..i], blocks, answered);
      if answered(i) && picked[i] in blocks then before[picked[i] := blocks[picked[i]]] else before
  }

  /** Filling stores exactly the picked hashes that were fetched and held; all else stays. */
  lemma {:induction false} FilledExact(db: Db, picked: seq<Hash>, blocks: Blocks, answered: nat -> bool, h: Hash)
    ensures var db' := Filled(db, picked, blocks, answered);
      if h in blocks && (exists i: nat :: i < |picked| && picked[i] == h && answered(i))
      then h in db' && db'[h] == blocks[h]
      else (h in db' <==> h in db) && (h in db ==> db'[h] == db[h])
  {
    if picked != [] {
      var n := |picked| - 1;
      FilledExact(db, picked[..n], blocks, answered, h);
      if i: nat :| i < n && picked[i] == h && answered(i) {
        assert picked[..n][i] == h;
      }
    }
  }

  /** The hashes the cache reports missing, in order, duplicates included. */
  function Missed(db: Db, hashes: seq<Hash>): seq<Hash> {
    Keep(hashes, h => Lookup(db, h).None?)
  }

  /** Listed in that order, and each as often as it is listed, exactly when the cache cannot serve it. */
  lemma MissedExact(db: Db, hashes: seq<Hash>) returns (idx: seq<nat>)
    ensures PicksOut(Missed(db, hashes), hashes, idx)
    ensures forall h :: multiset(Missed(db, hashes))[h] ==
                        if Lookup(db, h).Some? then 0 else multiset(hashes)[h]
    ensures forall h :: h in Missed(db, hashes) <==> h in hashes && Lookup(db, h).None?
  {
    idx := KeepExact(hashes, h => Lookup(db, h).None?);
    forall h
      ensures h in Missed(db, hashes) <==> h in hashes && Lookup(db, h).None?
    {
      assert h in Missed(db, hashes) <==> multiset(Missed(db, hashes))[h] > 0;
    }
  }

  /** A cache host: blockcache/cache_block_fetch.cpp, cache_block_store.cpp and prefetch.cpp. */
  class CacheHost {
    const db: LevelDBHelper
    const origin: BlockServer

    ghost predicate Valid()
      reads db.server, origin
    {
      db.Valid() && BlocksFit(origin.blocks)
    }

    constructor (db: LevelDBHelper, origin: BlockServer)
      ensures this.db == db && this.origin == origin
    {
      this.db, this.origin := db, origin;
    }

    /** cache_block_fetch: a hit is served from the cache; a miss is read through, and stored whatever it is. */
    method CacheBlockFetch(hash: Hash, answered: bool) returns (reply: HttpReply)
      requires Valid() && |hash| <= MAX_PARAM
      modifies db.server`db, db.server.buffer
      ensures Valid()
      ensures match Lookup(old(db.server.db), KeyOf(hash))
              case Some(data) => reply == HttpReply("200", data) && db.server.db == old(db.server.db)
              case None => reply == OriginReply(origin.blocks, hash, answered) &&
                           db.server.db == old(db.server.db)[KeyOf(hash) := ValueOf(hash, reply.body)]
    {
      var hit := db.AlreadyExists(hash);
      if hit {
        var rc, data := db.Get(hash, "");
        reply := HttpReply("200", data);
      } else {
        reply := origin.Fetch(hash, answered);
        var rc := db.Put(hash, reply.body);
      }
    }

    /** pickHashes */
    method PickHashes(recent: seq<Hash>) returns (hashes: seq<Hash>)
      requires Valid() && forall i | 0 <= i < |recent| :: IsHash(recent[i])
      modifies db.server`db, db.server.buffer
      ensures Valid() && db.server.db == old(db.server.db)
      ensures hashes == Missed(db.server.db, recent)
    {
      hashes := [];
      for i := 0 to |recent|
        invariant Valid() && db.server.db == old(db.server.db)
        invariant hashes == Missed(db.server.db, recent[..i])
      {
        assert recent[..i + 1][..i] == recent[..i];
        var here := db.AlreadyExists(recent[i]);
        if !here {
          hashes := hashes + [recent[i]];
        }
      }
      assert recent[..|recent|] == recent;
    }

    /** The fetch-and-put loop of the prefetcher; only replies with code 200 are stored. */
    method FetchAndPut(picked: seq<Hash>, answered: nat -> bool)
      requires Valid() && forall i | 0 <= i < |picked| :: IsHash(picked[i])
      modifies db.server`db, db.server.buffer
      ensures Valid()
      ensures db.server.db == Filled(old(db.server.db), picked, origin.blocks, answered)
    {
      for i := 0 to |picked|
        invariant Valid()
        invariant db.server.db == Filled(old(db.server.db), picked[..i], origin.blocks, answered)
      {
        assert picked[..i + 1][..i] == picked[..i];
        var reply := origin.Fetch(picked[i], answered(i));
        if reply.code == "200" {
          var rc := db.Put(picked[i], reply.body);
        }
      }
      assert picked[..|picked|] == picked;
    }

    /**
     One prefetch round for a user.  Every recent hash that the block server holds and whose
     fetch was answered is cached afterwards, and entries the cache could serve are untouched.
     */
    method PrefetchRound(userId: string, meta: MySQLHelper, fault: Faults, answered: nat -> bool)
      returns (rc: int, picked: seq<Hash>)
      requires Valid() && forall r | r in meta.fileBlock :: IsHash(r.blockHash)
      modifies db.server`db, db.server.buffer
      ensures Valid()
      ensures rc == fault(0)
      ensures rc != 0 ==> picked == []
      ensures rc == 0 ==> picked == Missed(old(db.server.db), RowHashes(RecentRows(meta.fileBlock, userId, 10)))
      ensures db.server.db == Filled(old(db.server.db), picked, origin.blocks, answered)
      ensures rc == 0 && (forall i: nat | i < |picked| :: answered(i)) ==>
                forall h | h in RowHashes(RecentRows(meta.fileBlock, userId, 10)) && h in origin.blocks ::
                  h in db.server.db
      ensures forall h | Lookup(old(db.server.db), h).Some? ::
                h in db.server.db && db.server.db[h] == old(db.server.db)[h]
    {
      var recent;
      rc, recent := meta.GetRecentFirstHashes(userId, 10, fault);
      picked := [];
      if rc != 0 {
        return;
      }
      RecentAreHashes(meta.fileBlock, userId);
      picked := PickHashes(recent);
      ghost var idx := MissedExact(old(db.server.db), recent);
      FetchAndPut(picked, answered);
      RoundEffect(old(db.server.db), recent, origin.blocks, answered);
    }
  }

  lemma RecentAreHashes(t: Table, u: string)
    requires forall r | r in t :: IsHash(r.blockHash)
    ensures forall h | h in RowHashes(RecentRows(t, u, 10)) :: IsHash(h) && exists r :: r in t && r.blockHash == h
  {
    var rows := RecentRows(t, u, 10);
    RecentFirst(t, u, 10);
    WhereIn(t, UserIs(u));
    forall i | 0 <= i < |rows|
      ensures rows[i] in t
    {
      assert rows[i] in multiset(rows);
      assert rows[i] in multiset(SelectUser(t, u));
    }
  }

  /** After a round: what was servable stays as it was, and every answered recent hash is there. */
  lemma RoundEffect(db: Db, recent: seq<Hash>, blocks: Blocks, answered: nat -> bool)
    ensures var picked := Missed(db, recent);
      var db' := Filled(db, picked, blocks, answered);
      && (forall h | Lookup(db, h).Some? :: h in db' && db'[h] == db[h])
      && ((forall i: nat | i < |picked| :: answered(i)) ==>
           forall h | h in recent && h in blocks :: h in db')
      && (Agrees(db, blocks) ==> Agrees(db', blocks))
  {
    var picked := Missed(db, recent);
    var db' := Filled(db, picked, blocks, answered);
    var idx := MissedExact(db, recent);
    forall h
      ensures Lookup(db, h).Some? ==> h in db' && db'[h] == db[h]
      ensures (forall i: nat | i < |picked| :: answered(i)) && h in recent && h in blocks ==> h in db'
      ensures Agrees(db, blocks) && h in db' ==> h in blocks && db'[h] == blocks[h]
    {
      FilledExact(db, picked, blocks, answered, h);
      if h in picked {
        var i :| 0 <= i < |picked| && picked[i] == h;
      }
    }
  }

  /** A miss keeps the cache in agreement exactly when the listed block came back. */
  lemma MissKeepsAgreementIff(cache: Db, blocks: Blocks, h: Hash, answered: bool)
    requires Agrees(cache, blocks)
    ensures Agrees(cache[h := OriginReply(blocks, h, answered).body], blocks) <==>
            h in blocks && (answered || blocks[h] == "")
  {
    var cache' := cache[h := OriginReply(blocks, h, answered).body];
    assert h in cache';
  }
}

/**
 What a process of the statement-level machine does when nothing else moves is what the classes'
 methods do in one call: the steps of the machine add up to the contracts of block_query, of
 updateFileData, of cache_block_fetch and of a prefetch round.
 */
module ProcessesAlone {
  import opened Basics
  import opened LevelDb
  import opened FileBlockTable
  import opened MetadataSpec
  import opened Metadata
  import opened CacheNode
  import opened UploadMachine

  /** Process pid takes one step for each of these environments. */
  function Alone(digest: Digest, s: Sys, pid: nat, envs: seq<Env>): Sys {
    if envs == [] then s
    else Next(digest, Alone(digest, s, pid, envs[..|envs| - 1]), Advance(pid, envs[|envs| - 1]))
  }

  lemma AloneNext(digest: Digest, s: Sys, pid: nat, envs: seq<Env>, env: Env)
    ensures Alone(digest, s, pid, envs + [env]) == Next(digest, Alone(digest, s, pid, envs), Advance(pid, env))
  {
    assert (envs + [env])[..|envs|] == envs;
  }

  lemma AtAt(s: Sys, pid: nat, p: Phase, q: Phase)
    ensures At(At(s, pid, p), pid, q) == At(s, pid, q)
  {
    assert s.procs[pid := p][pid := q] == s.procs[pid := q];
  }

  /** The first two steps. */
  lemma TwoSteps(digest: Digest, s: Sys, pid: nat, env: Env, env': Env)
    ensures Alone(digest, s, pid, [env]) == Next(digest, s, Advance(pid, env))
    ensures Alone(digest, s, pid, [env, env']) ==
            Next(digest, Next(digest, s, Advance(pid, env)), Advance(pid, env'))
  {
    AloneNext(digest, s, pid, [], env);
    AloneNext(digest, s, pid, [env], env');
    assert [] + [env] == [env] && [env] + [env'] == [env, env'];
  }

  /** Requests begin with what the metadata server's calls answer, and a removal is its DELETE. */
  lemma RequestsBegin(digest: Digest, s: Sys, pid: nat, host: string, up: Upload, user: string, file: string)
    requires pid !in s.procs
    ensures Next(digest, s, StartUpload(pid, up)) == At(s, pid, Querying(up, 0, []))
    ensures Next(digest, s, StartDownload(pid, host, user, file)) ==
            At(s, pid, Fetching(host, BlockListOf(s.table, user, file), [], Look))
    ensures Next(digest, s, StartPrefetch(pid, host, user)) ==
            At(s, pid, Picking(host, RowHashes(RecentRows(s.table, user, 10)), 0, []))
    ensures Next(digest, s, Remove(user, file)) == s.(table := DeleteFile(s.table, user, file))
  {
  }

  // ------------------------------------------------------------ block_query

  lemma MissingNext(t: Table, hashes: seq<Hash>, i: nat)
    requires i < |hashes|
    ensures MissingHashes(t, hashes[..i + 1]) ==
            if CountHash(t, hashes[i]) == 0 then MissingHashes(t, hashes[..i]) + [hashes[i]]
            else MissingHashes(t, hashes[..i])
  {
    assert hashes[..i + 1][..i] == hashes[..i];
  }

  lemma QueryOne(digest: Digest, s: Sys, pid: nat, up: Upload, i: nat, env: Env)
    requires i < |up.blocks|
    ensures var hashes := HashesOf(digest, up.blocks);
      Next(digest, At(s, pid, Querying(up, i, MissingHashes(s.table, hashes[..i]))), Advance(pid, env)) ==
      At(s, pid, Querying(up, i + 1, MissingHashes(s.table, hashes[..i + 1])))
  {
    var hashes := HashesOf(digest, up.blocks);
    MissingNext(s.table, hashes, i);
    AtAt(s, pid, Querying(up, i, MissingHashes(s.table, hashes[..i])),
         Querying(up, i + 1, MissingHashes(s.table, hashes[..i + 1])));
  }

  /** After i SELECTs a block query has found what getMissingBlockHashes finds among the first i hashes. */
  lemma {:induction false} QueryAlone(digest: Digest, s: Sys, pid: nat, up: Upload, envs: seq<Env>)
    requires pid in s.procs && s.procs[pid] == Querying(up, 0, []) && |envs| <= |up.blocks|
    ensures Alone(digest, s, pid, envs) ==
            At(s, pid, Querying(up, |envs|, MissingHashes(s.table, HashesOf(digest, up.blocks)[..|envs|])))
  {
    var i := |envs|;
    if i == 0 {
      assert s.procs == s.procs[pid := Querying(up, 0, [])];
      assert MissingHashes(s.table, HashesOf(digest, up.blocks)[..0]) == [];
    } else {
      QueryAlone(digest, s, pid, up, envs[..i - 1]);
      QueryOne(digest, s, pid, up, i - 1, envs[i - 1]);
    }
  }

  /** And then it sends exactly the answer to the whole query. */
  lemma QueryEnds(digest: Digest, s: Sys, pid: nat, up: Upload, envs: seq<Env>)
    requires pid in s.procs && s.procs[pid] == Querying(up, 0, []) && |envs| == |up.blocks| + 1
    ensures Alone(digest, s, pid, envs) ==
            At(s, pid, Sending(up, MissingHashes(s.table, HashesOf(digest, up.blocks)), 0))
  {
    var hashes, n := HashesOf(digest, up.blocks), |up.blocks|;
    QueryAlone(digest, s, pid, up, envs[..n]);
    assert hashes[..n] == hashes;
    QueryLast(digest, s, pid, up, MissingHashes(s.table, hashes), envs[n]);
  }

  lemma QueryLast(digest: Digest, s: Sys, pid: nat, up: Upload, missing: seq<Hash>, env: Env)
    ensures Next(digest, At(s, pid, Querying(up, |up.blocks|, missing)), Advance(pid, env)) ==
            At(s, pid, Sending(up, missing, 0))
  {
    AtAt(s, pid, Querying(up, |up.blocks|, missing), Sending(up, missing, 0));
  }

  // ------------------------------------------------------------ file_commit

  /** A refused commit changes nothing. */
  lemma RefusedAlone(digest: Digest, s: Sys, pid: nat, up: Upload, env: Env)
    requires pid in s.procs && s.procs[pid] == Checking(up) && !Accepts(s.table, up.user, up.file, up.version)
    ensures Alone(digest, s, pid, [env]) == Gone(s, pid)
  {
  }

  lemma CommitBegins(digest: Digest, s: Sys, pid: nat, up: Upload, env: Env, env': Env)
    requires pid in s.procs && s.procs[pid] == Checking(up) && Accepts(s.table, up.user, up.file, up.version)
    ensures Alone(digest, s, pid, [env, env']) ==
            At(s.(table := DeleteFile(s.table, up.user, up.file)), pid, Inserting(up, 0))
  {
    TwoSteps(digest, s, pid, env, env');
    AtAt(s.(table := DeleteFile(s.table, up.user, up.file)), pid, Deleting(up), Inserting(up, 0));
  }

  lemma CommitInserts(digest: Digest, s: Sys, pid: nat, up: Upload, k: nat, t: Table, env: Env) returns (t': Table)
    requires k < |up.blocks|
    ensures Inserted(t, t', up.user, up.file, digest(up.blocks[k]), k, up.version)
    ensures Next(digest, At(s.(table := t), pid, Inserting(up, k)), Advance(pid, env)) ==
            At(s.(table := t'), pid, Inserting(up, k + 1))
  {
    var r := Row(up.user, up.file, digest(up.blocks[k]), k, up.version, env.time);
    t' := InsertAt(t, Min(env.position, |t|), r);
    AtAt(s.(table := t'), pid, Inserting(up, k), Inserting(up, k + 1));
  }

  lemma LongerTrace(trace: seq<Table>, u: string, f: string, hashes: seq<Hash>, version: nat, t': Table)
    requires CommitTrace(trace, u, f, hashes, version) && 2 <= |trace| < |hashes| + 2
    requires Inserted(trace[|trace| - 1], t', u, f, hashes[|trace| - 2], |trace| - 2, version)
    ensures CommitTrace(trace + [t'], u, f, hashes, version)
  {
    var longer := trace + [t'];
    forall i | 0 <= i < |longer| - 2
      ensures Inserted(longer[i + 1], longer[i + 2], u, f, hashes[i], i, version)
    {
      assert i < |trace| - 2 ==> Inserted(trace[i + 1], trace[i + 2], u, f, hashes[i], i, version);
    }
  }

  /** The statements of an accepted one leave a commit trace, cut where the process stands. */
  lemma {:induction false} CommitAlone(digest: Digest, s: Sys, pid: nat, up: Upload, envs: seq<Env>)
    returns (trace: seq<Table>)
    requires pid in s.procs && s.procs[pid] == Checking(up) && Accepts(s.table, up.user, up.file, up.version)
    requires 2 <= |envs| <= |up.blocks| + 2
    ensures CommitTrace(trace, up.user, up.file, HashesOf(digest, up.blocks), up.version)
    ensures |trace| == |envs| && trace[0] == s.table
    ensures Alone(digest, s, pid, envs) ==
            At(s.(table := trace[|trace| - 1]), pid, Inserting(up, |envs| - 2))
  {
    var n := |envs|;
    if n == 2 {
      trace := [s.table, DeleteFile(s.table, up.user, up.file)];
      CommitBegins(digest, s, pid, up, envs[0], envs[1]);
      assert envs == [envs[0], envs[1]];
    } else {
      var before := CommitAlone(digest, s, pid, up, envs[..n - 1]);
      var t' := CommitInserts(digest, s, pid, up, n - 3, before[n - 2], envs[n - 1]);
      LongerTrace(before, up.user, up.file, HashesOf(digest, up.blocks), up.version, t');
      trace := before + [t'];
    }
  }

  /** At its end the trace is that of the whole list, and the process is gone. */
  lemma CommitEnds(digest: Digest, s: Sys, pid: nat, up: Upload, envs: seq<Env>) returns (trace: seq<Table>)
    requires pid in s.procs && s.procs[pid] == Checking(up) && Accepts(s.table, up.user, up.file, up.version)
    requires |envs| == |up.blocks| + 3
    ensures CommitTrace(trace, up.user, up.file, HashesOf(digest, up.blocks), up.version)
    ensures |trace| == |up.blocks| + 2 && trace[0] == s.table
    ensures Alone(digest, s, pid, envs) == Gone(s.(table := trace[|trace| - 1]), pid)
  {
    trace := CommitAlone(digest, s, pid, up, envs[..|envs| - 1]);
    var t := trace[|trace| - 1];
    assert s.procs[pid := Inserting(up, |up.blocks|)] - {pid} == s.procs - {pid};
  }

  // ------------------------------------------------------ cache_block_fetch

  /** A hit: two steps, the cached bytes, and nothing else changes. */
  lemma HitAlone(digest: Digest, s: Sys, pid: nat, p: Phase, env: Env, env': Env)
    requires pid in s.procs && s.procs[pid] == p && p.Fetching? && p.at.Look? && |p.got| < |p.list|
    requires Lookup(Cache(s, p.host), p.list[|p.got|]).Some?
    ensures Alone(digest, s, pid, [env, env']) ==
            At(s, pid, p.(got := p.got + [Lookup(Cache(s, p.host), p.list[|p.got|]).value]))
  {
    TwoSteps(digest, s, pid, env, env');
    AtAt(s, pid, p.(at := Hit), p.(got := p.got + [Lookup(Cache(s, p.host), p.list[|p.got|]).value]));
  }

  /**
   A miss: the reply of the block server goes to the download if it is the block, and into the
   cache whatever it is, when the process that stores it has run.
   */
  lemma MissAlone(digest: Digest, s: Sys, pid: nat, p: Phase, env: Env, env': Env, env'': Env)
    requires pid in s.procs && s.procs[pid] == p && p.Fetching? && p.at.Look? && |p.got| < |p.list|
    requires Lookup(Cache(s, p.host), p.list[|p.got|]).None? && env'.child !in s.procs
    ensures var hash := p.list[|p.got|];
      var reply := OriginReply(s.blocks, hash, env'.answered);
      Alone(digest, Alone(digest, s, pid, [env, env']), env'.child, [env'']) ==
      PutInCache(if reply.code == "200" then At(s, pid, p.(got := p.got + [reply.body])) else Gone(s, pid),
                 p.host, hash, reply.body)
  {
    var hash, child := p.list[|p.got|], env'.child;
    var reply := OriginReply(s.blocks, hash, env'.answered);
    var ended := if reply.code == "200" then At(s, pid, p.(got := p.got + [reply.body])) else Gone(s, pid);
    TwoSteps(digest, s, pid, env, env');
    MissStep(digest, s, pid, p, env');
    StoreStep(digest, ended, child, p.host, hash, reply.body, env'');
  }

  /** The store of a read-through, by a process of its own. */
  lemma StoreStep(digest: Digest, s: Sys, child: nat, host: string, hash: Hash, data: Bytes, env: Env)
    requires child !in s.procs
    ensures Alone(digest, At(s, child, Filling(host, hash, data)), child, [env]) == PutInCache(s, host, hash, data)
  {
    TwoSteps(digest, At(s, child, Filling(host, hash, data)), child, env, env);
    assert s.procs[child := Filling(host, hash, data)] - {child} == s.procs;
  }

  /** The step that asks the block server and leaves the store to a process of its own. */
  lemma MissStep(digest: Digest, s: Sys, pid: nat, p: Phase, env: Env)
    requires pid in s.procs && p.Fetching? && p.at.Look? && |p.got| < |p.list| && env.child !in s.procs
    ensures var hash := p.list[|p.got|];
      var reply := OriginReply(s.blocks, hash, env.answered);
      var ended := if reply.code == "200" then At(s, pid, p.(got := p.got + [reply.body])) else Gone(s, pid);
      Next(digest, At(s, pid, p.(at := Miss)), Advance(pid, env)) ==
      At(ended, env.child, Filling(p.host, hash, reply.body))
  {
    var hash := p.list[|p.got|];
    var reply := OriginReply(s.blocks, hash, env.answered);
    AtAt(s, pid, p.(at := Miss), p.(got := p.got + [reply.body]));
    assert s.procs[pid := p.(at := Miss)] - {pid} == s.procs - {pid};
  }

  // ------------------------------------------------------- a prefetch round

  lemma MissedNext(db: Db, hashes: seq<Hash>, i: nat)
    requires i < |hashes|
    ensures Missed(db, hashes[..i + 1]) ==
            if Lookup(db, hashes[i]).None? then Missed(db, hashes[..i]) + [hashes[i]] else Missed(db, hashes[..i])
  {
    assert hashes[..i + 1][..i] == hashes[..i];
  }

  lemma PickOne(digest: Digest, s: Sys, pid: nat, host: string, recent: seq<Hash>, i: nat, env: Env)
    requires i < |recent|
    ensures Next(digest, At(s, pid, Picking(host, recent, i, Missed(Cache(s, host), recent[..i]))),
                 Advance(pid, env)) ==
            At(s, pid, Picking(host, recent, i + 1, Missed(Cache(s, host), recent[..i + 1])))
  {
    MissedNext(Cache(s, host), recent, i);
    AtAt(s, pid, Picking(host, recent, i, Missed(Cache(s, host), recent[..i])),
         Picking(host, recent, i + 1, Missed(Cache(s, host), recent[..i + 1])));
  }

  /** After i look-ups the process has picked what pickHashes picks among the first i hashes. */
  lemma {:induction false} PickAlone(digest: Digest, s: Sys, pid: nat, host: string, recent: seq<Hash>, envs: seq<Env>)
    requires pid in s.procs && s.procs[pid] == Picking(host, recent, 0, []) && |envs| <= |recent|
    ensures Alone(digest, s, pid, envs) ==
            At(s, pid, Picking(host, recent, |envs|, Missed(Cache(s, host), recent[..|envs|])))
  {
    var i := |envs|;
    if i == 0 {
      assert s.procs == s.procs[pid := Picking(host, recent, 0, [])];
      assert Missed(Cache(s, host), recent[..0]) == [];
    } else {
      PickAlone(digest, s, pid, host, recent, envs[..i - 1]);
      PickOne(digest, s, pid, host, recent, i - 1, envs[i - 1]);
    }
  }

  lemma PickEnds(digest: Digest, s: Sys, pid: nat, host: string, recent: seq<Hash>, envs: seq<Env>)
    requires pid in s.procs && s.procs[pid] == Picking(host, recent, 0, []) && |envs| == |recent| + 1
    ensures Alone(digest, s, pid, envs) == At(s, pid, Prefetching(host, Missed(Cache(s, host), recent), 0, None))
  {
    PickAlone(digest, s, pid, host, recent, envs[..|recent|]);
    assert recent[..|recent|] == recent;
  }

  /** The system with this cache at the host; a host that has stored nothing has no entry. */
  function WithCache(s: Sys, host: string, db: Db): Sys {
    if db == Cache(s, host) then s else s.(caches := s.caches[host := db])
  }

  lemma PutWith(s: Sys, host: string, db: Db, h: Hash, data: Bytes)
    ensures PutInCache(WithCache(s, host, db), host, h, data) == WithCache(s, host, db[h := data])
    ensures Cache(WithCache(s, host, db), host) == db
  {
    var db' := db[h := data];
    assert h in db';
    assert s.caches[host := db][host := db'] == s.caches[host := db'];
    if db' == Cache(s, host) {
      assert host in s.caches && s.caches[host := db'] == s.caches;
    }
  }

  /** The system when the process has come to picked hash j and the cache is db. */
  function FilledTo(s: Sys, pid: nat, host: string, picked: seq<Hash>, j: nat, db: Db): Sys {
    At(WithCache(s, host, db), pid, Prefetching(host, picked, j, None))
  }

  /** Fetch j, and the put when it brought the block. */
  function FetchEnvs(blocks: Blocks, picked: seq<Hash>, j: nat, answered: nat -> bool): seq<Env>
    requires j < |picked|
  {
    var env := Quiet.(answered := answered(j));
    if answered(j) && picked[j] in blocks then [env, Quiet] else [env]
  }

  lemma FillOne(digest: Digest, s: Sys, pid: nat, host: string, picked: seq<Hash>, j: nat, db: Db,
                answered: nat -> bool)
    requires j < |picked|
    ensures Alone(digest, FilledTo(s, pid, host, picked, j, db), pid, FetchEnvs(s.blocks, picked, j, answered)) ==
            FilledTo(s, pid, host, picked, j + 1,
                     if answered(j) && picked[j] in s.blocks then db[picked[j] := s.blocks[picked[j]]] else db)
  {
    var s0, env := FilledTo(s, pid, host, picked, j, db), Quiet.(answered := answered(j));
    TwoSteps(digest, s0, pid, env, Quiet);
    var base := WithCache(s, host, db);
    if answered(j) && picked[j] in s.blocks {
      var data := s.blocks[picked[j]];
      AtAt(base, pid, Prefetching(host, picked, j, None), Prefetching(host, picked, j, Some(data)));
      PutWith(s, host, db, picked[j], data);
      PutAt(base, pid, Prefetching(host, picked, j, Some(data)), host, picked[j], data);
      AtAt(PutInCache(base, host, picked[j], data), pid, Prefetching(host, picked, j, Some(data)),
           Prefetching(host, picked, j + 1, None));
    } else {
      AtAt(base, pid, Prefetching(host, picked, j, None), Prefetching(host, picked, j + 1, None));
    }
  }

  lemma PutAt(s: Sys, pid: nat, p: Phase, host: string, h: Hash, data: Bytes)
    ensures PutInCache(At(s, pid, p), host, h, data) == At(PutInCache(s, host, h, data), pid, p)
  {
  }

  lemma {:induction false} AloneThen(digest: Digest, s: Sys, pid: nat, first: seq<Env>, second: seq<Env>)
    ensures Alone(digest, s, pid, first + second) == Alone(digest, Alone(digest, s, pid, first), pid, second)
  {
    if second == [] {
      assert first + second == first;
    } else {
      var n := |second| - 1;
      AloneThen(digest, s, pid, first, second[..n]);
      assert (first + second)[..|first| + n] == first + second[..n];
    }
  }

  /** The cache once the loop has come to hash j. */
  function FilledDb(s: Sys, host: string, picked: seq<Hash>, j: nat, answered: nat -> bool): Db
    requires j <= |picked|
  {
    Filled(Cache(s, host), picked[..j], s.blocks, answered)
  }

  lemma FilledNext(s: Sys, host: string, picked: seq<Hash>, j: nat, answered: nat -> bool)
    requires j < |picked|
    ensures var db := FilledDb(s, host, picked, j, answered);
      FilledDb(s, host, picked, j + 1, answered) ==
      if answered(j) && picked[j] in s.blocks then db[picked[j] := s.blocks[picked[j]]] else db
  {
    assert picked[..j + 1][..j] == picked[..j];
  }

  lemma FilledNone(s: Sys, host: string, picked: seq<Hash>, answered: nat -> bool)
    ensures FilledDb(s, host, picked, 0, answered) == Cache(s, host)
  {
  }

  /** The fetch-and-put loop up to hash j fills the cache as the prefetcher's loop does. */
  lemma {:induction false} FillAlone(digest: Digest, s: Sys, pid: nat, host: string, picked: seq<Hash>, j: nat,
                                     answered: nat -> bool) returns (envs: seq<Env>, db: Db)
    requires j <= |picked|
    ensures db == FilledDb(s, host, picked, j, answered)
    ensures Alone(digest, FilledTo(s, pid, host, picked, 0, Cache(s, host)), pid, envs) ==
            FilledTo(s, pid, host, picked, j, db)
  {
    if j == 0 {
      envs, db := [], Cache(s, host);
      FilledNone(s, host, picked, answered);
    } else {
      var s0 := FilledTo(s, pid, host, picked, 0, Cache(s, host));
      var before, db0 := FillAlone(digest, s, pid, host, picked, j - 1, answered);
      envs, db := FillNext(digest, s, s0, pid, host, picked, j - 1, db0, answered, before);
      FilledNext(s, host, picked, j - 1, answered);
    }
  }

  lemma FillNext(digest: Digest, s: Sys, s0: Sys, pid: nat, host: string, picked: seq<Hash>, j: nat, db: Db,
                 answered: nat -> bool, before: seq<Env>) returns (envs: seq<Env>, db': Db)
    requires j < |picked| && Alone(digest, s0, pid, before) == FilledTo(s, pid, host, picked, j, db)
    ensures db' == if answered(j) && picked[j] in s.blocks then db[picked[j] := s.blocks[picked[j]]] else db
    ensures Alone(digest, s0, pid, envs) == FilledTo(s, pid, host, picked, j + 1, db')
  {
    db' := if answered(j) && picked[j] in s.blocks then db[picked[j] := s.blocks[picked[j]]] else db;
    envs := before + FetchEnvs(s.blocks, picked, j, answered);
    AloneThen(digest, s0, pid, before, FetchEnvs(s.blocks, picked, j, answered));
    FillOne(digest, s, pid, host, picked, j, db, answered);
  }

  /**
   A whole prefetch round: the cache of the host ends up as PrefetchRound leaves it, the process
   is gone, and nothing else has changed.
   */
  lemma PrefetchAlone(digest: Digest, s: Sys, pid: nat, host: string, recent: seq<Hash>, answered: nat -> bool)
    returns (envs: seq<Env>)
    requires pid in s.procs && s.procs[pid] == Picking(host, recent, 0, [])
    ensures var db := Cache(s, host);
      Alone(digest, s, pid, envs) ==
      Gone(WithCache(s, host, Filled(db, Missed(db, recent), s.blocks, answered)), pid)
  {
    var db, picked := Cache(s, host), Missed(Cache(s, host), recent);
    var picks := seq(|recent| + 1, _ => Quiet);
    PickEnds(digest, s, pid, host, recent, picks);
    var fills, full := FillAlone(digest, s, pid, host, picked, |picked|, answered);
    assert picked[..|picked|] == picked;
    AloneThen(digest, s, pid, picks, fills);
    assert full == Filled(db, picked, s.blocks, answered);
    assert Alone(digest, s, pid, picks + fills) == FilledTo(s, pid, host, picked, |picked|, full);
    AloneNext(digest, s, pid, picks + fills, Quiet);
    PrefetchEnds(digest, s, pid, host, picked, full);
    envs := picks + fills + [Quiet];
  }

  lemma PrefetchEnds(digest: Digest, s: Sys, pid: nat, host: string, picked: seq<Hash>, db: Db)
    ensures Next(digest, FilledTo(s, pid, host, picked, |picked|, db), Advance(pid, Quiet)) ==
            Gone(WithCache(s, host, db), pid)
  {
    assert s.procs[pid := Prefetching(host, picked, |picked|, None)] - {pid} == s.procs - {pid};
  }
}

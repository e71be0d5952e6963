/**
 The same machine seen from the caches: agreement with the block server and the
 authenticity of what downloads receive, under every interleaving.
 */
module CacheMachine {
  import opened Basics
  import opened LevelDb
  import opened FileBlockTable
  import opened MetadataSpec
  import opened CacheNode
  import opened SyncServers
  import opened UploadMachine

  /**
   What agreement needs of a step: no block query is cut short to any harm, a cache that reads
   through for a download is answered, and uploads are in play.  A prefetcher may get no answer.
   */
  ghost predicate Undisturbed(digest: Digest, s: Sys, a: Action, inPlay: iset<Bytes>) {
    && HarmlessCut(digest, s, a)
    && (a.Advance? && a.pid in s.procs && s.procs[a.pid].Fetching? && s.procs[a.pid].at.Miss? ==> a.env.answered)
    && (a.StartUpload? ==> forall b | b in a.up.blocks :: b in inPlay)
  }

  ghost predicate CacheOk(p: Phase, s: Sys, inPlay: iset<Bytes>) {
    match p
    case Querying(up, _, _) => forall b | b in up.blocks :: b in inPlay
    case Sending(up, _, _) => forall b | b in up.blocks :: b in inPlay
    case Fetching(host, list, got, at) =>
      && |got| <= |list|
      && (forall k | 0 <= k < |list| :: list[k] in s.blocks)
      && (forall k | 0 <= k < |got| :: got[k] == s.blocks[list[k]])
      && (at.Hit? ==> |got| < |list| && Lookup(Cache(s, host), list[|got|]).Some?)
    case Filling(_, h, data) => h in s.blocks && data == s.blocks[h]
    case Picking(_, recent, _, picked) =>
      && (forall k | 0 <= k < |recent| :: recent[k] in s.blocks)
      && (forall k | 0 <= k < |picked| :: picked[k] in s.blocks)
    case Prefetching(_, picked, j, reply) =>
      && (forall k | 0 <= k < |picked| :: picked[k] in s.blocks)
      && (reply.Some? ==> j < |picked| && reply.value == s.blocks[picked[j]])
    case _ => true
  }

  ghost predicate CacheInv(s: Sys, digest: Digest, inPlay: iset<Bytes>) {
    && ServerInv(s, digest)
    && (forall h | h in s.blocks :: s.blocks[h] in inPlay)
    && (forall host | host in s.caches :: Agrees(s.caches[host], s.blocks))
    && (forall pid | pid in s.procs :: CacheOk(s.procs[pid], s, inPlay))
  }

  /** Blocks and servable cache entries are never lost or changed. */
  ghost predicate OnlyGains(s: Sys, s': Sys) {
    && Grown(s.blocks, s'.blocks)
    && forall host, h | Lookup(Cache(s, host), h).Some? :: Lookup(Cache(s', host), h) == Lookup(Cache(s, host), h)
  }

  lemma CacheOkGrows(p: Phase, s: Sys, s': Sys, inPlay: iset<Bytes>)
    requires CacheOk(p, s, inPlay) && OnlyGains(s, s')
    ensures CacheOk(p, s', inPlay)
  {
  }

  lemma OneCacheProcess(s: Sys, s': Sys, pid: nat, digest: Digest, inPlay: iset<Bytes>)
    requires CacheInv(s, digest, inPlay) && ServerInv(s', digest)
    requires OnlyGains(s, s')
    requires forall q | q in s'.procs && q != pid :: q in s.procs && s'.procs[q] == s.procs[q]
    requires pid in s'.procs ==> CacheOk(s'.procs[pid], s', inPlay)
    requires forall h | h in s'.blocks :: s'.blocks[h] in inPlay
    requires forall host | host in s'.caches :: Agrees(s'.caches[host], s'.blocks)
    ensures CacheInv(s', digest, inPlay)
  {
    forall q | q in s'.procs && q != pid
      ensures CacheOk(s'.procs[q], s', inPlay)
    {
      CacheOkGrows(s.procs[q], s, s', inPlay);
    }
  }

  lemma AtKeepsCache(s: Sys, pid: nat, p: Phase, digest: Digest, inPlay: iset<Bytes>)
    requires CacheInv(s, digest, inPlay)
    requires UploadOk(p, s.blocks, digest) && CacheOk(p, s, inPlay)
    ensures CacheInv(At(s, pid, p), digest, inPlay)
  {
    AtKeeps(s, pid, p, digest);
    assert OnlyGains(s, At(s, pid, p));
    CacheOkGrows(p, s, At(s, pid, p), inPlay);
    OneCacheProcess(s, At(s, pid, p), pid, digest, inPlay);
  }

  lemma GoneKeepsCache(s: Sys, pid: nat, digest: Digest, inPlay: iset<Bytes>)
    requires CacheInv(s, digest, inPlay)
    ensures CacheInv(Gone(s, pid), digest, inPlay)
  {
    OneProcess(s, Gone(s, pid), pid, digest);
    assert OnlyGains(s, Gone(s, pid));
    OneCacheProcess(s, Gone(s, pid), pid, digest, inPlay);
  }

  /** The rest of the system moves while the processes stay. */
  lemma WorldKeepsCache(s: Sys, s': Sys, digest: Digest, inPlay: iset<Bytes>)
    requires CacheInv(s, digest, inPlay) && ServerInv(s', digest)
    requires s'.procs == s.procs && OnlyGains(s, s')
    requires forall h | h in s'.blocks :: s'.blocks[h] in inPlay
    requires forall host | host in s'.caches :: Agrees(s'.caches[host], s'.blocks)
    ensures CacheInv(s', digest, inPlay)
  {
    forall q | q in s'.procs
      ensures CacheOk(s'.procs[q], s', inPlay)
    {
      CacheOkGrows(s.procs[q], s, s', inPlay);
    }
  }

  lemma TableKeepsCache(s: Sys, t: Table, digest: Digest, inPlay: iset<Bytes>)
    requires CacheInv(s, digest, inPlay) && RowsBacked(t, s.blocks)
    ensures CacheInv(s.(table := t), digest, inPlay)
  {
    assert OnlyGains(s, s.(table := t));
    WorldKeepsCache(s, s.(table := t), digest, inPlay);
  }

  lemma PutKeepsCache(s: Sys, host: string, h: Hash, digest: Digest, inPlay: iset<Bytes>)
    requires CacheInv(s, digest, inPlay) && h in s.blocks
    ensures CacheInv(PutInCache(s, host, h, s.blocks[h]), digest, inPlay)
    ensures OnlyGains(s, PutInCache(s, host, h, s.blocks[h]))
  {
    assert Agrees(Cache(s, host), s.blocks);
    WorldKeepsCache(s, PutInCache(s, host, h, s.blocks[h]), digest, inPlay);
  }

  lemma StoreKeepsCache(s: Sys, h: Hash, b: Bytes, digest: Digest, inPlay: iset<Bytes>)
    requires NoCollision(digest, inPlay) && CacheInv(s, digest, inPlay)
    requires b in inPlay && digest(b) == h
    ensures CacheInv(s.(blocks := s.blocks[h := b]), digest, inPlay)
    ensures OnlyGains(s, s.(blocks := s.blocks[h := b]))
  {
    var s' := s.(blocks := s.blocks[h := b]);
    assert h in s.blocks ==> s.blocks[h] == b;
    assert Grown(s.blocks, s'.blocks);
    assert OnlyGains(s, s');
    forall pid | pid in s'.procs
      ensures UploadOk(s'.procs[pid], s'.blocks, digest)
    {
      UploadOkGrows(s.procs[pid], s.blocks, s'.blocks, digest);
    }
    WorldKeepsCache(s, s', digest, inPlay);
  }

  lemma SendKeepsCache(digest: Digest, s: Sys, pid: nat, inPlay: iset<Bytes>)
    requires NoCollision(digest, inPlay) && CacheInv(s, digest, inPlay)
    requires pid in s.procs && s.procs[pid].Sending?
    ensures var p := s.procs[pid];
      CacheInv(SendStep(digest, s, pid, p.up, p.needed, p.j), digest, inPlay)
  {
    var Sending(up, needed, j) := s.procs[pid];
    assert CacheOk(s.procs[pid], s, inPlay) && UploadOk(s.procs[pid], s.blocks, digest);
    if j >= |needed| {
      AtKeepsCache(s, pid, Checking(up), digest, inPlay);
    } else {
      var h, b := needed[j], HashToFile(digest, up.blocks)[needed[j]];
      StoreKeepsCache(s, h, b, digest, inPlay);
      SentOne(up, needed, j, s.blocks, s.blocks[h := b], digest);
      AtKeepsCache(s.(blocks := s.blocks[h := b]), pid, Sending(up, needed, j + 1), digest, inPlay);
    }
  }

  lemma FetchKeepsCache(digest: Digest, s: Sys, pid: nat, env: Env, inPlay: iset<Bytes>)
    requires CacheInv(s, digest, inPlay) && pid in s.procs
    requires s.procs[pid].Fetching? && (s.procs[pid].at.Miss? ==> env.answered)
    ensures CacheInv(FetchStep(s, pid, s.procs[pid], env), digest, inPlay)
  {
    var p := s.procs[pid];
    assert CacheOk(p, s, inPlay);
    if |p.got| < |p.list| {
      var hash := p.list[|p.got|];
      var more := p.(got := p.got + [s.blocks[hash]], at := Look);
      var found := Lookup(Cache(s, p.host), hash);
      match p.at
      case Look =>
        AtKeepsCache(s, pid, p.(at := if found.Some? then Hit else Miss), digest, inPlay);
      case Hit =>
        assert Agrees(Cache(s, p.host), s.blocks);
        AtKeepsCache(s, pid, more, digest, inPlay);
      case Miss =>
        AtKeepsCache(s, pid, more, digest, inPlay);
        AtKeepsCache(At(s, pid, more), env.child, Filling(p.host, hash, s.blocks[hash]), digest, inPlay);
    }
  }

  lemma PrefetchKeepsCache(digest: Digest, s: Sys, pid: nat, env: Env, inPlay: iset<Bytes>)
    requires CacheInv(s, digest, inPlay) && pid in s.procs && s.procs[pid].Prefetching?
    ensures CacheInv(PrefetchStep(s, pid, s.procs[pid], env), digest, inPlay)
  {
    var p := s.procs[pid];
    assert CacheOk(p, s, inPlay);
    if p.j >= |p.picked| {
      GoneKeepsCache(s, pid, digest, inPlay);
    } else if p.reply.Some? {
      var put := PutInCache(s, p.host, p.picked[p.j], p.reply.value);
      PutKeepsCache(s, p.host, p.picked[p.j], digest, inPlay);
      AtKeepsCache(put, pid, p.(j := p.j + 1, reply := None), digest, inPlay);
    } else if env.answered {
      AtKeepsCache(s, pid, p.(reply := Some(s.blocks[p.picked[p.j]])), digest, inPlay);
    } else {
      AtKeepsCache(s, pid, Prefetching(p.host, p.picked, p.j + 1, None), digest, inPlay);
    }
  }

  /** Block queries and the three parts of a commit. */
  lemma UploadKeepsCache(digest: Digest, s: Sys, pid: nat, env: Env, inPlay: iset<Bytes>)
    requires CacheInv(s, digest, inPlay) && pid in s.procs
    requires var p := s.procs[pid]; p.Querying? || p.Checking? || p.Deleting? || p.Inserting?
    ensures CacheInv(Step(digest, s, pid, s.procs[pid], env), digest, inPlay)
  {
    var p := s.procs[pid];
    var s' := Step(digest, s, pid, p, env);
    AdvanceKeepsServer(digest, s, pid, env);
    TableKeepsCache(s, s'.table, digest, inPlay);
    if pid in s'.procs {
      assert CacheOk(p, s, inPlay) && UploadOk(s'.procs[pid], s'.blocks, digest);
      assert s' == At(s.(table := s'.table), pid, s'.procs[pid]);
      AtKeepsCache(s.(table := s'.table), pid, s'.procs[pid], digest, inPlay);
    } else {
      assert s' == Gone(s.(table := s'.table), pid);
      GoneKeepsCache(s.(table := s'.table), pid, digest, inPlay);
    }
  }

  lemma PickKeepsCache(digest: Digest, s: Sys, pid: nat, env: Env, inPlay: iset<Bytes>)
    requires CacheInv(s, digest, inPlay) && pid in s.procs && s.procs[pid].Picking?
    ensures CacheInv(Step(digest, s, pid, s.procs[pid], env), digest, inPlay)
  {
    var p := s.procs[pid];
    var s' := Step(digest, s, pid, p, env);
    assert CacheOk(p, s, inPlay);
    AtKeepsCache(s, pid, s'.procs[pid], digest, inPlay);
  }

  lemma AdvanceKeepsCache(digest: Digest, s: Sys, pid: nat, env: Env, inPlay: iset<Bytes>)
    requires NoCollision(digest, inPlay) && CacheInv(s, digest, inPlay)
    requires pid in s.procs && (s.procs[pid].Fetching? && s.procs[pid].at.Miss? ==> env.answered)
    ensures CacheInv(Step(digest, s, pid, s.procs[pid], env), digest, inPlay)
  {
    match s.procs[pid]
    case Sending(_, _, _) => SendKeepsCache(digest, s, pid, inPlay);
    case Fetching(_, _, _, _) => FetchKeepsCache(digest, s, pid, env, inPlay);
    case Picking(_, _, _, _) => PickKeepsCache(digest, s, pid, env, inPlay);
    case Prefetching(_, _, _, _) => PrefetchKeepsCache(digest, s, pid, env, inPlay);
    case Filling(host, h, data) =>
      assert CacheOk(s.procs[pid], s, inPlay);
      PutKeepsCache(s, host, h, digest, inPlay);
      GoneKeepsCache(PutInCache(s, host, h, data), pid, digest, inPlay);
    case _ => UploadKeepsCache(digest, s, pid, env, inPlay);
  }

  lemma RowHashesListed(rows: Table, t: Table, blocks: Blocks)
    requires multiset(rows) <= multiset(t) && RowsBacked(t, blocks)
    ensures forall k | 0 <= k < |rows| :: RowHashes(rows)[k] in blocks
  {
    forall k | 0 <= k < |rows|
      ensures rows[k] in t
    {
      assert rows[k] in multiset(rows);
    }
  }

  /** A list read from the table names only held blocks. */
  lemma ListsAreHeld(s: Sys, digest: Digest, u: string, f: string)
    requires ServerInv(s, digest)
    ensures forall k | 0 <= k < |BlockListOf(s.table, u, f)| :: BlockListOf(s.table, u, f)[k] in s.blocks
    ensures forall k | 0 <= k < |RecentRows(s.table, u, 10)| :: RowHashes(RecentRows(s.table, u, 10))[k] in s.blocks
  {
    var rows := SelectFile(s.table, u, f);
    WhereIn(s.table, FileIs(u, f));
    RowHashesListed(OrderBy(rows, ByNumber()), rows, s.blocks);
    WhereIn(s.table, UserIs(u));
    RecentFirst(s.table, u, 10);
    RowHashesListed(RecentRows(s.table, u, 10), SelectUser(s.table, u), s.blocks);
  }

  lemma QueryFailKeepsCache(digest: Digest, s: Sys, pid: nat, inPlay: iset<Bytes>)
    requires CacheInv(s, digest, inPlay) && HarmlessCut(digest, s, QueryFails(pid))
    ensures CacheInv(Next(digest, s, QueryFails(pid)), digest, inPlay)
  {
    if pid in s.procs && s.procs[pid].Querying? {
      var Querying(up, i, missing) := s.procs[pid];
      QueryFailKeepsIff(digest, s, pid);
      assert CacheOk(s.procs[pid], s, inPlay);
      AtKeepsCache(s, pid, Sending(up, missing, 0), digest, inPlay);
    }
  }

  lemma StepKeepsCache(digest: Digest, s: Sys, a: Action, inPlay: iset<Bytes>)
    requires NoCollision(digest, inPlay) && CacheInv(s, digest, inPlay) && Undisturbed(digest, s, a, inPlay)
    ensures CacheInv(Next(digest, s, a), digest, inPlay)
  {
    match a
    case QueryFails(pid) =>
      QueryFailKeepsCache(digest, s, pid, inPlay);
    case StartUpload(pid, up) =>
      AtKeepsCache(s, pid, Querying(up, 0, []), digest, inPlay);
    case StartDownload(pid, host, u, f) =>
      ListsAreHeld(s, digest, u, f);
      AtKeepsCache(s, pid, Fetching(host, BlockListOf(s.table, u, f), [], Look), digest, inPlay);
    case StartPrefetch(pid, host, u) =>
      ListsAreHeld(s, digest, u, "");
      AtKeepsCache(s, pid, Picking(host, RowHashes(RecentRows(s.table, u, 10)), 0, []), digest, inPlay);
    case Abort(pid) =>
      GoneKeepsCache(s, pid, digest, inPlay);
    case Remove(u, f) =>
      WhereIn(s.table, FileIsNot(u, f));
      TableKeepsCache(s, DeleteFile(s.table, u, f), digest, inPlay);
    case Advance(pid, env) =>
      if pid in s.procs { AdvanceKeepsCache(digest, s, pid, env, inPlay); }
  }

  /** Every step of the run is undisturbed. */
  ghost predicate UndisturbedRun(digest: Digest, actions: seq<Action>, inPlay: iset<Bytes>) {
    forall i | 0 <= i < |actions| :: Undisturbed(digest, Exec(digest, actions[..i]), actions[i], inPlay)
  }

  lemma {:induction false} RunKeepsCache(digest: Digest, actions: seq<Action>, inPlay: iset<Bytes>)
    requires NoCollision(digest, inPlay) && UndisturbedRun(digest, actions, inPlay)
    ensures CacheInv(Exec(digest, actions), digest, inPlay)
  {
    if actions != [] {
      var n := |actions| - 1;
      forall i | 0 <= i < n
        ensures Undisturbed(digest, Exec(digest, actions[..n][..i]), actions[..n][i], inPlay)
      {
        assert actions[..n][..i] == actions[..i];
      }
      RunKeepsCache(digest, actions[..n], inPlay);
      StepKeepsCache(digest, Exec(digest, actions[..n]), actions[n], inPlay);
    }
  }

  /**
   In every such run each cached entry is the block server's, although misses are stored
   unconditionally and prefetch rounds run alongside; and a download, however its steps fall
   between the others, has received the blocks of the list it read.
   */
  lemma CachesAgree(digest: Digest, actions: seq<Action>, inPlay: iset<Bytes>)
    requires NoCollision(digest, inPlay) && UndisturbedRun(digest, actions, inPlay)
    ensures var s := Exec(digest, actions);
      && (forall host | host in s.caches :: Agrees(s.caches[host], s.blocks))
      && (forall pid | pid in s.procs && s.procs[pid].Fetching? ::
            HashesOf(digest, s.procs[pid].got) <= s.procs[pid].list)
  {
    RunKeepsCache(digest, actions, inPlay);
    var s := Exec(digest, actions);
    forall pid | pid in s.procs && s.procs[pid].Fetching?
      ensures HashesOf(digest, s.procs[pid].got) <= s.procs[pid].list
    {
      var p := s.procs[pid];
      assert CacheOk(p, s, inPlay);
      assert forall k | 0 <= k < |p.got| :: HashesOf(digest, p.got)[k] == p.list[k];
    }
  }
}

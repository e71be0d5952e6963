/**
 Any number of uploads, removals, downloads and prefetch rounds at once, interleaved at
 single statements: one SELECT, DELETE or INSERT, one block store, one cache look-up or put,
 one fetch from the block server.  Nothing takes a lock; what holds rests on blocks being
 stored before they are listed and never being deleted.
 */
module UploadMachine {
  import opened Basics
  import opened LevelDb
  import opened FileBlockTable
  import opened MetadataSpec
  import opened CacheNode

  datatype Upload = Upload(user: string, file: string, blocks: seq<Bytes>, version: nat)

  /** Where a download stands with its next block. */
  datatype FetchPoint = Look | Hit | Miss

  /** What a process will do next. */
  datatype Phase =
    | Querying(up: Upload, i: nat, missing: seq<Hash>)
    | Sending(up: Upload, needed: seq<Hash>, j: nat)
    | Checking(up: Upload)
    | Deleting(up: Upload)
    | Inserting(up: Upload, k: nat)
    | Fetching(host: string, list: seq<Hash>, got: seq<Bytes>, at: FetchPoint)
    | Filling(host: string, hash: Hash, data: Bytes)
    | Picking(host: string, recent: seq<Hash>, i: nat, picked: seq<Hash>)
    | Prefetching(host: string, picked: seq<Hash>, j: nat, reply: Option<Bytes>)

  datatype Sys = Sys(table: Table, blocks: Blocks, caches: map<string, Db>, procs: map<nat, Phase>)

  /** What the environment decides in one step. */
  datatype Env = Env(position: nat, time: nat, answered: bool, child: nat)

  datatype Action =
    | StartUpload(pid: nat, up: Upload)
    | StartDownload(pid: nat, host: string, user: string, file: string)
    | StartPrefetch(pid: nat, host: string, user: string)
    | Advance(pid: nat, env: Env)
    | QueryFails(pid: nat)
    | Abort(pid: nat)
    | Remove(user: string, file: string)

  function Cache(s: Sys, host: string): Db {
    if host in s.caches then s.caches[host] else map[]
  }

  function At(s: Sys, pid: nat, p: Phase): Sys {
    s.(procs := s.procs[pid := p])
  }

  function Gone(s: Sys, pid: nat): Sys {
    s.(procs := s.procs - {pid})
  }

  /** The uploader's dictionary from digest to block. */
  function HashToFile(digest: Digest, blocks: seq<Bytes>): (files: map<Hash, Bytes>)
    ensures forall h :: h in files <==> h in HashesOf(digest, blocks)
    ensures forall h | h in files :: files[h] in blocks && digest(files[h]) == h
  {
    if blocks == [] then map[]
    else
      var n := |blocks| - 1;
      assert HashesOf(digest, blocks) == HashesOf(digest, blocks[..n]) + [digest(blocks[n])];
      HashToFile(digest, blocks[..n])[digest(blocks[n]) := blocks[n]]
  }

  // --------------------------------------------------------- the steps

  function QueryStep(digest: Digest, s: Sys, pid: nat, up: Upload, i: nat, missing: seq<Hash>): Sys {
    var hashes := HashesOf(digest, up.blocks);
    if i >= |hashes| then At(s, pid, Sending(up, missing, 0))
    else At(s, pid, Querying(up, i + 1, if CountHash(s.table, hashes[i]) == 0 then missing + [hashes[i]] else missing))
  }

  function SendStep(digest: Digest, s: Sys, pid: nat, up: Upload, needed: seq<Hash>, j: nat): Sys {
    if j >= |needed| then At(s, pid, Checking(up))
    else
      var files := HashToFile(digest, up.blocks);
      if needed[j] in files then
        At(s.(blocks := s.blocks[needed[j] := files[needed[j]]]), pid, Sending(up, needed, j + 1))
      else s
  }

  function InsertStep(digest: Digest, s: Sys, pid: nat, up: Upload, k: nat, env: Env): Sys {
    if k >= |up.blocks| then Gone(s, pid)
    else
      var row := Row(up.user, up.file, digest(up.blocks[k]), k, up.version, env.time);
      At(s.(table := InsertAt(s.table, Min(env.position, |s.table|), row)), pid, Inserting(up, k + 1))
  }

  /** cache_block_fetch for the next block of a download; the put after a miss is a process of its own. */
  function FetchStep(s: Sys, pid: nat, p: Phase, env: Env): Sys
    requires p.Fetching?
  {
    if |p.got| >= |p.list| then s
    else
      var hash := p.list[|p.got|];
      var found := Lookup(Cache(s, p.host), hash);
      match p.at
      case Look => At(s, pid, p.(at := if found.Some? then Hit else Miss))
      case Hit => At(s, pid, p.(got := p.got + [if found.Some? then found.value else ""], at := Look))
      case Miss =>
        if env.child in s.procs then s
        else
          var reply := OriginReply(s.blocks, hash, env.answered);
          At(if reply.code == "200" then At(s, pid, p.(got := p.got + [reply.body], at := Look)) else Gone(s, pid),
             env.child, Filling(p.host, hash, reply.body))
  }

  function PutInCache(s: Sys, host: string, h: Hash, data: Bytes): Sys {
    s.(caches := s.caches[host := Cache(s, host)[h := data]])
  }

  function PrefetchStep(s: Sys, pid: nat, p: Phase, env: Env): Sys
    requires p.Prefetching?
  {
    if p.j >= |p.picked| then Gone(s, pid)
    else
      var hash := p.picked[p.j];
      match p.reply
      case Some(data) => At(PutInCache(s, p.host, hash, data), pid, p.(j := p.j + 1, reply := None))
      case None =>
        var reply := OriginReply(s.blocks, hash, env.answered);
        At(s, pid, if reply.code == "200" then p.(reply := Some(reply.body)) else p.(j := p.j + 1))
  }

  function Step(digest: Digest, s: Sys, pid: nat, p: Phase, env: Env): Sys {
    match p
    case Querying(up, i, missing) => QueryStep(digest, s, pid, up, i, missing)
    case Sending(up, needed, j) => SendStep(digest, s, pid, up, needed, j)
    case Checking(up) =>
      if Accepts(s.table, up.user, up.file, up.version) then At(s, pid, Deleting(up)) else Gone(s, pid)
    case Deleting(up) => At(s.(table := DeleteFile(s.table, up.user, up.file)), pid, Inserting(up, 0))
    case Inserting(up, k) => InsertStep(digest, s, pid, up, k, env)
    case Fetching(_, _, _, _) => FetchStep(s, pid, p, env)
    case Filling(host, hash, data) => Gone(PutInCache(s, host, hash, data), pid)
    case Picking(host, recent, i, picked) =>
      if i >= |recent| then At(s, pid, Prefetching(host, picked, 0, None))
      else At(s, pid, Picking(host, recent, i + 1,
                              if Lookup(Cache(s, host), recent[i]).None? then picked + [recent[i]] else picked))
    case Prefetching(_, _, _, _) => PrefetchStep(s, pid, p, env)
  }

  function Next(digest: Digest, s: Sys, a: Action): Sys {
    match a
    case StartUpload(pid, up) => if pid in s.procs then s else At(s, pid, Querying(up, 0, []))
    case StartDownload(pid, host, u, f) =>
      if pid in s.procs then s else At(s, pid, Fetching(host, BlockListOf(s.table, u, f), [], Look))
    case StartPrefetch(pid, host, u) =>
      if pid in s.procs then s else At(s, pid, Picking(host, RowHashes(RecentRows(s.table, u, 10)), 0, []))
    case Advance(pid, env) => if pid in s.procs then Step(digest, s, pid, s.procs[pid], env) else s
    case QueryFails(pid) =>
      if pid in s.procs && s.procs[pid].Querying? then
        At(s, pid, Sending(s.procs[pid].up, s.procs[pid].missing, 0))
      else s
    case Abort(pid) => Gone(s, pid)
    case Remove(u, f) => s.(table := DeleteFile(s.table, u, f))
  }

  const Init := Sys([], map[], map[], map[])

  /** The state after a run. */
  function Exec(digest: Digest, actions: seq<Action>): Sys {
    if actions == [] then Init
    else Next(digest, Exec(digest, actions[..|actions| - 1]), actions[|actions| - 1])
  }

  lemma ExecSnoc(digest: Digest, actions: seq<Action>, a: Action)
    ensures Exec(digest, actions + [a]) == Next(digest, Exec(digest, actions), a)
  {
    assert (actions + [a])[..|actions|] == actions;
  }

  const Quiet := Env(0, 0, true, 0)

  // ------------------------------------- every listed block is held

  /** An uploader's blocks are each held already or still on its list to send. */
  ghost predicate UploadOk(p: Phase, blocks: Blocks, digest: Digest) {
    match p
    case Querying(up, i, missing) =>
      && (forall k | 0 <= k < i && k < |up.blocks| :: digest(up.blocks[k]) in blocks || digest(up.blocks[k]) in missing)
      && (forall k | 0 <= k < |missing| :: missing[k] in HashesOf(digest, up.blocks))
    case Sending(up, needed, j) =>
      && j <= |needed|
      && (forall k | 0 <= k < |up.blocks| :: digest(up.blocks[k]) in blocks || digest(up.blocks[k]) in needed[j..])
      && (forall k | 0 <= k < |needed| :: needed[k] in HashesOf(digest, up.blocks))
    case Checking(up) => AllHeld(up, blocks, digest)
    case Deleting(up) => AllHeld(up, blocks, digest)
    case Inserting(up, _) => AllHeld(up, blocks, digest)
    case _ => true
  }

  ghost predicate AllHeld(up: Upload, blocks: Blocks, digest: Digest) {
    forall k | 0 <= k < |up.blocks| :: digest(up.blocks[k]) in blocks
  }

  ghost predicate ServerInv(s: Sys, digest: Digest) {
    && RowsBacked(s.table, s.blocks)
    && HashesRight(s.blocks, digest)
    && forall pid | pid in s.procs :: UploadOk(s.procs[pid], s.blocks, digest)
  }

  lemma UploadOkGrows(p: Phase, blocks: Blocks, blocks': Blocks, digest: Digest)
    requires UploadOk(p, blocks, digest) && blocks.Keys <= blocks'.Keys
    ensures UploadOk(p, blocks', digest)
  {
  }

  /** A step that changes only one process and keeps its part of the invariant. */
  lemma OneProcess(s: Sys, s': Sys, pid: nat, digest: Digest)
    requires ServerInv(s, digest)
    requires forall q | q in s'.procs && q != pid :: q in s.procs && s'.procs[q] == s.procs[q]
    requires s.blocks.Keys <= s'.blocks.Keys
    requires pid in s'.procs ==> UploadOk(s'.procs[pid], s'.blocks, digest)
    requires RowsBacked(s'.table, s'.blocks) && HashesRight(s'.blocks, digest)
    ensures ServerInv(s', digest)
  {
    forall q | q in s'.procs && q != pid
      ensures UploadOk(s'.procs[q], s'.blocks, digest)
    {
      UploadOkGrows(s.procs[q], s.blocks, s'.blocks, digest);
    }
  }

  lemma AtKeeps(s: Sys, pid: nat, p: Phase, digest: Digest)
    requires ServerInv(s, digest) && UploadOk(p, s.blocks, digest)
    ensures ServerInv(At(s, pid, p), digest)
  {
    OneProcess(s, At(s, pid, p), pid, digest);
  }

  /** One SELECT of a block query. */
  lemma QueriedOne(up: Upload, i: nat, missing: seq<Hash>, t: Table, blocks: Blocks, digest: Digest)
    requires i < |up.blocks| && UploadOk(Querying(up, i, missing), blocks, digest) && RowsBacked(t, blocks)
    ensures var h := digest(up.blocks[i]);
      UploadOk(Querying(up, i + 1, if CountHash(t, h) == 0 then missing + [h] else missing), blocks, digest)
  {
    var h := digest(up.blocks[i]);
    var missing' := if CountHash(t, h) == 0 then missing + [h] else missing;
    assert h in blocks || h in missing';
    forall k | 0 <= k < i
      ensures digest(up.blocks[k]) in blocks || digest(up.blocks[k]) in missing'
    {
      assert digest(up.blocks[k]) in blocks || digest(up.blocks[k]) in missing;
    }
    forall k | 0 <= k < |missing'|
      ensures missing'[k] in HashesOf(digest, up.blocks)
    {
      assert HashesOf(digest, up.blocks)[i] == h;
    }
  }

  lemma QueryKeeps(digest: Digest, s: Sys, pid: nat)
    requires ServerInv(s, digest) && pid in s.procs && s.procs[pid].Querying?
    ensures var p := s.procs[pid];
      ServerInv(QueryStep(digest, s, pid, p.up, p.i, p.missing), digest)
  {
    var Querying(up, i, missing) := s.procs[pid];
    assert UploadOk(s.procs[pid], s.blocks, digest);
    if i < |up.blocks| {
      var h := digest(up.blocks[i]);
      QueriedOne(up, i, missing, s.table, s.blocks, digest);
      AtKeeps(s, pid, Querying(up, i + 1, if CountHash(s.table, h) == 0 then missing + [h] else missing), digest);
    } else {
      assert missing[0..] == missing;
      AtKeeps(s, pid, Sending(up, missing, 0), digest);
    }
  }

  /** Storing a block under its digest. */
  lemma StoreKeeps(s: Sys, h: Hash, b: Bytes, digest: Digest)
    requires ServerInv(s, digest) && digest(b) == h
    ensures ServerInv(s.(blocks := s.blocks[h := b]), digest)
  {
    forall pid | pid in s.procs
      ensures UploadOk(s.procs[pid], s.blocks[h := b], digest)
    {
      UploadOkGrows(s.procs[pid], s.blocks, s.blocks[h := b], digest);
    }
  }

  lemma SendKeeps(digest: Digest, s: Sys, pid: nat)
    requires ServerInv(s, digest) && pid in s.procs && s.procs[pid].Sending?
    ensures var p := s.procs[pid];
      ServerInv(SendStep(digest, s, pid, p.up, p.needed, p.j), digest)
  {
    var Sending(up, needed, j) := s.procs[pid];
    assert UploadOk(s.procs[pid], s.blocks, digest);
    if j < |needed| {
      var h := needed[j];
      assert h in HashToFile(digest, up.blocks);
      var b := HashToFile(digest, up.blocks)[h];
      StoreKeeps(s, h, b, digest);
      SentOne(up, needed, j, s.blocks, s.blocks[h := b], digest);
      AtKeeps(s.(blocks := s.blocks[h := b]), pid, Sending(up, needed, j + 1), digest);
    } else {
      assert needed[j..] == [];
      AtKeeps(s, pid, Checking(up), digest);
    }
  }

  lemma SentOne(up: Upload, needed: seq<Hash>, j: nat, blocks: Blocks, blocks': Blocks, digest: Digest)
    requires j < |needed| && UploadOk(Sending(up, needed, j), blocks, digest)
    requires blocks.Keys <= blocks'.Keys && needed[j] in blocks'
    ensures UploadOk(Sending(up, needed, j + 1), blocks', digest)
  {
    assert needed[j..] == [needed[j]] + needed[j + 1..];
  }

  lemma InsertKeeps(digest: Digest, s: Sys, pid: nat, env: Env)
    requires ServerInv(s, digest) && pid in s.procs && s.procs[pid].Inserting?
    ensures var p := s.procs[pid];
      ServerInv(InsertStep(digest, s, pid, p.up, p.k, env), digest)
  {
    var Inserting(up, k) := s.procs[pid];
    assert UploadOk(s.procs[pid], s.blocks, digest);
    OneProcess(s, InsertStep(digest, s, pid, up, k, env), pid, digest);
  }

  /** A block query cut short loses nothing when each block it did not get to is held or was found missing before. */
  predicate HarmlessCut(digest: Digest, s: Sys, a: Action) {
    a.QueryFails? && a.pid in s.procs && s.procs[a.pid].Querying? ==>
      var Querying(up, i, missing) := s.procs[a.pid];
      forall k | i <= k < |up.blocks| :: digest(up.blocks[k]) in s.blocks || digest(up.blocks[k]) in missing
  }

  /**
   A block query whose SELECT fails keeps the promise exactly when each block it did not get to
   is held already or was found missing before.
   */
  lemma QueryFailKeepsIff(digest: Digest, s: Sys, pid: nat)
    requires ServerInv(s, digest) && pid in s.procs && s.procs[pid].Querying?
    ensures ServerInv(Next(digest, s, QueryFails(pid)), digest) <==> HarmlessCut(digest, s, QueryFails(pid))
  {
    var Querying(up, i, missing) := s.procs[pid];
    var s' := Next(digest, s, QueryFails(pid));
    assert UploadOk(s.procs[pid], s.blocks, digest) && missing[0..] == missing;
    assert s'.procs[pid] == Sending(up, missing, 0);
    if UploadOk(s'.procs[pid], s'.blocks, digest) {
      OneProcess(s, s', pid, digest);
    }
  }

  /** Every step keeps the invariant, unless it cuts a block query short with blocks yet to be asked for. */
  lemma StepKeepsServerIff(digest: Digest, s: Sys, a: Action)
    requires ServerInv(s, digest)
    ensures ServerInv(Next(digest, s, a), digest) <==> HarmlessCut(digest, s, a)
  {
    match a
    case QueryFails(pid) =>
      if pid in s.procs && s.procs[pid].Querying? { QueryFailKeepsIff(digest, s, pid); }
    case Remove(u, f) =>
      WhereIn(s.table, FileIsNot(u, f));
    case StartUpload(pid, up) =>
      AtKeeps(s, pid, Querying(up, 0, []), digest);
    case StartDownload(pid, host, u, f) =>
      AtKeeps(s, pid, Fetching(host, BlockListOf(s.table, u, f), [], Look), digest);
    case StartPrefetch(pid, host, u) =>
      AtKeeps(s, pid, Picking(host, RowHashes(RecentRows(s.table, u, 10)), 0, []), digest);
    case Abort(pid) =>
      OneProcess(s, Gone(s, pid), pid, digest);
    case Advance(pid, env) =>
      if pid in s.procs { AdvanceKeepsServer(digest, s, pid, env); }
  }

  lemma AdvanceKeepsServer(digest: Digest, s: Sys, pid: nat, env: Env)
    requires ServerInv(s, digest) && pid in s.procs
    ensures ServerInv(Step(digest, s, pid, s.procs[pid], env), digest)
  {
    var p := s.procs[pid];
    match p
    case Querying(_, _, _) => QueryKeeps(digest, s, pid);
    case Sending(_, _, _) => SendKeeps(digest, s, pid);
    case Inserting(_, _) => InsertKeeps(digest, s, pid, env);
    case Fetching(_, _, _, _) => FetchKeepsServer(digest, s, pid, env);
    case Deleting(up) =>
      DeleteStepKeeps(digest, s, pid, env);
    case Checking(up) =>
      assert UploadOk(p, s.blocks, digest);
      OneProcess(s, Step(digest, s, pid, p, env), pid, digest);
    case Filling(_, _, _) => CacheStepKeeps(digest, s, pid, env);
    case Picking(_, _, _, _) => CacheStepKeeps(digest, s, pid, env);
    case Prefetching(_, _, _, _) => CacheStepKeeps(digest, s, pid, env);
  }

  lemma DeleteStepKeeps(digest: Digest, s: Sys, pid: nat, env: Env)
    requires ServerInv(s, digest) && pid in s.procs && s.procs[pid].Deleting?
    ensures ServerInv(Step(digest, s, pid, s.procs[pid], env), digest)
  {
    var p := s.procs[pid];
    WhereIn(s.table, FileIsNot(p.up.user, p.up.file));
    assert UploadOk(p, s.blocks, digest);
    OneProcess(s, Step(digest, s, pid, p, env), pid, digest);
  }

  /** The steps of a cache host do not touch the servers. */
  lemma CacheStepKeeps(digest: Digest, s: Sys, pid: nat, env: Env)
    requires ServerInv(s, digest) && pid in s.procs
    requires s.procs[pid].Filling? || s.procs[pid].Picking? || s.procs[pid].Prefetching?
    ensures ServerInv(Step(digest, s, pid, s.procs[pid], env), digest)
  {
    OneProcess(s, Step(digest, s, pid, s.procs[pid], env), pid, digest);
  }

  lemma FetchKeepsServer(digest: Digest, s: Sys, pid: nat, env: Env)
    requires ServerInv(s, digest) && pid in s.procs && s.procs[pid].Fetching?
    ensures ServerInv(FetchStep(s, pid, s.procs[pid], env), digest)
  {
    var p := s.procs[pid];
    if |p.got| < |p.list| && p.at.Miss? && env.child !in s.procs {
      var reply := OriginReply(s.blocks, p.list[|p.got|], env.answered);
      var mid := if reply.code == "200" then At(s, pid, p.(got := p.got + [reply.body], at := Look)) else Gone(s, pid);
      OneProcess(s, mid, pid, digest);
      OneProcess(mid, FetchStep(s, pid, p, env), env.child, digest);
    } else {
      OneProcess(s, FetchStep(s, pid, p, env), pid, digest);
    }
  }

  ghost predicate HarmlessCuts(digest: Digest, actions: seq<Action>) {
    forall i | 0 <= i < |actions| :: HarmlessCut(digest, Exec(digest, actions[..i]), actions[i])
  }

  lemma {:induction false} RunKeepsServer(digest: Digest, actions: seq<Action>)
    requires HarmlessCuts(digest, actions)
    ensures ServerInv(Exec(digest, actions), digest)
  {
    if actions != [] {
      var n := |actions| - 1;
      forall i | 0 <= i < n
        ensures HarmlessCut(digest, Exec(digest, actions[..n][..i]), actions[..n][i])
      {
        assert actions[..n][..i] == actions[..i];
      }
      RunKeepsServer(digest, actions[..n]);
      StepKeepsServerIff(digest, Exec(digest, actions[..n]), actions[n]);
    }
  }

  /**
   In every run, whatever the interleaving, each hash in a row is held by the block server with
   bytes that hash to it -- even when the row that let an uploader skip a block has gone by the
   time that uploader commits.  Only block queries cut short before a block that is neither held
   nor known to be missing are excluded.
   */
  lemma ListedBlocksAreHeld(digest: Digest, actions: seq<Action>)
    requires HarmlessCuts(digest, actions)
    ensures var s := Exec(digest, actions);
      forall r | r in s.table :: r.blockHash in s.blocks && digest(s.blocks[r.blockHash]) == r.blockHash
  {
    RunKeepsServer(digest, actions);
  }
}

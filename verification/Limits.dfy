/** Runs of the upload machine that leave its hypotheses. */
module Limits {
  import opened Basics
  import opened FileBlockTable
  import opened UploadMachine

  /** Process pid, which is the only thing that moves, takes its next step. */
  lemma Advanced(digest: Digest, actions: seq<Action>, pid: nat)
    requires pid in Exec(digest, actions).procs
    ensures var s := Exec(digest, actions);
      Exec(digest, actions + [Advance(pid, Quiet)]) == Step(digest, s, pid, s.procs[pid], Quiet)
  {
    ExecSnoc(digest, actions, Advance(pid, Quiet));
  }

  /**
   block_query answers even when one of its SELECTs failed, with the hashes found missing so
   far.  An uploader that believes the short answer commits a hash the block server lacks.
   */
  lemma CutQueryListsUnheldBlock(digest: Digest)
    ensures exists actions :: var s := Exec(digest, actions);
              exists r :: r in s.table && r.blockHash !in s.blocks
  {
    var up := Upload("u", "f", ["x"], 0);
    var hash := digest("x");
    var run: seq<Action> := [];
    assert Exec(digest, run) == Init;
    ExecSnoc(digest, run, StartUpload(1, up));
    run := run + [StartUpload(1, up)];
    assert Exec(digest, run).procs == map[1 := Querying(up, 0, [])];
    ExecSnoc(digest, run, QueryFails(1));
    run := run + [QueryFails(1)];
    assert Exec(digest, run) == Sys([], map[], map[], map[1 := Sending(up, [], 0)]);
    Advanced(digest, run, 1);
    run := run + [Advance(1, Quiet)];
    assert Exec(digest, run) == Sys([], map[], map[], map[1 := Checking(up)]);
    Advanced(digest, run, 1);
    run := run + [Advance(1, Quiet)];
    assert Exec(digest, run) == Sys([], map[], map[], map[1 := Deleting(up)]);
    Advanced(digest, run, 1);
    run := run + [Advance(1, Quiet)];
    assert Exec(digest, run) == Sys([], map[], map[], map[1 := Inserting(up, 0)]);
    Advanced(digest, run, 1);
    run := run + [Advance(1, Quiet)];
    var row := Row("u", "f", hash, 0, 0, 0);
    assert row in Exec(digest, run).table && hash !in Exec(digest, run).blocks;
  }

  /** A step that only moves process pid from p to p'. */
  lemma Moves(digest: Digest, run: seq<Action>, s: Sys, pid: nat, p: Phase, p': Phase) returns (run': seq<Action>)
    requires Exec(digest, run) == At(s, pid, p)
    requires Step(digest, At(s, pid, p), pid, p, Quiet) == At(At(s, pid, p), pid, p')
    ensures Exec(digest, run') == At(s, pid, p')
  {
    Advanced(digest, run, pid);
    run' := run + [Advance(pid, Quiet)];
    assert At(At(s, pid, p), pid, p') == At(s, pid, p');
  }

  /** One client brings a new one-block file to the point where its DELETE is next. */
  lemma ReachDeleting(digest: Digest, run: seq<Action>, pid: nat, up: Upload) returns (run': seq<Action>)
    requires Exec(digest, run).table == [] && pid !in Exec(digest, run).procs
    requires |up.blocks| == 1 && up.version == 0
    ensures var s, hash := Exec(digest, run), digest(up.blocks[0]);
      Exec(digest, run') == At(s.(blocks := s.blocks[hash := up.blocks[0]]), pid, Deleting(up))
  {
    var s, hash := Exec(digest, run), digest(up.blocks[0]);
    assert HashesOf(digest, up.blocks) == [hash] && up.blocks == [up.blocks[0]];
    run' := run + [StartUpload(pid, up)];
    ExecSnoc(digest, run, StartUpload(pid, up));
    assert CountHash(s.table, hash) == 0 && [] + [hash] == [hash];
    run' := Moves(digest, run', s, pid, Querying(up, 0, []), Querying(up, 1, [hash]));
    run' := Moves(digest, run', s, pid, Querying(up, 1, [hash]), Sending(up, [hash], 0));
    run' := ReachSent(digest, run', s, pid, up, hash);
    var held := s.(blocks := s.blocks[hash := up.blocks[0]]);
    run' := Moves(digest, run', held, pid, Sending(up, [hash], 1), Checking(up));
    run' := Moves(digest, run', held, pid, Checking(up), Deleting(up));
  }

  lemma ReachSent(digest: Digest, run: seq<Action>, s: Sys, pid: nat, up: Upload, hash: Hash)
    returns (run': seq<Action>)
    requires |up.blocks| == 1 && hash == digest(up.blocks[0])
    requires Exec(digest, run) == At(s, pid, Sending(up, [hash], 0))
    ensures Exec(digest, run') == At(s.(blocks := s.blocks[hash := up.blocks[0]]), pid, Sending(up, [hash], 1))
  {
    Advanced(digest, run, pid);
    run' := run + [Advance(pid, Quiet)];
    assert up.blocks == [up.blocks[0]] && HashesOf(digest, up.blocks)[0] == hash;
    assert HashToFile(digest, up.blocks)[hash] == up.blocks[0];
    assert Exec(digest, run').procs == s.procs[pid := Sending(up, [hash], 1)];
  }

  /**
   A commit is not a transaction: two first commits of one file can both be accepted, and the
   file then lists the blocks of both.  This is why the version claims take a commit as one step.
   */
  lemma InterleavedCommitsMix(digest: Digest, x: Bytes, y: Bytes)
    ensures exists run :: var list := BlockListOf(Exec(digest, run).table, "u", "f");
              |list| == 2 && digest(x) in list && digest(y) in list
  {
    var a, b := Upload("u", "f", [x], 0), Upload("u", "f", [y], 0);
    assert Exec(digest, []) == Init;
    var run := ReachDeleting(digest, [], 1, a);
    run := ReachDeleting(digest, run, 2, b);
    run := BothInsert(digest, run, a, b);
    ListOfTwo(Row("u", "f", digest(x), 0, 0, 0), Row("u", "f", digest(y), 0, 0, 0));
  }

  lemma BothInsert(digest: Digest, run: seq<Action>, a: Upload, b: Upload) returns (run': seq<Action>)
    requires var s := Exec(digest, run);
      s.table == [] && 1 in s.procs && 2 in s.procs && s.procs[1] == Deleting(a) && s.procs[2] == Deleting(b)
    requires |a.blocks| == |b.blocks| == 1
    ensures Exec(digest, run').table == [
      Row(b.user, b.file, digest(b.blocks[0]), 0, b.version, 0),
      Row(a.user, a.file, digest(a.blocks[0]), 0, a.version, 0)]
  {
    Advanced(digest, run, 1);
    run' := run + [Advance(1, Quiet)];
    Advanced(digest, run', 2);
    run' := run' + [Advance(2, Quiet)];
    var s := Exec(digest, run');
    assert s.table == [] && s.procs[1] == Inserting(a, 0) && s.procs[2] == Inserting(b, 0);
    Advanced(digest, run', 1);
    run' := run' + [Advance(1, Quiet)];
    Advanced(digest, run', 2);
    run' := run' + [Advance(2, Quiet)];
  }

  lemma ListOfTwo(ra: Row, rb: Row)
    requires ra.userId == rb.userId && ra.fileName == rb.fileName
    ensures var list := BlockListOf([rb, ra], ra.userId, ra.fileName);
      |list| == 2 && ra.blockHash in list && rb.blockHash in list
  {
    var t := [rb, ra];
    assert SelectFile(t, ra.userId, ra.fileName) == t by {
      var p := FileIs(ra.userId, ra.fileName);
      assert t[1..] == [ra] && [ra][1..] == [];
      assert Where(t, p) == [rb] + Where([ra], p) && Where([ra], p) == [ra] + Where([], p);
    }
    var sorted := OrderBy(t, ByNumber());
    InMultiset(sorted, ra);
    InMultiset(sorted, rb);
  }

  lemma InMultiset(rows: Table, r: Row)
    requires r in multiset(rows)
    ensures r.blockHash in RowHashes(rows)
  {
    var i :| 0 <= i < |rows| && rows[i] == r;
    assert RowHashes(rows)[i] == r.blockHash;
  }

  /** The row of a one-block file. */
  function RowOf(digest: Digest, up: Upload): Row
    requires |up.blocks| == 1
  {
    Row(up.user, up.file, digest(up.blocks[0]), 0, up.version, 0)
  }

  lemma OneRowTable(r: Row)
    ensures SelectFile([r], r.userId, r.fileName) == [r] && DeleteFile([r], r.userId, r.fileName) == []
    ensures CountHash([r], r.blockHash) != 0
  {
    var file, other := FileIs(r.userId, r.fileName), FileIsNot(r.userId, r.fileName);
    assert [r][1..] == [] && Where([], file) == Where([], other) == [];
    assert file(r) && !other(r) && r in [r];
    assert Where([r], file) == [r] + Where([], file) && Where([r], other) == [] + Where([], other);
  }

  /** A process brings a later version of a one-block file, of the same block, to where its DELETE is next. */
  lemma ReachDeletingAgain(digest: Digest, run: seq<Action>, pid: nat, before: Upload, up: Upload)
    returns (run': seq<Action>)
    requires |before.blocks| == 1 && up == before.(version := up.version) && before.version < up.version
    requires Exec(digest, run).table == [RowOf(digest, before)] && pid !in Exec(digest, run).procs
    ensures Exec(digest, run') == At(Exec(digest, run), pid, Deleting(up))
  {
    var s, hash := Exec(digest, run), digest(up.blocks[0]);
    OneRowTable(RowOf(digest, before));
    assert HashesOf(digest, up.blocks) == [hash] && up.blocks == [up.blocks[0]];
    run' := run + [StartUpload(pid, up)];
    ExecSnoc(digest, run, StartUpload(pid, up));
    run' := Moves(digest, run', s, pid, Querying(up, 0, []), Querying(up, 1, []));
    run' := Moves(digest, run', s, pid, Querying(up, 1, []), Sending(up, [], 0));
    run' := Moves(digest, run', s, pid, Sending(up, [], 0), Checking(up));
    run' := Moves(digest, run', s, pid, Checking(up), Deleting(up));
  }

  /** DELETE, INSERT and end of a commit, with nothing in between. */
  lemma CommitAlone(digest: Digest, run: seq<Action>, pid: nat, up: Upload) returns (run': seq<Action>)
    requires |up.blocks| == 1 && pid in Exec(digest, run).procs && Exec(digest, run).procs[pid] == Deleting(up)
    requires DeleteFile(Exec(digest, run).table, up.user, up.file) == []
    ensures Exec(digest, run').table == [RowOf(digest, up)]
    ensures Exec(digest, run').procs == Exec(digest, run).procs - {pid} && run <= run'
  {
    var s := Exec(digest, run);
    Advanced(digest, run, pid);
    run' := run + [Advance(pid, Quiet)];
    assert Exec(digest, run') == At(s.(table := []), pid, Inserting(up, 0));
    Advanced(digest, run', pid);
    run' := run' + [Advance(pid, Quiet)];
    assert Exec(digest, run') == At(s.(table := [RowOf(digest, up)]), pid, Inserting(up, 1));
    Advanced(digest, run', pid);
    run' := run' + [Advance(pid, Quiet)];
  }

  /**
   Whole files are not enough.  Versions 1 and 2 of a file both pass the check against version 0;
   version 2 is committed as a whole, then version 1: the file goes back a version.
   */
  lemma OvertakenCommitGoesBack(digest: Digest, x: Bytes) returns (run: seq<Action>, longer: seq<Action>)
    ensures run <= longer
    ensures Exec(digest, run).table == [Row("u", "f", digest(x), 0, 2, 0)]
    ensures Exec(digest, longer).table == [Row("u", "f", digest(x), 0, 1, 0)]
  {
    var first := Upload("u", "f", [x], 0);
    var second, third := first.(version := 1), first.(version := 2);
    assert Exec(digest, []) == Init;
    run := ReachDeleting(digest, [], 1, first);
    run := CommitAlone(digest, run, 1, first);
    OneRowTable(RowOf(digest, first));
    run := ReachDeletingAgain(digest, run, 2, first, second);
    run := ReachDeletingAgain(digest, run, 3, first, third);
    run := CommitAlone(digest, run, 3, third);
    OneRowTable(RowOf(digest, third));
    longer := CommitAlone(digest, run, 2, second);
  }
}

/** Runs of the version machine that leave its hypotheses. */
module VersionLimits {
  import opened Basics
  import opened SyncModel
  import opened VersionMachine
  import opened VersionCheck
  import opened VersionContents

  // ------------------------------------------------------ building runs

  /** One more action. */
  lemma Go(s0: Sys, run: seq<Action>, a: Action) returns (run': seq<Action>)
    ensures run' == run + [a] && Exec(s0, run') == Next(Exec(s0, run), a)
  {
    run' := run + [a];
    assert run'[..|run|] == run;
  }

  /** One more action of a run that keeps to the hypotheses. */
  lemma Take(s0: Sys, run: seq<Action>, a: Action) returns (run': seq<Action>)
    requires RunRespects(s0, run) && Respects(Exec(s0, run), a)
    ensures RunRespects(s0, run') && Exec(s0, run') == Next(Exec(s0, run), a)
  {
    run' := Go(s0, run, a);
    forall i | 0 <= i < |run'|
      ensures Respects(Exec(s0, run'[..i]), run'[i])
    {
      assert run'[..i] == run[..i] && run[..|run|] == run;
    }
  }

  /** The client as it is when its commit of f is next. */
  function Prepared(s: Sys, c: nat, f: string, version: nat): Client
    requires c in s.clients && f in s.clients[c].files
  {
    var k := s.clients[c];
    var content := k.files[f].content;
    k.(phase := Uploading(f, version, Split(content), content, Find(s.server, f), HistoryOf(s, f)))
  }

  /** An idle client whose turn with f is an upload. */
  predicate WillUpload(s: Sys, c: nat, f: string, version: nat) {
    && c in s.clients && s.clients[c].phase.Idle? && f in s.clients[c].files
    && var k := s.clients[c];
       Decide(ListedVersion(Find(s.server, f)), Find(k.saved, f), k.files[f].mtime) == Upload(version)
  }

  lemma PrepareSteps(s: Sys, c: nat, f: string, version: nat)
    requires WillUpload(s, c, f, version)
    ensures Next(Next(s, ReadList(c, f)), Choose(c)) == With(s, c, Prepared(s, c, f, version))
  {
    var listed := s.clients[c].(phase := Listed(f, Find(s.server, f), HistoryOf(s, f)));
    assert Next(s, ReadList(c, f)) == With(s, c, listed);
    assert With(With(s, c, listed), c, Prepared(s, c, f, version)) == With(s, c, Prepared(s, c, f, version));
  }

  /** Client c brings its file f to the point where file_commit is next. */
  lemma Prepare(s0: Sys, run: seq<Action>, c: nat, f: string, version: nat) returns (run': seq<Action>)
    requires WillUpload(Exec(s0, run), c, f, version)
    ensures var s := Exec(s0, run); Exec(s0, run') == With(s, c, Prepared(s, c, f, version))
  {
    PrepareSteps(Exec(s0, run), c, f, version);
    run' := Go(s0, run, ReadList(c, f));
    run' := Go(s0, run', Choose(c));
  }

  lemma PrepareWell(s0: Sys, run: seq<Action>, c: nat, f: string, version: nat) returns (run': seq<Action>)
    requires WillUpload(Exec(s0, run), c, f, version) && RunRespects(s0, run)
    ensures var s := Exec(s0, run); Exec(s0, run') == With(s, c, Prepared(s, c, f, version))
    ensures RunRespects(s0, run')
  {
    PrepareSteps(Exec(s0, run), c, f, version);
    run' := Take(s0, run, ReadList(c, f));
    run' := Take(s0, run', Choose(c));
  }

  /** The system after client c has synced its file f up. */
  function SyncedUp(s: Sys, c: nat, f: string, version: nat): Sys
    requires c in s.clients && f in s.clients[c].files
  {
    var k := s.clients[c];
    With(Committed(s, f, Remote(version, Split(k.files[f].content))), c,
         k.(saved := k.saved[f := Saved(version, s.clock)]))
  }

  lemma SyncUpSteps(s: Sys, c: nat, f: string, version: nat)
    requires WillUpload(s, c, f, version) && MayUpload(s.server, f, version)
    ensures Next(Next(With(s, c, Prepared(s, c, f, version)), Commit(c)), Record(c)) == SyncedUp(s, c, f, version)
  {
    var k, p := s.clients[c], Prepared(s, c, f, version);
    var s1 := Next(With(s, c, p), Commit(c));
    assert s1.clients[c] == k.(phase := Recording(f, version, k.files[f].content));
    var s2 := Next(s1, Record(c));
    assert s2.clients == SyncedUp(s, c, f, version).clients;
  }

  /** A whole upload, from reading the list to writing versions.json. */
  lemma SyncUp(s0: Sys, run: seq<Action>, c: nat, f: string, version: nat) returns (run': seq<Action>)
    requires var s := Exec(s0, run); WillUpload(s, c, f, version) && MayUpload(s.server, f, version)
    ensures Exec(s0, run') == SyncedUp(Exec(s0, run), c, f, version)
  {
    SyncUpSteps(Exec(s0, run), c, f, version);
    run' := Prepare(s0, run, c, f, version);
    run' := Go(s0, run', Commit(c));
    run' := Go(s0, run', Record(c));
  }

  /** Client 2, which had nothing, has downloaded f and erased it; deleting it on the server is next. */
  function Erased(s: Sys, f: string): Sys {
    Next(Next(Next(Next(s, ReadMissing(2, f)), Finish(2)), Record(2)), Erase(2, f))
  }

  predicate Fresh2(s: Sys, f: string) {
    2 in s.clients && s.clients[2] == Client(map[], map[], Idle) && f in s.server
  }

  predicate OthersSame(s: Sys, s': Sys) {
    forall c | c != 2 && c in s.clients :: c in s'.clients && s'.clients[c] == s.clients[c]
  }

  lemma DownloadIsTrue(s: Sys, f: string)
    requires Fresh2(s, f)
    ensures var s2 := Next(Next(s, ReadMissing(2, f)), Finish(2));
      2 in s2.clients && s2.clients[2].phase.Recording? && TrueRecord(s2, s2.clients[2])
  {
  }

  lemma ErasedState(s: Sys, f: string)
    requires Fresh2(s, f)
    ensures var s4 := Erased(s, f);
      && 2 in s4.clients && s4.clients[2].phase.Idle? && f !in s4.clients[2].files && f in s4.clients[2].saved
      && s4.server == s.server && s4.changes == s.changes && s4.removals == s.removals && s4.clock == s.clock
      && OthersSame(s, s4)
  {
  }

  lemma DeletedState(s: Sys, f: string)
    requires Fresh2(s, f)
    ensures var s' := Next(Erased(s, f), DeleteRemote(2, f));
      && s'.server == s.server - {f} && s'.clock == s.clock && f in s'.removals
      && Changes(s', f) == Changes(s, f) + 1 && Removals(s', f) == Removals(s, f) + 1
      && OthersSame(s, s')
  {
    ErasedState(s, f);
    DeleteStep(Erased(s, f), f);
  }

  lemma DeleteStep(s: Sys, f: string)
    requires 2 in s.clients && s.clients[2].phase.Idle? && f !in s.clients[2].files && f in s.clients[2].saved
    requires f in s.server
    ensures var s' := Next(s, DeleteRemote(2, f));
      && s'.server == s.server - {f} && s'.clock == s.clock && f in s'.removals
      && Changes(s', f) == Changes(s, f) + 1 && Removals(s', f) == Removals(s, f) + 1
      && OthersSame(s, s')
  {
  }

  lemma DownloadThenDelete(s0: Sys, run: seq<Action>, f: string) returns (run': seq<Action>)
    requires Fresh2(Exec(s0, run), f)
    ensures Exec(s0, run') == Next(Erased(Exec(s0, run), f), DeleteRemote(2, f))
  {
    run' := Go(s0, run, ReadMissing(2, f));
    run' := Go(s0, run', Finish(2));
    run' := Go(s0, run', Record(2));
    run' := Go(s0, run', Erase(2, f));
    run' := Go(s0, run', DeleteRemote(2, f));
  }

  lemma DownloadThenDeleteWell(s0: Sys, run: seq<Action>, f: string) returns (run': seq<Action>)
    requires Fresh2(Exec(s0, run), f) && RunRespects(s0, run)
    ensures Exec(s0, run') == Next(Erased(Exec(s0, run), f), DeleteRemote(2, f)) && RunRespects(s0, run')
  {
    DownloadIsTrue(Exec(s0, run), f);
    run' := Take(s0, run, ReadMissing(2, f));
    run' := Take(s0, run', Finish(2));
    run' := Take(s0, run', Record(2));
    run' := Take(s0, run', Erase(2, f));
    run' := Take(s0, run', DeleteRemote(2, f));
  }

  // ------------------------------------------------------------ the runs

  /** Client 0 is about to commit x under f when client 1 syncs y under that name. */
  lemma FirstCommit(f: string, x: Bytes, y: Bytes) returns (s0: Sys, run: seq<Action>)
    requires x != "" && y != ""
    ensures Start(s0) && RunRespects(s0, run)
    ensures var s := Exec(s0, run);
      && s.server == map[f := Remote(0, Split(y))] && Changes(s, f) == 1 && s.clock == 0
      && 0 in s.clients && s.clients[0].phase == Uploading(f, 0, Split(x), x, None, History(0, 0))
      && 1 in s.clients && s.clients[1] == Client(map[f := LocalFile(y, 0)], map[f := Saved(0, 0)], Idle)
      && 2 in s.clients && s.clients[2] == Client(map[], map[], Idle)
  {
    var k0, k1 := Client(map[f := LocalFile(x, 0)], map[], Idle), Client(map[f := LocalFile(y, 0)], map[], Idle);
    s0 := Sys(map[], map[], map[], 0, map[0 := k0, 1 := k1, 2 := Client(map[], map[], Idle)]);
    assert Exec(s0, []) == s0 && Start(s0);
    run := PrepareWell(s0, [], 0, f, 0);
    run := PrepareWell(s0, run, 1, f, 0);
    FirstCommitSteps(Exec(s0, run), k1, f, y);
    run := Take(s0, run, Commit(1));
    run := Take(s0, run, Record(1));
  }

  lemma FirstCommitSteps(s: Sys, k: Client, f: string, y: Bytes)
    requires y != "" && k == Client(map[f := LocalFile(y, 0)], map[], Idle)
    requires s.server == map[] && s.changes == map[] && s.removals == map[] && s.clock == 0
    requires 1 in s.clients && s.clients[1] == k.(phase := Uploading(f, 0, Split(y), y, None, History(0, 0)))
    ensures var s1 := Next(s, Commit(1));
      && 1 in s1.clients && s1.clients[1].phase.Recording? && TrueRecord(s1, s1.clients[1])
      && var s2 := Next(s1, Record(1));
      && s2.server == map[f := Remote(0, Split(y))] && Changes(s2, f) == 1 && s2.clock == 0
      && 1 in s2.clients && s2.clients[1] == Client(map[f := LocalFile(y, 0)], map[f := Saved(0, 0)], Idle)
      && forall c | c != 1 && c in s.clients :: c in s2.clients && s2.clients[c] == s.clients[c]
  {
    SplitIsCanonical(y);
  }

  /**
   Committing a removed name again defeats the version check: an upload prepared before the
   first commit is accepted after the removal, and a client that synced in between then holds
   the version the server has, with another content.
   */
  lemma RecreationDefeatsTheCheck(f: string, x: Bytes, y: Bytes) returns (s0: Sys, run: seq<Action>)
    requires x != y && x != "" && y != ""
    ensures Start(s0) && RunRespects(s0, run)
    ensures var s := Exec(s0, run);
      && 0 in s.clients && 1 in s.clients && s.clients[0].phase.Uploading?
      && MayUpload(s.server, f, s.clients[0].phase.version) && Changes(s, f) != s.clients[0].phase.seen.changes
      && !Consistent(Next(s, Commit(0)).server, s.clients[1].files, s.clients[1].saved, s.clock)
  {
    s0, run := FirstCommit(f, x, y);
    DeletedState(Exec(s0, run), f);
    run := DownloadThenDeleteWell(s0, run, f);
    var s := Exec(s0, run);
    assert s.clients[0].phase == Uploading(f, 0, Split(x), x, None, History(0, 0)) && f !in s.server;
    SplitIsCanonical(x);
    var server := Next(s, Commit(0)).server;
    assert f in server && server[f] == Remote(0, Split(x));
  }

  /** Client 0 has synced two versions of f; clients 1 and 2 have yet to begin. */
  lemma TwoVersions(f: string, x: Bytes) returns (s0: Sys, run: seq<Action>)
    requires x != ""
    ensures Start(s0)
    ensures var s := Exec(s0, run);
      && f in s.server && s.clock == 1
      && 0 in s.clients && s.clients[0] == Client(map[f := LocalFile(x, 1)], map[f := Saved(1, 1)], Idle)
      && 1 in s.clients && s.clients[1] == Client(map[f := LocalFile(x, 0)], map[], Idle)
      && 2 in s.clients && s.clients[2] == Client(map[], map[], Idle)
  {
    var k := Client(map[f := LocalFile(x, 0)], map[], Idle);
    s0 := Sys(map[], map[], map[], 0, map[0 := k, 1 := k, 2 := Client(map[], map[], Idle)]);
    assert Exec(s0, []) == s0;
    run := SyncUp(s0, [], 0, f, 0);
    assert Exec(s0, run).clients[0] == k.(saved := map[f := Saved(0, 0)]);
    run := Go(s0, run, Tick);
    run := Go(s0, run, Edit(0, f, x));
    assert Exec(s0, run).clients[0] == Client(map[f := LocalFile(x, 1)], map[f := Saved(0, 0)], Idle);
    run := SyncUp(s0, run, 0, f, 1);
    assert Exec(s0, run).clients[0] == Client(map[f := LocalFile(x, 1)], map[f := Saved(1, 1)], Idle);
  }

  /** Then client 2 has had it deleted, and client 1 has begun it anew. */
  lemma BegunAnew(f: string, x: Bytes) returns (s0: Sys, run: seq<Action>)
    requires x != ""
    ensures Start(s0)
    ensures var s := Exec(s0, run);
      && f in s.server && s.server[f].version == 0 && s.clock == 1
      && 0 in s.clients && s.clients[0] == Client(map[f := LocalFile(x, 1)], map[f := Saved(1, 1)], Idle)
      && 1 in s.clients && s.clients[1] == Client(map[f := LocalFile(x, 0)], map[f := Saved(0, 1)], Idle)
  {
    s0, run := TwoVersions(f, x);
    DeletedState(Exec(s0, run), f);
    run := DownloadThenDelete(s0, run, f);
    var s := Exec(s0, run);
    assert s.clients[1] == Client(map[f := LocalFile(x, 0)], map[], Idle) && f !in s.server;
    run := SyncUp(s0, run, 1, f, 0);
    assert Exec(s0, run).clients[1].saved == map[f := Saved(0, 1)];
  }

  /**
   A version that skips one defeats the check too, although f was not removed since its list was
   read: a client whose entry is ahead of the server sends more than the next version, and it is
   accepted although another client has committed the next one in between.
   */
  lemma AheadDefeatsTheCheck(f: string, x: Bytes) returns (s0: Sys, run: seq<Action>)
    requires x != ""
    ensures Start(s0)
    ensures var s := Exec(s0, run);
      && 0 in s.clients && s.clients[0].phase.Uploading?
      && var Uploading(g, version, _, _, listed, seen) := s.clients[0].phase;
      && Removals(s, g) == seen.removals && version != NextVersion(listed)
      && MayUpload(s.server, g, version) && Changes(s, g) != seen.changes
  {
    s0, run := BegunAnew(f, x);
    run := Go(s0, run, Tick);
    run := Go(s0, run, Edit(0, f, x));
    run := Go(s0, run, Edit(1, f, x));
    var s1 := Exec(s0, run);
    assert s1.clients[0] == Client(map[f := LocalFile(x, 2)], map[f := Saved(1, 1)], Idle);
    assert s1.clients[1] == Client(map[f := LocalFile(x, 2)], map[f := Saved(0, 1)], Idle);
    run := Prepare(s0, run, 0, f, 2);
    run := SyncUp(s0, run, 1, f, 1);
  }

  /** The only client commits x as the first version of f. */
  lemma OnlyClientCommits(f: string, x: Bytes) returns (s0: Sys, run: seq<Action>)
    requires x != ""
    ensures Start(s0) && RunRespects(s0, run)
    ensures var s := Exec(s0, run);
      && s.server == map[f := Remote(0, Split(x))] && s.clock == 0
      && 0 in s.clients && s.clients[0] == Client(map[f := LocalFile(x, 0)], map[], Recording(f, 0, x))
      && ContentOf(Remote(0, Split(x))) == x
  {
    s0 := Sys(map[], map[], map[], 0, map[0 := Client(map[f := LocalFile(x, 0)], map[], Idle)]);
    assert Exec(s0, []) == s0 && Start(s0);
    run := PrepareWell(s0, [], 0, f, 0);
    SplitIsCanonical(x);
    run := Take(s0, run, Commit(0));
  }

  /**
   An edit in the middle of its own upload is lost from view: the entry written after it
   carries a time that is not earlier, so the file counts as in sync with its old content.
   */
  lemma EditDuringUploadIsMissed(f: string, x: Bytes, y: Bytes) returns (s0: Sys, run: seq<Action>)
    requires x != y && x != ""
    ensures Start(s0) && RunRespects(s0, run)
    ensures var s := Next(Exec(s0, run), Record(0));
      && 0 in s.clients && f in s.clients[0].files && f in s.server
      && Decide(Some(s.server[f].version), Find(s.clients[0].saved, f), s.clients[0].files[f].mtime).InSync?
      && s.clients[0].files[f].content != ContentOf(s.server[f])
  {
    s0, run := OnlyClientCommits(f, x);
    run := Take(s0, run, Edit(0, f, y));
    var s := Next(Exec(s0, run), Record(0));
    assert s.clients[0] == Client(map[f := LocalFile(y, 0)], map[f := Saved(0, 0)], Idle);
  }

  /**
   The one-second grain.  A file edited in the very second of its sync is taken to be in sync,
   although its content differs from the server's.
   */
  lemma SameSecondEditIsMissed(f: string, x: Bytes, y: Bytes) returns (s0: Sys, run: seq<Action>)
    requires x != y && x != ""
    ensures Start(s0) && RunRespects(s0, run)
    ensures var s := Next(Exec(s0, run), Edit(0, f, y));
      && 0 in s.clients && s.clients[0].phase.Idle? && f in s.clients[0].files && f in s.server
      && Decide(Some(s.server[f].version), Find(s.clients[0].saved, f), s.clients[0].files[f].mtime).InSync?
      && s.clients[0].files[f].content != ContentOf(s.server[f])
  {
    s0, run := OnlyClientCommits(f, x);
    run := Take(s0, run, Record(0));
    var s := Next(Exec(s0, run), Edit(0, f, y));
    assert s.clients[0] == Client(map[f := LocalFile(y, 0)], map[f := Saved(0, 0)], Idle);
  }
}

/**
 The statement-level machine seen from a reader of the row table: when are a file's rows the
 blocks of one commit?  Nothing keeps the statements of two commits apart, so the answer
 depends on where the DELETEs fall.
 */
module WholeFiles {
  import opened Basics
  import opened FileBlockTable
  import opened MetadataSpec
  import opened CacheNode
  import opened UploadMachine

  /** A commit of this file that has run its DELETE and still has blocks to insert. */
  predicate Unfinished(p: Phase, file: FileKey) {
    p.Inserting? && FileKey(p.up.user, p.up.file) == file && p.k < |p.up.blocks|
  }

  /** A commit that has passed its check and still has a DELETE or INSERTs to run. */
  predicate Committing(p: Phase) {
    p.Deleting? || (p.Inserting? && p.k < |p.up.blocks|)
  }

  /** The file whose rows an action deletes. */
  function Deleted(s: Sys, a: Action): Option<FileKey> {
    match a
    case Remove(u, f) => Some(FileKey(u, f))
    case Advance(pid, _) =>
      if pid in s.procs && s.procs[pid].Deleting? then Some(FileKey(s.procs[pid].up.user, s.procs[pid].up.file))
      else None
    case _ => None
  }

  /** The action is the DELETE of a commit that has blocks to insert. */
  predicate BringsRows(s: Sys, a: Action) {
    a.Advance? && a.pid in s.procs && s.procs[a.pid].Deleting? && s.procs[a.pid].up.blocks != []
  }

  /**
   The action's DELETE falls between the DELETE of process q's commit of the same file and
   that commit's last INSERT -- and it either takes rows away or is followed by rows of its own.
   */
  predicate HitsAt(s: Sys, a: Action, q: nat) {
    && Deleted(s, a).Some? && q in s.procs && Unfinished(s.procs[q], Deleted(s, a).value)
    && (s.procs[q].k > 0 || BringsRows(s, a))
  }

  ghost predicate Hits(s: Sys, a: Action) {
    exists q :: HitsAt(s, a, q)
  }

  // --------------------------------------------------------- invariant

  /** What a file's rows say after a commit's DELETE and k INSERTs. */
  function EntryOf(digest: Digest, up: Upload, k: nat): Entry
    requires k <= |up.blocks|
  {
    Entry(up.version, HashesOf(digest, up.blocks)[..k])
  }

  /** The rows are the first blocks of one of these uploads. */
  ghost predicate RowsOf(rows: Table, file: FileKey, digest: Digest, uploads: set<Upload>) {
    exists up, k: nat :: up in uploads && FileKey(up.user, up.file) == file && k <= |up.blocks| &&
                         Holds(rows, EntryOf(digest, up, k))
  }

  /** No rows, or the rows of one commit. */
  ghost predicate Whole(t: Table, file: FileKey, digest: Digest, uploads: set<Upload>) {
    var rows := SelectFile(t, file.user, file.name);
    rows == [] || RowsOf(rows, file, digest, uploads)
  }

  ghost predicate AllWhole(t: Table, digest: Digest, uploads: set<Upload>) {
    forall file :: Whole(t, file, digest, uploads)
  }

  predicate Handles(p: Phase, uploads: set<Upload>) {
    p.Querying? || p.Sending? || p.Checking? || p.Deleting? || p.Inserting? ==> p.up in uploads
  }

  /** An unfinished commit's rows are exactly those it has inserted. */
  ghost predicate InsertedSoFar(p: Phase, t: Table, digest: Digest) {
    p.Inserting? && p.k < |p.up.blocks| ==>
      Holds(SelectFile(t, p.up.user, p.up.file), EntryOf(digest, p.up, p.k))
  }

  /** Not two unfinished commits of one file. */
  predicate Apart(p: Phase, q: Phase) {
    !(p.Inserting? && Unfinished(p, FileKey(p.up.user, p.up.file)) && Unfinished(q, FileKey(p.up.user, p.up.file)))
  }

  ghost predicate RowsInv(s: Sys, digest: Digest, uploads: set<Upload>) {
    && AllWhole(s.table, digest, uploads)
    && (forall p | p in s.procs :: Handles(s.procs[p], uploads) && InsertedSoFar(s.procs[p], s.table, digest))
    && (forall p, q | p in s.procs && q in s.procs && p != q :: Apart(s.procs[p], s.procs[q]))
  }

  // ---------------------------------------------- statements on the rows

  lemma DeleteRows(t: Table, file: FileKey, digest: Digest, uploads: set<Upload>)
    requires AllWhole(t, digest, uploads)
    ensures var t' := DeleteFile(t, file.user, file.name);
      && AllWhole(t', digest, uploads)
      && SelectFile(t', file.user, file.name) == []
      && forall g: FileKey | g != file :: SelectFile(t', g.user, g.name) == SelectFile(t, g.user, g.name)
  {
    var t' := DeleteFile(t, file.user, file.name);
    DeleteRemoves(t, file.user, file.name);
    forall g: FileKey
      ensures Whole(t', g, digest, uploads)
      ensures g != file ==> SelectFile(t', g.user, g.name) == SelectFile(t, g.user, g.name)
    {
      assert Whole(t, g, digest, uploads);
      if g != file {
        DeleteKeepsOthers(t, file.user, file.name, g.user, g.name);
      }
    }
  }

  lemma InsertOneRow(t: Table, t': Table, file: FileKey, h: Hash, n: nat, version: nat)
    requires Inserted(t, t', file.user, file.name, h, n, version)
    ensures forall g: FileKey | g != file :: SelectFile(t', g.user, g.name) == SelectFile(t, g.user, g.name)
  {
    var k: nat, time: nat :| k <= |t| && t' == InsertAt(t, k, Row(file.user, file.name, h, n, version, time));
    forall g: FileKey | g != file
      ensures SelectFile(t', g.user, g.name) == SelectFile(t, g.user, g.name)
    {
      WhereInsert(t, k, Row(file.user, file.name, h, n, version, time), FileIs(g.user, g.name));
    }
  }

  /** The INSERT of an unfinished commit adds exactly its next block. */
  lemma InsertNext(digest: Digest, s: Sys, pid: nat, env: Env)
    requires pid in s.procs && InsertedSoFar(s.procs[pid], s.table, digest)
    requires s.procs[pid].Inserting? && s.procs[pid].k < |s.procs[pid].up.blocks|
    ensures var Inserting(up, k) := s.procs[pid];
      var t' := InsertStep(digest, s, pid, up, k, env).table;
      && Holds(SelectFile(t', up.user, up.file), EntryOf(digest, up, k + 1))
      && forall g | g != FileKey(up.user, up.file) ::
           SelectFile(t', g.user, g.name) == SelectFile(s.table, g.user, g.name)
  {
    var Inserting(up, k) := s.procs[pid];
    var hashes, t' := HashesOf(digest, up.blocks), InsertStep(digest, s, pid, up, k, env).table;
    assert t' == InsertAt(s.table, Min(env.position, |s.table|),
                          Row(up.user, up.file, hashes[k], k, up.version, env.time));
    assert Inserted(s.table, t', up.user, up.file, hashes[k], k, up.version);
    InsertRows(s.table, t', up.user, up.file, hashes[k], EntryOf(digest, up, k));
    assert hashes[..k] + [hashes[k]] == hashes[..k + 1];
    InsertOneRow(s.table, t', FileKey(up.user, up.file), hashes[k], k, up.version);
  }

  // --------------------------------------------------- each step keeps it

  /** The table stays, and no commit begins or goes on inserting. */
  ghost predicate Quietly(s: Sys, s': Sys, uploads: set<Upload>) {
    && s'.table == s.table
    && (forall p | p in s'.procs :: Handles(s'.procs[p], uploads))
    && (forall p | p in s'.procs && s'.procs[p].Inserting? :: p in s.procs && s.procs[p] == s'.procs[p])
  }

  lemma QuietStep(s: Sys, s': Sys, digest: Digest, uploads: set<Upload>, uploads': set<Upload>)
    requires RowsInv(s, digest, uploads) && uploads <= uploads' && Quietly(s, s', uploads')
    ensures RowsInv(s', digest, uploads')
  {
    forall file
      ensures Whole(s'.table, file, digest, uploads')
    {
      assert Whole(s.table, file, digest, uploads);
    }
    forall p, q | p in s'.procs && q in s'.procs && p != q
      ensures Apart(s'.procs[p], s'.procs[q])
    {
      if s'.procs[p].Inserting? && s'.procs[q].Inserting? {
        assert Apart(s.procs[p], s.procs[q]);
      }
    }
  }

  lemma EmptyHolds(digest: Digest, up: Upload)
    ensures Holds([], EntryOf(digest, up, 0))
  {
    assert Cells([]) == [] == Numbered(EntryOf(digest, up, 0));
  }

  /** A DELETE that takes no rows away from an unfinished commit. */
  lemma DeleteKeeps(digest: Digest, s: Sys, file: FileKey, uploads: set<Upload>)
    requires RowsInv(s, digest, uploads)
    requires forall q | q in s.procs && Unfinished(s.procs[q], file) :: s.procs[q].k == 0
    ensures RowsInv(s.(table := DeleteFile(s.table, file.user, file.name)), digest, uploads)
  {
    var s' := s.(table := DeleteFile(s.table, file.user, file.name));
    DeleteRows(s.table, file, digest, uploads);
    forall p | p in s.procs
      ensures InsertedSoFar(s.procs[p], s'.table, digest)
    {
      assert InsertedSoFar(s.procs[p], s.table, digest);
      if Unfinished(s.procs[p], file) {
        EmptyHolds(digest, s.procs[p].up);
      } else {
        OthersInserted(s.procs[p], s.table, s'.table, file, digest);
      }
    }
  }

  /** A commit whose DELETE has just run is alone with the file. */
  lemma BeginKeeps(digest: Digest, s: Sys, pid: nat, uploads: set<Upload>)
    requires RowsInv(s, digest, uploads) && pid in s.procs && s.procs[pid].Deleting?
    requires var up := s.procs[pid].up; SelectFile(s.table, up.user, up.file) == []
    requires var up := s.procs[pid].up;
      up.blocks != [] ==> forall q | q in s.procs :: !Unfinished(s.procs[q], FileKey(up.user, up.file))
    ensures RowsInv(At(s, pid, Inserting(s.procs[pid].up, 0)), digest, uploads)
  {
    var up := s.procs[pid].up;
    var s' := At(s, pid, Inserting(up, 0));
    EmptyHolds(digest, up);
    forall p, q | p in s'.procs && q in s'.procs && p != q
      ensures Apart(s'.procs[p], s'.procs[q])
    {
      if p != pid && q != pid {
        assert Apart(s.procs[p], s.procs[q]);
      }
    }
    assert Handles(s.procs[pid], uploads);
  }

  lemma CommitDeleteKeeps(digest: Digest, s: Sys, pid: nat, env: Env, uploads: set<Upload>)
    requires RowsInv(s, digest, uploads) && pid in s.procs && s.procs[pid].Deleting?
    requires !Hits(s, Advance(pid, env))
    ensures RowsInv(Next(digest, s, Advance(pid, env)), digest, uploads)
  {
    var up := s.procs[pid].up;
    var file := FileKey(up.user, up.file);
    forall q | q in s.procs && Unfinished(s.procs[q], file)
      ensures s.procs[q].k == 0 && up.blocks == []
    {
      assert !HitsAt(s, Advance(pid, env), q);
    }
    var mid := s.(table := DeleteFile(s.table, up.user, up.file));
    DeleteKeeps(digest, s, file, uploads);
    DeleteRows(s.table, file, digest, uploads);
    BeginKeeps(digest, mid, pid, uploads);
    assert Next(digest, s, Advance(pid, env)) == At(mid, pid, Inserting(up, 0));
  }

  lemma InsertStepKeeps(digest: Digest, s: Sys, pid: nat, env: Env, uploads: set<Upload>)
    requires RowsInv(s, digest, uploads) && pid in s.procs
    requires s.procs[pid].Inserting? && s.procs[pid].k < |s.procs[pid].up.blocks|
    ensures RowsInv(Next(digest, s, Advance(pid, env)), digest, uploads)
  {
    var Inserting(up, k) := s.procs[pid];
    var file, s' := FileKey(up.user, up.file), InsertStep(digest, s, pid, up, k, env);
    assert InsertedSoFar(s.procs[pid], s.table, digest);
    InsertNext(digest, s, pid, env);
    assert Handles(s.procs[pid], uploads);
    assert AllWhole(s'.table, digest, uploads) by {
      InsertedIsWhole(s.table, s'.table, digest, up, k + 1, uploads);
    }
    OthersKept(digest, s, s'.table, pid, file, uploads);
    InsertersApart(s, s', pid, file);
  }

  lemma OthersKept(digest: Digest, s: Sys, t': Table, pid: nat, file: FileKey, uploads: set<Upload>)
    requires RowsInv(s, digest, uploads) && pid in s.procs && Unfinished(s.procs[pid], file)
    requires forall g | g != file :: SelectFile(t', g.user, g.name) == SelectFile(s.table, g.user, g.name)
    ensures forall p | p in s.procs && p != pid :: InsertedSoFar(s.procs[p], t', digest)
  {
    forall p | p in s.procs && p != pid
      ensures InsertedSoFar(s.procs[p], t', digest)
    {
      assert Apart(s.procs[pid], s.procs[p]) && InsertedSoFar(s.procs[p], s.table, digest);
      OthersInserted(s.procs[p], s.table, t', file, digest);
    }
  }

  lemma InsertedIsWhole(t: Table, t': Table, digest: Digest, up: Upload, k: nat, uploads: set<Upload>)
    requires AllWhole(t, digest, uploads) && up in uploads && k <= |up.blocks|
    requires Holds(SelectFile(t', up.user, up.file), EntryOf(digest, up, k))
    requires forall g | g != FileKey(up.user, up.file) ::
               SelectFile(t', g.user, g.name) == SelectFile(t, g.user, g.name)
    ensures AllWhole(t', digest, uploads)
  {
    forall g
      ensures Whole(t', g, digest, uploads)
    {
      assert Whole(t, g, digest, uploads);
    }
  }

  lemma OthersInserted(p: Phase, t: Table, t': Table, file: FileKey, digest: Digest)
    requires InsertedSoFar(p, t, digest) && !Unfinished(p, file)
    requires forall g | g != file :: SelectFile(t', g.user, g.name) == SelectFile(t, g.user, g.name)
    ensures InsertedSoFar(p, t', digest)
  {
    if p.Inserting? && p.k < |p.up.blocks| {
      var g := FileKey(p.up.user, p.up.file);
      assert SelectFile(t', g.user, g.name) == SelectFile(t, g.user, g.name);
    }
  }

  lemma InsertersApart(s: Sys, s': Sys, pid: nat, file: FileKey)
    requires forall p, q | p in s.procs && q in s.procs && p != q :: Apart(s.procs[p], s.procs[q])
    requires pid in s.procs && Unfinished(s.procs[pid], file)
    requires s'.procs == s.procs[pid := s.procs[pid].(k := s.procs[pid].k + 1)]
    ensures forall p, q | p in s'.procs && q in s'.procs && p != q :: Apart(s'.procs[p], s'.procs[q])
  {
    forall p, q | p in s'.procs && q in s'.procs && p != q
      ensures Apart(s'.procs[p], s'.procs[q])
    {
      assert Apart(s.procs[p], s.procs[q]);
    }
  }

  /** The uploads started in a run. */
  function Uploads(actions: seq<Action>): set<Upload> {
    if actions == [] then {}
    else
      var a := actions[|actions| - 1];
      Uploads(actions[..|actions| - 1]) + Started(a)
  }

  function Started(a: Action): set<Upload> {
    if a.StartUpload? then {a.up} else {}
  }

  /** Actions that are no step of a commit. */
  predicate Beside(s: Sys, a: Action) {
    && !a.Remove?
    && (a.Advance? && a.pid in s.procs ==> !s.procs[a.pid].Checking? && !Committing(s.procs[a.pid]))
    && (a.Abort? && a.pid in s.procs ==> !(s.procs[a.pid].Inserting? && Committing(s.procs[a.pid])))
  }

  /** The table stays, and the same commits go on. */
  ghost predicate Unmoved(s: Sys, s': Sys, uploads: set<Upload>) {
    && Quietly(s, s', uploads)
    && (forall p | p in s'.procs && s'.procs[p].Deleting? :: p in s.procs && s.procs[p] == s'.procs[p])
    && (forall p | p in s.procs && s.procs[p].Inserting? && Committing(s.procs[p]) ::
          p in s'.procs && s'.procs[p] == s.procs[p])
  }

  lemma BesideUnmoved(digest: Digest, s: Sys, a: Action, uploads: set<Upload>)
    requires forall p | p in s.procs :: Handles(s.procs[p], uploads)
    requires Beside(s, a)
    ensures Unmoved(s, Next(digest, s, a), uploads + Started(a))
  {
    match a
    case Advance(pid, env) =>
      if pid in s.procs { AdvanceUnmoved(digest, s, pid, env, uploads); }
    case StartUpload(pid, up) =>
      if pid !in s.procs { UnmovedAt(s, pid, Querying(up, 0, []), uploads + {up}); }
    case QueryFails(pid) =>
      if pid in s.procs && s.procs[pid].Querying? { CutUnmoved(digest, s, pid, uploads); }
    case _ =>
  }

  lemma CutUnmoved(digest: Digest, s: Sys, pid: nat, uploads: set<Upload>)
    requires forall p | p in s.procs :: Handles(s.procs[p], uploads)
    requires pid in s.procs && s.procs[pid].Querying?
    ensures Unmoved(s, Next(digest, s, QueryFails(pid)), uploads)
  {
    assert Handles(s.procs[pid], uploads);
    UnmovedAt(s, pid, Sending(s.procs[pid].up, s.procs[pid].missing, 0), uploads);
  }

  lemma UnmovedAt(s: Sys, pid: nat, p: Phase, uploads: set<Upload>)
    requires forall q | q in s.procs :: Handles(s.procs[q], uploads)
    requires pid in s.procs ==> !(s.procs[pid].Inserting? && Committing(s.procs[pid]))
    requires Handles(p, uploads) && !p.Inserting? && !p.Deleting?
    ensures Unmoved(s, At(s, pid, p), uploads)
  {
  }

  lemma AdvanceUnmoved(digest: Digest, s: Sys, pid: nat, env: Env, uploads: set<Upload>)
    requires forall p | p in s.procs :: Handles(s.procs[p], uploads)
    requires pid in s.procs && !s.procs[pid].Checking? && !Committing(s.procs[pid])
    ensures Unmoved(s, Step(digest, s, pid, s.procs[pid], env), uploads)
  {
    match s.procs[pid]
    case Querying(_, _, _) => UploadUnmoved(digest, s, pid, env, uploads);
    case Sending(_, _, _) => UploadUnmoved(digest, s, pid, env, uploads);
    case Fetching(_, _, _, _) => FetchUnmoved(s, pid, env, uploads);
    case Picking(_, _, _, _) => PickUnmoved(digest, s, pid, env, uploads);
    case Prefetching(_, _, _, _) => PrefetchUnmoved(s, pid, env, uploads);
    case _ =>
  }

  lemma UploadUnmoved(digest: Digest, s: Sys, pid: nat, env: Env, uploads: set<Upload>)
    requires forall p | p in s.procs :: Handles(s.procs[p], uploads)
    requires pid in s.procs && (s.procs[pid].Querying? || s.procs[pid].Sending?)
    ensures Unmoved(s, Step(digest, s, pid, s.procs[pid], env), uploads)
  {
    assert Handles(s.procs[pid], uploads);
  }

  lemma PickUnmoved(digest: Digest, s: Sys, pid: nat, env: Env, uploads: set<Upload>)
    requires forall p | p in s.procs :: Handles(s.procs[p], uploads)
    requires pid in s.procs && s.procs[pid].Picking?
    ensures Unmoved(s, Step(digest, s, pid, s.procs[pid], env), uploads)
  {
    UnmovedAt(s, pid, Step(digest, s, pid, s.procs[pid], env).procs[pid], uploads);
  }

  lemma PrefetchUnmoved(s: Sys, pid: nat, env: Env, uploads: set<Upload>)
    requires forall p | p in s.procs :: Handles(s.procs[p], uploads)
    requires pid in s.procs && s.procs[pid].Prefetching?
    ensures Unmoved(s, PrefetchStep(s, pid, s.procs[pid], env), uploads)
  {
  }

  lemma FetchUnmoved(s: Sys, pid: nat, env: Env, uploads: set<Upload>)
    requires forall p | p in s.procs :: Handles(s.procs[p], uploads)
    requires pid in s.procs && s.procs[pid].Fetching?
    ensures Unmoved(s, FetchStep(s, pid, s.procs[pid], env), uploads)
  {
    var p := s.procs[pid];
    if |p.got| < |p.list| && p.at.Miss? && env.child !in s.procs {
      var reply := OriginReply(s.blocks, p.list[|p.got|], env.answered);
      var mid := if reply.code == "200" then At(s, pid, p.(got := p.got + [reply.body], at := Look)) else Gone(s, pid);
      UnmovedAt(mid, env.child, Filling(p.host, p.list[|p.got|], reply.body), uploads);
    }
  }

  /** Every step that hits no unfinished commit. */
  lemma StepKeepsRows(digest: Digest, s: Sys, a: Action, uploads: set<Upload>)
    requires RowsInv(s, digest, uploads) && !Hits(s, a)
    ensures RowsInv(Next(digest, s, a), digest, uploads + Started(a))
  {
    var s' := Next(digest, s, a);
    if a.Remove? {
      var file := FileKey(a.user, a.file);
      forall q | q in s.procs && Unfinished(s.procs[q], file)
        ensures s.procs[q].k == 0
      {
        assert !HitsAt(s, a, q);
      }
      DeleteKeeps(digest, s, file, uploads);
      assert uploads + Started(a) == uploads;
    } else if a.Advance? && a.pid in s.procs && s.procs[a.pid].Deleting? {
      CommitDeleteKeeps(digest, s, a.pid, a.env, uploads);
      assert uploads + Started(a) == uploads;
    } else if a.Advance? && a.pid in s.procs && s.procs[a.pid].Inserting?
              && s.procs[a.pid].k < |s.procs[a.pid].up.blocks| {
      InsertStepKeeps(digest, s, a.pid, a.env, uploads);
      assert uploads + Started(a) == uploads;
    } else {
      if Beside(s, a) {
        BesideUnmoved(digest, s, a, uploads);
      }
      QuietStep(s, s', digest, uploads, uploads + Started(a));
    }
  }

  // ------------------------------------------------------------- runs

  /** From step `from` on, no DELETE of the run hits an unfinished commit. */
  ghost predicate HitFree(digest: Digest, run: seq<Action>, from: nat) {
    if |run| <= from then true
    else
      var before := run[..|run| - 1];
      HitFree(digest, before, from) && !Hits(Exec(digest, before), run[|run| - 1])
  }

  lemma {:induction false} HitFreeKeepsRows(digest: Digest, run: seq<Action>)
    requires HitFree(digest, run, 0)
    ensures RowsInv(Exec(digest, run), digest, Uploads(run))
  {
    if run == [] {
      EmptyTable(digest);
    } else {
      var before := run[..|run| - 1];
      HitFreeKeepsRows(digest, before);
      StepKeepsRows(digest, Exec(digest, before), run[|run| - 1], Uploads(before));
    }
  }

  lemma EmptyTable(digest: Digest)
    ensures RowsInv(Init, digest, {})
  {
    forall file: FileKey
      ensures Whole(Init.table, file, digest, {})
    {
      assert SelectFile([], file.user, file.name) == [];
    }
  }

  /**
   In every run in which no DELETE of a file hits an unfinished commit of it, every file's rows
   are the first blocks of one upload -- all of them, but for a commit that is still inserting or
   was aborted -- and every user's file list names each file once.
   */
  lemma HitFreeRunsAreWhole(digest: Digest, run: seq<Action>, user: string)
    requires HitFree(digest, run, 0)
    ensures AllWhole(Exec(digest, run).table, digest, Uploads(run))
    ensures NoDuplicates(Names(FileListOf(Exec(digest, run).table, user)))
  {
    HitFreeKeepsRows(digest, run);
    WholeListsOnce(Exec(digest, run).table, user, digest, Uploads(run));
  }

  lemma WholeListsOnce(t: Table, user: string, digest: Digest, uploads: set<Upload>)
    requires AllWhole(t, digest, uploads)
    ensures NoDuplicates(Names(FileListOf(t, user)))
  {
    WhereIn(t, UserIs(user));
    forall r, r' | r in SelectUser(t, user) && r' in SelectUser(t, user) && r.fileName == r'.fileName
      ensures r.version == r'.version
    {
      var file := FileKey(user, r.fileName);
      WhereIn(t, FileIs(user, r.fileName));
      assert Whole(t, file, digest, uploads) && r in SelectFile(t, user, r.fileName);
      var up, k: nat :| up in uploads && FileKey(up.user, up.file) == file && k <= |up.blocks| &&
                        Holds(SelectFile(t, user, file.name), EntryOf(digest, up, k));
      HoldsGivesList(t, user, file.name, EntryOf(digest, up, k));
    }
    ListedOnceIffOneVersion(t, user);
  }

  // ------------------------------------------------ and only such runs

  /** Rows that hold a list include the last number it needs. */
  lemma LastNumber(rows: Table, e: Entry)
    ensures Holds(rows, e) && rows != [] ==> exists r :: r in rows && r.blockNumber == |rows| - 1
  {
    if Holds(rows, e) && rows != [] {
      assert |multiset(Cells(rows))| == |rows| && |multiset(Numbered(e))| == |e.hashes|;
      var last := Numbered(e)[|rows| - 1];
      assert last in multiset(Cells(rows));
      var i :| 0 <= i < |rows| && Cells(rows)[i] == last;
      assert rows[i] in rows;
    }
  }

  /** A file whose rows are the blocks of no list whatever. */
  ghost predicate Mixed(t: Table, file: FileKey) {
    var rows := SelectFile(t, file.user, file.name);
    rows != [] && forall e :: !Holds(rows, e)
  }

  lemma MixedIsNotWhole(t: Table, file: FileKey, digest: Digest, uploads: set<Upload>)
    requires Mixed(t, file)
    ensures !Whole(t, file, digest, uploads)
  {
  }

  /** What an INSERT makes of a file's rows, as a bag. */
  lemma InsertAdds(digest: Digest, s: Sys, pid: nat, up: Upload, k: nat)
    requires k < |up.blocks|
    ensures var s' := InsertStep(digest, s, pid, up, k, Quiet);
      && s'.procs == s.procs[pid := Inserting(up, k + 1)]
      && multiset(SelectFile(s'.table, up.user, up.file)) ==
         multiset(SelectFile(s.table, up.user, up.file))
         + multiset{Row(up.user, up.file, digest(up.blocks[k]), k, up.version, 0)}
  {
    WhereInsert(s.table, 0, Row(up.user, up.file, digest(up.blocks[k]), k, up.version, 0), FileIs(up.user, up.file));
    assert Min(Quiet.position, |s.table|) == 0;
  }

  lemma OneRow(rows: Table, r: Row)
    requires multiset(rows) == multiset{r}
    ensures rows == [r]
  {
    assert |multiset(rows)| == |rows| == 1;
    assert rows[0] in multiset(rows);
  }

  /** The next INSERT of a commit that lost its first k rows. */
  lemma RowsWithoutFirst(digest: Digest, s: Sys, q: nat)
    requires q in s.procs && s.procs[q].Inserting? && 0 < s.procs[q].k < |s.procs[q].up.blocks|
    requires var up := s.procs[q].up; SelectFile(s.table, up.user, up.file) == []
    ensures var up := s.procs[q].up;
      Mixed(Next(digest, s, Advance(q, Quiet)).table, FileKey(up.user, up.file))
  {
    var Inserting(up, k) := s.procs[q];
    var t' := InsertStep(digest, s, q, up, k, Quiet).table;
    var r := Row(up.user, up.file, digest(up.blocks[k]), k, up.version, 0);
    InsertAdds(digest, s, q, up, k);
    OneRow(SelectFile(t', up.user, up.file), r);
    forall e
      ensures !Holds([r], e)
    {
      LastNumber([r], e);
    }
  }

  /** Two rows that both carry the first number. */
  lemma TwoZeros(rows: Table, ra: Row, rb: Row, e: Entry)
    requires multiset(rows) == multiset{ra, rb} && ra.blockNumber == rb.blockNumber == 0
    ensures |rows| == 2 && !Holds(rows, e)
  {
    assert |multiset(rows)| == |rows|;
    forall r | r in rows
      ensures r.blockNumber == 0
    {
      assert r in multiset(rows);
    }
    LastNumber(rows, e);
  }

  lemma TwoZerosAreMixed(t: Table, file: FileKey, ra: Row, rb: Row)
    requires multiset(SelectFile(t, file.user, file.name)) == multiset{ra, rb}
    requires ra.blockNumber == rb.blockNumber == 0
    ensures Mixed(t, file)
  {
    forall e: Entry
      ensures |SelectFile(t, file.user, file.name)| == 2 && !Holds(SelectFile(t, file.user, file.name), e)
    {
      TwoZeros(SelectFile(t, file.user, file.name), ra, rb, e);
    }
    TwoZeros(SelectFile(t, file.user, file.name), ra, rb, Entry(0, []));
  }

  /** The first INSERTs of two commits of one file. */
  lemma TwoFirstRows(digest: Digest, s: Sys, q: nat, p: nat)
    requires q in s.procs && p in s.procs && p != q
    requires s.procs[q].Inserting? && s.procs[q].k == 0 && s.procs[q].up.blocks != []
    requires s.procs[p].Inserting? && s.procs[p].k == 0 && s.procs[p].up.blocks != []
    requires FileKey(s.procs[q].up.user, s.procs[q].up.file) == FileKey(s.procs[p].up.user, s.procs[p].up.file)
    requires var up := s.procs[q].up; SelectFile(s.table, up.user, up.file) == []
    ensures var up := s.procs[q].up;
      Mixed(Next(digest, Next(digest, s, Advance(q, Quiet)), Advance(p, Quiet)).table, FileKey(up.user, up.file))
  {
    var a, b := s.procs[q].up, s.procs[p].up;
    var s1 := InsertStep(digest, s, q, a, 0, Quiet);
    var s2 := InsertStep(digest, s1, p, b, 0, Quiet);
    InsertAdds(digest, s, q, a, 0);
    InsertAdds(digest, s1, p, b, 0);
    assert Next(digest, s, Advance(q, Quiet)) == s1 && Next(digest, s1, Advance(p, Quiet)) == s2;
    TwoZerosAreMixed(s2.table, FileKey(a.user, a.file),
                     Row(a.user, a.file, digest(a.blocks[0]), 0, a.version, 0),
                     Row(b.user, b.file, digest(b.blocks[0]), 0, b.version, 0));
  }

  /** The processes after a DELETE that hits. */
  lemma AfterHit(digest: Digest, s: Sys, a: Action, q: nat)
    requires HitsAt(s, a, q)
    ensures var file, s' := Deleted(s, a).value, Next(digest, s, a);
      && SelectFile(s'.table, file.user, file.name) == []
      && q in s'.procs && s'.procs[q] == s.procs[q]
      && (a.Advance? ==> a.pid != q && a.pid in s'.procs && s'.procs[a.pid] == Inserting(s.procs[a.pid].up, 0))
  {
    var file := Deleted(s, a).value;
    DeleteRemoves(s.table, file.user, file.name);
  }

  lemma HitFreeSnoc(digest: Digest, run: seq<Action>, a: Action, from: nat)
    requires HitFree(digest, run, from) && !Hits(Exec(digest, run), a)
    ensures HitFree(digest, run + [a], from)
  {
    assert (run + [a])[..|run|] == run;
  }

  /** An INSERT deletes nothing. */
  lemma InsertHitsNothing(s: Sys, q: nat)
    requires q in s.procs && s.procs[q].Inserting?
    ensures !Hits(s, Advance(q, Quiet))
  {
    assert Deleted(s, Advance(q, Quiet)).None?;
  }

  /** From a hit the next INSERTs, one of each commit at most, leave rows of no list. */
  lemma HitSpoils(digest: Digest, run: seq<Action>, a: Action, q: nat) returns (more: seq<Action>)
    requires HitsAt(Exec(digest, run), a, q)
    ensures HitFree(digest, run + [a] + more, |run| + 1)
    ensures Mixed(Exec(digest, run + [a] + more).table, Deleted(Exec(digest, run), a).value)
  {
    var s := Exec(digest, run);
    var run1, s1, first := run + [a], Next(digest, s, a), Advance(q, Quiet);
    ExecSnoc(digest, run, a);
    AfterHit(digest, s, a, q);
    InsertHitsNothing(s1, q);
    HitFreeSnoc(digest, run1, first, |run| + 1);
    ExecSnoc(digest, run1, first);
    if s.procs[q].k > 0 {
      more := [first];
      RowsWithoutFirst(digest, s1, q);
    } else {
      var second, run2 := Advance(a.pid, Quiet), run1 + [first];
      more := [first, second];
      TwoFirstRows(digest, s1, q, a.pid);
      InsertHitsNothing(Next(digest, s1, first), a.pid);
      HitFreeSnoc(digest, run2, second, |run| + 1);
      ExecSnoc(digest, run2, second);
      assert run + [a] + more == run2 + [second];
    }
  }

  lemma {:induction false} HitFreeTogether(digest: Digest, run: seq<Action>, n: nat)
    requires n <= |run| && HitFree(digest, run[..n], 0) && HitFree(digest, run, n)
    ensures HitFree(digest, run, 0)
  {
    if n == |run| {
      assert run[..n] == run;
    } else {
      assert run[..|run| - 1][..n] == run[..n];
      HitFreeTogether(digest, run[..|run| - 1], n);
    }
  }

  /** Every file is whole in whatever follows this run without hits. */
  ghost predicate StaysWhole(digest: Digest, run: seq<Action>) {
    forall longer | run <= longer && HitFree(digest, longer, |run|) ::
      AllWhole(Exec(digest, longer).table, digest, Uploads(longer))
  }

  lemma WholeAfter(digest: Digest, run: seq<Action>, longer: seq<Action>)
    requires HitFree(digest, run, 0) && run <= longer && HitFree(digest, longer, |run|)
    ensures AllWhole(Exec(digest, longer).table, digest, Uploads(longer))
  {
    assert longer[..|run|] == run;
    HitFreeTogether(digest, longer, |run|);
    HitFreeKeepsRows(digest, longer);
  }

  lemma NoHitStaysWhole(digest: Digest, run: seq<Action>, a: Action)
    requires HitFree(digest, run, 0) && !Hits(Exec(digest, run), a)
    ensures StaysWhole(digest, run + [a])
  {
    HitFreeSnoc(digest, run, a, 0);
    forall longer | run + [a] <= longer && HitFree(digest, longer, |run + [a]|)
      ensures AllWhole(Exec(digest, longer).table, digest, Uploads(longer))
    {
      WholeAfter(digest, run + [a], longer);
    }
  }

  lemma HitDoesNotStayWhole(digest: Digest, run: seq<Action>, a: Action, q: nat)
    requires HitsAt(Exec(digest, run), a, q)
    ensures !StaysWhole(digest, run + [a])
  {
    var more := HitSpoils(digest, run, a, q);
    var longer := run + [a] + more;
    assert run + [a] <= longer && |run + [a]| == |run| + 1;
    MixedIsNotWhole(Exec(digest, longer).table, Deleted(Exec(digest, run), a).value, digest, Uploads(longer));
  }

  /**
   The guard is exact.  After a run without hits, one more action is no hit exactly when every
   file stays whole in whatever follows without hits.
   */
  lemma WholeIffNoHit(digest: Digest, run: seq<Action>, a: Action)
    requires HitFree(digest, run, 0)
    ensures !Hits(Exec(digest, run), a) <==> StaysWhole(digest, run + [a])
  {
    if q :| HitsAt(Exec(digest, run), a, q) {
      HitDoesNotStayWhole(digest, run, a, q);
    } else {
      NoHitStaysWhole(digest, run, a);
    }
  }
}

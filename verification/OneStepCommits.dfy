/**
 When may a commit be taken as one step?  The statement-level machine beside a map in which a
 commit takes effect as a whole at its DELETE, and the exact guard under which a step keeps the
 two together.
 */
module OneStepCommits {
  import opened Basics
  import opened FileBlockTable
  import opened MetadataSpec
  import opened UploadMachine
  import opened WholeFiles

  function KeyOf(up: Upload): FileKey {
    FileKey(up.user, up.file)
  }

  // ---------------------------------------------------- one-step commits

  /** What each file is after one-step commits, and the process that still inserts it. */
  datatype Spec = Spec(files: Catalog, busy: map<FileKey, nat>)

  /** A commit happens at its DELETE; one that stops early leaves what it had inserted. */
  function SpecStep(digest: Digest, spec: Spec, pid: nat, p: Phase): Spec {
    match p
    case Deleting(up) =>
      Spec(Put(spec.files, KeyOf(up), Entry(up.version, HashesOf(digest, up.blocks))),
           if up.blocks == [] then spec.busy else spec.busy[KeyOf(up) := pid])
    case Inserting(up, k) => if k + 1 == |up.blocks| then spec.(busy := spec.busy - {KeyOf(up)}) else spec
    case _ => spec
  }

  function SpecNext(digest: Digest, s: Sys, spec: Spec, a: Action): Spec {
    match a
    case Remove(u, f) => spec.(files := spec.files - {FileKey(u, f)})
    case Advance(pid, _) => if pid in s.procs then SpecStep(digest, spec, pid, s.procs[pid]) else spec
    case Abort(pid) =>
      if pid in s.procs && s.procs[pid].Inserting? && Committing(s.procs[pid]) then
        var Inserting(up, k) := s.procs[pid];
        Spec(Put(spec.files, KeyOf(up), EntryOf(digest, up, k)), spec.busy - {KeyOf(up)})
      else spec
    case _ => spec
  }

  // ------------------------------------------------------------ the guard

  /**
   The action and process q, between its check and its last INSERT, get in each other's way:
   a DELETE of the file q inserts, or one after which q's version would no longer pass the check;
   the check of a first version while q has deleted the rows and inserted none; and the end of a
   commit that had inserted nothing, while q relies on its version.
   */
  predicate ClashesAt(s: Sys, a: Action, q: nat) {
    && q in s.procs && Committing(s.procs[q])
    && var p := s.procs[q];
       match a
       case Remove(u, f) => KeyOf(p.up) == FileKey(u, f) && (p.Deleting? ==> p.up.version != 0)
       case Advance(pid, _) => pid in s.procs && pid != q && StepClashes(s.procs[pid], p)
       case Abort(pid) =>
         && pid in s.procs && pid != q
         && s.procs[pid].Inserting? && Committing(s.procs[pid]) && s.procs[pid].k == 0
         && KeyOf(s.procs[pid].up) == KeyOf(p.up) && p.Deleting?
       case _ => false
  }

  predicate StepClashes(r: Phase, p: Phase)
    requires Committing(p)
  {
    match r
    case Deleting(up) =>
      && KeyOf(up) == KeyOf(p.up)
      && (p.Deleting? ==> if up.blocks == [] then p.up.version != 0 else p.up.version <= up.version)
    case Checking(up) => KeyOf(up) == KeyOf(p.up) && up.version == 0 && p.Inserting? && p.k == 0
    case _ => false
  }

  ghost predicate Clashes(s: Sys, a: Action) {
    exists q :: ClashesAt(s, a, q)
  }

  // --------------------------------------------------------- the relation

  /** The rows of a file are the map's entry, or as much of it as its commit has inserted. */
  ghost predicate FileOk(digest: Digest, s: Sys, spec: Spec, file: FileKey) {
    var rows := SelectFile(s.table, file.user, file.name);
    if file in spec.busy then
      var q := spec.busy[file];
      && q in s.procs && Unfinished(s.procs[q], file)
      && file in spec.files && spec.files[file] == EntryOf(digest, s.procs[q].up, |s.procs[q].up.blocks|)
      && Holds(rows, EntryOf(digest, s.procs[q].up, s.procs[q].k))
    else if file in spec.files then spec.files[file].hashes != [] && Holds(rows, spec.files[file])
    else rows == []
  }

  /** A commit about to take effect passes the check on the map, and one that inserts is alone. */
  predicate ProcOk(spec: Spec, pid: nat, p: Phase) {
    && (p.Deleting? ==> MayCommit(spec.files, KeyOf(p.up), p.up.version))
    && (p.Inserting? && p.k < |p.up.blocks| ==> KeyOf(p.up) in spec.busy && spec.busy[KeyOf(p.up)] == pid)
  }

  ghost predicate Refines(digest: Digest, s: Sys, spec: Spec) {
    && (forall file :: FileOk(digest, s, spec, file))
    && (forall p | p in s.procs :: ProcOk(spec, p, s.procs[p]))
  }

  // ------------------------------------------------- what a reader sees

  /** The rows of a file read back as the map's entry, or as the first part of it. */
  lemma ReadsPrefix(digest: Digest, s: Sys, spec: Spec, file: FileKey)
    requires FileOk(digest, s, spec, file)
    ensures var list := BlockListOf(s.table, file.user, file.name);
      if file in spec.files
      then list <= spec.files[file].hashes && (file !in spec.busy ==> list == spec.files[file].hashes)
      else list == []
    ensures forall r | r in SelectFile(s.table, file.user, file.name) ::
              file in spec.files && r.version == spec.files[file].version
  {
    if file in spec.busy {
      var Inserting(up, k) := s.procs[spec.busy[file]];
      HoldsGivesList(s.table, file.user, file.name, EntryOf(digest, up, k));
      assert HashesOf(digest, up.blocks)[..|up.blocks|] == HashesOf(digest, up.blocks);
    } else if file in spec.files {
      HoldsGivesList(s.table, file.user, file.name, spec.files[file]);
    }
  }

  /** The check on the rows is the check on the map, but for the moment after a DELETE. */
  lemma ChecksTheMapIff(digest: Digest, s: Sys, spec: Spec, up: Upload)
    requires FileOk(digest, s, spec, KeyOf(up))
    ensures var file := KeyOf(up);
      (Accepts(s.table, up.user, up.file, up.version) <==> MayCommit(spec.files, file, up.version)) <==>
      !(file in spec.busy && s.procs[spec.busy[file]].k == 0
        && (up.version == 0 || spec.files[file].version < up.version))
  {
    var file, rows := KeyOf(up), SelectFile(s.table, up.user, up.file);
    ReadsPrefix(digest, s, spec, file);
    if file in spec.busy {
      var Inserting(other, k) := s.procs[spec.busy[file]];
      RowsLeft(rows, EntryOf(digest, other, k));
      assert rows != [] ==> rows[0] in rows;
    } else if file in spec.files {
      RowsLeft(rows, spec.files[file]);
      assert rows[0] in rows;
    }
  }

  lemma RowsLeft(rows: Table, e: Entry)
    requires Holds(rows, e)
    ensures |rows| == |e.hashes|
  {
    assert |multiset(Cells(rows))| == |rows| && |multiset(Numbered(e))| == |e.hashes|;
  }

  // --------------------------------------------------------- single steps

  /** Everything that a file's part of the relation reads is as before. */
  lemma FileStays(digest: Digest, s: Sys, spec: Spec, s': Sys, spec': Spec, file: FileKey)
    requires FileOk(digest, s, spec, file)
    requires SelectFile(s'.table, file.user, file.name) == SelectFile(s.table, file.user, file.name)
    requires (file in spec'.files <==> file in spec.files) && (file in spec'.busy <==> file in spec.busy)
    requires file in spec.files ==> spec'.files[file] == spec.files[file]
    requires file in spec.busy ==>
      var q := spec.busy[file]; spec'.busy[file] == q && q in s'.procs && s'.procs[q] == s.procs[q]
    ensures FileOk(digest, s', spec', file)
  {
  }

  /** The rows after a DELETE. */
  lemma AfterDelete(t: Table, file: FileKey)
    ensures var t' := DeleteFile(t, file.user, file.name);
      && SelectFile(t', file.user, file.name) == []
      && forall g: FileKey | g != file :: SelectFile(t', g.user, g.name) == SelectFile(t, g.user, g.name)
  {
    DeleteRemoves(t, file.user, file.name);
    forall g: FileKey | g != file
      ensures SelectFile(DeleteFile(t, file.user, file.name), g.user, g.name) == SelectFile(t, g.user, g.name)
    {
      DeleteKeepsOthers(t, file.user, file.name, g.user, g.name);
    }
  }

  /** A file that some process inserts is hit by any other DELETE. */
  lemma NotBusy(digest: Digest, s: Sys, spec: Spec, a: Action, file: FileKey)
    requires FileOk(digest, s, spec, file) && !Clashes(s, a) && Deleted(s, a) == Some(file)
    ensures file !in spec.busy
  {
    if file in spec.busy {
      assert ClashesAt(s, a, spec.busy[file]);
    }
  }

  lemma DeleteLeavesFiles(digest: Digest, s: Sys, spec: Spec, pid: nat, env: Env, g: FileKey)
    requires pid in s.procs && s.procs[pid].Deleting? && KeyOf(s.procs[pid].up) !in spec.busy
    requires FileOk(digest, s, spec, g)
    ensures FileOk(digest, Next(digest, s, Advance(pid, env)), SpecNext(digest, s, spec, Advance(pid, env)), g)
  {
    var a, up := Advance(pid, env), s.procs[pid].up;
    AfterDelete(s.table, KeyOf(up));
    if g == KeyOf(up) {
      EmptyHolds(digest, up);
      assert HashesOf(digest, up.blocks)[..|up.blocks|] == HashesOf(digest, up.blocks);
    } else {
      FileStays(digest, s, spec, Next(digest, s, a), SpecNext(digest, s, spec, a), g);
    }
  }

  lemma DeleteRefines(digest: Digest, s: Sys, spec: Spec, pid: nat, env: Env)
    requires Refines(digest, s, spec) && pid in s.procs && s.procs[pid].Deleting?
    requires !Clashes(s, Advance(pid, env))
    ensures Refines(digest, Next(digest, s, Advance(pid, env)), SpecNext(digest, s, spec, Advance(pid, env)))
  {
    var a, file := Advance(pid, env), KeyOf(s.procs[pid].up);
    var s', spec' := Next(digest, s, a), SpecNext(digest, s, spec, a);
    assert FileOk(digest, s, spec, file);
    NotBusy(digest, s, spec, a, file);
    forall g
      ensures FileOk(digest, s', spec', g)
    {
      DeleteLeavesFiles(digest, s, spec, pid, env, g);
    }
    forall q | q in s'.procs
      ensures ProcOk(spec', q, s'.procs[q])
    {
      assert q in s.procs && ProcOk(spec, q, s.procs[q]) && !ClashesAt(s, a, q);
    }
  }

  lemma RemoveRefines(digest: Digest, s: Sys, spec: Spec, u: string, f: string)
    requires Refines(digest, s, spec) && !Clashes(s, Remove(u, f))
    ensures Refines(digest, Next(digest, s, Remove(u, f)), SpecNext(digest, s, spec, Remove(u, f)))
  {
    var a, file := Remove(u, f), FileKey(u, f);
    var s', spec' := Next(digest, s, a), SpecNext(digest, s, spec, a);
    AfterDelete(s.table, file);
    assert FileOk(digest, s, spec, file);
    NotBusy(digest, s, spec, a, file);
    forall g
      ensures FileOk(digest, s', spec', g)
    {
      assert FileOk(digest, s, spec, g);
      if g != file {
        FileStays(digest, s, spec, s', spec', g);
      }
    }
    forall q | q in s'.procs
      ensures ProcOk(spec', q, s'.procs[q])
    {
      assert ProcOk(spec, q, s.procs[q]) && !ClashesAt(s, a, q);
    }
  }

  lemma InsertRefines(digest: Digest, s: Sys, spec: Spec, pid: nat, env: Env)
    requires Refines(digest, s, spec) && pid in s.procs
    requires s.procs[pid].Inserting? && s.procs[pid].k < |s.procs[pid].up.blocks|
    ensures Refines(digest, Next(digest, s, Advance(pid, env)), SpecNext(digest, s, spec, Advance(pid, env)))
  {
    var a, up, k := Advance(pid, env), s.procs[pid].up, s.procs[pid].k;
    var file, s', spec' := KeyOf(up), Next(digest, s, a), SpecNext(digest, s, spec, a);
    assert ProcOk(spec, pid, s.procs[pid]) && FileOk(digest, s, spec, file);
    InsertNext(digest, s, pid, env);
    forall g
      ensures FileOk(digest, s', spec', g)
    {
      assert FileOk(digest, s, spec, g);
      if g != file {
        FileStays(digest, s, spec, s', spec', g);
      } else if k + 1 == |up.blocks| {
        assert spec'.files[file].hashes != [];
      }
    }
    forall q | q in s'.procs
      ensures ProcOk(spec', q, s'.procs[q])
    {
      assert ProcOk(spec, q, s.procs[q]);
    }
  }

  lemma AbortRefines(digest: Digest, s: Sys, spec: Spec, pid: nat)
    requires Refines(digest, s, spec) && !Clashes(s, Abort(pid)) && pid in s.procs
    requires s.procs[pid].Inserting? && s.procs[pid].k < |s.procs[pid].up.blocks|
    ensures Refines(digest, Next(digest, s, Abort(pid)), SpecNext(digest, s, spec, Abort(pid)))
  {
    var a, up, k := Abort(pid), s.procs[pid].up, s.procs[pid].k;
    var file, s', spec' := KeyOf(up), Next(digest, s, a), SpecNext(digest, s, spec, a);
    assert ProcOk(spec, pid, s.procs[pid]) && FileOk(digest, s, spec, file);
    forall g
      ensures FileOk(digest, s', spec', g)
    {
      assert FileOk(digest, s, spec, g);
      if g != file {
        FileStays(digest, s, spec, s', spec', g);
      } else {
        RowsLeft(SelectFile(s.table, up.user, up.file), EntryOf(digest, up, k));
      }
    }
    AbortLeavesProcs(digest, s, spec, pid);
  }

  lemma AbortLeavesProcs(digest: Digest, s: Sys, spec: Spec, pid: nat)
    requires Refines(digest, s, spec) && !Clashes(s, Abort(pid)) && pid in s.procs
    requires s.procs[pid].Inserting? && s.procs[pid].k < |s.procs[pid].up.blocks|
    ensures var s', spec' := Next(digest, s, Abort(pid)), SpecNext(digest, s, spec, Abort(pid));
      forall q | q in s'.procs :: ProcOk(spec', q, s'.procs[q])
  {
    var s', spec' := Next(digest, s, Abort(pid)), SpecNext(digest, s, spec, Abort(pid));
    assert ProcOk(spec, pid, s.procs[pid]) && FileOk(digest, s, spec, KeyOf(s.procs[pid].up));
    forall q | q in s'.procs
      ensures ProcOk(spec', q, s'.procs[q])
    {
      assert ProcOk(spec, q, s.procs[q]) && !ClashesAt(s, Abort(pid), q);
    }
  }

  lemma CheckRefines(digest: Digest, s: Sys, spec: Spec, pid: nat, env: Env)
    requires Refines(digest, s, spec) && pid in s.procs && s.procs[pid].Checking?
    requires !Clashes(s, Advance(pid, env))
    ensures Refines(digest, Next(digest, s, Advance(pid, env)), SpecNext(digest, s, spec, Advance(pid, env)))
  {
    var a, up := Advance(pid, env), s.procs[pid].up;
    var s' := Next(digest, s, a);
    assert FileOk(digest, s, spec, KeyOf(up));
    if Accepts(s.table, up.user, up.file, up.version) {
      AcceptedMayCommit(digest, s, spec, a, up);
    }
    SameFiles(digest, s, spec, s');
    forall q | q in s'.procs
      ensures ProcOk(spec, q, s'.procs[q])
    {
      assert ProcOk(spec, q, s.procs[q]);
    }
  }

  lemma AcceptedMayCommit(digest: Digest, s: Sys, spec: Spec, a: Action, up: Upload)
    requires FileOk(digest, s, spec, KeyOf(up)) && Accepts(s.table, up.user, up.file, up.version)
    requires a.Advance? && a.pid in s.procs && s.procs[a.pid] == Checking(up) && !Clashes(s, a)
    ensures MayCommit(spec.files, KeyOf(up), up.version)
  {
    var file := KeyOf(up);
    ChecksTheMapIff(digest, s, spec, up);
    if file in spec.busy {
      var Inserting(other, k) := s.procs[spec.busy[file]];
      RowsLeft(SelectFile(s.table, up.user, up.file), EntryOf(digest, other, k));
      assert !ClashesAt(s, a, spec.busy[file]);
    }
  }

  /** Table and inserting processes as before. */
  lemma SameFiles(digest: Digest, s: Sys, spec: Spec, s': Sys)
    requires Refines(digest, s, spec) && s'.table == s.table
    requires forall p | p in s.procs && s.procs[p].Inserting? && Committing(s.procs[p]) ::
               p in s'.procs && s'.procs[p] == s.procs[p]
    ensures forall file :: FileOk(digest, s', spec, file)
  {
    forall file
      ensures FileOk(digest, s', spec, file)
    {
      assert FileOk(digest, s, spec, file);
    }
  }

  /** The uploads that processes handle. */
  function Handled(s: Sys): set<Upload> {
    set p | p in s.procs && HasUpload(s.procs[p]) :: s.procs[p].up
  }

  predicate HasUpload(p: Phase) {
    p.Querying? || p.Sending? || p.Checking? || p.Deleting? || p.Inserting?
  }

  lemma BesideRefines(digest: Digest, s: Sys, spec: Spec, a: Action)
    requires Refines(digest, s, spec) && Beside(s, a)
    ensures Refines(digest, Next(digest, s, a), SpecNext(digest, s, spec, a))
  {
    var s' := Next(digest, s, a);
    BesideUnmoved(digest, s, a, Handled(s));
    SpecBeside(digest, s, spec, a);
    SameFiles(digest, s, spec, s');
    forall q | q in s'.procs
      ensures ProcOk(spec, q, s'.procs[q])
    {
      assert Committing(s'.procs[q]) ==> ProcOk(spec, q, s.procs[q]);
    }
  }

  lemma SpecBeside(digest: Digest, s: Sys, spec: Spec, a: Action)
    requires Beside(s, a)
    ensures SpecNext(digest, s, spec, a) == spec
  {
  }

  /** Every step that does not clash. */
  lemma StepRefines(digest: Digest, s: Sys, spec: Spec, a: Action)
    requires Refines(digest, s, spec) && !Clashes(s, a)
    ensures Refines(digest, Next(digest, s, a), SpecNext(digest, s, spec, a))
  {
    if Beside(s, a) {
      BesideRefines(digest, s, spec, a);
    } else if a.Remove? {
      RemoveRefines(digest, s, spec, a.user, a.file);
    } else if a.Abort? {
      AbortRefines(digest, s, spec, a.pid);
    } else if s.procs[a.pid].Checking? {
      CheckRefines(digest, s, spec, a.pid, a.env);
    } else if s.procs[a.pid].Deleting? {
      DeleteRefines(digest, s, spec, a.pid, a.env);
    } else {
      InsertRefines(digest, s, spec, a.pid, a.env);
    }
  }

  // ------------------------------------------------------ the guard is exact

  /** A first version accepted while the rows are away is none for the map. */
  lemma CheckParts(digest: Digest, s: Sys, spec: Spec, a: Action, q: nat)
    requires Refines(digest, s, spec) && ClashesAt(s, a, q)
    requires a.Advance? && a.pid in s.procs && s.procs[a.pid].Checking?
    ensures !Refines(digest, Next(digest, s, a), SpecNext(digest, s, spec, a))
  {
    var s', p := Next(digest, s, a), s.procs[q];
    assert ProcOk(spec, q, p) && FileOk(digest, s, spec, KeyOf(p.up));
    RowsLeft(SelectFile(s.table, p.up.user, p.up.file), EntryOf(digest, p.up, 0));
    assert !ProcOk(spec, a.pid, s'.procs[a.pid]);
  }

  /** A step that clashes parts the rows from the map. */
  lemma ClashParts(digest: Digest, s: Sys, spec: Spec, a: Action, q: nat)
    requires Refines(digest, s, spec) && ClashesAt(s, a, q)
    ensures !Refines(digest, Next(digest, s, a), SpecNext(digest, s, spec, a))
  {
    if a.Advance? && s.procs[a.pid].Checking? {
      CheckParts(digest, s, spec, a, q);
    } else {
      var s', spec', p := Next(digest, s, a), SpecNext(digest, s, spec, a), s.procs[q];
      assert ProcOk(spec, q, p) && FileOk(digest, s, spec, KeyOf(p.up));
      assert !ProcOk(spec', q, s'.procs[q]) || !FileOk(digest, s', spec', KeyOf(p.up));
    }
  }

  /** From a state in which rows and map go together, the next step keeps them so exactly when it does not clash. */
  lemma StepRefinesIff(digest: Digest, s: Sys, spec: Spec, a: Action)
    requires Refines(digest, s, spec)
    ensures Refines(digest, Next(digest, s, a), SpecNext(digest, s, spec, a)) <==> !Clashes(s, a)
  {
    if q :| ClashesAt(s, a, q) {
      ClashParts(digest, s, spec, a, q);
    } else {
      StepRefines(digest, s, spec, a);
    }
  }

  // ------------------------------------------------------------------ runs

  const NoFiles := Spec(map[], map[])

  function SpecOf(digest: Digest, run: seq<Action>): Spec {
    if run == [] then NoFiles
    else
      var before := run[..|run| - 1];
      SpecNext(digest, Exec(digest, before), SpecOf(digest, before), run[|run| - 1])
  }

  ghost predicate ClashFree(digest: Digest, run: seq<Action>) {
    run == [] ||
    var before := run[..|run| - 1];
    ClashFree(digest, before) && !Clashes(Exec(digest, before), run[|run| - 1])
  }

  lemma {:induction false} ClashFreeRefines(digest: Digest, run: seq<Action>)
    requires ClashFree(digest, run)
    ensures Refines(digest, Exec(digest, run), SpecOf(digest, run))
  {
    if run == [] {
      assert forall file: FileKey :: SelectFile([], file.user, file.name) == [];
    } else {
      var before := run[..|run| - 1];
      ClashFreeRefines(digest, before);
      StepRefines(digest, Exec(digest, before), SpecOf(digest, before), run[|run| - 1]);
    }
  }

  /**
   In every run without clashes commits are one step: each passes the version check on the map
   when it takes effect, and every file's rows read back as the map's entry, or as the first
   part of it while its commit is still inserting.
   */
  lemma ClashFreeCommitsAreOneStep(digest: Digest, run: seq<Action>, pid: nat, file: FileKey)
    requires ClashFree(digest, run)
    ensures var s, spec := Exec(digest, run), SpecOf(digest, run);
      && (pid in s.procs && s.procs[pid].Deleting? ==>
            MayCommit(spec.files, KeyOf(s.procs[pid].up), s.procs[pid].up.version))
      && var list := BlockListOf(s.table, file.user, file.name);
         if file in spec.files
         then list <= spec.files[file].hashes && (file !in spec.busy ==> list == spec.files[file].hashes)
         else list == []
  {
    ClashFreeRefines(digest, run);
    var s, spec := Exec(digest, run), SpecOf(digest, run);
    assert FileOk(digest, s, spec, file);
    assert pid in s.procs ==> ProcOk(spec, pid, s.procs[pid]);
    ReadsPrefix(digest, s, spec, file);
  }

  /** So versions only go up while a file is there. */
  lemma ClashFreeVersions(digest: Digest, run: seq<Action>, a: Action, file: FileKey)
    requires ClashFree(digest, run + [a])
    ensures var spec, spec' := SpecOf(digest, run), SpecOf(digest, run + [a]);
      file in spec.files && file in spec'.files ==>
        spec'.files[file] == spec.files[file] || spec.files[file].version < spec'.files[file].version ||
        (spec'.files[file].version == spec.files[file].version && spec'.files[file].hashes <= spec.files[file].hashes)
  {
    assert (run + [a])[..|run|] == run;
    ClashFreeRefines(digest, run);
    var s, spec := Exec(digest, run), SpecOf(digest, run);
    assert FileOk(digest, s, spec, file);
    if (a.Advance? || a.Abort?) && a.pid in s.procs {
      assert ProcOk(spec, a.pid, s.procs[a.pid]);
    }
  }
}

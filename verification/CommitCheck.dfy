/**
 No lost update at the level of single statements: what the version check decides in runs in
 which commits do not clash.
 */
module CommitCheck {
  import opened Basics
  import opened FileBlockTable
  import opened MetadataSpec
  import opened UploadMachine
  import opened WholeFiles
  import opened OneStepCommits

  // ----------------------------------------------- what happens to a file

  /** A DELETE of the file that takes rows away or is followed by rows of its own. */
  predicate Touches(s: Sys, a: Action, file: FileKey) {
    Deleted(s, a) == Some(file) && (SelectFile(s.table, file.user, file.name) != [] || BringsRows(s, a))
  }

  /** The file is left without rows: by a removal, or by the end of a commit that had inserted none. */
  predicate Drops(s: Sys, a: Action, file: FileKey) {
    || (Deleted(s, a) == Some(file) && SelectFile(s.table, file.user, file.name) != [] && !BringsRows(s, a))
    || (a.Abort? && a.pid in s.procs && Unfinished(s.procs[a.pid], file) && s.procs[a.pid].k == 0)
  }

  /** Some step from `from` on touches the file. */
  predicate Touched(digest: Digest, run: seq<Action>, from: nat, file: FileKey) {
    |run| > from &&
    var before := run[..|run| - 1];
    Touched(digest, before, from, file) || Touches(Exec(digest, before), run[|run| - 1], file)
  }

  predicate Dropped(digest: Digest, run: seq<Action>, from: nat, file: FileKey) {
    |run| > from &&
    var before := run[..|run| - 1];
    Dropped(digest, before, from, file) || Drops(Exec(digest, before), run[|run| - 1], file)
  }

  /** The version after the one listed; a file without rows starts at 0. */
  function NextListed(t: Table, file: FileKey): nat {
    var rows := SelectFile(t, file.user, file.name);
    if rows == [] then 0 else rows[0].version + 1
  }

  /** A commit has deleted the file's rows and inserted none yet. */
  predicate Window(s: Sys, file: FileKey) {
    exists q | q in s.procs :: Unfinished(s.procs[q], file) && s.procs[q].k == 0
  }

  // --------------------------------------------------------- invariant

  function NextOf(spec: Spec, file: FileKey): nat {
    if file in spec.files then spec.files[file].version + 1 else 0
  }

  /** Untouched, the file still expects `next`; touched, it has that version or a later one, or was dropped. */
  predicate Since(s: Sys, spec: Spec, file: FileKey, next: nat, touched: bool, dropped: bool) {
    if touched then dropped || (file in spec.files && next <= spec.files[file].version)
    else
      && next == NextOf(spec, file)
      && (file in spec.busy ==>
            var q := spec.busy[file]; q in s.procs && Unfinished(s.procs[q], file) && s.procs[q].k > 0)
  }

  lemma SinceListing(digest: Digest, s: Sys, spec: Spec, file: FileKey)
    requires FileOk(digest, s, spec, file) && !Window(s, file)
    ensures Since(s, spec, file, NextListed(s.table, file), false, false)
  {
    var rows := SelectFile(s.table, file.user, file.name);
    ReadsPrefix(digest, s, spec, file);
    assert rows != [] ==> rows[0] in rows;
    if file in spec.busy {
      RowsLeft(rows, EntryOf(digest, s.procs[spec.busy[file]].up, s.procs[spec.busy[file]].k));
    } else if file in spec.files {
      RowsLeft(rows, spec.files[file]);
    }
  }

  /** A DELETE of the file, by a removal or a commit. */
  lemma SinceDelete(digest: Digest, s: Sys, spec: Spec, a: Action, file: FileKey,
                    next: nat, touched: bool, dropped: bool)
    requires Refines(digest, s, spec) && !Clashes(s, a) && Deleted(s, a) == Some(file)
    requires Since(s, spec, file, next, touched, dropped)
    ensures Since(Next(digest, s, a), SpecNext(digest, s, spec, a), file, next,
                  touched || Touches(s, a, file), dropped || Drops(s, a, file))
  {
    assert FileOk(digest, s, spec, file);
    NotBusy(digest, s, spec, a, file);
    if file in spec.files {
      RowsLeft(SelectFile(s.table, file.user, file.name), spec.files[file]);
    }
    if a.Advance? {
      assert ProcOk(spec, a.pid, s.procs[a.pid]);
    }
  }

  /** Another file's DELETE. */
  lemma SinceOtherDelete(digest: Digest, s: Sys, spec: Spec, a: Action, file: FileKey,
                         next: nat, touched: bool, dropped: bool)
    requires Deleted(s, a).Some? && Deleted(s, a) != Some(file) && Since(s, spec, file, next, touched, dropped)
    ensures Since(Next(digest, s, a), SpecNext(digest, s, spec, a), file, next, touched, dropped)
  {
  }

  /** A check, an INSERT or the end of a commit. */
  lemma SinceCommitStep(digest: Digest, s: Sys, spec: Spec, a: Action, file: FileKey,
                        next: nat, touched: bool, dropped: bool)
    requires Refines(digest, s, spec) && !Beside(s, a) && Deleted(s, a).None?
    requires Since(s, spec, file, next, touched, dropped)
    ensures Since(Next(digest, s, a), SpecNext(digest, s, spec, a), file, next, touched, dropped || Drops(s, a, file))
  {
    assert FileOk(digest, s, spec, file) && ProcOk(spec, a.pid, s.procs[a.pid]);
  }

  lemma SinceBeside(digest: Digest, s: Sys, spec: Spec, a: Action, file: FileKey,
                    next: nat, touched: bool, dropped: bool)
    requires Refines(digest, s, spec) && Beside(s, a) && Since(s, spec, file, next, touched, dropped)
    ensures Since(Next(digest, s, a), SpecNext(digest, s, spec, a), file, next, touched, dropped)
  {
    BesideUnmoved(digest, s, a, Handled(s));
    SpecBeside(digest, s, spec, a);
  }

  lemma SinceStep(digest: Digest, s: Sys, spec: Spec, a: Action, file: FileKey, next: nat, touched: bool, dropped: bool)
    requires Refines(digest, s, spec) && !Clashes(s, a) && Since(s, spec, file, next, touched, dropped)
    ensures Since(Next(digest, s, a), SpecNext(digest, s, spec, a), file, next,
                  touched || Touches(s, a, file), dropped || Drops(s, a, file))
  {
    if Deleted(s, a) == Some(file) {
      SinceDelete(digest, s, spec, a, file, next, touched, dropped);
    } else if Beside(s, a) {
      SinceBeside(digest, s, spec, a, file, next, touched, dropped);
      assert !Touches(s, a, file) && !Drops(s, a, file);
    } else if Deleted(s, a).Some? {
      SinceOtherDelete(digest, s, spec, a, file, next, touched, dropped);
    } else {
      SinceCommitStep(digest, s, spec, a, file, next, touched, dropped);
    }
  }

  // ------------------------------------------------------------------ runs

  lemma {:induction false} SinceRun(digest: Digest, run: seq<Action>, from: nat, file: FileKey)
    requires ClashFree(digest, run) && from <= |run| && !Window(Exec(digest, run[..from]), file)
    ensures Since(Exec(digest, run), SpecOf(digest, run), file, NextListed(Exec(digest, run[..from]).table, file),
                  Touched(digest, run, from, file), Dropped(digest, run, from, file))
  {
    ClashFreeRefines(digest, run);
    if |run| == from {
      assert run[..from] == run;
      SinceListing(digest, Exec(digest, run), SpecOf(digest, run), file);
    } else {
      var before := run[..|run| - 1];
      assert before[..from] == run[..from];
      SinceRun(digest, before, from, file);
      ClashFreeRefines(digest, before);
      SinceStep(digest, Exec(digest, before), SpecOf(digest, before), run[|run| - 1], file,
                NextListed(Exec(digest, run[..from]).table, file),
                Touched(digest, before, from, file), Dropped(digest, before, from, file));
    }
  }

  /** A check of the next version, when the map says what became of the file. */
  lemma CheckDecides(digest: Digest, s: Sys, spec: Spec, a: Action, up: Upload, touched: bool, dropped: bool)
    requires Refines(digest, s, spec) && !Clashes(s, a)
    requires a.Advance? && a.pid in s.procs && s.procs[a.pid] == Checking(up)
    requires Since(s, spec, KeyOf(up), up.version, touched, dropped)
    requires dropped ==> up.version > 0 && KeyOf(up) !in spec.files
    ensures Accepts(s.table, up.user, up.file, up.version) <==> !touched
  {
    assert FileOk(digest, s, spec, KeyOf(up));
    ChecksTheMapIff(digest, s, spec, up);
    if Accepts(s.table, up.user, up.file, up.version) {
      AcceptedMayCommit(digest, s, spec, a, up);
    }
  }

  /**
   No lost update, for single statements.  A process sends the version after the one it was
   listed, and the file was not dropped since: its check accepts exactly when no DELETE has
   touched the file since the listing.
   */
  lemma AcceptedIffUntouchedSinceRead(digest: Digest, run: seq<Action>, from: nat, pid: nat, env: Env, up: Upload)
    requires ClashFree(digest, run + [Advance(pid, env)]) && from <= |run|
    requires pid in Exec(digest, run).procs && Exec(digest, run).procs[pid] == Checking(up)
    requires up.version == NextListed(Exec(digest, run[..from]).table, KeyOf(up))
    requires !Window(Exec(digest, run[..from]), KeyOf(up)) && !Dropped(digest, run, from, KeyOf(up))
    ensures Accepts(Exec(digest, run).table, up.user, up.file, up.version) <==>
            !Touched(digest, run, from, KeyOf(up))
  {
    assert (run + [Advance(pid, env)])[..|run|] == run;
    ClashFreeRefines(digest, run);
    SinceRun(digest, run, from, KeyOf(up));
    CheckDecides(digest, Exec(digest, run), SpecOf(digest, run), Advance(pid, env), up,
                 Touched(digest, run, from, KeyOf(up)), false);
  }

  // ------------------------------------------------- names that come back

  /** A commit that begins a dropped file anew takes effect. */
  predicate BeginsAnew(digest: Digest, before: seq<Action>, a: Action) {
    var s := Exec(digest, before);
    BringsRows(s, a) && s.procs[a.pid].up.version == 0 && Dropped(digest, before, 0, KeyOf(s.procs[a.pid].up))
  }

  /** No dropped file is begun anew. */
  predicate NoneAnew(digest: Digest, run: seq<Action>) {
    run == [] ||
    var before := run[..|run| - 1];
    NoneAnew(digest, before) && !BeginsAnew(digest, before, run[|run| - 1])
  }

  lemma DroppedStep(digest: Digest, s: Sys, spec: Spec, a: Action, file: FileKey)
    requires Refines(digest, s, spec) && !Clashes(s, a)
    requires Drops(s, a, file) || (file !in spec.files && !(BringsRows(s, a) && KeyOf(s.procs[a.pid].up) == file
                                                            && s.procs[a.pid].up.version == 0))
    ensures file !in SpecNext(digest, s, spec, a).files
  {
    assert FileOk(digest, s, spec, file);
    if a.Advance? && a.pid in s.procs {
      assert ProcOk(spec, a.pid, s.procs[a.pid]);
    } else if a.Abort? && a.pid in s.procs {
      assert ProcOk(spec, a.pid, s.procs[a.pid]);
      assert s.procs[a.pid].Inserting? ==> FileOk(digest, s, spec, KeyOf(s.procs[a.pid].up));
    }
  }

  lemma {:induction false} DroppedStaysAway(digest: Digest, run: seq<Action>, file: FileKey)
    requires ClashFree(digest, run) && NoneAnew(digest, run) && Dropped(digest, run, 0, file)
    ensures file !in SpecOf(digest, run).files
  {
    var before, a := run[..|run| - 1], run[|run| - 1];
    ClashFreeRefines(digest, before);
    if Dropped(digest, before, 0, file) {
      DroppedStaysAway(digest, before, file);
    }
    DroppedStep(digest, Exec(digest, before), SpecOf(digest, before), a, file);
  }

  lemma {:induction false} DroppedEver(digest: Digest, run: seq<Action>, from: nat, file: FileKey)
    requires Dropped(digest, run, from, file)
    ensures Dropped(digest, run, 0, file)
  {
    var before := run[..|run| - 1];
    if Dropped(digest, before, from, file) {
      DroppedEver(digest, before, from, file);
    }
  }

  /**
   The same for a file that may have been dropped, when no dropped file is begun anew: the check
   accepts exactly when no DELETE has touched the file since the listing.
   */
  lemma AcceptedIffUntouched(digest: Digest, run: seq<Action>, from: nat, pid: nat, env: Env, up: Upload)
    requires ClashFree(digest, run + [Advance(pid, env)]) && from <= |run| && NoneAnew(digest, run)
    requires pid in Exec(digest, run).procs && Exec(digest, run).procs[pid] == Checking(up)
    requires up.version == NextListed(Exec(digest, run[..from]).table, KeyOf(up))
    requires !Window(Exec(digest, run[..from]), KeyOf(up))
    requires up.version == 0 ==> !Dropped(digest, run, 0, KeyOf(up))
    ensures Accepts(Exec(digest, run).table, up.user, up.file, up.version) <==>
            !Touched(digest, run, from, KeyOf(up))
  {
    assert (run + [Advance(pid, env)])[..|run|] == run;
    ClashFreeRefines(digest, run);
    SinceRun(digest, run, from, KeyOf(up));
    if Dropped(digest, run, from, KeyOf(up)) {
      DroppedEver(digest, run, from, KeyOf(up));
      DroppedStaysAway(digest, run, KeyOf(up));
    }
    CheckDecides(digest, Exec(digest, run), SpecOf(digest, run), Advance(pid, env), up,
                 Touched(digest, run, from, KeyOf(up)), Dropped(digest, run, from, KeyOf(up)));
  }
}

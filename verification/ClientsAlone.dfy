/**
 What a client of the version machine does when nothing else moves is what the script does for
 one name: the steps of its turn add up to the outcome.
 */
module ClientsAlone {
  import opened Basics
  import opened SyncModel
  import opened VersionMachine

  /** The system has moved for one client and one name, as a run of the script would have it. */
  ghost predicate Turned(s: Sys, s': Sys, c: nat, f: string)
    requires c in s.clients
  {
    && c in s'.clients && s'.clients[c].phase.Idle? && s'.clock == s.clock
    && (forall d | d != c :: d in s.clients <==> d in s'.clients)
    && (forall d | d != c && d in s.clients :: s'.clients[d] == s.clients[d])
    && Counted(s, s', f)
    && var k, k' := s.clients[c], s'.clients[c];
       TurnOf(s.server, k.files, k.saved, true, s'.server, k'.files, k'.saved, f)
  }

  /** A change of the name on the server has been counted, and so has a removal. */
  ghost predicate Counted(s: Sys, s': Sys, f: string) {
    && (forall g | g != f :: HistoryOf(s', g) == HistoryOf(s, g))
    && HistoryOf(s', f) ==
       if Find(s'.server, f) == Find(s.server, f) then HistoryOf(s, f)
       else History(Changes(s, f) + 1, Removals(s, f) + if f in s'.server then 0 else 1)
  }

  /** The actions of a turn with a local file. */
  function LocalActions(s: Sys, c: nat, f: string): seq<Action>
    requires c in s.clients && f in s.clients[c].files
  {
    var k := s.clients[c];
    var start := [ReadList(c, f), Choose(c)];
    match Decide(ListedVersion(Find(s.server, f)), Find(k.saved, f), k.files[f].mtime)
    case Upload(_) => start + [Commit(c), Record(c)]
    case Download => start + [Finish(c), Record(c)]
    case InSync => start
    case DeleteLocal => start + [Drop(c)]
  }

  /** The actions of a turn with a name that is no local file. */
  function ListedActions(s: Sys, c: nat, f: string): seq<Action>
    requires c in s.clients
  {
    if f in s.clients[c].saved then [DeleteRemote(c, f), Drop(c)] else [ReadMissing(c, f), Finish(c), Record(c)]
  }

  lemma OneAction(s: Sys, a: Action)
    ensures Exec(s, [a]) == Next(s, a)
  {
    assert [a][..0] == [];
    assert Exec(s, [a]) == Next(Exec(s, []), a);
  }

  lemma TwoActions(s: Sys, a: Action, b: Action)
    ensures Exec(s, [a, b]) == Next(Next(s, a), b)
  {
    OneAction(s, a);
    assert [a, b][..1] == [a];
  }

  lemma {:induction false} ExecThen(s: Sys, first: seq<Action>, second: seq<Action>)
    ensures Exec(s, first + second) == Exec(Exec(s, first), second)
  {
    if second == [] {
      assert first + second == first;
    } else {
      var n := |second| - 1;
      ExecThen(s, first, second[..n]);
      assert (first + second)[..|first| + n] == first + second[..n];
    }
  }

  /** After the first two actions the decision has been taken. */
  lemma Decided(s: Sys, c: nat, f: string)
    requires c in s.clients && s.clients[c].phase.Idle? && f in s.clients[c].files
    ensures var k := s.clients[c];
      Exec(s, [ReadList(c, f), Choose(c)]) ==
      With(s, c, Chosen(k.(phase := Listed(f, Find(s.server, f), HistoryOf(s, f)))))
  {
    TwoActions(s, ReadList(c, f), Choose(c));
    var k := s.clients[c];
    var listed := k.(phase := Listed(f, Find(s.server, f), HistoryOf(s, f)));
    assert s.clients[c := listed][c := Chosen(listed)] == s.clients[c := Chosen(listed)];
  }

  lemma UploadTurns(s: Sys, c: nat, f: string, version: nat)
    requires c in s.clients && f in s.clients[c].files && s.clients[c].files[f].content != ""
    requires s.clients[c].files[f].mtime <= s.clock
    requires var k := s.clients[c];
      Decide(ListedVersion(Find(s.server, f)), Find(k.saved, f), k.files[f].mtime) == Upload(version)
    ensures var k := s.clients[c];
      var sent := k.(phase := Uploading(f, version, Split(k.files[f].content), k.files[f].content,
                                        Find(s.server, f), HistoryOf(s, f)));
      Turned(s, Exec(With(s, c, sent), [Commit(c), Record(c)]), c, f)
  {
    var k := s.clients[c];
    var content := k.files[f].content;
    var sent := k.(phase := Uploading(f, version, Split(content), content, Find(s.server, f), HistoryOf(s, f)));
    var r, saved' := Remote(version, Split(content)), k.saved[f := Saved(version, s.clock)];
    SplitIsCanonical(content);
    Sent(s, c, sent);
    CommittedCounted(s, f, r);
    assert Committed(s, f, r).server == s.server[f := r];
    PushedTurn(s.server, k.files, k.saved, true, s.server[f := r], saved', f);
  }

  /** Commit and record of an accepted upload. */
  lemma Sent(s: Sys, c: nat, sent: Client)
    requires c in s.clients && sent.phase.Uploading? && MayUpload(s.server, sent.phase.f, sent.phase.version)
    ensures var Uploading(f, version, blocks, _, _, _) := sent.phase;
      Exec(With(s, c, sent), [Commit(c), Record(c)]) ==
      With(Committed(s, f, Remote(version, blocks)), c,
           sent.(saved := sent.saved[f := Saved(version, s.clock)], phase := Idle))
  {
    var Uploading(f, version, blocks, content, _, _) := sent.phase;
    TwoActions(With(s, c, sent), Commit(c), Record(c));
    var told := sent.(phase := Recording(f, version, content));
    var committed := Committed(s, f, Remote(version, blocks));
    assert Next(With(s, c, sent), Commit(c)) == With(committed, c, told) by {
      CommittedWith(s, c, sent, told, f, Remote(version, blocks));
    }
    WithWith(committed, c, told, sent.(saved := sent.saved[f := Saved(version, s.clock)], phase := Idle));
  }

  lemma WithWith(s: Sys, c: nat, k: Client, k': Client)
    ensures With(With(s, c, k), c, k') == With(s, c, k')
  {
    assert s.clients[c := k][c := k'] == s.clients[c := k'];
  }

  /** A commit and the clients' own state are apart. */
  lemma CommittedWith(s: Sys, c: nat, k: Client, k': Client, f: string, r: Remote)
    ensures With(Committed(With(s, c, k), f, r), c, k') == With(Committed(s, f, r), c, k')
  {
    assert s.clients[c := k][c := k'] == s.clients[c := k'];
  }

  lemma CommittedCounted(s: Sys, f: string, r: Remote)
    requires MayUpload(s.server, f, r.version) && r.blocks != []
    ensures Counted(s, Committed(s, f, r), f)
  {
    forall g | g != f
      ensures HistoryOf(Committed(s, f, r), g) == HistoryOf(s, g)
    {
    }
  }

  /** A commit cut after so many INSERTs cuts the turn short: the server has that many blocks under the new version. */
  lemma CutTurns(s: Sys, c: nat, f: string, version: nat, rows: nat)
    requires c in s.clients && f in s.clients[c].files && s.clients[c].files[f].content != ""
    requires var k := s.clients[c];
      Decide(ListedVersion(Find(s.server, f)), Find(k.saved, f), k.files[f].mtime) == Upload(version)
    requires rows < |Split(s.clients[c].files[f].content)|
    ensures var k := s.clients[c];
      var sent := k.(phase := Uploading(f, version, Split(k.files[f].content), k.files[f].content,
                                        Find(s.server, f), HistoryOf(s, f)));
      var s' := Next(With(s, c, sent), CutCommit(c, rows));
      && c in s'.clients && s'.clients[c] == k.(phase := Idle)
      && Find(s'.server, f) == (if rows == 0 then None else Some(Remote(version, Split(k.files[f].content)[..rows])))
      && TurnOf(s.server, k.files, k.saved, false, s'.server, k.files, k.saved, f)
  {
    var k := s.clients[c];
    var content := k.files[f].content;
    var sent := k.(phase := Uploading(f, version, Split(content), content, Find(s.server, f), HistoryOf(s, f)));
    var server' := Next(With(s, c, sent), CutCommit(c, rows)).server;
    assert PartOf(server', f, version, content);
    PushedTurn(s.server, k.files, k.saved, false, server', k.saved, f);
  }

  lemma DownloadTurns(s: Sys, c: nat, f: string)
    requires c in s.clients && f in s.server
    requires var k := s.clients[c];
      && (if f in k.files then !Pushed(s.server, k.files, k.saved, f) else f !in k.saved)
      && !LeftAlone(s.server, k.files, k.saved, f)
    ensures var k := s.clients[c];
      Turned(s, Exec(With(s, c, k.(phase := Downloading(f, s.server[f]))), [Finish(c), Record(c)]), c, f)
  {
    var k := s.clients[c];
    var begun := k.(phase := Downloading(f, s.server[f]));
    TwoActions(With(s, c, begun), Finish(c), Record(c));
    var s' := Exec(With(s, c, begun), [Finish(c), Record(c)]);
    var files', saved' := k.files[f := LocalFile(ContentOf(s.server[f]), s.clock)],
                          k.saved[f := Saved(s.server[f].version, s.clock)];
    assert s'.clients[c] == k.(files := files', saved := saved', phase := Idle);
    FetchedTurn(s.server, k.files, k.saved, files', saved', f);
  }

  /** The rest of a turn goes on from the decision. */
  lemma AfterDecision(s: Sys, c: nat, f: string, rest: seq<Action>)
    requires c in s.clients && s.clients[c].phase.Idle? && f in s.clients[c].files
    ensures var k := s.clients[c];
      Exec(s, [ReadList(c, f), Choose(c)] + rest) ==
      Exec(With(s, c, Chosen(k.(phase := Listed(f, Find(s.server, f), HistoryOf(s, f))))), rest)
  {
    ExecThen(s, [ReadList(c, f), Choose(c)], rest);
    Decided(s, c, f);
  }

  lemma NothingTurns(s: Sys, c: nat, f: string)
    requires c in s.clients && s.clients[c].phase.Idle? && f in s.clients[c].files
    requires LeftAlone(s.server, s.clients[c].files, s.clients[c].saved, f)
    ensures Turned(s, With(s, c, s.clients[c].(phase := Idle)), c, f)
  {
    assert With(s, c, s.clients[c].(phase := Idle)).clients[c] == s.clients[c];
  }

  /** A whole turn with a local file has its outcome. */
  lemma LocalTurnAlone(s: Sys, c: nat, f: string)
    requires c in s.clients && s.clients[c].phase.Idle? && f in s.clients[c].files
    requires s.clients[c].files[f].content != "" && s.clients[c].files[f].mtime <= s.clock
    ensures Turned(s, Exec(s, LocalActions(s, c, f)), c, f)
  {
    var k := s.clients[c];
    match Decide(ListedVersion(Find(s.server, f)), Find(k.saved, f), k.files[f].mtime)
    case Upload(version) =>
      AfterDecision(s, c, f, [Commit(c), Record(c)]);
      UploadTurns(s, c, f, version);
    case Download =>
      AfterDecision(s, c, f, [Finish(c), Record(c)]);
      DownloadTurns(s, c, f);
    case InSync =>
      Decided(s, c, f);
      NothingTurns(s, c, f);
    case DeleteLocal =>
      AfterDecision(s, c, f, [Drop(c)]);
      DeletionTurns(s, c, f);
  }

  lemma DeletionTurns(s: Sys, c: nat, f: string)
    requires c in s.clients && f in s.clients[c].files && f in s.clients[c].saved && f !in s.server
    ensures var k := s.clients[c];
      Turned(s, Exec(With(s, c, k.(files := k.files - {f}, phase := Dropping(f))), [Drop(c)]), c, f)
  {
    var k := s.clients[c];
    var s1 := With(s, c, k.(files := k.files - {f}, phase := Dropping(f)));
    OneAction(s1, Drop(c));
    DroppedTurn(s.server, k.files, k.saved, f);
  }

  /** A whole turn with a name that is no local file has its outcome. */
  lemma ListedTurnAlone(s: Sys, c: nat, f: string)
    requires c in s.clients && s.clients[c].phase.Idle? && f !in s.clients[c].files && f in s.server
    ensures Turned(s, Exec(s, ListedActions(s, c, f)), c, f)
  {
    var k := s.clients[c];
    if f in k.saved {
      RemovalTurns(s, c, f);
    } else {
      ReadMissingThen(s, c, f);
      DownloadTurns(s, c, f);
    }
  }

  lemma ReadMissingThen(s: Sys, c: nat, f: string)
    requires c in s.clients && s.clients[c].phase.Idle? && f !in s.clients[c].files && f in s.server
    requires f !in s.clients[c].saved
    ensures Exec(s, [ReadMissing(c, f), Finish(c), Record(c)]) ==
            Exec(With(s, c, s.clients[c].(phase := Downloading(f, s.server[f]))), [Finish(c), Record(c)])
  {
    ExecThen(s, [ReadMissing(c, f)], [Finish(c), Record(c)]);
    assert [ReadMissing(c, f)] + [Finish(c), Record(c)] == [ReadMissing(c, f), Finish(c), Record(c)];
    OneAction(s, ReadMissing(c, f));
  }

  lemma RemovalTurns(s: Sys, c: nat, f: string)
    requires c in s.clients && s.clients[c].phase.Idle? && f !in s.clients[c].files && f in s.server
    requires f in s.clients[c].saved
    ensures Turned(s, Exec(s, [DeleteRemote(c, f), Drop(c)]), c, f)
  {
    var k := s.clients[c];
    TwoActions(s, DeleteRemote(c, f), Drop(c));
    var s1 := With(Removed(s, f), c, k.(phase := Dropping(f)));
    assert Next(s, DeleteRemote(c, f)) == s1;
    var s2 := Next(s1, Drop(c));
    assert s2.clients[c] == k.(saved := k.saved - {f}, phase := Idle) && s2.server == s.server - {f};
    DeletedTurn(s.server, k.files, k.saved, true, s.server - {f}, k.saved - {f}, f);
  }
}

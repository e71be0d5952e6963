/**
 What the version numbers of the version machine mean for contents: equal versions and no later
 edit mean equal content.
 */
module VersionContents {
  import opened Basics
  import opened SyncModel
  import opened VersionMachine
  import opened VersionCheck

  // -------------------------------------------------------- hypotheses

  /** An edit outside the second of the file's sync with the server's present version. */
  predicate TimelyEdit(s: Sys, k: Client, f: string, content: Bytes) {
    !SameSecondEdit(s.server, k.saved, s.clock, f, content)
  }

  /**
   A record of a file that was not edited, or edited back, since it was split or written.  When the
   server has gone on from the recorded version, it does not matter.
   */
  predicate TrueRecord(s: Sys, k: Client)
    requires k.phase.Recording?
  {
    var Recording(f, version, content) := k.phase;
    f in k.files && f in s.server && s.server[f].version == version ==> k.files[f].content == content
  }

  /** What a step must respect: edits are timely, records are true, and no removed name comes back. */
  predicate Respects(s: Sys, a: Action) {
    && !Recreates(s, a)
    && (a.Edit? && a.c in s.clients ==> TimelyEdit(s, s.clients[a.c], a.f, a.content))
    && (a.Record? && a.c in s.clients && s.clients[a.c].phase.Recording? ==> TrueRecord(s, s.clients[a.c]))
  }

  predicate RunRespects(s0: Sys, actions: seq<Action>) {
    forall i | 0 <= i < |actions| :: Respects(Exec(s0, actions[..i]), actions[i])
  }

  // --------------------------------------------------------- invariant

  /** If the server still has f at r's version, it has r. */
  predicate Matches(s: Sys, f: string, r: Remote) {
    f in s.server && s.server[f].version == r.version ==> s.server[f] == r
  }

  /** If the server still has f at this version, it has this content. */
  predicate Delivered(s: Sys, f: string, version: nat, content: Bytes) {
    f in s.server && s.server[f].version == version ==> ContentOf(s.server[f]) == content
  }

  /** What is on its way is what the server has, or will have. */
  predicate PhaseMatches(s: Sys, p: Phase) {
    match p
    case Listed(f, listed, _) => listed.Some? ==> Matches(s, f, listed.value)
    case Uploading(_, _, blocks, content, _, _) => Concat(blocks) == content
    case Downloading(f, r) => Matches(s, f, r)
    case Recording(f, version, content) => Delivered(s, f, version, content)
    case _ => true
  }

  ghost predicate ClientInv(s: Sys, k: Client) {
    && VersionsOk(s, k)
    && Consistent(s.server, k.files, k.saved, s.clock)
    && PhaseMatches(s, k.phase)
  }

  ghost predicate Inv(s: Sys) {
    Gone(s) && forall c | c in s.clients :: ClientInv(s, s.clients[c])
  }

  lemma InvHasVersions(s: Sys)
    requires Inv(s)
    ensures VersionInv(s)
  {
    forall c | c in s.clients
      ensures VersionsOk(s, s.clients[c])
    {
      assert ClientInv(s, s.clients[c]);
    }
  }

  // ------------------------------------------------------------- proofs

  lemma MatchesLater(s: Sys, s': Sys, f: string, r: Remote)
    requires Later(s, s') && Known(s, f, r.version) && Matches(s, f, r)
    ensures Matches(s', f, r)
  {
    assert LaterAt(s, s', f);
  }

  lemma PhaseLater(s: Sys, s': Sys, k: Client)
    requires VersionsOk(s, k) && PhaseMatches(s, k.phase) && Later(s, s')
    ensures PhaseMatches(s', k.phase)
  {
    if k.phase.Listed? && k.phase.listed.Some? {
      MatchesLater(s, s', k.phase.f, k.phase.listed.value);
    } else if k.phase.Downloading? {
      MatchesLater(s, s', k.phase.f, k.phase.r);
    } else if k.phase.Recording? {
      assert LaterAt(s, s', k.phase.f);
    }
  }

  /** A phase that names a block list names the server's, or the one it named before. */
  lemma OwnPhaseMatches(s: Sys, a: Action)
    requires !a.Tick? && a.c in s.clients && PhaseMatches(Next(s, a), s.clients[a.c].phase)
    ensures a.c in Next(s, a).clients && PhaseMatches(Next(s, a), Next(s, a).clients[a.c].phase)
  {
    var k := s.clients[a.c];
    if a.Choose? && k.phase.Listed? && k.phase.f in k.files {
      SplitIsCanonical(k.files[k.phase.f].content);
    }
  }

  // ---------------------------------------------------------- deliveries

  ghost predicate AllMatch(s: Sys) {
    forall c | c in s.clients :: PhaseMatches(s, s.clients[c].phase)
  }

  lemma StepDelivers(s: Sys, a: Action)
    requires VersionInv(s) && AllMatch(s) && !Recreates(s, a)
    ensures AllMatch(Next(s, a))
  {
    var s' := Next(s, a);
    StepIsLater(s, a);
    forall d | d in s'.clients
      ensures PhaseMatches(s', s'.clients[d].phase)
    {
      assert d in s.clients && VersionsOk(s, s.clients[d]);
      PhaseLater(s, s', s.clients[d]);
      if !a.Tick? && a.c == d {
        OwnPhaseMatches(s, a);
      } else {
        OthersStay(s, a, d);
      }
    }
  }

  lemma {:induction false} RunsDeliver(s0: Sys, actions: seq<Action>)
    requires Start(s0) && RecreatesNothing(s0, actions)
    ensures AllMatch(Exec(s0, actions))
  {
    if actions != [] {
      var n := |actions| - 1;
      RunPrefix(s0, actions);
      RunsKeepVersions(s0, actions[..n]);
      RunsDeliver(s0, actions[..n]);
      StepDelivers(Exec(s0, actions[..n]), actions[n]);
    }
  }

  /**
   Transfers deliver, whatever is edited and whoever crashes.  When a client has finished one,
   up or down, a server that is still at its version has the very content that the local file
   had when it was split, or got when it was written.
   */
  lemma TransfersDeliver(s0: Sys, actions: seq<Action>, c: nat)
    requires Start(s0) && RecreatesNothing(s0, actions)
    requires c in Exec(s0, actions).clients && Exec(s0, actions).clients[c].phase.Recording?
    ensures var s := Exec(s0, actions);
      var Recording(f, version, content) := s.clients[c].phase;
      f in s.server && s.server[f].version == version ==> ContentOf(s.server[f]) == content
  {
    RunsDeliver(s0, actions);
    var s := Exec(s0, actions);
    assert PhaseMatches(s, s.clients[c].phase);
  }

  // ------------------------------------------------- what versions promise

  /** A client that does nothing keeps its part of the invariant while the server moves. */
  lemma ClientLater(s: Sys, s': Sys, k: Client)
    requires ClientInv(s, k) && Later(s, s')
    ensures ClientInv(s', k)
  {
    VersionsLater(s, s', k);
    forall f | f in k.saved && f in s'.server
      ensures k.saved[f].version <= s'.server[f].version
      ensures f in k.files && k.saved[f].version == s'.server[f].version && k.files[f].mtime <= k.saved[f].modTime ==>
                k.files[f].content == ContentOf(s'.server[f])
    {
      assert Known(s, f, k.saved[f].version) && Known(s', f, k.saved[f].version) && LaterAt(s, s', f);
    }
    PhaseLater(s, s', k);
  }

  /** An edit keeps a client's part of the invariant exactly when it is timely. */
  lemma EditKeepsClientIff(s: Sys, k: Client, f: string, content: Bytes)
    requires ClientInv(s, k) && Gone(s)
    ensures ClientInv(s, k.(files := k.files[f := LocalFile(content, s.clock)])) <==> TimelyEdit(s, k, f, content)
  {
    assert f in k.saved ==> Known(s, f, k.saved[f].version);
    EditKeepsConsistentIff(s.server, k.files, k.saved, s.clock, f, content);
  }

  /** Writing versions.json keeps a client's part of the invariant exactly when the record is true. */
  lemma RecordKeepsClientIff(s: Sys, k: Client)
    requires ClientInv(s, k) && Gone(s) && k.phase.Recording?
    ensures ClientInv(s, k.(saved := k.saved[k.phase.f := Saved(k.phase.version, s.clock)], phase := Idle)) <==>
            TrueRecord(s, k)
  {
    var Recording(f, version, _) := k.phase;
    var saved' := k.saved[f := Saved(version, s.clock)];
    assert SavedKnown(s, saved');
    if TrueRecord(s, k) {
      assert Consistent(s.server, k.files, saved', s.clock);
    } else {
      assert f in saved' && saved'[f].version == s.server[f].version && k.files[f].mtime <= saved'[f].modTime;
    }
  }

  /** A finished download: its version is newer than the recorded one. */
  lemma FinishKeepsClient(s: Sys, k: Client)
    requires ClientInv(s, k) && Gone(s) && k.phase.Downloading?
    ensures var k' := FinishStep(k, s.clock);
      Consistent(s.server, k'.files, k'.saved, s.clock) && PhaseMatches(s, k'.phase)
  {
  }

  /** The client that moves. */
  lemma MoverKeeps(s: Sys, a: Action)
    requires Inv(s) && Respects(s, a) && !a.Tick? && a.c in s.clients
    ensures a.c in Next(s, a).clients && ClientInv(Next(s, a), Next(s, a).clients[a.c])
  {
    var s', k := Next(s, a), s.clients[a.c];
    assert ClientInv(s, k);
    InvHasVersions(s);
    MoverOk(s, a);
    StepIsLater(s, a);
    ClientLater(s, s', k);
    assert VersionsOk(s', s'.clients[a.c]);
    if a.Edit? {
      EditKeepsClientIff(s', k, a.f, a.content);
    } else if a.Record? && k.phase.Recording? {
      RecordKeepsClientIff(s', k);
    } else if a.Finish? && k.phase.Downloading? {
      FinishKeepsClient(s', k);
    } else {
      OwnStepKeeps(s, a);
    }
  }

  /** Fewer files and entries promise no more. */
  lemma FewerKept(remote: Remotes, files: Files, saved: Versions, files': Files, saved': Versions, clock: nat)
    requires Consistent(remote, files, saved, clock)
    requires forall f | f in files' :: f in files && files'[f] == files[f]
    requires forall f | f in saved' :: f in saved && saved'[f] == saved[f]
    ensures Consistent(remote, files', saved', clock)
  {
  }

  lemma OwnStepKeeps(s: Sys, a: Action)
    requires !a.Tick? && a.c in s.clients && !a.Edit?
    requires !(a.Record? && s.clients[a.c].phase.Recording?) && !(a.Finish? && s.clients[a.c].phase.Downloading?)
    requires ClientInv(Next(s, a), s.clients[a.c])
    ensures var s', k' := Next(s, a), Next(s, a).clients[a.c];
      Consistent(s'.server, k'.files, k'.saved, s'.clock) && PhaseMatches(s', k'.phase)
  {
    var s', k := Next(s, a), s.clients[a.c];
    var k' := s'.clients[a.c];
    OwnPhaseMatches(s, a);
    OnlyFewer(s, a);
    FewerKept(s'.server, k.files, k.saved, k'.files, k'.saved, s'.clock);
  }

  lemma OnlyFewer(s: Sys, a: Action)
    requires !a.Tick? && a.c in s.clients && !a.Edit?
    requires !(a.Record? && s.clients[a.c].phase.Recording?) && !(a.Finish? && s.clients[a.c].phase.Downloading?)
    ensures var k, k' := s.clients[a.c], Next(s, a).clients[a.c];
      && (forall f | f in k'.files :: f in k.files && k'.files[f] == k.files[f])
      && (forall f | f in k'.saved :: f in k.saved && k'.saved[f] == k.saved[f])
  {
  }

  lemma StepKeeps(s: Sys, a: Action)
    requires Inv(s) && Respects(s, a)
    ensures Inv(Next(s, a))
  {
    var s' := Next(s, a);
    StepIsLater(s, a);
    forall d | d in s'.clients
      ensures ClientInv(s', s'.clients[d])
    {
      if !a.Tick? && a.c == d && a.c in s.clients {
        MoverKeeps(s, a);
      } else {
        OthersStay(s, a, d);
        ClientLater(s, s', s.clients[d]);
      }
    }
  }

  lemma {:induction false} RunsKeep(s0: Sys, actions: seq<Action>)
    requires Start(s0) && RunRespects(s0, actions)
    ensures Inv(Exec(s0, actions))
  {
    if actions != [] {
      var n := |actions| - 1;
      forall i | 0 <= i < n
        ensures Respects(Exec(s0, actions[..n][..i]), actions[..n][i])
      {
        assert actions[..n][..i] == actions[..i];
      }
      RunsKeep(s0, actions[..n]);
      StepKeeps(Exec(s0, actions[..n]), actions[n]);
    }
  }

  /**
   Over all such runs: a saved version never exceeds that of a file the server still has, and
   equal versions plus "not edited since" mean equal contents -- for every client, always.
   */
  lemma ClientsAreConsistent(s0: Sys, actions: seq<Action>, c: nat)
    requires Start(s0) && RunRespects(s0, actions)
    requires c in Exec(s0, actions).clients
    ensures var s, k := Exec(s0, actions), Exec(s0, actions).clients[c];
      && Consistent(s.server, k.files, k.saved, s.clock)
      && forall f | f in k.saved && f in s.server :: k.saved[f].version <= s.server[f].version
  {
    RunsKeep(s0, actions);
    var s := Exec(s0, actions);
    var k := s.clients[c];
    assert ClientInv(s, k);
    forall f | f in k.saved && f in s.server
      ensures k.saved[f].version <= s.server[f].version
    {
      assert Known(s, f, k.saved[f].version);
    }
  }
}

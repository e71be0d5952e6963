/**
 The version check over all runs of the version machine: when is a commit accepted?  Contents
 and edits play no part here.
 */
module VersionCheck {
  import opened Basics
  import opened SyncModel
  import opened VersionMachine

  // --------------------------------------------------------- invariant

  /** The server has had f at this version, and has not gone back since. */
  predicate Known(s: Sys, f: string, version: nat) {
    f in s.removals || (f in s.server && version <= s.server[f].version)
  }

  /** A commit of this version would be accepted just when f has not changed since `seen`. */
  predicate Judged(s: Sys, f: string, version: nat, seen: History) {
    && seen.changes <= Changes(s, f)
    && if Changes(s, f) == seen.changes then MayUpload(s.server, f, version)
       else f in s.removals || (f in s.server && version <= s.server[f].version)
  }

  predicate NewerThanSaved(saved: Versions, f: string, version: nat) {
    f in saved ==> saved[f].version < version
  }

  predicate PhaseKnown(s: Sys, saved: Versions, p: Phase) {
    match p
    case Listed(f, listed, seen) =>
      && Judged(s, f, NextVersion(listed), seen)
      && (listed.Some? ==> Known(s, f, listed.value.version) && NewerThanSaved(saved, f, NextVersion(listed)))
    case Uploading(f, version, _, _, _, seen) =>
      Judged(s, f, version, seen) && (version > 0 ==> Known(s, f, version - 1))
    case Downloading(f, r) => Known(s, f, r.version) && NewerThanSaved(saved, f, r.version)
    case Recording(f, version, _) => Known(s, f, version)
    case _ => true
  }

  predicate SavedKnown(s: Sys, saved: Versions) {
    forall f | f in saved :: Known(s, f, saved[f].version)
  }

  predicate VersionsOk(s: Sys, k: Client) {
    SavedKnown(s, k.saved) && PhaseKnown(s, k.saved, k.phase)
  }

  predicate VersionInv(s: Sys) {
    Gone(s) && forall c | c in s.clients :: VersionsOk(s, s.clients[c])
  }

  // ------------------------------------------------------------- proofs

  lemma KnownLater(s: Sys, s': Sys, f: string, version: nat)
    requires Later(s, s') && Known(s, f, version)
    ensures Known(s', f, version)
  {
    assert LaterAt(s, s', f);
  }

  lemma JudgedLater(s: Sys, s': Sys, f: string, version: nat, seen: History)
    requires Later(s, s') && Judged(s, f, version, seen)
    requires version > 0 ==> Known(s, f, version - 1)
    ensures Judged(s', f, version, seen)
  {
    assert LaterAt(s, s', f);
  }

  /** A client that does nothing keeps its part while the server moves. */
  lemma VersionsLater(s: Sys, s': Sys, k: Client)
    requires VersionsOk(s, k) && Later(s, s')
    ensures VersionsOk(s', k)
  {
    forall f | f in k.saved
      ensures Known(s', f, k.saved[f].version)
    {
      KnownLater(s, s', f, k.saved[f].version);
    }
    match k.phase
    case Listed(f, listed, seen) =>
      JudgedLater(s, s', f, NextVersion(listed), seen);
      if listed.Some? {
        KnownLater(s, s', f, listed.value.version);
      }
    case Uploading(f, version, _, _, _, seen) =>
      JudgedLater(s, s', f, version, seen);
      if version > 0 {
        KnownLater(s, s', f, version - 1);
      }
    case Downloading(f, r) => KnownLater(s, s', f, r.version);
    case Recording(f, version, _) => KnownLater(s, s', f, version);
    case _ =>
  }

  /** The decision keeps the listed version's successor, or the name's version 0. */
  lemma ChosenOk(s: Sys, k: Client)
    requires VersionsOk(s, k) && k.phase.Listed?
    ensures VersionsOk(s, Chosen(k))
  {
    var Listed(f, listed, seen) := k.phase;
    if f in k.files {
      UploadVersion(ListedVersion(listed), Find(k.saved, f), k.files[f].mtime);
    }
  }

  /** The client that moves. */
  lemma MoverOk(s: Sys, a: Action)
    requires VersionInv(s) && !Recreates(s, a) && !a.Tick? && a.c in s.clients
    ensures a.c in Next(s, a).clients && VersionsOk(Next(s, a), Next(s, a).clients[a.c])
  {
    var s', k := Next(s, a), s.clients[a.c];
    assert VersionsOk(s, k);
    StepIsLater(s, a);
    VersionsLater(s, s', k);
    if a.Choose? && k.phase.Listed? {
      ChosenOk(s', k);
    } else if a.Commit? && k.phase.Uploading? {
      CommitOk(s, a.c);
    } else {
      OwnStepOk(s, a);
    }
  }

  /** An accepted version is one the server has had. */
  lemma CommitOk(s: Sys, c: nat)
    requires c in s.clients && s.clients[c].phase.Uploading?
    requires SavedKnown(Next(s, Commit(c)), s.clients[c].saved)
    ensures c in Next(s, Commit(c)).clients && VersionsOk(Next(s, Commit(c)), Next(s, Commit(c)).clients[c])
  {
  }

  lemma OwnStepOk(s: Sys, a: Action)
    requires Gone(s) && !a.Tick? && a.c in s.clients
    requires !(a.Commit? && s.clients[a.c].phase.Uploading?) && !(a.Choose? && s.clients[a.c].phase.Listed?)
    requires VersionsOk(s, s.clients[a.c]) && VersionsOk(Next(s, a), s.clients[a.c])
    ensures a.c in Next(s, a).clients && VersionsOk(Next(s, a), Next(s, a).clients[a.c])
  {
    var s', k := Next(s, a), s.clients[a.c];
    var k' := s'.clients[a.c];
    if a.Record? && k.phase.Recording? {
      assert SavedKnown(s', k'.saved);
    } else if a.Drop? && k.phase.Dropping? {
      assert SavedKnown(s', k'.saved);
    } else {
      assert k'.saved == k.saved;
    }
  }

  lemma StepKeepsVersions(s: Sys, a: Action)
    requires VersionInv(s) && !Recreates(s, a)
    ensures VersionInv(Next(s, a))
  {
    var s' := Next(s, a);
    StepIsLater(s, a);
    forall d | d in s'.clients
      ensures VersionsOk(s', s'.clients[d])
    {
      if !a.Tick? && a.c == d && a.c in s.clients {
        MoverOk(s, a);
      } else {
        assert d in s.clients && s'.clients[d] == s.clients[d];
        VersionsLater(s, s', s.clients[d]);
      }
    }
  }

  lemma {:induction false} RunsKeepVersions(s0: Sys, actions: seq<Action>)
    requires Start(s0) && RecreatesNothing(s0, actions)
    ensures VersionInv(Exec(s0, actions))
  {
    if actions != [] {
      RunPrefix(s0, actions);
      RunsKeepVersions(s0, actions[..|actions| - 1]);
      StepKeepsVersions(Exec(s0, actions[..|actions| - 1]), actions[|actions| - 1]);
    }
  }

  /**
   No lost update.  In every run that commits no name again after its removal, a commit is
   accepted exactly when nobody committed or removed that file since the step read its block list.
   */
  lemma AcceptedIffUnchanged(s0: Sys, actions: seq<Action>, c: nat)
    requires Start(s0) && RecreatesNothing(s0, actions) && !Recreates(Exec(s0, actions), Commit(c))
    requires c in Exec(s0, actions).clients && Exec(s0, actions).clients[c].phase.Uploading?
    ensures var s := Exec(s0, actions);
      var Uploading(f, version, _, _, _, seen) := s.clients[c].phase;
      MayUpload(s.server, f, version) <==> Changes(s, f) == seen.changes
  {
    RunsKeepVersions(s0, actions);
    var s := Exec(s0, actions);
    assert VersionsOk(s, s.clients[c]);
  }

  // ---------------------------- without the hypothesis on re-creation

  /** The version after the one listed; a new file starts at 0. */
  function NextVersion(listed: Option<Remote>): nat {
    if listed.Some? then listed.value.version + 1 else 0
  }

  /**
   As long as f was not removed since `seen`: unchanged, the server still expects `next`;
   changed, it has that version or a later one.
   */
  predicate Expects(s: Sys, f: string, next: nat, seen: History) {
    && seen.changes <= Changes(s, f) && seen.removals <= Removals(s, f)
    && (Removals(s, f) == seen.removals ==>
         if Changes(s, f) == seen.changes then next == NextVersion(Find(s.server, f))
         else f in s.server && next <= s.server[f].version)
  }

  predicate Timely(s: Sys, p: Phase) {
    match p
    case Listed(f, listed, seen) => Expects(s, f, NextVersion(listed), seen)
    case Uploading(f, _, _, _, listed, seen) => Expects(s, f, NextVersion(listed), seen)
    case _ => true
  }

  predicate AllTimely(s: Sys) {
    forall c | c in s.clients :: Timely(s, s.clients[c].phase)
  }

  /** Each change of a name counts; one that is not a removal raises the version. */
  predicate AdvancedAt(s: Sys, s': Sys, f: string) {
    || (HistoryOf(s', f) == HistoryOf(s, f) && Find(s'.server, f) == Find(s.server, f))
    || (Changes(s', f) > Changes(s, f) && Removals(s', f) > Removals(s, f))
    || (Changes(s', f) > Changes(s, f) && Removals(s', f) == Removals(s, f)
        && f in s'.server && NextVersion(Find(s.server, f)) <= s'.server[f].version)
  }

  lemma CommittedAdvances(s: Sys, f: string, r: Remote, g: string)
    requires MayUpload(s.server, f, r.version)
    ensures AdvancedAt(s, Committed(s, f, r), g)
  {
    var s' := Committed(s, f, r);
    if g != f {
      assert HistoryOf(s', g) == HistoryOf(s, g) && Find(s'.server, g) == Find(s.server, g);
    }
  }

  lemma RemovedAdvances(s: Sys, f: string, g: string)
    ensures AdvancedAt(s, Removed(s, f), g)
  {
    var s' := Removed(s, f);
    if g != f {
      assert HistoryOf(s', g) == HistoryOf(s, g) && Find(s'.server, g) == Find(s.server, g);
    }
  }

  lemma CommitAdvances(s: Sys, c: nat, g: string)
    requires c in s.clients && s.clients[c].phase.Uploading?
    ensures AdvancedAt(s, CommitStep(s, c, s.clients[c]), g)
  {
    var p := s.clients[c].phase;
    if MayUpload(s.server, p.f, p.version) {
      CommittedAdvances(s, p.f, Remote(p.version, p.blocks), g);
    }
  }

  lemma CutCommitAdvances(s: Sys, c: nat, rows: nat, g: string)
    requires c in s.clients && s.clients[c].phase.Uploading?
    ensures AdvancedAt(s, CutCommitStep(s, c, s.clients[c], rows), g)
  {
    var p := s.clients[c].phase;
    if CutServer(s, s.clients[c], rows) != s {
      CommittedAdvances(s, p.f, Remote(p.version, p.blocks[..rows]), g);
    }
  }

  /** Every step, with no hypothesis at all. */
  lemma StepAdvances(s: Sys, a: Action, g: string)
    ensures AdvancedAt(s, Next(s, a), g)
  {
    if !a.Tick? && a.c in s.clients {
      match a
      case Commit(c) => if s.clients[c].phase.Uploading? { CommitAdvances(s, c, g); }
      case CutCommit(c, rows) => if s.clients[c].phase.Uploading? { CutCommitAdvances(s, c, rows, g); }
      case DeleteRemote(_, f) => RemovedAdvances(s, f, g);
      case _ =>
    }
  }

  lemma TimelyLater(s: Sys, a: Action, p: Phase)
    requires Timely(s, p)
    ensures Timely(Next(s, a), p)
  {
    if p.Listed? || p.Uploading? {
      StepAdvances(s, a, p.f);
    }
  }

  /** The phase a client's own step leads to. */
  lemma OwnPhase(s: Sys, a: Action)
    requires !a.Tick? && a.c in s.clients && Timely(Next(s, a), s.clients[a.c].phase)
    ensures a.c in Next(s, a).clients && Timely(Next(s, a), Next(s, a).clients[a.c].phase)
  {
    var p, p' := s.clients[a.c].phase, Next(s, a).clients[a.c].phase;
    if p' != p && p'.Listed? {
      assert p' == Listed(a.f, Find(s.server, a.f), HistoryOf(s, a.f));
    } else if p' != p && p'.Uploading? {
      assert p.Listed? && p'.f == p.f && p'.listed == p.listed && p'.seen == p.seen;
    }
  }

  lemma StepIsTimely(s: Sys, a: Action)
    requires AllTimely(s)
    ensures AllTimely(Next(s, a))
  {
    var s' := Next(s, a);
    forall d | d in s'.clients
      ensures Timely(s', s'.clients[d].phase)
    {
      assert d in s.clients;
      TimelyLater(s, a, s.clients[d].phase);
      if !a.Tick? && a.c == d {
        OwnPhase(s, a);
      } else {
        OthersStay(s, a, d);
      }
    }
  }

  lemma {:induction false} RunsAreTimely(s0: Sys, actions: seq<Action>)
    requires Start(s0)
    ensures AllTimely(Exec(s0, actions))
  {
    if actions != [] {
      RunsAreTimely(s0, actions[..|actions| - 1]);
      StepIsTimely(Exec(s0, actions[..|actions| - 1]), actions[|actions| - 1]);
    }
  }

  /**
   In every run whatever -- names re-created, edits at any moment: when the file was not removed
   since its block list was read and the version sent is the one after the listed one, the
   commit is accepted exactly when nobody changed the file in between.
   */
  lemma AcceptedIffUnchangedSinceRead(s0: Sys, actions: seq<Action>, c: nat)
    requires Start(s0) && c in Exec(s0, actions).clients && Exec(s0, actions).clients[c].phase.Uploading?
    requires var s := Exec(s0, actions);
      var Uploading(f, version, _, _, listed, seen) := s.clients[c].phase;
      Removals(s, f) == seen.removals && version == NextVersion(listed)
    ensures var s := Exec(s0, actions);
      var Uploading(f, version, _, _, _, seen) := s.clients[c].phase;
      MayUpload(s.server, f, version) <==> Changes(s, f) == seen.changes
  {
    RunsAreTimely(s0, actions);
    var s := Exec(s0, actions);
    assert Timely(s, s.clients[c].phase);
  }
}

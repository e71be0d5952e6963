/**
 Any number of clients of one user, each running the sync script against the metadata
 server, with a commit as one step.  Between any two steps of one client every other client,
 and the users editing files, may do anything.
 */
module VersionMachine {
  import opened Basics
  import opened SyncModel

  /** How often a name was changed on the server, and how many of these changes removed it. */
  datatype History = History(changes: nat, removals: nat)

  datatype Phase =
    | Idle
    /** The block list of local file f has been read; `seen` is the history of f by then. */
    | Listed(f: string, listed: Option<Remote>, seen: History)
    /** f, which had this content, has been split and its blocks stored; file_commit is next. */
    | Uploading(f: string, version: nat, blocks: seq<Bytes>, content: Bytes, listed: Option<Remote>, seen: History)
    /** A block list has been read and its blocks are being fetched; cat is next. */
    | Downloading(f: string, r: Remote)
    /** The transfer of this content, as the local file had it then, is done; versions.json is next. */
    | Recording(f: string, version: nat, content: Bytes)
    /** The file is gone on one side; its entry of versions.json goes next. */
    | Dropping(f: string)

  datatype Client = Client(files: Files, saved: Versions, phase: Phase)

  datatype Sys = Sys(server: Remotes, changes: map<string, nat>, removals: map<string, nat>, clock: nat,
                     clients: map<nat, Client>)

  datatype Action =
    | Tick
    | Edit(c: nat, f: string, content: Bytes)
    | Erase(c: nat, f: string)
    | ReadList(c: nat, f: string)
    | Choose(c: nat)
    | Commit(c: nat)
    /** A commit whose statements stop after so many INSERTs; the client is told that it failed. */
    | CutCommit(c: nat, rows: nat)
    | Finish(c: nat)
    | Record(c: nat)
    | Drop(c: nat)
    | ReadMissing(c: nat, f: string)
    | DeleteRemote(c: nat, f: string)
    | Crash(c: nat)

  function Changes(s: Sys, f: string): nat {
    if f in s.changes then s.changes[f] else 0
  }

  function Removals(s: Sys, f: string): nat {
    if f in s.removals then s.removals[f] else 0
  }

  function HistoryOf(s: Sys, f: string): History {
    History(Changes(s, f), Removals(s, f))
  }

  function With(s: Sys, c: nat, k: Client): Sys {
    s.(clients := s.clients[c := k])
  }

  function Changed(s: Sys, f: string, server: Remotes): Sys {
    s.(server := server, changes := s.changes[f := Changes(s, f) + 1])
  }

  /** A change that left f without rows. */
  function Removed(s: Sys, f: string): Sys {
    Changed(s, f, s.server - {f}).(removals := s.removals[f := Removals(s, f) + 1])
  }

  // --------------------------------------------------------- the steps

  function ListedVersion(listed: Option<Remote>): Option<nat> {
    if listed.Some? then Some(listed.value.version) else None
  }

  /**
   The decision for the file whose block list was read.  A file that has vanished meanwhile is
   downloaded again if versions.json does not know it, and otherwise ends the script.
  */
  function Chosen(k: Client): Client
    requires k.phase.Listed?
  {
    var Listed(f, listed, seen) := k.phase;
    if f !in k.files then
      k.(phase := if f !in k.saved && listed.Some? then Downloading(f, listed.value) else Idle)
    else
      match Decide(ListedVersion(listed), Find(k.saved, f), k.files[f].mtime)
      case Upload(version) =>
        var content := k.files[f].content;
        k.(phase := Uploading(f, version, Split(content), content, listed, seen))
      case Download => k.(phase := if listed.Some? then Downloading(f, listed.value) else Idle)
      case InSync => k.(phase := Idle)
      case DeleteLocal => k.(files := k.files - {f}, phase := Dropping(f))
  }

  /** The server after a commit that left these blocks; a commit without any is a removal. */
  function Committed(s: Sys, f: string, r: Remote): Sys {
    if r.blocks != [] then Changed(s, f, PutRemote(s.server, f, r)) else Removed(s, f)
  }

  function CommitStep(s: Sys, c: nat, k: Client): Sys
    requires k.phase.Uploading?
  {
    var Uploading(f, version, blocks, content, _, _) := k.phase;
    if MayUpload(s.server, f, version) then
      With(Committed(s, f, Remote(version, blocks)), c, k.(phase := Recording(f, version, content)))
    else With(s, c, k.(phase := Idle))
  }

  /** What a cut commit leaves; one that stops before the first INSERT of a new file leaves all as it was. */
  function CutServer(s: Sys, k: Client, rows: nat): Sys
    requires k.phase.Uploading?
  {
    var Uploading(f, version, blocks, _, _, _) := k.phase;
    if MayUpload(s.server, f, version) && rows < |blocks| && (rows > 0 || f in s.server) then
      Committed(s, f, Remote(version, blocks[..rows]))
    else s
  }

  function CutCommitStep(s: Sys, c: nat, k: Client, rows: nat): Sys
    requires k.phase.Uploading?
  {
    With(CutServer(s, k, rows), c, k.(phase := Idle))
  }

  /** The server-list pass on a name that is not a local file. */
  function ReadMissingStep(s: Sys, c: nat, k: Client, f: string): Sys {
    if k.phase.Idle? && f !in k.files && f !in k.saved && f in s.server then
      With(s, c, k.(phase := Downloading(f, s.server[f])))
    else s
  }

  /** cat: the blocks that were fetched become the local file. */
  function FinishStep(k: Client, now: nat): Client
    requires k.phase.Downloading?
  {
    var Downloading(f, r) := k.phase;
    var files := k.files[f := LocalFile(ContentOf(r), now)];
    k.(files := files, phase := Recording(f, r.version, files[f].content))
  }

  function DeleteRemoteStep(s: Sys, c: nat, k: Client, f: string): Sys {
    if k.phase.Idle? && f !in k.files && f in k.saved then
      var s' := if f in s.server then Removed(s, f) else s;
      With(s', c, k.(phase := Dropping(f)))
    else s
  }

  function ClientStep(s: Sys, c: nat, k: Client, a: Action): Sys {
    match a
    case Edit(_, f, content) => With(s, c, k.(files := k.files[f := LocalFile(content, s.clock)]))
    case Erase(_, f) => With(s, c, k.(files := k.files - {f}))
    case ReadList(_, f) =>
      if k.phase.Idle? && f in k.files then With(s, c, k.(phase := Listed(f, Find(s.server, f), HistoryOf(s, f))))
      else s
    case Choose(_) => if k.phase.Listed? then With(s, c, Chosen(k)) else s
    case Commit(_) => if k.phase.Uploading? then CommitStep(s, c, k) else s
    case CutCommit(_, rows) => if k.phase.Uploading? then CutCommitStep(s, c, k, rows) else s
    case Finish(_) =>
      if k.phase.Downloading? then
        With(s, c, FinishStep(k, s.clock))
      else s
    case Record(_) =>
      if k.phase.Recording? then
        With(s, c, k.(saved := k.saved[k.phase.f := Saved(k.phase.version, s.clock)], phase := Idle))
      else s
    case Drop(_) =>
      if k.phase.Dropping? then With(s, c, k.(saved := k.saved - {k.phase.f}, phase := Idle)) else s
    case ReadMissing(_, f) => ReadMissingStep(s, c, k, f)
    case DeleteRemote(_, f) => DeleteRemoteStep(s, c, k, f)
    case Crash(_) => With(s, c, k.(phase := Idle))
    case Tick => s
  }

  function Next(s: Sys, a: Action): Sys {
    if a.Tick? then s.(clock := s.clock + 1)
    else if a.c in s.clients then ClientStep(s, a.c, s.clients[a.c], a)
    else s
  }

  // ------------------------------------------------------------- runs

  /** Clients that have never synced, with whatever files they have, next to an empty server. */
  predicate Start(s: Sys) {
    && s.server == map[] && s.changes == map[] && s.removals == map[]
    && forall c | c in s.clients ::
         && s.clients[c].saved == map[] && s.clients[c].phase.Idle?
         && forall f | f in s.clients[c].files :: s.clients[c].files[f].mtime <= s.clock
  }

  function Exec(s0: Sys, actions: seq<Action>): Sys {
    if actions == [] then s0 else Next(Exec(s0, actions[..|actions| - 1]), actions[|actions| - 1])
  }

  /** A commit, whole or cut, of a name that was removed before. */
  predicate Recreates(s: Sys, a: Action) {
    && (a.Commit? || a.CutCommit?) && a.c in s.clients && s.clients[a.c].phase.Uploading?
    && s.clients[a.c].phase.f in s.removals && s.clients[a.c].phase.version == 0
  }

  /** No name is committed again after its removal. */
  predicate RecreatesNothing(s0: Sys, actions: seq<Action>) {
    forall i | 0 <= i < |actions| :: !Recreates(Exec(s0, actions[..i]), actions[i])
  }

  lemma RunPrefix(s0: Sys, actions: seq<Action>)
    requires actions != [] && RecreatesNothing(s0, actions)
    ensures var n := |actions| - 1;
      RecreatesNothing(s0, actions[..n]) && !Recreates(Exec(s0, actions[..n]), actions[n])
  {
    var n := |actions| - 1;
    forall i | 0 <= i < n
      ensures !Recreates(Exec(s0, actions[..n][..i]), actions[..n][i])
    {
      assert actions[..n][..i] == actions[..i];
    }
  }

  // ------------------------------------------------ how the server moves

  /** One name: versions grow, content changes only with the version, and removal is for good. */
  predicate LaterAt(s: Sys, s': Sys, f: string) {
    && (f in s.removals ==> f in s'.removals)
    && (f in s.server ==>
          || f in s'.removals
          || (f in s'.server && s.server[f].version <= s'.server[f].version
              && (s.server[f].version == s'.server[f].version ==> s'.server[f] == s.server[f])))
    && (|| (Changes(s', f) == Changes(s, f) && Find(s'.server, f) == Find(s.server, f))
        || (Changes(s', f) > Changes(s, f)
            && (|| f in s'.removals
                || (f in s'.server && (f in s.server ==> s.server[f].version < s'.server[f].version)))))
  }

  /** The names that were removed are not on the server. */
  predicate Gone(s: Sys) {
    s.removals.Keys !! s.server.Keys
  }

  ghost predicate Later(s: Sys, s': Sys) {
    Gone(s') && s.clock <= s'.clock && forall f :: LaterAt(s, s', f)
  }

  lemma CommittedIsLater(s: Sys, f: string, r: Remote, c: nat, k: Client)
    requires Gone(s) && MayUpload(s.server, f, r.version) && (f in s.removals ==> r.version > 0)
    ensures Later(s, With(Committed(s, f, r), c, k))
  {
    var s' := With(Committed(s, f, r), c, k);
    forall g
      ensures LaterAt(s, s', g)
    {
      if g != f {
        assert Find(s'.server, g) == Find(s.server, g) && Changes(s', g) == Changes(s, g);
      }
    }
  }

  lemma RemovedIsLater(s: Sys, f: string, c: nat, k: Client)
    requires Gone(s)
    ensures Later(s, With(Removed(s, f), c, k))
  {
    var s' := With(Removed(s, f), c, k);
    forall g
      ensures LaterAt(s, s', g)
    {
      if g != f {
        assert Find(s'.server, g) == Find(s.server, g) && Changes(s', g) == Changes(s, g);
      }
    }
  }

  /** Steps that leave the server alone. */
  lemma SameServerIsLater(s: Sys, s': Sys)
    requires Gone(s) && s.clock <= s'.clock
    requires s'.server == s.server && s'.changes == s.changes && s'.removals == s.removals
    ensures Later(s, s')
  {
  }

  lemma StepIsLater(s: Sys, a: Action)
    requires Gone(s) && !Recreates(s, a)
    ensures Later(s, Next(s, a))
  {
    var s' := Next(s, a);
    var quiet := a.Tick? || a.c !in s.clients;
    if !quiet && a.Commit? && s.clients[a.c].phase.Uploading? {
      CommitStepIsLater(s, a.c);
    } else if !quiet && a.CutCommit? && s.clients[a.c].phase.Uploading? {
      CutCommitStepIsLater(s, a.c, a.rows);
    } else if !quiet && a.DeleteRemote? && s'.server != s.server {
      RemovedIsLater(s, a.f, a.c, s'.clients[a.c]);
    } else {
      SameServerIsLater(s, s');
    }
  }

  lemma CommitStepIsLater(s: Sys, c: nat)
    requires Gone(s) && c in s.clients && s.clients[c].phase.Uploading? && !Recreates(s, Commit(c))
    ensures Later(s, CommitStep(s, c, s.clients[c]))
  {
    var k := s.clients[c];
    var Uploading(f, version, blocks, content, _, _) := k.phase;
    if MayUpload(s.server, f, version) {
      CommittedIsLater(s, f, Remote(version, blocks), c, k.(phase := Recording(f, version, content)));
    } else {
      SameServerIsLater(s, CommitStep(s, c, k));
    }
  }

  lemma CutCommitStepIsLater(s: Sys, c: nat, rows: nat)
    requires Gone(s) && c in s.clients && s.clients[c].phase.Uploading? && !Recreates(s, CutCommit(c, rows))
    ensures Later(s, CutCommitStep(s, c, s.clients[c], rows))
  {
    var k := s.clients[c];
    var Uploading(f, version, blocks, _, _, _) := k.phase;
    if CutServer(s, k, rows) == s {
      SameServerIsLater(s, CutCommitStep(s, c, k, rows));
    } else {
      CommittedIsLater(s, f, Remote(version, blocks[..rows]), c, k.(phase := Idle));
    }
  }

  /** A step moves one client at most. */
  lemma OthersStay(s: Sys, a: Action, d: nat)
    requires d in Next(s, a).clients && (a.Tick? || a.c != d)
    ensures d in s.clients && Next(s, a).clients[d] == s.clients[d]
  {
  }
}

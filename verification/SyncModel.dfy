/** The data that client/sync.py works on and the decision it takes for each file. */
module SyncModel {
  import opened Basics
  import opened MetadataSpec
  import opened CacheNode

  // ------------------------------------------------------- split -b 4m

  function Split(content: Bytes): (blocks: seq<Bytes>)
    ensures blocks == [] <==> content == ""
  {
    if content == "" then []
    else if |content| <= BLOCK_BYTES then [content]
    else [content[..BLOCK_BYTES]] + Split(content[BLOCK_BYTES..])
  }

  /** What split produces: full blocks, then one that is not empty. */
  predicate Canonical(blocks: seq<Bytes>) {
    forall i | 0 <= i < |blocks| ::
      0 < |blocks[i]| <= BLOCK_BYTES && (i < |blocks| - 1 ==> |blocks[i]| == BLOCK_BYTES)
  }

  lemma {:induction false} SplitIsCanonical(content: Bytes)
    ensures Canonical(Split(content))
    ensures Concat(Split(content)) == content
  {
    if |content| > BLOCK_BYTES {
      var head, tail := content[..BLOCK_BYTES], content[BLOCK_BYTES..];
      SplitIsCanonical(tail);
      assert Split(content)[1..] == Split(tail);
      assert content == head + tail;
      forall i | 0 <= i < |Split(content)|
        ensures 0 < |Split(content)[i]| <= BLOCK_BYTES
        ensures i < |Split(content)| - 1 ==> |Split(content)[i]| == BLOCK_BYTES
      {
        if i > 0 {
          assert Split(content)[i] == Split(tail)[i - 1];
        }
      }
    } else if content != "" {
      assert Split(content) == [content] && Concat([content]) == content + Concat([]);
    }
  }

  /** Splitting what a canonical list concatenates to gives the list back. */
  lemma {:induction false} SplitConcat(blocks: seq<Bytes>)
    requires Canonical(blocks)
    ensures Split(Concat(blocks)) == blocks
  {
    if blocks == [] {
    } else if |blocks| == 1 {
      assert blocks == [blocks[0]];
      assert Concat(blocks) == blocks[0] + Concat([]) == blocks[0];
    } else {
      var rest := blocks[1..];
      assert forall i | 0 <= i < |rest| :: rest[i] == blocks[i + 1];
      SplitConcat(rest);
      var whole := Concat(blocks);
      assert whole[..BLOCK_BYTES] == blocks[0] && whole[BLOCK_BYTES..] == Concat(rest);
      assert |Concat(rest)| > 0;
    }
  }

  lemma CanonicalPrefix(blocks: seq<Bytes>, k: nat)
    requires Canonical(blocks) && k <= |blocks|
    ensures Canonical(blocks[..k])
  {
  }

  // --------------------------------------------------------- the state

  /** A file in the synced directory; times are in seconds, as the script compares them. */
  datatype LocalFile = LocalFile(content: Bytes, mtime: nat)

  /** An entry of versions.json. */
  datatype Saved = Saved(version: nat, modTime: nat)

  /** What the servers hold for a file: its version and the blocks of its block list. */
  datatype Remote = Remote(version: nat, blocks: seq<Bytes>)

  type Files = map<string, LocalFile>
  type Versions = map<string, Saved>
  type Remotes = map<string, Remote>

  function ContentOf(r: Remote): Bytes {
    Concat(r.blocks)
  }

  function PutRemote(remote: Remotes, f: string, r: Remote): Remotes {
    if r.blocks == [] then remote - {f} else remote[f := r]
  }

  /** The server's version check. */
  predicate MayUpload(remote: Remotes, f: string, version: nat) {
    if f in remote then remote[f].version < version else version == 0
  }

  function Find<V>(m: map<string, V>, f: string): Option<V> {
    if f in m then Some(m[f]) else None
  }

  // ------------------------------------------------------ the decision

  datatype Decision = Upload(version: nat) | Download | InSync | DeleteLocal

  /** The branch taken for a local file, from the server's version of it, its versions.json entry and its mtime. */
  function Decide(listed: Option<nat>, saved: Option<Saved>, mtime: nat): Decision {
    match (listed, saved)
    case (None, None) => Upload(0)
    case (Some(_), None) => Download
    case (None, Some(_)) => DeleteLocal
    case (Some(metaVersion), Some(s)) =>
      if s.modTime >= mtime then
        if metaVersion > s.version then Download else InSync
      else if metaVersion > s.version then Upload(metaVersion + 1)
      else Upload(s.version + 1)
  }

  // ---------------------------------------------------- what is promised

  /** No time on record is ahead of the clock. */
  ghost predicate Dated(files: Files, saved: Versions, clock: nat) {
    && (forall f | f in files :: files[f].mtime <= clock)
    && (forall f | f in saved :: saved[f].modTime <= clock)
  }

  /** What has changed on this side carries a time that is not before `since`. */
  ghost predicate Stamped(files: Files, saved: Versions, since: nat, files': Files, saved': Versions) {
    && (forall f | f in files' && Find(files, f) != Find(files', f) :: since <= files'[f].mtime)
    && (forall f | f in saved' && Find(saved, f) != Find(saved', f) :: since <= saved'[f].modTime)
  }

  /**
   What every reachable state of a client satisfies.  The saved version of a file is never ahead
   of the server's; when they are equal and the file was not edited since, the contents are equal.
   */
  ghost predicate Consistent(remote: Remotes, files: Files, saved: Versions, clock: nat) {
    && (forall f | f in saved && f in remote && f in files ::
          && saved[f].version <= remote[f].version
          && (saved[f].version == remote[f].version && files[f].mtime <= saved[f].modTime ==>
                files[f].content == ContentOf(remote[f])))
    && Dated(files, saved, clock)
  }

  /** Nothing is left to do for a file. */
  ghost predicate Synced(remote: Remotes, files: Files, saved: Versions, f: string) {
    && (f in files <==> f in remote)
    && (f in files ==>
          && f in saved
          && saved[f].version == remote[f].version
          && files[f].mtime <= saved[f].modTime
          && files[f].content == ContentOf(remote[f]))
  }

  /**
   The version an upload carries is the one after the server's listed version, as the
   protocol asks, and after the saved one; a new file starts at 0.
   */
  lemma UploadVersion(listed: Option<nat>, saved: Option<Saved>, mtime: nat)
    requires listed.Some? && saved.Some? ==> saved.value.version <= listed.value
    ensures Decide(listed, saved, mtime).Upload? ==>
              Decide(listed, saved, mtime).version == if listed.Some? then listed.value + 1 else 0
  {
  }

  /** Without that bound the version sent is one more than the larger of the two. */
  lemma UploadVersionIsMax(listed: nat, saved: Saved, mtime: nat)
    ensures Decide(Some(listed), Some(saved), mtime).Upload? <==> saved.modTime < mtime
    ensures saved.modTime < mtime ==>
              Decide(Some(listed), Some(saved), mtime) == Upload(Max(listed, saved.version) + 1)
  {
  }

  /** A file is left alone in a consistent state exactly when it is in sync with the server. */
  lemma InSyncIffSynced(remote: Remotes, files: Files, saved: Versions, clock: nat, f: string)
    requires Consistent(remote, files, saved, clock) && f in files
    ensures Decide(if f in remote then Some(remote[f].version) else None, Find(saved, f), files[f].mtime).InSync? <==>
            Synced(remote, files, saved, f)
  {
  }

  /** An edit in the very second recorded as the file's sync, away from the content the server has. */
  predicate SameSecondEdit(remote: Remotes, saved: Versions, clock: nat, f: string, content: Bytes) {
    && f in saved && f in remote
    && saved[f].version == remote[f].version && saved[f].modTime == clock && content != ContentOf(remote[f])
  }

  /** An entry without a file, left from a higher version than the server now has. */
  predicate Leftover(remote: Remotes, files: Files, saved: Versions, f: string) {
    f in saved && f in remote && f !in files && remote[f].version < saved[f].version
  }

  /** The one-second grain: an edit breaks the promise exactly in that second, or over such a leftover. */
  lemma EditKeepsConsistentIff(remote: Remotes, files: Files, saved: Versions, clock: nat, f: string, content: Bytes)
    requires Consistent(remote, files, saved, clock)
    ensures Consistent(remote, files[f := LocalFile(content, clock)], saved, clock) <==>
            !SameSecondEdit(remote, saved, clock, f, content) && !Leftover(remote, files, saved, f)
  {
    var files' := files[f := LocalFile(content, clock)];
    assert f in files' && files'[f].mtime == clock;
  }

  /** Committing a removed name again keeps a client's promise exactly when its entry and copy fit the new start. */
  lemma RecreationKeepsConsistentIff(remote: Remotes, files: Files, saved: Versions, clock: nat,
                                     f: string, bs: seq<Bytes>)
    requires Consistent(remote, files, saved, clock) && f !in remote && bs != []
    ensures Consistent(PutRemote(remote, f, Remote(0, bs)), files, saved, clock) <==>
            (f in saved && f in files ==>
               && saved[f].version == 0
               && (files[f].mtime <= saved[f].modTime ==> files[f].content == Concat(bs)))
  {
    var remote' := PutRemote(remote, f, Remote(0, bs));
    assert f in remote' && remote'[f] == Remote(0, bs);
    assert forall g | g != f :: g in remote' <==> g in remote;
  }

  // -------------------------------------- how each outcome keeps the promise

  /** Nothing but the entry of f differs. */
  ghost predicate SameBut<V>(m: map<string, V>, m': map<string, V>, f: string) {
    forall g | g != f :: Find(m, g) == Find(m', g)
  }

  /** The script's own files, which it never syncs. */
  const OWN_FILES := {"sync.py", "versions.json"}

  /** Local directory and server hold the same names, contents and versions. */
  ghost predicate AllSynced(remote: Remotes, files: Files, saved: Versions) {
    forall f | f !in OWN_FILES :: Synced(remote, files, saved, f)
  }

  lemma NoneListed(remote: Remotes, files: Files, saved: Versions)
    requires AllSynced(remote, files, saved) && remote.Keys !! OWN_FILES
    ensures remote.Keys <= files.Keys
  {
    forall f | f in remote
      ensures f in files
    {
      assert Synced(remote, files, saved, f);
    }
  }

  // ------------------------------------------------ what a run does to a name

  /** Nothing about a name has changed. */
  predicate Untouched(remote: Remotes, files: Files, saved: Versions,
                      remote': Remotes, files': Files, saved': Versions, f: string) {
    Find(remote, f) == Find(remote', f) && Find(files, f) == Find(files', f) && Find(saved, f) == Find(saved', f)
  }

  /** Not edited since its last sync. */
  predicate NoEdit(files: Files, saved: Versions, f: string) {
    f in files ==> f in saved && files[f].mtime <= saved[f].modTime
  }

  /** The names that are left, on both sides. */
  predicate Survives(remote: Remotes, files: Files, saved: Versions, f: string) {
    if f in files then f in remote || f !in saved else f in remote && f !in saved
  }

  /** A file that goes up: new to both sides, or edited since its last sync. */
  predicate Pushed(remote: Remotes, files: Files, saved: Versions, f: string) {
    f in files && if f in remote then f in saved && saved[f].modTime < files[f].mtime else f !in saved
  }

  function PushVersion(remote: Remotes, saved: Versions, f: string): nat {
    if f in remote && f in saved then Max(remote[f].version, saved[f].version) + 1 else 0
  }

  /** Not edited, and recorded at a version that is not behind the server's. */
  predicate LeftAlone(remote: Remotes, files: Files, saved: Versions, f: string) {
    && f in files && f in saved && f in remote
    && files[f].mtime <= saved[f].modTime && remote[f].version <= saved[f].version
  }

  /**
   What a run makes of a name.  A pushed file is on the server with this client's content under
   the next version, and any other name that survives is what the server had; a push leaves the
   local file as it is.  Both sides then agree, unless the file was left alone.  An entry without
   a file stays only where there was nothing but the entry.
   */
  ghost predicate Outcome(remote: Remotes, files: Files, saved: Versions,
                          remote': Remotes, files': Files, saved': Versions, f: string) {
    && (f in remote' <==> Survives(remote, files, saved, f))
    && (f in remote' ==>
          if Pushed(remote, files, saved, f)
          then && remote'[f].version == PushVersion(remote, saved, f) && ContentOf(remote'[f]) == files[f].content
               && Find(files', f) == Find(files, f)
          else Find(remote', f) == Find(remote, f))
    && (if LeftAlone(remote, files, saved, f)
        then Find(files', f) == Find(files, f) && Find(saved', f) == Find(saved, f)
        else Synced(remote', files', saved', f))
    && (f in saved' <==> f in remote' || (f in saved && f !in files && f !in remote))
    && (f in saved' && f !in remote' ==> saved'[f] == saved[f])
  }

  /** The same in the fields of the two sides, case by case. */
  lemma OutcomeInFields(remote: Remotes, files: Files, saved: Versions,
                        remote': Remotes, files': Files, saved': Versions, f: string)
    requires Outcome(remote, files, saved, remote', files', saved', f)
    // new here, unknown there
    ensures f in files && f !in saved && f !in remote ==>
              && f in files' && files'[f] == files[f] && f in saved' && saved'[f].version == 0
              && f in remote' && remote'[f].version == 0 && ContentOf(remote'[f]) == files[f].content
    // edited here since the last sync
    ensures f in files && f in saved && f in remote && saved[f].modTime < files[f].mtime ==>
              && f in files' && files'[f] == files[f]
              && f in remote' && ContentOf(remote'[f]) == files[f].content
              && remote[f].version < remote'[f].version && saved[f].version < remote'[f].version
              && f in saved' && saved'[f].version == remote'[f].version
    // a later version there, and no edit here
    ensures f in files && f in saved && f in remote && files[f].mtime <= saved[f].modTime
            && saved[f].version < remote[f].version ==>
              && f in remote' && remote'[f] == remote[f]
              && f in files' && files'[f].content == ContentOf(remote[f])
              && f in saved' && saved'[f].version == remote[f].version
    // no later version there, and no edit here
    ensures f in files && f in saved && f in remote && files[f].mtime <= saved[f].modTime
            && remote[f].version <= saved[f].version ==>
              && f in remote' && remote'[f] == remote[f] && f in files' && files'[f] == files[f]
              && f in saved' && saved'[f] == saved[f]
    // there, and never synced here, even if a file has that name
    ensures f in remote && f !in saved ==>
              && f in remote' && remote'[f] == remote[f]
              && f in files' && files'[f].content == ContentOf(remote[f])
              && f in saved' && saved'[f].version == remote[f].version
    // deleted here
    ensures f !in files && f in saved ==> f !in files' && f !in remote'
    // deleted there
    ensures f in files && f in saved && f !in remote ==> f !in files' && f !in saved' && f !in remote'
    // nowhere
    ensures f !in files && f !in remote ==> f !in files' && f !in remote'
  {
  }

  /** The first blocks of a file under a version, or nothing of it. */
  predicate PartOf(remote: Remotes, f: string, version: nat, content: Bytes) {
    f in remote ==> remote[f].version == version && remote[f].blocks <= Split(content)
  }

  /**
   What a failure makes of a name: nothing has changed on this side, and the server has what it
   had, or part of the pushed file, or has lost a name that this client had deleted.
   */
  ghost predicate CutShort(remote: Remotes, files: Files, saved: Versions,
                           remote': Remotes, files': Files, saved': Versions, f: string) {
    && Find(files', f) == Find(files, f) && Find(saved', f) == Find(saved, f)
    && (|| Find(remote', f) == Find(remote, f)
        || (Pushed(remote, files, saved, f) && PartOf(remote', f, PushVersion(remote, saved, f), files[f].content))
        || (f !in files && f in saved && f !in remote'))
  }

  /** What a turn makes of a name, done or cut short. */
  ghost predicate Effect(remote: Remotes, files: Files, saved: Versions, done: bool,
                         remote': Remotes, files': Files, saved': Versions, f: string) {
    || Outcome(remote, files, saved, remote', files', saved', f)
    || (!done && CutShort(remote, files, saved, remote', files', saved', f))
  }

  /** The turn of one name. */
  ghost predicate TurnOf(remote: Remotes, files: Files, saved: Versions, done: bool,
                         remote': Remotes, files': Files, saved': Versions, f: string) {
    && SameBut(remote, remote', f) && SameBut(files, files', f) && SameBut(saved, saved', f)
    && Effect(remote, files, saved, done, remote', files', saved', f)
  }

  /** A turn that could do nothing. */
  lemma IdleTurn(remote: Remotes, files: Files, saved: Versions, f: string)
    ensures TurnOf(remote, files, saved, false, remote, files, saved, f)
  {
  }

  /** An upload of what is to be pushed, done or cut short. */
  lemma PushedTurn(remote: Remotes, files: Files, saved: Versions, done: bool, remote': Remotes, saved': Versions,
                   f: string)
    requires Pushed(remote, files, saved, f) && SameBut(remote, remote', f) && SameBut(saved, saved', f)
    requires if done
             then Synced(remote', files, saved', f) && remote'[f].version == PushVersion(remote, saved, f)
             else && saved' == saved
                  && (remote' == remote || PartOf(remote', f, PushVersion(remote, saved, f), files[f].content))
    ensures TurnOf(remote, files, saved, done, remote', files, saved', f)
  {
  }

  /** A download of what is neither pushed nor left alone. */
  lemma FetchedTurn(remote: Remotes, files: Files, saved: Versions, files': Files, saved': Versions, f: string)
    requires f in remote && Synced(remote, files', saved', f) && SameBut(files, files', f) && SameBut(saved, saved', f)
    requires if f in files then !Pushed(remote, files, saved, f) else f !in saved
    requires !LeftAlone(remote, files, saved, f)
    ensures TurnOf(remote, files, saved, true, remote, files', saved', f)
  {
  }

  /** The deletion of what this client had deleted, perhaps with its reply lost. */
  lemma DeletedTurn(remote: Remotes, files: Files, saved: Versions, done: bool, remote': Remotes, saved': Versions,
                    f: string)
    requires f in remote && f !in files && f in saved
    requires remote' == remote - {f} || (!done && remote' == remote)
    requires saved' == if done then saved - {f} else saved
    ensures TurnOf(remote, files, saved, done, remote', files, saved', f)
  {
  }

  /** The deletion of a known file that the server has lost. */
  lemma DroppedTurn(remote: Remotes, files: Files, saved: Versions, f: string)
    requires f !in remote && f in files && f in saved
    ensures TurnOf(remote, files, saved, true, remote, files - {f}, saved - {f}, f)
  {
  }

  /** A turn that found the name as it was at first. */
  lemma EffectAfter(remote: Remotes, files: Files, saved: Versions, done: bool,
                    remote1: Remotes, files1: Files, saved1: Versions,
                    remote': Remotes, files': Files, saved': Versions, f: string)
    requires Untouched(remote, files, saved, remote1, files1, saved1, f)
    requires Effect(remote1, files1, saved1, done, remote', files', saved', f)
    ensures Effect(remote, files, saved, done, remote', files', saved', f)
  {
  }

  /** A turn after which the name stayed as it was. */
  lemma EffectBefore(remote: Remotes, files: Files, saved: Versions, done: bool,
                     remote1: Remotes, files1: Files, saved1: Versions,
                     remote': Remotes, files': Files, saved': Versions, f: string)
    requires Effect(remote, files, saved, done, remote1, files1, saved1, f)
    requires Untouched(remote1, files1, saved1, remote', files', saved', f)
    ensures Effect(remote, files, saved, done, remote', files', saved', f)
  {
  }

  // ------------------------------------------------------------- the loops

  /** The names among the first i of a listing that are not passed over. */
  function TurnsOf(order: seq<string>, i: nat, passed: set<string>): (turns: set<string>)
    requires i <= |order|
  {
    set j | 0 <= j < i && order[j] !in passed :: order[j]
  }

  /** A loop that ended with the turn of a name whose requests failed. */
  predicate StoppedIn(order: seq<string>, passed: set<string>, answered: string -> bool, turns: set<string>) {
    exists i | 0 <= i < |order| ::
      order[i] !in passed && !answered(order[i]) && turns == TurnsOf(order, i + 1, passed)
  }

  /** The names that have had their turn when a run ends, at its end or early. */
  predicate Reached(order: seq<string>, files: Files, remote: Remotes, answered: string -> bool, listed: bool,
                    completed: bool, done: set<string>) {
    var own := {"sync.py", "versions.json"};
    var ours, theirs := files.Keys - own, remote.Keys - files.Keys;
    if completed then done == ours + theirs
    else
      || StoppedIn(order, own, answered, done)
      || (!listed && done == ours)
      || (ours <= done <= ours + theirs && exists f :: f in done - ours && !answered(f))
  }

  lemma NextOf(order: seq<string>, names: set<string>, i: nat, passed: set<string>)
    requires i < |order| && NoDuplicates(order) && forall f :: f in order <==> f in names
    ensures order[i] in names && order[i] !in TurnsOf(order, i, passed)
    ensures TurnsOf(order, i + 1, passed) ==
            if order[i] in passed then TurnsOf(order, i, passed) else TurnsOf(order, i, passed) + {order[i]}
    ensures TurnsOf(order, i + 1, passed) <= names - passed
  {
  }

  lemma AllTurns(order: seq<string>, names: set<string>, passed: set<string>)
    requires forall f :: f in order <==> f in names
    ensures TurnsOf(order, |order|, passed) == names - passed
  {
    forall f | f in names - passed
      ensures f in TurnsOf(order, |order|, passed)
    {
      var j :| 0 <= j < |order| && order[j] == f;
    }
  }

  /** The names in `turns` have had their turn, everything else is as it was. */
  ghost predicate AfterTurns(remote: Remotes, files: Files, saved: Versions,
                             turns: set<string>, answered: string -> bool,
                             remote': Remotes, files': Files, saved': Versions) {
    forall f ::
      if f in turns
      then Effect(remote, files, saved, answered(f), remote', files', saved', f)
      else Untouched(remote, files, saved, remote', files', saved', f)
  }

  lemma NextTurn(remote0: Remotes, files0: Files, saved0: Versions, turns: set<string>, answered: string -> bool,
                 remote: Remotes, files: Files, saved: Versions,
                 remote': Remotes, files': Files, saved': Versions, f: string)
    requires AfterTurns(remote0, files0, saved0, turns, answered, remote, files, saved) && f !in turns
    requires TurnOf(remote, files, saved, answered(f), remote', files', saved', f)
    ensures AfterTurns(remote0, files0, saved0, turns + {f}, answered, remote', files', saved')
  {
    forall g
      ensures if g in turns + {f}
              then Effect(remote0, files0, saved0, answered(g), remote', files', saved', g)
              else Untouched(remote0, files0, saved0, remote', files', saved', g)
    {
      if g == f {
        EffectAfter(remote0, files0, saved0, answered(f), remote, files, saved, remote', files', saved', f);
      } else {
        assert Untouched(remote, files, saved, remote', files', saved', g);
        if g in turns {
          EffectBefore(remote0, files0, saved0, answered(g), remote, files, saved, remote', files', saved', g);
        }
      }
    }
  }

  /** A name whose turn is still to come is where it was. */
  lemma StillThere(remote0: Remotes, files0: Files, saved0: Versions, turns: set<string>, answered: string -> bool,
                   remote: Remotes, files: Files, saved: Versions, f: string)
    requires AfterTurns(remote0, files0, saved0, turns, answered, remote, files, saved) && f !in turns
    ensures (f in files <==> f in files0) && (f in remote <==> f in remote0)
  {
    assert Untouched(remote0, files0, saved0, remote, files, saved, f);
  }

  /** Both loops together, one name. */
  lemma BothLoops(remote: Remotes, files: Files, saved: Versions, turns: set<string>, answered: string -> bool,
                  remote1: Remotes, files1: Files, saved1: Versions, turns1: set<string>,
                  remote': Remotes, files': Files, saved': Versions, f: string)
    requires AfterTurns(remote, files, saved, turns, answered, remote1, files1, saved1) && turns <= files.Keys
    requires AfterTurns(remote1, files1, saved1, turns1, answered, remote', files', saved')
    requires turns1 <= remote1.Keys - files1.Keys
    ensures if f in turns + turns1 then Effect(remote, files, saved, answered(f), remote', files', saved', f)
            else Untouched(remote, files, saved, remote', files', saved', f)
  {
    if f in turns {
      EffectBefore(remote, files, saved, answered(f), remote1, files1, saved1, remote', files', saved', f);
    } else if f in turns1 {
      EffectAfter(remote, files, saved, answered(f), remote1, files1, saved1, remote', files', saved', f);
    } else {
      assert Untouched(remote, files, saved, remote1, files1, saved1, f);
      assert Untouched(remote1, files1, saved1, remote', files', saved', f);
    }
  }

  lemma AllLoops(remote: Remotes, files: Files, saved: Versions, turns: set<string>, answered: string -> bool,
                 remote1: Remotes, files1: Files, saved1: Versions, turns1: set<string>,
                 remote': Remotes, files': Files, saved': Versions)
    requires AfterTurns(remote, files, saved, turns, answered, remote1, files1, saved1) && turns <= files.Keys
    requires AfterTurns(remote1, files1, saved1, turns1, answered, remote', files', saved')
    requires turns1 <= remote1.Keys - files1.Keys
    ensures AfterTurns(remote, files, saved, turns + turns1, answered, remote', files', saved')
  {
    forall f
      ensures if f in turns + turns1 then Effect(remote, files, saved, answered(f), remote', files', saved', f)
              else Untouched(remote, files, saved, remote', files', saved', f)
    {
      BothLoops(remote, files, saved, turns, answered, remote1, files1, saved1, turns1, remote', files', saved', f);
    }
  }

  /** The second loop's names are the server's that were no local files to begin with. */
  lemma SameRest(remote: Remotes, files: Files, saved: Versions, turns: set<string>, answered: string -> bool,
                 remote1: Remotes, files1: Files, saved1: Versions)
    requires AfterTurns(remote, files, saved, turns, answered, remote1, files1, saved1) && turns <= files.Keys
    ensures remote1.Keys - files1.Keys == remote.Keys - files.Keys
  {
    forall f
      ensures f in remote1.Keys - files1.Keys <==> f in remote.Keys - files.Keys
    {
      assert if f in turns then Effect(remote, files, saved, answered(f), remote1, files1, saved1, f)
             else Untouched(remote, files, saved, remote1, files1, saved1, f);
    }
  }

  // -------------------------------------------------- what follows for a run

  /** Whatever fails, a run keeps the promise. */
  lemma RunKeepsConsistent(remote: Remotes, files: Files, saved: Versions, clock: nat,
                           done: set<string>, answered: string -> bool,
                           remote': Remotes, files': Files, saved': Versions, clock': nat)
    requires Consistent(remote, files, saved, clock) && Dated(files', saved', clock')
    requires AfterTurns(remote, files, saved, done, answered, remote', files', saved')
    ensures Consistent(remote', files', saved', clock')
  {
    forall f | f in saved' && f in remote' && f in files'
      ensures saved'[f].version <= remote'[f].version
      ensures saved'[f].version == remote'[f].version && files'[f].mtime <= saved'[f].modTime ==>
                files'[f].content == ContentOf(remote'[f])
    {
      assert f !in done ==> Untouched(remote, files, saved, remote', files', saved', f);
    }
  }

  /** A name that had its turn ends up synced exactly when it was not left alone out of sync. */
  lemma SyncedIff(remote: Remotes, files: Files, saved: Versions,
                  remote': Remotes, files': Files, saved': Versions, f: string)
    requires Outcome(remote, files, saved, remote', files', saved', f)
    ensures Synced(remote', files', saved', f) <==>
            (LeftAlone(remote, files, saved, f) ==> Synced(remote, files, saved, f))
  {
  }

  /** From a consistent state every answered name whose turn came ends up synced; so a whole run converges. */
  lemma RunConverges(remote: Remotes, files: Files, saved: Versions, clock: nat,
                     done: set<string>, answered: string -> bool,
                     remote': Remotes, files': Files, saved': Versions)
    requires Consistent(remote, files, saved, clock)
    requires AfterTurns(remote, files, saved, done, answered, remote', files', saved')
    ensures forall f | f in done && answered(f) :: Synced(remote', files', saved', f)
    ensures files.Keys + remote.Keys - OWN_FILES <= done && (forall f :: answered(f)) ==>
              AllSynced(remote', files', saved')
  {
    forall f | f in done && answered(f)
      ensures Synced(remote', files', saved', f)
    {
      assert Effect(remote, files, saved, true, remote', files', saved', f);
      SyncedIff(remote, files, saved, remote', files', saved', f);
    }
    forall f | f !in done && f !in files && f !in remote
      ensures Synced(remote', files', saved', f)
    {
      assert Untouched(remote, files, saved, remote', files', saved', f);
    }
  }

  /** What the server still has of a name after a run is as it was, or newer. */
  predicate Newer(remote: Remotes, remote': Remotes, f: string) {
    f in remote && f in remote' ==> remote'[f] == remote[f] || remote[f].version < remote'[f].version
  }

  /** A run never takes a version back. */
  lemma RunKeepsNewer(remote: Remotes, files: Files, saved: Versions, done: set<string>, answered: string -> bool,
                      remote': Remotes, files': Files, saved': Versions)
    requires AfterTurns(remote, files, saved, done, answered, remote', files', saved')
    ensures forall f :: Newer(remote, remote', f)
  {
    forall f
      ensures Newer(remote, remote', f)
    {
      assert if f in done then Effect(remote, files, saved, answered(f), remote', files', saved', f)
             else Untouched(remote, files, saved, remote', files', saved', f);
    }
  }

  /** Nothing edited, added or deleted since the last sync that the server does not know. */
  ghost predicate NothingToPush(remote: Remotes, files: Files, saved: Versions) {
    && (forall f | f !in OWN_FILES :: NoEdit(files, saved, f))
    && (forall f | f in saved && f !in OWN_FILES && f !in files :: f !in remote)
  }

  /** A client with nothing to push leaves the server as it is. */
  lemma NothingPushed(remote: Remotes, files: Files, saved: Versions, done: set<string>, answered: string -> bool,
                      remote': Remotes, files': Files, saved': Versions)
    requires NothingToPush(remote, files, saved) && done !! OWN_FILES
    requires AfterTurns(remote, files, saved, done, answered, remote', files', saved')
    ensures remote' == remote
  {
    forall f
      ensures Find(remote', f) == Find(remote, f)
    {
      assert f !in OWN_FILES ==> NoEdit(files, saved, f);
      assert if f in done then Effect(remote, files, saved, answered(f), remote', files', saved', f)
             else Untouched(remote, files, saved, remote', files', saved', f);
    }
    assert forall f :: f in remote' <==> f in remote by {
      forall f
        ensures f in remote' <==> f in remote
      {
        assert Find(remote', f) == Find(remote, f);
      }
    }
    forall f | f in remote
      ensures remote'[f] == remote[f]
    {
      assert Find(remote', f) == Find(remote, f);
    }
  }
}

/** Two clients of one user that run the sync script in turn. */
module SyncPair {
  import opened LevelDb
  import opened MetadataSpec
  import opened CacheNode
  import opened SyncModel
  import opened SyncServers
  import opened SyncScript

  /** os.listdir: every name once, in any order. */
  method ListDirectory(files: Files) returns (order: seq<string>)
    ensures NoDuplicates(order) && forall f :: f in order <==> f in files
  {
    order := [];
    var rest := files.Keys;
    while rest != {}
      invariant rest <= files.Keys && NoDuplicates(order)
      invariant forall f :: f in order <==> f in files && f !in rest
    {
      var f :| f in rest;
      order, rest := order + [f], rest - {f};
    }
  }

  const ALL := (f: string) => true

  /** A name this client remembers and the server has lost, which the other will send up as new. */
  predicate ComesBack(remote: Remotes, saved: Versions, others: Files, theirs: Versions, f: string) {
    f in saved && f !in remote && f in others && f !in theirs
  }

  /** It comes back to a client that has only the entry, and so deletes it. */
  predicate Forgotten(remote: Remotes, files: Files, saved: Versions, others: Files, theirs: Versions, f: string) {
    ComesBack(remote, saved, others, theirs, f) && f !in files
  }

  /** The name comes back over a copy that the new start fits: version 0, and the same content unless edited. */
  predicate Fits(files: Files, saved: Versions, others: Files, f: string)
    requires f in saved && f in others
  {
    f in files ==> saved[f].version == 0 && (NoEdit(files, saved, f) ==> files[f].content == others[f].content)
  }

  /** It comes back to a client whose unedited copy, of another content or a later version, stays as it is. */
  predicate Outlived(remote: Remotes, files: Files, saved: Versions, others: Files, theirs: Versions, f: string) {
    ComesBack(remote, saved, others, theirs, f) && !Fits(files, saved, others, f) && NoEdit(files, saved, f)
  }

  /** Same presence, content and version of a name on both sides. */
  predicate SameAt(files: Files, saved: Versions, others: Files, theirs: Versions, f: string) {
    && (f in files <==> f in others)
    && (f in files ==>
          f in saved && f in theirs && files[f].content == others[f].content && saved[f].version == theirs[f].version)
  }

  /** Three runs in turn, one name. */
  lemma ThreeRuns(remote0: Remotes, a0: Files, savedA0: Versions, clockA: nat,
                  b0: Files, savedB0: Versions, clockB: nat,
                  remote1: Remotes, a1: Files, savedA1: Versions,
                  remote2: Remotes, b2: Files, savedB2: Versions,
                  remote3: Remotes, a3: Files, savedA3: Versions, f: string)
    requires Consistent(remote0, a0, savedA0, clockA) && Consistent(remote0, b0, savedB0, clockB)
    requires Outcome(remote0, a0, savedA0, remote1, a1, savedA1, f)
    requires Outcome(remote1, b0, savedB0, remote2, b2, savedB2, f)
    requires Outcome(remote2, a1, savedA1, remote3, a3, savedA3, f)
    ensures SameAt(a3, savedA3, b2, savedB2, f) <==>
            !Forgotten(remote0, a0, savedA0, b0, savedB0, f) && !Outlived(remote0, b0, savedB0, a0, savedA0, f)
    ensures Synced(remote3, a3, savedA3, f)
  {
  }

  /** The three runs case by case: which names are left in the end, and whose content they have. */
  lemma ThreeRunsInFields(remote0: Remotes, a0: Files, savedA0: Versions, clockA: nat,
                          b0: Files, savedB0: Versions, clockB: nat,
                          remote1: Remotes, a1: Files, savedA1: Versions,
                          remote2: Remotes, b2: Files, savedB2: Versions,
                          remote3: Remotes, a3: Files, savedA3: Versions, f: string)
    requires Consistent(remote0, a0, savedA0, clockA) && Consistent(remote0, b0, savedB0, clockB)
    requires Outcome(remote0, a0, savedA0, remote1, a1, savedA1, f)
    requires Outcome(remote1, b0, savedB0, remote2, b2, savedB2, f)
    requires Outcome(remote2, a1, savedA1, remote3, a3, savedA3, f)
    // in sync on both sides: nothing happens
    ensures Synced(remote0, a0, savedA0, f) && Synced(remote0, b0, savedB0, f) && f in remote0 ==>
              && f in remote3 && remote3[f] == remote0[f]
              && f in a3 && a3[f] == a0[f] && f in b2 && b2[f] == b0[f]
    // new on one side only
    ensures f !in remote0 && f !in savedA0 && f !in savedB0 && f in a0 && f !in b0 ==>
              f in a3 && f in b2 && a3[f].content == b2[f].content == a0[f].content
    ensures f !in remote0 && f !in savedA0 && f !in savedB0 && f !in a0 && f in b0 ==>
              f in a3 && f in b2 && a3[f].content == b2[f].content == b0[f].content
    // new on both sides: the first to run
    ensures f !in remote0 && f !in savedA0 && f !in savedB0 && f in a0 && f in b0 ==>
              f in a3 && f in b2 && a3[f].content == b2[f].content == a0[f].content
    // edited on one side, the other in sync
    ensures f in remote0 && f in a0 && f in savedA0 && savedA0[f].modTime < a0[f].mtime
            && Synced(remote0, b0, savedB0, f) ==>
              f in a3 && f in b2 && a3[f].content == b2[f].content == a0[f].content
    ensures f in remote0 && f in b0 && f in savedB0 && savedB0[f].modTime < b0[f].mtime
            && Synced(remote0, a0, savedA0, f) ==>
              f in a3 && f in b2 && a3[f].content == b2[f].content == b0[f].content
    // edited on both sides: the last to run
    ensures f in remote0 && f in a0 && f in savedA0 && savedA0[f].modTime < a0[f].mtime
            && f in b0 && f in savedB0 && savedB0[f].modTime < b0[f].mtime ==>
              f in a3 && f in b2 && a3[f].content == b2[f].content == b0[f].content
    // deleted on one side, the other not edited
    ensures f in remote0 && f !in a0 && f in savedA0 && Synced(remote0, b0, savedB0, f) ==>
              f !in a3 && f !in b2 && f !in remote3
    ensures f in remote0 && f !in b0 && f in savedB0 && Synced(remote0, a0, savedA0, f) ==>
              f !in a3 && f !in b2 && f !in remote3
  {
  }

  /** Which names end up the same on both sides. */
  ghost predicate InStep(remote: Remotes, files: Files, saved: Versions, others: Files, theirs: Versions,
                         files': Files, saved': Versions, others': Files, theirs': Versions) {
    forall f | f !in OWN_FILES ::
      SameAt(files', saved', others', theirs', f) <==>
      !Forgotten(remote, files, saved, others, theirs, f) && !Outlived(remote, others, theirs, files, saved, f)
  }

  /** A run whose requests are all answered. */
  ghost predicate WholeRun(remote: Remotes, files: Files, saved: Versions,
                           remote': Remotes, files': Files, saved': Versions) {
    AfterTurns(remote, files, saved, files.Keys - OWN_FILES + (remote.Keys - files.Keys), ALL, remote', files', saved')
  }

  lemma WholeRunOf(remote: Remotes, files: Files, saved: Versions,
                   remote': Remotes, files': Files, saved': Versions, f: string)
    requires WholeRun(remote, files, saved, remote', files', saved') && f !in OWN_FILES
    ensures Outcome(remote, files, saved, remote', files', saved', f)
  {
    assert if f in files || f in remote then Effect(remote, files, saved, ALL(f), remote', files', saved', f)
           else Untouched(remote, files, saved, remote', files', saved', f);
  }

  /** Another client's run keeps this client's promise exactly when each name that comes back to it fits. */
  lemma PeerKeepsConsistentIff(remote: Remotes, files: Files, saved: Versions, clock: nat,
                               peer: Files, theirs: Versions, remote': Remotes, peer': Files, theirs': Versions)
    requires Consistent(remote, files, saved, clock)
    requires WholeRun(remote, peer, theirs, remote', peer', theirs') && remote'.Keys !! OWN_FILES
    ensures Consistent(remote', files, saved, clock) <==>
            forall f | ComesBack(remote, saved, peer, theirs, f) && f !in OWN_FILES :: Fits(files, saved, peer, f)
  {
    forall f | f !in OWN_FILES
      ensures Outcome(remote, peer, theirs, remote', peer', theirs', f)
    {
      WholeRunOf(remote, peer, theirs, remote', peer', theirs', f);
    }
    forall f | ComesBack(remote, saved, peer, theirs, f) && f !in OWN_FILES
      ensures f in remote' && remote'[f].version == 0 && ContentOf(remote'[f]) == peer[f].content
    {
      assert Pushed(remote, peer, theirs, f);
    }
  }

  lemma AllThreeRuns(remote0: Remotes, a0: Files, savedA0: Versions, clockA: nat,
                     b0: Files, savedB0: Versions, clockB: nat,
                     remote1: Remotes, a1: Files, savedA1: Versions,
                     remote2: Remotes, b2: Files, savedB2: Versions,
                     remote3: Remotes, a3: Files, savedA3: Versions)
    requires Consistent(remote0, a0, savedA0, clockA) && Consistent(remote0, b0, savedB0, clockB)
    requires WholeRun(remote0, a0, savedA0, remote1, a1, savedA1)
    requires WholeRun(remote1, b0, savedB0, remote2, b2, savedB2)
    requires WholeRun(remote2, a1, savedA1, remote3, a3, savedA3)
    ensures InStep(remote0, a0, savedA0, b0, savedB0, a3, savedA3, b2, savedB2)
    ensures AllSynced(remote3, a3, savedA3)
  {
    forall f | f !in OWN_FILES
      ensures Synced(remote3, a3, savedA3, f)
      ensures SameAt(a3, savedA3, b2, savedB2, f) <==>
              !Forgotten(remote0, a0, savedA0, b0, savedB0, f) && !Outlived(remote0, b0, savedB0, a0, savedA0, f)
    {
      WholeRunOf(remote0, a0, savedA0, remote1, a1, savedA1, f);
      WholeRunOf(remote1, b0, savedB0, remote2, b2, savedB2, f);
      WholeRunOf(remote2, a1, savedA1, remote3, a3, savedA3, f);
      ThreeRuns(remote0, a0, savedA0, clockA, b0, savedB0, clockB, remote1, a1, savedA1, remote2, b2, savedB2,
                remote3, a3, savedA3, f);
    }
  }

  /** What another client's run needs of this one afterwards. */
  lemma StillAgrees(cache: Db, blocks: Blocks, blocks': Blocks)
    requires Agrees(cache, blocks) && Grown(blocks, blocks')
    ensures Agrees(cache, blocks')
  {
  }

  /** Both clients know the servers as they are. */
  ghost predicate Together(a: SyncClient, b: SyncClient)
    reads a, a.meta, a.cache.origin, a.cache.db.server, b, b.meta, b.cache.origin, b.cache.db.server
  {
    && a != b && SameServers(a, b)
    && a.Valid() && b.Valid() && a.remote == b.remote
    && Dated(a.files, a.saved, a.clock) && Dated(b.files, b.saved, b.clock)
  }

  /** The other client has run; this one takes over what is known of the servers. */
  ghost method StandBy(b: SyncClient, a: SyncClient, blocks0: Blocks)
    requires a != b && SameServers(a, b) && a.Valid()
    requires Dated(a.files, a.saved, a.clock) && Dated(b.files, b.saved, b.clock)
    requires b.cache.Valid() && AllNameable(b.files, b.inPlay) && Grown(blocks0, a.cache.origin.blocks)
    requires b.cache.db.server == a.cache.db.server || Agrees(b.cache.db.server.db, blocks0)
    modifies b`remote, b`catalog
    ensures Together(a, b)
  {
    if b.cache.db.server != a.cache.db.server {
      StillAgrees(b.cache.db.server.db, blocks0, a.cache.origin.blocks);
    }
    b.CatchUp(a);
  }

  /** One client runs while the other stands by, and then takes over what is known of the servers. */
  method Turn(a: SyncClient, b: SyncClient)
    requires Together(a, b)
    modifies a, b`remote, b`catalog, a.meta, a.cache.origin, a.cache.db.server`db, a.cache.db.server.buffer
    ensures Together(a, b)
    ensures WholeRun(old(a.remote), old(a.files), old(a.saved), a.remote, a.files, a.saved)
    ensures a.OnlyForward() && b.OnlyForward()
  {
    ghost var blocks0 := a.cache.origin.blocks;
    var order := ListDirectory(a.files);
    ghost var done;
    var completed;
    completed, done := a.Run(order, ALL, true);
    StandBy(b, a, blocks0);
  }

  /** One turn each; the ghost results are what the first run left. */
  method EachOnce(a: SyncClient, b: SyncClient)
    returns (ghost remote1: Remotes, ghost files1: Files, ghost saved1: Versions)
    requires Together(a, b)
    modifies a, b, a.meta, a.cache.origin
    modifies a.cache.db.server`db, a.cache.db.server.buffer, b.cache.db.server`db, b.cache.db.server.buffer
    ensures Together(a, b) && a.files == files1 && a.saved == saved1
    ensures WholeRun(old(a.remote), old(a.files), old(a.saved), remote1, files1, saved1)
    ensures WholeRun(remote1, old(b.files), old(b.saved), b.remote, b.files, b.saved)
    ensures a.OnlyForward() && b.OnlyForward()
  {
    Turn(a, b);
    remote1, files1, saved1 := a.remote, a.files, a.saved;
    ghost var a1, b1 := a.Around(), b.Around();
    Turn(b, a);
    ForwardOn(old(a.Around()), a1, a.Around());
    ForwardOn(old(b.Around()), b1, b.Around());
  }

  /** The first client once more. */
  method ThreeTurns(a: SyncClient, b: SyncClient)
    returns (ghost remote1: Remotes, ghost files1: Files, ghost saved1: Versions, ghost remote2: Remotes)
    requires Together(a, b)
    modifies a, b, a.meta, a.cache.origin
    modifies a.cache.db.server`db, a.cache.db.server.buffer, b.cache.db.server`db, b.cache.db.server.buffer
    ensures Together(a, b)
    ensures WholeRun(old(a.remote), old(a.files), old(a.saved), remote1, files1, saved1)
    ensures WholeRun(remote1, old(b.files), old(b.saved), remote2, b.files, b.saved)
    ensures WholeRun(remote2, files1, saved1, a.remote, a.files, a.saved)
    ensures a.OnlyForward() && b.OnlyForward()
  {
    remote1, files1, saved1 := EachOnce(a, b);
    remote2 := a.remote;
    ghost var a2, b2 := a.Around(), b.Around();
    Turn(a, b);
    ForwardOn(old(a.Around()), a2, a.Around());
    ForwardOn(old(b.Around()), b2, b.Around());
  }

  /**
   Two-client convergence.  One client runs, then the other, then the first again, with the
   servers reachable.  Whatever each had edited, added or deleted, each name is then the same on
   both sides -- there or not, with one content under one version -- exactly when it is not a
   removed name that one client still remembers and the other sends up as new: the first must
   not have forgotten its file, nor the second have kept another content of it unedited.  The
   first client and the server then hold the same in any case.  What became of each name follows
   from the three runs: `remote1`, `files1` and `saved1` are what the first left, and `remote2`
   what the second left on the server.
   */
  method SyncInTurn(a: SyncClient, b: SyncClient)
    returns (ghost remote1: Remotes, ghost files1: Files, ghost saved1: Versions, ghost remote2: Remotes)
    requires Together(a, b)
    requires Consistent(a.remote, a.files, a.saved, a.clock) && Consistent(b.remote, b.files, b.saved, b.clock)
    modifies a, b, a.meta, a.cache.origin
    modifies a.cache.db.server`db, a.cache.db.server.buffer, b.cache.db.server`db, b.cache.db.server.buffer
    ensures Together(a, b)
    ensures InStep(old(a.remote), old(a.files), old(a.saved), old(b.files), old(b.saved),
                   a.files, a.saved, b.files, b.saved)
    ensures AllSynced(a.remote, a.files, a.saved)
    ensures WholeRun(old(a.remote), old(a.files), old(a.saved), remote1, files1, saved1)
    ensures WholeRun(remote1, old(b.files), old(b.saved), remote2, b.files, b.saved)
    ensures WholeRun(remote2, files1, saved1, a.remote, a.files, a.saved)
    ensures a.OnlyForward() && b.OnlyForward()
  {
    remote1, files1, saved1, remote2 := ThreeTurns(a, b);
    AllThreeRuns(old(a.remote), old(a.files), old(a.saved), old(a.clock), old(b.files), old(b.saved), old(b.clock),
                 remote1, files1, saved1, remote2, b.files, b.saved, a.remote, a.files, a.saved);
  }
}

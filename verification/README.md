# Balabox in Dafny

Balabox keeps a directory of files the same on several computers. A Python script on each
computer (`client/sync.py`) splits files into 4 MiB blocks named by their SHA-256 digest. A
metadata server keeps, in one SQL table, which blocks in which order and version make up each
file of each user. A block server keeps the blocks. Cache hosts stand in front of the block
server, keep what they have fetched in a local store reached over a small RPC, and prefetch a
user's recent blocks.

Nothing in the program takes a lock, and a commit is not a transaction. What holds anyway rests
on three habits: blocks are stored before they are listed, blocks are never deleted, and versions
only grow. The project states what follows from that and proves it.

| file | what it models |
|---|---|
| `Basics.dfy` | bytes, digests, concatenation |
| `FileBlockTable.dfy`, `MetadataSpec.dfy`, `Metadata.dfy` | the `FileBlock` table, its SQL statements, and the class around them; the table refines a map from (user, file) to (version, hash list) |
| `LevelDb.dfy` | the cache RPC from command printing through framing, packets, parsing and reply; it refines a map |
| `CacheNode.dfy` | the block server, the cache host's fetch and the prefetcher |
| `BlockNames.dfy` | the file names of downloaded blocks and the shell's order of them |
| `SyncModel.dfy`, `SyncServers.dfy`, `SyncScript.dfy` | the sync script as a class that works on the three servers' classes |
| `SyncPair.dfy` | two clients of one user that run the script in turn |
| `UploadMachine.dfy`, `CacheMachine.dfy`, `WholeFiles.dfy` | any number of uploads, downloads, removals and prefetch rounds, interleaved at single statements |
| `OneStepCommits.dfy`, `CommitCheck.dfy` | when the statements of those commits amount to one-step commits, and what the version check then decides |
| `VersionMachine.dfy`, `VersionCheck.dfy`, `VersionContents.dfy` | any number of clients of one user, with a commit as one step: the machine, what its version check decides, and what versions say about contents |
| `ProcessesAlone.dfy`, `ClientsAlone.dfy` | what one process, or one client, of these two machines does when nothing else moves: what the classes' methods do |
| `Limits.dfy` | runs that leave the hypotheses of these machines, and what goes wrong then |
| `QueryParams.dfy` | the two query-string parsers |
| `SkipSpace.dfy` | the word-at-a-time loop of a vendored header |

`dafny verify dfyconfig.toml` checks everything.

## Main results

- In every run of any number of uploads, downloads, removals and prefetch rounds, interleaved at
  single SELECT, DELETE, INSERT, block-store and cache steps, each hash in a row is held by the
  block server with bytes that hash to it (`UploadMachine.ListedBlocksAreHeld`). The only steps
  left out are those in which a failing SELECT cuts a block query short before a block that is
  neither held nor known to be missing; the step condition is exact
  (`UploadMachine.StepKeepsServerIff`), and `Limits.CutQueryListsUnheldBlock` is a run with such a
  step.
- In every such run in which misses are answered, each cached entry is the block server's and each
  download has received blocks that hash to the list it read (`CacheMachine.CachesAgree`); the
  exact condition for one miss is `CacheNode.MissKeepsAgreementIff`.
- In every such run each file's rows are the first blocks of one upload, as long as no DELETE of a
  file hits a commit of that file that is still inserting (`WholeFiles.HitFreeRunsAreWhole`); and
  the guard is exact: one hit, and the next INSERTs leave rows of no block list at all
  (`WholeFiles.WholeIffNoHit`).
- The statements of a run amount to one-step commits, each at its DELETE and each passing the
  version check there, as long as no action gets in the way of a commit between its check and its
  last INSERT (`OneStepCommits.ClashFreeCommitsAreOneStep`). That guard, too, is exact
  (`OneStepCommits.StepRefinesIff`); whole files alone are not enough, for a version can then go
  back (`Limits.OvertakenCommitGoesBack`).
- The machines are the program's: run alone, a process of the statement machine does what the contracts
  of block_query, updateFileData, cache_block_fetch and a prefetch round say
  (`ProcessesAlone.QueryEnds`, `CommitEnds`, `MissAlone`, `PrefetchAlone`), and a client of the version
  machine does to one name what the sync script does (`ClientsAlone.LocalTurnAlone`,
  `ListedTurnAlone`).
- At every statement boundary of a commit a reader sees the whole old list or a prefix of the new
  one, and no other file changes (`MetadataSpec.BoundaryBlockList`).
- No lost update: with a commit as one step, a commit is accepted exactly when nobody changed the
  file since its block list was read. This holds in every run in which no removed name is
  committed again, whatever is edited and wherever clients and commits stop
  (`VersionCheck.AcceptedIffUnchanged`), and in every run at all for a file not removed since the
  list was read and a version one above the listed one
  (`VersionCheck.AcceptedIffUnchangedSinceRead`). Neither of these last two conditions can go:
  `VersionLimits.RecreationDefeatsTheCheck` fails the first and `VersionLimits.AheadDefeatsTheCheck`
  the second.
- The same for single statements: in every run without clashes the check of the version after the
  listed one accepts exactly when no DELETE has touched the file since the listing
  (`CommitCheck.AcceptedIffUntouched`, `CommitCheck.AcceptedIffUntouchedSinceRead`).
- Transfers deliver: in every run of many clients without re-created names, whatever is edited and
  whoever crashes, a server still at the version that a client has just sent or fetched has the
  content that the client's file then had (`VersionContents.TransfersDeliver`).
- So if nobody edits a file in the second of its sync, or between the reading or writing of it and
  the entry in `versions.json`, then over all those runs a saved version never exceeds that of a
  file the server still has, and equal versions with no later edit mean equal content
  (`VersionContents.ClientsAreConsistent`). For each of the three conditions a lemma gives the exact
  condition of one step: `SyncModel.RecreationKeepsConsistentIff`,
  `VersionContents.EditKeepsClientIff`, `VersionContents.RecordKeepsClientIff`.
- One undisturbed run of the script, from any state and whatever requests fail, makes of each name
  whose turn came exactly what its two sides call for -- sent up with this client's content under
  the next version, fetched, left alone, or deleted -- unless the name's own requests failed; then
  nothing has changed on this side, and on the server at most that one step is half done. Every
  other name is untouched. The run reaches all names, or ends at one whose requests failed, after
  all those before it (`SyncScript.SyncClient.Run`). So the promise above is kept and no version
  goes back; from a state that keeps it every answered name that was reached is synced, and a run
  whose requests are all answered brings both sides to the same names, contents and versions
  (`SyncScript.SyncClient.Sync`). A run from there moves nothing. No run touches another user's rows or
  the script's own two files. `SyncModel.OutcomeInFields` spells the outcome out case by case.
- Two clients run in turn -- one, the other, the first again -- whatever each had edited, added or
  deleted. A name then is the same on both sides, there or not, with one content under one
  version, exactly when it is not a removed name that one client still remembers, without the file
  or with an unedited copy that does not fit, and the other sends up as new. In any case the first
  client and the server hold the same (`SyncPair.SyncInTurn`); and `SyncPair.ThreeRunsInFields` says
  whose content each name ends up with: what was in sync stays, what is new or edited on one side
  reaches the other, of two new files the first client's stays and of two edits the second's, and
  what one side deleted is gone from both.
- A file uploaded by one client and downloaded by another through any cache that agrees with the
  block server comes back unchanged (`SyncScript.UploadThenDownload`).
- Any sequence of cache-store calls gives the answers of a plain map (`LevelDb.Perform`).

## Where code and documentation differ

- `docs/metadata_api.md:26` asks for a version exactly one above the server's; the code accepts
  any larger one. `VersionCheck.AcceptedIffUnchangedSinceRead` shows what the client's own rule
  (`SyncModel.UploadVersion`) buys.
- `metadata/include/mysql/m_string.h:263` says the result is the last non-space character; the
  code returns the address just behind it, and so does the model.

## Model

| member | source | states |
|---|---|---|
| FileBlockTable.DeleteKeepsOthers | metadata/src/mysql_helper.cc:126-127 | deleting one file's rows leaves every other file's rows as they were, in order |
| FileBlockTable.DeleteRemoves | metadata/src/mysql_helper.cc:126-127 | afterwards the file has no rows, and deleting again changes nothing |
| FileBlockTable.SelectionsExact | metadata/src/mysql_helper.cc:126-221 | in terms of the columns: the selections by file and by user, and what a DELETE leaves, take each row as often as it occurs or not at all |
| FileBlockTable.OtherRowsKept | metadata/src/mysql_helper.cc:126-154 | when the rows of all other users are as before, so is all that anyone else can select |
| FileBlockTable.DeleteKeepsOtherRows | metadata/src/mysql_helper.cc:126-154 | a DELETE leaves the rows of all other users as they were, in order |
| FileBlockTable.WhereInsert | metadata/src/mysql_helper.cc:133-135 | an INSERT, wherever the engine puts the row, adds it to exactly the selections it satisfies |
| FileBlockTable.CountHash | metadata/src/mysql_helper.cc:71-83 | the count is 0 exactly when no row of any user carries the hash |
| FileBlockTable.OrderBy | metadata/src/mysql_helper.cc:161-162 | ORDER BY permutes the rows and sorts them by the key |
| FileBlockTable.HoldsGivesList | metadata/src/mysql_helper.cc:161-179 | rows that hold blocks 0..n-1 once each under one version, in any storage order, are read back as exactly that hash list and version |
| MetadataSpec.TraceRows | metadata/src/mysql_helper.cc:125-139 | after the DELETE and j INSERTs the file's rows are exactly the first j blocks, and all other rows are as before |
| MetadataSpec.TraceKeepsOtherRows | metadata/src/mysql_helper.cc:125-139 | at every statement boundary of a commit the rows of all other users are as before, in order |
| MetadataSpec.BoundaryBlockList | metadata/src/mysql_helper.cc:125-141 | at every statement boundary of a commit the block list is the whole old one or a prefix of the new one; no other file's rows change |
| MetadataSpec.BoundaryRepresents | metadata/src/mysql_helper.cc:95-142 | every boundary refines a map: the old one, or the old one with the new prefix; an empty list is a removal |
| MetadataSpec.AcceptsIsMayCommit | metadata/src/mysql_helper.cc:99-123 | the version check on whichever row comes first decides as the check on the map does |
| MetadataSpec.RemovalRepresents | metadata/src/mysql_helper.cc:144-154 | removing a file's rows removes its key from the map |
| MetadataSpec.ReadsTheMap | metadata/src/mysql_helper.cc:156-183 | the block list and version read from the rows are the map's; a file without rows reads as absent |
| MetadataSpec.ListedOnceIffOneVersion | metadata/src/mysql_helper.cc:190-191 | the file list names no file twice exactly when each file's rows carry one version |
| MetadataSpec.FileListIsTheMap | metadata/src/mysql_helper.cc:185-213 | on a table that refines a map the list is that user's names and versions, each file once |
| MetadataSpec.ListedIffRow | metadata/src/mysql_helper.cc:190-206 | on any table a name and version are listed exactly when a row of the user has both |
| MetadataSpec.RecentFirst | metadata/src/mysql_helper.cc:216-243 | rows of the user, as many as asked for if there are that many; none stands before one of smaller block number, or of the same and accessed later; a row is left out only when all rows it should precede are |
| MetadataSpec.LowerBlocksFirst | metadata/src/mysql_helper.hpp:101-105 | a block is listed only together with all the user's blocks of smaller number |
| Metadata.MissingHashesExact | metadata/src/mysql_helper.cc:69-86 | the answer goes through the asked hashes from left to right and takes each as often as it was asked for when no row carries it, and never otherwise |
| Metadata.MySQLHelper.GetMissingBlockHashes | metadata/src/mysql_helper.cc:64-90 | all missing hashes in the order asked, duplicates included; a failing SELECT returns its code with the answer for the hashes before it |
| Metadata.MySQLHelper.UpdateFileData | metadata/src/mysql_helper.cc:95-142 | the tables seen after each statement form a commit trace that starts at the old table; it stops before the first statement that fails, with that statement's code, or at the check with its own code, and otherwise is whole and the code 0 |
| Metadata.MySQLHelper.RemoveFile | metadata/src/mysql_helper.cc:144-154 | deletes the file's rows and nothing else, or reports the error and changes nothing |
| Metadata.MySQLHelper.GetFileBlockList | metadata/src/mysql_helper.cc:156-183 | the hashes in block order and the version of a row with the largest block number, or 0 when there are no rows |
| Metadata.MySQLHelper.GetUserFileNames | metadata/src/mysql_helper.cc:185-213 | the distinct (name, version) pairs of the user's rows, as two parallel lists |
| Metadata.MySQLHelper.GetRecentFirstHashes | metadata/src/mysql_helper.cc:215-243 | the hashes of the ordered and limited selection |
| Frames.IntRoundTrip | blockcache/http_helper.cpp:211-212 | a non-negative int read back from its four bytes is the int written |
| Frames.UnframeFrame | blockcache/http_helper.cpp:207-225 | extractBuffer undoes createBuffer for all data that fits |
| Frames.CreateBuffer | blockcache/http_helper.cpp:207-215 | the buffer holds length, data and zeros, and is one frame long |
| Frames.ExtractBuffer | blockcache/http_helper.cpp:219-225 | the data of the frame, as long as its length field says |
| Frames.SendFrame | blockcache/http_helper.cpp:149-165 | the packets put on the socket are the whole buffer, in order |
| Frames.RecvFrame | blockcache/leveldb_server.cpp:220-240 | for every schedule of receive sizes the buffer's start becomes the bytes sent and the rest stays; no write passes the end though every recv asks for a full packet; the loop ends |
| Frames.InsideIffOneFrame | blockcache/http_helper.cpp:171-189 | no schedule writes past the buffer exactly when the peer sends at most one frame |
| LevelDb.ParsePut | blockcache/leveldb_server.cpp:132-150 | a printed put is parsed as its key up to the first comma and all that follows; so it comes back as it was exactly when the key is comma-free, whatever bytes the value has |
| LevelDb.ParseGet | blockcache/leveldb_server.cpp:151-160 | a printed get is parsed as its key up to the first comma, and comes back as it was exactly when the key is comma-free |
| LevelDb.GetLine | blockcache/leveldb_server.cpp:134-140 | the text before the first comma and the text after it; all of it, and nothing, when there is no comma |
| LevelDb.LevelDBServer.Execute | blockcache/leveldb_server.cpp:132-179 | a put stores, a get reports the value or the failure text, anything else fails and changes nothing |
| LevelDb.LevelDBServer.Serve | blockcache/leveldb_server.cpp:209-284 | a framed command from the client is executed once and its framed reply sent |
| LevelDb.LevelDBHelper.SendLocalMsg | blockcache/http_helper.cpp:112-203 | the response is the server's reply to the message, and the store moves by that one command |
| LevelDb.LevelDBHelper.Get | blockcache/leveldb_helper.cc:18-35 | reads the map at the key the server sees; a value that spells the failure text reads as a miss and leaves the caller's string |
| LevelDb.LevelDBHelper.Put | blockcache/leveldb_helper.cc:37-52 | writes the map at the key the server sees; comma-free keys and their values are stored as they are |
| LevelDb.LevelDBHelper.AlreadyExists | blockcache/leveldb_helper.cc:54-57 | whether a get would succeed |
| LevelDb.Perform | blockcache/leveldb_helper.cc:18-57 | any sequence of puts and gets gives the answers of a plain map and leaves its contents |
| LevelDb.LatestPutAnswers | blockcache/leveldb_helper.cc:18-52 | a get answers with the latest earlier put of its key, unless that spells the failure text |
| CacheNode.BlockServer.Store | blockcache/block_store.cc:237-247 | the block is held under the given hash; all others stay |
| CacheNode.BlockServer.Fetch | blockcache/block_fetch.cc:191-209 | the block with code 200, an error page when the key is absent, nothing when the request gets no answer |
| CacheNode.CacheHost.CacheBlockFetch | blockcache/cache_block_fetch.cpp:170-190 | a hit is served and changes nothing; a miss is read through and stored whatever came back, for any hash parameter short enough for a frame |
| CacheNode.MissKeepsAgreementIff | blockcache/cache_block_fetch.cpp:178-190 | a miss keeps the cache in agreement exactly when the hash is held and the request answered (or the block is empty) |
| CacheNode.MissedExact | blockcache/prefetch.cpp:84-99 | picking goes through the listed hashes from left to right and takes each as often as it is listed when the cache cannot serve it, and never otherwise |
| CacheNode.CacheHost.PickHashes | blockcache/prefetch.cpp:84-99 | exactly the in-order subsequence the cache reports missing, duplicates included |
| CacheNode.FilledExact | blockcache/prefetch.cpp:177-196 | the loop stores exactly the picked hashes that were fetched with code 200; every other entry stays |
| CacheNode.CacheHost.FetchAndPut | blockcache/prefetch.cpp:177-196 | the store after the loop is that filling of the store before |
| CacheNode.CacheHost.PrefetchRound | blockcache/prefetch.cpp:156-198 | the code is the query's; after a round whose query and fetches are answered every recent hash the block server holds is cached, and what the cache could serve is unchanged |
| CacheNode.RoundEffect | blockcache/prefetch.cpp:175-196 | the same as a statement about the maps, and agreement with the block server is kept |
| BlockNames.NamesInOrderIff | client/sync.py:238-244 | the names of blocks 1..n sort in numeric order exactly when n is at most 99999 |
| BlockNames.SixDigitsSortEarly | client/sync.py:238-239 | block 100000 sorts before block 99999 |
| BlockNames.AscendingIsUnique | client/sync.py:246 | a set of names has one ascending order, so any correct sort gives it |
| BlockNames.CatIsConcat | client/sync.py:234-246 | when the directory holds exactly this download's blocks the sorted cat is their concatenation in block-list order |
| SyncModel.SplitIsCanonical | client/sync.py:143 | splitting gives full blocks and a last non-empty one, and they concatenate to the file |
| SyncModel.SplitConcat | client/sync.py:143-246 | splitting a concatenation of such blocks gives them back |
| SyncModel.UploadVersion | client/sync.py:361-431 | with the saved version not ahead, the version sent is the listed one plus 1, or 0 for a new file |
| SyncModel.UploadVersionIsMax | client/sync.py:389-427 | an upload happens exactly when the file is newer than its sync time, with the larger of the two versions plus 1 |
| SyncModel.InSyncIffSynced | client/sync.py:394-414 | in a consistent state a file is left alone exactly when local and server copy agree in content and version |
| SyncModel.EditKeepsConsistentIff | client/sync.py:256-400 | an edit keeps the promise exactly when it does not fall, with other content, into the second recorded as the sync with the server's present version, and does not put a file back over an entry from a higher version than the server now has |
| SyncModel.RecreationKeepsConsistentIff | metadata/src/mysql_helper.cc:111-115 | committing a removed name again keeps a client's promise exactly when its entry of a file is at version 0 and an unedited file has the new content |
| SyncModel.AllLoops | client/sync.py:342-522 | the turns of both loops, of whatever names they got to, add up: those names have their outcome or, if a request of theirs failed, were cut short, and all others are untouched |
| SyncModel.OutcomeInFields | client/sync.py:345-522 | the outcome of a name case by case: new here, edited here, later there, no later there, never synced here, deleted here, deleted there, nowhere |
| SyncModel.RunKeepsConsistent | client/sync.py:342-522 | whatever fails and wherever it ends, a run keeps the promise |
| SyncModel.SyncedIff | client/sync.py:400-414 | a name with its outcome ends up synced exactly when it was not left alone out of sync |
| SyncModel.RunConverges | client/sync.py:342-522 | from a state that keeps the promise every answered name whose turn came ends up synced, and a run that reached all names with all requests answered leaves both sides with the same names, contents and versions |
| SyncModel.RunKeepsNewer | client/sync.py:342-522 | every name the server had and still has after a run is as it was or under a higher version, also when turns were cut short |
| SyncModel.NothingPushed | client/sync.py:342-522 | a client with nothing edited, added or deleted leaves the server's files as they are, whatever fails |
| SyncServers.CommitKeepsServers | metadata/src/mysql_helper.cc:95-142 | wherever a commit stops, table, blocks and caches still hold the user's files, with a prefix of the new blocks or unchanged; the row check is the abstract version check |
| SyncServers.ListingOf | metadata/src/block_list.cc:136-147 | the listed hashes are held, resolve to the file's blocks and come with its version; no list means no file |
| SyncServers.FileListIsRemote | metadata/src/mysql_helper.cc:185-213 | the file list names exactly the user's files, each once |
| SyncScript.SyncClient.HashBlocks | client/sync.py:150-169 | the digests in block order and, for each, a block that has it |
| SyncScript.SyncClient.FillBlocks | client/sync.py:172-198 | after the block query and the stores it asks for, the block server holds every block of the file and none is lost |
| SyncScript.SyncClient.Commit | client/sync.py:182-204 | the commit is refused, stops at a prefix, or is complete, also when its reply is lost; other users' rows stay |
| SyncScript.SyncClient.UpFile | client/sync.py:132-208 | success means the servers hold the whole file under its version; with servers reachable it succeeds exactly when the version is accepted; other users' rows stay and no block is lost |
| SyncScript.SyncClient.FetchBlocks | client/sync.py:234-244 | the directory holds exactly the listed blocks under their names, whatever earlier downloads left |
| SyncScript.SyncClient.DownFile | client/sync.py:230-252 | success makes the local file the concatenation of the listed blocks; failure leaves it; the cache serves all it could |
| SyncScript.SyncClient.GetBlockList | client/sync.py:62-70 | the list and version of the file, or no list exactly when the server does not have it |
| SyncScript.SyncClient.AddToVersionFile | client/sync.py:255-266 | the file's entry is the version and the present second; other entries stay |
| SyncScript.SyncClient.SyncUp | client/sync.py:365-431 | an upload with its record: the file ends up synced under the version sent, or nothing local has changed and the server has what it had or a prefix of the blocks under that version |
| SyncScript.SyncClient.SyncDown | client/sync.py:402-410 | a download with its record: the file ends up synced, or nothing local has changed |
| SyncScript.SyncClient.DeleteLocal | client/sync.py:432-445 | a file the server lost is removed with its entry, and all else stays |
| SyncScript.SyncClient.CheckFile | client/sync.py:345-445 | one turn of the local loop touches no other file and has the file's outcome (sent up, fetched, left alone or deleted) unless a request failed, when the turn is cut short; it moves nothing if the file was synced |
| SyncScript.SyncClient.CheckUnlessOwn | client/sync.py:345-445 | the same for any name: the script's own two files are passed over, and a failed request either skips the file or ends the script |
| SyncScript.SyncClient.CheckListed | client/sync.py:480-522 | one turn on a name the server lists: nothing when the file is there; else its outcome -- a download when it was never known, a deletion on the server when it was -- unless its requests failed |
| SyncScript.SyncClient.DeleteRemote | client/sync.py:508-522 | the server forgets the file, then versions.json does; without a reply the script ends; other users' rows stay |
| SyncScript.SyncClient.LocalPass | client/sync.py:344-445 | every local file that had its turn has its outcome or, only if its own requests failed, was cut short, and every other name is untouched; all had their turn, or exactly those up to and with one whose requests failed |
| SyncScript.SyncClient.ListedPass | client/sync.py:471-522 | the same for the listed names that are no local file |
| SyncScript.SyncClient.ListedTurn | client/sync.py:480-522 | one turn of that loop adds exactly the name's outcome to what the turns before it did |
| SyncScript.SyncClient.ServerPass | client/sync.py:447-522 | the same after asking for the list; all listed names had their turn, or one with a failed request did, or the list was not answered and none did |
| SyncScript.SyncClient.GetFileList | client/sync.py:450-458 | exactly the names the server holds for the user, each once |
| SyncScript.SyncClient.Run | client/sync.py:342-522 | from any state, whatever requests fail: each name whose turn came has exactly the outcome its two sides call for or, only if its own requests failed, was cut short, and all others, sync.py and versions.json among them, are untouched; the turns are all, or those up to and with a name whose requests failed, or those of the local files when the list was not answered; a synced state is left alone; what changes here is dated from the run on, other users' rows stay, and no block or servable cache entry is lost |
| SyncScript.SyncClient.Sync | client/sync.py:342-522 | the same, and: the promise is kept and no version goes back under any failures, every answered name that was reached is synced, a run whose requests are all answered converges, and a client with nothing to push changes nothing on the server |
| SyncScript.UploadThenDownload | client/sync.py:132-252 | a file that goes up from one client and is listed and fetched by another is the original byte sequence; with servers reachable this succeeds exactly when the version is accepted; no other file of either client, of the user or of another user changes |
| SyncPair.PeerKeepsConsistentIff | client/sync.py:361-431 | another client's run keeps this client's promise exactly when each name that comes back fits what this client has of it |
| SyncPair.Turn | client/sync.py:342-522 | one client runs with the servers reachable, every name has its outcome, the other knows the servers as they then are, and other users' rows stay |
| SyncPair.ThreeRunsInFields | client/sync.py:345-522 | which names are left after three such runs and whose content they have, case by case |
| SyncPair.AllThreeRuns | client/sync.py:342-522 | after them the names that are the same on both sides are exactly those that did not come back to a client that had forgotten the file or kept an unedited copy that does not fit, and the first client and the server hold the same |
| SyncPair.SyncInTurn | client/sync.py:342-522 | two clients that run in turn end exactly so, each name with the outcomes of the three runs; other users' rows stay |
| UploadMachine.StepKeepsServerIff | client/sync.py:172-204 | a single step, of any process, keeps the invariant -- listed blocks are held, and each uploader's blocks are held or still on its list -- exactly when it does not cut a block query short to any harm |
| UploadMachine.QueryFailKeepsIff | metadata/src/block_query.cc:146-149 | a failing SELECT of a block query keeps that invariant exactly when every block not asked for is held or was found missing before |
| UploadMachine.RunKeepsServer | client/sync.py:172-204 | so does every run of such steps |
| UploadMachine.ListedBlocksAreHeld | client/sync.py:172-204 | in every such run each hash in a row is held with bytes that hash to it, even when the row that let an uploader skip a block is gone |
| CacheMachine.StepKeepsCache | blockcache/cache_block_fetch.cpp:161-190 | every single step but a miss without an answer and a harmful cut of a block query keeps cache agreement and the authenticity of downloads in flight |
| CacheMachine.CachesAgree | blockcache/prefetch.cpp:175-196 | in every run of such steps, also when prefetches go unanswered, each cached entry is the block server's and a download has received the blocks of its list |
| WholeFiles.InsertNext | metadata/src/mysql_helper.cc:132-139 | an INSERT of a commit that is alone with its file makes the rows exactly the first k+1 blocks and changes no other file |
| WholeFiles.StepKeepsRows | metadata/src/mysql_helper.cc:102-154 | every single step that hits no unfinished commit keeps each file whole and each unfinished commit's rows exactly those it inserted |
| WholeFiles.HitFreeKeepsRows | metadata/src/mysql_helper.cc:102-154 | so does every run without hits |
| WholeFiles.HitFreeRunsAreWhole | metadata/src/mysql_helper.cc:102-213 | in every run without hits each file's rows are the first blocks of one upload of the run, and the file list names each file once |
| WholeFiles.HitSpoils | metadata/src/mysql_helper.cc:125-139 | after a hit at most two INSERTs leave rows that are the blocks of no list |
| WholeFiles.WholeIffNoHit | metadata/src/mysql_helper.cc:102-154 | after a run without hits an action is no hit exactly when every file stays whole in whatever follows without hits |
| ProcessesAlone.RequestsBegin | metadata/src/block_list.cc:136-147 | downloads and prefetch rounds begin with what the metadata server's calls answer, and a removal is its DELETE |
| ProcessesAlone.QueryEnds | metadata/src/block_query.cc:146-149 | a block query that runs alone ends with exactly the missing hashes of the whole list |
| ProcessesAlone.RefusedAlone | metadata/src/mysql_helper.cc:110-123 | a refused commit changes nothing |
| ProcessesAlone.CommitEnds | metadata/src/mysql_helper.cc:99-142 | an accepted commit that runs alone goes through a whole commit trace |
| ProcessesAlone.HitAlone | blockcache/cache_block_fetch.cpp:170-176 | a hit gives the download the cached bytes and changes nothing else |
| ProcessesAlone.MissAlone | blockcache/cache_block_fetch.cpp:178-190 | a miss gives the download the block, or ends it, and stores whatever came back |
| ProcessesAlone.PickEnds | blockcache/prefetch.cpp:84-99 | picking that runs alone picks exactly the listed hashes that the cache cannot serve |
| ProcessesAlone.PrefetchAlone | blockcache/prefetch.cpp:156-198 | a prefetch round that runs alone leaves the cache as PrefetchRound does, and nothing else changed |
| OneStepCommits.ReadsPrefix | metadata/src/mysql_helper.cc:156-183 | the list read from the rows is the map's, or the first part of it while its commit is still inserting, under the map's version |
| OneStepCommits.ChecksTheMapIff | metadata/src/mysql_helper.cc:102-123 | the version check on the rows decides as the check on the map does, except exactly between a DELETE and the first INSERT for a first version or one the map would take |
| OneStepCommits.StepRefinesIff | metadata/src/mysql_helper.cc:102-154 | a step keeps rows and map together exactly when it does not clash with a commit between its check and its last INSERT |
| OneStepCommits.ClashFreeRefines | metadata/src/mysql_helper.cc:102-154 | so every run without clashes keeps them together |
| OneStepCommits.ClashFreeCommitsAreOneStep | metadata/src/mysql_helper.cc:95-154 | in every run without clashes each commit passes the check on the map when its DELETE makes it take effect, and readers see that map but for blocks yet to be inserted |
| OneStepCommits.ClashFreeVersions | metadata/src/mysql_helper.cc:110-123 | in every run without clashes the version of a file that stays only goes up; under the same version only a commit that stopped shortens the list |
| CommitCheck.SinceStep | metadata/src/mysql_helper.cc:99-154 | every step that does not clash keeps: a file not touched since a listing expects the version after the listed one, and a touched one has that version or a later one, or was dropped |
| CommitCheck.DroppedStaysAway | metadata/src/mysql_helper.cc:99-154 | in every run without clashes in which no dropped file is begun anew, a dropped file is not on the map |
| CommitCheck.AcceptedIffUntouchedSinceRead | metadata/src/mysql_helper.cc:99-123 | in every run without clashes, for a file not dropped since the listing and the version after the listed one, the check accepts exactly when no DELETE touched the file since |
| CommitCheck.AcceptedIffUntouched | metadata/src/mysql_helper.cc:99-123 | the same whether or not the file was dropped, when no dropped file is begun anew |
| Limits.CutQueryListsUnheldBlock | metadata/src/block_query.cc:146-149 | a run in which a failing SELECT ends with a listed hash nobody holds |
| Limits.InterleavedCommitsMix | metadata/src/mysql_helper.cc:102-139 | a run in which two first commits are both accepted and the file lists the blocks of both |
| Limits.OvertakenCommitGoesBack | metadata/src/mysql_helper.cc:102-139 | a run in which two accepted commits run one after the other, no file is ever mixed, and the file goes back from version 2 to version 1 |
| VersionCheck.StepKeepsVersions | client/sync.py:361-431 | every step that does not commit a removed name again keeps: what a client has read or saved of a file is not ahead of the server, and a pending commit passes the check exactly when the file is as it was read |
| ClientsAlone.LocalTurnAlone | client/sync.py:345-445 | a client whose turn with a local file runs alone leaves the file with its outcome, all else as it was, and the change counted |
| ClientsAlone.CutTurns | metadata/src/mysql_helper.cc:125-139 | an upload whose commit is cut after so many INSERTs leaves exactly that many blocks under the new version, and nothing else changed |
| ClientsAlone.ListedTurnAlone | client/sync.py:480-522 | the same for a listed name that is no local file |
| VersionCheck.RunsKeepVersions | client/sync.py:342-522 | so does every run of such steps |
| VersionContents.RunsDeliver | client/sync.py:132-252 | in every run in which no removed name is committed again, what a client is sending is its file as it was split, and what it has sent or fetched is what a server still at that version has |
| VersionContents.TransfersDeliver | client/sync.py:132-266 | so at the end of a transfer, up or down, a server still at its version has the content the local file had when it was split or written |
| VersionContents.StepKeeps | client/sync.py:361-431 | every step of any client that makes no same-second edit and records no file edited since it was split or written keeps also: equal versions without a later edit mean equal content |
| VersionContents.EditKeepsClientIff | client/sync.py:255-266 | an edit keeps a client's part of that invariant exactly when it does not fall, with other content, into the second of the sync |
| VersionContents.RecordKeepsClientIff | client/sync.py:255-266 | writing versions.json keeps it exactly when the file has the content it had when it was split or written, or the server is no longer at the recorded version |
| VersionContents.RunsKeep | client/sync.py:342-522 | so does every run that respects this |
| VersionContents.ClientsAreConsistent | client/sync.py:361-431 | in every such run no saved version exceeds that of a file the server has, and equal versions without a later edit mean equal content |
| VersionCheck.AcceptedIffUnchanged | metadata/src/mysql_helper.cc:110-123 | in every run in which no removed name is committed again, whatever the edits, a commit is accepted exactly when no commit or removal of the file happened since its block list was read |
| VersionCheck.StepIsTimely | metadata/src/mysql_helper.cc:95-154 | every step, without hypotheses, keeps: a name not removed since the list was read is at the expected version or past it |
| VersionCheck.AcceptedIffUnchangedSinceRead | metadata/src/mysql_helper.cc:110-123 | in every run whatever, for a file not removed since and a version one above the listed, accepted exactly when unchanged |
| VersionLimits.RecreationDefeatsTheCheck | metadata/src/mysql_helper.cc:111-115 | a run in which a stale first upload is accepted after a removal and a client's equal version comes to mean another content |
| VersionLimits.AheadDefeatsTheCheck | client/sync.py:424-427 | a run, with a name begun anew, in which a client whose entry is ahead of the server sends more than the next version and is accepted although another client has committed since |
| VersionLimits.EditDuringUploadIsMissed | client/sync.py:255-262 | a run in which an edit between the commit and the version-file write is taken as synced |
| VersionLimits.SameSecondEditIsMissed | client/sync.py:256-400 | a run in which an edit in the second of the sync is taken as synced |
| QueryParams.FindIsFirst | metadata/src/fcgi_util.cc:67-74 | find returns the least position at or after the start, or none |
| QueryParams.MetadataParserExact | metadata/src/fcgi_util.cc:63-85 | on every k=v list with plain parts the value of the first pair whose key ends in the name, and failure exactly when there is none |
| QueryParams.TwoKeys | metadata/src/fcgi_util.cc:63-85 | of two parameters the second is misread exactly when its name ends the first key |
| QueryParams.BlockListRequest | metadata/src/block_list.cc:124-125 | user and file name are both read, in either order |
| QueryParams.RecentHashesRequest | metadata/src/recent_hashes.cc:125-126 | user and maximum are both read, in either order |
| QueryParams.CacheParserExact | blockcache/http_helper.cpp:34-56 | exactly what the bare-name search returns, on every k=v list with plain parts, including names found inside values |
| QueryParams.TwoNames | blockcache/http_helper.cpp:34-56 | of two parameters the second is misread exactly when its name occurs in the first key |
| QueryParams.CacheRequest | blockcache/cache_block_fetch.cpp:164-165 | hash and user are both read, in either order, whatever names they contain |
| QueryParams.CacheParserMisreads | blockcache/http_helper.cpp:38-48 | a lone other parameter is taken for the one asked for exactly when its value contains the name |
| SkipSpace.TrimmedIsLongest | metadata/include/mysql/m_string.h:287-289 | the plain scan drops only spaces, and all trailing ones |
| SkipSpace.SpaceWordIffSpaces | metadata/include/mysql/m_string.h:224-230 | a word equals SPACE_INT exactly when all its bytes are spaces |
| SkipSpace.SkipWords | metadata/include/mysql/m_string.h:282-284 | the word loop drops only spaces and reads only aligned words inside the buffer |
| SkipSpace.SkipFromEnd | metadata/include/mysql/m_string.h:278-285 | the first two loops drop only spaces |
| SkipSpace.SkipByWords | metadata/include/mysql/m_string.h:270-286 | the same with the zone's bounds computed as the source does |
| SkipSpace.SkipTrailingSpace | metadata/include/mysql/m_string.h:266-290 | for every buffer, length, word size and start address the result is the plain scan's |

## Left out

- SHA-256, `split`, `cat` and `curl`: any digest function is allowed; collisions are excluded only among the byte strings in play, and only where content is claimed. `split` and `cat` have their plain meaning with byte-wise name order.
- MySQL and LevelDB internals, SQL text and quoting, column widths, case-insensitive comparison: rows and maps with exact comparison. A failing statement changes nothing.
- HTTP, FastCGI, JSON and socket set-up: a request is answered or not; `send` takes all the bytes it is given.
- Percent-decoding of parameters: neither server decodes, so what the parsers return is the encoded text.
- Machine integers: versions, positions and lengths are unbounded; exact for versions and strings below 2^31. Addresses do not wrap around.
- Empty files: uploading one asks block_query with an empty list, for which the source frees an uninitialised result (metadata/src/mysql_helper.cc:64-90); the script's claims ask for non-empty files. In the version machine a commit of an empty list is a removal, as it is on the rows.
- ClientsAlone.LocalTurnAlone: the file is not empty and not dated ahead of the clock.
- Local time: `versions.json` holds local times as text, so a change of the clock or of daylight saving time can reverse the comparison of client/sync.py:400; the model's clock only goes forward.
- File names: the script hands them unquoted to the shell (client/sync.py:143, 246); the model's `split` and `cat` take any name.
- Single-file download mode (client/sync.py:275-338): it uses two variables before they are defined.
- `mget` and a put without a second comma (the server throws): no client sends them.
- User-cache association endpoints, the prefetch message (at most 1000 bytes) and its JSON.
- pickHashes is called with a null helper in blockcache/prefetch.cpp:175; the call works because the helper has no fields, and the model passes the real one.
- Metadata.MySQLHelper.GetMissingBlockHashes: the empty list, for which the source frees an uninitialised result, just succeeds.
- SyncScript.SyncClient.FillBlocks: the block query's SELECTs succeed; UploadMachine.QueryFailKeepsIff is the exact condition, and Limits.CutQueryListsUnheldBlock shows it violated.
- SyncScript.SyncClient.FetchBlocks: a block request that reaches the cache is answered by the block server; CacheNode.MissKeepsAgreementIff is the exact condition.
- SyncScript.SyncClient.DownFile: the same.
- SyncScript.SyncClient.UpFile: local files are not empty (see above) and have at most 99999 blocks, beyond which BlockNames.NamesInOrderIff fails; so do all methods that require Valid().
- SyncScript.SyncClient.Run: no other client and no user acts during the run; files that vanish in the middle are not modelled. A failed request either comes back with an error status or raises an exception, which ends the run; which of the two is left open.
- SyncPair.SyncInTurn: the runs do not overlap, every request is answered, and at first both clients keep the promise (which VersionContents.ClientsAreConsistent gives).
- Frames.CreateBuffer: data that does not fit a frame, which the source copies past its buffer; every command and block the clients send fits.
- Frames.ExtractBuffer: a length field that does not fit a frame, which no client or server writes.
- Frames.RecvFrame: a peer that sends more than one frame, for which Frames.InsideIffOneFrame says the writes can pass the end.
- LevelDb.LevelDBServer.Execute: `mget`, and a put without a second comma.
- LevelDb.LevelDBServer.Serve: a connection that carries anything but one frame of the client's.
- CacheNode.CacheHost.PrefetchRound: listed hashes are 64 characters without a comma, as SHA-256 digests are.
- UploadMachine.ListedBlocksAreHeld: no block query is cut short to any harm, which is exact for a step (UploadMachine.StepKeepsServerIff).
- CacheMachine.CachesAgree: misses of downloads are answered (CacheNode.MissKeepsAgreementIff is the exact condition), and no block query is cut short to any harm; fetches of a prefetch may go unanswered.
- VersionCheck.AcceptedIffUnchanged: a commit is one step, whole or cut short (OneStepCommits.ClashFreeCommitsAreOneStep says when it is), and no name is committed again after its removal (VersionLimits.RecreationDefeatsTheCheck).
- CommitCheck.AcceptedIffUntouched: no clashes, as in OneStepCommits.StepRefinesIff; the list is not read while a commit has deleted the file's rows and inserted none (OneStepCommits.ChecksTheMapIff says what the rows tell then); and no dropped file is begun anew.
- VersionContents.TransfersDeliver: the two hypotheses of VersionCheck.AcceptedIffUnchanged.
- VersionContents.ClientsAreConsistent: the same two, no edit in the second of a sync (VersionContents.EditKeepsClientIff, VersionLimits.SameSecondEditIsMissed), and no record of a file edited since it was split or written (VersionContents.RecordKeepsClientIff, VersionLimits.EditDuringUploadIsMissed).
- The order in which a cache answers and stores: a miss answers first and stores in a step of its own; failures of the store itself are not modelled.
- Concurrent connections to the cache store: its server handles one at a time.

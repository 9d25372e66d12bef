# RAOfflineProxy verification

A Dafny model of the parts of Leaf-RAOfflineProxy-Pak whose correctness is hard to see by reading:
the CHD disc reader, the accounts behind pending awards, the pre-cache job and its resume, the two
small concurrency pieces of the proxy, and four text and archive codecs. Properties are stated for
all inputs, all runs and all interleavings of the model; where the code does not meet a property
everywhere, the exact condition is proved and a failing input is given.

`dafny verify dfyconfig.toml` checks the whole project.

## What is modelled

**The disc reader** (`DiscLayout`, `DiscReader`, `DiscCache`, `DiscHandle`, `DiscWriter`,
`DiscSelection`, `DiscRoundTrip`). Track metadata becomes a table of padded image frames and unpadded sectors,
counted in wrapping 32-bit arithmetic. An open handle is a class whose buffer and cached hunk number
are overwritten by every read; each method is tied to a function on cache values. The reference
writer and layout of the reader's own test script are modelled beside it, and everything a reader
returns is related to what the writer was given. The decompressor is a function from hunk numbers to
bytes, and a failed read may leave any residue in the buffer.

Results worth knowing:

- The table is the reference layout modulo 2^32 for every disc, and the layout itself exactly when
  the last track still starts below 2^32 (`TableIsLayout`).
- The hunk cache is right over every session of requests, whatever the buffer first held and whatever
  failed reads leave in it, exactly for the tracks with no sector in hunk 2^32 - 1, whose number casts
  to the -1 that marks an empty cache, and whose hunks can all be read or all cannot be read
  (`SessionsExact`). Two frames to a hunk rule the odd hunk out (`NoSentinelWhen`). One readable and
  one unreadable hunk are enough for a wrong answer: the failed read overwrites a buffer the cache
  still claims (`FailureLeavesStaleHunk` is such a session). A decompressor that leaves the buffer
  alone when it fails needs no more than the first condition (`CacheExact`).
- Every session on a disc the reference writer made returns the user data it was given
  (`SessionRoundTrip`).

**The accounts** (`LoginTable`, `AwardAccounts`, `AwardRuns`). Login rows refine the history of sign-ins. Sign-ins,
account checks, inserts, flush snapshots and credential lookups are separate steps of a transition
system, started from any history and any queue. Credentials are granted only to a snapshot with at
most one owner, and are that owner's own, in every interleaving, and what a flush is granted is decided
by the queue as it was when the flush began (`FlushOutcome`). No waiting award is lost or made up
(`QueueConserved`). Because the check gives up its lock
before the insert, "one owner" is not kept by every run: it is kept exactly by the runs whose
inserts would still pass their own check (`OneOwnerExact`); `SplitCheckWidens` is the race, after
which a flush grants nothing. The check reads the user from path and body, the stored row from the
body alone: a request is harmless to every queue exactly when the two agree or the body names nobody
(`AtomicExact`). "The latest login" is the one account's last sign-in that no other account's last
sign-in outranks, by a newer time or the same time and a younger row (`LatestExact`).

**The pre-cache job** (`Precache`, `PrecachePrepared`, `PrecacheResume`, `PrecacheThreads`,
`PrecacheEndings`). The per-game decision is a
class method storing rows one by one, proved against a decision function. Cancelled attempts followed
by a full run leave the rows and fresh marks of one uninterrupted run. A resumed run asks again about
a game that did not fail exactly when, in the cancelled attempt, a later game asked and stored an
unusable answer over its row: a patch client with the same hash (`ResumeAsksExact`,
`ResumeMayAskAgain`). Hashing is done per console and only one system is a patch client
(`leaf_precache.py`, `leaf_romhash.py`), so the pair needs two consoles to give one hash, which the
model does not exclude; whether an unusable answer is stored is decided in rom_cache.py, which is not
part of this model.

A game that failed is asked about again exactly unless its rows are there by then
(`FailedAsksExact`); nothing makes a game whose patch could not be had look prepared
(`UnpatchedAsksExact`).

One job object is a second transition system over start, cancel and worker steps. "Running" with no
worker is left behind in exactly two ways (`StuckRunningExact`): the thread of the last admitted start
could not be started, the progress having been set before, or the first step of its worker, the
user-agent lookup outside the exception handler, raised. A set cancel lets at most the game in hand be
recorded (`CancelHeard`), and the final state it leads to depends only on where the worker stood
(`CancelEnds`). The check of `cancel` and its setting of the event are separate: a cancel that found one
run may reach the next one (`CancelExact`).

**The proxy's concurrency** (`ConnectivityMonitor`, `WorkerGate`). The gate's permit is given back by
the accepting call when it raises and by the request's thread when it ends; that this is once per
connection depends on the call not raising after it has started the thread, and on nothing else
(`GateExact`).

**The codecs** (`VersionGate`,
`UrlEncode`, `LikeSearch`, `SourceArchive`). The version parser accepts exactly its grammar in shells
whose `[ "" -le 9999 ]` fails, and only there (`ParserExact`): the `case` before it lets "1..3" pass.

## Model

| member | source | states |
|---|---|---|
| DiscLayout.ReadTracks | src/rchash/chd_cdreader.c:107-204 | fills the caller's table in place with the rows of the longest parsable run of at most 99 metadata slots, leaves the rest of the array alone, and reports whether there is a track |
| DiscLayout.GeometryExact | src/rchash/chd_cdreader.c:56-103 | a track type's window is the user data behind the sync, address and subheader bytes its sectors store, the fields adding up to the sector's size; a type without a name is one whole data frame; only AUDIO is no data |
| DiscLayout.SlotExact | src/rchash/chd_cdreader.c:126-162 | the first of the four tags that is there decides, well-formed or not, and a CHTR record stores no pregap |
| DiscLayout.Layout | scripts/chd-reader-test.py:182-198 | the loop with Python's ceiling division computes the placement of every track |
| DiscLayout.PlacedClosedForm | scripts/chd-reader-test.py:182-198 | a track's frame is the sum of the earlier tracks each rounded up to four frames plus its own stored pregap, its LBA the sum of all earlier pregaps and frames plus its own pregap |
| DiscLayout.PaddingBound | scripts/chd-reader-test.py:195-197 | the padded total exceeds the stored frames by at most three a track |
| DiscLayout.TracksDisjoint | scripts/chd-reader-test.py:182-198 | in both coordinates a track's data ends before the pregap of any later track begins |
| DiscLayout.RecordsOfMeta | scripts/chd-reader-test.py:212-224 | the metadata walk reads back the writer's first 99 tracks from CHT2 and from CHGD records alike |
| DiscLayout.TableCongruent | src/rchash/chd_cdreader.c:178-187 | for every track list and row, both of the reader's coordinates are the reference layout's modulo 2^32 |
| DiscLayout.TableIsLayout | src/rchash/chd_cdreader.c:178-187 | the reader's table equals the reference layout if and only if the last track starts below 2^32 in both coordinates |
| DiscReader.SelectTrack | src/rchash/chd_cdreader.c:206-235 | a request value that is one of the four special codes, compared in order, gives the first data track, the last track, the first of the largest data tracks or nothing; any other gives the first track with that number; -1 exactly when there is none |
| DiscReader.SelectionUnique | src/rchash/chd_cdreader.c:206-235 | a request means at most one row |
| DiscSelection.TableRowsFor | src/rchash/chd_cdreader.c:98-101 | every row of a written disc's table has its track's number and length and is data exactly for a MODE1_RAW track |
| DiscSelection.SelectionExact | src/rchash/chd_cdreader.c:206-235 | on a written disc "first data" selects the first MODE1_RAW track, "largest" the first longest one, each nothing exactly when there is none, and a number the first track carrying it, among the first 99 |
| DiscCache.SessionsExact | src/rchash/chd_cdreader.c:284-337 | a fresh handle is right over all sessions, all initial buffers and all residues of failed reads if and only if no sector of the track lives in hunk 2^32 - 1 and the track's hunks can all be read or none can |
| DiscCache.FailureLeavesStaleHunk | src/rchash/chd_cdreader.c:299-304 | a read, a failing read that disturbs the buffer, and the first read again: the third answer is wrong |
| DiscCache.NoSentinelWhen | src/rchash/chd_cdreader.c:295-299 | with two frames to a hunk, or a track that ends below frame 2^32 - 1, no sector lives in the hunk whose number casts to -1 |
| DiscCache.SessionRefines | src/rchash/chd_cdreader.c:284-337 | over every sequence of requests on one handle, from any truthful cache, the answers are those of a reader that fetches every hunk afresh, provided no sector lives in hunk 2^32 - 1 and a failed read of one of the track's hunks leaves the buffer alone |
| DiscCache.CacheExact | src/rchash/chd_cdreader.c:284-337 | for a decompressor whose failed reads leave the buffer alone, a fresh handle is right over all sessions and all initial buffers if and only if no sector of the track lives in hunk 2^32 - 1 |
| DiscCache.ReadRefines | src/rchash/chd_cdreader.c:315-337 | a single request from a truthful cache gives what a reader that fetches afresh gives, whatever failed reads leave behind, because it ends at the first of them |
| DiscCache.ReadSplits | src/rchash/chd_cdreader.c:315-337 | from any cache, reading a whole number of sectors and some bytes more gives the bytes and leaves the cache of reading the sectors and, if they came in full, reading on behind them |
| DiscCache.ReadLength | src/rchash/chd_cdreader.c:315-337 | from a truthful cache a request gets the smaller of itself and the user data left before the track's end or its first unreadable sector |
| DiscHandle.TrackHandle.CopySector | src/rchash/chd_cdreader.c:284-313 | new cache, byte count and output buffer are those of the one-sector function; nothing outside the copied bytes changes |
| DiscHandle.TrackHandle.ReadSector | src/rchash/chd_cdreader.c:315-337 | the loop over sectors delivers the whole request's bytes at the buffer's start, never more than asked, and leaves the rest of the buffer alone |
| DiscHandle.OpenTrack | src/rchash/chd_cdreader.c:237-280 | opens the row the request means with an empty cache, and fails exactly when there is none or a hunk holds no frame |
| DiscWriter.WriteFrames | scripts/chd-reader-test.py:201-208 | the frame list is each track's stored pregap, its frames, and padding to four |
| DiscWriter.WriteHunks | scripts/chd-reader-test.py:209-210 | the hunks are the body cut every 19584 bytes, the last one zero-filled, no more and no fewer than needed |
| DiscWriter.ImageAt | scripts/chd-reader-test.py:182-208 | the reference layout says where the writer put every frame of every track |
| DiscWriter.ImageElsewhere | scripts/chd-reader-test.py:201-208 | every frame that is no track's data, stored pregap or padding, is zero |
| DiscRoundTrip.Mode1FrameCarriesUser | scripts/chd-reader-test.py:154-160 | a frame built around user data carries that data, zero-filled to 2048 bytes, where the reader looks |
| DiscRoundTrip.Mode1FrameHeader | scripts/chd-reader-test.py:154-160 | before it stand the sync pattern, the sector's address plus 150 as minute, second and frame in BCD, and the mode; behind it zeros |
| DiscRoundTrip.SectorRoundTrip | src/rchash/chd_cdreader.c:284-313 | for every disc, track and sector the reader finds the very user data the writer was given, through hunk and slot |
| DiscRoundTrip.RoundTrip | src/rchash/chd_cdreader.c:107-337 | for every addressable disc, reading n bytes from sector k of a track gives the concatenated user data of sectors k, k+1, ... cut at n bytes or the track's end, whatever the buffer first held and whatever failed reads leave |
| DiscRoundTrip.SessionRoundTrip | src/rchash/chd_cdreader.c:284-337 | every request of every session on one handle of such a disc, wherever it starts and whatever came before it, is answered with exactly that user data, and with nothing outside the track |
| DiscRoundTrip.TrackView | scripts/chd-reader-test.py:137-148 | writing a disc, opening whatever track any request value means and reading from an offset through the real handle gives that track's LBA and exactly its user data, and nothing exactly when the value means no track |
| LoginTable.LowerExact | patches/app/storage.py.patch:249-258 | two names are one account exactly when they differ at most in the case of ASCII letters |
| LoginTable.TableRemembers | patches/app/storage.py.patch:234-247 | for every history the table has one row per account with its last sign-in, rows in the order of first sign-ins |
| LoginTable.LoadForIsLastLogin | patches/app/storage.py.patch:249-258 | a lookup by name gives the account's last sign-in if it names that account, and nothing otherwise |
| LoginTable.OthersDoNotInterfere | scripts/account-guard-test.py:111-125 | another account's sign-in never changes a lookup by name |
| LoginTable.LatestExact | patches/app/storage.py.patch:234-247 | for every history, clock steps included, there is exactly one sign-in that is its account's last and that no account's last sign-in outranks by a later time or the same time and a younger row, and the latest login is that one |
| LoginTable.LatestIsLastExact | patches/app/storage.py.patch:234-247 | the row chosen is the last signed-in account's if and only if no other account outranks it |
| LoginTable.LatestIsLastSignIn | scripts/account-guard-test.py:111-120 | with strictly increasing times the latest login is the last sign-in |
| AwardAccounts.ResolveExact | patches/app/flusher.py.patch:23-55 | for every sign-in history: refused if and only if two owners wait; a single owner gets the credentials of its last sign-in if they name it and nothing otherwise; a queue naming nobody gets the sign-in nobody outranks, and nothing before the first sign-in |
| AwardAccounts.FlushTokenSafety | patches/app/flusher.py.patch:64-72 | from any history, queue and requests under way, in every state of every interleaving, credentials are granted only to a snapshot with at most one owner, and then some sign-in filed under that owner gave them and they name that owner |
| AwardRuns.FlushOutcome | patches/app/flusher.py.patch:64-83 | a flush begun in any safe state, with anything happening before its lookup and after it, ends with the outcome of the queue it was taken from and of the sign-ins up to its lookup; granted credentials mean at most one owner waited in that queue, and are that owner's |
| AwardRuns.RefusedExact | patches/app/proxy_service.py.patch:321-341 | a request is refused if and only if it names a user, an award waits for a named owner, and none waits for that user, ASCII case aside |
| AwardRuns.RequestsExact | patches/app/proxy_service.py.patch:295-305 | in every run the requests awaiting their insert are exactly those whose check passed when it was made and that were not inserted since |
| AwardRuns.AwardIsCheckThenInsert | patches/app/proxy_service.py.patch:295-305 | an undivided award is its check and its insert with nothing in between, and nothing at all when refused |
| AwardRuns.QueueConserved | patches/app/proxy_service.py.patch:295-305 | over every run, the awards waiting at the end and those given another status are the awards waiting at the start and those inserted, as multisets |
| AwardAccounts.AtomicAwardNeverWidens | patches/app/proxy_service.py.patch:309-341 | from any queue, a check and insert in one piece leaves the owner set as it was or takes it from none to one |
| AwardAccounts.AtomicExact | patches/app/proxy_service.py.patch:309-341 | a request keeps every single-owner queue single-owner if and only if its body is nameless or names the user the check saw |
| AwardAccounts.OwnersOfSweep | patches/app/proxy_service.py.patch:321-335 | sweeping away flushed, stale and deleted rows changes no owner, so such rows never block anyone |
| AwardAccounts.OneOwnerExact | patches/app/proxy_service.py.patch:295-305 | over every run from a single-owner queue, one owner throughout if and only if every insert would pass its own check when it happens |
| AwardAccounts.AtomicRunsKeepOneOwner | patches/app/proxy_service.py.patch:295-305 | a run whose checks and inserts are never separated keeps one owner throughout |
| AwardAccounts.SplitCheckWidens | patches/app/proxy_service.py.patch:295-305 | two checks and then two inserts give two owners, and a flush then grants nothing |
| Precache.PrecacheJob.PrepareOne | src/raofflineproxy/leaf_precache.py:257-385 | the rows, marks, outcome and requests after preparing one game are those of the decision on the cache and the time |
| Precache.PrecacheJob.Ask | src/raofflineproxy/leaf_precache.py:307-385 | storing answer by answer leaves exactly the rows, the mark, the outcome and the requests of the upstream answer |
| Precache.PrecacheJob.Record | src/raofflineproxy/leaf_precache.py:501-515 | keeps every counter equal to the number of outcomes with its status |
| Precache.PrecacheJob.Run | src/raofflineproxy/leaf_precache.py:229-255 | a run leaves the cache, outcomes, requests and final state of the recursive run, and waits the paced total when it completes |
| Precache.PacingBound | src/raofflineproxy/leaf_precache.py:489-495 | n waits take between half a second and one and a half seconds each, plus three seconds every fifth |
| PrecachePrepared.PreparedExact | src/raofflineproxy/leaf_precache.py:388-415 | said of stored rows: a hashed game is skipped if and only if its sets row with a positive id and, for a patch client, its id row and that id's patch row are there; it is asked about if and only if they are not and no mark younger than thirty days is; it is cached if and only if upstream then gives all of it, and all of it is stored |
| PrecachePrepared.AskedExact | src/raofflineproxy/leaf_precache.py:307-385 | an asked game is marked and unsupported if and only if upstream does not know the ROM, ends the run if and only if upstream refuses the account, and fails if and only if it is known and not all of it is to be had |
| PrecachePrepared.UnhashedExact | src/raofflineproxy/leaf_precache.py:262-294 | a game without a hash sends and changes nothing, and its outcome names the first thing missing |
| PrecachePrepared.FailedAsksExact | src/raofflineproxy/leaf_precache.py:388-415 | after a cancelled attempt the next run asks about a hashed game that failed, if and only if its rows are not there by then |
| PrecachePrepared.UnpatchedAsksExact | src/raofflineproxy/leaf_precache.py:361-373 | a patch client whose patch could not be had is asked about again after a cancelled attempt, if and only if the cache did not hold that patch before the attempt |
| PrecachePrepared.RefusedAsksExact | src/raofflineproxy/leaf_precache.py:361-373 | and so is one whose refused patch ended the run |
| PrecacheResume.WritesTrue | src/raofflineproxy/leaf_precache.py:307-385 | whichever game writes a key, it writes what upstream answers for that key |
| PrecacheResume.SettlesItself | src/raofflineproxy/leaf_precache.py:296-385 | a prepared game that did not end the run would, asked again, change nothing |
| PrecacheResume.StaysSettled | src/raofflineproxy/leaf_precache.py:388-415 | and stays that way after any other game |
| PrecacheResume.QuietExact | src/raofflineproxy/leaf_precache.py:388-415 | a game that sends no request still sends none after another game, from every view, if and only if the other does not store an unusable answer over its row |
| PrecacheResume.ResumeEqualsOneRun | src/raofflineproxy/leaf_precache.py:229-385 | any number of attempts cancelled at game boundaries and then a full run leave the rows and fresh marks of one uninterrupted run |
| PrecacheResume.ResumeAsksExact | src/raofflineproxy/leaf_precache.py:388-415 | after a cancelled attempt the next run sends nothing for a game that attempt cached, skipped, found missing or unsupported, if and only if no later game of the attempt asked and stored an unusable answer over that game's row |
| PrecacheResume.ResumeAsksNothingTwice | src/raofflineproxy/leaf_precache.py:388-415 | and so never for a game with no such game behind it in the list |
| PrecacheResume.ResumeMayAskAgain | src/raofflineproxy/leaf_precache.py:296-330 | a prepared game and behind it a patch client with its hash and an unusable answer: skipped by the first run, asked about by the second |
| PrecacheThreads.JobAccounting | src/raofflineproxy/leaf_precache.py:169-255 | in every interleaving: at most one live worker, counters that add up and count the outcomes, outcomes of a prefix of the games in order, all of them when done, nothing after an auth failure |
| PrecacheEndings.StartExact | src/raofflineproxy/leaf_precache.py:184-227 | a start changes nothing while a worker runs, without games or without credentials; otherwise it begins anew, forgets every cancel, and has a worker exactly when its thread starts |
| PrecacheEndings.CancelExact | src/raofflineproxy/leaf_precache.py:177-181 | in every interleaving the event is set if and only if a cancel that found a run set it and no start cleared it since |
| PrecacheEndings.CancelHeard | src/raofflineproxy/leaf_precache.py:232-249 | once the event is set and until the next start at most the game in hand is recorded, and none when the worker stands at a boundary |
| PrecacheEndings.CancelEnds | src/raofflineproxy/leaf_precache.py:232-255 | by where the worker stood: "cancelled" with nothing or just the game in hand recorded, "failed" if that game raised or was an auth failure, a finish already chosen otherwise |
| PrecacheEndings.RaiseEnds | src/raofflineproxy/leaf_precache.py:250-253 | a game that raises is not recorded and the run ends as "failed" |
| PrecacheEndings.WorkerEnds | src/raofflineproxy/leaf_precache.py:229-255 | a cancelled worker is gone within eight of its own steps, any worker within five a game and five more |
| PrecacheEndings.FinalStates | src/raofflineproxy/leaf_precache.py:229-255 | in every state: "cancelled" only with the event set, "done" only with every game processed, neither after an auth failure, which always ends as "failed"; where nothing raised, "failed" means an auth failure |
| PrecacheThreads.StuckRunningExact | src/raofflineproxy/leaf_precache.py:184-255 | after every interleaving, "running" without a worker if and only if the last admitted start did not get its thread started or the first step of its worker raised |
| PrecacheThreads.StuckRunningHappens | src/raofflineproxy/leaf_precache.py:212-231 | a start whose thread cannot be started, and a start with a failing user-agent lookup, both give that state |
| ConnectivityMonitor.StopIsHeard | patches/app/proxy_service.py.patch:388-393 | in every interleaving, once a stop has returned at most one more sweep begins and no interval runs out |
| ConnectivityMonitor.KickIsHeard | patches/app/proxy_service.py.patch:410-412 | no interval runs out between a kick and the next sweep, and the loop is at most four of its steps on its way there |
| ConnectivityMonitor.OwedNeverBlocks | patches/app/proxy_service.py.patch:475-493 | a loop that owes a kick its sweep never waits, unless stopped |
| ConnectivityMonitor.StopExits | patches/app/proxy_service.py.patch:475-493 | a stopped loop exits within five of its own steps without waiting for its interval |
| ConnectivityMonitor.SweepsHaveCauses | patches/app/proxy_service.py.patch:475-493 | in every interleaving, beside the first, each sweep has a kick, a stop or an elapsed interval to itself |
| ConnectivityMonitor.NeverParks | patches/app/proxy_service.py.patch:475-493 | the loop sweeps before it first waits, and from wherever it stands five of its steps begin one sweep unless stopped |
| WorkerGate.GateExact | patches/app/proxy_service.py.patch:90-116 | over every interleaving, free permits and unfinished requests add up to four and no permit is released twice throughout, if and only if no accepting call raises after its thread has started |
| WorkerGate.RefusedExact | patches/app/proxy_service.py.patch:95-105 | in such a run a new connection is refused if and only if four requests are in flight |
| WorkerGate.ReturnedIsOver | patches/app/proxy_service.py.patch:106-110 | a call that has returned gives back no permit, whatever follows |
| WorkerGate.RequestCompletes | patches/app/proxy_service.py.patch:106-116 | an admitted request frees its permit when its handler ends, before or after its call returns, and when its thread does not start |
| VersionGate.StripZeros | lib/leaf-version-gate.sh:45-51 | the loop drops leading zeros down to the last digit |
| VersionGate.StripKeeps | lib/leaf-version-gate.sh:45-51 | dropping them keeps the value and leaves none in front of another digit |
| VersionGate.ParseComponents | lib/leaf-version-gate.sh:53-84 | the variable-by-variable parse prints what the component function gives |
| VersionGate.GrammarAccepted | lib/leaf-version-gate.sh:53-84 | every value of the grammar is accepted with the numbers it denotes, whatever its leading zeros |
| VersionGate.AcceptedExact | lib/leaf-version-gate.sh:53-84 | in either kind of shell the accepted values are exactly its grammar: for a release one leading v or V and a suffix, three numbers, where a lenient shell needs the first and one other |
| VersionGate.StrippedExact | lib/leaf-version-gate.sh:45-51 | a stripped number is its decimal form, and is at most 9999 if and only if it has at most four digits |
| VersionGate.ParserExact | lib/leaf-version-gate.sh:53-84 | the accepted values are exactly the grammar, in both modes, if and only if the shell's numeric test rejects an empty operand |
| VersionGate.AtLeastExact | lib/leaf-version-gate.sh:86-100 | the answer is yes if and only if both sides parse and the installed version is not below the required one lexicographically |
| VersionGate.OrderTotal | lib/leaf-version-gate.sh:95-99 | the comparison is a total order |
| VersionGate.GateExact | lib/leaf-version-gate.sh:102-166 | 65 if and only if a floor is missing or does not parse, else 66 if and only if the installed version is or does not, else 67 if and only if it is below its floor or a readable Jawaka version below its own, else 0 |
| VersionGate.GateMonotone | lib/leaf-version-gate.sh:102-166 | a gate that passes one installed version passes every later one |
| VersionGate.OwnFloor | lib/leaf-version-gate.sh:86-100 | a floor is passed by its own release and pre-releases, with or without a leading v |
| UrlEncode.UrlEncode | src/ui_main.c:80-96 | the buffer holds the encoding of the kept prefix and a terminator inside it, and nothing beyond is touched |
| UrlEncode.WholeValueKept | src/ui_main.c:85 | the whole value is kept if and only if all but its last byte leave room for an escape and the terminator; 3 * length + 2 bytes are enough |
| UrlEncode.RoundTripUnderTruncation | src/ui_main.c:80-96 | for every value and size the output decodes (sections 2.1 and 2.3 of RFC 3986) to the kept prefix, so it never ends inside an escape |
| UrlEncode.UnreservedExact | src/ui_main.c:86-88 | a byte stands for itself if and only if it is one of the 66 unreserved characters of section 2.3 of RFC 3986 |
| UrlEncode.OutputIsSafe | src/ui_main.c:80-96 | for every value and size the output is a sequence of unreserved characters and escapes of upper-case digits |
| LikeSearch.EscapedIsOnePass | src/raofflineproxy/leaf_library.py:340 | the three chained replacements equal a one-pass escape of every special character |
| LikeSearch.SearchExact | src/raofflineproxy/leaf_library.py:337-342 | for every query and name the filter holds if and only if the query occurs in the name, ASCII case aside |
| LikeSearch.RawWildcards | src/raofflineproxy/leaf_library.py:340 | unescaped, a query of one wildcard would find every name |
| Basics.LowerCharExact | src/raofflineproxy/leaf_library.py:337-342 | two characters match without case exactly when they are the same or the two cases of one ASCII letter |
| SourceArchive.Writer.Add | scripts/dist-source.py:120-123 | adds a new name with its bytes and one of two modes, refuses a name already there |
| SourceArchive.Writer.List | scripts/dist-source.py:137-148 | lists every entry once, names ascending, all at the epoch |
| SourceArchive.CanonicalEntries | scripts/dist-source.py:137-148 | every listed entry is one of the writer's with its bytes and mode, at the epoch, and none is missing |
| SourceArchive.BelowExact | scripts/dist-source.py:140 | the order is the one of the first differing character, a prefix first |
| SourceArchive.NormalizeUpstream | scripts/dist-source.py:70-83 | lists the archive exactly when no member is unsupported and no name repeats |
| SourceArchive.AcceptedExact | scripts/dist-source.py:70-83 | accepted if and only if all files are supported and their names below the top directory are distinct |
| SourceArchive.CanonicalArchive | scripts/dist-source.py:70-83 | two accepted archives give the same listing if and only if they say the same names, bytes and executable bits, in any order and with any metadata |
| SourceArchive.NameExact | scripts/dist-source.py:70-83 | two members get one name exactly when their paths agree below the top directory, and one mode exactly when their executable bits agree |
| SourceArchive.CanonicalTree | scripts/dist-source.py:70-83 | two accepted archives give the same listing if and only if they hold the same paths below their top directories with the same bytes and executable bits, in any order and with any metadata |
| SourceArchive.DigestedMapInjective | scripts/dist-source.py:49-62 | maps from NUL-free names to 32-byte digests that are hashed as one stream are equal |

## Left out

- libchdr, rcheevos and sscanf: hunks, track records and the four metadata lookups are given to the model; counts beyond what `%d` reads are not modelled.
- The CHD container of the writer (header, hunk map, metadata list) and the wrapper that routes other files to rcheevos' own reader.
- The four special request values are parameters; rc_hash.h, which defines them, is not part of this model.
- Handle allocation failures in `raproxy_chd_open_track`.
- Award hashing, signing, chain verification and the send loop of a flush: an insert may fail, rows may be marked and swept at any time, and a flush ends with its credentials.
- `cache_keys` is not part of this model; account names are taken to be normalised by lower-casing, which is modelled for ASCII letters, and a login row's answer to always parse.
- The pre-cache rows are those of one account; upstream's answers are functions of the request, and eviction does not happen.
- WorkerGate.GateExact: the server's own thread start is a step; that it raises nothing once the thread runs is a matter of Python's socketserver, which is not part of this model.
- DiscCache.SessionRefines: assumes that a failing read of one of the track's own hunks leaves the buffer alone; `SessionsExact` says for which tracks that is not needed.
- DiscCache.CacheExact: makes the same assumption, for the same reason.
- PrecacheResume.ResumeEqualsOneRun: assumes that no mark expires between the first attempt and the last run, because an expired mark is meant to be asked about again.
- ConnectivityMonitor.KickIsHeard: an exception out of a probe or a flush, which would end the monitor's thread, is not a step of the model.
- The gate, the monitor, the award protocol and the job's threads are transition systems on values: locks and events are atomic steps, and the identity of the objects is not captured.
- Time, scheduling fairness and randomness: clocks and delays are functions given to the model.
- What a sweep of the monitor does: the probe, the saved online state and the flush it may start.
- The directory scan of `content_sha256`: its names and digests are given as a map.
- SQLite apart from the two login queries, one upsert and LIKE; strings with NUL characters in LIKE.
- VersionGate.GateMonotone: starts from the version strings; the scan of the JSON files is not modelled.
- The tar, gzip and SHA-256 encodings in dist-source.py, and Python's `sorted`, which is modelled as insertion.
- UI screens, socket clients, health and control routes, packaging and build scripts.

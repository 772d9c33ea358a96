# OpenHPI client library: a verified model

This project models the concurrent core of the OpenHPI client base library and the algorithms around it, and proves
what they keep, in Dafny 4.11. `dafny verify dfyconfig.toml` checks everything.

## What is modelled

**Sessions** (`baselib/session.cpp`). `SessionState` is a state machine over any number of threads. Every region under
`ohc_lock` is one atomic step on a heap of session objects, the session table and the two counters; the remote
procedure call between two locked regions is a step of its own. A session's reference counter starts at 0, a closing
release takes two references, and the object dies when the counter goes below 0. `SessionInvariant` shows what every
interleaving keeps, `SessionSafety` when the protocol is safe, `SessionRuns` what that means for whole runs, and
`SessionDomains` exactly when the entries of the domain table that the session layer reads outside the lock stay right.
`SessionCalls` says what every call returns and does, from its first step to its last, in any run. `SessionLayer` is the
mutable code, proved to compute the functions the state machine is made of, and the calls themselves when nothing
disturbs them.

Two conditions on the environment give safety: the daemon acknowledges the close of a session once, and
`ohc_sess_close_all` does not overlap another close. Each is needed even when the other one holds, and `SessionOverlap`
has a run for either: `ohc_sess_close_all` ignores the result of `RpcClose` and releases with two references whatever
the daemon said, so that it can destroy, together with an overlapping `ohc_sess_close`, a session under a third call;
and so can two closes that are both acknowledged. `SessionSoundness` has the exact condition for any run, and a plainer
one for runs after which no call is in flight.

**Remote procedure call** (`DoRpc`, `GetSock`, with `ReadMsg` and `WriteMsg` of `transport/strmsock.cpp`). The network
decides for every attempt what fails; the daemon answers each request that reaches it once, in order. A write that
reports failure may have reached the daemon. Request and reply share one buffer: a read that fails behind the header
overwrites the request, and the second attempt sends what is left (`RpcPairing.RetryIntactIff`).

**Domain table** (`baselib/conf.c`, its public face in `baselib/ohpi.cpp`). `DomainTable` is the allocator and the entry
cursor, `ClientConf` the mutable table with its lock and the loader of the configuration file, `ConfParser` the loader
as functions on tokens, `ConfGrammar` and `ConfComplete` an independent grammar of configuration files.
`ClientOptions` is what the command line and the environment add. The lock is recursive; the model counts how often it
is taken from outside, so that a contract can say that a call is one critical section.

**Entity paths** (`cpp/oSaHpiEntityPath.cpp`): concatenation in place and comparison, on arrays of any one length; with
the destination appended to itself as well.

**Threshold client** (`clients/hpithres.c`): `Thresholds` is the program over its records and the device,
`ThresholdChanges` what a modification writes and what the device holds since, `ThresholdUndo` what undo restores after
any commands and any refusals, `ThresholdAliases` when it can be relied on at
all, `EntryLists` the arrays grown while the daemon's entries are followed.

**Host option** (`clients/clients.c`): `host:port` and `[host]:port`, cut in place in a NUL-terminated buffer.

## Where the code differs from what is said about it

- Ids of 2^31 and above: `compare_keys` compares as signed integers. `ohc_add_domain_conf` then picks id 1 and
  overwrites domain 1 if it exists, and the enumeration starts at such an id, reports it as id 0 and misses others. The
  exact conditions are `NewDomainIdFreshIff`, `AddRunSafeIff`, `ExactlyOneWins` and `EnumeratesAllIff`.
- `GetSock` goes on reading a domain entry after it has left the lock, and an add that overwrites domain 1 replaces, and
  frees, an entry that may be in use (`EntryReplacedInUse`), or the one of an open session (`EntryReplacedUnderSession`).
  Entries of other domains are never replaced; the exact conditions are `UnlockedEntryStaysValid` and `EntriesKeptIff`.
- A host of 255 characters is accepted by the table but does not fit the buffer it is reported in, so the enumeration
  fails on it (`EnumeratesAllIff`, `LongHostAdded`).
- The two `SA_ERR_HPI_OUT_OF_SPACE` returns of `ohc_add_domain_conf` cannot be reached.
- `include/oHpi.h` promises `SA_ERR_HPI_INVALID_PARAMS` for `oHpiDomainEntryGet` with `SAHPI_LAST_ENTRY`. The code
  returns `SA_ERR_HPI_NOT_PRESENT`, except if a domain has that id, and the promised code only if that domain's host has
  255 characters (`LastEntryIff`). The configuration file can name such a domain, and with a shorter host the call
  succeeds (`LastEntryConfigured`).
- In a stanza the first host that is not empty wins. A configured domain id is cut to 32 bits after the test that it is
  not 0, so exactly the positive multiples of 2^32 configure domain 0 (`DomainZeroIff`, `DomainZeroReplaced`).
- `append` copies the location of the appended terminator, so appending an empty path is neutral only under the
  condition of `RootIsRightIdentityIff`; appending a path to itself doubles it only under that of `SelfAppendIff`.
- `undo` of the threshold client ignores the daemon's answer and forgets the change all the same: a refused write is
  never made up for (`UndoOnlyOnce`).
- With one sensor listed under two names `undo` can restore a changed value; the exact condition is `TrustworthyIff`.
- `ohc_domain_add_by_options` does what the options ask for exactly under the condition of `OptionsEffectIff`. With ids of
  2^31 or above the environment's host can take over domain 1 (`LargeDomainOption`), or replace the `-N` host that it
  should yield to (`EnvironmentOverridesHost`).
- A host option of 255 characters or more is accepted, and the host is lost: the options get an empty one
  (`PlainRoundTrip`, `BracketedRoundTrip`).
- A call whose first attempt fails behind a reply's header can succeed on a request nobody made
  (`AnswersRequestIff`, `SpoiledRetrySucceeds`).

## Model

| member | source | states |
|---|---|---|
| Hpi.Clip | baselib/conf.c:382 | A stored host is the longest prefix of at most 255 characters, so a host of at most 255 characters is stored as it is. |
| DomainTable.SortedKeys | baselib/conf.c:143-147 | The sorted key list holds every id of the table once, in the order of `compare_keys`. |
| DomainTable.RunFits | baselib/conf.c:149-159 | Pigeonhole: a run of used ids from 1 is no longer than the number of positive ids. |
| DomainTable.NewDomainId | baselib/conf.c:149-173 | The id an automatic add picks: 1 if any id has its top bit set, otherwise the least unused positive id. |
| DomainTable.NewDomainIdFreshIff | baselib/conf.c:149-173 | The picked id is unused, and the least unused one, if and only if no id has its top bit set or id 1 is free. |
| DomainTable.NewDomainIdStaysSmall | baselib/conf.c:149-173 | The new id is below 2^31 if and only if at most 2^31-2 positive ids are in use or an id of 2^31 or above is. |
| DomainTable.AllocatorRebindsDomainOne | baselib/conf.c:249-258 | The failing case exists: domains 0, 1 and 2^31. |
| DomainTable.AddByIdAnswers | baselib/conf.c:180-200 | Adding by id: an invalid parameter for the two reserved ids, a duplicate for a used one, and success for any other; a refused add changes nothing. |
| DomainTable.AddStores | baselib/conf.c:373-386 | A successful add leaves the entry with exactly the host, up to 255 characters, the port and the entity root asked for. |
| DomainTable.AddExtendsIff | baselib/conf.c:137-200 | An add that succeeds takes an unused id, and changes no entry, exactly unless it is automatic, an id has its top bit set and domain 1 exists; then it replaces domain 1. |
| DomainTable.AddReplacesIff | baselib/conf.c:137-200 | The one entry an add can change is that of domain 1, exactly if it picks that id again and differs. |
| DomainTable.AddRunSafe | baselib/conf.c:137-200 | Any interleaving of adds none of which overwrites: every success took an unused id and keeps its own entry, successes differ, nothing else appears and nothing is rebound. |
| DomainTable.AddRunSafeIff | baselib/conf.c:137-200 | Any interleaving of adds: all successes have different unused ids and keep their entries if and only if no automatic add meets both a used id 1 and an id of 2^31 or above. |
| DomainTable.ExactlyOneWins | baselib/conf.c:180-200 | Of the adds that compete for one unused id exactly one call gets it, if and only if the id is not 1 or no add of the run overwrites domain 1. |
| DomainTable.NextInOrder | baselib/conf.c:223-234 | The cursor leads from each id to the next one in signed order and from the last to the end marker. |
| DomainTable.FirstEntryMisnamed | baselib/conf.c:216-221 | With an id of 2^31 or above in the table the cursor's first entry is not that of domain 0. |
| DomainTable.HighIdMissed | baselib/ohpi.cpp:370-399 | With such an id in the table the enumeration breaks its promise, whatever the entries are. |
| DomainTable.EnumeratesAllIff | include/oHpi.h:572-582 | `oHpiDomainEntryGet` enumerates every domain successfully, once, ascending, under its own id, and ends after as many calls as there are domains, if and only if all ids are below 2^31 and all hosts are shorter than 255 characters. |
| DomainTable.LongHostAdded | baselib/ohpi.cpp:387-394 | Any successful add of a host of 255 characters or more makes the enumeration fail. |
| DomainTable.LastEntryIff | include/oHpi.h:564-570 | The end marker is refused as not present if and only if no domain has it for an id, and with the promised code if and only if one has and its host does not fit. |
| DomainTable.EntryGetAnswers | baselib/ohpi.cpp:370-399 | For any id: not present if and only if it is not in the table, an invalid parameter if and only if its host does not fit, and otherwise its entry. |
| ClientConf.Scanner.GetNextGoodToken | baselib/conf.c:358-371 | Skips to the next setting key, closing brace or the end, whatever the tokens are. |
| ClientConf.LastBeforeGap | baselib/conf.c:149-159 | The search loop over the sorted keys stops right before the id `NewDomainId` characterises, and below 2^31. |
| ClientConf.GapFound | baselib/conf.c:149-172 | Whatever stops that loop, the next id is the one the allocator's specification names. |
| ClientConf.SearchNext | baselib/conf.c:223-234 | The loop over C integers finds the least id above the given one, or none. |
| ClientConf.SearchEnded | baselib/conf.c:223-234 | Whatever stops the search, the next entry id is the one the cursor's specification names. |
| ClientConf.Domains.GetDomainConf | baselib/conf.c:127-135 | Looks an id up in one critical section and leaves the lock as deep as it was. |
| ClientConf.Domains.AddDomainConf | baselib/conf.c:137-178 | Adds exactly the entry of the automatic add; the lock is taken from outside once, for search and insertion together, and left as deep as it was. |
| ClientConf.Domains.AddDomainConfById | baselib/conf.c:180-200 | Refuses reserved ids without the lock, and used ones; otherwise adds exactly that entry, in one critical section with the check. |
| ClientConf.Domains.GetNextDomainConf | baselib/conf.c:202-241 | Returns the cursor's entry and next id. |
| ClientConf.Domains.DomainEntryGet | baselib/ohpi.cpp:370-399 | Result code, next id and entry, reported under the id asked for; fails for a missing entry and for a host of 255 characters. |
| ClientConf.Domains.ReadSetting | baselib/conf.c:430-474 | One setting of a stanza changes host, port or root as the specification says, or fails. |
| ClientConf.Domains.ProcessStanza | baselib/conf.c:428-488 | The settings of a stanza: its domain is added, or nothing, and the same tokens are consumed as in the specification. |
| ClientConf.Domains.ProcessDomainToken | baselib/conf.c:388-489 | Adds the stanza's domain or, on any of its errors, adds nothing; consumes the same tokens as the specification. |
| ClientConf.Domains.ProcessMyEntityToken | baselib/conf.c:491-521 | Sets the path of the machine or, on any error, leaves it alone. |
| ClientConf.Domains.LoadClientConfig | baselib/conf.c:573-594 | Terminates on every token stream and leaves the configuration `Load` defines. |
| ClientConf.Domains.constructor | baselib/conf.c:55-112 | After initialisation what the file configures is there unchanged; if that leaves out domain 0, it is added at the environment's host, up to 255 characters, or localhost, with the port printed in the environment or 4743 and no entity root, and no other domain changes. |
| ClientConf.LoadKeepsKeys | baselib/conf.c:373-386 | Loading keeps every entry under its own id. |
| ConfParser.ParseSetting | baselib/conf.c:430-474 | A setting never gives tokens back, and a good one consumes some. |
| ConfParser.ProcessDomain | baselib/conf.c:388-489 | A stanza consumes at least one token, failed or not, so that loading terminates. |
| ConfParser.ProcessMyEntity | baselib/conf.c:491-521 | Consumes at least one token, and returns 0 exactly if it read a path. |
| ConfGrammar.StepsMeaning | baselib/conf.c:429-476 | Running the stanza loop over settings yields the first non-empty host, the last port and the last root. |
| ConfGrammar.DomainSegmentRead | baselib/conf.c:388-489 | On a piece of the grammar the parser consumes exactly that piece, and succeeds only on a whole stanza, with its meaning. |
| ConfGrammar.SegmentLoad | baselib/conf.c:573-594 | One round of the loading loop consumes one piece and has that piece's effect. |
| ConfGrammar.CutLoad | baselib/conf.c:478-484 | A piece cut off by the end of the file changes nothing. |
| ConfGrammar.FileLoad | baselib/conf.c:533-603 | Loading a file is the fold of its well-formed stanzas and my_entity lines; malformed pieces add nothing and what follows them counts. |
| ConfComplete.EveryFileSegments | baselib/conf.c:388-603 | Every token stream is made of pieces of the grammar, so the fold describes every file. |
| ConfComplete.StanzaParsesIff | baselib/conf.c:388-489 | A stanza is accepted if and only if it is one of the grammar's, and then with exactly its meaning. |
| ConfComplete.ConfigRoundTrip | baselib/conf.c:388-603 | Stanzas written out and loaded bind every id to its last stanza and leave all others as they were. |
| ConfComplete.DistinctStanzasRoundTrip | baselib/conf.c:388-603 | With distinct ids the loaded table is exactly the map the stanzas describe. |
| ConfComplete.SettingOrderIrrelevant | baselib/conf.c:429-476 | Exchanging neighbouring settings of different kinds changes nothing. |
| ConfComplete.HostMeans | baselib/conf.c:430-443 | A stanza's host is the first that is not empty, up to 255 characters. |
| ConfComplete.PortMeans | baselib/conf.c:444-455 | Its port is the last one given, cut to 16 bits. |
| ConfComplete.RootMeans | baselib/conf.c:456-470 | Its entity root is the last one given. |
| ConfComplete.DefaultsMean | baselib/conf.c:397-399 | Without a port it is 4743, without an entity root the empty path. |
| ConfComplete.WrittenRoundTrip | baselib/conf.c:388-603 | Any domains with different ids and hosts of 1 to 255 characters, written out and loaded, come back exactly: id, host, port and entity root, and nothing else. |
| ConfComplete.LastEntityCounts | baselib/conf.c:491-521 | In any file the last well-formed my_entity line sets the path of the machine; without one it stays. |
| ConfComplete.DomainZeroIff | baselib/conf.c:409-420 | An id token configures domain 0 if and only if it is `default` or a positive multiple of 2^32. |
| ConfComplete.DomainZeroReplaced | baselib/conf.c:411-416 | Loading a stanza for 2^32 replaces domain 0. |
| ConfComplete.LastEntryConfigured | baselib/conf.c:411-416 | Loading a stanza for 2^32-1 gives a domain that `oHpiDomainEntryGet` returns for the end marker. |
| ClientOptions.AddByOptions | clients/clients.c:93-172 | Carries out the adds the options and the environment ask for, up to the first failure, and updates the domain id option. |
| ClientOptions.WantedMeans | clients/clients.c:103-137 | The domain wanted is that of the option, or else of the environment: its host if shorter than 255 characters, and the port printed there or 4743. |
| ClientOptions.FailsIff | clients/clients.c:93-172 | Fails if and only if a domain is asked for and the domain id given is 0, an invalid parameter, or taken, a duplicate; and then, or with nothing asked for, nothing has been added. |
| ClientOptions.OptionsEffectIff | clients/clients.c:93-172 | On success the option names a new domain at the host asked for, the environment's host is there under an id of its own if both were given, and nothing else changed: if and only if the options fit the table, for all tables and ids. |
| ClientOptions.LargeDomainOption | clients/clients.c:112-140 | With a domain id of 2^31 or above next to a host, the environment's host replaces domain 1. |
| ClientOptions.EnvironmentOverridesHost | clients/clients.c:104-140 | Without a domain id, with an id of 2^31 or above in the table and domain 1 free, the environment's host replaces the daemon host the option names. |
| SessionInvariant.InitInv | baselib/session.cpp:114-125 | The counting invariant holds initially. |
| SessionInvariant.HoldersCount | baselib/session.cpp:333-365 | A release reduces the set of calls that hold the session by exactly the releasing one. |
| SessionInvariant.StepInv | baselib/session.cpp:307-469 | Every step of every thread keeps the counting invariant, without any condition on closes. |
| SessionSafety.UnrefSafeIff | baselib/session.cpp:353-365 | A release leaves every other reference alive if and only if no holder is left or the closing releases do not outnumber the holders. |
| SessionSafety.StepSingle | baselib/session.cpp:392-426 | Under the two conditions at most one closing release per session is ever pending or made. |
| SessionSafety.UnrefDestroys | baselib/session.cpp:353-365 | With at most one closing release, a release destroys the session if and only if it has been closed and nobody else holds it. |
| SessionSafety.DestroyedIff | baselib/session.cpp:353-365 | A session is gone exactly when it has been closed and nobody holds it. |
| SessionSafety.NoFault | baselib/session.cpp:307-469 | No step touches a destroyed session. |
| SessionSafety.StepSafe | baselib/session.cpp:307-469 | Every disciplined step keeps the safety invariant. |
| SessionRuns.CounterIsHoldersMinusCloses | baselib/session.cpp:321-443 | In every state of every run a live session's counter is the number of calls holding it minus its closing releases. |
| SessionRuns.NeverUsedAfterDestruction | baselib/session.cpp:321-443 | In a disciplined run no call ever holds or touches a destroyed session, and destroyed means closed and released by all. |
| SessionRuns.Quiescent | baselib/session.cpp:307-390 | In any run, with no call in flight the live sessions are those in the table, their counters are 0, and each is found under its own id. |
| SessionRuns.SidsNeverRepeat | baselib/session.cpp:307-319 | Session ids increase in lock order and none is given out twice in 2^32 opens. |
| SessionRuns.ClosingReleaseRemoves | baselib/session.cpp:353-365 | A closing release removes the session's own table entry and touches no other entry or session. |
| SessionRuns.RemovedSidIsRefused | baselib/session.cpp:392-469 | Once removed, a session id is refused by every later call of the run. |
| SessionRuns.CloseAllRemovesSnapshot | baselib/session.cpp:405-426 | When `ohc_sess_close_all` returns, every session of its snapshot has had a closing release and is out of the table for good. |
| SessionRuns.SnapshotIsOlder | baselib/session.cpp:333-351 | No session opened or added after the snapshot is in it. |
| SessionRuns.CloseAllTouchesOnlySnapshot | baselib/session.cpp:405-426 | Over the whole call, none of its releases touches a session outside its snapshot, nor the entry of one. |
| SessionCalls.CallReturns | baselib/session.cpp:392-469 | Every call on an open session, in any run, returns what the daemon answered; only the last step of an acknowledged close makes a closing release, exactly one, and takes the id out of the table. |
| SessionCalls.CallRefused | baselib/session.cpp:392-469 | A call with an id that is not in the table is refused at once and changes nothing. |
| SessionCalls.OpenReturns | baselib/session.cpp:377-390 | Every open, in any run, succeeds if and only if the daemon acknowledges, and then the session is in the table under the next id, on the domain asked for; otherwise nothing is left of it, and it returns the daemon's code or an invalid domain. |
| SessionCalls.CloseAllCloses | baselib/session.cpp:415-420 | Each releasing step of `ohc_sess_close_all` makes exactly one closing release. |
| SessionCalls.CloseAllReturns | baselib/session.cpp:405-426 | It always succeeds. |
| SessionSoundness.StepSoundIff | baselib/session.cpp:307-469 | A step keeps every reference alive if and only if it is no release that leaves holders but fewer than there are closing releases. |
| SessionSoundness.RunSoundIff | baselib/session.cpp:307-469 | Of any run, disciplined or not: all references stay alive and nothing destroyed is touched if and only if every release in it meets that condition. |
| SessionSoundness.IdleRunSoundIff | baselib/session.cpp:307-469 | A run after which no call is in flight is safe in that sense if and only if no call ever holds a session that has had two closing releases. |
| SessionSoundness.NeverHeldTwiceSound | baselib/session.cpp:307-469 | Every run in which that never happens is safe. |
| SessionSoundness.DisciplinedSound | baselib/session.cpp:307-469 | Disciplined runs are safe, and so are all their releases. |
| SessionSoundness.DestroyedOnceByLastHolder | baselib/session.cpp:353-365 | While references stay alive, the step that destroys a session is the release by its only holder, and it happens once. |
| SessionSoundness.InUseSurvivesClose | baselib/session.cpp:353-403 | A session another thread still uses leaves the table at once by a safe closing release of either close call, but is not destroyed yet. |
| SessionOverlap.OverlappingClosesDestroyInUse | baselib/session.cpp:392-426 | A run in which, each session being acknowledged once, an overlapping close and close_all destroy a session that a third call then touches. |
| SessionOverlap.DoubleAcknowledgeDestroysInUse | baselib/session.cpp:392-403 | A run without close_all in which two acknowledged closes of one session do the same. |
| SessionOverlap.DisciplinedCloseInUse | baselib/session.cpp:353-403 | A disciplined run in which a session closed during another thread's call leaves the table at once and is destroyed by that thread's release. |
| SessionDomains.EntriesKeptIff | baselib/session.cpp:132-156 | Of any run and domain: every open session on it keeps the entry it was opened with, and every entry of it in use is the table's, if and only if no add replaces that entry meanwhile. |
| SessionDomains.OpenSessionsKeepDomain | baselib/session.cpp:132-156 | Every session in the table names a domain in the domain table, for the whole run, with the entry it was opened with: always for domains other than 1, and for domain 1 unless an add replaces it. |
| SessionDomains.EntryReplacedUnderSession | baselib/session.cpp:241-257 | A disciplined run in which an automatic add replaces the entry of a session's domain, for every table with domain 1 and an id of 2^31 or above. |
| SessionDomains.EntityRootFound | baselib/session.cpp:132-146 | Asking an open session for its entity root never reports an invalid domain. |
| SessionDomains.UnlockedEntryStaysValid | baselib/session.cpp:241-257 | Of any run and domain: the entries read after unlocking are the table's all the time, if and only if no add replaces the domain's entry while it is in use; for domains other than 1 always. |
| SessionDomains.EntryReplacedInUse | baselib/session.cpp:241-257 | A disciplined run in which an automatic add replaces the entry a thread goes on reading after unlocking, for every table with domain 1 and an id of 2^31 or above. |
| SessionLayer.CSession.GetEntityRoot | baselib/session.cpp:132-146 | The entity root the table has for the session's domain, or an invalid domain. |
| SessionLayer.RefAndRelease | baselib/session.cpp:321-365 | Taking a reference and giving it back changes nothing. |
| SessionLayer.RefAndClose | baselib/session.cpp:321-365 | Taking a reference and closing takes the entry out, and one reference off or the object away. |
| SessionLayer.Sessions.New | baselib/session.cpp:381-382 | The new object changes no other and has counter 0. |
| SessionLayer.Sessions.Discard | baselib/session.cpp:385-387 | A failed open leaves no object behind. |
| SessionLayer.Sessions.Add | baselib/session.cpp:307-319 | Enters the session under the next id, wrapping at 2^32. |
| SessionLayer.Sessions.GetRef | baselib/session.cpp:321-331 | Counts a reference on the session found and on nothing else. |
| SessionLayer.Sessions.SessOpen | baselib/session.cpp:377-390 | Undisturbed: the daemon's answer is the result; on success there is one more session under the next id, with the daemon's session id, and on failure nothing has changed. |
| SessionLayer.Sessions.SessRpc | baselib/session.cpp:429-443 | Undisturbed: the daemon's answer, asked for with its own id of the session, and nothing changes. |
| SessionLayer.Sessions.SessClose | baselib/session.cpp:392-403 | Undisturbed: the daemon's answer; acknowledged, the session is out of the table and gone unless it is referenced, refused, nothing changes. |
| SessionLayer.Sessions.SessGetDid | baselib/session.cpp:445-456 | Undisturbed: the domain the session was opened on. |
| SessionLayer.Sessions.SessGetEntityRoot | baselib/session.cpp:458-469 | Undisturbed: the entity root of its domain in the table. |
| SessionLayer.Sessions.Unref | baselib/session.cpp:353-365 | One or two references less, the entry removed if closed, the object destroyed if the counter is negative. |
| SessionLayer.Sessions.GetRefAll | baselib/session.cpp:333-351 | One more reference on every session in the table, each listed once. |
| SessionLayer.Sessions.CloseEach | baselib/session.cpp:413-421 | The loop of `ohc_sess_close_all` makes one closing release of every listed session, in order. |
| SessionLayer.Sessions.CloseAll | baselib/session.cpp:405-426 | With no other call in flight nothing is left in memory or table, whatever the daemon answers. |
| SessionLayer.UnrefEachEmpties | baselib/session.cpp:353-365 | Closing every session once, each held once, empties memory and table. |
| Rpc.SessionSocket.GetSock | baselib/session.cpp:241-277 | Keeps an open socket, or connects, or fails with the code of the step that failed. |
| Rpc.SessionSocket.WriteMsg | transport/strmsock.cpp:248-302 | Refuses an oversized request; otherwise the daemon receives exactly the front of the buffer, or nothing. |
| Rpc.SessionSocket.ReadMsg | transport/strmsock.cpp:171-246 | Yields the oldest unread reply in the shared buffer, or fails and leaves there what it had received. |
| Rpc.SessionSocket.AttemptRpc | baselib/session.cpp:202-221 | One pass of the loop: stops without a socket, reads a reply, or closes the socket and leaves the buffer for the next pass. |
| Rpc.SessionSocket.DoRpc | baselib/session.cpp:173-239 | The retry loop computes `Call`: result, reply, socket slot and everything sent. |
| RpcPairing.TryPairs | baselib/session.cpp:198-222 | On a socket without unread replies one attempt reads the reply to the request it wrote, or leaves the slot empty. |
| RpcPairing.CallPaired | baselib/session.cpp:173-277 | A call sends at most two requests; a reply it reads answers its own last one, is the last unread one, and decides the result: the code decoded from the buffer it was read into if type, id and body fit, otherwise no response. Without a reply it fails and leaves the slot empty. |
| RpcPairing.ReplyIff | baselib/session.cpp:198-225 | A call gets a reply if and only if the first attempt gets a socket, writes and reads, or fails on its socket and the second connects, has a length that fits, writes and reads; without a reply it reports an invalid domain if and only if an attempt needing a socket found no domain, and else no response. |
| RpcPairing.ReceivedExactly | baselib/session.cpp:198-222 | What the daemon receives of a call: the request of the first attempt, after a failure that of the second, and nothing else. |
| RpcPairing.HistoryPaired | baselib/session.cpp:173-277 | Over any history of calls and failures, each reply answers a request its own call sent, no reply serves two, and the request is the one asked for if and only if the first attempt spoiled no buffer. |
| RpcPairing.StaleReplyIff | baselib/session.cpp:208-213 | With replies left unread, an attempt reads the reply to its own request if and only if there were none. |
| RpcPairing.RetryIntactIff | baselib/session.cpp:185-222 | After a failed attempt the buffer still holds the request if and only if the read failed before a header, or what came equals it. |
| RpcPairing.AnswersRequestIff | baselib/session.cpp:185-239 | The reply a call reads answers the whole request asked for, id and payload, if and only if the first attempt's read failed before a header or left the request as it was. |
| RpcPairing.SpoiledRetrySucceeds | baselib/session.cpp:198-222 | A call that succeeds on the reply to another request than its own. |
| EntityPaths.Append | cpp/oSaHpiEntityPath.cpp:112-137 | In place, for distinct and for identical paths, with null arguments; the entries behind the result are unchanged. |
| EntityPaths.Compare | cpp/oSaHpiEntityPath.cpp:149-180 | True if and only if both are given and agree up to and including the first ROOT, or throughout. |
| EntityPaths.AppendedCanon | cpp/oSaHpiEntityPath.cpp:112-137 | What counts of the result is one path's names and what counts of the other, cut to the array. |
| EntityPaths.AppendedNames | cpp/oSaHpiEntityPath.cpp:112-137 | The names of the result are the names of both, cut to the array. |
| EntityPaths.AppendRespectsSame | cpp/oSaHpiEntityPath.cpp:112-180 | Equal paths in, equal paths out. |
| EntityPaths.AppendAssociative | cpp/oSaHpiEntityPath.cpp:112-137 | Appending is associative, also when the result is cut. |
| EntityPaths.RootIsLeftIdentity | cpp/oSaHpiEntityPath.cpp:112-137 | Appending to an empty path gives the appended one. |
| EntityPaths.RootIsRightIdentityIff | cpp/oSaHpiEntityPath.cpp:128-134 | Appending an empty path is neutral if and only if there is no terminator or the locations of both terminators agree. |
| EntityPaths.AppendInjective | cpp/oSaHpiEntityPath.cpp:112-137 | Under one root, results that fit are equal only for equal paths. |
| EntityPaths.SelfAppendIff | cpp/oSaHpiEntityPath.cpp:128-134 | A path appended to itself is doubled if and only if it is empty or its double leaves no room. |
| Thresholds.Edited | clients/hpithres.c:368-375 | Setting one of the eight thresholds changes that one, if it is supported, and no other. |
| Thresholds.FindRptFirst | clients/hpithres.c:166-173 | The search yields the first resource with the id, or there is none. |
| Thresholds.FindSensorFirst | clients/hpithres.c:308-319 | The search yields the first sensor with the number, or there is none. |
| Thresholds.Client.FindRptById | clients/hpithres.c:166-173 | The loop finds what the specified search finds. |
| Thresholds.Client.FindSensorByNum | clients/hpithres.c:308-319 | The loop finds what the specified search finds, passing over records that are not sensors. |
| Thresholds.Client.ShowThresholds | clients/hpithres.c:289-306 | Keeps the thresholds of the first successful read, and only those. |
| Thresholds.Client.ShowSens | clients/hpithres.c:321-355 | The whole command changes the state as the specified step does. |
| Thresholds.Client.ModSen | clients/hpithres.c:377-510 | Saves before it writes, and marks the sensor as changed only if the daemon accepted. |
| Thresholds.Client.UndoResource | clients/hpithres.c:518-524 | The inner loop handles one resource's records in order. |
| Thresholds.Client.Undo | clients/hpithres.c:512-526 | Both loops together are the specified undo. |
| ThresholdChanges.ModifyWrites | clients/hpithres.c:377-495 | A modification sends one request, if the sensor can be read and all is entered and confirmed: for that sensor, with its current thresholds but for the one set, if supported. Accepted, exactly that becomes of the device; else nothing does. |
| ThresholdChanges.ModifyMarks | clients/hpithres.c:422-497 | The thresholds saved first stay saved; only acceptance marks the sensor, and no other record changes. |
| ThresholdChanges.ShowWrites | clients/hpithres.c:289-306 | Showing a sensor writes nothing. |
| ThresholdChanges.HoldsLastValue | clients/hpithres.c:377-526 | Since the last undo, a supported threshold holds the value of its last accepted modification, whatever else was changed. |
| ThresholdUndo.WriteKept | clients/hpithres.c:377-526 | Writing to one sensor and its record leaves all other records and, unless they are the same sensor, all other sensors alone. |
| ThresholdUndo.SavedIsOriginal | clients/hpithres.c:289-526 | After any commands and any refusals, every saved value is the one the sensor had at the start of the run, and nothing was changed unsaved. |
| ThresholdUndo.UndoEffect | clients/hpithres.c:512-526 | Undo writes the saved thresholds of every marked sensor, touches no other sensor and clears all marks. |
| ThresholdUndo.UndoRestoresIff | clients/hpithres.c:512-526 | Undo after any run restores the device if and only if each sensor is unchanged, or is marked and has its write accepted. |
| ThresholdUndo.UndoRestores | clients/hpithres.c:377-526 | If the daemon accepts undo's writes, any run that ends with undo leaves the device as it found it. |
| ThresholdUndo.UndoOnlyOnce | clients/hpithres.c:512-526 | After an undo, no further undo sends a request or changes the device until the next change, also if its own writes were refused. |
| ThresholdAliases.AliasesSpoilUndo | clients/hpithres.c:512-526 | Whenever a sensor with a supported threshold can be changed under two names, some run that ends with an accepted undo leaves it changed. |
| ThresholdAliases.TrustworthyIff | clients/hpithres.c:289-526 | Every run with accepted undo writes that ends with undo restores the device, if and only if no two sensors that commands can name are one sensor with a supported threshold. |
| EntryLists.ResizeArray | clients/hpithres.c:99-120 | A new array of the new size that keeps all old items and has zeroes behind them. |
| EntryLists.GetEntries | clients/hpithres.c:528-569 | The array grown one slot at a time ends up as the entries on the daemon's chain, in order, also when the chain ends in an error. |
| EntryLists.ChainUnique | clients/hpithres.c:528-569 | The daemon's answers determine the chain. |
| EntryLists.ChainDistinct | clients/hpithres.c:528-569 | A chain that ends has no entry twice. |
| EntryLists.EndsIff | clients/hpithres.c:535-545 | The loop ends if and only if as many answers as the daemon has entries lead to a stop. |
| HostOption.ParseDaemon | clients/clients.c:260-282 | Host and port of the options are those of the specification; in the buffer a terminator is written behind the host and nothing else changes, and an option refused is left as it was. |
| HostOption.PlainRoundTrip | clients/clients.c:271-282 | From host:port the options get every port back, and every host without a colon and leading bracket if and only if it is shorter than 255 characters. |
| HostOption.BracketedRoundTrip | clients/clients.c:264-282 | From [host]:port the options get every port back, and every host without a closing bracket if and only if it is shorter than 255 characters. |
| HostOption.BracketedJunk | clients/clients.c:264-276 | What is between the closing bracket and the next colon is passed over. |
| HostOption.PlainAlone | clients/clients.c:279-282 | A plain host alone gives the options that host, if it fits, and the default port. |
| HostOption.BracketedAlone | clients/clients.c:264-282 | A bracketed host alone gives the options that host, if it fits, and the default port; without the closing bracket it is refused. |
| CText.AtoiDecimal | clients/clients.c:279-280 | Reading back a printed number gives the number. |
| CText.AtoiReads | clients/clients.c:279-280 | It skips spaces, takes a sign and stops at anything that is no digit. |
| CText.AtoiNothing | clients/clients.c:279-280 | A text without a number gives 0. |

## Left out

- Addresses are not reused in the session model: a destroyed session stays distinguishable from every later one.
- SessionDomains.UnlockedEntryStaysValid: entries are values, so an add that overwrites domain 1 with an equal entry counts as keeping it, though the source frees the old one even then.
- More than 2^32 opens: session ids wrap, and the results for whole runs stop before that.
- The hash table of domains points to keys inside its values; what becomes of such a key when an entry is replaced is not modelled.
- Hosts of exactly 255 characters have no terminator in `strncpy`'s target; the model cuts them to 255 characters.
- Rpc.SessionSocket.ReadMsg: a header that announces more than the payload limit together with that much payload is not modelled; the source does not check it.
- GLib of 2.32 and later does not destroy a socket when its slot is set to null; the model takes an emptied slot as a closed socket.
- Sockets, keep-alive probes, pauses between attempts, `select` and logging.
- Marshalling: `HpiMarshalRequest` and `HpiDemarshalReply` are parameters of a call.
- `oh_encode_entitypath` is a parameter of the parser.
- The characters of the configuration file and NUL characters inside its strings; the model starts at tokens.
- Environment variables and opening files are parameters; the second call of `ohc_conf_init`, which does nothing, and the unlocked flag of `ohc_init`.
- Overflow in `atoi`: the model computes the number and cuts it to the field.
- Argument checks of `baselib/safhpi.cpp` and the null and data-type checks of `baselib/ohpi.cpp`.
- The prompts, number reading, event polling and printing of `clients/hpithres.c`; a command arrives with what the user entered, and thresholds are set to exactly what was written.
- Thresholds.Client.ModSen: threshold values are real numbers, without the rounding from double to float.
- EntryLists.GetEntries: for a chain that never ends the source loops forever; the model asks for a chain that ends, and `EndsIff` says which do.
- EntryLists.ResizeArray: a negative number of slots, which the program never asks for.
- Field assignment and printing in the other files of `cpp/`, and the remaining client programs.

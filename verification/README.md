# Proofs about the write side of the Pi-hole MCP server

This project models the code that changes a Pi-hole and must be able to account for the state it leaves, and
proves what that code promises. `dafny verify dfyconfig.toml` checks the whole project.

Five connected parts are modelled.

* **The sync engine.** Two Pi-holes are read as maps of entries (`Entries`), compared and ordered into steps
  (`SyncPlan`, `SyncSteps`), applied past individual failures with all CNAME changes in one rewrite
  (`CnameRewrite`, `SyncSpec`, `SyncRuns`, `SyncApply`), and guarded by a confirmation token (`Quote`, `SyncToken`).
  `SyncTheorems` holds the results about whole runs, in
  which every request may succeed or not and, without a success reply, may have been carried out or not;
  `SyncRequests` ties them to what the request engine makes of each call.
* **The keyed mutex** and what rests on it (`Locks`, `EntryUpdates`, `EntryKeys`): a transition system with one
  step per critical section, for any number of goroutines and keys and every interleaving.
* **The request engine** (`Backoff`, `Requests`, `Sessions`): retries, the replay after a 401, the marking of
  lost replies, the 64-bit backoff, and the session id that goroutines share.
* **The restart detector** (`Restart`): what uptimes alone, read on clocks that jitter, prove about which process
  answered.
* **The rate limiter** (`RateLimiter`): the table of addresses and session buckets, over whole runs.

Three transformations that must keep their meaning come with them: path escaping (`Escape`), the merging of
`config_set` payloads (`ConfigKeys`), and taking one name out of a local DNS or CNAME record (`LocalDns`).

Code that changes state is modelled as classes and methods with loops, each proved equal to a specification
function; the theorems are about those functions. `Ordering`, `Text` and `Wrappers` hold what several modules share.

## What the proofs found

* **A sync can empty a category** although it was not refused: when every add fails and every delete succeeds.
  `SyncTheorems.CanEmptyExactly` says exactly when: the sync prunes, the category is not the CNAME records, and
  source and target have no entry of it in common. Without a failed step it cannot happen (`NeverEmptied`).
* **Backoff** is exact for every attempt if and only if the maximum is at most 2^59 ns: at attempt 50 the shifted
  base wraps to just that (`Backoff.CeilingExact`). The comment in the code that the `<= 0` test guards the
  overflow is right only up to there.
* **A lost reply can go untold.** A write whose reply was lost is reported as uncertain if and only if the error is one
  that `mayHaveApplied` recognises: the end of the context, or EOF, a reset or aborted connection, a broken pipe, a
  timeout. A reply lost to anything else, such as a malformed one, comes back as a plain error although the change may
  have been made (`Requests.LostReplyIsUncertain`, and `UnrecognisedLossUntold` for the input).
* **A restart can go unmentioned.** When a sync changed the CNAME records, its report says nothing of FTL's restart if
  and only if the change was made and the client got an error for it that it does not mark as uncertain: an error reply
  that came after the change, or a reply lost to an error that is not recognised (`SyncRequests.SilentExactly`). Both
  happen (`RestartUnmentioned`).
* **A replay can go out without a session.** After a 401 a request is replayed under an id that Pi-hole granted exactly
  when the client held some id as `handleAuthRetry` took the lock (`Sessions.ReplayIssuedExactly`). When another
  goroutine's login was refused just before, the id is empty by then, `c.sid != oldSID` holds, and the replay goes out
  without one (`ReplayWithoutSession` for the run). It is never sent under the id that met the 401 (`ReplayNeverStale`).
* **The margin of the restart test** guards its second half only. That half takes no old process for a new one exactly
  when the margin covers twice the jitter of an uptime (`Restart.MarginExact`); the first half has no margin, and takes a
  process that started just before the request for a new one when its uptime is read too short (`FirstTestFooled`).
* **A token names its two instances** with an arrow between them, and an instance name may have an arrow in it: a sync
  from `a->b` to `c` and one from `a` to `b->c` with the same steps have one token (`SyncToken.ArrowAmbiguous`). Apart
  from that a token is accepted only for what its plan showed (`TokenDecides`, `AppliesWhatWasShown`).
* **Lock keys.** An update handler lowers an exact domain before it locks it; a sync takes the domain as the source
  lists it. They share a lock if and only if the source lists it folded (`EntryKeys.SharedLockIffFolded`), which
  FTL does.
* **An empty object can be lost.** `expandConfigKeys` accepts `{"a": {}, "a.b": 1}` and drops the `{}`
  (`ConfigKeys.EmptyObjectLost`). With "the result sets what the payload sets" added to "accepted", the condition
  is exact for every payload (`ExpandMeans`); without empty objects acceptance alone is (`ExpandAccepts`).
* **The idle sweep** gives capacity away unless a bucket refills within the three minutes: with the default burst
  that is any rate from ten a minute up (`RateLimiter.DefaultsRefill`).

## Model

| member | source | states |
|---|---|---|
| Entries.KeyInjective | internal/pihole/sync.go:125-240 | two entries of any categories have one key only if they are the same entry, so no reader's map loses one |
| Entries.LabelInjective | internal/pihole/sync.go:136-142 | within a category the text a plan shows for an entry names just that entry, although names may contain the suffixes |
| Entries.LabelTells | internal/pihole/sync.go:136-142 | an entry is shown by its name, with its type, and for a rule its kind, in brackets |
| Entries.CompareInjective | internal/pihole/sync.go:140-140 | the compared text is equal exactly for equal settings, and empty only where there are none |
| Entries.CompareTells | internal/pihole/sync.go:140-140 | the text a plan shows says enabled=true for an enabled entry, enabled=false for a disabled one, and the comment |
| Entries.ServeExact | internal/pihole/piholefake/piholefake.go:184-650 | a write the Pi-hole accepts leaves its own entry as the write wants it and every other entry as it was |
| Entries.ServeRefuses | internal/pihole/piholefake/piholefake.go:184-650 | what the Pi-hole refuses, and that a refused write leaves everything as it was |
| SyncPlan.SortedIds | internal/pihole/sync.go:388-395 | the keys of a map come out in the one increasing order, whatever order the map gives them in |
| SyncPlan.CompareCategory | internal/pihole/sync.go:366-382 | the loops find exactly the added, changed and removed entries, each list in key order |
| SyncPlan.ComputeDiff | internal/pihole/sync.go:350-386 | one diff per requested category, in request order, or none at all exactly when a requested category cannot be read |
| SyncPlan.Plan | internal/pihole/sync.go:471-502 | adds and updates in apply order, then with prune the deletes in reverse; the last comparison of a category counts |
| SyncSteps.PlanIsSteps | internal/pihole/sync.go:350-502 | what the two loops compute from two Pi-holes is the plan the theorems speak of, also when a category is asked for twice |
| SyncSteps.StepsExact | internal/pihole/sync.go:366-382 | a step is in the plan if and only if its entry is in a requested category and differs (deletes only with prune), and it carries the source's settings and shows what they replace |
| SyncSteps.StepsOrdered | internal/pihole/sync.go:471-502 | all plans follow one strict order of steps |
| SyncSteps.InOrderUnique | internal/pihole/sync.go:471-502 | so a plan is determined by which steps it holds |
| SyncSteps.StepsDistinct | internal/pihole/sync.go:471-502 | no entry has two steps in one plan |
| SyncSteps.CnamesTogether | internal/pihole/sync.go:56-63 | the CNAME steps of every plan stand next to each other |
| SyncSteps.InSyncExact | internal/pihole/sync.go:447-453 | InSync holds if and only if the plan is empty |
| SyncSteps.WipesExact | internal/pihole/sync.go:435-443 | PruneWipes finds something if and only if a requested category is empty on the source and not on the target |
| CnameRewrite.BuildNext | internal/pihole/sync.go:660-692 | the three loops build the rewritten list, and decide to send it exactly when it differs |
| CnameRewrite.RewriteRefinesSteps | internal/pihole/sync.go:655-692 | the rewritten list is what adding and removing the records one at a time leaves, order included, with repeats left out |
| CnameRewrite.RewriteElements | internal/pihole/sync.go:660-683 | its records are those before, less the removed, plus the added, each once |
| CnameRewrite.RewriteIdempotent | internal/pihole/sync.go:685-692 | the same changes made again change nothing, so a second sync with the same plan sends no write |
| SyncApply.PiHole.Send | internal/pihole/sync.go:601-607 | one write under any fate of its request: what it leaves and what is reported |
| SyncApply.ApplyResult.ApplyCnames | internal/pihole/sync.go:634-716 | every CNAME change takes effect in one write or none does, each step gets its own result, all alike, and Restarted or RestartError say what came of the restart |
| SyncApply.ApplyResult.RestartAfterSync | internal/pihole/sync.go:742-757 | a restart that could not be asked for, or did not come, is reported as such |
| SyncApply.ApplyPlan | internal/pihole/sync.go:578-611 | for the diff of two Pi-holes Ops has one result for each step, in plan order, with its category, action and label and marked as applied exactly when the request it was part of succeeded; Applied and Failed are the numbers of results with and without success; Restarted and RestartError follow from what came of the one CNAME write |
| SyncApply.ReportTells | internal/pihole/sync.go:597-608 | any results that list the steps and outcomes of a run of the plan tell, step by step, which requests succeeded |
| SyncRuns.BatchExact | internal/pihole/sync.go:655-698 | the rewrite does exactly what its steps say, for every other record nothing |
| SyncRuns.AddKeepsRule | internal/pihole/piholefake/piholefake.go:218-250 | an add never replaces a rule that is stored already, and is reported as failed |
| SyncRuns.NothingToSend | internal/pihole/sync.go:685-692 | CNAME changes that another writer has made already are reported as applied, without a write or a word of a restart |
| SyncRuns.LoopFollows | internal/pihole/sync.go:582-609 | although all CNAME steps run at the first of them, the report lists the steps in plan order |
| SyncRuns.LoopTold | internal/pihole/sync.go:578-716 | in a plan the Pi-hole would take, a step of its own is reported as applied exactly when its request succeeded, and the CNAME steps, all alike, exactly when their write did or when it would have changed nothing |
| SyncTheorems.SyncReports | internal/pihole/sync.go:553-611 | for all failures: the run tells of exactly the steps of the plan, in plan order, a step counts as applied exactly when the request it was part of succeeded and as done exactly when that was carried out, and exactly the entries of the steps done are as wanted while all others are as before |
| SyncTheorems.PlanDiffers | internal/pihole/sync.go:670-692 | a plan with a CNAME step changes the list, so its write is sent and no success is reported without one |
| SyncTheorems.RestartTold | internal/pihole/sync.go:694-716 | a restart is reported exactly when the CNAME records were sent and FTL came back, after the write or, when its reply was lost, after a restart asked for; a failed one exactly when it did not; when the records changed the sync is silent exactly if the write failed with an error not marked as uncertain |
| SyncTheorems.SyncConverges | internal/pihole/sync.go:471-502 | when no step failed the requested categories equal the source's with prune, are overridden by it without, and all else is untouched; and no step fails when every request succeeds |
| SyncTheorems.PlanAgain | internal/pihole/sync.go:565-611 | planning again afterwards gives exactly the steps that were not done, unchanged and in the same order |
| SyncTheorems.OnlyFailedAgain | internal/tools/sync.go:285-293 | only steps reported as failed come back; no failed step means the two are in sync, as in_sync then says |
| SyncTheorems.NeverEmptied | internal/tools/sync.go:227-236 | a sync that was not refused and had no failed step empties no category that had entries |
| SyncTheorems.CanEmptyExactly | internal/tools/sync.go:227-236 | with failures it can, if and only if it prunes, the category is not CNAME, and nothing of it is on both sides |
| SyncTheorems.PrunedCnames | internal/pihole/sync.go:660-683 | the list a pruning sync writes holds the source's records and no others |
| SyncTheorems.NoAliasRepeated | internal/pihole/sync.go:626-633 | so it gives two records one alias only if the source does |
| SyncRequests.ReportsWhatDoReturned | internal/pihole/sync.go:599-616 | with every write a call of Do: a step is reported as applied exactly when its call returned no error, is done exactly when the Pi-hole carried one of its requests out, and none is carried out twice |
| SyncRequests.UntoldExactly | internal/pihole/client.go:238-245 | a change was made with neither a success nor a mark of uncertainty exactly when an error reply came after it, or its reply was lost to an error not recognised |
| SyncRequests.SilentExactly | internal/pihole/sync.go:698-716 | when a sync changed the CNAME records its report is silent about the restart exactly in these cases |
| SyncRequests.RestartUnmentioned | internal/pihole/sync.go:698-716 | both cases happen: a sync that adds a first record, whose PATCH is answered with a 500 after the change or loses its reply to a malformed one |
| Quote.ReadQuoted | internal/pihole/sync.go:537-539 | a string quoted as %q quotes it can be read back, whatever characters count as printable and whatever follows |
| Quote.QuotedDecides | internal/pihole/sync.go:537-539 | of two texts that begin with a quoted string, if the texts agree so do the strings and what follows them |
| SyncToken.LinesDecide | internal/pihole/sync.go:534-542 | the token's lines are the same text only for the same steps in the same order |
| SyncToken.HeaderDecides | internal/pihole/sync.go:536-536 | the first line tells whether the sync prunes |
| SyncToken.TokenFaithful | internal/pihole/sync.go:526-542 | between the same instances, equal token text means that both prune or neither does, equal steps and the very same writes: verb, entry and settings |
| SyncToken.TokenDecides | internal/pihole/sync.go:534-542 | the text is that of one pair of names, one choice of pruning and one list of steps shown, whatever the names are, if they have no newline in them |
| SyncToken.ArrowDecides | internal/pihole/sync.go:536-536 | the pair of names tells the two instances apart when no source's name has an arrow in it |
| SyncToken.ArrowAmbiguous | internal/pihole/sync.go:536-536 | two pairs of instances whose names have arrows in them and the same text |
| SyncToken.PruneWipes | internal/pihole/sync.go:435-443 | lists each wiped category, in order, with how many entries it would lose |
| SyncToken.WipesTell | internal/pihole/sync.go:435-443 | a category is in the list exactly when it was requested and is empty on the source and not on the target, with the number of entries the target has in it |
| SyncToken.WipesOfConcat | internal/pihole/sync.go:435-443 | the list follows the order of the diff |
| SyncToken.CountDiff | internal/pihole/sync.go:422-453 | in sync exactly when no category has anything to add or change, nor, when pruning, to remove |
| SyncToken.DiffTells | internal/tools/sync.go:220-227 | what the diff says of wiping and of being in sync is what holds of the two Pi-holes |
| SyncToken.Check | internal/tools/sync.go:227-283 | the tool goes on to write exactly when nothing is wiped, the mode is apply, a matching token was given, something differs and the backup asked for was made; otherwise it answers with the first reason |
| SyncToken.ReplyRight | internal/tools/sync.go:220-283 | from what the two Pi-holes hold: which of the seven replies is given, that a refusal lists the wiped categories with their sizes, and that a plan shows each step with what it changes, the token, and whether there is nothing to do |
| SyncToken.CountsTell | internal/tools/sync.go:286-293 | the two counts add up to the number of results; one is zero exactly when all steps succeeded, the other exactly when none did |
| SyncToken.ApplyConfirmed | internal/tools/sync.go:285-320 | the reply of a run from its own fields: one result for each step with the fate of its request, applied the number of successes and failed of the rest, in_sync exactly when all succeeded and then the two Pi-holes are in sync, an error exactly when there were steps and none succeeded, and the restart as it turned out |
| SyncToken.HandleSync | internal/tools/sync.go:203-322 | all of this for the whole call: the reply is the one that the contents of the Pi-holes, the mode, the token and the backup call for, and the target changes only when it is the report of a run |
| SyncToken.AppliesWhatWasShown | internal/tools/sync.go:247-285 | of any two replies: if the later call was given the token that the earlier showed with its plan, and applied, it is for the same pair of names, prunes exactly if the plan did, its results are those of the steps shown, in that order, and its writes those of the plan |
| Locks.KeyedMutex.Register | internal/pihole/locks.go:69-80 | opens lock(key): finds or makes the key's lock and counts the caller in |
| Locks.KeyedMutex.TryLock | internal/pihole/locks.go:82-82 | the lock is had exactly when nobody holds it, and nothing else changes |
| Locks.KeyedMutex.Unlock | internal/pihole/locks.go:84-84 | the lock is free again, and nothing else changes |
| Locks.KeyedMutex.Drop | internal/pihole/locks.go:83-90 | closes the unlock: counts the caller out and forgets the lock at zero |
| Locks.MutexTheorem | internal/pihole/locks.go:69-91 | under every interleaving at most one goroutine holds a key, everyone waiting for or holding it points at the lock in the map, the count is the number of users, and a key is in the map exactly when that is positive |
| Locks.NoDeadlock | internal/pihole/locks.go:21-45 | in every state that keeps the invariant, with an unfinished goroutine some step is enabled |
| Locks.NeverStuck | internal/pihole/locks.go:21-45 | from the start, after any steps at all, somebody can move until everybody is done |
| Locks.EveryRunFinishes | internal/pihole/locks.go:21-45 | under any scheduler a run that can go no further has finished every goroutine, in four steps per key, with the map empty |
| Locks.RepeatedKeyBlocksItself | internal/pihole/locks.go:34-35 | without the compaction a batch with one setting twice would wait for itself for ever |
| Locks.SettingKeys | internal/pihole/locks.go:29-35 | LockSettings takes each setting once, in increasing order, however it is spelled |
| EntryUpdates.CrudUpdateBody | internal/tools/shared.go:247-262 | the body holds what was supplied and, for the rest, the entry as read; a comment that is too long is refused |
| EntryUpdates.WriteTold | internal/tools/domains.go:292-315 | what each kind of write leaves of its entry, and that it touches no other |
| EntryUpdates.Serialised | internal/tools/domains.go:290-315 | any interleaving of updates and sync writes leaves each entry as running them one after another in lock order |
| EntryUpdates.FieldSurvives | internal/tools/domains.go:292-315 | a field is changed only by a later write that supplied it, although every PUT replaces both |
| EntryUpdates.GoneStays | internal/tools/domains.go:290-315 | an update never brings a deleted entry back |
| EntryUpdates.NoLostUpdate | internal/tools/domains.go:290-315 | in every interleaving, what a write carried out gave an entry is still there unless a later write that supplies the field, or is no update, has been carried out on it; and an entry that a sync deleted is gone unless a later PUT or add of a sync brought it back |
| EntryKeys.SharedLockIffFolded | internal/tools/domains.go:286-294 | a sync shares its lock with every update of the same rule exactly when the source lists the domain folded, and two rules never share one |
| EntryKeys.KeysEqual | internal/pihole/sync.go:133-138 | the two lock keys are equal exactly when they address one rule by that name |
| EntryKeys.EntryLockInjective | internal/pihole/sync.go:133-218 | two entries of groups, lists, domains and clients have one lock key only if they are the same entry: table, type, kind and name |
| Escape.DecodeEscape | internal/pihole/escape.go:20-22 | FTL's decoding of an escaped name gives the name back, for every byte string |
| Escape.EscapedIsOneSegment | internal/pihole/escape.go:20-22 | an escaped name has no byte that ends a segment or a path, or that reads as a space |
| Escape.EscapeInjective | internal/pihole/escape.go:20-22 | distinct names have distinct escaped forms |
| Escape.UnreservedUnchanged | internal/pihole/escape.go:20-22 | a name of unreserved characters is its own escaped form |
| Escape.DomainPathInjective | internal/pihole/sync.go:134-135 | a rule's path determines its type, kind and domain |
| Escape.EscapeConfigElement | internal/tools/shared.go:310-316 | the in-place loop escapes each part of the setting's name |
| Escape.ConfigElementRecovered | internal/tools/shared.go:310-316 | splitting the result at the slashes, decoding and joining with dots gives the name back |
| Backoff.CeilingExact | internal/pihole/retry.go:167-171 | the wrapping 64-bit computation equals min(200 ms * 2^attempt, max) for every attempt if and only if max is at most 2^59 ns |
| Backoff.BackoffDelay | internal/pihole/retry.go:167-176 | the wait lies between half the delay and the delay |
| Backoff.JitterCovers | internal/pihole/retry.go:172-176 | the draw reaches every wait between them |
| Requests.Client.WithRetry | internal/pihole/retry.go:54-70 | the retry loop makes the exchanges and waits of the recursive specification |
| Requests.Client.Do | internal/pihole/client.go:238-272 | success exactly when there is a last exchange and it is a 204, or a status below 400 that is no redirect with a body that can be read; uncertain exactly for a method that is not a read whose error may hide a change; and the call is told turn by turn as in RunTold, and keeps all that AtMostOnce says |
| Requests.RunTold | internal/pihole/client.go:247-272 | every run, turn by turn, from the replies alone: without a session nothing is sent, a request goes out once and, after a 401 and a refresh, exactly once more; which error each status comes back as; another turn exactly when the error is worth one, retries are left and the caller is still there; and the wait between them |
| Requests.SucceedsExactly | internal/pihole/client.go:523-572 | a run succeeds exactly when its last exchange is a reply that says so |
| Requests.RetryableIsWorth | internal/pihole/retry.go:73-115 | a 429 that is no full session pool is tried again for any method; a server error or failed connection for a read, or when the login met it; nothing else |
| Requests.WaitIsFor | internal/pihole/retry.go:144-161 | the wait is what the server asked for up to the maximum, or lies between half the doubled base, capped, and the whole of it |
| Requests.OnceIsSafe | internal/pihole/client.go:247-272 | one attempt, replay included, carries out at most its last exchange, and one that may be retried carried out none |
| Requests.AtMostOnce | internal/pihole/client.go:238-272 | for every sequence of outcomes one such call is carried out at most once and sent at most 2*(MaxRetries+1) times; a lost reply comes back as uncertain exactly when its error is a recognised one, a failed login or refused connection never |
| Requests.LostReplyIsUncertain | internal/pihole/errors.go:167-188 | whichever request of the call lost its reply, the caller is told exactly when the error is one of those recognised |
| Requests.UnrecognisedLossUntold | internal/pihole/errors.go:178-187 | a change that was made, with its reply lost to another error, comes back as a plain error |
| Requests.UncertainEndsUnanswered | internal/pihole/errors.go:167-188 | the caller is told so only when the last exchange was not answered |
| Requests.WaitsBounded | internal/pihole/retry.go:54-70 | a run waits at most MaxRetries * MaxDelay in all |
| Sessions.Client.EnsureAuth | internal/pihole/auth.go:90-101 | under the lock a session already there is used, otherwise one login is made; what is returned is the session held afterwards |
| Sessions.Client.HandleAuthRetry | internal/pihole/auth.go:107-122 | only the stale id's first refresher logs in; what is returned is the session held afterwards, and never the stale one unless Pi-hole grants it anew |
| Sessions.OneRefreshPerSession | internal/pihole/auth.go:107-122 | in any interleaving each granted id causes at most one refresh, and every grant but the current one is accounted for by one |
| Sessions.OneLoginAtStart | internal/pihole/auth.go:81-102 | goroutines starting without a session log in successfully once and all send under that id |
| Sessions.ReplayNeverStale | internal/pihole/client.go:262-270 | in any interleaving a replay is sent under another id than the one that met the 401, and one that Pi-hole granted unless it is empty |
| Sessions.ReplayIssuedExactly | internal/pihole/auth.go:112-121 | after a 401 the request is given up exactly when its session was still held and the login refused; otherwise it is replayed, under a granted id exactly when the client held some id |
| Sessions.ReplayWithoutSession | internal/pihole/auth.go:112-121 | a run of two goroutines in which a replay goes out without a session |
| Restart.AwaitRestart | internal/pihole/restart.go:153-185 | the loop ends at the first probe that meets either test, and at none before |
| Restart.EndsExactly | internal/pihole/restart.go:168-176 | the loop's test in terms of the probes alone: the process cannot have started by the request, or by when some process seen before must have, with the margin |
| Restart.Sound | internal/pihole/restart.go:168-173 | when clocks jitter by no more than half the margin, the process whose answer ends the wait by the second test started after the request, whatever probes failed before; by the first test it did up to the jitter |
| Restart.MarginExact | internal/pihole/restart.go:38-43 | the second test takes no old process for a new one, in any history, exactly when the margin covers the jitter twice |
| Restart.FirstTestFooled | internal/pihole/restart.go:171-171 | the first test does, for any jitter above zero |
| Restart.Complete | internal/pihole/restart.go:168-173 | an answer from a process that started later than the request by more than the round trip and the jitter ends the wait, and so does one later than a seen process by the margin, both round trips and the jitter twice |
| Restart.OldProcessNeverEnds | internal/pihole/restart.go:165-184 | while only processes older than the request, by the jitter, answer, the wait goes on |
| RateLimiter.RateLimiter.EvictOldest | internal/middleware/ratelimit.go:283-292 | drops one address, the least recently seen unless the empty key is in the table |
| RateLimiter.RateLimiter.Admit | internal/middleware/ratelimit.go:161-209 | one request changes the table and is served as the specification says; with the limit off nothing changes |
| RateLimiter.RateLimiter.EvictIdle | internal/middleware/ratelimit.go:311-325 | leaves exactly the addresses, and under them the sessions, that were seen within three minutes |
| RateLimiter.TableBounded | internal/middleware/ratelimit.go:189-209 | every event in time order keeps the table within 8192 addresses and 64 session buckets under each |
| RateLimiter.TableBoundedFromStart | internal/middleware/ratelimit.go:120-137 | so it is in every table a limiter comes to have |
| RateLimiter.AdmitExact | internal/middleware/ratelimit.go:165-178 | a request is served exactly when its address can pay and its session can, if it has or may have a bucket; the address pays even when its session cannot |
| RateLimiter.AdmitSessionExact | internal/middleware/ratelimit.go:165-178 | the session pays exactly when the request is served |
| RateLimiter.AdmitTouches | internal/middleware/ratelimit.go:189-281 | of the table a request changes its own entry, and there the session it names, and when it needs room drops the one address evicted |
| RateLimiter.PenaliseExact | internal/middleware/ratelimit.go:220-248 | a failed login is let by exactly when its address could pay, pays like a request, and touches no session and no other address but the one evicted |
| RateLimiter.Ceiling | internal/middleware/ratelimit.go:120-137 | in any window one address gets at most 4*burst + 4*perMinute*window requests through, whatever session ids it names |
| RateLimiter.SessionCeiling | internal/middleware/ratelimit.go:203-208 | while a session has its bucket it gets at most burst + perMinute*window of its requests through |
| RateLimiter.SweepAddsNothing | internal/middleware/ratelimit.go:311-325 | dropping an idle bucket and making it anew changes nothing at either level exactly when it refills while idle |
| RateLimiter.DefaultsRefill | internal/middleware/ratelimit.go:146-157 | with the default burst that is every rate from ten a minute, and it holds for the failed-login limiter |
| ConfigKeys.ConfigChild | internal/pihole/restart.go:123-133 | the exact name wins if it is there; otherwise one that is alike is found exactly when there is one |
| ConfigKeys.MergeConfigKeys | internal/tools/config.go:400-439 | the loop merges the keys in sorted order as the specification does, with its errors |
| ConfigKeys.ExpandConfigKeys | internal/tools/config.go:392-398 | the payload merged into an empty tree; a payload with a bad key is refused, and a refusal names a key that is bad in the way it says, or the dotted path of a setting or section in conflict |
| ConfigKeys.MergeInserts | internal/tools/config.go:400-458 | the recursive merge comes to setting the payload's flattened settings one after another |
| ConfigKeys.PayloadClean | internal/tools/config.go:400-469 | the payload's settings are well formed exactly when no key at any depth has a control character or, between dots, nothing but spaces |
| ConfigKeys.RunWhen | internal/tools/config.go:400-458 | settings can be set one after another exactly when none repeats an earlier one, is a section it is in, or lies below a value |
| ConfigKeys.ExpandMeans | internal/tools/config.go:385-398 | for every payload: accepted with exactly the payload's settings, ignoring case, if and only if every key is good and no setting is another or on the way to another |
| ConfigKeys.ExpandAccepts | internal/tools/config.go:385-398 | without empty objects a payload is accepted exactly then |
| ConfigKeys.ExpandTidies | internal/tools/config.go:385-398 | every key of the result is one segment and no two of one object differ only in case |
| ConfigKeys.MergeNamesCulprit | internal/tools/config.go:400-469 | what a refusal names, through the whole recursion |
| ConfigKeys.EmptyObjectLost | internal/tools/config.go:420-436 | a payload with an empty object that is accepted and does not keep it |
| LocalDns.SplitCnameRecord | internal/tools/localdns.go:435-450 | trims the columns in place and separates the aliases from the target and TTL |
| LocalDns.TrimExactly | internal/tools/localdns.go:436-439 | a column is trimmed to what stands between the spaces around it |
| LocalDns.ReadsExactly | internal/tools/localdns.go:435-450 | from the text: the aliases and the target and TTL are what the columns say, the last being the target unless there are more than two and it is a number |
| LocalDns.JoinedWithTtl | internal/tools/localdns.go:440-449 | aliases, target and number, written with commas, are read as aliases, target and TTL |
| LocalDns.JoinedWithTarget | internal/tools/localdns.go:440-449 | aliases and target are read as such if the target is no number or there is one alias |
| LocalDns.JoinedAlone | internal/tools/localdns.go:446-448 | a single column is an alias without a target |
| LocalDns.RejoinedSplits | internal/tools/localdns.go:410-413 | splitting a record rejoined from kept aliases gives back those aliases and the same target and TTL |
| LocalDns.ResolveOne | internal/tools/localdns.go:465-485 | the one stored record that matches, or none unless there is exactly one |
| LocalDns.ReplaceLocalRecord | internal/tools/localdns.go:309-320 | the list with the record replaced in place, or left out if what replaces it is stored already |
| LocalDns.WordsExactly | internal/tools/localdns.go:248-249 | a host record is cut into its words, however they are spaced |
| LocalDns.DeleteHost | internal/tools/localdns.go:245-287 | refuses unless exactly one record gives the name to the address; otherwise that record alone is shortened in place, or left out, and of all addresses and names stored just that one is gone |
| LocalDns.HostDeletedExactly | internal/tools/localdns.go:239-287 | read off the text: the addresses and names stored afterwards are those before less the named one, ignoring case; the other records keep their places |
| LocalDns.HostRefusedExactly | internal/tools/localdns.go:465-485 | the tool refuses exactly when no record or more than one gives the name to the address |
| LocalDns.HostDeletesWhole | internal/tools/localdns.go:262-275 | the record is deleted, rather than rewritten, exactly when it gives no other name |
| LocalDns.DeleteCname | internal/tools/localdns.go:388-421 | the same for an alias, with its target and TTL |
| LocalDns.CnameDeletedExactly | internal/tools/localdns.go:388-421 | read off the text: of all aliases stored, each with its target and TTL, just the named one is gone, ignoring case; the other records keep their places |
| LocalDns.CnameRefusedExactly | internal/tools/localdns.go:465-485 | the tool refuses exactly when no record or more than one has the alias |
| LocalDns.CnameDeletesWhole | internal/tools/localdns.go:404-421 | the record is deleted, rather than rewritten, exactly when it gives no other alias |

## Left out

* HTTP, JSON, TLS, multipart and streaming: each request is a step with an outcome. `doRaw` runs the same retry loop without the uncertainty wrapping and is not modelled apart.
* SHA-256 and its truncation: the token theorems are about the text that is hashed.
* Errors of the two instances other than a category that cannot be read, and unknown category names.
* How FTL's restart is observed during a sync: `Restart` has it, and a sync takes its outcome as given. The locks a sync step holds while it runs; `EntryUpdates` has those of the list entries.
* A write whose reply was lost is carried out, if at all, before its lock is given back; one that a Pi-hole carries out later is not modelled. Direct deletes take no entry lock and are not in `EntryUpdates`.
* The update handlers for lists, groups and clients. They lock, read, merge and PUT like the one for domains, but the one for groups may also rename the group, and the one for clients takes a second lock in turn.
- SyncRequests.ReportsWhatDoReturned: a success reply is taken to mean that the change was carried out.
* Group membership, which a sync does not touch.
* `Retry-After` on a 429, which the code does not see, since RateLimitError does not unwrap to APIError; and server errors as evidence that nothing was applied.
* `Client.Close` in the session model, and a Pi-hole without a password, whose logins succeed without an id.
* The probe interval and timeout of the restart wait.
* The internals of golang.org/x/time/rate: a bucket is integer-scaled and fills without rounding. A request's lookup and its charge are one step at one time; times do not go back. `lastWarn` and logging are left out.
* NormaliseConfigPath, Unicode folding, address parsing and the classification of characters as spaces or printable are parameters of which nothing, or only what is stated, is assumed.
- SyncApply.ApplyPlan: an error text is modelled only as whether there is one.
- SyncToken.HandleSync: the wording of a reply and the log line are left out, and of the backup only whether and where it was made is kept.
- SyncTheorems.SyncReports: assumes that nothing else writes to the target between the comparison and the end of the apply, that a write is carried out, if at all, before the next one is sent, and that no stored entry has an empty name, which Pi-hole refuses.
- Requests.AtMostOnce: takes a 401 and a 429 to mean that the request was not carried out, and an exchange that met an ended context or was not sent to have changed nothing.
- RateLimiter.Ceiling: holds while the address keeps its entry, or loses it only to a sweep that adds nothing; an eviction from a full table gives a fresh bucket.
- RateLimiter.SessionCeiling: likewise for the session's bucket; a session beyond the cap of its address has none and is bounded by the address alone.
- ConfigKeys.MergeConfigKeys: models the tree as values, so that the payload's own empty objects being written into through the result is not modelled.
* The comparison of a config write with what Pi-hole shows afterwards, the output formatting, and access policy.
* Tool registration, prompts, resources, backup files, teleporter, filesystem and environment handling.

# Video manager: verified model

This project models, in Dafny, the parts of the video manager whose correctness depends on many operations at once, and proves what
they are for:

* the **leased task queue** (`internal/lib/vmtask`): one `tasks` table, a scanner that claims rows, workers that renew leases and
  commit results, callers that create, resume and cancel tasks;
* **cursor pagination** (`internal/lib/vmpage`): two paging algorithms and the token codec under them, down to base64 and JSON;
* the **catalog and media tables** (`internal/services`, the initial migration): cascades, delete triggers, the unique default
  index, patch lists, and the ingestion task that belongs to each media row;
* **isolation options** (`internal/lib/vmdb`): hooks composed over a list that is applied twice.

`dafny verify dfyconfig.toml` checks all of it.

## How it is modelled

A SQL statement is a function from the tables to the tables it leaves behind, or to the constraint that rejects it.  A transaction
commits all of its statements or none.  Code that changes tables or fields step by step is a class whose methods are proved equal to such
functions (`TaskStore.Store`, `CatalogService.Service`, `MediaService.Service`, `Registry.Registry`, `Isolation.PoolConfig`); the laws are
then proved of the functions.

The running queue is a step system (`TaskSystem`).  Its state holds the table, a clock, where each worker goroutine is, the `available` channel,
the goroutines about to return a worker, the scanner's position with its `needScan` flag, and the outstanding notifications.  A step is one
transaction, one channel operation, one heartbeat, or the passing of time.  A run is any interleaving of enabled steps from
any well-formed table, with any number of workers and tasks; theorems quantify over all runs and all their states.

| file | what is in it |
|---|---|
| `TaskTable`, `TaskEffects`, `TaskStore`, `Registry` | statements and transactions on tasks; their effect column by column; the same as methods; the handler registry |
| `TaskSystem`, `TaskInvariants` | the step system; what holds in every run |
| `TaskLeases`, `TaskOwnership`, `TaskFinality`, `TaskWakeups`, `TaskScans`, `TaskReclaims`, `TaskFairness` | time and ownership; finality of `completed`; waiting parents; scans; expired leases; order of service |
| `TaskWitnesses` | runs that show where those guarantees end |
| `Paging`, `StringPaging`, `Bytes` | the two paging algorithms and the order on strings |
| `Base64`, `JsonText`, `JsonDoc`, `PageToken`, `TokenPaging` | the token codec, and paging through tokens |
| `Catalog`, `CardDeletion`, `CardOps`, `CardPatches`, `KindOps`, `Folds`, `CatalogService` | catalog tables, cascades, patch lists |
| `MediaOps`, `MediaDeletion`, `MediaPatches`, `DvdIngestion`, `MediaService`, `ServiceCalls`, `MediaRuns`, `MediaReports`, `MediaDone`, `MediaListing`, `MediaPaths`, `MediaWitness` | media tables, ingestion, runs of everything together |
| `Isolation` | connection hooks and transaction options |
| `Results`, `Basics` | shared datatypes and small notions |

## Hypotheses that the theorems name

* **Punctual runs** (`TaskLeases.Punctual`).  No holder has more than three renewals in a row that return an error, and the time from claim to
  start (until the first renewal), the lateness of the due tick, and the time from result to commit add up to at most one heartbeat interval.
  That no lease runs out under its holder is then proved, and `LeaseBudgetExact` gives the delay at which a thrice-missed lease does run out,
  before and after renewals.
* **One worker** (the default) for wake-ups with polite handlers, and for scans when handlers return `Pending`; the laws for any number of
  workers are stated beside them.
* LISTEN is in force before the first scan; the program and the database share one clock; worker ids are distinct.

## What the code does not promise, and exactly when it holds

Each of these is false of the code in general.  For each there is a concrete case (for the queue, a run from its start), and the exact
condition under which the code does meet it.

* *No task is in two hands.*  A run that breaks it: `TwoHandsReached`.  It is broken exactly by a claim of a row whose lease has run out while the
  worker named in it still has the task (`StepSplits`, `ExclusiveExact`); punctual runs make no such claim (`PunctualNeverSplits`,
  `ExclusiveProcessing`).
* *`completed` is final.*  A run that leaves it: `CompletedIsLeft`.  It is left exactly by a commit of another result by someone who still has
  the task in hand (`CompletedLeaves`, `CompletedExact`), because result updates match on the id alone; the comment at
  `internal/lib/vmtask/worker.go:112` says otherwise.  With one worker it is final however late anything is (`SoleCompletedIsFinal`), and with
  any number in punctual runs (`CompletedIsFinal`).
* *A waiting parent has an unfinished child.*  Runs that break it: `WakeupIsLost` with two workers and polite handlers, `CancelStrandsParent`
  with one worker and a cancellation.  It is broken exactly by a commit to wait for nobody (`CommitWaitersExact`) or by cancelling the only
  unfinished child of a waiting parent (`CancelStrands`) with no rescue later in the same transaction; `StepStrandsExactly` says so for every
  step and `WakeupExact` for every run, with any number of workers.
* *A pending task is never overlooked.*  A run that breaks it: `PendingIsLost`.  Exactly: `PendingIsOverlooked` for one commit, `ScanExact` for
  runs.
* *A task to claim is never left lying.*  A task whose run was rolled back sends no notification when its lease runs out: `ExpiredIsLeftLying`,
  with one worker.  Exactly: `StepLeavesLying` for one step, `ReclaimExact` for runs.
* *No two DVDs are at the same path.*  `PostMedia` and `PatchMedia` check it, the ingestion handler does not: `SharedPathArises`.  Exactly:
  `NextCollides` for one action, `SharedPathExact` for histories; `NoSharedPath` gives a condition on callers alone.
* *Following page tokens lists everything.*  For ids, exactly the page sizes from 1 to 2^32 - 2 do (`Paging.WalkExact`): size 0 never makes
  progress, the largest wraps round to an empty page.  For strings, size 0 returns one string and no token
  (`StringPaging.WalkOfSizeZero`), and a token brings back a name that is not UTF-8 with its stray bytes replaced; `TextWalkExact` says exactly
  when the walk still works, and `BadNameForever` shows a name at which it repeats for ever.

## Model

| member | source | states |
|---|---|---|
| TaskOwnership.ExclusiveProcessing | internal/lib/vmtask/worker.go:68-135 | In every punctual run, for any number of workers and tasks, no task is in two hands; the row of a task in hand is owned by its holder or cancelled, and cannot be claimed |
| TaskLeases.LeaseCovers | internal/lib/vmtask/worker.go:12-18 | Three missed renewals and one interval of delay fit into the lease |
| TaskLeases.LeaseBudgetExact | internal/lib/vmtask/worker.go:100-135 | After three misses the row becomes claimable if and only if the delay exceeds one heartbeat interval plus what a late renewal gained, before and after renewals |
| TaskOwnership.StepSplits | internal/lib/vmtask/notify.go:135-153 | For every step, with no assumption about time: a task comes into two hands if and only if a claim takes a row whose lease has run out while the worker named in it still has the task; any other step keeps rows and hands in agreement |
| TaskOwnership.ExclusiveExact | internal/lib/vmtask/notify.go:127-210 | Over every run, no task is ever in two hands if and only if no such claim is made |
| TaskLeases.PunctualNeverSplits | internal/lib/vmtask/worker.go:12-18 | A punctual state allows no such claim |
| TaskOwnership.CompletedIsFinal | internal/lib/vmtask/worker.go:138-226 | In every punctual run a completed row never changes again |
| TaskFinality.CompletedLeaves | internal/lib/vmtask/worker.go:161-226 | For any step of any reachable state: a completed task stops being completed if and only if the step commits another result onto it |
| TaskFinality.CompletedExact | internal/lib/vmtask/worker.go:138-226 | Over any run, a completed task stays completed for a stretch if and only if no such commit is made in it |
| TaskFinality.SoleCompletedIsFinal | internal/lib/vmtask/worker.go:161-226 | With one worker `completed` is final in every run, without any assumption about time |
| TaskWitnesses.CompletedIsLeft | internal/lib/vmtask/worker.go:161-226 | A run with two workers in which a completed task becomes pending again |
| TaskWitnesses.TwoHandsReached | internal/lib/vmtask/notify.go:143-146 | A run that ends with one task in two hands |
| TaskOwnership.ConstraintSilence | internal/lib/migrate/migrations/000001_initial.up.sql:155-164 | In punctual runs a row CHECK rejects a commit if and only if the task was cancelled meanwhile and the result is not a failure |
| TaskLeases.StepKeepsLeaseInv | internal/lib/vmtask/notify.go:127-210 | Ownership, lease coverage and exclusivity survive every step but a claim that splits a task, however late anything is |
| TaskInvariants.WorkerTokens | internal/lib/vmtask/notify.go:61-123 | In every run each worker is announcing, processing, or exactly once on the channel, with the scanner or on its way back; sends never block and every dispatch has a receiver |
| TaskInvariants.ChannelHasRoom | internal/lib/vmtask/notify.go:252-273 | The channel of capacity N always has room for a worker that sends itself or is sent back |
| TaskSystem.StepConservesTokens | internal/lib/vmtask/worker.go:42-65 | No step duplicates or loses a worker token |
| TaskInvariants.FailedIsFinal | internal/lib/migrate/migrations/000001_initial.up.sql:160-164 | In every run whatsoever a failed task stays failed, and no task disappears or changes type, parent or creation time |
| TaskInvariants.RowShape | internal/lib/migrate/migrations/000001_initial.up.sql:155-164 | In every run worker and lease are set exactly on running rows, the error exactly on failed ones, and parents exist with smaller ids |
| TaskInvariants.NoHandlerUnreachable | internal/lib/vmtask/notify.go:177-194 | The scanner's branch for an unregistered type is never enabled |
| TaskInvariants.StepGrows | internal/lib/vmtask/worker.go:138-266 | Every step keeps all constraints, loses no row and revives no failed task |
| TaskInvariants.RunInv | internal/lib/vmtask/notify.go:225-321 | The invariant of table, tokens and tasks in hand holds in every reachable state |
| TaskWakeups.NoLostWakeup | internal/lib/vmtask/worker.go:232-266 | With one worker, no cancellation, and handlers that wait only for an unfinished child, every waiting task of every reachable state has an unfinished child |
| TaskWakeups.CommitWaitersExact | internal/lib/vmtask/worker.go:138-159 | For any number of workers, a commit leaves every waiting task with an unfinished child if and only if it does not itself wait for nobody |
| TaskWakeups.CancelStrands | internal/lib/vmtask/api.go:146-181 | Cancelling strands a waiting parent if and only if it cancels that parent's only unfinished child |
| TaskWakeups.StepStrandsExactly | internal/lib/vmtask/worker.go:138-266 | For every step, any number of workers and any list of calls: waiters stay served if and only if neither its calls nor its result leave someone waiting for nobody |
| TaskWakeups.WakeupExact | internal/lib/vmtask/worker.go:232-266 | Over every run with any number of workers, cancellations included: every waiting task has an unfinished child throughout if and only if every step is careful |
| TaskWakeups.PoliteIsCareful | internal/lib/vmtask/worker.go:68-98 | With one worker, what a polite handler saw when it decided still holds when it commits |
| TaskWitnesses.WakeupIsLost | internal/lib/vmtask/worker.go:247-252 | A run with two workers and polite handlers that leaves a parent waiting for nobody |
| TaskWitnesses.CancelStrandsParent | internal/lib/vmtask/api.go:170-181 | A run with one worker in which a cancellation leaves a parent waiting for nobody |
| TaskScans.NoLostScan | internal/lib/vmtask/notify.go:61-123 | In every reachable state with a pending handled task a scan is due or a notification is outstanding: for one worker and any handlers, or for any number of workers when none returns `Pending` |
| TaskScans.OpsQuiet | internal/lib/vmtask/api.go:14-83 | A list of API calls that sent no notification made no task pending |
| TaskScans.CommitQuiet | internal/lib/vmtask/worker.go:258-263 | A commit without notification made no task pending, unless its result was `Pending` |
| TaskScans.OpsNotify | internal/lib/vmtask/api.go:14-83 | A list of calls notifies if and only if one of them creates a task or resumes one that waits at its turn |
| TaskScans.PendingIsOverlooked | internal/lib/vmtask/worker.go:140-141 | For any number of workers and any calls, a commit leaves a pending task overlooked if and only if it re-queues its task without notification while the scanner sleeps and none is outstanding |
| TaskScans.ScanExact | internal/lib/vmtask/notify.go:61-123 | Over any run, no pending task is overlooked throughout if and only if no such commit is made |
| TaskWitnesses.PendingIsLost | internal/lib/vmtask/notify.go:102-121 | A run with two workers that leaves a pending task overlooked |
| TaskReclaims.StepLeavesLying | internal/lib/vmtask/notify.go:143-147 | For any step: a task to claim is left lying if and only if the scanner sleeps with nothing outstanding while a lease runs out or a result re-queues its task |
| TaskReclaims.ReclaimExact | internal/lib/vmtask/notify.go:61-123 | The same over any run |
| TaskWitnesses.ExpiredIsLeftLying | internal/lib/vmtask/worker.go:75-97 | A run with one worker in which a rolled back task is left lying when its lease runs out |
| TaskFairness.BypassLaw | internal/lib/vmtask/notify.go:127-175 | Over any run, with no assumption on handlers, leases or callers: while a task stays pending, claims made plus older tasks still ahead are at most the older pending tasks there were, plus returns of older tasks to pending, plus claims that took over an expired lease |
| TaskFairness.BoundedBypass | internal/lib/vmtask/notify.go:127-175 | While every handler run ends its task, no lease expires and nothing is resumed (tasks may wait), a task still pending has seen at most as many claims as there were older pending tasks, whatever arrives later |
| TaskFairness.StepShortensQueue | internal/lib/vmtask/notify.go:143-151 | In any state, only tasks that return to pending can get ahead of a pending task, and every claim of a pending task shortens the queue ahead of it |
| TaskTable.OpsTouch | internal/lib/vmtask/api.go:10-181 | Any list of API calls keeps the table well formed and changes old rows only from waiting to pending or to cancelled |
| TaskTable.OpsFaults | internal/lib/vmtask/api.go:10-181 | The row CHECKs never reject an API call; only an empty type or a missing parent does |
| TaskTable.ResultFaults | internal/lib/vmtask/worker.go:137-159 | A result is rejected by a CHECK if and only if the row is failed and the result is not a failure, and as a bad status if and only if it is `running` or unknown |
| TaskEffects.CommitExact | internal/lib/vmtask/worker.go:68-266 | Column by column: the task's row holds status, payload and error as returned and no worker or lease, a waiting parent of an ended task becomes pending, every other row is as the handler's calls left it, and a notification goes out exactly if a call sent one or a parent was woken |
| TaskEffects.CreateExact | internal/lib/vmtask/api.go:14-35 | Every column of the new row, the fault of an empty type, and that nothing else changes |
| TaskEffects.CreateChildExact | internal/lib/vmtask/api.go:102-123 | The same under a parent, with the fault of a missing one |
| TaskEffects.ResumeExact | internal/lib/vmtask/api.go:40-59 | A waiting task changes its status to pending and no other column; any other call changes nothing and notifies nobody |
| TaskEffects.ResumeWithStateExact | internal/lib/vmtask/api.go:64-83 | The same with the payload replaced by the one given |
| TaskEffects.CancelExact | internal/lib/vmtask/api.go:146-181 | Every row: the unfinished ones that chains of children reach from the root are failed with "cancelled", without worker or lease, all others as they were |
| TaskEffects.DescendsIsBelow | internal/lib/vmtask/api.go:150-168 | Following parent links upwards finds exactly what chains of children reach |
| TaskEffects.CallsInOrder | internal/lib/vmtask/worker.go:83 | A list of calls is its first part and then, if that succeeded, its second |
| TaskEffects.ClaimExact | internal/lib/vmtask/notify.go:138-142 | A claim writes status, worker and lease and no other column |
| TaskEffects.RenewExact | internal/lib/vmtask/worker.go:119-135 | A renewal writes the lease of a row running under this worker, and nothing in any other case |
| TaskTable.CommitTouches | internal/lib/vmtask/worker.go:68-98 | A handler's transaction keeps the table well formed, loses no row, revives no failed task, and wakes at most a waiting parent, after the effect of its calls |
| TaskStore.Store.Create | internal/lib/vmtask/api.go:14-35 | Inserts a pending row under the next id and notifies; an empty type changes nothing |
| TaskStore.Store.CreateChild | internal/lib/vmtask/api.go:102-123 | The same under an existing parent; a missing parent changes nothing |
| TaskStore.Store.ResumeTask | internal/lib/vmtask/api.go:40-83 | Only a waiting task becomes pending, with the payload given, and exactly then a notification is sent and true returned |
| TaskStore.Store.CancelRecursive | internal/lib/vmtask/api.go:146-181 | The recursion ends and fails with "cancelled" exactly the unfinished members of the descendant closure, leaving every other row alone |
| TaskStore.Store.CancelAll | internal/lib/vmtask/api.go:164-168 | The loop over the children, in any order, cancels exactly the union of their closures |
| TaskStore.CancelOneMore | internal/lib/vmtask/api.go:150-168 | Cancelling one more subtree after others equals cancelling all of them at once |
| TaskStore.Store.Claim | internal/lib/vmtask/notify.go:138-153 | Takes an oldest claimable row for the worker, or reports none exactly when nothing is claimable |
| TaskStore.Store.RenewLease | internal/lib/vmtask/worker.go:119-135 | Moves the lease exactly when the row is running under this worker |
| TaskStore.Store.ApplyHandlerResult | internal/lib/vmtask/worker.go:138-159 | The method equals the function on tables that the laws are about, for all statuses |
| TaskStore.Store.MaybeResumeParent | internal/lib/vmtask/worker.go:232-266 | Wakes the parent if it waits, and notifies exactly then |
| TaskStore.Store.RunCalls | internal/lib/vmtask/worker.go:83 | The calls of one handler, up to the first fault, are the function that the step system uses |
| TaskStore.Store.FinishRun | internal/lib/vmtask/worker.go:75-97 | The handler's calls and its result are committed together, with at most one notification, or table and notifications are as they were |
| Registry.Registry.Register | internal/lib/vmtask/registry.go:37-55 | Refuses a second handler for a type and never forgets or replaces one |
| Registry.Registry.Types | internal/lib/vmtask/registry.go:82-95 | Lists every registered type exactly once |
| Paging.WalkUnderChange | internal/lib/vmpage/list.go:38-84 | For every page size and any inserts and deletes between requests, a walk returns strictly ascending ids, all of them real; once it ends, at any size but 2^32 - 1, it includes every id that was there throughout |
| Paging.WalkUnchanged | internal/lib/vmpage/list.go:59-84 | At sizes 1 to 2^32 - 2 on an unchanged table, the walk equals the ordered list and ends after exactly `PageCount` requests |
| Paging.WalkExact | internal/lib/vmpage/list.go:24-84 | For every page size, following tokens lists the whole of an unchanged table if and only if the size is 1 to 2^32 - 2 or nothing is left |
| Paging.WalkOfSizeZero | internal/lib/vmpage/list.go:59-84 | At size 0 nothing is ever listed, and the walk does not end while something stays |
| Paging.PageCountIsCeiling | internal/lib/vmpage/list.go:78-83 | `PageCount` is max(1, ceil(n / limit)) |
| Paging.WalkIsBounded | internal/lib/vmpage/list.go:59-84 | With 32-bit ids no walk goes on for ever, whatever changes |
| Paging.ListPage | internal/lib/vmpage/list.go:59-84 | The streaming loop with its look-ahead row returns the first `limit` ids after the cursor, with a token if and only if more follow; also sizes 0 and 2^32 - 1 |
| Paging.PageLimit | internal/lib/vmpage/list.go:24-36 | The page size is the smaller of wanted and maximum, or the default; positive unless 0 was asked for |
| StringPaging.StringWalk | internal/lib/vmpage/list_strings.go:30-53 | For distinct non-empty strings that their tokens bring back, following tokens from none gives exactly the sorted list in exactly `CallCount` requests |
| StringPaging.WalkExact | internal/lib/vmpage/list_strings.go:30-53 | Whatever tokens bring back, the walk lists the sorted list if and only if the token of each full page leads to the string behind it |
| StringPaging.ResumesExact | internal/lib/vmpage/list_strings.go:39-41 | A token leads on if and only if what it brings back is not below its string and is below the next |
| StringPaging.WalkOfSizeZero | internal/lib/vmpage/list_strings.go:42-51 | Size 0 ends after one page and lists everything if and only if there is at most one string |
| StringPaging.WalkUnderChange | internal/lib/vmpage/list_strings.go:30-53 | While the list changes between requests, strings that their tokens bring back come strictly ascending, all of them real, and a walk that ends has missed none that was there throughout |
| StringPaging.CallCountIsFloor | internal/lib/vmpage/list_strings.go:47-51 | `CallCount` is floor(n / limit) + 1 |
| StringPaging.ListFromStrings | internal/lib/vmpage/list_strings.go:30-53 | The array is sorted in place and the loop returns the page that follows the last string seen |
| StringPaging.PageLimit | internal/lib/vmpage/list_strings.go:17-28 | The page size is the smaller of wanted and maximum, or the default; positive unless 0 was asked for |
| Bytes.SortSorts | internal/lib/vmpage/list_strings.go:36 | Sorting gives a sorted permutation |
| Bytes.LessIsLexicographic | internal/lib/vmpage/list_strings.go:39 | The order on strings is lexicographic by bytes |
| PageToken.IdRoundTrip | internal/lib/vmpage/token.go:23-51 | Decoding an encoded id gives back every 32-bit id |
| PageToken.StringTokenReads | internal/lib/vmpage/token.go:60-88 | Decoding an encoded string gives its text with every byte that is not UTF-8 replaced, for all byte strings |
| PageToken.StringTokenRoundTrip | internal/lib/vmpage/token.go:60-88 | Decoding gives the string back if and only if it is valid UTF-8 |
| PageToken.IdRejectsString | internal/lib/vmpage/token.go:35-51 | The id decoder refuses the token of every byte string, by its magic number |
| PageToken.StringRejectsId | internal/lib/vmpage/token.go:72-88 | The string decoder refuses every id token |
| PageToken.IdTokenLooksLike | internal/lib/vmpage/token.go:16-33 | The text of an id token: magic number, field names and order |
| PageToken.StringTokenLooksLike | internal/lib/vmpage/token.go:53-70 | The text of a string token |
| PageToken.AcceptedHasMagic | internal/lib/vmpage/token.go:35-88 | Every accepted token carries its magic number; bad base64 is refused; no token starts at the beginning |
| PageToken.FoldsCase | internal/lib/vmpage/token.go:16-19 | Field names are matched up to ASCII case |
| PageToken.LastNumberCounts | internal/lib/vmpage/token.go:43-45 | Of repeated fields the last counts, null counts for nothing, other types and larger numbers are errors |
| PageToken.LastStringCounts | internal/lib/vmpage/token.go:80-82 | The same for string fields |
| Base64.RoundTrip | internal/lib/vmpage/token.go:32-39 | Standard base64 with padding, section 4 of RFC 4648: decoding undoes encoding on all byte strings |
| Base64.AlphabetIsStandard | internal/lib/vmpage/token.go:32 | The alphabet and padding of section 4 of RFC 4648 |
| Base64.Vectors | internal/lib/vmpage/token.go:32 | Test vectors of section 10 of RFC 4648 |
| Base64.BreaksAreIgnored | internal/lib/vmpage/token.go:39 | A line break anywhere in a token changes nothing |
| Base64.AcceptedShape | internal/lib/vmpage/token.go:39 | What is accepted comes in fours, from the alphabet, padded only at the end |
| JsonText.BodyReads | internal/lib/vmpage/token.go:65-81 | JSON string escaping, section 7 of RFC 8259: reading gives back the cleaned text of every byte string |
| JsonText.BodyRoundTrip | internal/lib/vmpage/token.go:65-81 | Reading undoes writing if and only if the string is valid UTF-8 |
| JsonText.CleanFixes | internal/lib/vmpage/token.go:65-81 | Cleaning leaves a text alone if and only if it is valid UTF-8 |
| JsonText.EscapesLookLike | internal/lib/vmpage/token.go:65 | What the short escapes look like |
| JsonText.UnicodeEscapesLookLike | internal/lib/vmpage/token.go:65 | What the escapes of control and HTML characters look like |
| JsonText.SurrogatePair | internal/lib/vmpage/token.go:81 | Two escaped surrogates read as one character, a lone high one as the replacement character |
| JsonDoc.ObjectRoundTrip | internal/lib/vmpage/token.go:65-81 | Parsing a written object gives back its members, nested to any depth, cleaned |
| JsonDoc.ValueReads | internal/lib/vmpage/token.go:43-81 | The same for every kind of value, behind which anything may follow |
| TokenPaging.ListIds | internal/lib/vmpage/list.go:38-84 | A bad token is refused; otherwise the page is the one of the decoded cursor and its token encodes the next |
| TokenPaging.IdWalkUnderChange | internal/lib/vmpage/list.go:38-84 | Through the token texts of the replies, too, for every page size: nothing is repeated and nothing that stays is missed |
| TokenPaging.TextWalkExact | internal/lib/vmpage/list_strings.go:30-53 | For any distinct non-empty byte strings, the replies of floor(n / limit) + 1 requests hold exactly the sorted strings if and only if the cleaned form of each page's last string lies between it and the next |
| TokenPaging.TextWalkListsAll | internal/lib/vmpage/list_strings.go:30-53 | Valid UTF-8 strings always meet that condition |
| TokenPaging.TextWalkUnderChange | internal/lib/vmpage/list_strings.go:30-53 | The same through token texts, for lists of valid UTF-8 names that change between the requests |
| TokenPaging.BadNameForever | internal/lib/vmpage/list_strings.go:39-51 | A one-byte name that is not UTF-8, at page size 1, is returned by every request for ever |
| CardDeletion.FireKeepsInvariant | internal/lib/migrate/migrations/000001_initial.up.sql:10-76 | Each cascade or trigger deletes only rows of the closure, and whatever of it remains is still pending deletion |
| CardDeletion.DoneIsExact | internal/services/catalog/card.go:183-198 | When nothing is pending, exactly the card, its editions' cards and all their links are gone |
| CatalogService.FireShrinks | internal/lib/migrate/migrations/000001_initial.up.sql:19-76 | A DELETE that sets others off removes a row, so cascades end |
| CatalogService.Service.Cascade | internal/lib/migrate/migrations/000001_initial.up.sql:10-76 | Fired in any order, the cascade ends and equals removing the closure |
| CardPatches.DeleteThenGet | internal/services/catalog/card.go:183-255 | After a deletion exactly the cards of the closure are not found, and every other card reads as before |
| CardPatches.DeleteCardExact | internal/services/catalog/card.go:183-198 | Row by row in every table what is left: exactly the card, its editions and all their links are gone |
| CatalogService.Service.DeleteCard | internal/services/catalog/card.go:183-198 | Removes exactly the closure, or reports a bad or unknown id and changes nothing; all invariants stay |
| CardOps.DropKeepsOk | internal/lib/migrate/migrations/000001_initial.up.sql:47-76 | Without the closure every card still has exactly one kind of details and every edition an existing movie and kind |
| CardOps.PostCardKeepsOk | internal/services/catalog/card.go:86-181 | A new card has a fresh id, exactly one kind of details, and existing references |
| CardPatches.PostCardExact | internal/services/catalog/card.go:86-181 | Exactly which requests create a card, which error every other one gets, and what each table holds afterwards |
| CardOps.LowerExact | internal/services/catalog/card.go:103 | Names count as equal if and only if they agree letter by letter up to ASCII case |
| CardPatches.GetCardExact | internal/services/catalog/card.go:200-255 | The record shows name and note of the row and the details of whichever table has the card |
| CardPatches.PostThenGet | internal/services/catalog/card.go:86-255 | A new card reads back as requested, every other card as before |
| CatalogService.Service.PostCard | internal/services/catalog/card.go:86-181 | Success adds the card with its details and returns it; any failure changes nothing |
| CardPatches.PatchCardExact | internal/services/catalog/card.go:270-416 | A list succeeds if and only if the card exists and each patch is acceptable on its own; it leaves the last word on every field of the card and nothing else changed |
| CardPatches.PatchCardErrors | internal/services/catalog/card.go:270-404 | Not found exactly for an unknown id, a bad request for anything else that fails |
| CardOps.PatchReadsOnce | internal/services/catalog/card.go:286-291 | Reading the card once agrees with reading it before every patch |
| CardOps.PatchCardAppend | internal/services/catalog/card.go:291-404 | ps ++ qs is ps and then qs, errors included |
| CardOps.PatchCardKeepsOk | internal/services/catalog/card.go:270-416 | A successful list keeps every invariant, the kind of the card, and every row but the card's own |
| CatalogService.Service.PatchStep | internal/services/catalog/card.go:291-404 | The loop body writes what is set and fails unless exactly one field was set |
| CatalogService.Service.PatchCard | internal/services/catalog/card.go:270-416 | The loop is the fold of the patches; any failing patch leaves all tables unchanged |
| KindOps.PatchKindExact | internal/services/catalog/movie_edition_kind.go:147-210 | The unique index never rejects; the target is default as the last IsDefault patch says, other defaults are cleared if and only if some such patch is true, the last name wins |
| KindOps.PatchKindSucceeds | internal/services/catalog/movie_edition_kind.go:162-198 | A list succeeds if and only if the kind exists and every patch sets exactly one field |
| KindOps.PatchKindErrors | internal/services/catalog/movie_edition_kind.go:147-203 | Which error a failing list gets |
| KindOps.IndexIsSilent | internal/lib/migrate/migrations/000001_initial.up.sql:42-45 | After every single statement of a patch at most one kind is default |
| KindOps.PostKindExact | internal/services/catalog/movie_edition_kind.go:47-97 | Creating fails only on an empty or taken name; the new kind has a fresh id, and if it is the default no other is |
| KindOps.PostKindErrors | internal/services/catalog/movie_edition_kind.go:47-72 | Which error a failing creation gets |
| KindOps.DeleteKindKeepsOk | internal/services/catalog/movie_edition_kind.go:99-115 | A kind can be deleted if and only if no edition refers to it; then it alone goes and the invariants stay |
| KindOps.DeleteKindErrors | internal/services/catalog/movie_edition_kind.go:99-113 | Which error a failing deletion gets |
| CatalogService.Service.DeleteKind | internal/services/catalog/movie_edition_kind.go:99-115 | The row goes and the foreign keys are checked in any order; a kind in use is restored |
| CatalogService.Service.PostKind | internal/services/catalog/movie_edition_kind.go:47-97 | The method equals the function, invariants included; a failure changes nothing |
| CatalogService.Service.PatchKindStep | internal/services/catalog/movie_edition_kind.go:162-198 | The loop body, with its two counters, equals one patch |
| CatalogService.Service.PatchKind | internal/services/catalog/movie_edition_kind.go:147-210 | The loop is the fold of the patches, never an internal error, and a failed list changes nothing |
| MediaRuns.OneIngestionPerMedia | internal/services/media/media.go:229-281 | In every run of service calls and worker steps the join gives each media row exactly once, `getMedia` never finds several records, and it reports the state of the one task |
| MediaRuns.HistoryInv | internal/services/media/dvd_ingestion_task.go:62-74 | All invariants of tables, queue and their connection hold in every reachable state |
| MediaRuns.ErrorReportIsFinal | internal/services/media/media.go:211-226 | A media keeps its task for life, and an ingestion once reported as an error is never reported as anything else |
| MediaReports.DoneReportIsFinal | internal/services/media/media.go:211-226 | In every punctual run an ingestion once reported as done is reported as done for as long as the media exists |
| MediaReports.DoneExact | internal/services/media/media.go:211-226 | Over any history, done is reported throughout if and only if nobody commits another result onto the media's task |
| MediaReports.SoleDoneIsFinal | internal/services/media/media.go:211-226 | With one worker done stays done for as long as the media exists, without any assumption about time |
| MediaDone.DoneMeansMoved | internal/services/media/dvd_ingestion_task.go:52-60 | In every history from a database without tasks and without a path patch of the media, done means that the DVD is at its final path |
| MediaListing.ListMediaWalk | internal/services/media/media.go:15-90 | Over any history a ListMedia walk returns ascending media ids once each, all of them real, and misses none that existed at its first and last request |
| MediaListing.ListingIsTable | internal/services/media/media.go:16-29 | The ids of the joined rows are the media ids, each once |
| MediaListing.StaysBetween | internal/services/media/media.go:114-115 | Media ids are not used again: one that is there at two moments is there at every moment between |
| MediaRuns.StepSame | internal/lib/vmtask/api.go:64-70 | No step of the queue adds, removes or rewrites an ingestion task or makes one wait |
| MediaRuns.PostSucceeds | internal/services/media/media.go:92-179 | In reachable states `PostMedia` succeeds if and only if its references exist, its card ids are distinct and its path is free and non-empty |
| MediaRuns.PostKeepsInv | internal/services/media/media.go:165-172 | The media row and its one task appear together |
| MediaOps.PostExact | internal/services/media/media.go:92-163 | Exactly which requests insert, which error every other one gets, and what each table holds afterwards: set, note, path and links as given, nothing else changed |
| MediaOps.GetMediaExact | internal/services/media/media.go:198-281 | The record is the media row, the path of its DVD row, exactly the cards linked to it, and done, error or pending as its task's status says |
| MediaOps.PostThenGet | internal/services/media/media.go:92-281 | A new media reads back as requested, every other media as before |
| MediaOps.LinkExact | internal/services/media/media.go:144-163 | The loop over card ids succeeds if and only if the cards are distinct, existing and unlinked, and adds exactly their links |
| MediaOps.DeleteKeepsOk | internal/services/media/media.go:181-196 | Deleting a media row with its DVD row and links keeps the invariants |
| MediaOps.DeleteThenGet | internal/services/media/media.go:181-281 | A deleted media is not found and has no links, every other media reads as before |
| MediaOps.DeleteExact | internal/services/media/media.go:181-196 | Which ids can be deleted, which error any other gets, and what is left row by row |
| MediaPatches.PatchMediaExact | internal/services/media/media.go:302-476 | Which lists succeed, judged on the tables before any patch, as an if and only if; and that they leave the last word on note, set, path and each link, with no other media changed |
| MediaPatches.PatchMediaErrors | internal/services/media/media.go:302-464 | The error is that of reading the record, or that of the first patch that is not acceptable: already exists for a clash, otherwise a bad request |
| MediaOps.PatchReadsOnce | internal/services/media/media.go:318-323 | Reading the media once agrees with reading it before every patch |
| MediaOps.PatchMediaAppend | internal/services/media/media.go:323-464 | ps ++ qs is ps and then qs, errors included |
| MediaOps.PatchMediaKeepsOk | internal/services/media/media.go:302-476 | A successful list keeps the invariants, touches only its own media, and the record can be read back |
| MediaService.Service.PostMedia | internal/services/media/media.go:92-179 | Rows, links and task appear together and the record is returned, or nothing changes |
| MediaService.Service.LinkCards | internal/services/media/media.go:144-163 | The loop is the fold of its links |
| MediaDeletion.FireKeepsInvariant | internal/lib/migrate/migrations/000001_initial.up.sql:94-127 | Each cascade or trigger deletes only rows of the media, and whatever of it remains is still pending deletion |
| MediaDeletion.DoneIsExact | internal/lib/migrate/migrations/000001_initial.up.sql:94-127 | When nothing is pending, exactly the media row, its DVD row and its links are gone |
| MediaDeletion.FireShrinks | internal/lib/migrate/migrations/000001_initial.up.sql:102-116 | Cascade and trigger call each other, but one that sets off others removes a row, so they end |
| MediaService.Service.Cascade | internal/lib/migrate/migrations/000001_initial.up.sql:94-127 | Fired in any order, the cascade ends and equals removing the media with its DVD row and links |
| MediaService.Service.DeleteMedia | internal/services/media/media.go:181-196 | The cascade removes the media with its DVD row and links and leaves tasks alone; a bad or unknown id changes nothing |
| MediaService.Service.PatchMedia | internal/services/media/media.go:302-476 | The loop is the fold of the patches; any failing patch leaves all tables unchanged |
| MediaService.Service.PatchStep | internal/services/media/media.go:323-464 | The loop body writes what is set and fails unless exactly one field was set |
| MediaService.Service.HandleIngestion | internal/services/media/dvd_ingestion_task.go:30-60 | The handler's result and its one update, for a missing row, a failed rename and success |
| ServiceCalls.CallsFair | internal/services/catalog/card.go:86-416 | Every successful catalog or media call keeps every invariant of the tables |
| DvdIngestion.HandleKeepsUnique | internal/services/media/dvd_ingestion_task.go:52-57 | Ingestion leaves paths distinct if and only if no other DVD is already at the path it writes |
| DvdIngestion.HandleExact | internal/services/media/dvd_ingestion_task.go:30-60 | Success is completed and moves the DVD of its media alone, anything else is failed and writes nothing |
| DvdIngestion.FinalPathText | internal/lib/config/config.go:146-149 | What final paths look like |
| MediaWitness.SharedPathArises | internal/services/media/dvd_ingestion_task.go:52-57 | A history from a fresh database in which two accepted requests and one ingestion put two DVDs at one path |
| DvdIngestion.FinalPathInjective | internal/lib/config/config.go:146-149 | Final paths of different media differ |
| MediaPaths.NoSharedPath | internal/services/media/media.go:127-135 | In every run whose callers keep away from final paths no two DVDs share a path |
| MediaPaths.NextCollides | internal/services/media/dvd_ingestion_task.go:52-57 | For any action of a reachable state, paths stop being distinct if and only if an ingestion commits onto an occupied path |
| MediaPaths.SharedPathExact | internal/services/media/dvd_ingestion_task.go:52-57 | The same over whole histories |
| Isolation.SessionLevel | internal/lib/vmdb/new.go:75-96 | For every option list a session ends at the first isolation option given, or serializable |
| Isolation.FirstOptionWins | internal/lib/vmdb/options.go:31-100 | A list of options matters to the hook it wraps only through its first isolation option |
| Isolation.LaterOptionsAreIgnored | internal/lib/vmdb/new.go:81-88 | Once a level is named, appended options change nothing |
| Isolation.PoolConfig.Update | internal/lib/vmdb/options.go:33-45 | An option wraps the old hook, to run after its own SET |
| Isolation.New | internal/lib/vmdb/new.go:75-96 | Both loops together give every session the first isolation option, or serializable |
| Isolation.Begin | internal/lib/vmdb/new.go:29-40 | A transaction runs at the last option passed, or else at the session's level |

## Left out

- pgx, the wire protocol, the connection pool and SQL parsing: a statement is represented by its effect, a transaction by one atomic step.
- Row-lock timing behind FOR UPDATE SKIP LOCKED, and commits whose outcome the client does not learn.
- The endless loops of scanner, worker and heartbeat are a step relation rather than methods; shutdown, context cancellation, `Wait` and the wait group are not modelled.
- A heartbeat already under way when its handler returns: the model stops renewals at the moment of the result.
- Scanner backoff durations; only that a scan follows a backoff.
- `updated_at` and its trigger; malformed JSON task payloads; 32-bit overflow of SERIAL ids; exact error texts.
- `Cancel` outside a transaction, where other calls can come between its statements.
- LOWER on names beyond ASCII letters; case-insensitive uniqueness of names, which is checked on create only.
- The nesting limit of 10000 in the JSON reader; number forms that a 32-bit field rejects are rejected, others are not interpreted.
- StringPaging.SortInPlace: the library's sort is represented by its result, not by its swaps.
- `media_set.go`: the same patch-fold and link-table shape as cards and media; the set of media sets stays fixed during a run.
- The card ids of a media record are a set; their order is not modelled.
- Moving files (`os.Rename`), `Bootstrap`, the inbox service, configuration, HTTP, migrations runner, tmdb: outside the database; the outcome of the rename is a parameter.

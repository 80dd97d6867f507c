# etcdv version history, modelled in Dafny

etcdv rebuilds the history of one etcd key. It reads the key once at every
revision from its creation revision to its current modification revision,
then returns the records in the requested order, optionally limited to a
number of records. This project models the two sequential cores of that
program and proves their contracts.

- **`GetVersionHistory`** (`history.dfy`, module `History`) covers three steps.
  - **Plan.** It computes the revisions to read. `RevisionCount` is the count
    arithmetic, including Go's truncating division. `Plan` is the closed form of
    the plan. `PlanRevisions` is the append loop, and it is proved equal to `Plan`.
  - **Fan-in.** Every planned revision has one worker. The worker's retried read
    ends in one of three outcomes: `Found(kv)`, `NoValue` or `ReadFailed(cause)`.
    The outcome decides what the worker sends (`Emit`, `Sent`): one record, one
    error, or nothing. The messages reach the collector in any order, so the
    arrival sequence is any permutation of what was sent. `Collect` is the
    receive loop. It performs `len(revisions)` receives, returns the first error
    it meets, and blocks when the messages run out.
  - **Sort.** `SortByRevision` sorts the records in place on an array, with the
    comparator handed to `sort.Slice`.

  `GetVersionHistory` puts the steps together. It also handles the first Get of
  the key: an error, or no key-value pair at all.
- **`RetryWithContext`** (`retry.dfy`, module `Retry`) is the retry loop with
  exponential backoff. Everything outside the loop is an input:
  - the operation's answer at attempt `i` is `operation(i)`;
  - whether the context is done at the check before attempt `i` is `done(i)`;
  - `ctx.Err()` is `ctxErr`.

  `time.Duration` is an int64 count of nanoseconds. `delay *= 2` wraps around as
  int64 arithmetic does. Each `time.Sleep(delay)` is appended to a ghost log of
  sleeps, and the log is proved to follow the schedule `Backoff`.

`types.dfy` holds the records of `pkg/types/types.go`. `wrappers.dfy` holds the
`Option` type that stands for Go's nil-able `error`.

Note on reads that find no value: one could expect such a revision simply to
be missing from the result. In the code, the worker sends nothing for it, but
the collector still waits for `len(revisions)` messages. If no read failed,
that call never returns. The model follows the code: the result is `Hang`.

## Model

| member | source | states |
|---|---|---|
| `History.Ascending` | pkg/etcdhistory/history.go:50-53 | only the order string "asc" walks upwards. "desc" (the command's default) and the empty string walk downwards |
| `History.Quot` | pkg/etcdhistory/history.go:56 | Go's integer division, which truncates toward zero: the remainder `a - q*b` is smaller than the divisor in magnitude and, when not zero, has the dividend's sign. Dividing by a step of 1 gives the difference, dividing by -1 gives its negation |
| `History.RevisionCount` | pkg/etcdhistory/history.go:56-65 | the count is `abs(modRev-createRev)+1` for every order. A positive Limit smaller than that count replaces it. `createRev == modRev` gives 1, and a positive Limit is never exceeded |
| `History.Plan` | pkg/etcdhistory/history.go:49-72 | the plan has RevisionCount entries. `createRev == modRev` plans exactly `[createRev]` |
| `History.PlanMonotone` | pkg/etcdhistory/history.go:50-72 | the plan strictly increases for "asc" and strictly decreases for any other order string |
| `History.PlanCoversRange` | pkg/etcdhistory/history.go:50-72 | when `createRev <= modRev`, every planned revision lies in `[createRev, modRev]`. Without a limit, the plan has `modRev-createRev+1` entries and contains every revision of that range once |
| `History.PlanRevisions` | pkg/etcdhistory/history.go:67-72 | the append loop yields exactly the closed-form plan: `createRev + i` at index i for "asc", `modRev - i` otherwise |
| `History.MakeRecord` | pkg/etcdhistory/history.go:93-99 | the record's Revision is the planned revision the read was made at, not one reported by the server |
| `History.Emit` | pkg/etcdhistory/history.go:92-106 | a worker sends at most one message, and none exactly when the read found no value. It sends a record exactly when the read found a value, and that record carries the planned revision. Otherwise it sends an error naming the revision and the read's cause. It never sends both a record and an error |
| `History.Sent` | pkg/etcdhistory/history.go:80-108 | the dispatch loop, with every worker's messages listed in plan order: there are never more messages than planned revisions |
| `History.Expected` | pkg/etcdhistory/history.go:92-100 | when every read found a value, there is one record per planned revision, in plan order, and record i carries revision `plan[i]` |
| `History.SentLength` | pkg/etcdhistory/history.go:92-106 | the workers send no more messages than there are planned revisions, and as many only if no read came back empty |
| `History.SentErrors` | pkg/etcdhistory/history.go:104-106 | an error message is sent if and only if some planned read failed. Each error names a failed planned revision and its cause |
| `History.SentAllFound` | pkg/etcdhistory/history.go:92-101 | when every read found a value, the messages sent are exactly the expected records |
| `History.Collect` | pkg/etcdhistory/history.go:110-118 | the loop aborts if and only if an error is among the first `n` arrivals, and it returns the first such error. Otherwise it gathers exactly `n` records equal to the first `n` arrivals. It blocks when fewer than `n` messages arrive and none is an error |
| `History.AbortedMeansFailed` | pkg/etcdhistory/history.go:104-117 | an error the collector receives comes from a failed read at a planned revision |
| `History.OnlyRecordsMeansNoFailure` | pkg/etcdhistory/history.go:104-117 | if only records arrive, no planned read failed |
| `History.BlockedMeansNoValue` | pkg/etcdhistory/history.go:92-117 | a collector that runs out of messages means no read failed and some read found no value |
| `History.FullSendMeansAllFound` | pkg/etcdhistory/history.go:92-106 | one message per planned revision, none of them an error, means every read found a value |
| `History.GatheredMeansAllFound` | pkg/etcdhistory/history.go:92-117 | if the collector gathers one record per planned revision, every read found a value and the records are a permutation of the expected ones |
| `History.Less` | pkg/etcdhistory/history.go:121-126 | the comparator: records with equal revisions never compare Less. Otherwise x is Less than y exactly when x has the smaller revision and the order is "asc", or the larger revision and it is not |
| `History.SortByRevision` | pkg/etcdhistory/history.go:120-126 | after the in-place sort, no record compares Less than one placed before it, and the array is a permutation of its old contents |
| `History.SortRecords` | pkg/etcdhistory/history.go:120-126 | given records with distinct revisions, the sorted records are a permutation of them and strictly increasing by Revision for "asc", strictly decreasing otherwise |
| `History.PermutationKeepsDistinct` | pkg/etcdhistory/history.go:120-126 | reordering records keeps their revisions pairwise distinct |
| `History.ReadHistory` | pkg/etcdhistory/history.go:49-128 | success holds if and only if every planned read found a value. Failure holds if and only if some planned read failed, and the error names that revision. A success holds a permutation of the expected records, one per planned revision, strictly ordered |
| `History.GetVersionHistory` | pkg/etcdhistory/history.go:35-128 | a failing first Get returns its error. A key with no value returns KeyNotFound before anything is planned. Otherwise the outcome is success, failure or hang, exactly as for ReadHistory. A positive Limit bounds the number of records |
| `Retry.DefaultRetryOptions` | internal/utils/retry.go:17-24 | the defaults are 3 retries, a 100ms base delay, a 1s cap and 5s overall. They allow at least one attempt and satisfy `0 <= BaseDelay <= MaxDelay <= MaxInt64/2`, the bounds under which the backoff lemmas hold |
| `Retry.Wrap64` | internal/utils/retry.go:45 | int64 wrap-around: a value in range is unchanged, and the result is congruent to the input modulo 2^64 |
| `Retry.NextDelay` | internal/utils/retry.go:45-48 | a backoff step never exceeds MaxDelay. Without overflow it is `min(2*delay, MaxDelay)` |
| `Retry.DelayAt` | internal/utils/retry.go:29-48 | every delay after the first is at most MaxDelay |
| `Retry.Backoff` | internal/utils/retry.go:29-48 | the first sleep is BaseDelay, and every later sleep is at most MaxDelay |
| `Retry.DelayStep` | internal/utils/retry.go:44-48 | with both bounds in `[0, MaxInt64/2]`, every delay stays within `[0, max(BaseDelay, MaxDelay)]` and each step is exactly `min(2*previous, MaxDelay)` |
| `Retry.BackoffDoubles` | internal/utils/retry.go:44-48 | each sleep after the first is `min(2*previous, MaxDelay)` when no doubling overflows |
| `Retry.DelayMonotone` | internal/utils/retry.go:29-48 | with `0 <= BaseDelay <= MaxDelay <= MaxInt64/2`, a later delay is never shorter |
| `Retry.BackoffWrapsAround` | internal/utils/retry.go:44-48 | above MaxInt64/2 the doubling wraps around: from a BaseDelay of 2^62 with MaxDelay at MaxInt64, the second sleep is MinInt64, shorter than the first |
| `Retry.BackoffNonDecreasing` | internal/utils/retry.go:29-48 | with `0 <= BaseDelay <= MaxDelay <= MaxInt64/2`, the sleep log is non-decreasing |
| `Retry.RetryWithContext` | internal/utils/retry.go:27-53 | the operation is called at most MaxRetries times, and only after a check that found the context live. MaxRetries <= 0 returns nil with no call and no sleep. Otherwise exactly one of three things happens. The first success returns nil at once. A done context returns `ctx.Err()` and that attempt is not made. After MaxRetries failures the last error is returned. There is no sleep after the last attempt, so at most MaxRetries-1 sleeps occur, and they follow Backoff. MaxDuration is never read |
| `Retry.DefaultRetryExhausts` | internal/utils/retry.go:17-24 | under DefaultRetryOptions (3 retries, 100ms base, 1s cap, 5s max duration), an always-failing operation in a live context is called 3 times with sleeps of 100ms and 200ms, and its error is returned |

## Left out

- Connecting and authenticating (pkg/etcdhistory/history.go:17-32), including the connection error and `cli.Close`, are foreign network calls and are not modelled.
- The first `cli.Get` and every point-in-time read are foreign calls. Their outcomes are inputs: `current` for the first Get, and `read(revision)` for each worker.
- Each worker's read goes through RetryWithContext with DefaultRetryOptions. `read(revision)` is the outcome of that whole retried read and is not derived from the `Retry` model.
- Goroutines, the 10-slot semaphore and channel buffering are concurrency, which is not modelled. The fan-in is a sequential loop over an arrival sequence that may be any permutation of the messages sent. The slot cap is not verified.
- Revisions and `Options.Limit` are int64 and Go int in the source, but unbounded integers here. For etcd's revisions (`0 < createRev <= modRev`) the count, the plan and the revisions themselves stay within int64. The only exception is the loop's final `rev += step` after the last append, whose value is never used.
- `sort.Slice`'s algorithm: an insertion sort stands in for it, and only the contract of `sort.Slice` is claimed. Stability is not claimed. It is not needed, because the revisions are distinct.
- Error messages built with `fmt.Errorf` are modelled as `Error` constructors that carry the same data: the cause, the key, or the revision and cause.
- Real time: `time.Sleep` only appends to a ghost log of sleeps.
- `cmd/etcdv/main.go` (flag parsing, JSON and table output, exit codes) is I/O and formatting, and is not part of this model.
- BackoffDoubles: states the `min(2*previous, MaxDelay)` rule only when BaseDelay and MaxDelay lie in `[0, MaxInt64/2]`. Past that limit the int64 doubling in the source can wrap around. NextDelay models the wrap-around itself.
- BackoffNonDecreasing: states the non-decreasing schedule only when `0 <= BaseDelay <= MaxDelay <= MaxInt64/2`. The upper bound is needed: BackoffWrapsAround shows that in the source, with a BaseDelay of 2^62 and MaxDelay at MaxInt64, `delay *= 2` wraps to MinInt64 and the schedule shrinks.

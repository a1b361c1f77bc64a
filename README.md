# URL line counter: worker pool and fan-in, modelled in Dafny

Two small Go programs take a comma-separated list of URLs. Each program fetches every URL concurrently and reports one integer per URL. The integer is the number of lines of the body for a `200` response. Otherwise it is the status code, or `500` when the request or the body read failed. When the process is interrupted, the program prints `stopped`. It then prints `<url>: cancel` for every URL whose result never arrived.

- `worker_pool/main.go` feeds the URLs to a fixed pool of workers through a job channel. A collector prints each result as it arrives, and then a cancel line for each URL it did not see.
- `fan-in/main.go` starts one single-shot worker per URL and merges their channels into one. A collector records the results in a map and then prints one line per URL, in input order.

The model has six modules, one file each:

- `Executor` (`executor.dfy`): `processURL`.
  - The HTTP exchange is an abstract `Response`: a transport failure, or a status code with a body read that either failed or produced bytes.
  - The line count is specified by cutting the body into `'\n'`-terminated lines (`SplitLines`/`Unlines`) and is proved equal to the `bytes.Count` formula.
- `Outcomes` (`outcomes.dfy`): the shared vocabulary.
  - A task is a URL with its result.
  - The collector's `select` observes a finite stream of events: `Outcome(task)`, `Close` (the results channel is closed) or `Cancel` (the context is done).
  - The output is a sequence of `Line` values.
  - `FirstStop`, `Arrived` and `CancelledRun` say where the collector's loop ends, what it received and which way it left.
- `WorkerPool` (`worker_pool.dfy`):
  - the job channel as a class `JobQueue` and the submission loop of `main`;
  - the workers as a function from jobs to tasks;
  - `handleResults` as a method with a map updated in place, proved against the specification function `PoolOutput`.
- `FanIn` (`fan_in.dfy`):
  - `worker` as a single-shot source;
  - the loop that spawns the sources;
  - `fanIn` as a relation: the merged stream is some ordering of all the sources' tasks, as a multiset;
  - the collector loop, as the method `Collect` against the last-write-wins map `Record`;
  - the report loop, as the method `PrintReport` against `Report`.
- `Strategies` (`strategies.dfy`): both programs compute the same tasks. When nothing cancels them and the URLs are distinct, they print the same lines, possibly in a different order.
- `Scenarios` (`scenarios.dfy`): concrete runs.

Where the two programs differ, each model follows its own program's code:

- Both programs mark a URL without a result by printing `<url>: cancel`.
- The worker pool prints results in arrival order. Cancel lines come after them, and `stopped` sits between the two groups.
- Fan-in prints `stopped` first, then exactly one line per URL-list entry.
- In fan-in, a duplicated URL shows the last result recorded for it, on every one of its lines.

## Model

| member | source | states |
|---|---|---|
| Executor.CountNewLines | worker_pool/main.go:53 | the count is the number of `'\n'` bytes of the body (its multiplicity in the body's multiset) and never exceeds the body's length |
| Executor.CountNewLinesAppend | worker_pool/main.go:53 | counting newlines distributes over concatenation, so the count does not depend on how the body is chunked |
| Executor.LineCount | worker_pool/main.go:53-56 | definition: the number of `'\n'` bytes of the body, plus one when the body is non-empty and its last byte is not `'\n'` |
| Executor.LineCountBounds | worker_pool/main.go:53-56 | the line count is at most the body length; it is 0 exactly for the empty body and at least 1 for a non-empty one |
| Executor.SplitLines | fan-in/main.go:54-57 | cutting a body at its newlines gives lines without `'\n'` and a tail without `'\n'`, which join back into exactly the body |
| Executor.UnlinesFacts | fan-in/main.go:54-57 | a body built from newline-free lines has one `'\n'` per line; it ends with the tail's last byte, or with `'\n'` if the tail is empty |
| Executor.LineCountOfText | fan-in/main.go:54-57 | for any well-formed text, the count formula gives the number of terminated lines plus one for a non-empty unterminated tail |
| Executor.LineCountIsNumberOfLines | worker_pool/main.go:53-56 | the `bytes.Count` formula plus the suffix check equals the number of lines the body is cut into |
| Executor.ProcessURL | worker_pool/main.go:31-59 | transport error gives 500; a status other than 200 is returned as is; a 200 with a failed body read gives 500; a 200 with a body gives its line count, between 0 and the body length and 0 only for an empty body |
| Executor.NonOKIgnoresBody | worker_pool/main.go:42-44 | for a status other than 200 the result is that status, whatever the body or its read outcome |
| Executor.ErrorsGiveInternalServerError | fan-in/main.go:36-52 | a transport failure and a failed read of a 200 body both give 500; a failed read under another status gives that status |
| Outcomes.FirstStop | worker_pool/main.go:64-76 | the loop ends at the first event that is not a received task, and every event before it is one |
| Outcomes.Arrived | worker_pool/main.go:66-71 | the tasks taken in are exactly the events before the first stop, in order |
| Outcomes.CancelledRun | worker_pool/main.go:72-74 | definition: the event that ends the collector's loop is the cancellation, not the closing of the results channel |
| Outcomes.Executed | worker_pool/main.go:22-29 | definition: for every URL-list position, the task carrying that URL and the result of processing the response it gets, in input order |
| Outcomes.ArrivalsThenStop | worker_pool/main.go:64-76 | a stream of tasks followed by Close or Cancel is read as exactly those tasks; the run counts as cancelled iff the stopping event is Cancel, and nothing after it is read |
| Outcomes.StreamShape | fan-in/main.go:104-117 | every stream that stops is its arrived tasks, the stopping event, then events the loop never reads |
| Outcomes.UrlSetSnoc | worker_pool/main.go:71 | receiving one more task adds exactly its URL to the set of received URLs |
| Outcomes.HasStopTail | worker_pool/main.go:64-76 | a stream that stops still stops after its first received task is taken off |
| WorkerPool.JobQueue.constructor | worker_pool/main.go:98 | a new job channel is open and has carried nothing |
| WorkerPool.JobQueue.Send | worker_pool/main.go:114 | sending appends the URL to what the channel carried, and it stays open |
| WorkerPool.JobQueue.Close | worker_pool/main.go:117 | closing leaves what was carried unchanged |
| WorkerPool.SubmitJobs | worker_pool/main.go:113-117 | the job channel carries the URL list exactly once, in input order, and is then closed |
| WorkerPool.Work | worker_pool/main.go:22-29 | the workers, taking the jobs one by one, produce exactly the executed task of every job, position by position |
| WorkerPool.ResultLines | worker_pool/main.go:70 | definition: one `<url>: <n>` line per received task, in arrival order |
| WorkerPool.Processed | worker_pool/main.go:62-71 | definition: the `processedURLs` map after some tasks were received: every received URL and nothing else, mapped to true |
| WorkerPool.PoolOutput | worker_pool/main.go:61-82 | definition: the result lines of the tasks received before the loop ended, then `stopped` if it ended by cancellation, then the cancel pass over the URL list against the received URLs |
| WorkerPool.CancelLines | worker_pool/main.go:78-82 | every line of the cancel pass is a cancel line for a URL that was not received |
| WorkerPool.CancelLinesCover | worker_pool/main.go:78-82 | every cancel line names an entry of the list, and every entry not received gets a cancel line |
| WorkerPool.CancelLinesAppend | worker_pool/main.go:78 | the cancel pass over a concatenated list is the passes over the parts, in order |
| WorkerPool.CancelLinesNone | worker_pool/main.go:78-82 | when every entry was received, no cancel line is printed |
| WorkerPool.ResultLinesSnoc | worker_pool/main.go:70 | printing one more received task appends exactly its line |
| WorkerPool.ResultLinesAppend | worker_pool/main.go:70 | the lines printed for two batches of arrivals are the two batches' lines, in order |
| WorkerPool.ResultLinesReordered | worker_pool/main.go:70 | tasks arriving in another order produce the same lines, as a multiset |
| WorkerPool.ReorderStep | worker_pool/main.go:70 | inserting the same task into two orderings whose lines agree as multisets keeps them agreeing |
| WorkerPool.ResultLinesAround | worker_pool/main.go:70 | the lines of a sequence with one task inserted are the lines without it plus that task's line, as a multiset |
| WorkerPool.ProcessedSnoc | worker_pool/main.go:71 | receiving a task marks its URL processed and changes no other key of the map |
| WorkerPool.HandleResults | worker_pool/main.go:61-82 | the printed lines are exactly: the arrived tasks in arrival order, `stopped` when cancelled, then the cancel pass over the URL list against the processed map |
| WorkerPool.CancelPass | worker_pool/main.go:78-82 | the loop over the URL list prints exactly the cancel pass against the keys of the processed map |
| WorkerPool.PoolStoppedOnlyOnCancel | worker_pool/main.go:72-74 | `stopped` is printed iff the loop ended by cancellation, and at most once |
| WorkerPool.PoolResultsInArrivalOrder | worker_pool/main.go:66-71 | the first lines are the arrived tasks' results, one per task and in arrival order, and no result line comes after them |
| WorkerPool.PoolCancelLinesExactlyMissing | worker_pool/main.go:78-82 | every cancel line names a URL-list entry that was not received; entry i gets a cancel line iff its URL was not received |
| WorkerPool.PoolCompleteRun | worker_pool/main.go:113-121 | when the channel carries, in any order, the task of every submitted job and then closes, the output is exactly those tasks' result lines, one per URL, with no `stopped` and no cancel line |
| WorkerPool.EveryJobReceived | worker_pool/main.go:113-121 | when the received tasks are those of all jobs in any order, there is one per entry and every URL-list entry was received |
| FanIn.Worker | fan-in/main.go:22-29 | definition: a worker's channel carries exactly one task, its URL with its result, and then closes |
| FanIn.Sources | fan-in/main.go:97-101 | definition: one worker channel per URL-list entry, in input order |
| FanIn.SourcesSingleShot | fan-in/main.go:22-30 | one source per URL entry, in input order, each yielding exactly one task that carries its own URL and result |
| FanIn.SpawnWorkers | fan-in/main.go:97-101 | the loop builds exactly the list of sources, one per URL entry, in input order |
| FanIn.FlattenSources | fan-in/main.go:67-73 | everything the sources emit, taken source by source, is the executed task of each URL entry in order |
| FanIn.IsFanIn | fan-in/main.go:62-82 | definition: the merged channel carries the tasks of all source channels, each exactly once, in some interleaving (equal multisets) |
| FanIn.FanInStream | fan-in/main.go:76-81 | definition: what the collector observes on the merged channel: each merged task, then the close that follows the last forwarding goroutine |
| FanIn.FanInCarriesEverySource | fan-in/main.go:62-82 | the merged stream carries exactly the executed tasks (as a multiset), one per URL entry |
| FanIn.FanInClosesLast | fan-in/main.go:76-80 | the merged stream closes only after all tasks: the collector receives them all and the run is not cancelled |
| FanIn.ExecutedMembers | fan-in/main.go:62-82 | every URL entry's task is on the merged stream, and every merged task is some entry's task |
| FanIn.Record | fan-in/main.go:111 | the recorded keys are exactly the URLs received |
| FanIn.RecordStep | fan-in/main.go:111 | recording a task stores its result under its URL; every other key keeps its presence and value |
| FanIn.RecordSnoc | fan-in/main.go:111 | recording one more task is a single map update |
| FanIn.RecordLastWriteWins | fan-in/main.go:111 | a URL's recorded value is the result of the last task received for that URL |
| FanIn.RecordKeepsLast | fan-in/main.go:111 | an arrival no later arrival of the same URL overwrites stays recorded: its URL is a key holding its result |
| FanIn.RecordFromArrival | fan-in/main.go:111 | every recorded pair was received as a task |
| FanIn.Collect | fan-in/main.go:104-117 | the loop's map is the last-write-wins record of the tasks received before the first stop; `stopped` is printed iff that stop was a cancellation |
| FanIn.Report | fan-in/main.go:119-126 | one line per URL-list entry in input order: its recorded result if present, a cancel line otherwise |
| FanIn.PrintReport | fan-in/main.go:119-126 | the report loop prints exactly the report |
| FanIn.FanInOutput | fan-in/main.go:104-126 | definition: `stopped` if the loop ended by cancellation, then the report of the map recorded from the tasks received before that |
| FanIn.CollectAndReport | fan-in/main.go:104-126 | the program's output is `stopped` when cancelled, followed by the report of the recorded map |
| FanIn.ReportDuplicatesAgree | fan-in/main.go:119-126 | entries with the same URL print the same line |
| FanIn.FanInStoppedFirst | fan-in/main.go:112-114 | `stopped` appears only when the loop ended by cancellation, and then as the first line; one line per URL-list entry follows |
| FanIn.FanInLastResultShown | fan-in/main.go:104-126 | after the optional `stopped`, entry i shows the result of the last task for its URL that arrived before the loop ended |
| FanIn.FanInCancelLinesExactlyMissing | fan-in/main.go:119-126 | after the optional `stopped`, entry i is a cancel line iff no task for its URL arrived before the loop ended |
| FanIn.ReportShowsLastWrite | fan-in/main.go:111-122 | each report line of a received URL shows the result of the last task for that URL |
| FanIn.ReportCancelsMissing | fan-in/main.go:119-126 | a report line is a cancel line iff its URL was never received |
| FanIn.CancelLineIffMissing | fan-in/main.go:120-124 | the same, for one entry |
| FanIn.LastWriteLine | fan-in/main.go:111-122 | the same as ReportShowsLastWrite, for one entry and one arrival |
| FanIn.ReportHasNoStop | fan-in/main.go:119-126 | the report loop never prints `stopped` |
| FanIn.FanInCompleteRun | fan-in/main.go:98-126 | without cancellation every entry gets a result line with its own URL and no cancel line; with distinct URLs each carries that URL's own result |
| FanIn.FanInCancelledRun | fan-in/main.go:98-126 | with distinct URLs, cancelled after any prefix of the merged stream: `stopped`, then per entry its own result if it arrived and a cancel line otherwise |
| FanIn.CancelAfter | fan-in/main.go:112-114 | cancellation after some arrivals prints `stopped` followed by the report of exactly those arrivals |
| FanIn.OwnResults | fan-in/main.go:111 | with distinct URLs, whatever prefix of the merged stream arrived, each recorded value is its own URL's result |
| FanIn.OwnResult | fan-in/main.go:111 | the same, for one entry |
| FanIn.ReportOfOwnResults | fan-in/main.go:119-126 | when each recorded value is its URL's own result, each report line is its entry's own result or a cancel line |
| FanIn.CompleteReport | fan-in/main.go:119-126 | the report of a complete merged stream has a result line for every entry, with its own result when URLs are distinct |
| Strategies.SameExecutions | worker_pool/main.go:22-29 | the pool's workers and the fan-in sources compute the same task for every URL entry |
| Strategies.SameLinesWithoutCancel | fan-in/main.go:119-126 | with distinct URLs and no cancellation, both programs print the same lines, in whatever order the tasks arrive |
| Strategies.SameLines | worker_pool/main.go:61-82 | the same, with the merged stream already known to carry the executed tasks |
| FanIn.FanInCompleteOutput | fan-in/main.go:104-126 | a closed merged stream gives the report of all its tasks and no `stopped` |
| Strategies.FanInLinesAreExecuted | fan-in/main.go:119-126 | with distinct URLs, the fan-in report of a complete run is the executed tasks' result lines in input order |
| Scenarios.LineCountExamples | worker_pool/main.go:53-56 | the empty body counts 0; `a\nb` and `a\nb\n` count 2; `\n\n` counts 2 |
| Scenarios.StatusExamples | worker_pool/main.go:35-44 | a 404 gives 404; a failed request gives 500; a 200 with `a\nb` gives 2 |
| Scenarios.CancelAfterFirstFanIn | fan-in/main.go:104-126 | cancelled after `a` arrives: `stopped`, `a: 3`, `b: cancel`, `c: cancel` |
| Scenarios.CancelAfterFirstPool | worker_pool/main.go:61-82 | cancelled after `a` arrives: `a: 3`, `stopped`, `b: cancel`, `c: cancel` |

## Left out

- The `http.Client`, its 5-second timeout, `Get` and `ioutil.ReadAll` are network I/O. They are replaced by an abstract `Response` given for each URL-list position. The client's timeout covers both steps: a timeout during `Get` is a `TransportFailure`, and a timeout while reading the body is a `ReadFailure`. Both give 500.
- Goroutines, the channels and `sync.WaitGroup` are concurrency.
  - The scheduler's interleaving is a parameter: the event sequence the collector observes, or an ordering of the merged tasks constrained by a multiset equality.
  - When both cases of `select` are ready, Go picks one at random. That choice is also part of the given event sequence.
- How the worker pool spreads jobs over its `workersCount = 4` workers is not modelled. The bound only matters for scheduling; the model states only which task each job produces.
- `signal.NotifyContext` and OS signals are process I/O. Cancellation is the `Cancel` event.
- `os.Args`, the usage message, the `processing...` line and `strings.Split` are CLI plumbing. The URL list is a given `seq<string>`.
- The `fmt.Printf` text and the `fmt.Println(err)` logging are output formatting and logging. Lines are `Line` values: `ResultLine(url, n)` for `<url>: <n>`, `CancelLine(url)` for `<url>: cancel`, and `Stopped` for `stopped`.
- The `done` channel of the worker pool and the final waits of `main` are not modelled.
  - After cancellation, `handleResults` no longer receives. Workers still sending a result, and `main` still sending jobs, would then block, so `main` may never return. The model describes what is printed, not whether the process exits.
- A stream that neither closes nor is cancelled is excluded by the precondition `HasStop`: on such a stream the Go collector would wait forever.
- Integers are unbounded. A body long enough to overflow Go's `int` line count cannot occur in practice and is not modelled.
- FanIn.FanInCancelledRun, FanIn.OwnResults and Strategies.SameLinesWithoutCancel require distinct URLs. With duplicates, the fan-in report shows the last recorded result on every line of that URL. FanIn.FanInLastResultShown, FanIn.FanInCancelLinesExactlyMissing and FanIn.ReportDuplicatesAgree state that case in general.

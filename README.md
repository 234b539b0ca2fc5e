# shigoto job queue in Dafny

This project models the core of shigoto, a small distributed job runner
written in Go. A coordinator (`server/server.go`) keeps jobs in two slices:
`queue` holds the pending jobs and `poped_queue` the leased ones. Clients
submit shell commands to `/addJob` and list the jobs with `/showQueue`.
Workers (`node/node.go`) lease the oldest pending job through `/getJob`,
run it, and report `"<id> <status>"` to `/applyJobState`: first `running`,
then `done` or `failed`.

The model has six modules:

- `Wrappers`: the `Option` type.
- `Http`: the status codes and methods the handlers use.
- `Fmt`: the two uses of Go's `fmt` that carry the status report.
  `SprintIntString` models `Sprintf("%d %s")`. `ScanIntString` models
  `Fscanf("%d %s")`, including how it treats spaces and newlines, the sign,
  and the 64-bit range.
- `JobStore`: the two slices as a value (`Store`) and each handler's effect
  as a pure function (`Submit`, `Lease`, `Report`). It also has the store
  invariant `Valid` and runs of operations (`Exec`), with lemmas for
  identity, first-in-first-out leasing and at-most-once leasing.
- `Coordinator`: the class `Server`, with the two slices as fields and the
  four handlers as methods, each checking the guards its Go handler checks:
  `/addJob` the method, a verified client chain and a readable body;
  `/showQueue` only the method (no TLS check), and it changes nothing;
  `/getJob` TLS and an empty queue; `/applyJobState` TLS and the scan of the
  body (neither checks the method). The three handlers that change the
  slices do so in place, and their contracts tie the new state to
  `Submit`, `Lease` and `Report` and preserve `Valid`; `/showQueue`'s
  contract ties its output to `Listing`.
- `Worker`: the report body, one run of `runJob` (the reports it posts and
  when the worker dies), and one pass of the worker loop.
- `Lifecycle`: the coordinator and the worker together. It follows one job
  from the lease to its terminal status, both on the store functions and
  through the real handlers.

These behaviours of the Go code are modelled as written and stated in the
contracts:

- A lease does not change the job's status. The worker receives it as
  `waiting` (`LeaseMovesHead`).
- `/applyJobState` accepts any status token for any id. It can move a job
  back to an earlier status. An id that is not leased still gets 200
  (`ReportSetsLeasedStatus`, `Server.HandleApplyJobState`).
- `/showQueue` lists pending jobs before leased ones, so the listing is not
  in id order once a job is leased (`ShownNotInIdOrder`).
- A worker that finds the queue empty polls again at once, without sleeping
  (`Iterate`).

## Model

| member | source | states |
|---|---|---|
| Fmt.ScanIntString | server/server.go:180 | Fscanf "%d %s": a successful scan gives an id within int64 and a non-empty status token without spaces; every other body is a scan error |
| Fmt.SprintIntString | node/node.go:118 | no contract; Sprintf("%d %s") of a number and a string; stated by Fmt.SprintScanRoundTrip |
| Fmt.SprintScanRoundTrip | node/node.go:118 | scanning what Sprintf("%d %s") wrote gives back the same int64 and token, and anything after a following space is ignored |
| Fmt.NewlineAfterNumberRejected | server/server.go:180-183 | a newline where the pattern's space stands makes the scan fail, so the report is answered 400 |
| Fmt.MissingTokenRejected | server/server.go:180-183 | a body holding only a number makes the scan fail, so it is answered 400 |
| Fmt.NatStringValue | node/node.go:118 | the digits %d writes for a natural number denote that number |
| JobStore.IdsArePositions | server/server.go:118-120 | under the invariant, the id of every job is its position in leased ++ pending |
| JobStore.IdsUnique | server/server.go:118 | ids are strictly increasing over all held jobs, and every leased id is below every pending id |
| JobStore.Submit | server/server.go:114-120 | no contract; a new waiting job with id len(queue)+len(poped_queue) and the raw command appended to queue; stated by JobStore.SubmitAppends and Coordinator.Server.HandleAddJob |
| JobStore.SubmitAppends | server/server.go:114-120 | submission appends exactly one waiting job with the raw command and id len(queue)+len(poped_queue); that id is larger than every id held; nothing else changes; the invariant is kept |
| JobStore.Lease | server/server.go:154-160 | no contract; the head of queue moved to the end of poped_queue and returned, nothing on an empty queue; stated by JobStore.LeaseEmpty, JobStore.LeaseMovesHead and Coordinator.Server.HandleGetJob |
| JobStore.LeaseEmpty | server/server.go:154-157 | a lease on an empty queue changes nothing and returns nothing |
| JobStore.LeaseMovesHead | server/server.go:158-160 | a lease returns the head of the queue unchanged (still waiting, id = number leased); it moves that job to the end of poped_queue, keeps all jobs in order and keeps the invariant |
| JobStore.IndexOf | server/server.go:187-191 | the search stops at the first leased job with the id, or reports that there is none |
| JobStore.Report | server/server.go:187-192 | no contract; the status of the first leased job with the id overwritten; stated by JobStore.ReportSetsLeasedStatus, JobStore.ReportIdempotent and Coordinator.Server.SetLeasedStatus |
| JobStore.ReportSetsLeasedStatus | server/server.go:187-192 | a report sets the status of the leased job with that id and changes nothing else; for any other id the store is unchanged; the invariant is kept |
| JobStore.ReportIdempotent | server/server.go:187-192 | delivering the same report twice leaves the same store as delivering it once |
| JobStore.LeaseThenReports | server/server.go:158-192 | after a lease, two reports for the leased id set its status in turn and touch no other job |
| JobStore.ShownIsPermutation | server/server.go:133-140 | the listing order holds every job exactly as often as the store does |
| JobStore.ShownNotInIdOrder | server/server.go:133-140 | once a job is leased while another is pending, the listing shows a larger id before a smaller one |
| JobStore.ApplyKeepsCommands | server/server.go:114-192 | any single handler step only appends the submitted command to the commands held (none removed or reordered), and a lease adds one leased job |
| JobStore.ApplyKeepsValid | server/server.go:114-192 | any single handler step keeps the invariant, and a lease returns the job at position len(poped_queue), still waiting |
| JobStore.ExecKeepsJobs | server/server.go:114-192 | over any run, the commands held are the initial ones followed by the submitted ones, in order |
| JobStore.ExecKeepsValid | server/server.go:114-192 | over any run from a valid store the invariant holds at the end |
| JobStore.ExecLeasesInOrder | server/server.go:158-160 | over any run, the k-th lease returns the job at position len(poped_queue)+k, still waiting, with the command held or submitted there |
| JobStore.LeasesFollowSubmissionOrder | server/server.go:158-160 | from empty slices, the k-th lease returns id k and the k-th submitted command, so no job is leased twice |
| JobStore.EmptyValid | server/server.go:27-28 | the empty slices the coordinator starts with satisfy the invariant |
| Coordinator.Listing | server/server.go:132-140 | no contract; the header, then one line per job of queue, then one per job of poped_queue; stated by Coordinator.ListingShowsEachJobOnce and Coordinator.Server.HandleShowQueue |
| Coordinator.Text | server/server.go:132-139 | no contract; the bytes Fprintf writes for a line: the header text, or "%d, %s, %s\n" of the id, the unescaped command and the status |
| Coordinator.ListingShowsEachJobOnce | server/server.go:132-140 | the listing is the header followed by one line per job, pending first, each with the id, the unescaped command and the status |
| Coordinator.LinesAt | server/server.go:133-140 | line k of a slice's listing shows the k-th job of the slice |
| Coordinator.Server.constructor | server/server.go:27-28 | both slices start empty and satisfy the invariant |
| Coordinator.Server.HandleAddJob | server/server.go:92-123 | answers 405 for non-POST, then 401 without a verified client chain, then 400 for an unreadable body, and changes nothing in those cases; otherwise answers 201 and the new state is Submit of the old one |
| Coordinator.Server.HandleShowQueue | server/server.go:125-141 | answers 405 for non-GET; otherwise answers 200 with exactly the Listing of the current state; it changes nothing |
| Coordinator.Server.HandleGetJob | server/server.go:143-169 | answers 401 without TLS and 204 on an empty queue, changing nothing; otherwise answers 200, sends the head, and the new state and sent job are Lease of the old state |
| Coordinator.Server.HandleApplyJobState | server/server.go:171-195 | answers 401 without TLS and 400 when the body does not scan, changing nothing; otherwise answers 200 and the new state is Report of the scanned id and status |
| Coordinator.Server.SetLeasedStatus | server/server.go:187-192 | the loop sets the status of the first leased job with the id and stops; the new state is Report of the old one |
| Worker.ReportBody | node/node.go:118 | no contract; the body updateJobStatus posts, Sprintf("%d %s") of the id and the status; stated by Worker.ReportBodyRoundTrip |
| Worker.ReportBodyRoundTrip | node/node.go:118 | the coordinator scans back exactly the id and status the worker reports, for every int64 id |
| Worker.RunJob | node/node.go:94-114 | reports running first; if that is not acknowledged with 200 the worker dies without running the command; otherwise it runs the command and reports exactly one of done or failed; it dies if that report is not acknowledged |
| Worker.GetJob | node/node.go:75-92 | no contract; a transport error or an undecodable reply is an error, 204 is no job without error, otherwise the decoded job; stated by Worker.Iterate |
| Worker.Iterate | node/node.go:57-68 | a poll error or an undecodable job ends the worker; a 204 (node/node.go:82-84) polls again without sleeping; with a job the reports sent are "running" and, only if that was acknowledged with 200, the terminal status (so the command ran); the worker ends iff a report was not acknowledged, and otherwise sleeps one second before polling again |
| Lifecycle.DeliverWorkerReport | server/server.go:180-192 | a report body the worker wrote is applied as Report of the id and status it carries |
| Lifecycle.LeasedJobLifecycle | node/node.go:94-114 | a leased job reaches the worker as waiting; after the worker's reports it is running and then done or failed; no other job changes and the invariant holds |
| Lifecycle.LeaseAndRun | server/server.go:143-195 | driving /getJob, the worker's reports through /applyJobState and one worker-loop pass on a valid server: on an empty queue nothing changes and the worker polls again at once; otherwise the head of the queue is leased, both reports are acknowledged so the worker sleeps one second and polls again, the job ends done or failed, and no other leased job changes |

## Left out

- TLS configuration, flags, certificate loading and server start-up (`server/server.go:31-90`, `node/node.go:24-55`, `125-134`) are not modelled. A request carries only whether TLS is present and how many verified chains it has.
- The mutexes, the goroutines of the HTTP server and the worker pool are not modelled. Each handler is one atomic step. This hides that `/showQueue` reads both slices without the locks and that `/applyJobState` reads the body before it locks.
- Logging and the text of error responses are not modelled. A handler's answer is its status code, and `HandleShowQueue` returns no lines on 405.
- Coordinator.Server.HandleShowQueue: returns the listing as structured lines (`ListingLine`); `Text` gives the bytes Fprintf writes for each line. It does not prove a byte-level parse of the listing.
- `url.QueryUnescape` is a parameter (`unescape`) of the listing, and its error is ignored as in the source.
- JSON encoding of the job in `/getJob` and its decoding in `getJob` are not modelled. The decoded job is part of the poll outcome (`Poll.decoded`). A failure to encode is only logged by the source and is not modelled.
- A failing `ioutil.ReadAll` of the request body is modelled as an absent body.
- `exec.Command` and the command's output are reduced to whether the command returned an error.
- A POST that fails in `updateJobStatus` leaves a nil response whose dereference crashes the worker. It is modelled as a report that was not acknowledged, which also ends the worker.
- The worker's endless loop is modelled one pass at a time (`Iterate`). `time.Sleep` becomes the number of seconds slept.
- Job ids are unbounded integers. Go's `int` cannot overflow here in practice; the lifecycle lemmas require the id to fit in 64 bits, as the scan does.
- Fmt.ScanIntString: does not model invalid UTF-8 in the body, which Go decodes to U+FFFD.
- client/client.go and main.go are not part of this model.

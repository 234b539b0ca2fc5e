/** The worker of node/node.go. The HTTP client, the JSON decoder and the
    shell are reduced to their outcomes: the reply to a poll (transport
    error, or a status code and the job the body decodes to, if any), the
    reply code to each status report (absent when the POST itself fails),
    and whether the command ran without error. */
module Worker {
  import opened Wrappers
  import opened Http
  import opened Fmt
  import opened JobStore

  /** The body updateJobStatus posts: "%d %s" of the id and the status. */
  function ReportBody(id: int, status: string): string {
    SprintIntString(id, status)
  }

  /** updateJobStatus succeeds only when the coordinator answers 200. A
      failed POST leaves a nil response whose dereference kills the worker;
      it is modelled as a failed report. */
  predicate Acknowledged(reply: Option<int>) {
    reply == Some(StatusOK)
  }

  /** The final status runJob reports: "done" unless the command failed. */
  function TerminalStatus(execSucceeded: bool): string {
    if execSucceeded then Done else Failed
  }

  /** The coordinator scans back exactly the id and the status the worker
      reports, for every id that fits in Go's int. */
  lemma ReportBodyRoundTrip(id: int, status: string)
    requires MinInt64 <= id <= MaxInt64
    requires status == Running || status == Done || status == Failed
    ensures ScanIntString(ReportBody(id, status)) == Some((id, status))
  {
    assert forall k :: 0 <= k < |status| ==> 'a' <= status[k] <= 'z';
    SprintScanRoundTrip(id, status, []);
    assert ReportBody(id, status) + [] == ReportBody(id, status);
  }

  /** The outcome of a poll: the coordinator's reply to /getJob. */
  datatype Poll = PollError | Polled(code: int, decoded: Option<Job>)

  datatype Fetched = FetchError | NoJob | Got(job: Job)

  /** getJob: a transport error is an error; 204 means no job, without
      error; any other reply is decoded as a job, and a decode failure is an
      error. */
  function GetJob(p: Poll): Fetched {
    match p
    case PollError => FetchError
    case Polled(code, decoded) =>
      if code == StatusNoContent then NoJob
      else if decoded.None? then FetchError
      else Got(decoded.value)
  }

  /** runJob: report "running"; if that report fails the worker dies before
      running the command. Otherwise run it and report exactly one terminal
      status, "failed" if it returned an error and "done" otherwise; if that
      report fails the worker dies. `sent` lists the report bodies in the
      order they are posted. */
  method RunJob(id: int, execSucceeded: bool, runningReply: Option<int>, terminalReply: Option<int>)
    returns (sent: seq<string>, executed: bool, fatal: bool)
    ensures sent != [] && sent[0] == ReportBody(id, Running)
    ensures executed <==> Acknowledged(runningReply)
    ensures executed ==> sent == [ReportBody(id, Running), ReportBody(id, TerminalStatus(execSucceeded))]
    ensures !executed ==> sent == [ReportBody(id, Running)]
    ensures fatal <==> !(Acknowledged(runningReply) && Acknowledged(terminalReply))
  {
    sent := [ReportBody(id, Running)];
    if !Acknowledged(runningReply) {
      return sent, false, true;
    }
    executed := true;
    var status := TerminalStatus(execSucceeded);
    sent := sent + [ReportBody(id, status)];
    fatal := !Acknowledged(terminalReply);
  }

  /** How one pass of the worker loop ends: the process exits, or the loop
      polls again after sleeping the given number of seconds. */
  datatype Next = Exit | PollAgain(sleepSeconds: nat)

  /** One pass of the worker loop: poll; on an error exit; with no job poll
      again at once, without sleeping; with a job run it (the command runs,
      and a terminal report follows, only once "running" is acknowledged)
      and, unless a report failed, pause one second before polling again. */
  method Iterate(p: Poll, execSucceeded: bool, runningReply: Option<int>, terminalReply: Option<int>)
    returns (next: Next, sent: seq<string>)
    ensures p.PollError? ==> next == Exit && sent == []
    ensures p.Polled? && p.code == StatusNoContent ==> next == PollAgain(0) && sent == []
    ensures p.Polled? && p.code != StatusNoContent && p.decoded.None? ==> next == Exit && sent == []
    ensures p.Polled? && p.code != StatusNoContent && p.decoded.Some? ==>
      var id := p.decoded.value.id;
      && sent == (if Acknowledged(runningReply)
                  then [ReportBody(id, Running), ReportBody(id, TerminalStatus(execSucceeded))]
                  else [ReportBody(id, Running)])
      && (next == Exit <==> !(Acknowledged(runningReply) && Acknowledged(terminalReply)))
      && (next != Exit ==> next == PollAgain(1))
  {
    var fetched := GetJob(p);
    match fetched
    case FetchError =>
      next, sent := Exit, [];
    case NoJob =>
      next, sent := PollAgain(0), [];
    case Got(j) =>
      var executed, fatal;
      sent, executed, fatal := RunJob(j.id, execSucceeded, runningReply, terminalReply);
      next := if fatal then Exit else PollAgain(1);
  }
}

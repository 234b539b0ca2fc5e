/** Coordinator and worker together: the life of one job from the lease to
    its terminal status. */
module Lifecycle {
  import opened Wrappers
  import opened Http
  import opened Fmt
  import opened JobStore
  import opened Coordinator
  import opened Worker

  /** The coordinator applies a worker's report as Report of the id and the
      status the worker sent. */
  lemma DeliverWorkerReport(s: Store, id: int, status: string)
    requires MinInt64 <= id <= MaxInt64
    requires status == Running || status == Done || status == Failed
    ensures Deliver(s, ReportBody(id, status)) == Report(s, id, status)
  {
    ReportBodyRoundTrip(id, status);
  }

  /** A job leased from a valid store and run by a worker whose reports reach
      the coordinator: the worker receives it still "waiting", its "running"
      report makes it "running", and its terminal report leaves it "done" or
      "failed". No other job changes and the store stays valid. */
  lemma {:induction false} LeasedJobLifecycle(s: Store, execSucceeded: bool)
    requires JobStore.Valid(s) && s.pending != []
    requires |s.leased| <= MaxInt64
    ensures var t := Lease(s).0;
      var got := Lease(s).1;
      && got == Some(s.pending[0])
      && got.value.status == Waiting
      && got.value.id == |s.leased|
      && var u := Deliver(t, ReportBody(got.value.id, Running));
         var w := Deliver(u, ReportBody(got.value.id, TerminalStatus(execSucceeded)));
         && u.leased[got.value.id] == got.value.(status := Running)
         && w.leased[got.value.id] == got.value.(status := TerminalStatus(execSucceeded))
         && w.pending == t.pending
         && |w.leased| == |t.leased|
         && (forall k :: 0 <= k < |s.leased| ==> w.leased[k] == s.leased[k])
         && JobStore.Valid(w)
  {
    LeaseMovesHead(s);
    var id := |s.leased|;
    var terminal := TerminalStatus(execSucceeded);
    LeaseThenReports(s, Running, terminal);
    var t := Lease(s).0;
    DeliverWorkerReport(t, id, Running);
    DeliverWorkerReport(Report(t, id, Running), id, terminal);
  }

  /** The same life driven through the handlers: a worker polls a server
      over TLS, receives the head of the queue, and posts the reports
      RunJob produces. Every report is acknowledged, so the worker runs the
      command and does not die; the job ends "done" or "failed". */
  method LeaseAndRun(server: Server, execSucceeded: bool) returns (job: Option<Job>, next: Next)
    requires server.Valid() && |server.popped| <= MaxInt64
    modifies server
    ensures server.Valid()
    ensures old(server.queue) == [] ==> job == None && next == PollAgain(0) && server.State() == old(server.State())
    ensures old(server.queue) != [] ==>
      && job == Some(old(server.queue)[0])
      && next == PollAgain(1)
      && server.queue == old(server.queue)[1..]
      && |server.popped| == |old(server.popped)| + 1
      && server.popped[job.value.id] == job.value.(status := TerminalStatus(execSucceeded))
      && (forall k :: 0 <= k < |old(server.popped)| ==> server.popped[k] == old(server.popped)[k])
  {
    var tls := Some(TlsState(1));
    var code, leased := server.HandleGetJob(Request(MethodGet, tls, None));
    if leased.None? {
      assert code == StatusNoContent;
      var sent;
      next, sent := Iterate(Polled(code, None), execSucceeded, None, None);
      return None, next;
    }
    var j := leased.value;
    ghost var s := old(server.State());
    LeaseMovesHead(s);
    LeasedJobLifecycle(s, execSucceeded);
    ReportBodyRoundTrip(j.id, Running);
    ReportBodyRoundTrip(j.id, TerminalStatus(execSucceeded));
    var runningCode := server.HandleApplyJobState(Request(MethodPost, tls, Some(ReportBody(j.id, Running))));
    var terminalCode := server.HandleApplyJobState(
      Request(MethodPost, tls, Some(ReportBody(j.id, TerminalStatus(execSucceeded)))));
    var sent;
    next, sent := Iterate(Polled(code, leased), execSucceeded, Some(runningCode), Some(terminalCode));
    job := leased;
  }
}

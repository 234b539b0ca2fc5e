/** The coordinator of server/server.go: the two job slices it mutates under
    its locks, and its four HTTP handlers as atomic steps on them. Transport
    and TLS are reduced to what the handlers inspect: the request method,
    whether r.TLS is present and how many verified client chains it has, and
    the body (absent when reading it fails). The response is its status code. */
module Coordinator {
  import opened Wrappers
  import opened Http
  import opened Fmt
  import opened JobStore

  /** The part of r.TLS the handlers read, present only on a TLS connection. */
  datatype TlsState = TlsState(verifiedChains: nat)

  datatype Request = Request(verb: string, tls: Option<TlsState>, body: Option<string>)

  /** Mutual TLS as /addJob demands it: a TLS connection with a verified chain. */
  predicate HasVerifiedChain(r: Request) {
    r.tls.Some? && r.tls.value.verifiedChains > 0
  }

  /** What a report body does to the store: scan "%d %s" and, when that
      succeeds, overwrite the status of the leased job with that id. */
  function Deliver(s: Store, body: string): Store {
    match ScanIntString(body)
    case None => s
    case Some((id, status)) => Report(s, id, status)
  }

  /** A line of the /showQueue body, before Fprintf renders it. */
  datatype ListingLine = Header | Row(id: int, command: string, status: string)

  /** The text Fprintf writes for a line. */
  function Text(l: ListingLine): string {
    match l
    case Header => "ID, COMMAND, STATUS\n"
    case Row(id, command, status) => IntString(id) + ", " + command + ", " + status + "\n"
  }

  /** The line of a job: its id, its command as `unescape` (url.QueryUnescape,
      whose error is ignored) decodes it, and its status. */
  function Line(j: Job, unescape: string -> string): ListingLine {
    Row(j.id, unescape(j.command), j.status)
  }

  /** The lines of `jobs`, in order. */
  function Lines(jobs: seq<Job>, unescape: string -> string): seq<ListingLine> {
    if jobs == [] then [] else Lines(jobs[..|jobs| - 1], unescape) + [Line(jobs[|jobs| - 1], unescape)]
  }

  /** The /showQueue body: the header, the lines of `queue`, then those of
      `popped`. */
  function Listing(s: Store, unescape: string -> string): seq<ListingLine> {
    [Header] + Lines(s.pending, unescape) + Lines(s.leased, unescape)
  }

  lemma {:induction false} LinesAt(jobs: seq<Job>, unescape: string -> string)
    ensures |Lines(jobs, unescape)| == |jobs|
    ensures forall k :: 0 <= k < |jobs| ==> Lines(jobs, unescape)[k] == Line(jobs[k], unescape)
  {
    if jobs != [] {
      LinesAt(jobs[..|jobs| - 1], unescape);
    }
  }

  /** The listing has the header and then exactly one line per job held,
      pending jobs first: line 1 + k shows the k-th job of Shown. */
  lemma {:induction false} ListingShowsEachJobOnce(s: Store, unescape: string -> string)
    ensures |Listing(s, unescape)| == 1 + |Shown(s)| == 1 + |All(s)|
    ensures Listing(s, unescape)[0] == Header
    ensures forall k :: 0 <= k < |Shown(s)| ==> Listing(s, unescape)[1 + k] == Line(Shown(s)[k], unescape)
  {
    LinesAt(s.pending, unescape);
    LinesAt(s.leased, unescape);
    var listing := Listing(s, unescape);
    forall k | 0 <= k < |Shown(s)|
      ensures listing[1 + k] == Line(Shown(s)[k], unescape)
    {
      if k < |s.pending| {
        assert listing[1 + k] == Lines(s.pending, unescape)[k];
      } else {
        assert listing[1 + k] == Lines(s.leased, unescape)[k - |s.pending|];
      }
    }
  }

  /** The coordinator's state: `queue` holds pending jobs and `popped` the
      leased ones (`poped_queue` in the source). */
  class Server {
    var queue: seq<Job>
    var popped: seq<Job>

    function State(): Store
      reads this
    {
      Store(queue, popped)
    }

    ghost predicate Valid()
      reads this
    {
      JobStore.Valid(State())
    }

    /** Both slices start empty. */
    constructor ()
      ensures State() == Empty && Valid()
    {
      queue := [];
      popped := [];
    }

    /** /addJob: only POST (405), only with a verified client chain (401),
        only with a readable body (400); then the body becomes the command of
        a new "waiting" job with id |queue| + |popped|, appended to `queue`,
        and the answer is 201. */
    method HandleAddJob(r: Request) returns (code: int)
      modifies this
      ensures r.verb != MethodPost ==> code == StatusMethodNotAllowed
      ensures r.verb == MethodPost && !HasVerifiedChain(r) ==> code == StatusUnauthorized
      ensures r.verb == MethodPost && HasVerifiedChain(r) && r.body.None? ==> code == StatusBadRequest
      ensures code == StatusCreated <==> r.verb == MethodPost && HasVerifiedChain(r) && r.body.Some?
      ensures code == StatusCreated ==>
        && queue == old(queue) + [Job(old(|queue| + |popped|), r.body.value, Waiting)]
        && popped == old(popped)
        && State() == Submit(old(State()), r.body.value)
      ensures code != StatusCreated ==> State() == old(State())
      ensures old(Valid()) ==> Valid()
    {
      if r.verb != MethodPost {
        return StatusMethodNotAllowed;
      }
      if r.tls.None? || r.tls.value.verifiedChains == 0 {
        return StatusUnauthorized;
      }
      if r.body.None? {
        return StatusBadRequest;
      }
      ghost var before := State();
      var j := Job(|queue| + |popped|, r.body.value, Waiting);
      queue := queue + [j];
      if JobStore.Valid(before) {
        SubmitAppends(before, r.body.value);
      }
      code := StatusCreated;
    }

    /** /showQueue: only GET (405); otherwise 200 and the listing: the
        header, one line per job of `queue`, then one per job of `popped`. */
    method HandleShowQueue(r: Request, unescape: string -> string) returns (code: int, out: seq<ListingLine>)
      ensures r.verb != MethodGet ==> code == StatusMethodNotAllowed && out == []
      ensures r.verb == MethodGet ==> code == StatusOK && out == Listing(State(), unescape)
    {
      if r.verb != MethodGet {
        return StatusMethodNotAllowed, [];
      }
      var pending, leased := queue, popped;
      out := [Header];
      for i := 0 to |pending|
        invariant out == [Header] + Lines(pending[..i], unescape)
      {
        assert pending[..i + 1][..i] == pending[..i];
        out := out + [Line(pending[i], unescape)];
      }
      assert pending[..|pending|] == pending;
      for i := 0 to |leased|
        invariant out == [Header] + Lines(pending, unescape) + Lines(leased[..i], unescape)
      {
        assert leased[..i + 1][..i] == leased[..i];
        out := out + [Line(leased[i], unescape)];
      }
      assert leased[..|leased|] == leased;
      code := StatusOK;
    }

    /** /getJob: only over TLS (401); an empty `queue` answers 204; otherwise
        the head of `queue` moves, unchanged, to the end of `popped` and is
        sent back with 200. */
    method HandleGetJob(r: Request) returns (code: int, sent: Option<Job>)
      modifies this
      ensures r.tls.None? ==> code == StatusUnauthorized
      ensures r.tls.Some? && old(queue) == [] ==> code == StatusNoContent
      ensures code == StatusOK <==> r.tls.Some? && old(queue) != []
      ensures code == StatusOK ==>
        && sent == Some(old(queue)[0])
        && queue == old(queue)[1..]
        && popped == old(popped) + [old(queue)[0]]
        && (State(), sent) == Lease(old(State()))
      ensures code != StatusOK ==> sent == None && State() == old(State())
      ensures old(Valid()) ==> Valid()
    {
      if r.tls.None? {
        return StatusUnauthorized, None;
      }
      if |queue| == 0 {
        return StatusNoContent, None;
      }
      ghost var before := State();
      var j := queue[0];
      queue := queue[1..];
      popped := popped + [j];
      if JobStore.Valid(before) {
        LeaseMovesHead(before);
      }
      code, sent := StatusOK, Some(j);
    }

    /** /applyJobState: only over TLS (401); a body that does not scan as
        "%d %s" answers 400; otherwise the first job of `popped` with that id
        gets the scanned status, whatever it is, and the answer is 200 even
        when no leased job has that id. */
    method HandleApplyJobState(r: Request) returns (code: int)
      modifies this
      ensures r.tls.None? ==> code == StatusUnauthorized
      ensures r.tls.Some? && (r.body.None? || ScanIntString(r.body.value).None?) ==> code == StatusBadRequest
      ensures code == StatusOK <==> r.tls.Some? && r.body.Some? && ScanIntString(r.body.value).Some?
      ensures r.tls.Some? && r.body.Some? ==> State() == Deliver(old(State()), r.body.value)
      ensures code != StatusOK ==> State() == old(State())
      ensures old(Valid()) ==> Valid()
    {
      if r.tls.None? {
        return StatusUnauthorized;
      }
      if r.body.None? {
        return StatusBadRequest;
      }
      var parsed := ScanIntString(r.body.value);
      if parsed.None? {
        return StatusBadRequest;
      }
      var id, status := parsed.value.0, parsed.value.1;
      ghost var before := State();
      SetLeasedStatus(id, status);
      assert Deliver(before, r.body.value) == Report(before, id, status);
      code := StatusOK;
    }

    /** The search loop of /applyJobState: the first job of `popped` with
        `id`, if any, gets `status`; the loop stops there. */
    method SetLeasedStatus(id: int, status: string)
      modifies this
      ensures State() == Report(old(State()), id, status)
      ensures old(Valid()) ==> Valid()
    {
      ghost var before := State();
      for i := 0 to |popped|
        invariant popped == before.leased && queue == before.pending
        invariant forall k :: 0 <= k < i ==> popped[k].id != id
      {
        if popped[i].id == id {
          assert IndexOf(before.leased, id) == i;
          popped := popped[i := popped[i].(status := status)];
          break;
        }
      }
      if JobStore.Valid(before) {
        ReportSetsLeasedStatus(before, id, status);
      }
    }
  }
}

/** The coordinator's job state as a value: the pending slice `queue` and the
    leased slice `poped_queue` of server/server.go, and the effect of each
    handler on them. The class in module Coordinator is proved against these
    functions; the lemmas here state what the handlers guarantee. */
module JobStore {
  import opened Wrappers

  const Waiting: string := "waiting"
  const Running: string := "running"
  const Done: string := "done"
  const Failed: string := "failed"

  /** The `job` record shared by coordinator and worker. */
  datatype Job = Job(id: int, command: string, status: string)

  /** `pending` is the coordinator's `queue`, `leased` its `poped_queue`. */
  datatype Store = Store(pending: seq<Job>, leased: seq<Job>)

  const Empty: Store := Store([], [])

  /** Every job the store holds, oldest submission first. */
  function All(s: Store): seq<Job> {
    s.leased + s.pending
  }

  /** The order in which the listing prints the jobs: pending ones first. */
  function Shown(s: Store): seq<Job> {
    s.pending + s.leased
  }

  /** The store invariant: the ids of leased ++ pending are 0, 1, ..., n-1 in
      that order, and every job still pending has status "waiting". */
  ghost predicate Valid(s: Store) {
    (forall k :: 0 <= k < |s.leased| ==> s.leased[k].id == k)
    && (forall k :: 0 <= k < |s.pending| ==> s.pending[k].id == |s.leased| + k)
    && (forall k :: 0 <= k < |s.pending| ==> s.pending[k].status == Waiting)
  }

  /** Submission: a new "waiting" job whose id is the number of jobs held. */
  function Submit(s: Store, command: string): Store {
    var j := Job(|s.pending| + |s.leased|, command, Waiting);
    s.(pending := s.pending + [j])
  }

  /** Lease: move the head of `pending`, unchanged, to the end of `leased`. */
  function Lease(s: Store): (Store, Option<Job>) {
    if s.pending == [] then (s, None)
    else (Store(s.pending[1..], s.leased + [s.pending[0]]), Some(s.pending[0]))
  }

  /** The first position in `jobs` holding `id`, or |jobs| if there is none. */
  function IndexOf(jobs: seq<Job>, id: int): (i: nat)
    ensures i <= |jobs|
    ensures forall k :: 0 <= k < i ==> jobs[k].id != id
    ensures i < |jobs| ==> jobs[i].id == id
  {
    if jobs == [] then 0
    else if jobs[0].id == id then 0
    else 1 + IndexOf(jobs[1..], id)
  }

  /** Report: overwrite the status of the first leased job with `id`; any
      status string is accepted and an id not leased leaves the store as is. */
  function Report(s: Store, id: int, status: string): Store {
    var i := IndexOf(s.leased, id);
    if i == |s.leased| then s
    else s.(leased := s.leased[i := s.leased[i].(status := status)])
  }

  // ---------------------------------------------------------------------
  // The invariant and what follows from it

  lemma EmptyValid()
    ensures Valid(Empty) && All(Empty) == []
  {
  }

  /** Under the invariant the id of a job is its position in All. */
  lemma {:induction false} IdsArePositions(s: Store)
    requires Valid(s)
    ensures forall k :: 0 <= k < |All(s)| ==> All(s)[k].id == k
  {
    forall k | 0 <= k < |All(s)|
      ensures All(s)[k].id == k
    {
      if k < |s.leased| {
        assert All(s)[k] == s.leased[k];
      } else {
        assert All(s)[k] == s.pending[k - |s.leased|];
      }
    }
  }

  /** Ids are unique, and every leased id is below every pending id. */
  lemma {:induction false} IdsUnique(s: Store)
    requires Valid(s)
    ensures forall i, j :: 0 <= i < j < |All(s)| ==> All(s)[i].id < All(s)[j].id
    ensures forall i, j :: 0 <= i < |s.leased| && 0 <= j < |s.pending| ==> s.leased[i].id < s.pending[j].id
  {
    IdsArePositions(s);
  }

  /** Submission appends one "waiting" job carrying the raw command to the end
      of `pending`, touches nothing else, and gives it an id larger than every
      id already held, so it cannot collide with one. */
  lemma SubmitAppends(s: Store, command: string)
    requires Valid(s)
    ensures var t := Submit(s, command);
      && t.leased == s.leased
      && |t.pending| == |s.pending| + 1
      && t.pending[..|s.pending|] == s.pending
      && t.pending[|s.pending|] == Job(|All(s)|, command, Waiting)
      && (forall k :: 0 <= k < |All(s)| ==> All(s)[k].id < t.pending[|s.pending|].id)
      && Valid(t)
      && All(t) == All(s) + [t.pending[|s.pending|]]
  {
    IdsArePositions(s);
  }

  /** Lease on an empty `pending` changes nothing and hands out nothing. */
  lemma LeaseEmpty(s: Store)
    requires s.pending == []
    ensures Lease(s) == (s, None)
  {
  }

  /** Lease hands out the head of `pending` with its status untouched (so
      "waiting" under the invariant, not "running"), moves it to the end of
      `leased`, and keeps the set and the order of all jobs. */
  lemma LeaseMovesHead(s: Store)
    requires Valid(s) && s.pending != []
    ensures var (t, got) := Lease(s);
      && got == Some(s.pending[0])
      && got.value.status == Waiting
      && got.value.id == |s.leased|
      && t.pending == s.pending[1..]
      && t.leased == s.leased + [s.pending[0]]
      && All(t) == All(s)
      && Valid(t)
      && (forall k :: 0 <= k < |t.pending| ==> t.pending[k].id != got.value.id)
  {
    var t := Lease(s).0;
    assert All(t) == s.leased + ([s.pending[0]] + s.pending[1..]);
    assert [s.pending[0]] + s.pending[1..] == s.pending;
  }

  /** Under the invariant, Report(id, status) sets the status of the leased
      job with that id and nothing else; for any other id (a pending one or
      one never issued) the store is unchanged. */
  lemma {:induction false} ReportSetsLeasedStatus(s: Store, id: int, status: string)
    requires Valid(s)
    ensures var t := Report(s, id, status);
      && t.pending == s.pending
      && |t.leased| == |s.leased|
      && (0 <= id < |s.leased| ==>
            t.leased[id] == s.leased[id].(status := status)
            && forall k :: 0 <= k < |s.leased| && k != id ==> t.leased[k] == s.leased[k])
      && (!(0 <= id < |s.leased|) ==> t == s)
      && Valid(t)
  {
    var i := IndexOf(s.leased, id);
    if 0 <= id < |s.leased| {
      assert s.leased[id].id == id;
      assert i == id;
    } else {
      assert i == |s.leased|;
    }
  }

  /** A lease followed by two reports for the leased job: each report sets
      that job's status in turn, and no other job changes. */
  lemma {:induction false} LeaseThenReports(s: Store, first: string, second: string)
    requires Valid(s) && s.pending != []
    ensures var id := |s.leased|;
      var u := Report(Lease(s).0, id, first);
      var w := Report(u, id, second);
      && u.leased[id] == s.pending[0].(status := first)
      && w.leased[id] == s.pending[0].(status := second)
      && w.pending == s.pending[1..]
      && |w.leased| == |s.leased| + 1
      && (forall k :: 0 <= k < |s.leased| ==> w.leased[k] == s.leased[k])
      && Valid(w)
  {
    var id := |s.leased|;
    LeaseMovesHead(s);
    var t := Lease(s).0;
    ReportSetsLeasedStatus(t, id, first);
    var u := Report(t, id, first);
    ReportSetsLeasedStatus(u, id, second);
  }

  /** Reporting the same pair twice leaves the same store as reporting it once. */
  lemma {:induction false} ReportIdempotent(s: Store, id: int, status: string)
    ensures Report(Report(s, id, status), id, status) == Report(s, id, status)
  {
    var t := Report(s, id, status);
    var i := IndexOf(s.leased, id);
    if i < |s.leased| {
      assert forall k :: 0 <= k < |s.leased| ==> t.leased[k].id == s.leased[k].id;
      assert IndexOf(t.leased, id) == i;
      assert t.leased[i := t.leased[i].(status := status)] == t.leased;
    }
  }

  /** The listing prints every job held exactly once: `Shown` is a
      rearrangement of `All`. */
  lemma ShownIsPermutation(s: Store)
    ensures |Shown(s)| == |All(s)|
    ensures multiset(Shown(s)) == multiset(All(s))
  {
  }

  /** The listing is not in id order once a job has been leased while another
      is pending: its first line shows a larger id than a later line. */
  lemma {:induction false} ShownNotInIdOrder(s: Store)
    requires Valid(s) && s.pending != [] && s.leased != []
    ensures Shown(s)[0].id > Shown(s)[|s.pending|].id
  {
    assert Shown(s)[0] == s.pending[0];
    assert Shown(s)[|s.pending|] == s.leased[0];
  }

  // ---------------------------------------------------------------------
  // Runs of operations: identity, FIFO lease order, at-most-once lease

  datatype Op = SubmitOp(command: string) | LeaseOp | ReportOp(id: int, status: string)

  /** One successful handler call on the store, with the job a lease returns. */
  function Apply(s: Store, op: Op): (Store, Option<Job>) {
    match op
    case SubmitOp(c) => (Submit(s, c), None)
    case LeaseOp => Lease(s)
    case ReportOp(id, st) => (Report(s, id, st), None)
  }

  /** The command an operation submits, if it is a submission. */
  function SubmittedBy(op: Op): seq<string> {
    if op.SubmitOp? then [op.command] else []
  }

  /** The job a lease returned, as a sequence of zero or one job. */
  function Returned(got: Option<Job>): seq<Job> {
    if got.Some? then [got.value] else []
  }

  /** A run of operations from `s`: the final store and, in order, the jobs
      the leases returned. */
  function Exec(s: Store, ops: seq<Op>): (Store, seq<Job>)
    decreases |ops|
  {
    if ops == [] then (s, [])
    else
      var step := Apply(s, ops[0]);
      var rest := Exec(step.0, ops[1..]);
      (rest.0, Returned(step.1) + rest.1)
  }

  /** The commands submitted by a run, in order. */
  function Submitted(ops: seq<Op>): seq<string> {
    if ops == [] then [] else SubmittedBy(ops[0]) + Submitted(ops[1..])
  }

  /** The commands of `jobs`, in order. */
  function Commands(jobs: seq<Job>): seq<string> {
    seq(|jobs|, k requires 0 <= k < |jobs| => jobs[k].command)
  }

  /** `got` are leases returned one after another starting at position
      `base`: consecutive ids, still "waiting", with the commands held there. */
  ghost predicate LeasedFrom(got: seq<Job>, base: nat, cmds: seq<string>) {
    && base + |got| <= |cmds|
    && forall k :: 0 <= k < |got| ==>
         got[k].id == base + k && got[k].status == Waiting && got[k].command == cmds[base + k]
  }

  /** One operation, valid store or not, appends only the submitted command
      to the commands held (nothing is removed or reordered), and a lease
      adds one job to `leased`. */
  lemma {:induction false} ApplyKeepsCommands(s: Store, op: Op)
    ensures Commands(All(Apply(s, op).0)) == Commands(All(s)) + SubmittedBy(op)
    ensures |Apply(s, op).0.leased| == |s.leased| + |Returned(Apply(s, op).1)|
  {
    var t := Apply(s, op).0;
    match op
    case SubmitOp(c) =>
      assert All(t) == All(s) + [t.pending[|s.pending|]];
    case LeaseOp =>
      if s.pending != [] {
        assert All(t) == s.leased + ([s.pending[0]] + s.pending[1..]);
        assert [s.pending[0]] + s.pending[1..] == s.pending;
      }
    case ReportOp(id, st) =>
      assert forall k :: 0 <= k < |All(s)| ==> All(t)[k].command == All(s)[k].command;
  }

  /** One operation keeps the invariant, and a lease returns the job at
      position |leased|, still "waiting". */
  lemma ApplyKeepsValid(s: Store, op: Op)
    requires Valid(s)
    ensures Valid(Apply(s, op).0)
    ensures LeasedFrom(Returned(Apply(s, op).1), |s.leased|, Commands(All(s)))
  {
    match op
    case SubmitOp(c) =>
      SubmitAppends(s, c);
    case LeaseOp =>
      if s.pending != [] {
        LeaseMovesHead(s);
        assert All(s)[|s.leased|] == s.pending[0];
      }
    case ReportOp(id, st) =>
      ReportSetsLeasedStatus(s, id, st);
  }

  lemma LeasedFromGrow(got: seq<Job>, base: nat, cmds: seq<string>, more: seq<string>)
    requires LeasedFrom(got, base, cmds)
    ensures LeasedFrom(got, base, cmds + more)
  {
    assert forall k :: 0 <= k < |cmds| ==> (cmds + more)[k] == cmds[k];
  }

  lemma LeasedFromJoin(first: seq<Job>, later: seq<Job>, base: nat, cmds: seq<string>)
    requires LeasedFrom(first, base, cmds) && LeasedFrom(later, base + |first|, cmds)
    ensures LeasedFrom(first + later, base, cmds)
  {
    forall k | 0 <= k < |first + later|
      ensures (first + later)[k].id == base + k
      ensures (first + later)[k].status == Waiting
      ensures (first + later)[k].command == cmds[base + k]
    {
      if k >= |first| {
        assert (first + later)[k] == later[k - |first|];
      }
    }
  }

  /** Over any run the commands held grow exactly by the submitted ones
      (nothing is removed or reordered), and each lease adds one job to
      `leased`. */
  lemma {:induction false} ExecKeepsJobs(s: Store, ops: seq<Op>)
    ensures Commands(All(Exec(s, ops).0)) == Commands(All(s)) + Submitted(ops)
    ensures |Exec(s, ops).0.leased| == |s.leased| + |Exec(s, ops).1|
    decreases |ops|
  {
    if ops != [] {
      var t1 := Apply(s, ops[0]).0;
      ApplyKeepsCommands(s, ops[0]);
      ExecKeepsJobs(t1, ops[1..]);
      assert Commands(All(s)) + SubmittedBy(ops[0]) + Submitted(ops[1..])
          == Commands(All(s)) + Submitted(ops);
    }
  }

  /** Over any run from a valid store the invariant holds at the end. */
  lemma {:induction false} ExecKeepsValid(s: Store, ops: seq<Op>)
    requires Valid(s)
    ensures Valid(Exec(s, ops).0)
    decreases |ops|
  {
    if ops != [] {
      ApplyKeepsValid(s, ops[0]);
      ExecKeepsValid(Apply(s, ops[0]).0, ops[1..]);
    }
  }

  /** Over any run from a valid store, the k-th lease returns the job at
      position |leased| + k, "waiting", with the command held or submitted
      at that position. Consecutive leases thus return consecutive ids in
      submission order, and no job is returned twice. */
  lemma {:induction false} ExecLeasesInOrder(s: Store, ops: seq<Op>)
    requires Valid(s)
    ensures LeasedFrom(Exec(s, ops).1, |s.leased|, Commands(All(s)) + Submitted(ops))
    decreases |ops|
  {
    if ops != [] {
      var t1 := Apply(s, ops[0]).0;
      var first := Returned(Apply(s, ops[0]).1);
      var later := Exec(t1, ops[1..]).1;
      var c0 := Commands(All(s));
      ApplyKeepsValid(s, ops[0]);
      ApplyKeepsCommands(s, ops[0]);
      ExecLeasesInOrder(t1, ops[1..]);
      assert c0 + SubmittedBy(ops[0]) + Submitted(ops[1..]) == c0 + Submitted(ops);
      LeasedFromGrow(first, |s.leased|, c0, Submitted(ops));
      LeasedFromJoin(first, later, |s.leased|, c0 + Submitted(ops));
    }
  }

  /** FIFO from the empty store: the k-th lease returns id k and the k-th
      submitted command, so no two leases return the same job. */
  lemma {:induction false} LeasesFollowSubmissionOrder(ops: seq<Op>)
    ensures var got := Exec(Empty, ops).1;
      && |got| <= |Submitted(ops)|
      && (forall k :: 0 <= k < |got| ==> got[k].id == k && got[k].command == Submitted(ops)[k])
      && (forall i, j :: 0 <= i < j < |got| ==> got[i].id < got[j].id)
  {
    EmptyValid();
    ExecLeasesInOrder(Empty, ops);
    assert Commands(All(Empty)) + Submitted(ops) == Submitted(ops);
    assert LeasedFrom(Exec(Empty, ops).1, 0, Submitted(ops));
  }
}

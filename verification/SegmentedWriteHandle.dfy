/** The segmented part of the insert protocol as the code runs it: a process table whose entries hold
    a credit counter, a queue of block ids to send and a map of retry counts, all updated in place.

    Every process is proved to simulate a run of FetchSession: the ghost map `traces` records the
    command and the answers each process has seen, and Valid ties the process, its outstanding
    interests and its stores to the session that trace reaches. */
module SegmentedWriteHandle {
  import opened Wrappers
  import opened Intervals
  import opened FetchSession
  import FetchProperties

  const ACCEPTED: nat := 100
  const MALFORMED: nat := 403
  const NO_SUCH_PROCESS: nat := 404

  datatype ProcessInfo = ProcessInfo(
    status: nat,
    insertNum: nat,
    startBlockId: nat,
    endBlockId: Option<nat>,
    nextSegmentQueue: seq<nat>,
    nextSegment: nat,
    retryCounts: map<nat, nat>,
    credit: int,
    noEndTime: int)

  /** What the face, the storage and the scheduler have seen of one process. */
  datatype Wire = Wire(
    outstanding: set<nat>,
    expressed: seq<nat>,
    stored: seq<nat>,
    deletionScheduled: bool)

  datatype Response = Response(status: nat, insertNum: nat, startBlockId: Option<nat>, endBlockId: Option<nat>)

  /** A process's history: its command and the events since. */
  datatype Trace = Trace(start: nat, end: Option<nat>, now: int, events: seq<Event>) {
    ghost predicate Legal() {
      (end.Some? ==> start <= end.value) && ValidRun(Begin(start, end, now), events)
    }

    ghost function Session(): Session
      requires Legal()
    {
      Run(Begin(start, end, now), events)
    }

    ghost function Then(e: Event): Trace {
      Trace(start, end, now, events + [e])
    }
  }

  lemma TraceGrows(t: Trace, e: Event)
    requires t.Legal() && Enabled(t.Session(), e)
    ensures t.Then(e).Legal() && t.Then(e).Session() == Step(t.Session(), e)
  {
    RunAppend(Begin(t.start, t.end, t.now), t.events, e);
  }

  /** Every trace keeps the accounts of the protocol. */
  lemma TraceIsSound(t: Trace)
    requires t.Legal()
    ensures Core(t.Session())
  {
    FetchProperties.Reachable(t.start, t.end, t.now, t.events);
  }

  /** The credit a process must hold: its window less what is outstanding and what was rejected. */
  ghost function Credit(s: Session): int {
    s.window - |s.pending.Keys| - |s.rejected|
  }

  /** The counters, queue and retry map of a process, against the session it simulates. `held` is the
      credit that an answer has freed but the control step has not returned yet. */
  ghost predicate Tracks(p: ProcessInfo, s: Session, held: nat) {
    && p.status == s.status
    && p.insertNum == |s.inserted|
    && p.startBlockId == s.start
    && p.endBlockId == s.end
    && (s.end.None? ==> p.noEndTime == s.deadline)
    && p.credit + held == Credit(s)
    && (forall x: nat :: x in s.pending ==> x in p.retryCounts && p.retryCounts[x] == s.pending[x])
    && (forall x: nat :: x in p.retryCounts ==> x < s.frontier)
    && (p.nextSegmentQueue == [] || p.nextSegmentQueue == [p.nextSegment])
    && (p.nextSegmentQueue == [] ==> s.end.Some? && s.end.value < s.frontier)
    && (p.nextSegmentQueue != [] ==> p.nextSegment == s.frontier)
  }

  ghost predicate Shows(w: Wire, s: Session) {
    && w.outstanding == s.pending.Keys
    && w.expressed == s.requests
    && (forall x: nat :: x in w.stored <==> x in s.inserted)
    && |w.stored| == |s.inserted|
    && (forall i, j :: 0 <= i < j < |w.stored| ==> w.stored[i] != w.stored[j])
    && w.deletionScheduled == s.deleting
  }

  /** A process whose answered segment is accepted and counted, and whose credit is still to be returned. */
  ghost predicate AtControl(p: ProcessInfo, w: Wire, segment: nat, s: Session) {
    && Partition(s) && |s.pending.Keys| + |s.rejected| < s.window
    && Tracks(p, s, 1) && Shows(w, s)
    && segment in p.retryCounts && segment !in s.pending
  }

  function At<T>(m: map<nat, T>, pid: nat): Option<T> {
    if pid in m then Some(m[pid]) else None
  }

  /** A process, if it is still in the table, and its wire show the session s. */
  ghost predicate Simulates(p: Option<ProcessInfo>, w: Wire, s: Session) {
    && Shows(w, s)
    && (s.alive <==> p.Some?)
    && (p.Some? ==> Tracks(p.value, s, 0))
  }

  /** Two tables agree on every process but pid. */
  ghost predicate SameExcept<T>(a: map<nat, T>, b: map<nat, T>, pid: nat) {
    forall q: nat :: q != pid ==> At(a, q) == At(b, q)
  }

  /** A process is where its trace says it is. */
  ghost predicate InStep(p: Option<ProcessInfo>, w: Wire, t: Trace) {
    t.Legal() && Simulates(p, w, t.Session())
  }

  /** A process and its wire after event e, which its trace does not have yet. */
  ghost predicate Follows(p: Option<ProcessInfo>, w: Wire, t: Trace, e: Event)
    requires t.Legal() && Enabled(t.Session(), e)
  {
    Simulates(p, w, Step(t.Session(), e))
  }

  /** p holds of every process that ever was, as its tables show it. */
  ghost predicate Everywhere(p: (Option<ProcessInfo>, Wire, Trace) -> bool,
                             processes: map<nat, ProcessInfo>, wires: map<nat, Wire>, traces: map<nat, Trace>) {
    && (forall pid: nat :: pid in traces <==> pid in wires)
    && (forall pid: nat :: pid in processes ==> pid in traces)
    && (forall pid: nat :: pid in traces && pid in wires ==> p(At(processes, pid), wires[pid], traces[pid]))
  }

  /** A handler that touches one process leaves every other one where it was. */
  lemma OthersStay(p: (Option<ProcessInfo>, Wire, Trace) -> bool,
                   processes: map<nat, ProcessInfo>, wires: map<nat, Wire>, traces: map<nat, Trace>,
                   processes': map<nat, ProcessInfo>, wires': map<nat, Wire>, traces': map<nat, Trace>, pid: nat)
    requires Everywhere(p, processes, wires, traces)
    requires SameExcept(processes', processes, pid) && SameExcept(wires', wires, pid)
    requires SameExcept(traces', traces, pid)
    requires pid in traces' && pid in wires' && p(At(processes', pid), wires'[pid], traces'[pid])
    ensures Everywhere(p, processes', wires', traces')
  {
    forall q: nat
      ensures (q in traces' <==> q in wires') && (q in processes' ==> q in traces')
    {
      if q != pid {
        assert At(processes', q) == At(processes, q);
        assert At(wires', q) == At(wires, q) && At(traces', q) == At(traces, q);
      }
    }
    forall q: nat | q in traces' && q in wires'
      ensures p(At(processes', q), wires'[q], traces'[q])
    {
      if q != pid {
        assert At(processes', q) == At(processes, q);
        assert At(wires', q) == At(wires, q) && At(traces', q) == At(traces, q);
      }
    }
  }

  /** What the face has seen once the block ids in [lo, hi) were requested, and nothing else happened. */
  ghost function Opened(lo: nat, hi: nat): Wire {
    Wire(FirstTries(lo, hi).Keys, Ascending(lo, hi), [], false)
  }

  lemma OpenedGrows(lo: nat, hi: nat)
    requires lo <= hi
    ensures Opened(lo, lo) == Wire({}, [], [], false)
    ensures Opened(lo, hi + 1) == Wire(Opened(lo, hi).outstanding + {hi}, Opened(lo, hi).expressed + [hi], [], false)
  {
    assert FirstTries(lo, lo).Keys == {};
    assert FirstTries(lo, hi + 1).Keys == FirstTries(lo, hi).Keys + {hi};
  }

  /** The state SegInit leaves is the one FetchSession begins with. */
  lemma BeginSimulated(p: ProcessInfo, start: nat, end: Option<nat>, now: int)
    requires end.Some? ==> start <= end.value
    requires var first := start + InitialWindow(start, end);
             && p == ProcessInfo(IN_PROGRESS, 0, start, end, [first], first, FirstTries(start, first), 0, p.noEndTime)
             && (end.None? ==> p.noEndTime == now + NOEND_TIMEOUT)
    ensures Tracks(p, Begin(start, end, now), 0)
    ensures Shows(Opened(start, start + InitialWindow(start, end)), Begin(start, end, now))
  {
    FirstTriesFacts(start, start + InitialWindow(start, end));
  }

  /** A fresh process: the ids from the start on are outstanding, twelve of them unless the end comes first,
      all credit is spent, and the next id waits in the queue. */
  ghost predicate Opens(p: ProcessInfo, w: Wire, start: nat, end: Option<nat>) {
    && p.status == 300 && p.insertNum == 0 && p.credit == 0 && p.startBlockId == start && p.endBlockId == end
    && (forall x: nat :: x in w.outstanding <==> start <= x < start + 12 && (end.Some? ==> x <= end.value))
    && p.nextSegmentQueue == [if end.Some? && end.value < start + 12 then end.value + 1 else start + 12]
    && w.stored == [] && !w.deletionScheduled
  }

  lemma BeginOpens(p: ProcessInfo, start: nat, end: Option<nat>)
    requires end.Some? ==> start <= end.value
    requires var first := start + InitialWindow(start, end);
             p == ProcessInfo(IN_PROGRESS, 0, start, end, [first], first, FirstTries(start, first), 0, p.noEndTime)
    ensures Opens(p, Opened(start, start + InitialWindow(start, end)), start, end)
  {
    FirstTriesFacts(start, start + InitialWindow(start, end));
  }

  /** Learning the end, storing and counting simulate Accept, with one credit still to be returned. */
  lemma AcceptSimulated(s: Session, e: Event, p: ProcessInfo, w: Wire)
    requires Core(s) && s.alive && e.Data? && Enabled(s, e) && Simulates(Some(p), w, s)
    ensures var t := Accept(s, e.seg, e.final, e.stored, e.now);
            t.alive && t.clock == e.now && AtControl(Taken(p, e), Took(w, e), e.seg, t)
  {
    AcceptCore(s, e);
    Answered(s.pending, e.seg);
    assert e.seg !in s.inserted;
  }

  /** A process and its wire once a segment is stored and counted, before the control step. */
  function Taken(p: ProcessInfo, e: Event): ProcessInfo
    requires e.Data?
  {
    p.(endBlockId := Learn(p.endBlockId, e.final), insertNum := p.insertNum + if e.stored then 1 else 0)
  }

  function Took(w: Wire, e: Event): Wire
    requires e.Data?
  {
    w.(outstanding := w.outstanding - {e.seg}, stored := w.stored + if e.stored then [e.seg] else [])
  }

  /** Taking the segment and the control step after it follow the session's data step. */
  lemma DataFollows(t: Trace, e: Event, p: ProcessInfo, w: Wire)
    requires InStep(Some(p), w, t) && e.Data? && Enabled(t.Session(), e)
    ensures Ready(Taken(p, e), e.seg)
    ensures Follows(Some(Controlled(Taken(p, e), e.seg, e.now)), Signalled(Taken(p, e), Took(w, e), e.now), t, e)
  {
    TraceIsSound(t);
    AcceptSimulated(t.Session(), e, p, w);
    var s := Accept(t.Session(), e.seg, e.final, e.stored, e.now);
    ControlReady(s, e.seg, Taken(p, e), Took(w, e));
    ControlSimulated(s, e.seg, Taken(p, e), Took(w, e));
    ControlFollows(t, e, Controlled(Taken(p, e), e.seg, e.now), Signalled(Taken(p, e), Took(w, e), e.now));
  }

  lemma ControlFollows(t: Trace, e: Event, p: ProcessInfo, w: Wire)
    requires t.Legal() && e.Data? && Enabled(t.Session(), e) && t.Session().alive
    requires var s := Accept(t.Session(), e.seg, e.final, e.stored, e.now);
             Tracks(p, Advance(s), 0) && Shows(w, Advance(s))
    ensures Follows(Some(p), w, t, e)
  {
  }

  lemma RequestSimulated(s: Session)
    requires Partition(s)
    ensures s.frontier !in s.pending
    ensures s.pending[s.frontier := 0].Keys == s.pending.Keys + {s.frontier}
    ensures |s.pending[s.frontier := 0].Keys| == |s.pending.Keys| + 1
  {
    assert !Requested(s, s.frontier);
  }

  // ---- The control step on values ----

  /** What the control step relies on: some credit, a retry count for the answered block, and at most one
      block queued, which was never requested. */
  predicate Ready(p: ProcessInfo, segment: nat) {
    && p.credit >= 0 && segment in p.retryCounts
    && (p.nextSegmentQueue == [] || (p.nextSegmentQueue == [p.nextSegment] && p.nextSegment !in p.retryCounts))
  }

  predicate Late(p: ProcessInfo, now: int) {
    p.endBlockId.None? && now > p.noEndTime
  }

  predicate Finished(p: ProcessInfo) {
    p.endBlockId.Some? && p.insertNum >= p.endBlockId.value - p.startBlockId + 1
  }

  /** Nothing is sent: the queue is empty, or the id it yields lies beyond the end. */
  predicate Drained(p: ProcessInfo) {
    p.nextSegmentQueue == [] || (p.endBlockId.Some? && p.nextSegment > p.endBlockId.value)
  }

  /** What sending the queued id makes of a process; the next id is queued unless it lies beyond the end. */
  function Sent(p: ProcessInfo, segment: nat): ProcessInfo {
    var q := p.(retryCounts := (p.retryCounts - {segment})[p.nextSegment := 0]);
    if p.endBlockId.None? || p.nextSegment + 1 <= p.endBlockId.value
    then q.(nextSegment := p.nextSegment + 1, nextSegmentQueue := [p.nextSegment + 1])
    else q.(nextSegmentQueue := [])
  }

  function Controlled(p: ProcessInfo, segment: nat, now: int): ProcessInfo {
    if Late(p, now) then p.(credit := p.credit + 1, status := NO_END)
    else if Finished(p) then p.(credit := p.credit + 1, status := COMPLETE)
    else if Drained(p) then p.(credit := p.credit + 1, nextSegmentQueue := [])
    else Sent(p, segment)
  }

  function Signalled(p: ProcessInfo, w: Wire, now: int): Wire {
    if Late(p, now) || Finished(p) then w.(deletionScheduled := true)
    else if Drained(p) then w
    else w.(outstanding := w.outstanding + {p.nextSegment}, expressed := w.expressed + [p.nextSegment])
  }

  lemma ControlReady(s: Session, segment: nat, p: ProcessInfo, w: Wire)
    requires AtControl(p, w, segment, s)
    ensures Ready(p, segment)
  {
  }

  lemma EndSimulated(s: Session, segment: nat, p: ProcessInfo, w: Wire)
    requires AtControl(p, w, segment, s) && (Late(p, s.clock) || Finished(p))
    ensures Tracks(Controlled(p, segment, s.clock), Advance(s), 0) && Shows(Signalled(p, w, s.clock), Advance(s))
  {
  }

  lemma IdleSimulated(s: Session, segment: nat, p: ProcessInfo, w: Wire)
    requires AtControl(p, w, segment, s) && !Late(p, s.clock) && !Finished(p) && Drained(p)
    ensures Advance(s) == s
    ensures Tracks(p.(credit := p.credit + 1, nextSegmentQueue := []), s, 0)
  {
  }

  lemma SentRetries(pending: map<nat, nat>, counts: map<nat, nat>, next: nat, segment: nat)
    requires segment !in pending && next !in counts
    requires forall x: nat :: x in pending ==> x in counts && counts[x] == pending[x]
    requires forall x: nat :: x in counts ==> x < next
    ensures var sent := (counts - {segment})[next := 0];
            && (forall x: nat :: x in pending[next := 0] ==> x in sent && sent[x] == pending[next := 0][x])
            && (forall x: nat :: x in sent ==> x < next + 1)
  {
  }

  lemma SendTracked(s: Session, segment: nat, p: ProcessInfo)
    requires Partition(s) && s.alive && Tracks(p, s, 1) && segment !in s.pending && !Drained(p)
    requires !Late(p, s.clock) && !Finished(p)
    ensures Tracks(Sent(p, segment), Advance(s), 0)
  {
    RequestSimulated(s);
    SentRetries(s.pending, p.retryCounts, s.frontier, segment);
    assert Sent(p, segment).retryCounts == (p.retryCounts - {segment})[s.frontier := 0];
    assert Advance(s).pending == s.pending[s.frontier := 0];
  }

  lemma SendShown(s: Session, p: ProcessInfo, w: Wire)
    requires Partition(s) && s.alive && Tracks(p, s, 1) && Shows(w, s) && !Drained(p)
    requires !Late(p, s.clock) && !Finished(p)
    ensures Shows(w.(outstanding := w.outstanding + {p.nextSegment}, expressed := w.expressed + [p.nextSegment]),
                  Advance(s))
  {
    RequestSimulated(s);
  }

  /** The control step on the fields simulates Advance. */
  lemma ControlSimulated(s: Session, segment: nat, p: ProcessInfo, w: Wire)
    requires AtControl(p, w, segment, s) && s.alive
    ensures Tracks(Controlled(p, segment, s.clock), Advance(s), 0) && Shows(Signalled(p, w, s.clock), Advance(s))
  {
    if Late(p, s.clock) || Finished(p) {
      EndSimulated(s, segment, p, w);
    } else if Drained(p) {
      IdleSimulated(s, segment, p, w);
    } else {
      SendTracked(s, segment, p);
      SendShown(s, p, w);
    }
  }

  lemma ControlSimulatedBy(segment: nat, p: ProcessInfo, w: Wire, now: int)
    ensures forall s: Session :: AtControl(p, w, segment, s) && s.alive && s.clock == now ==>
              Tracks(Controlled(p, segment, now), Advance(s), 0) && Shows(Signalled(p, w, now), Advance(s))
  {
    forall s: Session | AtControl(p, w, segment, s) && s.alive && s.clock == now
      ensures Tracks(Controlled(p, segment, now), Advance(s), 0) && Shows(Signalled(p, w, now), Advance(s))
    {
      ControlSimulated(s, segment, p, w);
    }
  }

  /** The control step in plain terms: a credit comes back; an unknown end past its deadline gives up with
      405, a full count ends with 200, and otherwise the queued id is sent unless it lies beyond the end.
      Nothing is stored, and the deletion is scheduled in the first two cases only. */
  lemma ControlOutcome(p: ProcessInfo, w: Wire, segment: nat, now: int)
    requires Ready(p, segment)
    ensures var q, v := Controlled(p, segment, now), Signalled(p, w, now);
            && q.insertNum == p.insertNum && q.startBlockId == p.startBlockId && q.endBlockId == p.endBlockId
            && q.noEndTime == p.noEndTime && v.stored == w.stored
            && if p.endBlockId.None? && now > p.noEndTime then
                 q.status == 405 && v == w.(deletionScheduled := true) && q.credit == p.credit + 1
               else if p.endBlockId.Some? && p.insertNum >= p.endBlockId.value - p.startBlockId + 1 then
                 q.status == 200 && v == w.(deletionScheduled := true) && q.credit == p.credit + 1
               else if p.nextSegmentQueue == []
                       || (p.endBlockId.Some? && p.nextSegmentQueue[0] > p.endBlockId.value) then
                 q.status == p.status && v == w && q.credit == p.credit + 1 && q.nextSegmentQueue == []
               else
                 && q.status == p.status && v.deletionScheduled == w.deletionScheduled && q.credit == p.credit
                 && v.expressed == w.expressed + p.nextSegmentQueue
                 && q.retryCounts == (p.retryCounts - {segment})[p.nextSegmentQueue[0] := 0]
  {
  }

  /** What a status check makes of a process: an unknown end has its deadline renewed, or is found late. */
  function Checked(p: ProcessInfo, now: int): ProcessInfo {
    if p.endBlockId.Some? then p
    else if now > p.noEndTime then p.(status := 405)
    else p.(noEndTime := now + 10000)
  }

  // ---- The other events on values ----

  lemma ExpireFollows(t: Trace, p: Option<ProcessInfo>, w: Wire)
    requires InStep(p, w, t) && Enabled(t.Session(), Expire)
    ensures Follows(None, w, t, Expire)
  {
  }

  /** A process that left the table only loses the interests that are answered. */
  lemma GoneSimulated(s: Session, e: Event, w: Wire)
    requires !s.alive && e.Answer() && Enabled(s, e) && Shows(w, s)
    ensures Simulates(None, w.(outstanding := w.outstanding - {e.seg}), Step(s, e))
  {
    Answered(s.pending, e.seg);
  }

  lemma RejectSimulated(s: Session, seg: nat, p: Option<ProcessInfo>, w: Wire)
    requires seg in s.pending && seg !in s.rejected && Simulates(p, w, s)
    ensures Simulates(p, w.(outstanding := w.outstanding - {seg}), Step(s, Reject(seg)))
  {
    Answered(s.pending, seg);
  }

  lemma NotRejectedYet(s: Session, seg: nat)
    requires Core(s) && seg in s.pending
    ensures seg !in s.rejected && seg < s.frontier && s.pending[seg] <= RETRY_TIMEOUT
  {
    assert Requested(s, seg);
  }

  /** What a timeout makes of a process: one more retry, or nothing once its retries are spent. */
  function Retried(p: ProcessInfo, segment: nat): Option<ProcessInfo>
    requires segment in p.retryCounts
  {
    if p.retryCounts[segment] >= RETRY_TIMEOUT then None
    else Some(p.(retryCounts := p.retryCounts[segment := p.retryCounts[segment] + 1]))
  }

  function Resent(p: ProcessInfo, w: Wire, segment: nat): Wire
    requires segment in p.retryCounts
  {
    if p.retryCounts[segment] >= RETRY_TIMEOUT then w.(outstanding := w.outstanding - {segment})
    else w.(outstanding := w.outstanding - {segment} + {segment}, expressed := w.expressed + [segment])
  }

  lemma RetrySimulated(s: Session, seg: nat, p: ProcessInfo, w: Wire)
    requires s.alive && seg in s.pending && seg < s.frontier && s.pending[seg] < RETRY_TIMEOUT
    requires Tracks(p, s, 0) && Shows(w, s)
    ensures seg in p.retryCounts && Simulates(Retried(p, seg), Resent(p, w, seg), Step(s, Timeout(seg)))
  {
    assert Retry(s, seg).pending.Keys == s.pending.Keys;
  }

  lemma DropSimulated(s: Session, seg: nat, p: ProcessInfo, w: Wire)
    requires s.alive && seg in s.pending && s.pending[seg] >= RETRY_TIMEOUT
    requires Tracks(p, s, 0) && Shows(w, s)
    ensures seg in p.retryCounts && Simulates(Retried(p, seg), Resent(p, w, seg), Step(s, Timeout(seg)))
  {
    Answered(s.pending, seg);
  }

  /** A timeout on the fields simulates the session's. */
  lemma TimeoutSimulated(s: Session, seg: nat, p: ProcessInfo, w: Wire)
    requires Core(s) && s.alive && seg in s.pending && Tracks(p, s, 0) && Shows(w, s)
    ensures seg in p.retryCounts && Simulates(Retried(p, seg), Resent(p, w, seg), Step(s, Timeout(seg)))
  {
    NotRejectedYet(s, seg);
    if s.pending[seg] < RETRY_TIMEOUT {
      RetrySimulated(s, seg, p, w);
    } else {
      DropSimulated(s, seg, p, w);
    }
  }

  /** What the simulation buys for the fields themselves: with |s.rejected| answers refused by the
      validator, credit and outstanding interests add up to the window; both assertions on the retry map
      hold; fresh requests are gapless, and none is expressed more than four times. */
  lemma ProcessIsAccountedFor(t: Trace, p: ProcessInfo, w: Wire, x: nat)
    requires t.Legal() && t.Session().alive && Tracks(p, t.Session(), 0) && Shows(w, t.Session())
    ensures |w.outstanding| + p.credit + |t.Session().rejected| == InitialWindow(t.start, t.end) <= 12
    ensures p.credit >= 0
    ensures !w.deletionScheduled && (p.endBlockId.None? || t.Session().frontier <= p.endBlockId.value) ==>
              p.credit == 0 && |w.outstanding| + |t.Session().rejected| == 12
    ensures p.status == 200 || p.status == 300 || p.status == 405
    ensures w.outstanding <= p.retryCounts.Keys
    ensures FirstSeen(w.expressed) == Ascending(p.startBlockId, t.Session().frontier)
    ensures Times(w.expressed, x) <= 4
  {
    FetchProperties.FlowControl(t.start, t.end, t.now, t.events, x);
    FetchProperties.WindowStaysFull(t.start, t.end, t.now, t.events);
    FetchProperties.StartIsFixed(Begin(t.start, t.end, t.now), t.events);
    FetchProperties.Reachable(t.start, t.end, t.now, t.events);
    assert Windowed(t.Session());
  }

  /** A client that reads status 200 for the end it commanded knows what the storage holds: each block
      of its range, once. */
  lemma CompleteMeansStored(t: Trace, p: ProcessInfo, w: Wire)
    requires t.Legal() && Tracks(p, t.Session(), 0) && Shows(w, t.Session())
    requires t.end.Some? && p.endBlockId == t.end
    ensures p.status == 200 <==> forall x: nat :: x in w.stored <==> t.start <= x <= t.end.value
    ensures p.status == 200 ==> |w.stored| == p.insertNum == t.end.value - t.start + 1
  {
    FetchProperties.GivenRangeComplete(t.start, t.end.value, t.now, t.events);
    IntervalFacts(t.start, t.end.value + 1);
    var inserted := t.Session().inserted;
    if forall x: nat :: x in w.stored <==> t.start <= x <= t.end.value {
      assert inserted == Interval(t.start, t.end.value + 1);
    }
  }

  class WriteHandle {
    var processes: map<nat, ProcessInfo>
    var wires: map<nat, Wire>
    ghost var traces: map<nat, Trace>

    ghost predicate Valid()
      reads this
    {
      Everywhere(InStep, processes, wires, traces)
    }

    /** Whether event e can happen to process pid. */
    ghost predicate Possible(pid: nat, e: Event)
      reads this`traces
    {
      pid in traces && traces[pid].Legal() && Enabled(traces[pid].Session(), e)
    }

    constructor ()
      ensures Valid() && traces == map[]
    {
      processes, wires, traces := map[], map[], map[];
    }

    /** face.expressInterest for one block of process pid. */
    method Express(pid: nat, segment: nat)
      requires pid in wires
      modifies this`wires
      ensures wires == old(wires)[pid := old(wires[pid]).(outstanding := old(wires[pid]).outstanding + {segment},
                                                          expressed := old(wires[pid]).expressed + [segment])]
    {
      wires := wires[pid := wires[pid].(outstanding := wires[pid].outstanding + {segment},
                                        expressed := wires[pid].expressed + [segment])];
    }

    method DeferredDeleteProcess(pid: nat)
      requires pid in wires
      modifies this`wires
      ensures wires == old(wires)[pid := old(wires[pid]).(deletionScheduled := true)]
    {
      wires := wires[pid := wires[pid].(deletionScheduled := true)];
    }

    /** Opens the window: expresses the first interests and queues the block after them. */
    method SegInit(pid: nat, startBlockId: nat, endBlockId: Option<nat>, now: int)
      requires pid in processes && pid in wires
      requires endBlockId.Some? ==> startBlockId <= endBlockId.value
      requires wires[pid] == Wire({}, [], [], false)
      requires processes[pid] == ProcessInfo(IN_PROGRESS, 0, startBlockId, endBlockId, [], 0, map[], 0, 0)
      modifies this`processes, this`wires
      ensures pid in wires && pid in processes
      ensures InStep(At(processes, pid), wires[pid], Trace(startBlockId, endBlockId, now, []))
      ensures Opens(processes[pid], wires[pid], startBlockId, endBlockId)
      ensures SameExcept(processes, old(processes), pid) && SameExcept(wires, old(wires), pid)
    {
      var process := processes[pid].(credit := 0);
      var initialCredit := DEFAULT_CREDIT;
      if endBlockId.Some? {
        if endBlockId.value - startBlockId + 1 < initialCredit {
          initialCredit := endBlockId.value - startBlockId + 1;
        }
      } else {
        process := process.(noEndTime := now + NOEND_TIMEOUT);
      }
      process := process.(credit := initialCredit);
      process := OpenWindow(pid, process, startBlockId, initialCredit);
      processes := processes[pid := process];
      BeginSimulated(process, startBlockId, endBlockId, now);
      BeginOpens(process, startBlockId, endBlockId);
    }

    /** The loop of SegInit, and what follows it: one interest for each credit. */
    method OpenWindow(pid: nat, ready: ProcessInfo, startBlockId: nat, initialCredit: nat)
        returns (process: ProcessInfo)
      requires pid in wires && wires[pid] == Wire({}, [], [], false)
      requires ready.credit == initialCredit && ready.retryCounts == map[] && ready.nextSegmentQueue == []
      modifies this`wires
      ensures var first := startBlockId + initialCredit;
              && process == ready.(credit := 0, retryCounts := FirstTries(startBlockId, first),
                                   nextSegment := first, nextSegmentQueue := [first])
              && wires == old(wires)[pid := Opened(startBlockId, first)]
    {
      process := ready;
      var segment := startBlockId;
      OpenedGrows(startBlockId, startBlockId);
      assert wires == wires[pid := Opened(startBlockId, startBlockId)];
      while segment < startBlockId + initialCredit
        invariant startBlockId <= segment <= startBlockId + initialCredit
        invariant wires == old(wires)[pid := Opened(startBlockId, segment)]
        invariant process == ready.(credit := startBlockId + initialCredit - segment,
                                    retryCounts := FirstTries(startBlockId, segment))
      {
        OpenedGrows(startBlockId, segment);
        Express(pid, segment);
        process := process.(credit := process.credit - 1, retryCounts := process.retryCounts[segment := 0]);
        segment := segment + 1;
      }
      process := process.(nextSegment := segment, nextSegmentQueue := process.nextSegmentQueue + [segment]);
    }

    /** The segmented insert command. The process id is the random number the code draws for it. */
    method ProcessSegmentedInsertCommand(pid: nat, startBlockId: Option<nat>, endBlockId: Option<nat>, now: int)
      returns (reply: Response)
      requires Valid() && pid !in traces
      requires startBlockId.Some? || endBlockId.Some?
      modifies this
      ensures Valid()
      ensures var start := if startBlockId.Some? then startBlockId.value else 0;
              if endBlockId.Some? && start > endBlockId.value
              then reply == Response(403, 0, None, None)
                   && traces == old(traces) && processes == old(processes) && wires == old(wires)
              else reply == Response(100, 0, Some(start), endBlockId)
                   && traces == old(traces)[pid := Trace(start, endBlockId, now, [])]
                   && pid in processes && pid in wires && Opens(processes[pid], wires[pid], start, endBlockId)
                   && SameExcept(processes, old(processes), pid) && SameExcept(wires, old(wires), pid)
    {
      var start := if startBlockId.Some? then startBlockId.value else 0;
      if endBlockId.Some? && start > endBlockId.value {
        return Response(MALFORMED, 0, None, None);
      }
      var response := ProcessInfo(ACCEPTED, 0, start, endBlockId, [], 0, map[], 0, 0);
      reply := Response(response.status, response.insertNum, Some(start), endBlockId);
      response := response.(status := IN_PROGRESS);
      processes := processes[pid := response];
      wires := wires[pid := Wire({}, [], [], false)];
      SegInit(pid, start, endBlockId, now);
      traces := traces[pid := Trace(start, endBlockId, now, [])];
      OthersStay(InStep, old(processes), old(wires), old(traces), processes, wires, traces, pid);
    }

    /** A data packet answers an outstanding interest; the validator accepts it or not, and `accepted`
        is the storage's verdict on the insertion. */
    method OnSegmentData(pid: nat, segment: nat, valid: bool, finalBlockId: Option<nat>, accepted: bool, now: int)
      requires Valid() && Possible(pid, if valid then Data(segment, finalBlockId, accepted, now) else Reject(segment))
      modifies this
      ensures Valid()
      ensures traces == old(traces)[pid := old(traces[pid]).Then(
                if valid then Data(segment, finalBlockId, accepted, now) else Reject(segment))]
      ensures SameExcept(processes, old(processes), pid) && SameExcept(wires, old(wires), pid)
    {
      ghost var e := if valid then Data(segment, finalBlockId, accepted, now) else Reject(segment);
      assert InStep(At(processes, pid), wires[pid], traces[pid]);
      if valid {
        OnSegmentDataValidated(pid, segment, finalBlockId, accepted, now, traces[pid]);
      } else {
        OnDataValidationFailed(pid, segment, traces[pid]);
      }
      Record(old(processes), old(wires), pid, e);
    }

    /** A timeout or Nack answers an outstanding interest. */
    method OnSegmentTimeout(pid: nat, segment: nat)
      requires Valid() && Possible(pid, Timeout(segment))
      modifies this
      ensures Valid()
      ensures traces == old(traces)[pid := old(traces[pid]).Then(Timeout(segment))]
      ensures SameExcept(processes, old(processes), pid) && SameExcept(wires, old(wires), pid)
    {
      assert InStep(At(processes, pid), wires[pid], traces[pid]);
      OnSegmentTimeoutControl(pid, segment, traces[pid]);
      Record(old(processes), old(wires), pid, Timeout(segment));
    }

    /** The FinalBlockId of an accepted segment is learned, the segment is stored, and the control step
        follows. The process is in step with the ghost trace t. */
    method OnSegmentDataValidated(pid: nat, segment: nat, finalBlockId: Option<nat>, accepted: bool, now: int,
                                  ghost t: Trace)
      requires pid in wires && InStep(At(processes, pid), wires[pid], t)
      requires Enabled(t.Session(), Data(segment, finalBlockId, accepted, now))
      modifies this`processes, this`wires
      ensures pid in wires && Follows(At(processes, pid), wires[pid], t, Data(segment, finalBlockId, accepted, now))
      ensures SameExcept(processes, old(processes), pid) && SameExcept(wires, old(wires), pid)
    {
      if pid !in processes {
        GoneSimulated(t.Session(), Data(segment, finalBlockId, accepted, now), wires[pid]);
        Answer(pid, segment);
        return;
      }
      OnLiveSegment(pid, segment, finalBlockId, accepted, now, t);
    }

    /** The same for a process in the table. */
    method OnLiveSegment(pid: nat, segment: nat, finalBlockId: Option<nat>, accepted: bool, now: int, ghost t: Trace)
      requires pid in wires && pid in processes && InStep(Some(processes[pid]), wires[pid], t)
      requires Enabled(t.Session(), Data(segment, finalBlockId, accepted, now))
      modifies this`processes, this`wires
      ensures pid in wires && pid in processes
      ensures Follows(Some(processes[pid]), wires[pid], t, Data(segment, finalBlockId, accepted, now))
      ensures SameExcept(processes, old(processes), pid) && SameExcept(wires, old(wires), pid)
    {
      DataFollows(t, Data(segment, finalBlockId, accepted, now), processes[pid], wires[pid]);
      Answer(pid, segment);
      Store(pid, segment, finalBlockId, accepted);
      OnSegmentDataControl(pid, segment, now);
    }

    /** Learns the end, stores the segment and counts it. */
    method Store(pid: nat, segment: nat, finalBlockId: Option<nat>, accepted: bool)
      requires pid in processes && pid in wires
      modifies this`processes, this`wires
      ensures var p := old(processes[pid]);
              processes == old(processes)[pid := p.(endBlockId := Learn(p.endBlockId, finalBlockId),
                                                    insertNum := p.insertNum + if accepted then 1 else 0)]
      ensures var w := old(wires[pid]);
              wires == old(wires)[pid := w.(stored := w.stored + if accepted then [segment] else [])]
    {
      var response := RefreshEnd(processes[pid], finalBlockId);
      var inserted := InsertData(pid, segment, accepted);
      if inserted {
        response := response.(insertNum := response.insertNum + 1);
      }
      processes := processes[pid := response];
    }

    /** A FinalBlockId sets an unknown end and can only lower a known one. */
    method RefreshEnd(response: ProcessInfo, finalBlockId: Option<nat>) returns (refreshed: ProcessInfo)
      ensures refreshed == response.(endBlockId := Learn(response.endBlockId, finalBlockId))
    {
      refreshed := response;
      if finalBlockId.Some? {
        var final := finalBlockId.value;
        if response.endBlockId.Some? {
          if final < response.endBlockId.value {
            refreshed := response.(endBlockId := Some(final));
          }
        } else {
          refreshed := response.(endBlockId := Some(final));
        }
      }
    }

    /** An answer that fails validation is only dropped. */
    method OnDataValidationFailed(pid: nat, segment: nat, ghost t: Trace)
      requires pid in wires && InStep(At(processes, pid), wires[pid], t) && Enabled(t.Session(), Reject(segment))
      modifies this`wires
      ensures pid in wires && Follows(At(processes, pid), wires[pid], t, Reject(segment))
      ensures SameExcept(wires, old(wires), pid)
    {
      TraceIsSound(t);
      NotRejectedYet(t.Session(), segment);
      RejectSimulated(t.Session(), segment, At(processes, pid), wires[pid]);
      Answer(pid, segment);
    }

    /** The credit step after an accepted segment whose process has not had its credit back yet: whatever
        session that has accepted the segment the process shows, it then shows what Advance makes of it. */
    method OnSegmentDataControl(pid: nat, segment: nat, now: int)
      requires pid in processes && pid in wires && Ready(processes[pid], segment)
      modifies this`processes, this`wires
      ensures processes == old(processes)[pid := Controlled(old(processes[pid]), segment, now)]
      ensures wires == old(wires)[pid := Signalled(old(processes[pid]), old(wires[pid]), now)]
      ensures forall s: Session ::
                AtControl(old(processes[pid]), old(wires[pid]), segment, s) && s.alive && s.clock == now ==>
                Tracks(processes[pid], Advance(s), 0) && Shows(wires[pid], Advance(s))
    {
      ControlSimulatedBy(segment, processes[pid], wires[pid], now);
      ghost var p := processes[pid];
      var process := processes[pid];
      process := process.(credit := process.credit + 1);
      if process.endBlockId.None? {
        if now > process.noEndTime {
          process := process.(status := NO_END);
          processes := processes[pid := process];
          DeferredDeleteProcess(pid);
          return;
        }
      }
      if process.endBlockId.Some? {
        var nSegments := process.endBlockId.value - process.startBlockId + 1;
        if process.insertNum >= nSegments {
          process := process.(status := COMPLETE);
          processes := processes[pid := process];
          DeferredDeleteProcess(pid);
          return;
        }
      }
      if process.credit == 0 {
        assert false; // an answer has just returned its credit
      }
      assert wires == wires[pid := wires[pid]];
      if |process.nextSegmentQueue| == 0 {
        assert process.nextSegmentQueue == [];
        processes := processes[pid := process];
        return;
      }
      var sendingSegment := process.nextSegmentQueue[0];
      process := process.(nextSegmentQueue := process.nextSegmentQueue[1..]);
      if process.endBlockId.Some? && sendingSegment > process.endBlockId.value {
        assert process.nextSegmentQueue == [];
        processes := processes[pid := process];
        return;
      }
      assert segment in process.retryCounts; // the code asserts that the answered block has a retry count
      process := process.(retryCounts := process.retryCounts - {segment});
      Express(pid, sendingSegment);
      process := process.(credit := process.credit - 1);
      if sendingSegment !in process.retryCounts {
        process := process.(retryCounts := process.retryCounts[sendingSegment := 0]);
      } else {
        assert false; // a block id is queued before it is requested
      }
      if process.endBlockId.None? || process.nextSegment + 1 <= process.endBlockId.value {
        process := process.(nextSegment := process.nextSegment + 1);
        process := process.(nextSegmentQueue := process.nextSegmentQueue + [process.nextSegment]);
      }
      assert process == Sent(p, segment);
      processes := processes[pid := process];
    }

    /** A timeout resends the same block until its retries are spent, then drops the process. */
    method OnSegmentTimeoutControl(pid: nat, segment: nat, ghost t: Trace)
      requires pid in wires && InStep(At(processes, pid), wires[pid], t) && Enabled(t.Session(), Timeout(segment))
      modifies this`processes, this`wires
      ensures pid in wires && Follows(At(processes, pid), wires[pid], t, Timeout(segment))
      ensures SameExcept(processes, old(processes), pid) && SameExcept(wires, old(wires), pid)
    {
      if pid !in processes {
        GoneSimulated(t.Session(), Timeout(segment), wires[pid]);
        Answer(pid, segment);
        return;
      }
      TraceIsSound(t);
      TimeoutSimulated(t.Session(), segment, processes[pid], wires[pid]);
      Resend(pid, segment);
    }

    /** The body of the timeout step, for a process in the table. */
    method Resend(pid: nat, segment: nat)
      requires pid in processes && pid in wires
      requires segment in processes[pid].retryCounts // the code asserts that the block has a retry count
      modifies this`processes, this`wires
      ensures pid in wires && At(processes, pid) == Retried(old(processes[pid]), segment)
      ensures wires[pid] == Resent(old(processes[pid]), old(wires[pid]), segment)
      ensures SameExcept(processes, old(processes), pid) && SameExcept(wires, old(wires), pid)
    {
      Answer(pid, segment);
      var process := processes[pid];
      var retryTime := process.retryCounts[segment];
      if retryTime >= RETRY_TIMEOUT {
        processes := processes - {pid};
        return;
      }
      process := process.(retryCounts := process.retryCounts[segment := retryTime + 1]);
      Express(pid, segment);
      processes := processes[pid := process];
    }

    /** A status check by the client. */
    method OnCheckValidated(pid: nat, now: int) returns (reply: Response)
      requires Valid() && (pid in traces ==> Possible(pid, Check(now)))
      modifies this
      ensures Valid() && wires == old(wires)
      ensures SameExcept(processes, old(processes), pid)
      ensures pid !in old(processes) ==> reply == Response(404, 0, None, None) && processes == old(processes)
      ensures pid in old(processes) ==>
                && pid in processes && processes[pid] == Checked(old(processes[pid]), now)
                && reply == Response(processes[pid].status, processes[pid].insertNum,
                                     Some(processes[pid].startBlockId), processes[pid].endBlockId)
      ensures pid in old(traces) ==> traces == old(traces)[pid := old(traces[pid]).Then(Check(now))]
      ensures pid !in old(traces) ==> traces == old(traces)
    {
      if pid !in processes {
        reply := Response(NO_SUCH_PROCESS, 0, None, None);
      } else {
        assert InStep(At(processes, pid), wires[pid], traces[pid]);
        CheckEnd(pid, now, traces[pid]);
        var process := processes[pid];
        reply := Response(process.status, process.insertNum, Some(process.startBlockId), process.endBlockId);
      }
      if pid in wires {
        Record(old(processes), old(wires), pid, Check(now));
      }
    }

    /** While the end is unknown, a check renews the deadline or finds it passed. */
    method CheckEnd(pid: nat, now: int, ghost t: Trace)
      requires pid in processes && pid in wires && InStep(Some(processes[pid]), wires[pid], t)
      requires Enabled(t.Session(), Check(now))
      modifies this`processes
      ensures pid in processes && Follows(Some(processes[pid]), wires[pid], t, Check(now))
      ensures processes[pid] == Checked(old(processes[pid]), now)
      ensures SameExcept(processes, old(processes), pid)
    {
      var process := processes[pid];
      if process.endBlockId.None? {
        process := ExtendNoEndTime(process, now);
        processes := processes[pid := process];
      }
    }

    method ExtendNoEndTime(process: ProcessInfo, now: int) returns (extended: ProcessInfo)
      ensures now > process.noEndTime ==> extended == process.(status := 405)
      ensures now <= process.noEndTime ==> extended == process.(noEndTime := now + 10000)
    {
      if now > process.noEndTime {
        return process.(status := NO_END);
      }
      return process.(noEndTime := now + NOEND_TIMEOUT);
    }

    /** The scheduled deletion of a process. */
    method DeleteProcess(pid: nat)
      requires Valid() && Possible(pid, Expire)
      modifies this
      ensures Valid() && wires == old(wires) && processes == old(processes) - {pid}
      ensures traces == old(traces)[pid := old(traces[pid]).Then(Expire)]
    {
      ExpireFollows(traces[pid], At(processes, pid), wires[pid]);
      processes := processes - {pid};
      Record(old(processes), old(wires), pid, Expire);
    }

    /** The face hands one outstanding interest back. */
    method Answer(pid: nat, segment: nat)
      requires pid in wires
      modifies this`wires
      ensures wires == old(wires)[pid := old(wires[pid]).(outstanding := old(wires[pid]).outstanding - {segment})]
    {
      wires := wires[pid := wires[pid].(outstanding := wires[pid].outstanding - {segment})];
    }

    /** The storage's insertData, with the verdict it reaches. */
    method InsertData(pid: nat, segment: nat, accepted: bool) returns (inserted: bool)
      requires pid in wires
      modifies this`wires
      ensures inserted == accepted
      ensures var w := old(wires[pid]);
              wires == old(wires)[pid := w.(stored := w.stored + if accepted then [segment] else [])]
    {
      wires := wires[pid := wires[pid].(stored := wires[pid].stored + if accepted then [segment] else [])];
      return accepted;
    }

    /** Appends an event to a trace whose process has just simulated it. */
    ghost method Record(before: map<nat, ProcessInfo>, shown: map<nat, Wire>, pid: nat, e: Event)
      requires Everywhere(InStep, before, shown, traces) && Possible(pid, e)
      requires SameExcept(processes, before, pid) && SameExcept(wires, shown, pid)
      requires pid in wires && Follows(At(processes, pid), wires[pid], traces[pid], e)
      modifies this`traces
      ensures Valid()
      ensures traces == old(traces)[pid := old(traces[pid]).Then(e)]
    {
      TraceGrows(traces[pid], e);
      traces := traces[pid := traces[pid].Then(e)];
      OthersStay(InStep, before, shown, old(traces), processes, wires, traces, pid);
    }
  }
}

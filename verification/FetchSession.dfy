/** What one segmented insert process is meant to do, as a machine over the answers it gets.

    A session knows which block ids are outstanding and how often each was retried, and the first
    block id it has not requested yet. It has no credit counter, no send queue and no stale retry
    entries: SegmentedWriteHandle has those, and is proved to simulate this machine. Whatever holds
    of every run here therefore holds of every process there. */
module FetchSession {
  import opened Wrappers
  import opened Intervals

  const RETRY_TIMEOUT: nat := 3
  const DEFAULT_CREDIT: nat := 12
  const NOEND_TIMEOUT: nat := 10000

  const IN_PROGRESS: nat := 300
  const COMPLETE: nat := 200
  const NO_END: nat := 405

  datatype Session = Session(
    start: nat,
    end: Option<nat>,
    window: nat,             // number of interests sent when the process begins
    frontier: nat,           // the first block id not requested yet
    pending: map<nat, nat>,  // outstanding block ids, with the retries spent on each
    received: set<nat>,      // answers that passed validation
    rejected: set<nat>,      // answers that failed validation
    inserted: set<nat>,      // received answers that the storage accepted
    requests: seq<nat>,      // every interest expressed, in order
    status: nat,
    deadline: int,           // the end must be known by this time
    clock: int,
    deleting: bool,          // a deletion of the process is scheduled
    alive: bool)             // the process is still in the process table

  /** What the environment can do to a session. Data, Reject and Timeout answer one outstanding
      interest; Check is a status request by the client; Expire is the scheduled deletion. */
  datatype Event =
    | Data(seg: nat, final: Option<nat>, stored: bool, now: int)
    | Reject(seg: nat)
    | Timeout(seg: nat)
    | Check(now: int)
    | Expire
  {
    predicate Answer() { Data? || Reject? || Timeout? }
  }

  function InitialWindow(start: nat, end: Option<nat>): (w: nat)
    requires end.Some? ==> start <= end.value
    ensures 1 <= w <= DEFAULT_CREDIT
  {
    if end.Some? && end.value - start + 1 < DEFAULT_CREDIT then end.value - start + 1 else DEFAULT_CREDIT
  }

  /** The block ids lo, ..., hi - 1, none of them retried. */
  function FirstTries(lo: nat, hi: nat): (m: map<nat, nat>)
    decreases hi
  {
    if hi <= lo then map[] else
      var last: nat := hi - 1;
      FirstTries(lo, last)[last := 0]
  }

  lemma {:induction false} FirstTriesAt(lo: nat, hi: nat, x: nat)
    ensures x in FirstTries(lo, hi) <==> lo <= x < hi
    ensures x in FirstTries(lo, hi) ==> FirstTries(lo, hi)[x] == 0
    decreases hi
  {
    if lo < hi {
      FirstTriesAt(lo, hi - 1, x);
    }
  }

  lemma {:induction false} FirstTriesSize(lo: nat, hi: nat)
    requires lo <= hi
    ensures |FirstTries(lo, hi).Keys| == hi - lo
    decreases hi
  {
    if lo < hi {
      var last: nat := hi - 1;
      FirstTriesSize(lo, last);
      FirstTriesAt(lo, last, last);
      assert FirstTries(lo, hi).Keys == FirstTries(lo, last).Keys + {last};
    }
  }

  lemma FirstTriesFacts(lo: nat, hi: nat)
    requires lo <= hi
    ensures forall x: nat :: x in FirstTries(lo, hi) <==> lo <= x < hi
    ensures forall x: nat :: lo <= x < hi ==> FirstTries(lo, hi)[x] == 0
    ensures |FirstTries(lo, hi).Keys| == hi - lo
  {
    FirstTriesSize(lo, hi);
    forall x: nat
      ensures x in FirstTries(lo, hi) <==> lo <= x < hi
      ensures x in FirstTries(lo, hi) ==> FirstTries(lo, hi)[x] == 0
    {
      FirstTriesAt(lo, hi, x);
    }
  }

  function Begin(start: nat, end: Option<nat>, now: int): (s: Session)
    requires end.Some? ==> start <= end.value
  {
    var w := InitialWindow(start, end);
    var first := start + w;
    Session(start, end, w, first, FirstTries(start, first), {}, {}, {},
            Ascending(start, first), IN_PROGRESS, now + NOEND_TIMEOUT, now, false, true)
  }

  /** An end that is already known can only come down. */
  function Learn(end: Option<nat>, final: Option<nat>): (r: Option<nat>)
    ensures end.Some? ==> r.Some? && r.value <= end.value
    ensures final.Some? ==> r.Some? && r.value <= final.value
    ensures r == end || r == final
  {
    if final.None? then end
    else if end.Some? && end.value <= final.value then end
    else final
  }

  /** The range [start, end] has been counted in full. */
  predicate Counted(s: Session) {
    s.end.Some? && |s.inserted| >= s.end.value - s.start + 1
  }

  /** What follows an accepted segment: give up, finish, or request the next block id. */
  function Advance(s: Session): Session {
    if s.end.None? && s.clock > s.deadline then s.(status := NO_END, deleting := true)
    else if Counted(s) then s.(status := COMPLETE, deleting := true)
    else if s.end.Some? && s.end.value < s.frontier then s
    else s.(pending := s.pending[s.frontier := 0], requests := s.requests + [s.frontier], frontier := s.frontier + 1)
  }

  function Accept(s: Session, seg: nat, final: Option<nat>, stored: bool, now: int): Session {
    s.(pending := s.pending - {seg}, received := s.received + {seg}, end := Learn(s.end, final),
       inserted := if stored then s.inserted + {seg} else s.inserted, clock := now)
  }

  function Retry(s: Session, seg: nat): Session
    requires seg in s.pending
  {
    if s.pending[seg] >= RETRY_TIMEOUT then s.(pending := s.pending - {seg}, alive := false)
    else s.(pending := s.pending[seg := s.pending[seg] + 1], requests := s.requests + [seg])
  }

  function StatusCheck(s: Session, now: int): Session {
    if s.end.Some? then s.(clock := now)
    else if now > s.deadline then s.(clock := now, status := NO_END)
    else s.(clock := now, deadline := now + NOEND_TIMEOUT)
  }

  /** An interest is answered at most once, time does not run backwards, a FinalBlockId is not below
      the first block, and a process is deleted only after its deletion was scheduled. */
  predicate Enabled(s: Session, e: Event) {
    match e
    case Data(seg, final, _, now) => seg in s.pending && now >= s.clock && (final.Some? ==> final.value >= s.start)
    case Reject(seg) => seg in s.pending
    case Timeout(seg) => seg in s.pending
    case Check(now) => now >= s.clock
    case Expire => s.deleting
  }

  /** A process that left the table only loses the interests that are answered. */
  function StepGone(s: Session, e: Event): Session {
    match e
    case Data(seg, _, _, now) => s.(pending := s.pending - {seg}, clock := now)
    case Reject(seg) => s.(pending := s.pending - {seg})
    case Timeout(seg) => s.(pending := s.pending - {seg})
    case Check(now) => s.(clock := now)
    case Expire => s
  }

  function Step(s: Session, e: Event): Session
    requires Enabled(s, e)
  {
    if !s.alive then StepGone(s, e) else
    match e
    case Data(seg, final, stored, now) => Advance(Accept(s, seg, final, stored, now))
    case Reject(seg) => s.(pending := s.pending - {seg}, rejected := s.rejected + {seg})
    case Timeout(seg) => Retry(s, seg)
    case Check(now) => StatusCheck(s, now)
    case Expire => s.(alive := false)
  }

  predicate ValidRun(s: Session, es: seq<Event>)
    decreases |es|, 0
  {
    es == [] || (ValidRun(s, es[..|es| - 1]) && Enabled(Run(s, es[..|es| - 1]), es[|es| - 1]))
  }

  function Run(s: Session, es: seq<Event>): Session
    requires ValidRun(s, es)
    decreases |es|, 1
  {
    if es == [] then s else Step(Run(s, es[..|es| - 1]), es[|es| - 1])
  }

  lemma RunAppend(s: Session, es: seq<Event>, e: Event)
    requires ValidRun(s, es) && Enabled(Run(s, es), e)
    ensures ValidRun(s, es + [e])
    ensures Run(s, es + [e]) == Step(Run(s, es), e)
  {
    assert (es + [e])[..|es|] == es;
  }

  // ---- Invariants of every reachable session ----

  ghost predicate Requested(s: Session, x: nat) {
    x in s.pending || x in s.received || x in s.rejected
  }

  /** Every requested block id of a live session is outstanding, received or rejected: exactly one. */
  ghost predicate Partition(s: Session) {
    && (forall x: nat :: x in s.pending ==> x !in s.received && x !in s.rejected)
    && (forall x: nat :: x in s.received ==> x !in s.rejected)
    && (forall x: nat :: Requested(s, x) ==> s.start <= x < s.frontier)
    && (s.alive ==> forall x: nat :: s.start <= x < s.frontier ==> Requested(s, x))
    && s.inserted <= s.received
    && s.start + s.window <= s.frontier
  }

  ghost predicate Windowed(s: Session) {
    && 1 <= s.window <= DEFAULT_CREDIT
    && |s.pending.Keys| + |s.rejected| <= s.window
    && forall x :: x in s.pending ==> s.pending[x] <= RETRY_TIMEOUT
  }

  /** Fresh requests form the gapless ascending run from the start up to the frontier. */
  ghost predicate Gapless(log: seq<nat>, lo: nat, hi: nat) {
    && FirstSeen(log) == Ascending(lo, hi)
    && forall x: nat :: x in log <==> lo <= x < hi
  }

  /** Retry counts are exact, so no block id is requested more than 1 + RETRY_TIMEOUT times. */
  ghost predicate Bounded(log: seq<nat>, pending: map<nat, nat>, alive: bool) {
    && (forall x: nat :: Times(log, x) <= 1 + RETRY_TIMEOUT)
    && (alive ==> forall x: nat :: x in pending ==> Times(log, x) == 1 + pending[x])
  }

  ghost predicate Logged(s: Session) {
    Gapless(s.requests, s.start, s.frontier) && Bounded(s.requests, s.pending, s.alive)
  }

  ghost predicate Reported(s: Session) {
    && (s.end.Some? ==> s.start <= s.end.value)
    && (s.status == COMPLETE <==> Counted(s))
    && (s.status == COMPLETE || s.status == IN_PROGRESS || s.status == NO_END)
    && (s.status == COMPLETE ==> s.deleting)
  }

  /** The next id is still to be requested, as far as the process knows. */
  predicate Requesting(s: Session) {
    s.end.None? || s.frontier <= s.end.value
  }

  ghost predicate Progressing(s: Session) {
    s.alive ==>
      && (s.end.Some? && s.frontier <= s.end.value && s.pending == map[] ==> s.rejected != {})
      && (Requesting(s) && !s.deleting ==> |s.pending.Keys| + |s.rejected| == s.window)
  }

  /** The accounting of block ids and of the window, without the request log. */
  ghost predicate Core(s: Session) {
    Partition(s) && Windowed(s) && Reported(s) && Progressing(s)
  }

  ghost predicate Inv(s: Session) {
    Core(s) && Logged(s)
  }

  lemma BeginCore(start: nat, end: Option<nat>, now: int)
    requires end.Some? ==> start <= end.value
    ensures Core(Begin(start, end, now))
  {
    FirstTriesFacts(start, start + InitialWindow(start, end));
  }

  lemma BeginInv(start: nat, end: Option<nat>, now: int)
    requires end.Some? ==> start <= end.value
    ensures Inv(Begin(start, end, now))
  {
    BeginCore(start, end, now);
    FirstTriesFacts(start, start + InitialWindow(start, end));
    BeginLogged(start, start + InitialWindow(start, end));
  }

  lemma BeginLogged(lo: nat, hi: nat)
    requires lo <= hi
    ensures Gapless(Ascending(lo, hi), lo, hi)
    ensures forall x: nat :: Times(Ascending(lo, hi), x) == if lo <= x < hi then 1 else 0
  {
    AscendingDistinct(lo, hi);
    forall x: nat
      ensures x in Ascending(lo, hi) <==> lo <= x < hi
      ensures Times(Ascending(lo, hi), x) == (if lo <= x < hi then 1 else 0)
    {
      AscendingRange(lo, hi, x);
      AscendingTimes(lo, hi, x);
    }
  }

  lemma InsertedBelowFrontier(s: Session)
    requires Partition(s)
    ensures |s.inserted| <= s.frontier - s.start
    ensures s.end.Some? && s.frontier <= s.end.value ==> !Counted(s)
  {
    assert forall x :: x in s.inserted ==> Requested(s, x);
    IntervalFacts(s.start, s.frontier);
    SubsetSize(s.inserted, Interval(s.start, s.frontier));
  }

  /** Removing an answered interest frees one place in the window. */
  lemma Answered(m: map<nat, nat>, seg: nat)
    requires seg in m
    ensures (m - {seg}).Keys == m.Keys - {seg}
    ensures |(m - {seg}).Keys| == |m.Keys| - 1
  {
  }

  lemma AcceptCore(s: Session, e: Event)
    requires Core(s) && s.alive && e.Data? && Enabled(s, e)
    ensures var t := Accept(s, e.seg, e.final, e.stored, e.now);
            && Partition(t) && Windowed(t)
            && |t.pending.Keys| + |t.rejected| == |s.pending.Keys| + |s.rejected| - 1
            && (t.end.Some? ==> t.start <= t.end.value)
            && (s.status == COMPLETE ==> Counted(t))
  {
    var t := Accept(s, e.seg, e.final, e.stored, e.now);
    Answered(s.pending, e.seg);
    assert Requested(s, e.seg);
    assert forall x: nat :: Requested(t, x) <==> Requested(s, x);
    SubsetSize(s.inserted, t.inserted);
  }

  /** A live session whose answered segment is accepted and counted, before the step that follows. */
  ghost predicate Accepted(s: Session) {
    && Partition(s) && Windowed(s) && s.alive && |s.pending.Keys| + |s.rejected| < s.window
    && (s.end.Some? ==> s.start <= s.end.value)
    && (s.status == COMPLETE ==> s.deleting && Counted(s))
    && (s.status == COMPLETE || s.status == IN_PROGRESS || s.status == NO_END)
    && (Requesting(s) && !s.deleting ==> |s.pending.Keys| + |s.rejected| == s.window - 1)
  }

  lemma RequestCore(s: Session)
    requires Accepted(s) && Advance(s).frontier != s.frontier
    ensures Core(Advance(s))
  {
    var t := Advance(s);
    assert !Requested(s, s.frontier);
    assert t.pending.Keys == s.pending.Keys + {s.frontier};
    assert forall x: nat :: Requested(t, x) <==> Requested(s, x) || x == s.frontier;
    assert s.frontier in t.pending;
  }

  lemma AdvanceCore(s: Session)
    requires Accepted(s)
    ensures Core(Advance(s))
  {
    var t := Advance(s);
    InsertedBelowFrontier(s);
    if t.frontier != s.frontier {
      RequestCore(s);
    } else {
      assert forall x: nat :: Requested(t, x) <==> Requested(s, x);
    }
  }

  /** A rejected answer loses its place in the window. */
  lemma RejectCore(s: Session, e: Event)
    requires Core(s) && s.alive && e.Reject? && Enabled(s, e)
    ensures Core(Step(s, e))
    ensures var t := Step(s, e); |t.pending.Keys| == |s.pending.Keys| - 1 && |t.rejected| == |s.rejected| + 1
  {
    var t := Step(s, e);
    Answered(s.pending, e.seg);
    assert Requested(s, e.seg);
    assert forall x: nat :: Requested(t, x) <==> Requested(s, x);
    assert e.seg in t.rejected;
  }

  lemma RetryCore(s: Session, seg: nat)
    requires Core(s) && s.alive && seg in s.pending && s.pending[seg] < RETRY_TIMEOUT
    ensures Core(Retry(s, seg))
  {
    var t := Retry(s, seg);
    assert t.pending.Keys == s.pending.Keys;
    assert forall x: nat :: Requested(t, x) <==> Requested(s, x);
    assert seg in t.pending;
  }

  lemma DropCore(s: Session, seg: nat)
    requires Core(s) && s.alive && seg in s.pending && s.pending[seg] >= RETRY_TIMEOUT
    ensures Core(Retry(s, seg))
  {
    Answered(s.pending, seg);
    assert forall x: nat :: Requested(Retry(s, seg), x) ==> Requested(s, x);
  }

  lemma TimeoutCore(s: Session, e: Event)
    requires Core(s) && s.alive && e.Timeout? && Enabled(s, e)
    ensures Core(Step(s, e))
  {
    if s.pending[e.seg] < RETRY_TIMEOUT {
      RetryCore(s, e.seg);
    } else {
      DropCore(s, e.seg);
    }
  }

  /** Late answers change nothing but what is outstanding. */
  lemma GoneCore(s: Session, e: Event)
    requires Core(s) && !s.alive && Enabled(s, e)
    ensures Core(Step(s, e))
    ensures var t := Step(s, e); t == s.(pending := t.pending, clock := t.clock) && t.pending.Keys <= s.pending.Keys
  {
    var t := Step(s, e);
    if e.Answer() {
      Answered(s.pending, e.seg);
    }
    assert forall x: nat :: Requested(t, x) ==> Requested(s, x);
  }

  lemma QuietCore(s: Session, e: Event)
    requires Core(s) && s.alive && (e.Check? || e.Expire?) && Enabled(s, e)
    ensures Core(Step(s, e))
  {
    assert forall x: nat :: Requested(Step(s, e), x) <==> Requested(s, x);
  }

  lemma StepCore(s: Session, e: Event)
    requires Core(s) && Enabled(s, e)
    ensures Core(Step(s, e))
  {
    if !s.alive {
      GoneCore(s, e);
    } else if e.Check? || e.Expire? {
      QuietCore(s, e);
    } else {
      match e
      case Data(_, _, _, _) =>
        AcceptCore(s, e);
        AdvanceCore(Accept(s, e.seg, e.final, e.stored, e.now));
      case Reject(_) => RejectCore(s, e);
      case Timeout(_) => TimeoutCore(s, e);
    }
  }

  lemma LogAppend(log: seq<nat>, lo: nat, hi: nat, y: nat)
    requires Gapless(log, lo, hi) && lo <= y <= hi
    ensures Gapless(log + [y], lo, if y == hi then hi + 1 else hi)
  {
    FirstSeenAppend(log, y);
    assert y in log <==> y < hi;
    assert Ascending(lo, hi + 1) == Ascending(lo, hi) + [hi];
  }

  lemma TimesGrow(log: seq<nat>, y: nat)
    ensures forall x: nat :: Times(log + [y], x) == Times(log, x) + if x == y then 1 else 0
  {
    forall x: nat
      ensures Times(log + [y], x) == Times(log, x) + (if x == y then 1 else 0)
    {
      TimesAppend(log, y, x);
    }
  }

  /** What a new request of y does to the retry accounting. */
  lemma BoundedAppend(log: seq<nat>, pending: map<nat, nat>, after: map<nat, nat>, alive: bool, y: nat)
    requires Bounded(log, pending, alive) && alive
    requires forall x: nat :: Times(log + [y], x) == Times(log, x) + if x == y then 1 else 0
    requires forall x: nat :: x in after && x != y ==> x in pending && after[x] == pending[x]
    requires y in after && after[y] <= RETRY_TIMEOUT && Times(log, y) == after[y]
    ensures Bounded(log + [y], after, alive)
  {
  }

  lemma RequestLogged(s: Session, t: Session, y: nat)
    requires Logged(s) && s.alive && t.alive && t.start == s.start && s.start <= y <= s.frontier
    requires t.requests == s.requests + [y] && t.frontier == if y == s.frontier then y + 1 else s.frontier
    requires forall x: nat :: x in t.pending && x != y ==> x in s.pending && t.pending[x] == s.pending[x]
    requires y in t.pending && t.pending[y] <= RETRY_TIMEOUT
    requires y == s.frontier ==> t.pending[y] == 0
    requires y != s.frontier ==> y in s.pending && t.pending[y] == s.pending[y] + 1
    ensures Logged(t)
  {
    LogAppend(s.requests, s.start, s.frontier, y);
    TimesGrow(s.requests, y);
    BoundedAppend(s.requests, s.pending, t.pending, true, y);
  }

  lemma QuietLogged(s: Session, t: Session)
    requires Logged(s) && t.start == s.start && t.frontier == s.frontier && t.requests == s.requests
    requires t.alive ==> s.alive
    requires forall x :: x in t.pending ==> x in s.pending && t.pending[x] == s.pending[x]
    ensures Logged(t)
  {
  }

  /** The step that requests the next id requests nothing else. */
  lemma FreshLogged(s: Session)
    requires Logged(s) && s.alive && s.start <= s.frontier && Advance(s).frontier != s.frontier
    ensures Logged(Advance(s))
  {
    RequestLogged(s, Advance(s), s.frontier);
  }

  lemma AcceptLogged(s: Session, e: Event)
    requires Logged(s) && e.Data? && Enabled(s, e)
    ensures Logged(Accept(s, e.seg, e.final, e.stored, e.now))
  {
    QuietLogged(s, Accept(s, e.seg, e.final, e.stored, e.now));
  }

  lemma AdvanceLogged(s: Session)
    requires Logged(s) && s.alive && s.start <= s.frontier
    ensures Logged(Advance(s))
  {
    if Advance(s).frontier != s.frontier {
      FreshLogged(s);
    } else {
      QuietLogged(s, Advance(s));
    }
  }

  lemma RetryLogged(s: Session, seg: nat)
    requires Logged(s) && s.alive && seg in s.pending && s.start <= seg < s.frontier
    ensures Logged(Retry(s, seg))
  {
    if s.pending[seg] < RETRY_TIMEOUT {
      RequestLogged(s, Retry(s, seg), seg);
    } else {
      QuietLogged(s, Retry(s, seg));
    }
  }

  /** Every step keeps the request log exact: it expresses the first id not requested yet, or a retry. */
  lemma StepLogged(s: Session, e: Event)
    requires Logged(s) && Enabled(s, e) && s.start <= s.frontier && (e.Timeout? ==> s.start <= e.seg < s.frontier)
    ensures Logged(Step(s, e))
  {
    if s.alive && e.Data? {
      AcceptLogged(s, e);
      AdvanceLogged(Accept(s, e.seg, e.final, e.stored, e.now));
    } else if s.alive && e.Timeout? {
      RetryLogged(s, e.seg);
    } else {
      QuietLogged(s, Step(s, e));
    }
  }

  /** An outstanding id was requested, and the next one was not. */
  lemma PendingIsRequested(s: Session, seg: nat)
    requires Core(s) && seg in s.pending
    ensures s.start <= seg < s.frontier && s.pending[seg] <= RETRY_TIMEOUT && s.frontier !in s.pending
  {
    assert Requested(s, seg) && !Requested(s, s.frontier);
  }

  lemma StepInv(s: Session, e: Event)
    requires Inv(s) && Enabled(s, e)
    ensures Inv(Step(s, e))
  {
    StepCore(s, e);
    if e.Timeout? {
      PendingIsRequested(s, e.seg);
    }
    StepLogged(s, e);
  }

  lemma {:induction false} RunInv(s: Session, es: seq<Event>)
    requires Inv(s) && ValidRun(s, es)
    ensures Inv(Run(s, es))
  {
    if es != [] {
      RunInv(s, es[..|es| - 1]);
      StepInv(Run(s, es[..|es| - 1]), es[|es| - 1]);
    }
  }
}

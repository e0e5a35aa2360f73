/** How a segmented insert process can end: when its status 200 can be trusted, when it leaves the
    process table, when it stays there for good, and that an undisturbed one succeeds. */
module FetchOutcomes {
  import opened Wrappers
  import opened Intervals
  import opened FetchSession
  import opened FetchProperties

  // ---- When status 200 can be trusted ----

  function Range(s: Session): (r: set<nat>)
    requires s.end.Some?
  {
    Interval(s.start, s.end.value + 1)
  }

  /** The ids counted so far, and those whose answers may still be. */
  function Countable(s: Session): (ids: set<nat>) {
    s.inserted + s.pending.Keys
  }

  /** The run ends in status 200 with the end unchanged and a block of the range missing. */
  ghost predicate Misreports(s: Session, es: seq<Event>)
    requires s.end.Some? && ValidRun(s, es)
  {
    Run(s, es).end == s.end && Run(s, es).status == COMPLETE && !(Range(s) <= Run(s, es).inserted)
  }

  /** Nothing beyond the end is requested: 200 waits for the whole range. */
  lemma TrueBelowTheEnd(s: Session, es: seq<Event>)
    requires Inv(s) && s.end.Some? && ValidRun(s, es) && s.frontier <= s.end.value + 1
    ensures !Misreports(s, es)
  {
    var t := Run(s, es);
    RunInv(s, es);
    InvCounts(t);
    StartIsFixed(s, es);
    EndOnlyComesDown(s, es);
    if t.end == s.end {
      assert Overshoot(t) == {};
      CompleteWithoutOvershoot(t);
    }
  }

  /** Past the end nothing new is requested, so only what is outstanding can still be counted. */
  lemma {:induction false} CountableShrinks(s: Session, es: seq<Event>)
    requires s.end.Some? && s.frontier > s.end.value && ValidRun(s, es)
    ensures var t := Run(s, es);
            t.end.Some? && t.end.value <= s.end.value && t.frontier == s.frontier && Countable(t) <= Countable(s)
  {
    if es != [] {
      CountableShrinks(s, es[..|es| - 1]);
    }
  }

  /** What a run counts past the end is among the ids countable before. */
  lemma CountsOfRun(s: Session, es: seq<Event>)
    requires Inv(s) && s.end.Some? && ValidRun(s, es) && s.frontier > s.end.value
    ensures var t := Run(s, es);
            && t.start == s.start && (t.status == COMPLETE <==> Counted(t)) && t.inserted <= Countable(s)
  {
    RunInv(s, es);
    StartIsFixed(s, es);
    CountableShrinks(s, es);
  }

  lemma TrueForWantOfAnswers(s: Session, t: Session)
    requires s.end.Some? && s.start <= s.end.value && t.start == s.start && t.end == s.end
    requires Counted(t) && t.inserted <= Countable(s)
    requires |Countable(s)| < |Range(s)| || Countable(s) == Range(s)
    ensures Range(s) <= t.inserted
  {
    IntervalFacts(s.start, s.end.value + 1);
    SubsetSize(t.inserted, Countable(s));
  }

  /** The answer that counts x, past the end. */
  function Answering(t: Session, x: nat): (e: Event) {
    Data(x, None, true, t.clock)
  }

  lemma CountsOneMore(t: Session, x: nat)
    requires t.alive && t.end.Some? && t.frontier > t.end.value && x in t.pending && x !in t.inserted
    ensures Enabled(t, Answering(t, x))
    ensures var u := Step(t, Answering(t, x));
            && u.alive && u.start == t.start && u.end == t.end && u.frontier == t.frontier
            && u.inserted == t.inserted + {x} && |u.inserted| == |t.inserted| + 1
            && Countable(u) == Countable(t) && (Counted(u) ==> u.status == COMPLETE)
  {
  }

  /** Answers the outstanding ids other than y until the count is full. The session t is the one that
      the run es reaches. */
  lemma {:induction false} MisreportingRun(s: Session, es: seq<Event>, t: Session, y: nat) returns (more: seq<Event>)
    requires s.end.Some? && s.start <= s.end.value && ValidRun(s, es) && t == Run(s, es)
    requires Inv(t) && t.alive && t.start == s.start && t.end == s.end && t.frontier > t.end.value && !Counted(t)
    requires y in Range(s) && y !in t.inserted && |Countable(t) - {y}| >= |Range(s)|
    ensures ValidRun(s, more) && Misreports(s, more)
    decreases |Range(s)| - |t.inserted|
  {
    IntervalFacts(s.start, s.end.value + 1);
    var x := Another(t, y, |Range(s)|);
    NotYetInserted(t, x);
    CountsOneMore(t, x);
    RunAppend(s, es, Answering(t, x));
    var u := Step(t, Answering(t, x));
    if Counted(u) {
      assert y !in u.inserted;
      return es + [Answering(t, x)];
    }
    StepInv(t, Answering(t, x));
    more := MisreportingRun(s, es + [Answering(t, x)], u, y);
  }

  lemma NotYetInserted(t: Session, x: nat)
    requires Inv(t) && x in t.pending
    ensures x !in t.inserted
  {
    assert Requested(t, x);
  }

  /** Some id other than y is outstanding. */
  lemma Another(t: Session, y: nat, n: nat) returns (x: nat)
    requires y !in t.inserted && |t.inserted| < n <= |Countable(t) - {y}|
    ensures x in t.pending && x != y
  {
    SubsetSize(Countable(t) - {y}, t.inserted + (t.pending.Keys - {y}));
    assert t.inserted + {} == t.inserted;
    x :| x in t.pending.Keys - {y};
  }

  /** Status 200 for the end as it stands can be trusted, whatever happens next, exactly when no id
      beyond the end was requested, or too few answers can still come to fill the count, or only those
      of the range can. */
  lemma CompleteMeansAllInserted(s: Session)
    requires Inv(s) && s.alive && s.end.Some? && !Counted(s)
    ensures (forall es :: ValidRun(s, es) ==> !Misreports(s, es))
            <==> s.frontier <= s.end.value + 1 || |Countable(s)| < |Range(s)| || Countable(s) == Range(s)
  {
    if s.frontier <= s.end.value + 1 {
      forall es | ValidRun(s, es)
        ensures !Misreports(s, es)
      {
        TrueBelowTheEnd(s, es);
      }
    } else if |Countable(s)| < |Range(s)| || Countable(s) == Range(s) {
      forall es | ValidRun(s, es)
        ensures !Misreports(s, es)
      {
        CountsOfRun(s, es);
        if Run(s, es).end == s.end && Run(s, es).status == COMPLETE {
          TrueForWantOfAnswers(s, Run(s, es));
        }
      }
    } else {
      var y := Omissible(s);
      var es := MisreportingRun(s, [], s, y);
    }
  }

  /** A block of the range that the count can do without. */
  lemma Omissible(s: Session) returns (y: nat)
    requires s.end.Some? && s.start <= s.end.value && !Counted(s)
    requires |Countable(s)| >= |Range(s)| && Countable(s) != Range(s)
    ensures y in Range(s) && y !in s.inserted && |Countable(s) - {y}| >= |Range(s)|
  {
    IntervalFacts(s.start, s.end.value + 1);
    if |Countable(s)| > |Range(s)| {
      if Range(s) <= s.inserted {
        SubsetSize(Range(s), s.inserted);
      }
      y :| y in Range(s) && y !in s.inserted;
    } else {
      if Range(s) <= Countable(s) {
        SubsetSize(Range(s), Countable(s));
      }
      y :| y in Range(s) && y !in Countable(s);
      assert Countable(s) - {y} == Countable(s);
    }
  }

  /** With no answer rejected or refused by the storage, it depends on one comparison alone: whether an
      id beyond the end has already been requested when the end is set. */
  lemma TrustedUntilTheEndIsPassed(s: Session)
    requires Inv(s) && s.alive && s.end.Some? && !Counted(s)
    requires s.rejected == {} && s.inserted == s.received
    ensures (forall es :: ValidRun(s, es) ==> !Misreports(s, es)) <==> s.frontier <= s.end.value + 1
  {
    CompleteMeansAllInserted(s);
    IntervalFacts(s.start, s.end.value + 1);
    IntervalFacts(s.start, s.frontier);
    CountableIsRequested(s);
  }

  lemma CountableIsRequested(s: Session)
    requires Inv(s) && s.alive && s.rejected == {} && s.inserted == s.received
    ensures Countable(s) == Interval(s.start, s.frontier)
  {
    IntervalFacts(s.start, s.frontier);
    forall x: nat
      ensures x in Countable(s) <==> s.start <= x < s.frontier
    {
      assert x in Countable(s) <==> Requested(s, x);
    }
  }

  /** Over all its runs, a command never sees a false 200 exactly when it is for a given single block. */
  lemma OnlySingleBlocksAreSafe(start: nat, end: Option<nat>, now: int)
    requires end.Some? ==> start <= end.value
    ensures var b := Begin(start, end, now);
            (forall es :: ValidRun(b, es) ==> TellsTheTruth(Run(b, es)))
            <==> end == Some(start)
  {
    var b := Begin(start, end, now);
    if end == Some(start) {
      forall es | ValidRun(b, es)
        ensures TellsTheTruth(Run(b, es))
      {
        SingleBlockIsSafe(start, now, es);
      }
    } else {
      CompleteTooEarly(start, end, now);
      assert !TellsTheTruth(Run(b, [Data(start + 1, Some(start), true, now)]));
    }
  }

  lemma SingleBlockIsSafe(start: nat, now: int, es: seq<Event>)
    requires ValidRun(Begin(start, Some(start), now), es)
    ensures TellsTheTruth(Run(Begin(start, Some(start), now), es))
  {
    var b := Begin(start, Some(start), now);
    RunCounts(start, Some(start), now, es);
    EndOnlyComesDown(b, es);
    GivenRangeComplete(start, start, now, es);
  }

  /** The second block names the first as the last one, and counts for it. */
  lemma CompleteTooEarly(start: nat, end: Option<nat>, now: int)
    requires end.Some? ==> start < end.value
    ensures var b, es := Begin(start, end, now), [Data(start + 1, Some(start), true, now)];
            ValidRun(b, es) && !TellsTheTruth(Run(b, es))
  {
    var b, e := Begin(start, end, now), Data(start + 1, Some(start), true, now);
    FirstTriesFacts(start, b.frontier);
    CountsForAnother(b, e);
    RunAppend(b, [], e);
    assert [] + [e] == [e];
    IntervalFacts(start, start + 1);
  }

  lemma CountsForAnother(b: Session, e: Event)
    requires b.alive && b.inserted == {} && (b.end.Some? ==> b.start < b.end.value) && b.start + 1 in b.pending
    requires e == Data(b.start + 1, Some(b.start), true, b.clock)
    ensures var t := Step(b, e);
            t.status == COMPLETE && t.end == Some(b.start) && t.start == b.start && t.inserted == {e.seg}
  {
  }

  ghost predicate TellsTheTruth(t: Session) {
    t.status == COMPLETE && t.end.Some? ==> Range(t) <= t.inserted
  }

  // ---- Leaving the table ----

  function Timeouts(es: seq<Event>, x: nat): (n: nat)
  {
    if es == [] then 0
    else Timeouts(es[..|es| - 1], x) + if es[|es| - 1] == Timeout(x) then 1 else 0
  }

  /** A live process has seen no deletion, and its retry counts are the timeouts of each block. */
  ghost predicate RetriesCounted(t: Session, es: seq<Event>) {
    && Expire !in es
    && (forall x: nat :: Timeouts(es, x) <= RETRY_TIMEOUT)
    && (forall x: nat :: x in t.pending ==> t.pending[x] == Timeouts(es, x) && x < t.frontier)
    && (forall x: nat :: x >= t.frontier ==> Timeouts(es, x) == 0)
  }

  /** A deletion came, or some block timed out more often than it may be retried. */
  ghost predicate GivenUp(es: seq<Event>) {
    Expire in es || exists x: nat :: Timeouts(es, x) >= 4
  }

  lemma TimeoutsAppend(es: seq<Event>, e: Event)
    ensures forall x: nat :: Timeouts(es + [e], x) == Timeouts(es, x) + if e == Timeout(x) then 1 else 0
    ensures Expire in es + [e] <==> Expire in es || e == Expire
  {
    assert (es + [e])[..|es|] == es;
  }

  lemma StillGivenUp(es: seq<Event>, e: Event)
    requires GivenUp(es)
    ensures GivenUp(es + [e])
  {
    TimeoutsAppend(es, e);
    if x: nat :| Timeouts(es, x) >= 4 {
      assert Timeouts(es + [e], x) >= 4;
    }
  }

  lemma TimeoutRetries(s: Session, es: seq<Event>, x: nat)
    requires s.alive && x in s.pending && RetriesCounted(s, es)
    ensures var t := Retry(s, x); if t.alive then RetriesCounted(t, es + [Timeout(x)]) else GivenUp(es + [Timeout(x)])
  {
    TimeoutsAppend(es, Timeout(x));
    assert Timeouts(es + [Timeout(x)], x) == s.pending[x] + 1;
  }

  lemma OtherRetries(s: Session, es: seq<Event>, e: Event)
    requires s.alive && Enabled(s, e) && !e.Timeout? && !e.Expire? && RetriesCounted(s, es)
    ensures Step(s, e).alive && RetriesCounted(Step(s, e), es + [e])
  {
    TimeoutsAppend(es, e);
  }

  lemma StepRetries(s: Session, es: seq<Event>, e: Event)
    requires Enabled(s, e) && (if s.alive then RetriesCounted(s, es) else GivenUp(es))
    ensures if Step(s, e).alive then RetriesCounted(Step(s, e), es + [e]) else GivenUp(es + [e])
  {
    if !s.alive {
      StillGivenUp(es, e);
    } else if e.Timeout? {
      TimeoutRetries(s, es, e.seg);
    } else if e.Expire? {
      TimeoutsAppend(es, e);
    } else {
      OtherRetries(s, es, e);
    }
  }

  lemma {:induction false} RetriesOfRun(b: Session, es: seq<Event>)
    requires b.alive && RetriesCounted(b, []) && ValidRun(b, es)
    ensures if Run(b, es).alive then RetriesCounted(Run(b, es), es) else GivenUp(es)
  {
    if es != [] {
      var front, e := es[..|es| - 1], es[|es| - 1];
      assert es == front + [e];
      RetriesOfRun(b, front);
      StepRetries(Run(b, front), front, e);
    }
  }

  /** A process has left the table exactly when a scheduled deletion came, or some block, needed or not,
      timed out four times. */
  lemma LeavesTableExactly(start: nat, end: Option<nat>, now: int, es: seq<Event>)
    requires end.Some? ==> start <= end.value
    requires ValidRun(Begin(start, end, now), es)
    ensures !Run(Begin(start, end, now), es).alive <==> GivenUp(es)
  {
    BeginRetries(start, end, now);
    var b := Begin(start, end, now);
    RetriesOfRun(b, es);
    if Run(b, es).alive {
      assert RetriesCounted(Run(b, es), es);
    } else {
      assert GivenUp(es);
    }
  }

  lemma BeginRetries(start: nat, end: Option<nat>, now: int)
    requires end.Some? ==> start <= end.value
    ensures RetriesCounted(Begin(start, end, now), [])
  {
    FirstTriesFacts(start, start + InitialWindow(start, end));
  }

  /** A timeout is a retry, or the end of the process. */
  lemma TimesOut(s: Session, es: seq<Event>, x: nat)
    requires ValidRun(s, es) && Run(s, es).alive && x in Run(s, es).pending
    ensures ValidRun(s, es + [Timeout(x)]) && Run(s, es + [Timeout(x)]) == Retry(Run(s, es), x)
  {
    RunAppend(s, es, Timeout(x));
  }

  /** The first block lowers the end to the second, and the timeouts of the sixth, which nobody needs
      any more, drop the process while the second is outstanding. */
  lemma DroppedForANeedlessBlock(start: nat, now: int)
    ensures var b := Begin(start, Some(start + 5), now);
            var es := [Data(start, Some(start + 1), true, now)] + seq(4, _ => Timeout(start + 5));
            && ValidRun(b, es) && !Run(b, es).alive
            && Run(b, es).end == Some(start + 1) && start + 1 in Run(b, es).pending && Run(b, es).status == IN_PROGRESS
  {
    FirstLowersTheEnd(start, now);
    FourTimeouts(Begin(start, Some(start + 5), now), [Data(start, Some(start + 1), true, now)], start + 5);
  }

  lemma FirstLowersTheEnd(start: nat, now: int)
    ensures var b, e := Begin(start, Some(start + 5), now), Data(start, Some(start + 1), true, now);
            && ValidRun(b, [e])
            && var t := Run(b, [e]);
               && t.alive && t.end == Some(start + 1) && t.status == IN_PROGRESS
               && start + 1 in t.pending && start + 5 in t.pending && t.pending[start + 5] == 0
  {
    var b, e := Begin(start, Some(start + 5), now), Data(start, Some(start + 1), true, now);
    FirstTriesFacts(start, start + 6);
    RunAppend(b, [], e);
    assert [] + [e] == [e];
  }

  lemma FourTimeouts(s: Session, es: seq<Event>, x: nat)
    requires ValidRun(s, es) && Run(s, es).alive && x in Run(s, es).pending && Run(s, es).pending[x] == 0
    ensures var more := es + seq(4, _ => Timeout(x));
            && ValidRun(s, more)
            && var t := Run(s, es);
               Run(s, more) == t.(pending := t.pending - {x}, alive := false, requests := t.requests + [x, x, x])
  {
    var t, e := Run(s, es), Timeout(x);
    TimesOut(s, es, x);
    TimesOut(s, es + [e], x);
    TimesOut(s, es + [e] + [e], x);
    TimesOut(s, es + [e] + [e] + [e], x);
    assert es + [e] + [e] + [e] + [e] == es + seq(4, _ => Timeout(x));
    assert t.requests + [x] + [x] + [x] == t.requests + [x, x, x];
    assert t.pending[x := 1][x := 2][x := 3] - {x} == t.pending - {x};
  }

  // ---- Staying for good ----

  /** A live process that waits for nothing and has no deletion scheduled never gets anywhere: only its
      clock moves and, while the end is unknown, what status checks do to its deadline and status. */
  lemma {:induction false} StuckForGood(s: Session, es: seq<Event>)
    requires ValidRun(s, es)
    requires s.alive && s.pending == map[] && !s.deleting
    ensures var t := Run(s, es);
            && t == s.(clock := t.clock, status := t.status, deadline := t.deadline)
            && (s.end.Some? ==> t.status == s.status && t.deadline == s.deadline)
  {
    if es != [] {
      StuckForGood(s, es[..|es| - 1]);
    }
  }

  /** Times out x until its process is dropped. */
  lemma {:induction false} DroppingRun(s: Session, es: seq<Event>, x: nat) returns (more: seq<Event>)
    requires ValidRun(s, es) && Run(s, es).alive && x in Run(s, es).pending && Run(s, es).pending[x] <= RETRY_TIMEOUT
    ensures ValidRun(s, more) && !Run(s, more).alive
    decreases RETRY_TIMEOUT - Run(s, es).pending[x]
  {
    RunAppend(s, es, Timeout(x));
    more := es + [Timeout(x)];
    if Run(s, more).alive {
      more := DroppingRun(s, more, x);
    }
  }

  /** A live process without a scheduled deletion can still leave the table exactly when it waits for
      something. */
  lemma CanStillLeave(s: Session)
    requires Inv(s) && s.alive && !s.deleting
    ensures (exists es :: ValidRun(s, es) && !Run(s, es).alive) <==> s.pending != map[]
  {
    if s.pending != map[] {
      var x :| x in s.pending;
      var es := DroppingRun(s, [], x);
    } else {
      forall es | ValidRun(s, es)
        ensures Run(s, es).alive
      {
        StuckForGood(s, es);
      }
    }
  }

  /** With the end unknown that happens exactly when all twelve answers of the window were rejected. */
  lemma UnknownEndStalls(start: nat, end: Option<nat>, now: int, es: seq<Event>)
    requires end.Some? ==> start <= end.value
    requires ValidRun(Begin(start, end, now), es)
    ensures var s := Run(Begin(start, end, now), es);
            s.alive && s.end.None? && !s.deleting ==> (s.pending == map[] <==> |s.rejected| == 12)
  {
    BusyUntilTheEndIsKnown(start, end, now, es);
    var s := Run(Begin(start, end, now), es);
    if |s.pending.Keys| == 0 {
      assert s.pending.Keys == {};
    }
  }

  /** Rejections of the blocks lo, ..., hi - 1. */
  function Rejections(lo: nat, hi: nat): (es: seq<Event>)
    decreases hi
  {
    if hi <= lo then [] else
      var last: nat := hi - 1;
      Rejections(lo, last) + [Reject(last)]
  }

  /** What is left of b after that. */
  ghost predicate Rejected(b: Session, t: Session, hi: nat) {
    && t == b.(pending := t.pending, rejected := t.rejected)
    && forall x: nat :: x in t.pending <==> x in b.pending && x >= hi
  }

  lemma OneMoreRejected(b: Session, t: Session, hi: nat)
    requires b.alive && hi in b.pending && Rejected(b, t, hi)
    ensures Enabled(t, Reject(hi)) && Rejected(b, Step(t, Reject(hi)), hi + 1)
  {
  }

  lemma {:induction false} RejectedSoFar(b: Session, lo: nat, hi: nat)
    requires b.alive && forall x: nat :: x in b.pending ==> x >= lo
    requires lo <= hi && forall x: nat :: lo <= x < hi ==> x in b.pending
    ensures ValidRun(b, Rejections(lo, hi)) && Rejected(b, Run(b, Rejections(lo, hi)), hi)
    decreases hi
  {
    if lo < hi {
      var last: nat := hi - 1;
      var front := Rejections(lo, last);
      RejectedSoFar(b, lo, last);
      OneMoreRejected(b, Run(b, front), last);
      RunAppend(b, front, Reject(last));
      assert Rejections(lo, hi) == front + [Reject(last)];
    }
  }

  /** A process whose end is unknown, whose deadline has passed and whose status says so, with nothing
      outstanding and no deletion scheduled: it stays in the table. */
  lemma NeverTerminated(start: nat, now: int)
    ensures var b := Begin(start, None, now);
            var es := Rejections(start, start + 12) + [Check(now + 10001)];
            && ValidRun(b, es)
            && var t := Run(b, es);
               t.status == NO_END && t.alive && !t.deleting && t.end.None? && t.pending == map[]
  {
    var b := Begin(start, None, now);
    FirstTriesFacts(start, start + DEFAULT_CREDIT);
    RejectedSoFar(b, start, start + 12);
    RunAppend(b, Rejections(start, start + 12), Check(now + 10001));
  }

  /** One rejected answer is enough when the end is known. */
  lemma StalledByOneRejection(start: nat, now: int)
    ensures var b := Begin(start, Some(start), now);
            && ValidRun(b, [Reject(start)])
            && var t := Run(b, [Reject(start)]);
               && t.end == Some(start) && Missing(t)
               && t.status == IN_PROGRESS && t.alive && !t.deleting && t.pending == map[]
  {
    var b := Begin(start, Some(start), now);
    FirstTriesFacts(start, start + 1);
    RunAppend(b, [], Reject(start));
    assert [] + [Reject(start)] == [Reject(start)];
    assert Run(b, [Reject(start)]).end == Some(start) && start !in Run(b, [Reject(start)]).received;
  }

  /** So is one write that the storage refuses, although the answer itself was good. */
  lemma StalledByOneRefusal(start: nat, now: int)
    ensures var b, e := Begin(start, Some(start), now), Data(start, None, false, now);
            && ValidRun(b, [e])
            && var t := Run(b, [e]);
               && t.end == Some(start) && !Missing(t) && t.rejected == {}
               && t.status == IN_PROGRESS && t.alive && !t.deleting && t.pending == map[]
  {
    var b, e := Begin(start, Some(start), now), Data(start, None, false, now);
    FirstTriesFacts(start, start + 1);
    RunAppend(b, [], e);
    assert [] + [e] == [e];
    assert Run(b, [e]).received == {start};
  }

  // ---- Undisturbed runs succeed ----

  /** The validator accepted every answer, and the storage every packet. */
  predicate AllAccepted(es: seq<Event>) {
    forall e :: e in es ==> !e.Reject? && (e.Data? ==> e.stored)
  }

  predicate NothingLost(s: Session) {
    s.rejected == {} && s.inserted == s.received
  }

  lemma DataLossShows(s: Session, e: Event)
    requires e.Data? && Enabled(s, e) && s.alive && e.seg !in s.received && s.inserted <= s.received
    ensures NothingLost(Step(s, e)) <==> NothingLost(s) && e.stored
  {
    var a := Accept(s, e.seg, e.final, e.stored, e.now);
    assert Step(s, e).inserted == a.inserted && Step(s, e).received == a.received;
    SameBefore(s.inserted, s.received, e.seg);
  }

  lemma LossShows(s: Session, e: Event)
    requires Enabled(s, e) && s.alive && Step(s, e).alive && s.inserted <= s.received
    requires e.Answer() ==> e.seg !in s.received
    ensures NothingLost(Step(s, e)) <==> NothingLost(s) && !e.Reject? && (e.Data? ==> e.stored)
  {
    if e.Data? {
      DataLossShows(s, e);
    } else if e.Reject? {
      assert e.seg in Step(s, e).rejected;
    }
  }

  lemma AnswersOnce(s: Session, seg: nat)
    requires Inv(s) && seg in s.pending
    ensures seg !in s.received && s.inserted <= s.received
  {
  }

  lemma AcceptedParts(es: seq<Event>)
    requires es != []
    ensures var e := es[|es| - 1];
            AllAccepted(es) <==> AllAccepted(es[..|es| - 1]) && !e.Reject? && (e.Data? ==> e.stored)
  {
    assert es == es[..|es| - 1] + [es[|es| - 1]];
  }

  /** A live process has lost nothing exactly when every answer was accepted. */
  lemma {:induction false} LossesShow(b: Session, es: seq<Event>)
    requires Inv(b) && b.rejected == {} && b.inserted == b.received && ValidRun(b, es) && Run(b, es).alive
    ensures AllAccepted(es) <==> NothingLost(Run(b, es))
  {
    if es != [] {
      var front, e := es[..|es| - 1], es[|es| - 1];
      LossesShow(b, front);
      RunInv(b, front);
      if e.Answer() {
        AnswersOnce(Run(b, front), e.seg);
      }
      LossShows(Run(b, front), e);
      AcceptedParts(es);
    }
  }

  /** A command whose end was not lowered, live and waiting for nothing, has status 200 exactly when
      every answer was accepted by the validator and stored. */
  lemma CommandSettles(start: nat, end: nat, now: int, es: seq<Event>)
    requires start <= end && ValidRun(Begin(start, Some(end), now), es)
    ensures var t := Run(Begin(start, Some(end), now), es);
            t.alive && t.pending == map[] && t.end == Some(end) ==> (t.status == COMPLETE <==> AllAccepted(es))
  {
    var b := Begin(start, Some(end), now);
    var t := Run(b, es);
    BeginInv(start, Some(end), now);
    if t.alive && t.pending == map[] && t.end == Some(end) {
      RunInv(b, es);
      EndOnlyComesDown(b, es);
      LossesShow(b, es);
      SettledMeansComplete(t);
    }
  }

  /** No answer is rejected or refused by the storage, and no block times out four times. */
  ghost predicate Clean(es: seq<Event>) {
    AllAccepted(es) && forall x: nat :: Timeouts(es, x) < 4
  }

  /** With a known end, a deletion is scheduled only with status 200. */
  lemma {:induction false} DeletingMeansComplete(b: Session, es: seq<Event>)
    requires b.end.Some? && !b.deleting && ValidRun(b, es)
    ensures Run(b, es).end.Some? && (Run(b, es).deleting ==> Run(b, es).status == COMPLETE)
  {
    if es != [] {
      DeletingMeansComplete(b, es[..|es| - 1]);
    }
  }

  /** A command for n blocks that nothing disturbs: after at most 4n answers, once no block of the range is
      outstanding, the status is 200, and if the end was not lowered exactly the range is stored. */
  lemma CleanRunCompletes(start: nat, end: nat, now: int, es: seq<Event>)
    requires start <= end && ValidRun(Begin(start, Some(end), now), es) && Clean(es)
    ensures var t := Run(Begin(start, Some(end), now), es);
            && Answers(es) <= 4 * (end - start + 1)
            && t.end.Some?
            && (RangeAnswered(t) ==> t.status == COMPLETE)
            && (RangeAnswered(t) && t.end == Some(end) ==> t.inserted == Interval(start, end + 1))
  {
    var b := Begin(start, Some(end), now);
    var t := Run(b, es);
    CommandHandlesBoundedAnswers(start, end, now, es);
    DeletingMeansComplete(b, es);
    GivenRangeComplete(start, end, now, es);
    LeavesTableExactly(start, Some(end), now, es);
    if RangeAnswered(t) {
      if t.alive {
        BeginInv(start, Some(end), now);
        CleanAndAnswered(b, es);
      } else {
        DeletedWhileScheduled(b, es);
      }
    }
  }

  lemma CleanAndAnswered(b: Session, es: seq<Event>)
    requires Inv(b) && b.rejected == {} && b.inserted == b.received && ValidRun(b, es) && AllAccepted(es)
    requires Run(b, es).alive && Run(b, es).end.Some? && RangeAnswered(Run(b, es))
    ensures Run(b, es).status == COMPLETE
  {
    RunInv(b, es);
    LossesShow(b, es);
    AnsweredMeansComplete(Run(b, es));
  }

  /** The same for a command that does not name its end, against a producer whose data end at last, and
      before any deletion: once the end was learned and no block up to it is outstanding, the status is 200
      and everything up to it is stored. The requests beyond the last block may stay unanswered. */
  lemma CleanRunLearnsItsEnd(start: nat, now: int, last: nat, es: seq<Event>)
    requires ValidRun(Begin(start, None, now), es) && Clean(es) && Truthful(last, es) && Expire !in es
    ensures var t := Run(Begin(start, None, now), es);
            t.end.Some? && RangeAnswered(t) ==>
              t.end == Some(last) && t.status == COMPLETE && t.inserted == Interval(start, last + 1)
  {
    var b := Begin(start, None, now);
    var t := Run(b, es);
    if t.end.Some? && RangeAnswered(t) {
      TruthfulEnd(b, last, es);
      LeavesTableExactly(start, None, now, es);
      BeginInv(start, None, now);
      CleanAndAnswered(b, es);
      TruthfulRunComplete(start, None, now, last, es);
    }
  }

  /** It does happen: data of one block, whose only answer leaves the other eleven requests open. */
  lemma OneBlockLearnsItsEnd(start: nat, now: int)
    ensures var b, es := Begin(start, None, now), [Data(start, Some(start), true, now)];
            && ValidRun(b, es) && Clean(es) && Truthful(start, es)
            && var t := Run(b, es);
               t.end == Some(start) && RangeAnswered(t) && t.status == COMPLETE && t.pending != map[]
  {
    var b, e := Begin(start, None, now), Data(start, Some(start), true, now);
    FirstTriesFacts(start, start + 12);
    RunAppend(b, [], e);
    assert [] + [e] == [e];
    assert start + 1 in Run(b, [e]).pending;
    assert forall x: nat :: Timeouts([e], x) == 0;
  }

  /** A scheduled deletion is never called off. */
  lemma {:induction false} DeletedWhileScheduled(b: Session, es: seq<Event>)
    requires ValidRun(b, es) && Expire in es
    ensures Run(b, es).deleting
  {
    var front := es[..|es| - 1];
    assert es == front + [es[|es| - 1]];
    if Expire in front {
      DeletedWhileScheduled(b, front);
    }
  }
}

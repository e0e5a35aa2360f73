/** What every run of a segmented insert process guarantees. */
module FetchProperties {
  import opened Wrappers
  import opened Intervals
  import opened FetchSession

  /** Every run a command can start reaches only sessions that satisfy the invariant. */
  lemma Reachable(start: nat, end: Option<nat>, now: int, es: seq<Event>)
    requires end.Some? ==> start <= end.value
    requires ValidRun(Begin(start, end, now), es)
    ensures Inv(Run(Begin(start, end, now), es))
  {
    BeginInv(start, end, now);
    RunInv(Begin(start, end, now), es);
  }

  lemma {:induction false} StartIsFixed(s: Session, es: seq<Event>)
    requires ValidRun(s, es)
    ensures Run(s, es).start == s.start && Run(s, es).window == s.window
  {
    if es != [] {
      StartIsFixed(s, es[..|es| - 1]);
    }
  }

  // ---- Status 200 ----

  /** Inserted block ids above the current end: answers that arrived before the end came down. */
  function Overshoot(s: Session): (o: set<nat>)
    requires s.end.Some?
  {
    set x | x in s.inserted && x > s.end.value
  }

  /** The part of the invariant that status 200 depends on. */
  ghost predicate Counting(s: Session) {
    && (s.status == COMPLETE <==> Counted(s))
    && (s.end.Some? ==> s.start <= s.end.value)
    && forall x: nat :: x in s.inserted ==> s.start <= x < s.frontier
  }

  lemma InvCounts(s: Session)
    requires Inv(s)
    ensures Counting(s)
  {
    assert forall x: nat :: x in s.inserted ==> Requested(s, x);
  }

  lemma RunCounts(start: nat, end: Option<nat>, now: int, es: seq<Event>)
    requires end.Some? ==> start <= end.value
    requires ValidRun(Begin(start, end, now), es)
    ensures Counting(Run(Begin(start, end, now), es)) && Run(Begin(start, end, now), es).start == start
  {
    Reachable(start, end, now, es);
    InvCounts(Run(Begin(start, end, now), es));
    StartIsFixed(Begin(start, end, now), es);
  }

  /** With no overshoot, status 200 holds exactly when the inserted ids are the range. */
  lemma CompleteWithoutOvershoot(s: Session)
    requires Counting(s) && s.end.Some? && Overshoot(s) == {}
    ensures s.status == COMPLETE <==> s.inserted == Interval(s.start, s.end.value + 1)
  {
    var range := Interval(s.start, s.end.value + 1);
    IntervalFacts(s.start, s.end.value + 1);
    forall x | x in s.inserted
      ensures x in range
    {
      assert x !in Overshoot(s);
    }
    SubsetSize(s.inserted, range);
  }

  /** With the end known, no id above it is requested, and the end only comes down. */
  lemma {:induction false} EndOnlyComesDown(s: Session, es: seq<Event>)
    requires ValidRun(s, es) && s.end.Some?
    ensures var t := Run(s, es);
            && t.end.Some? && t.end.value <= s.end.value
            && t.frontier <= if s.frontier > s.end.value then s.frontier else s.end.value + 1
  {
    if es != [] {
      EndOnlyComesDown(s, es[..|es| - 1]);
    }
  }

  /** An insert command with an end that is never lowered: status 200 is reached exactly when every
      block id of the commanded range has been inserted. */
  lemma GivenRangeComplete(start: nat, end: nat, now: int, es: seq<Event>)
    requires start <= end && ValidRun(Begin(start, Some(end), now), es)
    ensures var s := Run(Begin(start, Some(end), now), es);
            s.end == Some(end) ==> (s.status == COMPLETE <==> s.inserted == Interval(start, end + 1))
  {
    var b := Begin(start, Some(end), now);
    var s := Run(b, es);
    RunCounts(start, Some(end), now, es);
    EndOnlyComesDown(b, es);
    if s.end == Some(end) {
      assert Overshoot(s) == {};
      CompleteWithoutOvershoot(s);
    }
  }

  /** The producer's data set ends at last: it answers nothing above, and names no other FinalBlockId. */
  predicate Truthful(last: nat, es: seq<Event>) {
    forall e :: e in es && e.Data? ==> e.seg <= last && (e.final.Some? ==> e.final.value == last)
  }

  lemma {:induction false} TruthfulEnd(s: Session, last: nat, es: seq<Event>)
    requires ValidRun(s, es) && Truthful(last, es)
    requires forall x :: x in s.inserted ==> x <= last
    ensures Run(s, es).end == s.end || Run(s, es).end == Some(last)
    ensures forall x :: x in Run(s, es).inserted ==> x <= last
  {
    if es != [] {
      var front := es[..|es| - 1];
      assert es == front + [es[|es| - 1]];
      assert forall e :: e in front ==> e in es;
      TruthfulEnd(s, last, front);
      assert es[|es| - 1] in es;
    }
  }

  /** Whether the end was commanded, lowered or learned: against a truthful producer, status 200 is
      reached exactly when everything up to the end has been inserted. */
  lemma TruthfulRunComplete(start: nat, end: Option<nat>, now: int, last: nat, es: seq<Event>)
    requires end.Some? ==> start <= end.value
    requires ValidRun(Begin(start, end, now), es) && Truthful(last, es)
    ensures var s := Run(Begin(start, end, now), es);
            s.end.Some? ==> (s.status == COMPLETE <==> s.inserted == Interval(start, s.end.value + 1))
  {
    var b := Begin(start, end, now);
    var s := Run(b, es);
    RunCounts(start, end, now, es);
    TruthfulEnd(b, last, es);
    if s.end.Some? {
      if end.Some? {
        EndOnlyComesDown(b, es);
      }
      assert Overshoot(s) == {};
      CompleteWithoutOvershoot(s);
    }
  }

  // ---- Flow control ----

  /** At most twelve interests are in flight, each block id is requested at most four times, and
      first requests are start, start + 1, ... without a gap. */
  lemma FlowControl(start: nat, end: Option<nat>, now: int, es: seq<Event>, x: nat)
    requires end.Some? ==> start <= end.value
    requires ValidRun(Begin(start, end, now), es)
    ensures var s := Run(Begin(start, end, now), es);
            && |s.pending.Keys| + |s.rejected| <= InitialWindow(start, end) <= 12
            && FirstSeen(s.requests) == Ascending(start, s.frontier)
            && Times(s.requests, x) <= 4
            && (Times(s.requests, x) > 0 <==> start <= x < s.frontier)
  {
    Reachable(start, end, now, es);
    StartIsFixed(Begin(start, end, now), es);
  }

  // ---- Termination ----

  /** Answers still owed for the block ids in [lo, hi): one for each transmission left. */
  function Owed(pending: map<nat, nat>, lo: nat, hi: nat): (n: nat)
    decreases hi
  {
    if hi <= lo then 0 else
      var last: nat := hi - 1;
      Owed(pending, lo, last) + Cost(pending, last)
  }

  function Cost(pending: map<nat, nat>, x: nat): (n: nat)
  {
    if x in pending && pending[x] <= RETRY_TIMEOUT then 1 + RETRY_TIMEOUT - pending[x] else 0
  }

  lemma {:induction false} OwedChange(p: map<nat, nat>, q: map<nat, nat>, lo: nat, hi: nat, seg: nat)
    requires forall x: nat :: lo <= x < hi && x != seg ==> Cost(p, x) == Cost(q, x)
    ensures Owed(q, lo, hi) == Owed(p, lo, hi) + if lo <= seg < hi then Cost(q, seg) - Cost(p, seg) else 0
    decreases hi
  {
    if lo < hi {
      OwedChange(p, q, lo, hi - 1, seg);
    }
  }

  /** Answers the session can still handle. */
  function Measure(s: Session): (n: nat)
    requires s.end.Some?
  {
    Owed(s.pending, s.start, s.frontier)
    + if s.alive && s.frontier <= s.end.value then (1 + RETRY_TIMEOUT) * (s.end.value + 1 - s.frontier) else 0
  }

  lemma RetryOwed(s: Session, seg: nat)
    requires seg in s.pending && s.start <= seg < s.frontier && s.pending[seg] <= RETRY_TIMEOUT
    ensures Owed(Retry(s, seg).pending, s.start, s.frontier) < Owed(s.pending, s.start, s.frontier)
  {
    OwedChange(s.pending, Retry(s, seg).pending, s.start, s.frontier, seg);
  }

  /** The retry of a block, or the drop of its process, uses up one transmission of it. */
  lemma RetryCost(s: Session, seg: nat)
    requires s.end.Some? && s.alive && seg in s.pending && s.start <= seg < s.frontier
    requires s.pending[seg] <= RETRY_TIMEOUT
    ensures Measure(Retry(s, seg)) < Measure(s)
  {
    RetryOwed(s, seg);
  }

  lemma AnswerCost(s: Session, seg: nat)
    requires seg in s.pending && s.start <= seg < s.frontier && s.pending[seg] <= RETRY_TIMEOUT
    ensures Owed(s.pending - {seg}, s.start, s.frontier) < Owed(s.pending, s.start, s.frontier)
  {
    OwedChange(s.pending, s.pending - {seg}, s.start, s.frontier, seg);
  }

  lemma RequestCost(p: map<nat, nat>, lo: nat, hi: nat)
    requires lo <= hi && hi !in p
    ensures Owed(p[hi := 0], lo, hi + 1) == Owed(p, lo, hi) + 1 + RETRY_TIMEOUT
  {
    OwedChange(p, p[hi := 0], lo, hi + 1, hi);
  }

  lemma DataCost(s: Session, e: Event)
    requires s.alive && s.end.Some? && Enabled(s, e) && e.Data?
    requires s.start <= e.seg < s.frontier && s.pending[e.seg] <= RETRY_TIMEOUT && s.frontier !in s.pending
    ensures Step(s, e).end.Some?
    ensures Measure(Step(s, e)) < Measure(s)
  {
    AnswerCost(s, e.seg);
    RequestCost(s.pending - {e.seg}, s.start, s.frontier);
    var a := Accept(s, e.seg, e.final, e.stored, e.now);
    assert a.end.Some? && a.end.value <= s.end.value;
  }

  /** An answer that requests nothing uses up what was owed for its id. */
  lemma DropCost(s: Session, e: Event)
    requires s.end.Some? && Enabled(s, e) && e.Answer() && (!s.alive || e.Reject?)
    requires s.start <= e.seg < s.frontier && s.pending[e.seg] <= RETRY_TIMEOUT
    ensures Step(s, e).end.Some?
    ensures Measure(Step(s, e)) < Measure(s)
  {
    AnswerCost(s, e.seg);
  }

  lemma QuietCost(s: Session, e: Event)
    requires s.end.Some? && Enabled(s, e) && !e.Answer()
    ensures Step(s, e).end.Some?
    ensures Measure(Step(s, e)) <= Measure(s)
  {
  }

  /** Once the end is known, every answer uses up part of a finite allowance. */
  lemma AnswersUseUpTheMeasure(s: Session, e: Event)
    requires Inv(s) && s.end.Some? && Enabled(s, e)
    ensures Step(s, e).end.Some?
    ensures Measure(Step(s, e)) + (if e.Answer() then 1 else 0) <= Measure(s)
  {
    if e.Answer() {
      PendingIsRequested(s, e.seg);
      AnswerUsesUpTheMeasure(s, e);
    } else {
      QuietCost(s, e);
    }
  }

  lemma AnswerUsesUpTheMeasure(s: Session, e: Event)
    requires s.end.Some? && Enabled(s, e) && e.Answer()
    requires s.start <= e.seg < s.frontier && s.pending[e.seg] <= RETRY_TIMEOUT && s.frontier !in s.pending
    ensures Step(s, e).end.Some?
    ensures Measure(Step(s, e)) < Measure(s)
  {
    if !s.alive || e.Reject? {
      DropCost(s, e);
    } else if e.Timeout? {
      RetryCost(s, e.seg);
    } else {
      DataCost(s, e);
    }
  }

  function Answers(es: seq<Event>): (n: nat)
  {
    if es == [] then 0
    else Answers(es[..|es| - 1]) + if es[|es| - 1].Answer() then 1 else 0
  }

  lemma {:induction false} AnswersAreBounded(s: Session, es: seq<Event>)
    requires Inv(s) && s.end.Some? && ValidRun(s, es)
    ensures Run(s, es).end.Some?
    ensures Answers(es) + Measure(Run(s, es)) <= Measure(s)
  {
    if es != [] {
      AnswersAreBounded(s, es[..|es| - 1]);
      RunInv(s, es[..|es| - 1]);
      AnswersUseUpTheMeasure(Run(s, es[..|es| - 1]), es[|es| - 1]);
    }
  }

  lemma {:induction false} OwedAtStart(p: map<nat, nat>, lo: nat, hi: nat)
    requires lo <= hi && forall x: nat :: lo <= x < hi ==> x in p && p[x] == 0
    ensures Owed(p, lo, hi) == (1 + RETRY_TIMEOUT) * (hi - lo)
    decreases hi
  {
    if lo < hi {
      OwedAtStart(p, lo, hi - 1);
    }
  }

  /** A process that is told its range of n block ids handles at most 4n answers. */
  lemma CommandHandlesBoundedAnswers(start: nat, end: nat, now: int, es: seq<Event>)
    requires start <= end && ValidRun(Begin(start, Some(end), now), es)
    ensures Answers(es) <= 4 * (end - start + 1)
  {
    BeginInv(start, Some(end), now);
    AnswersAreBounded(Begin(start, Some(end), now), es);
    BeginMeasure(start, end, now);
  }

  lemma BeginMeasure(start: nat, end: nat, now: int)
    requires start <= end
    ensures Measure(Begin(start, Some(end), now)) == 4 * (end - start + 1)
  {
    var first := start + InitialWindow(start, Some(end));
    FirstTriesFacts(start, first);
    OwedAtStart(FirstTries(start, first), start, first);
  }

  // ---- No stall ----

  /** Some block id of the known range was never received. */
  ghost predicate Missing(s: Session)
    requires s.end.Some?
  {
    exists x: nat :: s.start <= x <= s.end.value && x !in s.received
  }

  /** No block id of the known range is outstanding. Ids beyond the end may be: the window is opened before
      the end is learned, and nobody answers those. */
  ghost predicate RangeAnswered(s: Session)
    requires s.end.Some?
  {
    forall x :: x in s.pending ==> x > s.end.value
  }

  /** A live process that knows its end and waits for no block of its range never received one of them
      exactly when some answer inside the range failed validation. */
  lemma StallsOnlyByRejection(s: Session)
    requires Inv(s) && s.alive && s.end.Some? && RangeAnswered(s)
    ensures Missing(s) <==> exists x :: x in s.rejected && x <= s.end.value
  {
    if x: nat :| s.start <= x <= s.end.value && x !in s.received {
      if s.frontier <= s.end.value {
        NothingOutstanding(s);
        var y :| y in s.rejected;
        assert Requested(s, y);
      } else {
        assert Requested(s, x);
      }
    }
    if y :| y in s.rejected && y <= s.end.value {
      assert Requested(s, y);
      assert y !in s.received;
    }
  }

  lemma NothingOutstanding(s: Session)
    requires Partition(s) && s.end.Some? && s.frontier <= s.end.value && RangeAnswered(s)
    ensures s.pending == map[]
  {
    forall x | x in s.pending
      ensures false
    {
      assert Requested(s, x);
    }
  }

  /** Hence, with nothing rejected, some block of the known range stays outstanding until all are in. */
  lemma NoStall(start: nat, end: Option<nat>, now: int, es: seq<Event>)
    requires end.Some? ==> start <= end.value
    requires ValidRun(Begin(start, end, now), es)
    ensures var s := Run(Begin(start, end, now), es);
            s.alive && s.end.Some? && s.rejected == {} && Missing(s) ==> exists x :: x in s.pending && x <= s.end.value
  {
    Reachable(start, end, now, es);
    var s := Run(Begin(start, end, now), es);
    if s.alive && s.end.Some? && RangeAnswered(s) {
      StallsOnlyByRejection(s);
    }
  }

  /** With nothing lost, the last answer inside the range sets status 200. */
  lemma AnsweredMeansComplete(s: Session)
    requires Inv(s) && s.alive && s.end.Some? && RangeAnswered(s)
    requires s.rejected == {} && s.inserted == s.received
    ensures s.status == COMPLETE
  {
    StallsOnlyByRejection(s);
    var range := Interval(s.start, s.end.value + 1);
    IntervalFacts(s.start, s.end.value + 1);
    forall x | x in range
      ensures x in s.inserted
    {
      assert !Missing(s);
    }
    SubsetSize(range, s.inserted);
    InvCounts(s);
  }

  lemma {:induction false} FrontierGrows(s: Session, es: seq<Event>)
    requires ValidRun(s, es)
    ensures s.frontier <= Run(s, es).frontier
  {
    if es != [] {
      FrontierGrows(s, es[..|es| - 1]);
    }
  }

  /** What a fresh process has outstanding: the ids from the start on, twelve of them unless the end comes
      first, each sent once. */
  lemma WindowOpens(start: nat, end: Option<nat>, now: int)
    requires end.Some? ==> start <= end.value
    ensures var b := Begin(start, end, now);
            && (forall x: nat :: x in b.pending <==> start <= x < start + 12 && (end.Some? ==> x <= end.value))
            && (forall x :: x in b.pending ==> b.pending[x] == 0)
            && b.requests == Ascending(start, b.frontier)
            && b.frontier == if end.Some? && end.value < start + 12 then end.value + 1 else start + 12
  {
    FirstTriesFacts(start, start + InitialWindow(start, end));
  }

  /** The window stays full: as long as ids are left to request and no deletion is scheduled, twelve are
      outstanding, less those whose answers were rejected. */
  lemma WindowStaysFull(start: nat, end: Option<nat>, now: int, es: seq<Event>)
    requires end.Some? ==> start <= end.value
    requires ValidRun(Begin(start, end, now), es)
    ensures var s := Run(Begin(start, end, now), es);
            s.alive && !s.deleting && (s.end.None? || s.frontier <= s.end.value) ==>
              |s.pending.Keys| + |s.rejected| == 12
  {
    var b := Begin(start, end, now);
    Reachable(start, end, now, es);
    StartIsFixed(b, es);
    FrontierGrows(b, es);
    if end.Some? {
      EndOnlyComesDown(b, es);
    }
  }

  /** With the end unknown, a live process either keeps its whole window busy or awaits deletion. */
  lemma BusyUntilTheEndIsKnown(start: nat, end: Option<nat>, now: int, es: seq<Event>)
    requires end.Some? ==> start <= end.value
    requires ValidRun(Begin(start, end, now), es)
    ensures var s := Run(Begin(start, end, now), es);
            s.alive && s.end.None? && !s.deleting ==> |s.pending.Keys| + |s.rejected| == 12
  {
    WindowStaysFull(start, end, now, es);
  }

  /** Answers that came and do not count: rejected by the validator, or refused by the storage. */
  function Lost(s: Session): (ids: set<nat>) {
    s.rejected + (s.received - s.inserted)
  }

  lemma RequestedIds(s: Session)
    requires Inv(s) && s.alive
    ensures forall x: nat :: x in Lost(s) + s.pending.Keys + s.inserted <==> s.start <= x < s.frontier
    ensures Lost(s) !! s.pending.Keys && (Lost(s) + s.pending.Keys) !! s.inserted
    ensures s.start <= s.frontier
  {
    assert forall x: nat :: x in Lost(s) + s.pending.Keys + s.inserted <==> Requested(s, x);
  }

  lemma RequestedParts(s: Session)
    requires Inv(s) && s.alive
    ensures |Lost(s)| + |s.pending.Keys| + |s.inserted| == s.frontier - s.start
  {
    RequestedIds(s);
    PartsOfInterval(Lost(s) + s.pending.Keys, s.inserted, s.start, s.frontier);
    assert |Lost(s) + s.pending.Keys| == |Lost(s)| + |s.pending.Keys|;
  }

  /** A live process that knows its end has status 200 exactly when no more answers are lost or still to
      come than ids beyond the end were requested. */
  lemma CompleteExactly(s: Session)
    requires Inv(s) && s.alive && s.end.Some?
    ensures s.status == COMPLETE <==> |Lost(s)| + |s.pending.Keys| <= s.frontier - (s.end.value + 1)
  {
    RequestedParts(s);
    InvCounts(s);
  }

  /** Once it waits for nothing, and with none beyond the end: exactly when nothing was lost. */
  lemma SettledMeansComplete(s: Session)
    requires Inv(s) && s.alive && s.end.Some? && s.pending == map[]
    ensures s.status == COMPLETE <==> |Lost(s)| <= s.frontier - (s.end.value + 1)
    ensures s.frontier <= s.end.value + 1 ==>
              (s.status == COMPLETE <==> s.rejected == {} && s.inserted == s.received)
    ensures s.rejected == {} && s.inserted == s.received ==> s.status == COMPLETE
  {
    CompleteExactly(s);
    LostNothing(s);
  }

  lemma LostNothing(s: Session)
    requires s.inserted <= s.received
    ensures |Lost(s)| == 0 <==> s.rejected == {} && s.inserted == s.received
  {
    if Lost(s) == {} {
      assert s.received - s.inserted <= Lost(s) && s.rejected <= Lost(s);
    }
  }

  // ---- The deadline for learning the end ----

  /** The event brings a FinalBlockId. */
  predicate NamesEnd(e: Event) {
    e.Data? && e.final.Some?
  }

  /** No event brings a FinalBlockId. */
  ghost predicate Unnamed(es: seq<Event>) {
    forall e :: e in es ==> !NamesEnd(e)
  }

  lemma UnnamedParts(es: seq<Event>)
    requires es != [] && Unnamed(es)
    ensures Unnamed(es[..|es| - 1]) && !NamesEnd(es[|es| - 1])
  {
    assert forall e :: e in es[..|es| - 1] ==> e in es;
  }

  /** The end is unknown and the deadline for learning it has passed. */
  predicate Late(s: Session) {
    s.end.None? && s.clock > s.deadline
  }

  lemma StaysLate(s: Session, e: Event)
    requires Late(s) && Enabled(s, e) && !NamesEnd(e)
    ensures var t := Step(s, e); Late(t) && t.deadline == s.deadline && t.frontier == s.frontier
  {
  }

  /** Once the deadline has passed with the end unknown, only a FinalBlockId revives the process:
      until one arrives nothing new is requested and no status check moves the deadline. */
  lemma {:induction false} LateUntilEndIsNamed(s: Session, es: seq<Event>)
    requires ValidRun(s, es) && Late(s) && Unnamed(es)
    ensures var t := Run(s, es); Late(t) && t.deadline == s.deadline && t.frontier == s.frontier
  {
    if es != [] {
      UnnamedParts(es);
      LateUntilEndIsNamed(s, es[..|es| - 1]);
      StaysLate(Run(s, es[..|es| - 1]), es[|es| - 1]);
    }
  }

  lemma LateStep(s: Session, e: Event)
    requires Late(s) && Enabled(s, e) && !NamesEnd(e)
    requires e.Answer() ==> s.start <= e.seg < s.frontier && s.pending[e.seg] <= RETRY_TIMEOUT
    ensures var t := Step(s, e);
            Owed(t.pending, s.start, s.frontier) + (if e.Answer() then 1 else 0) <= Owed(s.pending, s.start, s.frontier)
  {
    if e.Timeout? && s.alive {
      RetryOwed(s, e.seg);
    } else if e.Answer() {
      AnswerCost(s, e.seg);
    }
  }

  /** What is still owed to a late process bounds the answers it handles before a FinalBlockId comes. */
  lemma {:induction false} LateAnswersAreOwed(s: Session, es: seq<Event>)
    requires Inv(s) && Late(s) && ValidRun(s, es) && Unnamed(es)
    ensures Answers(es) + Owed(Run(s, es).pending, s.start, s.frontier) <= Owed(s.pending, s.start, s.frontier)
  {
    if es != [] {
      var front, e := es[..|es| - 1], es[|es| - 1];
      UnnamedParts(es);
      LateAnswersAreOwed(s, front);
      LateUntilEndIsNamed(s, front);
      StartIsFixed(s, front);
      RunInv(s, front);
      if e.Answer() {
        PendingIsRequested(Run(s, front), e.seg);
      }
      LateStep(Run(s, front), e);
    }
  }

  /** How many of the ids in [lo, hi) are outstanding. */
  function Kept(keys: set<nat>, lo: nat, hi: nat): (n: nat)
    decreases hi
  {
    if hi <= lo then 0 else
      var last: nat := hi - 1;
      Kept(keys, lo, last) + if last in keys then 1 else 0
  }

  lemma {:induction false} KeptAtMost(keys: set<nat>, lo: nat, hi: nat)
    ensures Kept(keys, lo, hi) == |keys * Interval(lo, hi)|
    decreases hi
  {
    if lo < hi {
      KeptAtMost(keys, lo, hi - 1);
      IntervalGrows(keys, lo, hi);
    }
  }

  lemma {:induction false} OwedAtMost(pending: map<nat, nat>, lo: nat, hi: nat)
    ensures Owed(pending, lo, hi) <= 4 * Kept(pending.Keys, lo, hi)
    decreases hi
  {
    if lo < hi {
      OwedAtMost(pending, lo, hi - 1);
    }
  }

  /** Past its deadline, and until a FinalBlockId arrives, a process handles at most 48 answers. */
  lemma LateProcessSettles(s: Session, es: seq<Event>)
    requires Inv(s) && Late(s) && ValidRun(s, es) && Unnamed(es)
    ensures Answers(es) <= 48
  {
    LateAnswersAreOwed(s, es);
    OwedAtMost(s.pending, s.start, s.frontier);
    KeptAtMost(s.pending.Keys, s.start, s.frontier);
    SubsetSize(s.pending.Keys * Interval(s.start, s.frontier), s.pending.Keys);
    WindowBounds(s);
  }

  lemma WindowBounds(s: Session)
    requires Inv(s)
    ensures |s.pending.Keys| <= 12
  {
  }
}

/** The deadline for learning the end: when status checks renew it, and when status 405 is reported. */
module FetchDeadline {
  import opened Wrappers
  import opened Intervals
  import opened FetchSession
  import opened FetchProperties

  /** The last time the client asked for the status, or the time of the command. */
  function LastCheck(now: int, es: seq<Event>): (time: int)
  {
    if es == [] then now
    else match es[|es| - 1]
      case Check(time) => time
      case _ => LastCheck(now, es[..|es| - 1])
  }

  /** Some status check or accepted answer came more than ten seconds after the last check before it. */
  predicate Overdue(now: int, es: seq<Event>) {
    es != [] && (Overdue(now, es[..|es| - 1]) || ComesLate(now, es[..|es| - 1], es[|es| - 1]))
  }

  predicate ComesLate(now: int, front: seq<Event>, e: Event) {
    (e.Check? || e.Data?) && e.now > LastCheck(now, front) + 10000
  }

  /** An accepted answer came when the process was overdue. */
  predicate AnsweredLate(now: int, es: seq<Event>) {
    es != [] && (AnsweredLate(now, es[..|es| - 1]) || (es[|es| - 1].Data? && Overdue(now, es)))
  }

  /** How many accepted answers came in time. */
  function InTime(now: int, es: seq<Event>): (n: nat)
  {
    if es == [] then 0
    else InTime(now, es[..|es| - 1]) + if es[|es| - 1].Data? && !Overdue(now, es) then 1 else 0
  }

  /** Where a process with an unknown end stands. */
  ghost predicate OnTime(s: Session, start: nat, now: int, es: seq<Event>) {
    && s.end.None? && s.start == start
    && (if Overdue(now, es) then s.clock > s.deadline && s.status == 405
        else s.deadline == LastCheck(now, es) + 10000 && s.status == 300)
    && (s.deleting <==> AnsweredLate(now, es))
    && s.frontier == start + 12 + InTime(now, es)
  }

  lemma OnTimeStep(s: Session, start: nat, now: int, front: seq<Event>, e: Event)
    requires OnTime(s, start, now, front) && s.alive && Enabled(s, e) && !NamesEnd(e) && Step(s, e).alive
    ensures OnTime(Step(s, e), start, now, front + [e])
  {
    assert (front + [e])[..|front|] == front;
  }

  lemma {:induction false} AliveBefore(b: Session, es: seq<Event>)
    requires es != [] && ValidRun(b, es) && Run(b, es).alive
    ensures Run(b, es[..|es| - 1]).alive
  {
  }

  /** While the end is unknown, status 405 is reported exactly if a status check or an accepted answer came
      more than ten seconds after the last check before it, deletion is scheduled exactly by an accepted
      answer after that, and every accepted answer before it had one more block requested. */
  lemma {:induction false} DeadlineExactly(start: nat, now: int, es: seq<Event>)
    requires ValidRun(Begin(start, None, now), es) && Unnamed(es) && Run(Begin(start, None, now), es).alive
    ensures var t := Run(Begin(start, None, now), es);
            && t.end.None?
            && t.status == (if Overdue(now, es) then 405 else 300)
            && (t.deleting <==> AnsweredLate(now, es))
            && t.frontier == start + 12 + InTime(now, es)
    ensures OnTime(Run(Begin(start, None, now), es), start, now, es)
  {
    var b := Begin(start, None, now);
    if es != [] {
      var front, e := es[..|es| - 1], es[|es| - 1];
      assert es == front + [e];
      UnnamedParts(es);
      AliveBefore(b, es);
      DeadlineExactly(start, now, front);
      OnTimeStep(Run(b, front), start, now, front, e);
    }
  }

  /** A status check in time gives the process ten more seconds: an answer within them has the next block
      requested, an answer after them ends the process with status 405. */
  lemma CheckRenews(s: Session, x: nat, ok: bool, now: int, later: int)
    requires s.alive && s.end.None? && s.clock <= now <= s.deadline && now <= later && x in s.pending
    ensures var es := [Check(now), Data(x, None, ok, later)];
            && ValidRun(s, es)
            && var t := Run(s, es);
               if later <= now + 10000
               then t.frontier == s.frontier + 1 && t.status == s.status && t.deleting == s.deleting
               else t.frontier == s.frontier && t.status == 405 && t.deleting
  {
    RunAppend(s, [], Check(now));
    RunAppend(s, [Check(now)], Data(x, None, ok, later));
    assert [] + [Check(now)] == [Check(now)];
    assert [Check(now)] + [Data(x, None, ok, later)] == [Check(now), Data(x, None, ok, later)];
  }

  lemma KnownEndStep(s: Session, e: Event)
    requires Enabled(s, e) && Step(s, e).end.Some?
    ensures Step(s, e).status == s.status || Step(s, e).status == 200
    ensures Step(s, e).deleting ==> s.deleting || Step(s, e).status == 200
  {
  }

  /** Once the end is known, the deadline is forgotten: the status changes to 200 or not at all, and
      nothing else schedules a deletion. */
  lemma {:induction false} KnownEndKeepsStatus(s: Session, es: seq<Event>)
    requires Inv(s) && s.end.Some? && ValidRun(s, es)
    ensures var t := Run(s, es);
            && t.end.Some? && (t.status == s.status || t.status == 200)
            && (t.deleting ==> s.deleting || t.status == 200)
            && (s.status == 200 ==> t.status == 200)
  {
    if es != [] {
      var front, e := es[..|es| - 1], es[|es| - 1];
      KnownEndKeepsStatus(s, front);
      StatusCounts(s, front);
      StatusCounts(s, es);
      assert Run(s, es) == Step(Run(s, front), e);
      StillCounted(Run(s, front), e);
      KnownEndStep(Run(s, front), e);
    }
  }

  lemma StatusCounts(s: Session, es: seq<Event>)
    requires Inv(s) && ValidRun(s, es)
    ensures Run(s, es).status == 200 <==> Counted(Run(s, es))
  {
    RunInv(s, es);
  }

  /** What was counted stays counted, and a known end known. */
  lemma StillCounted(s: Session, e: Event)
    requires s.end.Some? && Enabled(s, e)
    ensures Step(s, e).end.Some?
    ensures Counted(s) ==> Counted(Step(s, e))
  {
    SubsetSize(s.inserted, Step(s, e).inserted);
  }
}

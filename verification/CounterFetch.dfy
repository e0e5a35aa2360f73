/** The counter pattern: fetches prefix/0, prefix/1, ..., prefix/9, one at a time.

    Fetch is what the pattern is meant to do, as a machine that waits for one thing at a time. The
    class below has callbacks, a pending-timer count and a list of outstanding interests, and is
    proved to simulate it. */
module CounterFetch {
  import opened Names
  import opened Storage

  const ROUNDS: nat := 10

  /** What the pattern waits for; Idle when nothing is pending. */
  datatype Phase = Pausing | Asking | Idle

  datatype Fetch = Fetch(prefix: Name, asked: nat, answered: nat, phase: Phase, running: bool)

  /** The pending timer fires; data answers the outstanding interest; the interest is lost without an
      answer, which calls nothing; the pattern is cancelled. */
  datatype Event = Timer | Data | Lost | Cancel

  function Begin(prefix: Name): Fetch {
    Fetch(prefix, 0, 0, Pausing, true)
  }

  predicate Enabled(f: Fetch, e: Event) {
    match e
    case Timer => f.phase == Pausing
    case Data => f.phase == Asking
    case Lost => f.phase == Asking
    case Cancel => true
  }

  function Step(f: Fetch, e: Event): Fetch
    requires Enabled(f, e)
  {
    match e
    case Timer => if f.running then f.(asked := f.asked + 1, phase := Asking) else f.(phase := Idle)
    case Data =>
      var n := f.answered + 1;
      if n < ROUNDS then f.(answered := n, phase := Pausing) else f.(answered := n, phase := Idle, running := false)
    case Lost => f.(phase := Idle)
    case Cancel => f.(running := false)
  }

  predicate ValidRun(f: Fetch, es: seq<Event>)
    decreases |es|, 0
  {
    es == [] || (ValidRun(f, es[..|es| - 1]) && Enabled(Run(f, es[..|es| - 1]), es[|es| - 1]))
  }

  function Run(f: Fetch, es: seq<Event>): Fetch
    requires ValidRun(f, es)
    decreases |es|, 1
  {
    if es == [] then f else Step(Run(f, es[..|es| - 1]), es[|es| - 1])
  }

  ghost predicate Inv(f: Fetch) {
    && f.answered <= f.asked <= ROUNDS
    && (f.phase == Pausing ==> f.asked == f.answered < ROUNDS)
    && (f.phase == Asking ==> f.asked == f.answered + 1)
    && (f.phase == Idle ==> f.asked <= f.answered + 1)
  }

  /** Any interleaving asks at most ten times, and every answer but a pending or lost one has come. */
  lemma {:induction false} RunInv(f: Fetch, es: seq<Event>)
    requires Inv(f) && ValidRun(f, es)
    ensures Inv(Run(f, es)) && Run(f, es).prefix == f.prefix
    ensures var t := Run(f, es);
            && t.answered <= t.asked <= t.answered + 1 && t.asked <= 10
            && (t.phase == Asking ==> t.asked == t.answered + 1)
  {
    if es != [] {
      RunInv(f, es[..|es| - 1]);
    }
  }

  /** After a cancellation nothing more is asked, and at most the one outstanding answer is stored. */
  lemma {:induction false} CancelledStaysQuiet(f: Fetch, es: seq<Event>)
    requires Inv(f) && ValidRun(f, es) && !f.running
    ensures var t := Run(f, es);
            && !t.running && t.asked == f.asked
            && f.answered <= t.answered <= f.answered + (if f.phase == Asking then 1 else 0)
            && (t.phase == Asking ==> f.phase == Asking && t.answered == f.answered)
  {
    if es != [] {
      CancelledStaysQuiet(f, es[..|es| - 1]);
      RunInv(f, es[..|es| - 1]);
    }
  }

  /** A cancellation stops a pattern whatever it is doing and whatever happens next. */
  lemma {:induction false} CancelStops(f: Fetch, es: seq<Event>)
    requires Inv(f) && ValidRun(f, [Cancel] + es)
    ensures var t := Run(f, [Cancel] + es);
            && !t.running && t.asked == f.asked
            && f.answered <= t.answered <= f.answered + (if f.phase == Asking then 1 else 0)
  {
    RunInFront(f, Cancel, es);
    CancelledStaysQuiet(Step(f, Cancel), es);
  }

  lemma {:induction false} RunInFront(f: Fetch, e: Event, es: seq<Event>)
    requires ValidRun(f, [e] + es)
    ensures Enabled(f, e) && ValidRun(Step(f, e), es) && Run(f, [e] + es) == Run(Step(f, e), es)
  {
    var all := [e] + es;
    if es == [] {
      assert all == [e] && all[..0] == [];
    } else {
      assert all[..|all| - 1] == [e] + es[..|es| - 1];
      RunInFront(f, e, es[..|es| - 1]);
    }
  }

  /** What is still to happen, as a count of callbacks. */
  function Remaining(f: Fetch): (n: nat)
    requires Inv(f)
  {
    match f.phase
    case Pausing => 2 * (ROUNDS - f.answered)
    case Asking => 2 * (ROUNDS - f.answered) - 1
    case Idle => 0
  }

  function Callbacks(es: seq<Event>): (n: nat)
  {
    if es == [] then 0 else Callbacks(es[..|es| - 1]) + if es[|es| - 1] == Cancel then 0 else 1
  }

  /** A pattern handles at most twenty timers, answers and losses, whatever their order. */
  lemma {:induction false} PatternTerminates(prefix: Name, es: seq<Event>)
    requires ValidRun(Begin(prefix), es)
    ensures Inv(Run(Begin(prefix), es))
    ensures Callbacks(es) + Remaining(Run(Begin(prefix), es)) <= 20
  {
    if es != [] {
      PatternTerminates(prefix, es[..|es| - 1]);
    }
  }

  /** Left alone, a pattern that has come to rest has all ten answers; one lost interest and it rests
      short of them, although it still counts as running. */
  lemma {:induction false} LossStopsShort(prefix: Name, es: seq<Event>)
    requires ValidRun(Begin(prefix), es)
    ensures var t := Run(Begin(prefix), es);
            && (Lost in es <==> t.phase == Idle && t.answered < t.asked)
            && (Lost in es && Cancel !in es ==> t.running)
            && (t.phase == Idle && Cancel !in es ==> (t.answered == 10 <==> Lost !in es))
  {
    PatternTerminates(prefix, es);
    if es != [] {
      var front := es[..|es| - 1];
      LossStopsShort(prefix, front);
      PatternTerminates(prefix, front);
      assert es == front + [es[|es| - 1]];
      if Cancel !in front {
        NeverStopsEarly(prefix, front);
      }
    }
  }

  /** The first interest lost, and the pattern rests with nothing fetched, running all the same. */
  lemma FirstInterestLost(prefix: Name)
    ensures var es := [Timer, Lost];
            && ValidRun(Begin(prefix), es)
            && Run(Begin(prefix), es) == Fetch(prefix, 1, 0, Idle, true)
  {
    assert [Timer, Lost][..1] == [Timer] && [Timer][..0] == [];
    assert Run(Begin(prefix), [Timer]) == Fetch(prefix, 1, 0, Asking, true);
  }

  lemma {:induction false} NeverStopsEarly(prefix: Name, es: seq<Event>)
    requires ValidRun(Begin(prefix), es) && Cancel !in es
    ensures Run(Begin(prefix), es).running <==> Run(Begin(prefix), es).answered < ROUNDS
  {
    if es != [] {
      var front := es[..|es| - 1];
      assert es == front + [es[|es| - 1]];
      NeverStopsEarly(prefix, front);
      PatternTerminates(prefix, front);
    }
  }

  /** Nothing but a cancellation happens to a pattern at rest. */
  lemma {:induction false} RestsForGood(f: Fetch, es: seq<Event>)
    requires f.phase == Idle && ValidRun(f, es)
    ensures Run(f, es) == f.(running := Run(f, es).running) && Callbacks(es) == 0
  {
    if es != [] {
      RestsForGood(f, es[..|es| - 1]);
    }
  }

  // ---- The pattern object ----

  /** std::to_string for a counter, which never names a round past the last. */
  function Digit(n: nat): (s: string)
    requires n < ROUNDS
  {
    ["0123456789"[n]]
  }

  /** The decimal digit of n, and no other number's. */
  lemma DigitIsDecimal(n: nat)
    requires n < ROUNDS
    ensures Digit(n) == [('0' as int + n) as char]
    ensures forall m: nat :: m < ROUNDS && Digit(m) == Digit(n) ==> m == n
  {
    forall m: nat | m < ROUNDS
      ensures "0123456789"[m] == ('0' as int + m) as char
    {
    }
  }

  /** The interest names prefix/0, ..., prefix/(n - 1). */
  function FirstInterests(prefix: Name, n: nat): (names: seq<Name>)
    requires n <= ROUNDS
  {
    if n == 0 then [] else FirstInterests(prefix, n - 1) + [prefix + [Digit(n - 1)]]
  }

  class CounterPattern {
    var running: bool
    var counter: nat
    var fetchPrefix: Name

    // What the face has seen: pending timers, outstanding interests, and all interests expressed.
    var timers: nat
    var outstanding: seq<Name>
    var expressed: seq<Name>
    // The interests whose answers were handed to the storage, in order.
    var fetched: seq<Name>

    ghost const id: nat       // its name in a run
    ghost var started: bool
    ghost var state: Fetch

    ghost predicate Valid()
      reads this
    {
      && Fits(state, started, running, counter, fetchPrefix)
      && Seen(state, started, timers, outstanding, expressed, fetched)
    }

    /** The fields against the machine. */
    static ghost predicate Fits(state: Fetch, started: bool, running: bool, counter: nat, fetchPrefix: Name) {
      && Inv(state) && fetchPrefix == state.prefix && running == (started && state.running)
      && if started then counter == state.answered else state == Begin(fetchPrefix)
    }

    /** What the face and the storage have seen against the machine. */
    static ghost predicate Seen(state: Fetch, started: bool, timers: nat, outstanding: seq<Name>,
                                expressed: seq<Name>, fetched: seq<Name>) {
      && Inv(state)
      && expressed == FirstInterests(state.prefix, state.asked)
      && fetched == FirstInterests(state.prefix, state.answered)
      && timers == (if started && state.phase == Pausing then 1 else 0)
      && outstanding == (if started && state.phase == Asking then [state.prefix + [Digit(state.answered)]] else [])
    }

    constructor (ghost id: nat)
      ensures Valid() && !started && this.id == id
    {
      this.id := id;
      running, counter, fetchPrefix := false, 0, [];
      timers, outstanding, expressed, fetched := 0, [], [], [];
      started, state := false, Begin([]);
    }

    method Fetch(prefix: Name)
      requires Valid() && !started
      modifies this
      ensures Valid() && started && state == Begin(prefix)
    {
      fetchPrefix := prefix;
      counter := 0;
      timers := timers + 1;
      running := true;
      started, state := true, Begin(prefix);
    }

    /** The timer callback. */
    method DoFetch()
      requires Valid() && started && timers > 0
      modifies this
      ensures Valid() && started && Enabled(old(state), Timer) && state == Step(old(state), Timer)
      ensures expressed == old(expressed) + if old(running) then [fetchPrefix + [Digit(old(counter))]] else []
    {
      timers := timers - 1;
      state := Step(state, Timer);
      if !running {
        return;
      }
      var fetchInterest := fetchPrefix + [Digit(counter)];
      expressed := expressed + [fetchInterest];
      outstanding := outstanding + [fetchInterest];
    }

    /** The answer to an outstanding interest is stored without validation; the next fetch follows in
        two seconds. `ok` is the database's verdict. */
    method OnData(interest: Name, data: Packet, ok: bool, storage: StorageEngine)
      requires Valid() && started && interest in outstanding
      requires storage.Consistent() && WellFormed(data.name)
      modifies this, storage`keys, storage`values
      ensures Valid() && started && Enabled(old(state), Event.Data) && state == Step(old(state), Event.Data)
      ensures old(state).prefix <= interest
      ensures storage.Consistent()
      ensures StorageEngine.Stores(old(storage.values), storage.values, storage.renamePrefix, data, ok)
      ensures storage.Stored() == old(storage.Stored()) + if ok then {Parse(storage.renamePrefix) + data.name} else {}
    {
      InterestExtends(state.prefix, interest);
      var stored := storage.Put(data, ok);
      ScheduleNext(interest);
    }

    /** An outstanding interest extends the pattern's prefix. */
    lemma InterestExtends(prefix: Name, interest: Name)
      requires Valid() && interest in outstanding && prefix == state.prefix
      ensures prefix <= interest
    {
    }

    /** The second half of the data callback. */
    method ScheduleNext(interest: Name)
      requires Valid() && started && interest in outstanding
      modifies this
      ensures Valid() && started && Enabled(old(state), Event.Data) && state == Step(old(state), Event.Data)
    {
      Answer(interest);
      fetched := fetched + [interest];
      state := Step(state, Event.Data);
      counter := counter + 1;
      if counter < 10 {
        timers := timers + 1;
      } else {
        running := false;
      }
    }

    /** An interest that is never answered: no callback was registered for that. */
    method InterestLost(interest: Name)
      requires Valid() && started && interest in outstanding
      modifies this
      ensures Valid() && started && Enabled(old(state), Lost) && state == Step(old(state), Lost)
    {
      Answer(interest);
      state := Step(state, Lost);
    }

    /** The face forgets one outstanding interest. */
    method Answer(interest: Name)
      requires interest in outstanding
      modifies this`outstanding
      ensures exists i :: 0 <= i < |old(outstanding)| && old(outstanding)[i] == interest
                && outstanding == old(outstanding)[..i] + old(outstanding)[i + 1..]
    {
      var i :| 0 <= i < |outstanding| && outstanding[i] == interest;
      outstanding := outstanding[..i] + outstanding[i + 1..];
    }

    method Cancel()
      requires Valid() && started
      modifies this
      ensures Valid() && started && state == Step(old(state), Event.Cancel) && !running
      ensures expressed == old(expressed) && outstanding == old(outstanding) && timers == old(timers)
    {
      running := false;
      state := Step(state, Event.Cancel);
    }

    /** At most one timer or interest is pending, and what was stored are the answers to prefix/0,
        prefix/1, ... without a gap, in the order asked. */
    lemma OneAtATime()
      requires Valid() && started
      ensures timers + |outstanding| <= 1
      ensures |fetched| <= |expressed| <= 10
      ensures forall i :: 0 <= i < |fetched| ==> fetched[i] == fetchPrefix + [Digit(i)]
      ensures fetched <= expressed
    {
      InterestsLength(fetchPrefix, state.asked);
      InterestsLength(fetchPrefix, state.answered);
      InterestsPrefix(fetchPrefix, state.answered, state.asked);
    }
  }

  lemma {:induction false} InterestsLength(prefix: Name, n: nat)
    requires n <= ROUNDS
    ensures |FirstInterests(prefix, n)| == n
    ensures forall i :: 0 <= i < n ==> FirstInterests(prefix, n)[i] == prefix + [Digit(i)]
  {
    if n > 0 {
      InterestsLength(prefix, n - 1);
    }
  }

  lemma {:induction false} InterestsPrefix(prefix: Name, m: nat, n: nat)
    requires m <= n <= ROUNDS
    ensures FirstInterests(prefix, m) <= FirstInterests(prefix, n)
  {
    if m < n {
      InterestsPrefix(prefix, m, n - 1);
    }
  }
}

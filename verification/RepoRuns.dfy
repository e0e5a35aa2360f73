/** Whole runs of a repository: the startup scan, then any interleaving of single inserts, pattern
    requests and the callbacks of counter patterns.

    The parts are the ones their classes are proved against: Register for the announced prefixes, Fetch
    for a counter pattern, and a store of names. A pattern that was cancelled may still have an
    interest outstanding, so patterns are kept for good; the table holds the active ones. */
module RepoRuns {
  import opened Wrappers
  import opened Names
  import opened LongestPrefixes
  import opened KeyTrie
  import opened FastRepo
  import opened CounterFetch

  datatype State = State(
    rename: Name,
    stored: set<Name>,
    dataPrefixes: seq<Name>,
    listened: seq<Name>,
    inserts: set<nat>,         // single-insert processes in progress
    fetches: map<nat, Fetch>,  // every counter pattern started so far
    table: map<Name, nat>)     // the active patterns, by fetch prefix
  {
    /** The table lists patterns that were started, under the prefixes they fetch. */
    predicate Owned() {
      forall p :: p in table ==> table[p] in fetches && fetches[table[p]].prefix == p
    }
  }

  type Repo = s: State | s.Owned() witness State([], {}, [], [], {}, map[], map[])

  /** `ok` is the database's verdict on a write. */
  datatype Event =
    | InsertCommand(pid: nat)
    | InsertData(pid: nat, name: Name, ok: bool)
    | InsertTimeout(pid: nat)
    | PatternCommand(prefix: Name, known: bool, id: nat)
    | CancelCommand(prefix: Name)
    | PatternTimer(id: nat)
    | PatternData(id: nat, name: Name, ok: bool)
    | PatternLost(id: nat)

  /** The repository right after the startup scan of a store that holds `names`. */
  function Startup(rename: Name, names: set<Name>, configured: seq<Name>, found: seq<Name>): Repo {
    State(rename, names, configured + found, configured + found, {}, map[], map[])
  }

  /** onDataInsertion(name). */
  ghost function Announce(r: Repo, name: Name): Repo {
    var prefixes := Register(r.dataPrefixes, name);
    r.(dataPrefixes := prefixes, listened := r.listened + prefixes[|r.dataPrefixes|..])
  }

  function Put(r: Repo, name: Name, ok: bool): Repo {
    if ok then r.(stored := r.stored + {r.rename + name}) else r
  }

  predicate PatternCan(r: Repo, id: nat, e: CounterFetch.Event) {
    id in r.fetches && CounterFetch.Enabled(r.fetches[id], e)
  }

  /** Data answers an interest only if its name extends the interest's; a new pattern is a new object. */
  predicate Enabled(r: Repo, e: Event) {
    match e
    case PatternCommand(_, _, id) => id !in r.fetches
    case PatternTimer(id) => PatternCan(r, id, Timer)
    case PatternData(id, name, _) => PatternCan(r, id, Data) && r.fetches[id].prefix <= name
    case PatternLost(id) => PatternCan(r, id, Lost)
    case _ => true
  }

  function PatternStep(r: Repo, id: nat, e: CounterFetch.Event): Repo
    requires PatternCan(r, id, e)
  {
    r.(fetches := r.fetches[id := CounterFetch.Step(r.fetches[id], e)])
  }

  ghost function Step(r: Repo, e: Event): Repo
    requires Enabled(r, e)
  {
    match e
    case InsertCommand(pid) => r.(inserts := r.inserts + {pid})
    case InsertData(pid, name, ok) =>
      if pid !in r.inserts then r
      else Announce(Put(r, name, ok), if ok then r.rename + name else []).(inserts := r.inserts - {pid})
    case InsertTimeout(pid) => r.(inserts := r.inserts - {pid})
    case PatternCommand(prefix, known, id) =>
      if prefix in r.table || !known then r
      else Announce(r, r.rename + prefix).(fetches := r.fetches[id := Begin(prefix)], table := r.table[prefix := id])
    case CancelCommand(prefix) =>
      if prefix !in r.table then r
      else PatternStep(r, r.table[prefix], Cancel).(table := r.table - {prefix})
    case PatternTimer(id) => PatternStep(r, id, Timer)
    case PatternData(id, name, ok) => PatternStep(Put(r, name, ok), id, Data)
    case PatternLost(id) => PatternStep(r, id, Lost)
  }

  /** What a fetch request changes. */
  lemma CommandStep(r: Repo, prefix: Name, known: bool, id: nat)
    requires Enabled(r, PatternCommand(prefix, known, id))
    ensures var prefixes := Register(r.dataPrefixes, r.rename + prefix);
            Step(r, PatternCommand(prefix, known, id))
            == if prefix in r.table || !known then r
               else r.(dataPrefixes := prefixes, listened := r.listened + prefixes[|r.dataPrefixes|..],
                       fetches := r.fetches[id := Begin(prefix)], table := r.table[prefix := id])
    ensures r.listened + r.dataPrefixes[|r.dataPrefixes|..] == r.listened
  {
  }

  /** What data for a pattern changes. */
  lemma DataStep(r: Repo, id: nat, name: Name, ok: bool)
    requires Enabled(r, PatternData(id, name, ok))
    ensures Step(r, PatternData(id, name, ok))
         == r.(stored := r.stored + if ok then {r.rename + name} else {},
               fetches := r.fetches[id := CounterFetch.Step(r.fetches[id], CounterFetch.Event.Data)])
  {
  }

  ghost predicate ValidRun(r: Repo, es: seq<Event>)
    decreases |es|, 0
  {
    es == [] || (ValidRun(r, es[..|es| - 1]) && Enabled(Run(r, es[..|es| - 1]), es[|es| - 1]))
  }

  ghost function Run(r: Repo, es: seq<Event>): Repo
    requires ValidRun(r, es)
    decreases |es|, 1
  {
    if es == [] then r else Step(Run(r, es[..|es| - 1]), es[|es| - 1])
  }

  lemma RunAppend(r: Repo, es: seq<Event>, e: Event)
    requires ValidRun(r, es) && Enabled(Run(r, es), e)
    ensures ValidRun(r, es + [e]) && Run(r, es + [e]) == Step(Run(r, es), e)
  {
    assert (es + [e])[..|es|] == es;
  }

  /** Every stored name is served, except names that were stored before and the scan passed over; and
      every pattern's names are served before it asks for anything. */
  ghost predicate Covering(r: Repo, passedOver: set<Name>) {
    && (forall n :: n in r.stored ==> Serves(r.dataPrefixes, n) || n in passedOver)
    && (forall id :: id in r.fetches ==> Serves(r.dataPrefixes, r.rename + r.fetches[id].prefix))
  }

  lemma ServesExtension(prefixes: seq<Name>, rename: Name, p: Name, n: Name)
    requires Serves(prefixes, rename + p) && p <= n
    ensures Serves(prefixes, rename + n)
  {
    var q :| q in prefixes && q <= rename + p;
    assert rename + n == (rename + p) + n[|p|..];
    assert q <= rename + n;
  }

  lemma AnnounceCovers(r: Repo, name: Name, passedOver: set<Name>)
    requires Covering(r.(stored := r.stored - {name}), passedOver)
    ensures Covering(Announce(r, name), passedOver)
    ensures Serves(Announce(r, name).dataPrefixes, name)
  {
    var t := Announce(r, name);
    assert t.dataPrefixes == Register(r.dataPrefixes, name);
    forall n
      ensures Serves(r.dataPrefixes, n) ==> Serves(t.dataPrefixes, n)
      ensures Serves(t.dataPrefixes, name)
    {
      RegisterServes(r.dataPrefixes, name, n);
    }
  }

  lemma StepCovering(r: Repo, e: Event, passedOver: set<Name>)
    requires Covering(r, passedOver) && Enabled(r, e)
    ensures Covering(Step(r, e), passedOver)
  {
    match e
    case InsertData(pid, name, ok) =>
      if pid in r.inserts {
        AnnounceCovers(Put(r, name, ok), if ok then r.rename + name else [], passedOver);
      }
    case PatternCommand(prefix, known, id) =>
      AnnounceCovers(r, r.rename + prefix, passedOver);
    case PatternData(id, name, ok) =>
      ServesExtension(r.dataPrefixes, r.rename, r.fetches[id].prefix, name);
    case _ =>
  }

  lemma {:induction false} RunCovering(r: Repo, es: seq<Event>, passedOver: set<Name>)
    requires Covering(r, passedOver) && ValidRun(r, es)
    ensures Covering(Run(r, es), passedOver)
  {
    if es != [] {
      RunCovering(r, es[..|es| - 1], passedOver);
      StepCovering(Run(r, es[..|es| - 1]), es[|es| - 1], passedOver);
    }
  }

  /** The names of the initial store that the startup scan leaves uncovered. */
  ghost function Uncovered(names: set<Name>): set<Name> {
    set n | n in names && !Covered(names, n)
  }

  /** End to end: whatever is stored, with or without renaming, lies under a prefix the repository
      serves, unless it was there at startup and the scan passed over it. */
  lemma StoredNamesAreServed(rename: Name, names: set<Name>, configured: seq<Name>, found: seq<Name>,
                             es: seq<Event>, n: Name)
    requires ListsChainEnds(names, found)
    requires ValidRun(Startup(rename, names, configured, found), es)
    requires n in Run(Startup(rename, names, configured, found), es).stored
    ensures var r := Run(Startup(rename, names, configured, found), es);
            || Serves(r.dataPrefixes, n)
            || (n in names && (n == [] || PassedOver(names, n)))
  {
    var r := Startup(rename, names, configured, found);
    forall m | m in names && m !in Uncovered(names)
      ensures Serves(r.dataPrefixes, m)
    {
      var p :| ChainEnd(PathsOf(names), p) && p <= m;
      assert p in found;
      assert p in r.dataPrefixes;
    }
    RunCovering(r, es, Uncovered(names));
    if n in Uncovered(names) {
      CoverageExact(names, n);
    }
  }

  /** Starting from a prefix-free store of non-empty names, every stored name is served in every run. */
  lemma PrefixFreeRunsAreServed(rename: Name, names: set<Name>, configured: seq<Name>, found: seq<Name>,
                                es: seq<Event>, n: Name)
    requires ListsChainEnds(names, found) && PrefixFree(names) && [] !in names
    requires ValidRun(Startup(rename, names, configured, found), es)
    requires n in Run(Startup(rename, names, configured, found), es).stored
    ensures Serves(Run(Startup(rename, names, configured, found), es).dataPrefixes, n)
  {
    StoredNamesAreServed(rename, names, configured, found, es, n);
    if n in names && n != [] {
      PrefixFreeIsCovered(names, n);
      CoverageExact(names, n);
    }
  }

  lemma AnnouncedOnce(r: Repo, e: Event, from: nat)
    requires Enabled(r, e) && r.listened == r.dataPrefixes && Irredundant(r.dataPrefixes, from)
    ensures var t := Step(r, e);
            t.listened == t.dataPrefixes && r.dataPrefixes <= t.dataPrefixes && Irredundant(t.dataPrefixes, from)
  {
    match e
    case InsertData(pid, name, ok) =>
      AnnounceOnce(r, if ok then r.rename + name else [], from);
    case PatternCommand(prefix, _, _) =>
      AnnounceOnce(r, r.rename + prefix, from);
    case _ =>
  }

  lemma AnnounceOnce(r: Repo, name: Name, from: nat)
    requires r.listened == r.dataPrefixes && Irredundant(r.dataPrefixes, from)
    ensures var t := Announce(r, name);
            t.listened == t.dataPrefixes && r.dataPrefixes <= t.dataPrefixes && Irredundant(t.dataPrefixes, from)
  {
    RegisterIrredundant(r.dataPrefixes, from, name);
  }

  /** The prefixes listened on are exactly the registered ones, in order, and no prefix announced after
      startup extends an earlier one. */
  lemma {:induction false} ListenedOnceEach(r: Repo, es: seq<Event>)
    requires ValidRun(r, es) && r.listened == r.dataPrefixes
    ensures var t := Run(r, es);
            && t.listened == t.dataPrefixes
            && r.dataPrefixes <= t.dataPrefixes
            && Irredundant(t.dataPrefixes, |r.dataPrefixes|)
  {
    if es != [] {
      ListenedOnceEach(r, es[..|es| - 1]);
      AnnouncedOnce(Run(r, es[..|es| - 1]), es[|es| - 1], |r.dataPrefixes|);
    }
  }

  // ---- How the root comes to be served ----

  /** The name that event e announces, if any: the stored name of a single insert, the empty name if its
      write fails, or the prefix of a pattern that starts. */
  function Announcement(r: Repo, e: Event): Option<Name> {
    match e
    case InsertData(pid, name, ok) => if pid in r.inserts then Some(if ok then r.rename + name else []) else None
    case PatternCommand(prefix, known, _) => if prefix !in r.table && known then Some(r.rename + prefix) else None
    case _ => None
  }

  predicate AnnouncesAbove(r: Repo, e: Event, n: Name) {
    Announcement(r, e).Some? && Announcement(r, e).value <= n
  }

  /** Some event of the run announced a prefix of n. */
  ghost predicate AnnouncedAbove(r: Repo, es: seq<Event>, n: Name)
    requires ValidRun(r, es)
  {
    es != [] && (AnnouncedAbove(r, es[..|es| - 1], n) || AnnouncesAbove(Run(r, es[..|es| - 1]), es[|es| - 1], n))
  }

  lemma RegisterServesExactly(prefixes: seq<Name>, name: Name, n: Name)
    ensures Serves(Register(prefixes, name), n) <==> Serves(prefixes, n) || name <= n
  {
    RegisterServes(prefixes, name, n);
    if name <= n {
      var p :| p in Register(prefixes, name) && p <= name;
      assert p <= n;
    }
  }

  /** A name comes to be served in exactly these ways. */
  lemma ServedExactly(r: Repo, e: Event, n: Name)
    requires Enabled(r, e)
    ensures Serves(Step(r, e).dataPrefixes, n) <==> Serves(r.dataPrefixes, n) || AnnouncesAbove(r, e, n)
  {
    if Announcement(r, e).Some? {
      RegisterServesExactly(r.dataPrefixes, Announcement(r, e).value, n);
    }
  }

  /** Over a run: a name is served iff it was at the start or some event announced a prefix of it. This
      goes for every name, stored or not, and for the ones that the startup scan passed over. */
  lemma {:induction false} ServedInRun(r: Repo, es: seq<Event>, n: Name)
    requires ValidRun(r, es)
    ensures Serves(Run(r, es).dataPrefixes, n) <==> Serves(r.dataPrefixes, n) || AnnouncedAbove(r, es, n)
  {
    if es != [] {
      ServedInRun(r, es[..|es| - 1], n);
      ServedExactly(Run(r, es[..|es| - 1]), es[|es| - 1], n);
    }
  }

  lemma EmptyPrefixServes(prefixes: seq<Name>)
    ensures Serves(prefixes, []) <==> [] in prefixes
  {
    if p :| p in prefixes && p <= [] {
      assert p == [];
    }
  }

  /** The root joins the served prefixes with a failed single insert, or when the empty name is announced. */
  lemma RootIsServedExactly(r: Repo, e: Event)
    requires Enabled(r, e)
    ensures [] in Step(r, e).dataPrefixes <==> [] in r.dataPrefixes || Announcement(r, e) == Some([])
  {
    ServedExactly(r, e, []);
    EmptyPrefixServes(r.dataPrefixes);
    EmptyPrefixServes(Step(r, e).dataPrefixes);
  }

  /** No stored packet and no fetch prefix is the empty name. */
  predicate Named(e: Event) {
    (e.InsertData? ==> e.name != []) && (e.PatternCommand? ==> e.prefix != [])
  }

  predicate FailsToInsert(r: Repo, e: Event) {
    e.InsertData? && !e.ok && e.pid in r.inserts
  }

  /** With all names non-empty, a step that makes the repository serve the root is a failed write of a
      single insert, and every failed write does. From then on no prefix is registered any more. */
  lemma {:induction false} FailedInsertServesTheRoot(r: Repo, e: Event, es: seq<Event>)
    requires Enabled(r, e) && Named(e) && [] !in r.dataPrefixes
    ensures [] in Step(r, e).dataPrefixes <==> FailsToInsert(r, e)
    ensures FailsToInsert(r, e) && ValidRun(Step(r, e), es) ==>
              Run(Step(r, e), es).dataPrefixes == Step(r, e).dataPrefixes
  {
    RootIsServedExactly(r, e);
    if FailsToInsert(r, e) && ValidRun(Step(r, e), es) {
      RootStaysAlone(Step(r, e), es);
    }
  }

  /** An insert of /a whose write fails makes a fresh repository serve the root. */
  lemma RootServedForNothing()
    ensures var r := Startup([], {}, [], []);
            var es := [InsertCommand(1), InsertData(1, ["a"], false)];
            ValidRun(r, es) && Run(r, es).dataPrefixes == [[]] && Run(r, es).stored == {}
  {
    var r := Startup([], {}, [], []);
    var e, f := InsertCommand(1), InsertData(1, ["a"], false);
    RunAppend(r, [], e);
    RunAppend(r, [e], f);
    assert [] + [e] == [e] && [e] + [f] == [e, f];
    EmptyPrefixServes(r.dataPrefixes);
  }

  // ---- Cancelled patterns ----

  /** No command, timer or answer makes a pattern that was stopped ask for anything again. */
  lemma {:induction false} StoppedForGood(r: Repo, es: seq<Event>, id: nat)
    requires ValidRun(r, es) && id in r.fetches && !r.fetches[id].running && CounterFetch.Inv(r.fetches[id])
    ensures var t := Run(r, es);
            && id in t.fetches && !t.fetches[id].running && CounterFetch.Inv(t.fetches[id])
            && t.fetches[id].asked == r.fetches[id].asked
  {
    if es != [] {
      StoppedForGood(r, es[..|es| - 1], id);
    }
  }

  /** A cancel command for an active prefix stops the pattern that fetches it, for good. */
  lemma CancelCommandStops(r: Repo, prefix: Name, es: seq<Event>)
    requires prefix in r.table && CounterFetch.Inv(r.fetches[r.table[prefix]])
    requires ValidRun(Step(r, CancelCommand(prefix)), es)
    ensures var t := Run(Step(r, CancelCommand(prefix)), es);
            && r.table[prefix] in t.fetches
            && !t.fetches[r.table[prefix]].running
            && t.fetches[r.table[prefix]].asked == r.fetches[r.table[prefix]].asked
  {
    StoppedForGood(Step(r, CancelCommand(prefix)), es, r.table[prefix]);
  }

  // ---- Single inserts happen once ----

  /** Once a single insert has timed out or been answered, further answers to it change nothing, unless
      a new command reuses its process id. */
  lemma {:induction false} AnsweredOnce(r: Repo, es: seq<Event>, pid: nat, name: Name, ok: bool)
    requires ValidRun(r, es) && pid !in r.inserts && InsertCommand(pid) !in es
    ensures pid !in Run(r, es).inserts && Step(Run(r, es), InsertData(pid, name, ok)) == Run(r, es)
  {
    if es != [] {
      var front := es[..|es| - 1];
      assert es == front + [es[|es| - 1]];
      AnsweredOnce(r, front, pid, name, ok);
    }
  }

  lemma {:induction false} RootStaysAlone(r: Repo, es: seq<Event>)
    requires [] in r.dataPrefixes && ValidRun(r, es)
    ensures Run(r, es).dataPrefixes == r.dataPrefixes
  {
    if es != [] {
      RootStaysAlone(r, es[..|es| - 1]);
      var t := Run(r, es[..|es| - 1]);
      forall n
        ensures Serves(t.dataPrefixes, n)
      {
        assert [] <= n;
      }
    }
  }
}

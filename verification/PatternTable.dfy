/** The table of active fetch patterns as its clients see it: a set of prefixes and the replies sent. */
module PatternTable {
  import opened Wrappers
  import opened Names

  const STARTED: nat := 100
  const CANCELLED: nat := 101
  const REFUSED: nat := 402
  const MALFORMED: nat := 403
  const UNKNOWN_PATTERN: nat := 404

  /** A fetch request for a pattern that the factory knows or not, a cancel request, or a request that
      does not decode. */
  datatype Command = Start(prefix: Name, known: bool) | Stop(prefix: Name) | Garbled

  datatype Reply = Reply(prefix: Option<Name>, code: nat)

  datatype Table = Table(active: set<Name>, replies: seq<Reply>)

  function Answer(t: Table, c: Command): (code: nat)
  {
    match c
    case Garbled => MALFORMED
    case Start(prefix, known) => if prefix in t.active then REFUSED else if known then STARTED else UNKNOWN_PATTERN
    case Stop(prefix) => if prefix in t.active then CANCELLED else REFUSED
  }

  function Step(t: Table, c: Command): Table {
    var code := Answer(t, c);
    var about := if c.Garbled? then None else Some(c.prefix);
    Table(if code == STARTED then t.active + {c.prefix}
          else if code == CANCELLED then t.active - {c.prefix}
          else t.active,
          t.replies + [Reply(about, code)])
  }

  function Run(cs: seq<Command>): Table {
    if cs == [] then Table({}, []) else Step(Run(cs[..|cs| - 1]), cs[|cs| - 1])
  }

  /** The replies that started or cancelled the fetching of p, in order. */
  function Lifecycle(replies: seq<Reply>, p: Name): (codes: seq<nat>)
  {
    if replies == [] then []
    else
      var r := replies[|replies| - 1];
      Lifecycle(replies[..|replies| - 1], p)
      + if r.prefix == Some(p) && (r.code == STARTED || r.code == CANCELLED) then [r.code] else []
  }

  function Count(replies: seq<Reply>, code: nat): (n: nat)
  {
    if replies == [] then 0
    else Count(replies[..|replies| - 1], code) + if replies[|replies| - 1].code == code then 1 else 0
  }

  lemma RepliesAppend(replies: seq<Reply>, r: Reply, p: Name)
    ensures Lifecycle(replies + [r], p)
            == Lifecycle(replies, p)
               + if r.prefix == Some(p) && (r.code == STARTED || r.code == CANCELLED) then [r.code] else []
    ensures Count(replies + [r], STARTED) == Count(replies, STARTED) + if r.code == STARTED then 1 else 0
    ensures Count(replies + [r], CANCELLED) == Count(replies, CANCELLED) + if r.code == CANCELLED then 1 else 0
  {
    assert (replies + [r])[..|replies|] == replies;
  }

  ghost predicate Alternating(codes: seq<nat>) {
    forall i :: 0 <= i < |codes| ==> codes[i] == if i % 2 == 0 then 100 else 101
  }

  /** For every prefix, replies 100 and 101 alternate, starting with 100; the prefix is active exactly
      after a 100. */
  lemma {:induction false} StartsAndStopsAlternate(cs: seq<Command>, p: Name)
    ensures Alternating(Lifecycle(Run(cs).replies, p))
    ensures p in Run(cs).active <==> |Lifecycle(Run(cs).replies, p)| % 2 == 1
  {
    if cs != [] {
      var front, c := cs[..|cs| - 1], cs[|cs| - 1];
      StartsAndStopsAlternate(front, p);
      var t := Run(front);
      RepliesAppend(t.replies, Reply(if c.Garbled? then None else Some(c.prefix), Answer(t, c)), p);
    }
  }

  /** Fetching under p was started and not cancelled since, going by the replies. */
  ghost predicate Underway(replies: seq<Reply>, p: Name) {
    |Lifecycle(replies, p)| % 2 == 1
  }

  /** The reply that a command is due after others: 403 for what does not decode; 402 for a fetch that is
      under way or a cancellation of one that is not; 404 for an unknown pattern. */
  ghost function Due(before: seq<Reply>, c: Command): Reply {
    if c.Garbled? then Reply(None, 403)
    else if c.Start? then
      Reply(Some(c.prefix), if Underway(before, c.prefix) then 402 else if c.known then 100 else 404)
    else Reply(Some(c.prefix), if Underway(before, c.prefix) then 101 else 402)
  }

  /** Every command gets the reply that those before it make due. */
  lemma RepliesExactly(cs: seq<Command>, c: Command)
    ensures Run(cs + [c]).replies == Run(cs).replies + [Due(Run(cs).replies, c)]
  {
    assert (cs + [c])[..|cs|] == cs;
    if !c.Garbled? {
      StartsAndStopsAlternate(cs, c.prefix);
    }
  }

  /** The table holds as many patterns as were started and not cancelled. */
  lemma {:induction false} TableSizeIsBalance(cs: seq<Command>)
    ensures |Run(cs).active| == Count(Run(cs).replies, 100) - Count(Run(cs).replies, 101)
  {
    if cs != [] {
      var front, c := cs[..|cs| - 1], cs[|cs| - 1];
      TableSizeIsBalance(front);
      var t := Run(front);
      RepliesAppend(t.replies, Reply(if c.Garbled? then None else Some(c.prefix), Answer(t, c)), []);
    }
  }
}

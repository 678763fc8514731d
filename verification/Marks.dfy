/** Playback marks: records shared between the pending table and the call's history. */
module Marks {
  import opened Wrappers
  import Playout

  const PRE_MARK := "pre_mark_message"

  // The record of one mark.  The pending table and the history refer to the same object.
  class Mark {
    ghost const id: string      // the id it is sent under
    const kind: string
    const sequenceId: Option<int>
    const turnId: Option<int>
    const duration: real
    var counter: int
    var acked: bool
    var ackTs: Option<real>
    var cleared: bool
    var clearedOnInterrupt: bool

    constructor (ghost id: string, kind: string, sequenceId: Option<int>, turnId: Option<int>, duration: real)
      ensures this.id == id && this.kind == kind && this.sequenceId == sequenceId
      ensures this.turnId == turnId && this.duration == duration
      ensures Stands(Pending)
    {
      this.id, this.kind, this.sequenceId, this.turnId, this.duration := id, kind, sequenceId, turnId, duration;
      counter, acked, ackTs, cleared, clearedOnInterrupt := 0, false, None, false, false;
    }

    predicate IsPre() { kind == PRE_MARK }

    function Copy(): MarkCopy
      reads this
    {
      MarkCopy(kind, sequenceId, turnId, duration, counter, acked, ackTs, cleared, clearedOnInterrupt)
    }

    // The flags say exactly this: none while pending, one once settled.
    predicate Stands(s: Status)
      reads this
    {
      acked == (s == Acked) && cleared == (s == Cleared) && clearedOnInterrupt == (s == Interrupted)
    }
  }

  // A deep copy of a record: later events leave it alone.
  datatype MarkCopy = MarkCopy(
    kind: string, sequenceId: Option<int>, turnId: Option<int>, duration: real, counter: int,
    acked: bool, ackTs: Option<real>, cleared: bool, clearedOnInterrupt: bool)

  datatype Status = Pending | Acked | Cleared | Interrupted

  lemma PreMarks(m: Mark)
    ensures m.IsPre() <==> m.kind == "pre_mark_message"
  {
  }

  // ---------- The lifecycle, abstractly ----------

  // Every non-pre mark ever sent, and where it stands.
  type Book = map<string, Status>

  datatype Event = Sent(id: string) | Dropped(id: string) | Fetched(id: string) | ClearedAll

  function Settle(b: Book, id: string, s: Status): Book {
    if id in b && b[id] == Pending then b[id := s] else b
  }

  function BookStep(b: Book, e: Event): Book {
    match e
    case Sent(id) => b[id := Pending]
    case Dropped(id) => Settle(b, id, Cleared)
    case Fetched(id) => Settle(b, id, Acked)
    case ClearedAll => map id | id in b :: if b[id] == Pending then Interrupted else b[id]
  }

  function BookRun(b: Book, events: seq<Event>): Book
    decreases |events|
  {
    if events == [] then b else BookRun(BookStep(b, events[0]), events[1..])
  }

  // Ids are never sent twice.
  predicate UniqueIds(b: Book, events: seq<Event>)
    decreases |events|
  {
    events == [] ||
    ((events[0].Sent? ==> events[0].id !in b) && UniqueIds(BookStep(b, events[0]), events[1..]))
  }

  /** MAIN: over any run with unique ids, a mark that is acked, cleared or interrupted stays so, and no
      mark ever leaves the book. */
  lemma {:induction false} FinalForever(b: Book, events: seq<Event>, id: string)
    requires UniqueIds(b, events) && id in b
    ensures id in BookRun(b, events)
    ensures b[id] != Pending ==> BookRun(b, events)[id] == b[id]
    decreases |events|
  {
    if events != [] {
      FinalForever(BookStep(b, events[0]), events[1..], id);
    }
  }

  /** What settles a pending mark is the first event that names it, or the first clear of all. */
  lemma {:induction false} FirstEventSettles(b: Book, events: seq<Event>, id: string, e: Event)
    requires UniqueIds(b, events + [e]) && id in b && b[id] == Pending
    requires forall x :: x in events ==> x != Dropped(id) && x != Fetched(id) && x != ClearedAll
    ensures id in BookRun(b, events + [e])
    ensures BookRun(b, events + [e])[id] ==
      match e
      case Dropped(x) => if x == id then Cleared else Pending
      case Fetched(x) => if x == id then Acked else Pending
      case ClearedAll => Interrupted
      case Sent(_) => Pending
    decreases |events|
  {
    var all := events + [e];
    if events == [] {
      assert all[1..] == [];
    } else {
      assert events[0] in events && all[0] == events[0] && all[1..] == events[1..] + [e];
      assert forall x :: x in events[1..] ==> x in events;
      FirstEventSettles(BookStep(b, events[0]), events[1..], id, e);
    }
  }

  // ---------- Counters ----------

  datatype SequenceStats = SequenceStats(
    id: int,
    sent: nat,
    acked: nat,
    delays: seq<real>,
    interrupted: bool,
    firstSent: Option<real>,
    lastSent: Option<real>,
    audio: real,
    turnId: Option<int>)

  function NoStats(id: int): SequenceStats {
    SequenceStats(id, 0, 0, [], false, None, None, 0.0, None)
  }

  // The per-sequence table, in insertion order.
  datatype MarkStats = MarkStats(totalSent: nat, totalAcked: nat, delays: seq<real>, perSequence: seq<SequenceStats>)

  const NO_COUNTS := MarkStats(0, 0, [], [])

  datatype Count =
    | Send(sequence: Option<int>, at: real, duration: real, turn: Option<int>)
    | Ack(sequence: Option<int>, delay: real)
    | Interrupt(id: int)

  function Entry(table: seq<SequenceStats>, id: int): (r: SequenceStats)
    ensures r.id == id
  {
    if table == [] then NoStats(id) else if table[0].id == id then table[0] else Entry(table[1..], id)
  }

  predicate HasEntry(table: seq<SequenceStats>, id: int) {
    table != [] && (table[0].id == id || HasEntry(table[1..], id))
  }

  function PutEntry(table: seq<SequenceStats>, e: SequenceStats): seq<SequenceStats> {
    if table == [] then [e]
    else if table[0].id == e.id then [e] + table[1..]
    else [table[0]] + PutEntry(table[1..], e)
  }

  // A delay counts only when it is not negative.
  function DelayList(delay: real): seq<real> {
    if delay >= 0.0 then [delay] else []
  }

  // The entry of the count's own sequence, once counted.
  function Counted(e: SequenceStats, c: Count): SequenceStats {
    match c
    case Send(_, at, duration, turn) => e.(
      sent := e.sent + 1,
      firstSent := if e.firstSent.None? then Some(at) else e.firstSent,
      lastSent := Some(at),
      audio := if duration > 0.0 then e.audio + duration else e.audio,
      turnId := if turn.Some? && e.turnId.None? then turn else e.turnId)
    case Ack(_, delay) => e.(acked := e.acked + 1, delays := e.delays + DelayList(delay))
    case Interrupt(_) => e.(interrupted := true)
  }

  // The table entry of a sequence is created on its first send or ack; an interruption only marks one
  // that exists.
  function TableStep(table: seq<SequenceStats>, sequence: Option<int>, c: Count): seq<SequenceStats> {
    if sequence.None? || (c.Interrupt? && !HasEntry(table, sequence.value)) then table
    else PutEntry(table, Counted(Entry(table, sequence.value), c))
  }

  function StatsStep(s: MarkStats, c: Count): MarkStats {
    match c
    case Send(sequence, _, _, _) =>
      s.(totalSent := s.totalSent + 1, perSequence := TableStep(s.perSequence, sequence, c))
    case Ack(sequence, delay) =>
      s.(totalAcked := s.totalAcked + 1, delays := s.delays + DelayList(delay),
         perSequence := TableStep(s.perSequence, sequence, c))
    case Interrupt(id) => s.(perSequence := TableStep(s.perSequence, Some(id), c))
  }

  function StatsAfter(s: MarkStats, counts: seq<Count>): MarkStats {
    if counts == [] then s else StatsStep(StatsAfter(s, counts[..|counts| - 1]), counts[|counts| - 1])
  }

  // Everything counted in a call.
  function StatsRun(counts: seq<Count>): MarkStats {
    StatsAfter(NO_COUNTS, counts)
  }

  lemma NoMoreCounts(s: MarkStats)
    ensures StatsAfter(s, []) == s
  {
  }

  lemma OneMoreCount(s: MarkStats, counts: seq<Count>, c: Count)
    ensures StatsAfter(s, counts + [c]) == StatsStep(StatsAfter(s, counts), c)
  {
    assert (counts + [c])[..|counts|] == counts;
  }

  // Counting on from where a call stands is counting everything.
  lemma {:induction false} StatsGoOn(counts: seq<Count>, more: seq<Count>)
    ensures StatsAfter(StatsRun(counts), more) == StatsRun(counts + more)
  {
    if more == [] {
      assert counts + more == counts;
    } else {
      var n := |more| - 1;
      StatsGoOn(counts, more[..n]);
      OneMoreCount(NO_COUNTS, counts + more[..n], more[n]);
      assert counts + more == counts + more[..n] + [more[n]];
    }
  }

  // A sequence has an entry as soon as something was sent or acked for it.
  lemma {:induction false} HasEntryIff(counts: seq<Count>, id: int)
    ensures HasEntry(StatsRun(counts).perSequence, id) <==>
      exists k :: 0 <= k < |counts| && !counts[k].Interrupt? && counts[k].sequence == Some(id)
  {
    if counts != [] {
      var n := |counts| - 1;
      HasEntryIff(counts[..n], id);
      var table := StatsRun(counts[..n]).perSequence;
      var c := counts[n];
      if SequenceOf(c).Some? {
        PutHasEntry(table, Counted(Entry(table, SequenceOf(c).value), c), id);
      }
      assert forall k :: 0 <= k < n ==> counts[..n][k] == counts[k];
    }
  }

  lemma {:induction false} PutHasEntry(table: seq<SequenceStats>, e: SequenceStats, id: int)
    ensures HasEntry(PutEntry(table, e), id) <==> HasEntry(table, id) || id == e.id
    ensures Entry(PutEntry(table, e), id) == if id == e.id then e else Entry(table, id)
  {
    if table != [] && table[0].id != e.id {
      PutHasEntry(table[1..], e, id);
      assert PutEntry(table, e)[1..] == PutEntry(table[1..], e);
    } else if table != [] {
      assert PutEntry(table, e)[1..] == table[1..];
    }
  }

  // What was sent for one sequence, in order.
  function SendsOf(counts: seq<Count>, id: int): seq<Count> {
    if counts == [] then []
    else
      var c := counts[|counts| - 1];
      SendsOf(counts[..|counts| - 1], id) + if c.Send? && c.sequence == Some(id) then [c] else []
  }

  // The audio of the chunks that have any.
  function AudioOf(sends: seq<Count>): real {
    if sends == [] then 0.0
    else
      var c := sends[|sends| - 1];
      AudioOf(sends[..|sends| - 1]) + if c.Send? && c.duration > 0.0 then c.duration else 0.0
  }

  // The first turn named.
  ghost predicate FirstTurn(turn: Option<int>, sends: seq<Count>) {
    if turn.None? then forall k :: 0 <= k < |sends| && sends[k].Send? ==> sends[k].turn.None?
    else
      exists k :: 0 <= k < |sends| && sends[k].Send? && sends[k].turn == turn
        && forall j :: 0 <= j < k && sends[j].Send? ==> sends[j].turn.None?
  }

  // The entry tells the sends of its sequence: when the first and the last came, how much audio they had, and
  // the first turn one of them named.
  ghost predicate Dated(e: SequenceStats, sends: seq<Count>) {
    && (forall k :: 0 <= k < |sends| ==> sends[k].Send?)
    && e.firstSent == (if sends == [] then None else Some(sends[0].at))
    && e.lastSent == (if sends == [] then None else Some(sends[|sends| - 1].at))
    && e.audio == AudioOf(sends) && FirstTurn(e.turnId, sends)
  }

  lemma DatedOneMore(e: SequenceStats, sends: seq<Count>, c: Count)
    requires Dated(e, sends) && c.Send?
    ensures Dated(Counted(e, c), sends + [c])
  {
    hide FirstTurn;
    assert (sends + [c])[..|sends|] == sends;
    OneMoreTurn(e.turnId, sends, c);
  }

  /** Every sequence is dated by exactly its own sends. */
  lemma {:induction false} SequenceSends(counts: seq<Count>, id: int)
    ensures Dated(Entry(StatsRun(counts).perSequence, id), SendsOf(counts, id))
  {
    if counts == [] {
      NoTurn();
      NoStatsYet(id);
    } else {
      var n := |counts| - 1;
      SequenceSends(counts[..n], id);
      var c, sends, s := counts[n], SendsOf(counts[..n], id), StatsRun(counts[..n]);
      SendMoves(s, c, id);
      assert StatsRun(counts) == StatsStep(s, c);
      assert sends + [] == sends;
      hide Entry, StatsStep, StatsAfter, Counted;
      if c.Send? && c.sequence == Some(id) {
        DatedOneMore(Entry(s.perSequence, id), sends, c);
      }
    }
  }

  lemma NoStatsYet(id: int)
    ensures Entry(StatsRun([]).perSequence, id) == NoStats(id)
  {
  }

  // What one count does to the sending side of a sequence.
  lemma SendMoves(s: MarkStats, c: Count, id: int)
    ensures var e, e' := Entry(s.perSequence, id), Entry(StatsStep(s, c).perSequence, id);
      if c.Send? && c.sequence == Some(id) then e' == Counted(e, c)
      else e'.firstSent == e.firstSent && e'.lastSent == e.lastSent && e'.audio == e.audio && e'.turnId == e.turnId
  {
    hide Entry, PutEntry, HasEntry;
    if SequenceOf(c).Some? {
      PutHasEntry(s.perSequence, Counted(Entry(s.perSequence, SequenceOf(c).value), c), id);
    }
  }

  lemma NoTurn()
    ensures FirstTurn(None, [])
  {
  }

  lemma OneMoreTurn(turn: Option<int>, sends: seq<Count>, c: Count)
    requires c.Send? && FirstTurn(turn, sends)
    ensures FirstTurn(if turn.None? then c.turn else turn, sends + [c])
  {
    var all := sends + [c];
    assert forall j :: 0 <= j < |sends| ==> all[j] == sends[j];
    assert all[|sends|] == c;
    if turn.Some? {
      var k :| 0 <= k < |sends| && sends[k].Send? && sends[k].turn == turn
        && forall j :: 0 <= j < k && sends[j].Send? ==> sends[j].turn.None?;
      assert all[k].turn == turn;
    }
  }

  /** A sequence counts as interrupted exactly when an interruption named it after something had been
      sent or acked for it. */
  lemma {:induction false} InterruptedIff(counts: seq<Count>, id: int)
    ensures Entry(StatsRun(counts).perSequence, id).interrupted <==>
      exists j, k :: 0 <= j < k < |counts| && counts[k] == Interrupt(id)
        && !counts[j].Interrupt? && counts[j].sequence == Some(id)
  {
    if counts != [] {
      var n := |counts| - 1;
      InterruptedIff(counts[..n], id);
      HasEntryIff(counts[..n], id);
      var table := StatsRun(counts[..n]).perSequence;
      var c := counts[n];
      if SequenceOf(c).Some? {
        PutHasEntry(table, Counted(Entry(table, SequenceOf(c).value), c), id);
      }
      assert forall k :: 0 <= k < n ==> counts[..n][k] == counts[k];
    }
  }

  // How often a delay was recorded.
  function Occurs(delays: seq<real>, d: real): nat {
    if delays == [] then 0
    else Occurs(delays[..|delays| - 1], d) + if delays[|delays| - 1] == d then 1 else 0
  }

  lemma OccursAppend(delays: seq<real>, delay: real, d: real)
    ensures Occurs(delays + DelayList(delay), d) == Occurs(delays, d) + Occurs(DelayList(delay), d)
  {
    if delay >= 0.0 {
      assert (delays + [delay])[..|delays|] == delays;
      assert [delay][..0] == [];
    } else {
      assert delays + [] == delays;
    }
  }

  /** Counting occurrences of every value is comparing multisets. */
  lemma {:induction false} OccursIsMultiplicity(delays: seq<real>, d: real)
    ensures Occurs(delays, d) == multiset(delays)[d]
  {
    if delays != [] {
      OccursIsMultiplicity(delays[..|delays| - 1], d);
      assert delays == delays[..|delays| - 1] + [delays[|delays| - 1]];
    }
  }

  // Sends, acks, and occurrences of one delay value.
  datatype Tally = Tally(sent: nat, acked: nat, hits: nat) {
    function Plus(t: Tally): Tally {
      Tally(sent + t.sent, acked + t.acked, hits + t.hits)
    }
  }

  const NOTHING := Tally(0, 0, 0)

  function TallyOf(e: SequenceStats, d: real): Tally {
    Tally(e.sent, e.acked, Occurs(e.delays, d))
  }

  function Totals(s: MarkStats, d: real): Tally {
    Tally(s.totalSent, s.totalAcked, Occurs(s.delays, d))
  }

  function Sum(table: seq<SequenceStats>, d: real): Tally {
    if table == [] then NOTHING else TallyOf(table[0], d).Plus(Sum(table[1..], d))
  }

  // What one count adds, and to which sequence.
  function Worth(c: Count, d: real): Tally {
    match c
    case Send(_, _, _, _) => Tally(1, 0, 0)
    case Ack(_, delay) => Tally(0, 1, Occurs(DelayList(delay), d))
    case Interrupt(_) => NOTHING
  }

  function SequenceOf(c: Count): Option<int> {
    if c.Interrupt? then Some(c.id) else c.sequence
  }

  // Everything counted for one sequence, or for none.
  function CountedFor(counts: seq<Count>, sequence: Option<int>, d: real): Tally {
    if counts == [] then NOTHING
    else
      var before := CountedFor(counts[..|counts| - 1], sequence, d);
      var c := counts[|counts| - 1];
      if SequenceOf(c) == sequence then before.Plus(Worth(c, d)) else before
  }

  lemma {:induction false} PutEntryEffect(table: seq<SequenceStats>, e: SequenceStats, t: Tally, other: int, d: real)
    requires TallyOf(e, d) == TallyOf(Entry(table, e.id), d).Plus(t)
    ensures Sum(PutEntry(table, e), d) == Sum(table, d).Plus(t)
    ensures Entry(PutEntry(table, e), other) == if other == e.id then e else Entry(table, other)
  {
    hide Occurs;
    if table == [] {
      NothingYet(e.id, d);
      assert PutEntry(table, e)[1..] == [];
    } else if table[0].id == e.id {
      assert PutEntry(table, e)[1..] == table[1..];
    } else {
      PutEntryEffect(table[1..], e, t, other, d);
      assert PutEntry(table, e)[1..] == PutEntry(table[1..], e);
    }
  }

  lemma NothingYet(id: int, d: real)
    ensures TallyOf(NoStats(id), d) == NOTHING
  {
  }

  // A count moves the totals and its own sequence by its worth, and no other sequence.
  lemma StatsStepEffect(s: MarkStats, c: Count, other: int, d: real)
    ensures Totals(StatsStep(s, c), d) == Totals(s, d).Plus(Worth(c, d))
    ensures Sum(StatsStep(s, c).perSequence, d) ==
      if SequenceOf(c).Some? then Sum(s.perSequence, d).Plus(Worth(c, d)) else Sum(s.perSequence, d)
    ensures TallyOf(Entry(StatsStep(s, c).perSequence, other), d) ==
      if SequenceOf(c) == Some(other) then TallyOf(Entry(s.perSequence, other), d).Plus(Worth(c, d))
      else TallyOf(Entry(s.perSequence, other), d)
  {
    hide Sum, Entry, PutEntry, Occurs, HasEntry;
    if c.Ack? {
      OccursAppend(s.delays, c.delay, d);
    }
    if SequenceOf(c).Some? && !(c.Interrupt? && !HasEntry(s.perSequence, c.id)) {
      var e := Entry(s.perSequence, SequenceOf(c).value);
      var e' := Counted(e, c);
      if c.Ack? {
        OccursAppend(e.delays, c.delay, d);
      }
      PutEntryEffect(s.perSequence, e', Worth(c, d), other, d);
    }
  }

  /** MAIN: over any run of sends, acks and interruptions, the totals equal the per-sequence sums plus
      what carried no sequence, and so do the occurrences of every delay value; and each sequence holds
      exactly what was counted for it. */
  lemma {:induction false} CountsAreConserved(counts: seq<Count>, id: int, d: real)
    ensures var s := StatsRun(counts);
      && Totals(s, d) == Sum(s.perSequence, d).Plus(CountedFor(counts, None, d))
      && TallyOf(Entry(s.perSequence, id), d) == CountedFor(counts, Some(id), d)
  {
    hide *;
    LastCount(counts, None, d);
    LastCount(counts, Some(id), d);
    if counts == [] {
      EmptyTable(StatsRun(counts).perSequence, id, d);
      EmptyTotals(StatsRun(counts), d);
      PlusNothing(Sum(StatsRun(counts).perSequence, d), CountedFor(counts, None, d));
    } else {
      var before, c := counts[..|counts| - 1], counts[|counts| - 1];
      CountsAreConserved(before, id, d);
      var s := StatsRun(before);
      StatsStepEffect(s, c, id, d);
      PlusSplits(Sum(s.perSequence, d), CountedFor(before, None, d), Worth(c, d));
    }
  }

  lemma PlusSplits(a: Tally, b: Tally, t: Tally)
    ensures a.Plus(b).Plus(t) == a.Plus(t).Plus(b) == a.Plus(b.Plus(t))
  {
  }

  lemma PlusNothing(t: Tally, n: Tally)
    requires n == NOTHING
    ensures t.Plus(n) == t
  {
  }

  lemma LastCount(counts: seq<Count>, sequence: Option<int>, d: real)
    ensures StatsRun(counts) ==
      if counts == [] then MarkStats(0, 0, [], [])
      else StatsStep(StatsRun(counts[..|counts| - 1]), counts[|counts| - 1])
    ensures CountedFor(counts, sequence, d) ==
      if counts == [] then NOTHING
      else
        var before := CountedFor(counts[..|counts| - 1], sequence, d);
        if SequenceOf(counts[|counts| - 1]) == sequence then before.Plus(Worth(counts[|counts| - 1], d)) else before
  {
  }

  lemma EmptyTable(table: seq<SequenceStats>, id: int, d: real)
    requires table == []
    ensures Sum(table, d) == NOTHING && TallyOf(Entry(table, id), d) == NOTHING
  {
    hide Occurs, TallyOf;
    NothingYet(id, d);
  }

  lemma EmptyTotals(s: MarkStats, d: real)
    requires s.totalSent == 0 && s.totalAcked == 0 && s.delays == []
    ensures Totals(s, d) == NOTHING
  {
  }

  // ---------- Updating the counters ----------

  // ensure_sequence: finds the entry of a sequence, appending a fresh one when there is none.
  method EnsureSequence(table: seq<SequenceStats>, id: int) returns (t: seq<SequenceStats>, k: nat)
    ensures k < |t| && t[k] == Entry(table, id)
    ensures forall e: SequenceStats :: e.id == id ==> t[k := e] == PutEntry(table, e)
    ensures HasEntry(table, id) ==> t == table
  {
    k := 0;
    while k < |table| && table[k].id != id
      invariant k <= |table|
      invariant forall j :: 0 <= j < k ==> table[j].id != id
    {
      k := k + 1;
    }
    t := if k < |table| then table else table + [NoStats(id)];
    forall e: SequenceStats | e.id == id ensures t[k := e] == PutEntry(table, e) { FoundEntry(table, e, k); }
    FoundEntry(table, NoStats(id), k);
  }

  lemma {:induction false} FoundEntry(table: seq<SequenceStats>, e: SequenceStats, k: nat)
    requires k <= |table| && forall j :: 0 <= j < k ==> table[j].id != e.id
    requires k < |table| ==> table[k].id == e.id
    ensures PutEntry(table, e) == if k < |table| then table[k := e] else table + [e]
    ensures Entry(table, e.id) == if k < |table| then table[k] else NoStats(e.id)
    ensures HasEntry(table, e.id) <==> k < |table|
  {
    if k > 0 { FoundEntry(table[1..], e, k - 1); }
  }

  // ---------- The tracker ----------

  // The counts of an interruption: one or more for each sequence with a mark among these, pre marks
  // aside, and none for any other.
  ghost predicate InterruptsOf(interrupts: seq<Count>, marks: map<string, Mark>, ids: set<string>)
    requires ids <= marks.Keys
  {
    && (forall c :: c in interrupts ==> c.Interrupt?)
    && (forall s :: Interrupt(s) in interrupts <==>
          exists id :: id in ids && !marks[id].IsPre() && marks[id].sequenceId == Some(s))
  }

  // What one mark's flagging counts.
  ghost function InterruptOf(m: Mark): seq<Count> {
    if m.IsPre() || m.sequenceId.None? then [] else [Interrupt(m.sequenceId.value)]
  }

  lemma OneMoreMark(interrupts: seq<Count>, marks: map<string, Mark>, ids: set<string>, id: string)
    requires ids <= marks.Keys && id in marks && InterruptsOf(interrupts, marks, ids)
    ensures InterruptsOf(interrupts + InterruptOf(marks[id]), marks, ids + {id})
  {
    hide Mark.IsPre;
    var more := interrupts + InterruptOf(marks[id]);
    forall s ensures Interrupt(s) in more <==>
      exists x :: x in ids + {id} && !marks[x].IsPre() && marks[x].sequenceId == Some(s)
    {
      if InterruptOf(marks[id]) == [Interrupt(s)] {
        assert id in ids + {id};
      } else if Interrupt(s) in interrupts {
        var x :| x in ids && !marks[x].IsPre() && marks[x].sequenceId == Some(s);
        assert x in ids + {id};
      }
    }
  }

  lemma NoInterrupts(marks: map<string, Mark>)
    ensures InterruptsOf([], marks, {})
  {
  }

  class MarkEventMetaData {
    var pending: map<string, Mark>
    var history: map<string, Mark>
    var previous: map<string, MarkCopy>   // what the last interruption cleared
    var counter: nat
    var stats: MarkStats
    const clock: Playout.PlayoutClock
    ghost var book: Book            // where each mark in the history stands
    ghost var records: set<Mark>    // every record ever handed in

    constructor ()
      ensures Valid() && book == map[] && pending == map[] && stats == NO_COUNTS
      ensures fresh(clock) && clock.Valid() && clock.events == []
    {
      clock := new Playout.PlayoutClock();
      pending, history, previous, counter, stats, book, records := map[], map[], map[], 0, NO_COUNTS, map[], {};
    }

    // What the tables, the shared record and the book say of one id fits together: one record per id,
    // the same in both tables, whose flags say what the book says, but for pending marks that a clear
    // in progress has flagged already.
    ghost predicate Agrees(id: string, flagged: set<string>)
      reads this`pending, this`history, this`book, this`records, records
    {
      && (id in pending ==>
            pending[id] in records && pending[id].id == id && (pending[id].IsPre() <==> id !in history))
      && (id in history ==>
            && history[id] in records && history[id].id == id && !history[id].IsPre()
            && id in book && history[id].Stands(if id in pending && id in flagged then Interrupted else book[id])
            && (book[id] == Pending <==> id in pending)
            && (id in pending ==> pending[id] == history[id]))
      && (id in book ==> id in history)
    }

    ghost predicate Valid()
      reads this`pending, this`history, this`book, this`records, records
    {
      forall id :: Agrees(id, {})
    }

    // `queuedAt` and `now` are two readings of the wall clock, in this order.
    method UpdateData(id: string, m: Mark, queuedAt: real, now: real)
      requires Valid() && clock.Valid()
      requires id !in pending && id !in history
      requires m !in records && m.id == id && m.Stands(Pending)
      modifies this, m, clock
      ensures Valid() && clock.Valid()
      ensures book == if m.IsPre() then old(book) else BookStep(old(book), Sent(id))
      ensures pending == old(pending)[id := m] && history == if m.IsPre() then old(history) else old(history)[id := m]
      ensures records == old(records) + {m} && previous == old(previous)
      ensures m.counter == old(counter) && counter == old(counter) + 1
      ensures stats == if m.IsPre() then old(stats)
        else StatsStep(old(stats), Send(m.sequenceId, now, m.duration, m.turnId))
      ensures stats.totalSent == old(stats.totalSent) + if m.kind == "pre_mark_message" then 0 else 1
      ensures (id in history) <==> m.kind != "pre_mark_message"
      ensures clock.events == if m.IsPre() then old(clock.events)
        else old(clock.events) + [Playout.Queued(Playout.Chunk(queuedAt, m.duration, m.kind))]
    {
      PreMarks(m);
      hide Mark.IsPre, StatsStep;
      m.counter := counter;
      counter := counter + 1;
      forall x ensures Agrees(x, {}) { assert old(Agrees(x, {})); }
      Enter(id, m);
      if !m.IsPre() {
        clock.NoteAudioQueued(m.duration, m.kind, queuedAt);
        CountSent(m.sequenceId, now, m.duration, m.turnId);
      }
    }

    method CountSent(sequence: Option<int>, now: real, duration: real, turn: Option<int>)
      modifies this`stats
      ensures stats == StatsStep(old(stats), Send(sequence, now, duration, turn))
      ensures stats.totalSent == old(stats.totalSent) + 1
    {
      hide Entry, PutEntry, HasEntry;
      stats := stats.(totalSent := stats.totalSent + 1);
      if sequence.Some? {
        var table, k := EnsureSequence(stats.perSequence, sequence.value);
        var entry := table[k];
        entry := entry.(sent := entry.sent + 1);
        if entry.firstSent.None? {
          entry := entry.(firstSent := Some(now));
        }
        entry := entry.(lastSent := Some(now));
        if duration > 0.0 {
          entry := entry.(audio := entry.audio + duration);
        }
        if turn.Some? && entry.turnId.None? {
          entry := entry.(turnId := turn);
        }
        stats := stats.(perSequence := table[k := entry]);
      }
    }

    // The sequence of a cleared mark is interrupted, if anything was counted for it.
    method CountInterrupted(sequence: int)
      modifies this`stats
      ensures stats == StatsStep(old(stats), Interrupt(sequence))
    {
      hide Entry, PutEntry;
      if HasEntry(stats.perSequence, sequence) {
        var table, k := EnsureSequence(stats.perSequence, sequence);
        stats := stats.(perSequence := table[k := table[k].(interrupted := true)]);
      }
    }

    // The mark becomes pending and, unless it is a pre mark, part of the history.
    method Enter(id: string, m: Mark)
      requires Valid()
      requires id !in pending && id !in history
      requires m !in records && m.id == id && m.Stands(Pending)
      modifies this`pending, this`history, this`book, this`records
      ensures Valid()
      ensures pending == old(pending)[id := m] && records == old(records) + {m}
      ensures m.IsPre() ==> book == old(book) && history == old(history)
      ensures !m.IsPre() ==> book == old(book)[id := Pending] && history == old(history)[id := m]
    {
      hide Mark.IsPre;
      assert Agrees(id, {});
      records := records + {m};
      pending := pending[id := m];
      if m.IsPre() {
        forall x ensures Agrees(x, {}) { assert old(Agrees(x, {})); }
      } else {
        history := history[id := m];
        book := book[id := Pending];
        forall x ensures Agrees(x, {}) { assert old(Agrees(x, {})); }
      }
    }

    method RecordAck(delay: real, sequenceId: Option<int>)
      requires Valid()
      modifies this`stats
      ensures Valid()
      ensures stats == StatsStep(old(stats), Ack(sequenceId, delay))
      ensures stats.totalAcked == old(stats.totalAcked) + 1 && stats.totalSent == old(stats.totalSent)
      ensures stats.delays == old(stats.delays) + if delay >= 0.0 then [delay] else []
    {
      CountAcked(delay, sequenceId);
    }

    method CountAcked(delay: real, sequence: Option<int>)
      modifies this`stats
      ensures stats == StatsStep(old(stats), Ack(sequence, delay))
    {
      hide Entry, PutEntry, HasEntry;
      assert stats.delays + [] == stats.delays;
      stats := stats.(totalAcked := stats.totalAcked + 1);
      if delay >= 0.0 {
        stats := stats.(delays := stats.delays + [delay]);
      }
      if sequence.Some? {
        var table, k := EnsureSequence(stats.perSequence, sequence.value);
        var entry := table[k];
        assert entry.delays + [] == entry.delays;
        entry := entry.(acked := entry.acked + 1);
        if delay >= 0.0 {
          entry := entry.(delays := entry.delays + [delay]);
        }
        stats := stats.(perSequence := table[k := entry]);
      }
    }

    // A mark that was never played (a cleared echo).
    method DropData(id: string) returns (dropped: Option<Mark>)
      requires Valid()
      modifies this`pending, this`book, records
      ensures Valid()
      ensures book == BookStep(old(book), Dropped(id))
      ensures pending == old(pending) - {id}
      ensures dropped == if id in old(pending) then Some(old(pending)[id]) else None
    {
      hide Mark.IsPre;
      assert Agrees(id, {});
      book := BookStep(book, Dropped(id));
      if id !in pending {
        assert pending - {id} == pending;
        forall x ensures Agrees(x, {}) { assert old(Agrees(x, {})); }
        return None;
      }
      var entry := pending[id];
      pending := pending - {id};
      entry.cleared := true;
      dropped := Some(entry);
      forall x ensures Agrees(x, {}) { assert old(Agrees(x, {})); }
    }

    // A playback ack.
    method FetchData(id: string, now: real) returns (fetched: Option<Mark>)
      requires Valid()
      modifies this`pending, this`book, records
      ensures Valid()
      ensures book == BookStep(old(book), Fetched(id))
      ensures pending == old(pending) - {id}
      ensures fetched == if id in old(pending) then Some(old(pending)[id]) else None
      ensures fetched.Some? && !fetched.value.IsPre() ==> fetched.value.ackTs == Some(now)
    {
      hide Mark.IsPre;
      assert Agrees(id, {});
      book := BookStep(book, Fetched(id));
      if id !in pending {
        assert pending - {id} == pending;
        forall x ensures Agrees(x, {}) { assert old(Agrees(x, {})); }
        return None;
      }
      var entry := pending[id];
      if !entry.IsPre() {
        entry.acked := true;
        entry.ackTs := Some(now);
      }
      pending := pending - {id};
      fetched := Some(entry);
      forall x ensures Agrees(x, {}) { assert old(Agrees(x, {})); }
    }

    // An interruption: everything pending was not heard.  The sequences of the pending marks are
    // interrupted, which is one more stretch of counts.
    method ClearData() returns (ghost interrupts: seq<Count>)
      requires Valid() && clock.Valid()
      modifies this, records, clock
      ensures Valid() && clock.Valid()
      ensures clock.events == old(clock.events) + [Playout.Dropped] && clock.audioPlayingUntil == 0.0
      ensures book == BookStep(old(book), ClearedAll)
      ensures pending == map[] && counter == 0 && history == old(history) && records == old(records)
      ensures stats == StatsAfter(old(stats), interrupts)
      ensures InterruptsOf(interrupts, old(pending), old(pending).Keys)
      // The copy that is kept.
      ensures previous.Keys == old(pending).Keys
      ensures forall id :: id in previous ==>
        previous[id] == old(pending)[id].Copy()
        && (!old(pending)[id].IsPre() ==> previous[id].clearedOnInterrupt)
    {
      hide Mark.IsPre, Mark.Copy, StatsAfter, InterruptsOf, BookStep, Agrees;
      counter := 0;
      clock.DropPlayoutEstimate();
      interrupts := FlagPending();
      KeepCopy();
      Forget();
    }

    method Forget()
      requires forall id :: Agrees(id, pending.Keys)
      modifies this`pending, this`book
      ensures Valid() && pending == map[] && book == BookStep(old(book), ClearedAll)
    {
      hide Mark.IsPre;
      pending := map[];
      book := BookStep(book, ClearedAll);
      forall x ensures Agrees(x, {}) { assert old(Agrees(x, pending.Keys)); }
    }

    method KeepCopy()
      requires forall id :: Agrees(id, pending.Keys)
      modifies this`previous
      ensures forall id :: Agrees(id, pending.Keys)
      ensures previous.Keys == pending.Keys
      ensures forall id :: id in previous ==>
        previous[id] == pending[id].Copy() && (!pending[id].IsPre() ==> previous[id].clearedOnInterrupt)
    {
      hide Mark.IsPre;
      previous := map id | id in pending :: pending[id].Copy();
      forall id | id in previous && !pending[id].IsPre() ensures previous[id].clearedOnInterrupt {
        assert Agrees(id, pending.Keys);
      }
    }

    // Every pending mark but the pre marks is flagged, and its sequence with it.
    method FlagPending() returns (ghost interrupts: seq<Count>)
      requires Valid()
      modifies this`stats, records
      ensures forall id :: Agrees(id, pending.Keys)
      ensures stats == StatsAfter(old(stats), interrupts)
      ensures InterruptsOf(interrupts, old(pending), old(pending).Keys)
    {
      hide Mark.IsPre, StatsStep, StatsAfter, InterruptsOf;
      var left := pending.Keys;
      ghost var flagged: set<string> := {};
      interrupts := [];
      NoMoreCounts(stats);
      NoInterrupts(pending);
      while left != {}
        invariant left <= pending.Keys && flagged == pending.Keys - left
        invariant stats == StatsAfter(old(stats), interrupts)
        invariant InterruptsOf(interrupts, pending, flagged)
        invariant forall x :: Agrees(x, flagged)
        decreases left
      {
        label before:
        var id :| id in left;
        assert Agrees(id, flagged);
        var m := pending[id];
        if !m.IsPre() {
          m.clearedOnInterrupt := true;
          if m.sequenceId.Some? {
            OneMoreCount(old(stats), interrupts, Interrupt(m.sequenceId.value));
            CountInterrupted(m.sequenceId.value);
          }
        }
        assert stats == StatsAfter(old(stats), interrupts + InterruptOf(m)) by {
          assert interrupts + [] == interrupts;
        }
        OneMoreMark(interrupts, pending, flagged, id);
        interrupts := interrupts + InterruptOf(m);
        forall x ensures Agrees(x, flagged + {id}) { assert old@before(Agrees(x, flagged)); }
        left := left - {id};
        flagged := flagged + {id};
      }
      assert flagged == pending.Keys;
    }
  }
}

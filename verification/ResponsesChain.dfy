/** Responses API chaining: the client sends only what the server has not seen.

    The server keeps, per response id, the context the next request builds on.  The theorem is that
    every request means the same as sending the whole history, and that an interruption hint reaches
    at most one request. */
module ResponsesChain {
  import opened Wrappers
  import opened Messages
  import opened Sequences
  import opened TextOps

  // ---------- The client's chain state ----------

  datatype Chain = Chain(previous: Option<string>, pending: set<string>, hint: Option<string>) {
    // bool(previous_response_id)
    predicate Chained() { previous.Some? && previous.value != "" }
  }

  const UNCHAINED := Chain(None, {}, None)

  // A request names the response it continues, if any, and carries the items to append to it.
  datatype Request = Request(previous: Option<string>, input: seq<Item>)

  function HintItem(heard: string): (i: Item)
    ensures i.Message? && i.role == Developer
  {
    Message(Developer,
      "[Your previous response was interrupted. The user only heard: \"" + Strip(heard) + "\". Adapt accordingly.]")
  }

  function HintPrefix(c: Chain): (items: seq<Item>)
    ensures |items| == if c.hint.Some? then 1 else 0
    ensures forall i :: 0 <= i < |items| ==> items[i].Message? && items[i].role == Developer
  {
    if c.hint.Some? then [HintItem(c.hint.value)] else []
  }

  function ToolResultIds(rows: seq<Row>): set<string> {
    set m | m in rows && m.IsTool() :: m.toolCallId
  }

  // The index of the last assistant row, or -1.
  function LastAssistant(rows: seq<Row>): (i: int)
    ensures -1 <= i < |rows|
    ensures i >= 0 ==> rows[i].role == Assistant
    ensures forall j :: i < j < |rows| ==> rows[j].role != Assistant
  {
    if rows == [] then -1
    else if rows[|rows| - 1].role == Assistant then |rows| - 1
    else LastAssistant(rows[..|rows| - 1])
  }

  function NewRows(rows: seq<Row>): seq<Row> {
    rows[LastAssistant(rows) + 1..]
  }

  // Some call of the previous response has no tool result yet in the history.
  predicate OutputsMissing(c: Chain, rows: seq<Row>) {
    c.Chained() && c.pending != {} && !(c.pending <= ToolResultIds(rows))
  }

  // The request continues the previous response.
  predicate Continues(c: Chain, rows: seq<Row>) {
    c.Chained() && !OutputsMissing(c, rows)
  }

  function RowsToSend(c: Chain, rows: seq<Row>): seq<Row> {
    if Continues(c, rows) then NewRows(rows) else rows
  }

  // The chain state after a build, and the request it produced.
  function Build(c: Chain, rows: seq<Row>): (Chain, Request) {
    var c' := c.(hint := None, previous := if OutputsMissing(c, rows) then None else c.previous);
    (c', Request(
      if Continues(c, rows) then c.previous else None,
      HintPrefix(c) + Convert(RowsToSend(c, rows))))
  }

  /** MAIN: what a build sends.  It continues the previous response exactly when there is one and every call it
      made has a tool row in the history; then it sends the rows behind the last reply, else all of them; the
      hint goes first, and is used up.  */
  lemma BuildSendsDeltaIff(c: Chain, rows: seq<Row>, k: int)
    requires -1 <= k < |rows| && (k >= 0 ==> rows[k].role == Assistant)
    requires forall j :: k < j < |rows| ==> rows[j].role != Assistant
    ensures var (after, request) := Build(c, rows);
      var continues := c.previous.Some? && c.previous.value != ""
        && forall id :: id in c.pending ==> exists m :: m in rows && m.role == Tool && m.toolCallId == id;
      && request.previous == (if continues then c.previous else None)
      && after.hint.None? && after.pending == c.pending
      && var items := Convert(if continues then rows[k + 1..] else rows);
         if c.hint.None? then request.input == items
         else request.input == [HintItem(c.hint.value)] + items
  {
    hide Convert, HintItem;
    assert LastAssistant(rows) == k;
    AnsweredIds(c, rows);
  }

  lemma AnsweredIds(c: Chain, rows: seq<Row>)
    ensures c.Chained() ==>
      (OutputsMissing(c, rows) <==>
        !forall id :: id in c.pending ==> exists m :: m in rows && m.role == Tool && m.toolCallId == id)
  {
    if forall id :: id in c.pending ==> exists m :: m in rows && m.role == Tool && m.toolCallId == id {
      forall id | id in c.pending ensures id in ToolResultIds(rows) {}
    }
  }

  /** The hint quotes what was heard, without the white space around it. */
  lemma HintQuotes(heard: string)
    ensures exists i: nat :: QuotedAt(HintItem(heard).content, Strip(heard), i)
  {
    hide Strip;
    var said := HintItem(heard).content;
    assert said[63..63 + |Strip(heard)|] == Strip(heard);
    assert QuotedAt(said, Strip(heard), 63);
  }

  predicate QuotedAt(text: string, quote: string, i: nat) {
    i + |quote| <= |text| && text[i..i + |quote|] == quote
  }

  class ResponsesClient {
    var previousResponseId: Option<string>
    var pendingCallIds: set<string>
    var interruptionHint: Option<string>

    function State(): Chain
      reads this
    {
      Chain(previousResponseId, pendingCallIds, interruptionHint)
    }

    constructor ()
      ensures State() == UNCHAINED
    {
      previousResponseId, pendingCallIds, interruptionHint := None, {}, None;
    }

    method ExtractNewInput(rows: seq<Row>) returns (items: seq<Item>)
      ensures items == Convert(NewRows(rows))
    {
      hide Convert, Parts, AllMeant;
      var last := -1;
      var i := |rows| - 1;
      while i >= 0
        invariant -1 <= i < |rows| && last == -1
        invariant LastAssistant(rows) == LastAssistant(rows[..i + 1])
      {
        if rows[i].role == Assistant {
          last := i;
          break;
        }
        assert rows[..i + 1][..i] == rows[..i];
        i := i - 1;
      }
      if last < 0 {
        items := ChatToResponsesInput(rows);
        assert rows[0..] == rows;
        return;
      }
      items := ChatToResponsesInput(rows[last + 1..]);
    }

    method BuildResponsesInput(rows: seq<Row>) returns (items: seq<Item>)
      modifies this
      ensures State() == Build(old(State()), rows).0
      ensures items == Build(old(State()), rows).1.input
    {
      hide HintItem, Convert;
      var hint := interruptionHint;
      interruptionHint := None;
      var chained := previousResponseId.Some? && previousResponseId.value != "";
      if chained && pendingCallIds != {} {
        var completed := set m | m in rows && m.IsTool() :: m.toolCallId;
        if !(pendingCallIds <= completed) {
          previousResponseId := None;
          chained := false;
        }
      }
      if chained {
        items := ExtractNewInput(rows);
      } else {
        items := ChatToResponsesInput(rows);
      }
      if hint.Some? {
        items := [HintItem(hint.value)] + items;
      }
    }

    // The input and previous-id part of the keyword arguments of one request.
    method BuildCreateArguments(rows: seq<Row>) returns (request: Request)
      modifies this
      ensures (State(), request) == Build(old(State()), rows)
    {
      var items := BuildResponsesInput(rows);
      request := Request(
        if previousResponseId.Some? && previousResponseId.value != "" then previousResponseId else None,
        items);
    }

    method SetInterruptionHint(heard: Option<string>)
      modifies this
      ensures State() == old(State()).(hint := Some(heard.GetOr("")))
    {
      interruptionHint := Some(if heard.None? then "" else heard.value);
    }

    method InvalidateResponseChain()
      modifies this
      ensures State() == UNCHAINED
    {
      previousResponseId := None;
      pendingCallIds := {};
      interruptionHint := None;
    }

    // The stream reports the new response.
    method OnCreated(id: string)
      modifies this
      ensures State() == old(State()).(previous := Some(id))
    {
      previousResponseId := Some(id);
    }

    method OnCompleted(id: string, callIds: set<string>)
      modifies this
      ensures State() == old(State()).(previous := Some(id), pending := callIds)
    {
      previousResponseId := Some(id);
      pendingCallIds := callIds;
    }

    // A rejected create: only a chained one is retried, with the chain cleared.
    method OnBadRequest() returns (retry: bool)
      modifies this
      ensures retry == old(State()).Chained()
      ensures State() == if retry then old(State()).(previous := None) else old(State())
    {
      retry := previousResponseId.Some? && previousResponseId.value != "";
      if retry {
        previousResponseId := None;
      }
    }
  }

  // ---------- Client and server together ----------

  // How a request ended: refused, created and then failed or incomplete, created and not read to its end,
  // or answered in full.
  datatype Outcome = Refused | Broken | Abandoned | Replied

  // One request as it was built: the server context it continues, the history it stands for, the number of
  // the hint it carries, whether it was built in step with the server, and how it ended.
  datatype Sent = Sent(
    request: Request, base: seq<Item>, rows: seq<Row>, hintNo: Option<nat>, clean: bool, outcome: Outcome)

  // `armed` numbers the pending hint; `dirty` is set while the chain continues a response nobody read to
  // its end.
  datatype World = World(
    chain: Chain,
    history: seq<Row>,
    contexts: map<string, seq<Item>>,
    sent: seq<Sent>,
    armed: Option<nat>,
    hints: nat,
    dirty: bool)

  datatype Event =
    | Extend(rows: seq<Row>)                        // assistant-free rows
    | Edit(rows: seq<Row>)                          // the chain is invalidated, then any rewrite
    | Hint(heard: Option<string>)
    | Complete(id: string, reply: Row)              // streamed reply, appended to the history
    | CompletePlain(id: string, reply: Row)         // non-streamed reply: pending ids untouched
    | BadRequest                                    // create rejected with HTTP 400
    | CreateError                                   // create failed otherwise
    | Break(id: string)                             // created, then failed or incomplete
    | Abandon(id: string, output: seq<Item>)        // created, then nobody reads on

  // Every event that builds a request.
  predicate Requests(e: Event) {
    !(e.Extend? || e.Edit? || e.Hint?)
  }

  function OutcomeOf(e: Event): Outcome {
    match e
    case Break(_) => Broken
    case Abandon(_, _) => Abandoned
    case Complete(_, _) => Replied
    case CompletePlain(_, _) => Replied
    case _ => Refused
  }

  predicate Enabled(w: World, e: Event) {
    match e
    case Extend(rows) => forall m :: m in rows ==> m.role != Assistant
    case Complete(id, reply) => id != "" && id !in w.contexts && reply.role == Assistant
    case CompletePlain(id, reply) => id != "" && id !in w.contexts && reply.role == Assistant
    case Break(id) => id != "" && id !in w.contexts
    case Abandon(id, _) => id != "" && id !in w.contexts
    case _ => true
  }

  function ContextOf(w: World, previous: Option<string>): seq<Item> {
    if previous.Some? && previous.value in w.contexts then w.contexts[previous.value] else []
  }

  // A request that continues no response starts over with the full history.
  function Built(w: World, o: Outcome): Sent {
    var request := Build(w.chain, w.history).1;
    Sent(request, ContextOf(w, request.previous), w.history, w.armed, !(w.dirty && request.previous.Some?), o)
  }

  function Send(w: World, o: Outcome): World {
    var s := Built(w, o);
    w.(chain := Build(w.chain, w.history).0, sent := w.sent + [s], armed := None, dirty := !s.clean)
  }

  function LastContext(w: World): seq<Item>
    requires w.sent != []
  {
    w.sent[|w.sent| - 1].base + w.sent[|w.sent| - 1].request.input
  }

  function CallIds(reply: Row): set<string> {
    set tc | tc in reply.toolCalls :: tc.id
  }

  function Step(w: World, e: Event): World {
    match e
    case Extend(rows) => w.(history := w.history + rows)
    case Edit(rows) => w.(chain := UNCHAINED, history := rows, armed := None, dirty := false)
    case Hint(heard) =>
      w.(chain := w.chain.(hint := Some(heard.GetOr(""))), armed := Some(w.hints), hints := w.hints + 1)
    case Complete(id, reply) =>
      var s := Send(w, OutcomeOf(e));
      s.(chain := s.chain.(previous := Some(id), pending := CallIds(reply)),
         contexts := s.contexts[id := LastContext(s) + RowItems(reply)],
         history := s.history + [reply])
    case CompletePlain(id, reply) =>
      var s := Send(w, OutcomeOf(e));
      s.(chain := s.chain.(previous := Some(id)),
         contexts := s.contexts[id := LastContext(s) + RowItems(reply)],
         history := s.history + [reply])
    case BadRequest =>
      var s := Send(w, OutcomeOf(e));
      s.(chain := if s.chain.Chained() then s.chain.(previous := None) else s.chain, dirty := false)
    case CreateError => Send(w, OutcomeOf(e))
    case Break(_) => Send(w, OutcomeOf(e)).(chain := UNCHAINED, dirty := false)
    case Abandon(id, output) =>
      var s := Send(w, OutcomeOf(e));
      s.(chain := s.chain.(previous := Some(id)),
         contexts := s.contexts[id := LastContext(s) + output],
         dirty := true)
  }

  // ---------- What must hold ----------

  function UnlessHint(item: Item): seq<Item> {
    if item.Message? && item.role == Developer then [] else [item]
  }

  function WithoutHints(items: seq<Item>): seq<Item> {
    if items == [] then [] else UnlessHint(items[0]) + WithoutHints(items[1..])
  }

  // The request, on top of what the server already holds, amounts to the whole history.
  predicate Faithful(s: Sent) {
    WithoutHints(s.base + s.request.input) == Convert(s.rows)
  }

  // It opens with its one hint item, if it carries a hint, and has no other.
  predicate OneHint(s: Sent) {
    var n := if s.hintNo.Some? then 1 else 0;
    && |WithoutHints(s.request.input)| + n == |s.request.input|
    && (n == 1 ==> s.request.input != [] && UnlessHint(s.request.input[0]) == [])
  }

  // The server has seen exactly the history up to the last assistant row.
  predicate InStep(w: World) {
    w.chain.Chained() ==>
      && w.chain.previous.value in w.contexts
      && LastAssistant(w.history) >= 0
      && WithoutHints(w.contexts[w.chain.previous.value]) == Convert(w.history[..LastAssistant(w.history) + 1])
  }

  ghost predicate HintsUsedOnce(w: World) {
    && (w.armed.Some? <==> w.chain.hint.Some?)
    && (w.armed.Some? ==> w.armed.value < w.hints)
    && (forall i :: 0 <= i < |w.sent| && w.sent[i].hintNo.Some? ==>
          w.sent[i].hintNo.value < w.hints && w.sent[i].hintNo != w.armed)
    && (forall i, j :: 0 <= i < j < |w.sent| && w.sent[i].hintNo.Some? ==> w.sent[i].hintNo != w.sent[j].hintNo)
  }

  ghost predicate Inv(w: World) {
    && (!w.dirty ==> InStep(w))
    && HintsUsedOnce(w)
    && (forall i :: 0 <= i < |w.sent| ==> SentWell(w.sent[i]))
  }

  // Built in step, it means the same as the whole history; only a chained request can be built out of step.
  predicate SentWell(s: Sent) {
    && OneHint(s)
    && (s.clean ==> Faithful(s))
    && (!s.clean ==> s.request.previous.Some?)
  }

  // ---------- Facts about conversion ----------

  lemma {:induction false} WithoutHintsAppend(a: seq<Item>, b: seq<Item>)
    ensures WithoutHints(a + b) == WithoutHints(a) + WithoutHints(b)
  {
    hide UnlessHint;
    if a == [] {
      assert a + b == b;
    } else {
      WithoutHintsAppend(a[1..], b);
      assert (a + b)[0] == a[0] && (a + b)[1..] == a[1..] + b;
      Associates(UnlessHint(a[0]), WithoutHints(a[1..]), WithoutHints(b));
    }
  }

  lemma {:induction false} CallsAreNoHints(calls: seq<ToolCall>)
    ensures WithoutHints(CallItems(calls)) == CallItems(calls)
  {
    if calls != [] { CallsAreNoHints(calls[1..]); }
  }

  lemma RowItemsAreNoHints(m: Row)
    ensures WithoutHints(RowItems(m)) == RowItems(m)
  {
    if m.role == Assistant {
      CallsAreNoHints(m.toolCalls);
      WithoutHintsAppend(if m.content.Some? then [Message(Assistant, m.content.value)] else [], CallItems(m.toolCalls));
    }
  }

  lemma {:induction false} ConversionHasNoHints(rows: seq<Row>)
    ensures WithoutHints(Convert(rows)) == Convert(rows)
  {
    if rows != [] {
      ConversionHasNoHints(rows[1..]);
      RowItemsAreNoHints(rows[0]);
      WithoutHintsAppend(RowItems(rows[0]), Convert(rows[1..]));
    }
  }

  lemma LastAssistantAfter(rows: seq<Row>, more: seq<Row>)
    requires forall m :: m in more ==> m.role != Assistant
    ensures LastAssistant(rows + more) == LastAssistant(rows)
  {
    assert forall j :: |rows| <= j < |rows + more| ==> (rows + more)[j] in more;
    assert forall j :: 0 <= j < |rows| ==> (rows + more)[j] == rows[j];
  }

  // ---------- One step ----------

  lemma BuiltShape(w: World, o: Outcome)
    ensures var s := Built(w, o);
      && s.rows == w.history && s.base == ContextOf(w, s.request.previous) && s.hintNo == w.armed
      && s.request.previous == (if Continues(w.chain, w.history) then w.chain.previous else None)
      && s.request.input == HintPrefix(w.chain) + Convert(RowsToSend(w.chain, w.history))
  {
    hide HintPrefix, OutputsMissing, Convert, RowsToSend;
  }

  lemma Prefixed(prefix: seq<Item>, rows: seq<Row>)
    requires WithoutHints(prefix) == []
    ensures WithoutHints(prefix + Convert(rows)) == Convert(rows)
  {
    hide *;
    ConversionHasNoHints(rows);
    WithoutHintsAppend(prefix, Convert(rows));
  }

  /** MAIN: what makes a request faithful.  One that continues no response always is; one that does is if and
      only if what the server holds under it, hints aside, is what the rows up to the last assistant row
      convert to. */
  lemma RequestFaithfulIff(w: World, o: Outcome)
    requires w.armed.Some? <==> w.chain.hint.Some?
    ensures var s := Built(w, o);
      && (s.request.previous.None? ==> Faithful(s))
      && (s.request.previous.Some? ==>
            (Faithful(s) <==> WithoutHints(s.base) == Convert(w.history[..LastAssistant(w.history) + 1])))
  {
    hide Built, WithoutHints, Convert, NewRows, OneHint, OutputsMissing;
    BuiltShape(w, o);
    HintPrefixStripped(w.chain);
    Prefixed(HintPrefix(w.chain), RowsToSend(w.chain, w.history));
    var s := Built(w, o);
    if s.request.previous.None? {
      assert s.base + s.request.input == s.request.input;
    } else {
      SeenAndNew(w.history);
      var seen, news := w.history[..LastAssistant(w.history) + 1], NewRows(w.history);
      WithoutHintsAppend(s.base, s.request.input);
      ConvertAppend(seen, news);
      AppendCancels(WithoutHints(s.base), Convert(seen), Convert(news));
    }
  }

  lemma SeenAndNew(rows: seq<Row>)
    ensures rows[..LastAssistant(rows) + 1] + NewRows(rows) == rows
  {
  }

  lemma {:induction false} AppendCancels<T>(a: seq<T>, b: seq<T>, c: seq<T>)
    ensures a + c == b + c <==> a == b
  {
    if a + c == b + c {
      assert |a| == |b|;
      assert a == (a + c)[..|a|] == (b + c)[..|b|] == b;
    }
  }

  /** One build in step is faithful: chained or not, with or without a hint, and when it falls back to the
      full history because a tool result is missing. */
  lemma SendIsFaithful(w: World, o: Outcome)
    requires !Send(w, o).dirty && (w.dirty || InStep(w)) && (w.armed.Some? <==> w.chain.hint.Some?)
    ensures Faithful(Built(w, o))
    ensures WithoutHints(LastContext(Send(w, o))) == Convert(w.history)
    ensures InStep(Send(w, o))
  {
    hide WithoutHints, Convert, LastAssistant, HintItem;
    RequestFaithfulIff(w, o);
  }

  lemma HintPrefixStripped(c: Chain)
    ensures WithoutHints(HintPrefix(c)) == []
  {
  }

  lemma ReplyKeepsStep(s: World, id: string, reply: Row, chain: Chain)
    requires reply.role == Assistant && chain.previous == Some(id)
    requires s.sent != [] && WithoutHints(LastContext(s)) == Convert(s.history)
    ensures InStep(s.(chain := chain,
                      contexts := s.contexts[id := LastContext(s) + RowItems(reply)],
                      history := s.history + [reply]))
  {
    hide RowItems, WithoutHints, LastContext;
    var rows := s.history + [reply];
    WithoutHintsAppend(LastContext(s), RowItems(reply));
    RowItemsAreNoHints(reply);
    ConvertAppend(s.history, [reply]);
    ConvertOne(reply);
    assert LastAssistant(rows) == |s.history|;
    assert rows[..|s.history| + 1] == rows;
  }

  // The next request takes the armed hint, if any, and disarms it.
  lemma HintIsSpent(w: World, w': World, s: Sent)
    requires HintsUsedOnce(w) && w'.sent == w.sent + [s] && s.hintNo == w.armed
    requires w'.armed.None? && w'.chain.hint.None? && w'.hints == w.hints
    ensures HintsUsedOnce(w')
  {
  }

  lemma SendIsWell(w: World, o: Outcome)
    requires (!w.dirty ==> InStep(w)) && (w.armed.Some? <==> w.chain.hint.Some?)
    ensures SentWell(Built(w, o))
    ensures !Send(w, o).dirty ==> InStep(Send(w, o)) && WithoutHints(LastContext(Send(w, o))) == Convert(w.history)
  {
    hide Faithful, InStep, Build, WithoutHints, Convert, LastContext;
    BuiltShape(w, o);
    HintPrefixStripped(w.chain);
    Prefixed(HintPrefix(w.chain), RowsToSend(w.chain, w.history));
    if !Send(w, o).dirty {
      SendIsFaithful(w, o);
    }
  }

  lemma SendKeepsInv(w: World, o: Outcome)
    requires Inv(w)
    ensures Inv(Send(w, o)) && Send(w, o).sent != []
    ensures !Send(w, o).dirty ==> WithoutHints(LastContext(Send(w, o))) == Convert(w.history)
  {
    hide SentWell, InStep, Build, ContextOf, WithoutHints, Convert, LastContext;
    SendIsWell(w, o);
    AfterSend(w, o);
    HintIsSpent(w, Send(w, o), Built(w, o));
    var sent := Send(w, o).sent;
    forall i | 0 <= i < |sent| ensures SentWell(sent[i]) {
      assert i < |w.sent| ==> sent[i] == w.sent[i];
    }
  }

  lemma ExtendKeepsStep(w: World, rows: seq<Row>)
    requires InStep(w) && forall m :: m in rows ==> m.role != Assistant
    ensures InStep(w.(history := w.history + rows))
  {
    hide WithoutHints, Convert, LastAssistant;
    LastAssistantAfter(w.history, rows);
    var k := LastAssistant(w.history);
    assert (w.history + rows)[..k + 1] == w.history[..k + 1];
  }

  lemma StepKeepsInv(w: World, e: Event)
    requires Inv(w) && Enabled(w, e)
    ensures Inv(Step(w, e))
  {
    hide SentWell, Build, LastContext, RowItems, WithoutHints, Convert, LastAssistant;
    if Requests(e) {
      SendKeepsInv(w, OutcomeOf(e));
    }
    var s := Send(w, OutcomeOf(e));
    match e
    case Extend(rows) => if !w.dirty { ExtendKeepsStep(w, rows); }
    case Complete(id, reply) =>
      if !s.dirty { ReplyKeepsStep(s, id, reply, s.chain.(previous := Some(id), pending := CallIds(reply))); }
    case CompletePlain(id, reply) =>
      if !s.dirty { ReplyKeepsStep(s, id, reply, s.chain.(previous := Some(id))); }
    case _ =>
  }

  // ---------- Whole runs ----------

  function Start(history: seq<Row>): World {
    World(UNCHAINED, history, map[], [], None, 0, false)
  }

  predicate EnabledRun(w: World, events: seq<Event>)
    decreases |events|
  {
    events == [] || (Enabled(w, events[0]) && EnabledRun(Step(w, events[0]), events[1..]))
  }

  function Run(w: World, events: seq<Event>): World
    decreases |events|
  {
    if events == [] then w else Run(Step(w, events[0]), events[1..])
  }

  lemma {:induction false} RunKeepsInv(w: World, events: seq<Event>)
    requires Inv(w) && EnabledRun(w, events)
    ensures Inv(Run(w, events))
    decreases |events|
  {
    if events != [] {
      StepKeepsInv(w, events[0]);
      RunKeepsInv(Step(w, events[0]), events[1..]);
    }
  }

  /** MAIN: in every run, every request built in step with the server means the same as sending the whole
      history of that moment, leaving hints out; a request is out of step only when it continues a response
      that nobody read to its end; and every hint goes into at most one request, at its head. */
  lemma ChainingMeansFullHistory(history: seq<Row>, events: seq<Event>)
    requires EnabledRun(Start(history), events)
    ensures var sent := Run(Start(history), events).sent;
      && (forall i :: 0 <= i < |sent| ==> OneHint(sent[i]) && (sent[i].clean ==> Faithful(sent[i])))
      && (forall i :: 0 <= i < |sent| && !sent[i].clean ==> sent[i].request.previous.Some?)
      && ((forall e :: e in events ==> !e.Abandon?) ==> forall i :: 0 <= i < |sent| ==> sent[i].clean)
      && (forall i, j :: 0 <= i < j < |sent| && sent[i].hintNo.Some? ==> sent[i].hintNo != sent[j].hintNo)
  {
    RunKeepsInv(Start(history), events);
    if forall e :: e in events ==> !e.Abandon? {
      StaysClean(Start(history), events);
    }
  }

  ghost predicate AllClean(w: World) {
    !w.dirty && forall i :: 0 <= i < |w.sent| ==> w.sent[i].clean
  }

  lemma StepStaysClean(w: World, e: Event)
    requires AllClean(w) && !e.Abandon?
    ensures AllClean(Step(w, e))
  {
    hide Build, ContextOf, LastContext, RowItems;
  }

  lemma {:induction false} StaysClean(w: World, events: seq<Event>)
    requires AllClean(w) && forall e :: e in events ==> !e.Abandon?
    ensures AllClean(Run(w, events))
    decreases |events|
  {
    if events != [] {
      assert events[0] in events;
      StepStaysClean(w, events[0]);
      StaysClean(Step(w, events[0]), events[1..]);
    }
  }

  // ---------- Where the chain depends on the client ----------

  /** Rewriting the history without invalidating the chain (trimming a heard reply, say) leaves the
      next chained request faithful exactly when the rewrite does not change how the rows up to the
      last assistant row convert. */
  lemma SilentEditFaithfulIff(w: World, rows: seq<Row>, o: Outcome)
    requires InStep(w) && (w.armed.Some? <==> w.chain.hint.Some?)
    requires w.chain.Chained() && !OutputsMissing(w.chain, rows)
    ensures Faithful(Built(w.(history := rows), o)) <==>
      Convert(rows[..LastAssistant(rows) + 1]) == Convert(w.history[..LastAssistant(w.history) + 1])
  {
    hide Built, WithoutHints, Convert, LastAssistant, Faithful, SentWell;
    ContinuedFaithfulIff(w.(history := rows), o);
  }

  lemma ContinuedFaithfulIff(w: World, o: Outcome)
    requires (w.armed.Some? <==> w.chain.hint.Some?) && w.chain.Chained() && w.chain.previous.value in w.contexts
    requires !OutputsMissing(w.chain, w.history)
    ensures Faithful(Built(w, o)) <==>
      WithoutHints(w.contexts[w.chain.previous.value]) == Convert(w.history[..LastAssistant(w.history) + 1])
  {
    hide WithoutHints, Convert, LastAssistant, HintPrefix, Faithful, OutputsMissing;
    RequestFaithfulIff(w, o);
  }

  /** A response broken off stays in the server's context.  A request that continues it is faithful exactly
      when the history in the meantime says what the server holds: everything sent, and the output so far. */
  lemma AbandonedFaithfulIff(w: World, id: string, output: seq<Item>, rows: seq<Row>, o: Outcome)
    requires (w.dirty || InStep(w)) && (w.armed.Some? <==> w.chain.hint.Some?)
    requires Enabled(w, Abandon(id, output)) && !Send(w, Abandoned).dirty
    requires !OutputsMissing(Step(w, Abandon(id, output)).chain, rows)
    ensures var left := Step(w, Abandon(id, output)).(history := rows);
      Faithful(Built(left, o)) <==>
        Convert(w.history) + WithoutHints(output) == Convert(rows[..LastAssistant(rows) + 1])
  {
    hide Built, WithoutHints, Convert, LastAssistant, Faithful, LastContext, SentWell;
    SendIsFaithful(w, Abandoned);
    WithoutHintsAppend(LastContext(Send(w, Abandoned)), output);
    ContinuedFaithfulIff(Step(w, Abandon(id, output)).(history := rows), o);
  }

  // ---------- What becomes of a hint ----------

  // The first event that is more than rows coming in.
  function NextMove(events: seq<Event>): (k: nat)
    ensures k <= |events|
    ensures forall i :: 0 <= i < k ==> events[i].Extend?
    ensures k < |events| ==> !events[k].Extend?
  {
    if events != [] && events[0].Extend? then 1 + NextMove(events[1..]) else 0
  }

  // The hint is in a request that ended like this.
  ghost predicate InRequest(sent: seq<Sent>, hint: nat, outcomes: set<Outcome>) {
    exists i :: 0 <= i < |sent| && sent[i].hintNo == Some(hint) && sent[i].outcome in outcomes
  }

  // What becomes of a hint in one go: the next move is a request that ends like this.
  predicate Reaches(events: seq<Event>, outcomes: set<Outcome>) {
    var k := NextMove(events);
    k < |events| && Requests(events[k]) && OutcomeOf(events[k]) in outcomes
  }

  const CREATED := {Broken, Abandoned, Replied}

  // A hint no longer armed is in no later request.
  lemma {:induction false} SpentHintStaysSpent(w: World, events: seq<Event>, hint: nat, outcomes: set<Outcome>)
    requires Inv(w) && EnabledRun(w, events) && hint < w.hints && w.armed != Some(hint)
    ensures InRequest(Run(w, events).sent, hint, outcomes) <==> InRequest(w.sent, hint, outcomes)
    decreases |events|
  {
    if events != [] {
      StepKeepsInv(w, events[0]);
      OtherHints(w, events[0], hint, outcomes);
      SpentHintStaysSpent(Step(w, events[0]), events[1..], hint, outcomes);
    }
  }

  lemma OtherHints(w: World, e: Event, hint: nat, outcomes: set<Outcome>)
    requires hint < w.hints && w.armed != Some(hint)
    ensures var w' := Step(w, e);
      && hint < w'.hints && w'.armed != Some(hint)
      && (InRequest(w'.sent, hint, outcomes) <==> InRequest(w.sent, hint, outcomes))
  {
    hide Build, ContextOf, LastContext, RowItems;
    var w' := Step(w, e);
    if InRequest(w.sent, hint, outcomes) {
      var i :| 0 <= i < |w.sent| && w.sent[i].hintNo == Some(hint) && w.sent[i].outcome in outcomes;
      assert w'.sent[i] == w.sent[i];
    }
  }

  /** MAIN: in every run, what becomes of a hint is decided by the first move after it, other than rows coming
      in: it is in a request that ended in one of these ways if and only if that move is such a request.
      With CREATED: the server got it exactly when that request was neither rejected nor failed to be
      created.  With {Replied}: a reply was given to it exactly when that request was answered in full. */
  lemma {:induction false} HintReachesIff(w: World, events: seq<Event>, hint: nat, outcomes: set<Outcome>)
    requires Inv(w) && EnabledRun(w, events) && w.armed == Some(hint)
    ensures InRequest(Run(w, events).sent, hint, outcomes) <==> Reaches(events, outcomes)
    decreases |events|
  {
    hide Build, Faithful;
    if events == [] {
    } else if events[0].Extend? {
      StepKeepsInv(w, events[0]);
      HintReachesIff(Step(w, events[0]), events[1..], hint, outcomes);
      assert NextMove(events) == 1 + NextMove(events[1..]);
    } else {
      StepKeepsInv(w, events[0]);
      HintMoves(w, events[0], hint, outcomes);
      SpentHintStaysSpent(Step(w, events[0]), events[1..], hint, outcomes);
    }
  }

  lemma HintMoves(w: World, e: Event, hint: nat, outcomes: set<Outcome>)
    requires HintsUsedOnce(w) && w.armed == Some(hint) && !e.Extend?
    ensures var w' := Step(w, e);
      && hint < w'.hints && w'.armed != Some(hint)
      && (InRequest(w'.sent, hint, outcomes) <==> Requests(e) && OutcomeOf(e) in outcomes)
  {
    hide Build, ContextOf, LastContext, RowItems;
    var w' := Step(w, e);
    if Requests(e) {
      assert w'.sent[|w.sent|].hintNo == Some(hint) && w'.sent[|w.sent|].outcome == OutcomeOf(e);
    }
  }

  /** The same said of a whole call: the hint set between `before` and `after`. */
  lemma HintDeliveredIff(history: seq<Row>, before: seq<Event>, heard: Option<string>, after: seq<Event>)
    requires EnabledRun(Start(history), before)
    requires EnabledRun(Step(Run(Start(history), before), Hint(heard)), after)
    ensures var w := Run(Start(history), before);
      var sent := Run(Step(w, Hint(heard)), after).sent;
      && (InRequest(sent, w.hints, CREATED) <==> Reaches(after, CREATED))
      && (InRequest(sent, w.hints, {Replied}) <==> Reaches(after, {Replied}))
  {
    hide Reaches, InRequest, Inv, Run;
    assert Inv(Start(history)) by { StartIsFine(history); }
    RunKeepsInv(Start(history), before);
    var w := Run(Start(history), before);
    StepKeepsInv(w, Hint(heard));
    HintReachesIff(Step(w, Hint(heard)), after, w.hints, CREATED);
    HintReachesIff(Step(w, Hint(heard)), after, w.hints, {Replied});
  }

  lemma StartIsFine(history: seq<Row>)
    ensures Inv(Start(history))
  {
  }

  /** A broken response, an edit and a rejected chained request all leave the next request to start over. */
  lemma StartsOver(w: World, e: Event, o: Outcome)
    requires e.Break? || e.Edit? || (e.BadRequest? && w.chain.Chained())
    ensures Built(Step(w, e), o).request.previous.None?
  {
    hide Convert, HintPrefix, OutputsMissing;
  }

  /** A completed response is the one the next request continues, once the history holds a result for every
      call it made. */
  lemma CompletedIsContinued(w: World, id: string, reply: Row, more: seq<Row>, o: Outcome)
    requires Enabled(w, Complete(id, reply))
    ensures var next := Step(Step(w, Complete(id, reply)), Extend(more));
      Built(next, o).request.previous.Some? <==>
        forall tc :: tc in reply.toolCalls ==>
          exists m :: m in w.history + [reply] + more && m.role == Tool && m.toolCallId == tc.id
    ensures var request := Built(Step(Step(w, Complete(id, reply)), Extend(more)), o).request;
      request.previous.Some? ==> request.previous == Some(id)
  {
    hide Convert, HintPrefix, LastContext, RowItems, OutputsMissing;
    var next := Step(Step(w, Complete(id, reply)), Extend(more));
    AfterSend(w, Replied);
    AnsweredIds(next.chain, next.history);
    assert next.history == w.history + [reply] + more;
    forall tc | tc in reply.toolCalls ensures tc.id in next.chain.pending {}
  }

  /** In particular a chained request that carries a hint and is rejected is tried again without it. */
  lemma RejectedRequestLosesItsHint(w: World, o: Outcome)
    requires w.armed.Some? && w.chain.Chained() && w.chain.hint.Some?
    ensures var rejected := Step(w, BadRequest);
      var retried := Built(rejected, o);
      && rejected.sent[|w.sent|].hintNo.Some?
      && retried.hintNo.None?
      && retried.request == Request(None, Convert(w.history))
  {
    hide Built, HintItem, Convert, SentWell, OutputsMissing;
    var rejected := Step(w, BadRequest);
    BuiltShape(w, Refused);
    AfterSend(w, Refused);
    BuiltShape(rejected, o);
    assert HintPrefix(rejected.chain) == [];
    assert [] + Convert(w.history) == Convert(w.history);
  }

  lemma AfterSend(w: World, o: Outcome)
    ensures Send(w, o).history == w.history && Send(w, o).chain.hint.None? && Send(w, o).armed.None?
    ensures |Send(w, o).sent| == |w.sent| + 1
  {
    hide Convert, OutputsMissing, HintPrefix, RowsToSend;
  }
}

/** The history repair seen from the response chain.  Every copy for the model repairs the history in place,
    an edit the chain is not told of; this says when it is harmless. */
module RepairedChain {
  import opened Wrappers
  import opened Messages
  import opened Sequences
  import opened History
  import opened ResponsesChain

  // The last reply keeps its calls: it made none, or each is answered right behind it.
  predicate ReplyKept(m: Row, tools: seq<Row>) {
    m.HasCalls() ==> ExpectedIds(m) != {} && ExpectedIds(m) <= ResultIds(tools)
  }

  predicate NoReplies(rows: seq<Row>) {
    forall m :: m in rows ==> m.role != Assistant
  }

  // What the client holds between two builds: the history repaired at the last one, the reply it got, the
  // tool rows right behind it, and rows that came in later.
  ghost predicate SinceLastBuild(history: seq<Row>, before: seq<Row>, m: Row, tools: seq<Row>, later: seq<Row>) {
    && history == before + [m] + tools + later
    && WellFormed(before) && m.role == Assistant && AllTools(tools)
    && StartsNoTool(later) && NoReplies(later)
  }

  // ---------- What the repair makes of it ----------

  lemma {:induction false} MatchedIds(tools: seq<Row>, wanted: set<string>)
    ensures ResultIds(FirstMatches(tools, wanted)) == wanted * ResultIds(tools)
  {
    if tools != [] {
      var t := tools[0];
      assert tools == [t] + tools[1..];
      IdsOfFirst(t, tools[1..]);
      if t.toolCallId in wanted {
        MatchedIds(tools[1..], wanted - {t.toolCallId});
        IdsOfFirst(t, FirstMatches(tools[1..], wanted - {t.toolCallId}));
      } else {
        MatchedIds(tools[1..], wanted);
      }
    }
  }

  lemma IdsOfFirst(t: Row, rest: seq<Row>)
    ensures ResultIds([t] + rest) == {t.toolCallId} + ResultIds(rest)
  {
    var all := [t] + rest;
    assert all[0] in all && forall m :: m in rest ==> m in all;
    assert forall m :: m in all ==> m == t || m in rest;
  }

  lemma {:induction false} OrphansGo(tools: seq<Row>, later: seq<Row>)
    requires AllTools(tools)
    ensures Sanitize(tools + later) == Sanitize(later)
  {
    hide RepairGroup;
    if tools == [] {
      assert tools + later == later;
    } else {
      assert tools[0] in tools && (tools + later)[0] == tools[0];
      assert (tools + later)[1..] == tools[1..] + later;
      OrphansGo(tools[1..], later);
    }
  }

  // Without replies there are no calls, so no tool row is kept and no reply appears.
  lemma {:induction false} LaterRows(later: seq<Row>)
    requires NoReplies(later)
    ensures NoReplies(Sanitize(later)) && forall m :: m in Sanitize(later) ==> !m.IsTool()
  {
    hide RepairGroup;
    if later != [] {
      assert later[0] in later;
      assert forall m :: m in later[1..] ==> m in later;
      LaterRows(later[1..]);
    }
  }

  // What is left of the last reply and the tool rows behind it.
  function Left(m: Row, tools: seq<Row>): seq<Row> {
    if m.HasCalls() then RepairGroup(m, tools) else [m]
  }

  lemma RepairedSince(history: seq<Row>, before: seq<Row>, m: Row, tools: seq<Row>, later: seq<Row>)
    requires SinceLastBuild(history, before, m, tools, later)
    ensures Sanitize(history) == before + Left(m, tools) + Sanitize(later)
  {
    hide RepairGroup, Sanitize, WellFormed, RunLength;
    var group := [m] + tools + later;
    assert history == before + group;
    SanitizeSplit(before, group);
    WellFormedIsKept(before);
    if m.HasCalls() {
      SanitizeGroup(m, tools, later);
    } else {
      SanitizeRow(group);
      assert group[1..] == tools + later;
      OrphansGo(tools, later);
    }
    Associates(before, Left(m, tools), Sanitize(later));
  }

  lemma LeftShape(m: Row, tools: seq<Row>)
    requires m.role == Assistant && AllTools(tools)
    ensures ReplyKept(m, tools) ==> Left(m, tools) != [] && Left(m, tools)[0] == m && AllTools(Left(m, tools)[1..])
    ensures !ReplyKept(m, tools) ==> m.HasCalls() && (Left(m, tools) == [] || Left(m, tools) == [m.(toolCalls := [])])
  {
    if m.HasCalls() {
      MatchedIds(tools, ExpectedIds(m));
    }
  }

  // ---------- What the server has seen of it ----------

  // The rows up to the last reply.
  function Seen(rows: seq<Row>): seq<Row> {
    rows[..LastAssistant(rows) + 1]
  }

  lemma SeenIs(front: seq<Row>, m: Row, more: seq<Row>)
    requires m.role == Assistant && NoReplies(more)
    ensures Seen(front + [m] + more) == front + [m]
  {
    var rows := front + [m] + more;
    assert rows[|front|] == m;
    assert forall j :: |front| < j < |rows| ==> rows[j] in more;
    assert LastAssistant(rows) == |front|;
    assert rows[..|front| + 1] == front + [m];
  }

  lemma SeenWithout(front: seq<Row>, more: seq<Row>)
    requires NoReplies(more)
    ensures Seen(front + more) == Seen(front)
  {
    LastAssistantAfter(front, more);
    var k := LastAssistant(front);
    assert (front + more)[..k + 1] == front[..k + 1];
  }

  lemma SeenConvertsShorter(rows: seq<Row>)
    ensures |Convert(Seen(rows))| <= |Convert(rows)|
  {
    var k := LastAssistant(rows) + 1;
    TakeDrop(rows, k);
    ConvertAppend(rows[..k], rows[k..]);
  }

  lemma {:induction false} CallItemsCount(calls: seq<ToolCall>)
    ensures |CallItems(calls)| == |calls|
  {
    if calls != [] { CallItemsCount(calls[1..]); }
  }

  // Without its calls a reply converts to less.
  lemma CallsConvert(front: seq<Row>, m: Row)
    requires m.HasCalls()
    ensures |Convert(front + [m])| > |Convert(front)|
    ensures |Convert(front + [m])| > |Convert(front + [m.(toolCalls := [])])|
  {
    hide Convert;
    var m' := m.(toolCalls := []);
    ConvertAppend(front, [m]);
    ConvertAppend(front, [m']);
    ConvertOne(m);
    ConvertOne(m');
    CallItemsCount(m.toolCalls);
  }

  lemma RepairedSeen(history: seq<Row>, before: seq<Row>, m: Row, tools: seq<Row>, later: seq<Row>)
    requires SinceLastBuild(history, before, m, tools, later)
    ensures Seen(history) == before + [m]
    ensures Convert(Seen(Sanitize(history))) == Convert(before + [m]) <==> ReplyKept(m, tools)
  {
    hide Sanitize, WellFormed, Left, Seen, Convert, ReplyKept;
    assert forall x :: x in tools + later ==> x in tools || x in later;
    Associates(before + [m], tools, later);
    SeenIs(before, m, tools + later);
    RepairedSince(history, before, m, tools, later);
    LaterRows(later);
    LeftShape(m, tools);
    var left, rest := Left(m, tools), Sanitize(later);
    if ReplyKept(m, tools) {
      assert left == [m] + left[1..];
      assert before + left + rest == before + [m] + (left[1..] + rest);
      assert forall x :: x in left[1..] + rest ==> x in left[1..] || x in rest;
      SeenIs(before, m, left[1..] + rest);
    } else {
      CallsConvert(before, m);
      if left == [] {
        assert before + left + rest == before + rest;
        SeenWithout(before, rest);
        SeenConvertsShorter(before);
      } else {
        SeenIs(before, m.(toolCalls := []), rest);
      }
    }
  }

  // ---------- The request that is built then ----------

  // The request built from these rows in place of the history means them.
  ghost predicate FaithfulFrom(w: World, rows: seq<Row>, o: Outcome) {
    Faithful(Built(w.(history := rows), o))
  }

  /** MAIN: a chained request built from the repaired history means that history if and only if the last reply
      kept its calls, or a tool output the chain waits for is missing and the full history is sent. */
  lemma RepairFaithfulIff(
    w: World, before: seq<Row>, m: Row, tools: seq<Row>, later: seq<Row>, repaired: seq<Row>, o: Outcome)
    requires InStep(w) && (w.armed.Some? <==> w.chain.hint.Some?) && w.chain.Chained()
    requires SinceLastBuild(w.history, before, m, tools, later) && repaired == Sanitize(w.history)
    ensures FaithfulFrom(w, repaired, o) <==> ReplyKept(m, tools) || OutputsMissing(w.chain, repaired)
  {
    hide Sanitize, WellFormed, Convert, WithoutHints, LastAssistant, ReplyKept, Faithful, Built, AllTools;
    var w' := w.(history := repaired);
    RepairedSeen(w.history, before, m, tools, later);
    if OutputsMissing(w.chain, repaired) {
      BuiltShape(w', o);
      RequestFaithfulIff(w', o);
    } else {
      ContinuedFaithfulIff(w', o);
    }
  }

  lemma ToolRowsOf(a: seq<Row>, b: seq<Row>)
    ensures ToolResultIds(a + b) == ToolResultIds(a) + ToolResultIds(b)
  {
    assert forall m :: m in a + b <==> m in a || m in b;
  }

  lemma NoToolRows(rows: seq<Row>)
    requires forall m :: m in rows ==> !m.IsTool()
    ensures ToolResultIds(rows) == {}
  {
  }

  /** MAIN: with the ids of the last reply's calls pending, as a completed stream leaves them, the repair makes
      a chained request mean something else if and only if it takes the calls off the reply and every one of
      their ids had been answered before, in an earlier turn. */
  lemma RepairHarmlessIff(
    w: World, before: seq<Row>, m: Row, tools: seq<Row>, later: seq<Row>, repaired: seq<Row>, o: Outcome)
    requires InStep(w) && (w.armed.Some? <==> w.chain.hint.Some?) && w.chain.Chained()
    requires w.chain.pending == CallIds(m)
    requires SinceLastBuild(w.history, before, m, tools, later) && repaired == Sanitize(w.history)
    ensures FaithfulFrom(w, repaired, o) <==> ReplyKept(m, tools) || !(CallIds(m) <= ToolResultIds(before))
    ensures CallIds(m) !! ToolResultIds(before) ==> FaithfulFrom(w, repaired, o)
  {
    hide Sanitize, WellFormed, ReplyKept, InStep, ToolResultIds, FaithfulFrom;
    RepairFaithfulIff(w, before, m, tools, later, repaired, o);
    if !ReplyKept(m, tools) {
      RepairedSince(w.history, before, m, tools, later);
      LaterRows(later);
      LeftShape(m, tools);
      ToolRowsOf(before + Left(m, tools), Sanitize(later));
      ToolRowsOf(before, Left(m, tools));
      NoToolRows(Sanitize(later));
      NoToolRows(Left(m, tools));
    }
    assert m.HasCalls() ==> m.toolCalls[0] in m.toolCalls && m.toolCalls[0].id in CallIds(m);
  }
}

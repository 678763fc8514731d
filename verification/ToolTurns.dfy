/** One turn with tool calls: attaching the calls, appending the results and committing the spoken reply, in
    any of the orders in which they come. */
module ToolTurns {
  import opened Wrappers
  import opened Messages
  import opened Sequences
  import opened TextOps
  import opened History
  import opened HistoryEdits

  // The calls go to a new placeholder, or to a reply with nothing behind it.
  predicate AttachesLast(rows: seq<Row>, turn: int) {
    var i := LastNamed(rows, OfTurn(Some(turn)));
    i == -1 || i == |rows| - 1
  }

  // A commit in between finds a row to write to.
  predicate CommitsInPlace(rows: seq<Row>, uid: Option<string>, turn: int) {
    LastNamed(rows, OfTurn(Some(turn))) == -1 || UpsertIndex(rows, uid, Some(turn)) >= 0
  }

  // ---------- Behind the last row that is no tool row ----------

  // The last row that is no tool row; everything behind it is one.
  lemma LastSpeaker(rows: seq<Row>, i: nat) returns (k: nat)
    requires i < |rows| && !rows[i].IsTool()
    ensures i <= k < |rows| && !rows[k].IsTool()
    ensures AllTools(rows[k + 1..])
  {
    k := |rows| - 1;
    while rows[k].IsTool()
      invariant i <= k < |rows|
      invariant AllTools(rows[k + 1..])
      decreases k
    {
      assert rows[k..] == [rows[k]] + rows[k + 1..];
      k := k - 1;
    }
  }

  // The group it opens, seen on its own.
  lemma LastGroup(rows: seq<Row>, k: nat)
    requires k < |rows| && !rows[k].IsTool() && AllTools(rows[k + 1..])
    ensures WellFormed(rows) <==>
      WellFormed(rows[..k]) && (if rows[k].HasCalls() then Answers(rows[k + 1..], rows[k]) else rows[k + 1..] == [])
    ensures Sanitize(rows) == Sanitize(rows[..k]) +
      if rows[k].HasCalls() then RepairGroup(rows[k], rows[k + 1..]) else [rows[k]]
  {
    hide Answers, RepairGroup, Sanitize, RunLength;
    var m, tools := rows[k], rows[k + 1..];
    TakeDrop(rows, k);
    assert rows[k..] == [m] + tools;
    WellFormedSplit(rows[..k], rows[k..]);
    SanitizeSplit(rows[..k], rows[k..]);
    SanitizeEmpty();
    if m.HasCalls() {
      assert [m] + tools + [] == [m] + tools;
      GroupWellFormed(m, tools, []);
      SanitizeGroup(m, tools, []);
      assert RepairGroup(m, tools) + [] == RepairGroup(m, tools);
    } else {
      assert rows[k..][1..] == tools;
      SanitizeRow(rows[k..]);
      OrphansGo(tools);
      assert tools != [] ==> tools[0] in tools;
      assert [m] + [] == [m];
    }
  }

  lemma {:induction false} OrphansGo(tools: seq<Row>)
    requires AllTools(tools)
    ensures Sanitize(tools) == []
  {
    hide RepairGroup;
    if tools != [] {
      assert tools[0] in tools;
      OrphansGo(tools[1..]);
    }
  }

  // More results than calls do not answer.
  lemma Overfull(tools: seq<Row>, results: seq<Row>, m: Row)
    requires tools != [] && results != []
    requires ResultIds(results) <= ResultIds(tools) || ResultIds(tools) <= ResultIds(results)
    ensures !Answers(tools + results, m)
  {
    var all := tools + results;
    if ResultIds(results) <= ResultIds(tools) {
      assert results[0] in results && results[0].toolCallId in ResultIds(tools);
      var t :| t in tools && t.toolCallId == results[0].toolCallId;
      var i :| 0 <= i < |tools| && tools[i] == t;
      assert all[i] == t && all[|tools|] == results[0];
    } else {
      assert tools[0] in tools && tools[0].toolCallId in ResultIds(results);
      var r :| r in results && r.toolCallId == tools[0].toolCallId;
      var i :| 0 <= i < |results| && results[i] == r;
      assert all[0] == tools[0] && all[|tools| + i] == r;
    }
  }

  // ---------- Attaching and answering ----------

  lemma AttachedShape(rows: seq<Row>, turn: int, calls: seq<ToolCall>)
    ensures var i := LastNamed(rows, OfTurn(Some(turn)));
      AttachToTurn(rows, turn, calls) ==
        if i >= 0 then rows[i := rows[i].(toolCalls := calls)] else rows + [NewReply(None, calls, Some(turn), None)]
  {
    var i := LastNamed(rows, OfTurn(Some(turn)));
    assert i < 0 && rows != [] ==> !OfTurn(Some(turn)).Names(rows[|rows| - 1]);
  }

  lemma NothingAnswers(m: Row)
    ensures !Answers([], m)
  {
    assert ResultIds([]) == {};
  }

  // The last row of a well-formed history is answered, so it has no calls or is a tool row.
  lemma LastHasNoCalls(rows: seq<Row>)
    requires WellFormed(rows) && rows != []
    ensures !rows[|rows| - 1].HasCalls()
  {
    var k := |rows| - 1;
    assert rows[k + 1..] == [];
    NothingAnswers(rows[k]);
    hide Answers, Sanitize, WellFormed;
    if rows[k].HasCalls() {
      LastGroup(rows, k);
    }
  }

  lemma AnsweredLast(rows: seq<Row>, m: Row, results: seq<Row>)
    requires m.role == Assistant && AllTools(results) && Answers(results, m)
    ensures WellFormed(rows + [m] + results) <==> WellFormed(rows)
  {
    hide Sanitize, WellFormed;
    assert m.HasCalls();
    var all := rows + [m] + results;
    assert all[..|rows|] == rows && all[|rows|] == m && all[|rows| + 1..] == results;
    LastGroup(all, |rows|);
  }

  // Something stands behind the reply that got the calls: the results do not fit where they land.
  lemma AttachedTooLate(rows: seq<Row>, i: nat, m: Row, results: seq<Row>)
    requires WellFormed(rows) && i < |rows| - 1 && rows[i].role == Assistant && m.role == Assistant
    requires AllTools(results) && Answers(results, m)
    ensures !WellFormed(rows[i := m] + results)
  {
    hide Sanitize, WellFormed;
    var attached := rows[i := m];
    var all := attached + results;
    var k := LastSpeaker(attached, i);
    var tools := attached[k + 1..];
    assert all[k + 1..] == tools + results && all[..k] == attached[..k] && all[k] == attached[k];
    LastGroup(all, k);
    assert results != [];
    assert tools == rows[k + 1..];
    if all[k].HasCalls() {
      if k > i {
        LastGroup(rows, k);
        Crowded(tools, results, all[k]);
      } else if Answers(tools + results, m) {
        forall t | t in tools ensures t.toolCallId in ResultIds(results) {
          assert t in tools + results && t.toolCallId in ResultIds(tools + results);
        }
        Overfull(tools, results, m);
      }
    }
  }

  lemma Crowded(tools: seq<Row>, results: seq<Row>, m: Row)
    requires Answers(tools, m) && results != []
    ensures !Answers(tools + results, m)
  {
    if Answers(tools + results, m) {
      forall r | r in results ensures r.toolCallId in ResultIds(tools) {
        assert r in tools + results && r.toolCallId in ResultIds(tools + results);
      }
      Overfull(tools, results, m);
    }
  }

  /** MAIN: attaching a turn's calls and appending a result for each keeps the history well formed if and
      only if the calls go to a new placeholder or to a reply that nothing stands behind. */
  lemma AttachAnsweredIff(rows: seq<Row>, turn: int, calls: seq<ToolCall>, results: seq<Row>)
    requires WellFormed(rows) && AllTools(results) && Answers(results, NewReply(None, calls, Some(turn), None))
    ensures WellFormed(AttachToTurn(rows, turn, calls) + results) <==> AttachesLast(rows, turn)
  {
    hide WellFormed, AttachToTurn;
    var i := LastNamed(rows, OfTurn(Some(turn)));
    AttachedShape(rows, turn, calls);
    if i == -1 {
      AnsweredLast(rows, NewReply(None, calls, Some(turn), None), results);
    } else {
      var m := rows[i].(toolCalls := calls);
      assert ExpectedIds(m) == ExpectedIds(NewReply(None, calls, Some(turn), None));
      if i == |rows| - 1 {
        LastHasNoCalls(rows);
        var front := rows[..i];
        assert rows == front + [rows[i]] && rows[i := m] == front + [m];
        AppendKeepsForm(front, rows[i]);
        AnsweredLast(front, m, results);
      } else {
        AttachedTooLate(rows, i, m, results);
      }
    }
  }

  /** Calls attached without a turn go to the last row or behind it, so they always fit. */
  lemma AttachToLastAnswered(rows: seq<Row>, calls: seq<ToolCall>, results: seq<Row>)
    requires WellFormed(rows) && AllTools(results) && Answers(results, NewReply(None, calls, None, None))
    ensures WellFormed(AttachToLast(rows, calls) + results)
  {
    hide WellFormed;
    var n := |rows| - 1;
    if n >= 0 && rows[n].role == Assistant {
      LastHasNoCalls(rows);
      var front, m := rows[..n], rows[n].(toolCalls := calls);
      assert rows == front + [rows[n]] && rows[n := m] == front + [m];
      assert ExpectedIds(m) == ExpectedIds(NewReply(None, calls, None, None));
      AppendKeepsForm(front, rows[n]);
      AnsweredLast(front, m, results);
    } else {
      AnsweredLast(rows, NewReply(None, calls, None, None), results);
    }
  }

  // ---------- Committing the reply, after or in between ----------

  // A commit that writes into a row leaves what follows as it was.
  lemma CommitInPlace(
    rows: seq<Row>, results: seq<Row>, uid: Option<string>, content: string, turn: Option<int>)
    requires UpsertIndex(rows, uid, turn) >= 0
    ensures WellFormed(UpsertResponse(rows, uid, content, turn) + results) <==> WellFormed(rows + results)
  {
    hide WellFormed, UpsertResponse;
    var i := UpsertIndex(rows, uid, turn);
    var m := Committed(rows[i], uid, content, turn);
    UpsertShape(rows, uid, content, turn);
    RewriteKeepsForm(rows + results, i, m);
    assert (rows + results)[i := m] == rows[i := m] + results;
  }

  // A commit that appends puts itself between the calls and their results.
  lemma CommitInBetween(rows: seq<Row>, m: Row, results: seq<Row>)
    requires m.role == Assistant && !m.HasCalls() && AllTools(results) && results != []
    ensures !WellFormed(rows + [m] + results)
  {
    hide WellFormed, Sanitize;
    var all := rows + [m] + results;
    assert all[..|rows|] == rows && all[|rows|] == m && all[|rows| + 1..] == results;
    LastGroup(all, |rows|);
  }

  lemma IndexAfterAttach(rows: seq<Row>, turn: int, calls: seq<ToolCall>, uid: Option<string>)
    ensures UpsertIndex(AttachToTurn(rows, turn, calls), uid, Some(turn)) >= 0 <==> CommitsInPlace(rows, uid, turn)
  {
    hide AttachToTurn;
    AttachedShape(rows, turn, calls);
    var i := LastNamed(rows, OfTurn(Some(turn)));
    var attached := AttachToTurn(rows, turn, calls);
    if i >= 0 {
      forall j | 0 <= j < |rows| ensures SameNames(rows[j], attached[j]) {}
      SameIndices(rows, attached, uid, turn);
    } else {
      assert attached[|rows|].turnId == Some(turn);
    }
  }

  predicate SameNames(m: Row, m': Row) {
    m.role == m'.role && m.turnId == m'.turnId && m.responseUid == m'.responseUid
  }

  lemma SameIndices(rows: seq<Row>, rows': seq<Row>, uid: Option<string>, turn: int)
    requires |rows| == |rows'| && forall j :: 0 <= j < |rows| ==> SameNames(rows[j], rows'[j])
    ensures UpsertIndex(rows, uid, Some(turn)) == UpsertIndex(rows', uid, Some(turn))
  {
    hide LastNamed, Placeholder;
    assert forall j :: 0 <= j < |rows| ==> OfResponse(uid).Names(rows[j]) == OfResponse(uid).Names(rows'[j]);
    assert LastNamed(rows, OfResponse(uid)) == LastNamed(rows', OfResponse(uid));
    assert Placeholder(rows, turn) == Placeholder(rows', turn);
  }

  /** MAIN: whether a tool turn stays whole, so that the repair finds nothing to do, is settled before its
      calls are attached, by where they go.  Committing the reply after the results changes nothing; when
      the commit comes between the calls and the results it must also find a row to write to, as it does in
      the placeholder. */
  lemma ToolTurnStaysWhole(
    rows: seq<Row>, turn: int, calls: seq<ToolCall>, results: seq<Row>, uid: Option<string>, content: string)
    requires WellFormed(rows) && AllTools(results) && Answers(results, NewReply(None, calls, Some(turn), None))
    ensures var attached := AttachToTurn(rows, turn, calls);
      var before := attached + results;
      var after := UpsertResponse(attached + results, uid, content, Some(turn));
      var between := UpsertResponse(attached, uid, content, Some(turn)) + results;
      && (Sanitize(before) == before <==> AttachesLast(rows, turn))
      && (Sanitize(after) == after <==> AttachesLast(rows, turn))
      && (Sanitize(between) == between <==> AttachesLast(rows, turn) && CommitsInPlace(rows, uid, turn))
  {
    hide WellFormed, Sanitize, AttachToTurn, UpsertResponse, AttachesLast;
    var attached := AttachToTurn(rows, turn, calls);
    AttachAnsweredIff(rows, turn, calls, results);
    UpsertsKeepGrammar(attached + results, uid, content, Some(turn));
    var between := UpsertResponse(attached, uid, content, Some(turn)) + results;
    IndexAfterAttach(rows, turn, calls, uid);
    if CommitsInPlace(rows, uid, turn) {
      CommitInPlace(attached, results, uid, content, Some(turn));
    } else {
      UpsertShape(attached, uid, content, Some(turn));
      assert results != [];
      CommitInBetween(attached, NewReply(Some(content), [], Some(turn), uid), results);
    }
    SanitizeFixedIff(attached + results);
    SanitizeFixedIff(UpsertResponse(attached + results, uid, content, Some(turn)));
    SanitizeFixedIff(between);
  }

  // ---------- What becomes of it otherwise ----------

  lemma {:induction false} MatchesInFront(tools: seq<Row>, results: seq<Row>, wanted: set<string>)
    requires wanted <= ResultIds(tools)
    ensures FirstMatches(tools + results, wanted) == FirstMatches(tools, wanted)
  {
    if tools == [] {
      assert tools + results == results;
      assert wanted == {};
      NothingWanted(results);
    } else {
      var t := tools[0];
      assert (tools + results)[0] == t && (tools + results)[1..] == tools[1..] + results;
      forall id | id in wanted && id != t.toolCallId ensures id in ResultIds(tools[1..]) {
        var m :| m in tools && m.toolCallId == id;
      }
      MatchesInFront(tools[1..], results, if t.toolCallId in wanted then wanted - {t.toolCallId} else wanted);
    }
  }

  lemma {:induction false} NothingWanted(tools: seq<Row>)
    ensures FirstMatches(tools, {}) == []
  {
    if tools != [] { NothingWanted(tools[1..]); }
  }

  /** MAIN: when another row that is no tool row has come behind the reply, the repair drops every result of
      the turn: the model is shown what it would be shown had the tools never answered. */
  lemma LateResultsAreLost(rows: seq<Row>, turn: int, calls: seq<ToolCall>, results: seq<Row>, j: nat)
    requires WellFormed(rows) && AllTools(results)
    requires 0 <= LastNamed(rows, OfTurn(Some(turn))) < j < |rows| && !rows[j].IsTool()
    ensures Sanitize(AttachToTurn(rows, turn, calls) + results) == Sanitize(AttachToTurn(rows, turn, calls))
  {
    hide WellFormed, Sanitize, Answers;
    var attached := AttachToTurn(rows, turn, calls);
    var all := attached + results;
    var k := LastSpeaker(attached, j);
    var tools := attached[k + 1..];
    assert all[k + 1..] == tools + results && all[..k] == attached[..k] && all[k] == attached[k] == rows[k];
    assert tools == rows[k + 1..];
    LastGroup(rows, k);
    LastGroup(attached, k);
    LastGroup(all, k);
    if rows[k].HasCalls() {
      assert ExpectedIds(rows[k]) <= ResultIds(tools) by { AnswersCover(tools, rows[k]); }
      MatchesInFront(tools, results, ExpectedIds(rows[k]));
    }
  }

  lemma AnswersCover(tools: seq<Row>, m: Row)
    requires Answers(tools, m)
    ensures ExpectedIds(m) <= ResultIds(tools)
  {
  }

  /** The reply of turn 1 has a user row behind it when its call is attached: call and result are lost. */
  lemma LateCallIsLost(reply: string, said: Row, call: ToolCall, output: string)
    requires !IsBlank(reply) && said.role == User && call.id != ""
    ensures var rows := [NewReply(Some(reply), [], Some(1), None), said];
      && WellFormed(rows)
      && Sanitize(AttachToTurn(rows, 1, [call]) + [ToolResult(call.id, output)]) == rows
  {
    hide Answers, WellFormed, Sanitize, RepairGroup;
    var m := NewReply(Some(reply), [], Some(1), None);
    var m' := m.(toolCalls := [call]);
    var rows, attached := [m, said], [m', said];
    TwoRowsAreFine(m, said);
    assert rows[0] == m && rows[1] == said;
    LastNamedIs(rows, OfTurn(Some(1)), 0);
    assert AttachToTurn(rows, 1, [call]) == attached;
    LateResultsAreLost(rows, 1, [call], [ToolResult(call.id, output)], 1);
    assert attached[2..] == [] && attached[..1] == [m'] && [m'][..0] == [] && [m'][1..] == [];
    LastGroup(attached, 1);
    LastGroup([m'], 0);
    SanitizeEmpty();
    UnansweredCall(m', call);
  }

  lemma TwoRowsAreFine(m: Row, m': Row)
    requires !m.IsTool() && !m.HasCalls() && !m'.IsTool() && !m'.HasCalls()
    ensures WellFormed([m, m'])
  {
    WellFormedEmpty();
    assert [] + [m] == [m] && [m] + [m'] == [m, m'];
    AppendKeepsForm([], m);
    AppendKeepsForm([m], m');
  }

  lemma UnansweredCall(m: Row, call: ToolCall)
    requires m.toolCalls == [call] && call.id != "" && HasText(m)
    ensures RepairGroup(m, []) == [m.(toolCalls := [])]
  {
    assert call in m.toolCalls && call.id in ExpectedIds(m);
    assert ResultIds([]) == {};
  }

  /** The reply of turn 1 has had a call answered when another one is attached: the first call is overwritten
      and its result orphaned. */
  lemma SecondCallBreaksTheFirst(a: ToolCall, b: ToolCall, first: string, second: string)
    requires a.id != "" && b.id != "" && a.id != b.id
    ensures var rows := [NewReply(None, [a], Some(1), None), ToolResult(a.id, first)];
      && WellFormed(rows)
      && !WellFormed(AttachToTurn(rows, 1, [b]) + [ToolResult(b.id, second)])
  {
    var m, r, s := NewReply(None, [a], Some(1), None), ToolResult(a.id, first), ToolResult(b.id, second);
    var rows := [m, r];
    OneAnswer(m, a, r);
    OneAnswer(NewReply(None, [b], Some(1), None), b, s);
    hide Sanitize, WellFormed, Answers;
    assert rows[..0] == [] && rows[1..] == [r];
    WellFormedEmpty();
    LastGroup(rows, 0);
    LastNamedIs(rows, OfTurn(Some(1)), 0);
    AttachAnsweredIff(rows, 1, [b], [s]);
  }

  lemma OneAnswer(m: Row, call: ToolCall, r: Row)
    requires m.toolCalls == [call] && call.id != "" && r.toolCallId == call.id && r.IsTool()
    ensures Answers([r], m) && AllTools([r])
  {
    assert call in m.toolCalls;
    assert ExpectedIds(m) == {call.id};
    assert r in [r] && ResultIds([r]) == {call.id};
  }

  lemma WellFormedEmpty()
    ensures WellFormed([])
  {
  }

  // ---------- The row a turn ends up as ----------

  /** A turn without a reply yet: attaching its calls, appending a result for each and then committing the
      spoken reply yields one row carrying both the reply and the calls, right before its results. */
  lemma FreshTurnIsOneRow(
    rows: seq<Row>, turn: int, calls: seq<ToolCall>, results: seq<Row>, uid: string, content: string)
    requires forall m :: m in rows ==> m.turnId != Some(turn) && m.responseUid != Some(uid)
    requires AllTools(results) && forall m :: m in results ==> m.responseUid.None?
    ensures UpsertResponse(AttachToTurn(rows, turn, calls) + results, Some(uid), content, Some(turn))
      == rows + [NewReply(Some(content), calls, Some(turn), Some(uid))] + results
  {
    hide LastNamed, Placeholder, AttachToTurn, UpsertResponse;
    var stub := NewReply(None, calls, Some(turn), None);
    var all := rows + [stub] + results;
    assert forall j :: 0 <= j < |rows| ==> rows[j] in rows;
    AttachedShape(rows, turn, calls);
    assert forall j :: |rows| < j < |all| ==> all[j] in results;
    assert all[|rows|] == stub;
    assert LastNamed(all, OfResponse(Some(uid))) == -1;
    assert Placeholder(all, turn) == |rows|;
    UpsertShape(all, Some(uid), content, Some(turn));
  }

  /** A turn whose reply was committed first and is the last row: that row takes the calls, and committing it
      again only rewrites its text. */
  lemma SpokenTurnIsOneRow(
    rows: seq<Row>, reply: Row, turn: int, calls: seq<ToolCall>, results: seq<Row>, uid: string, content: string)
    requires reply.role == Assistant && reply.turnId == Some(turn) && reply.responseUid == Some(uid)
    requires AllTools(results)
    ensures UpsertResponse(AttachToTurn(rows + [reply], turn, calls) + results, Some(uid), content, Some(turn))
      == rows + [reply.(toolCalls := calls, content := Some(content))] + results
  {
    hide LastNamed, Placeholder;
    var m := reply.(toolCalls := calls);
    var attached, all := rows + [m], rows + [m] + results;
    LastNamedIs(rows + [reply], OfTurn(Some(turn)), |rows|);
    assert AttachToTurn(rows + [reply], turn, calls) == attached;
    assert forall j :: |rows| < j < |all| ==> all[j] in results;
    LastNamedIs(all, OfResponse(Some(uid)), |rows|);
    assert all[|rows| := m.(content := Some(content))] == rows + [m.(content := Some(content))] + results;
  }
}

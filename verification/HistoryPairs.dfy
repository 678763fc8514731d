/** What a repaired history converts to: every tool output has its call before it. */
module HistoryPairs {
  import opened Wrappers
  import opened Messages
  import opened Sequences
  import opened History

  // Every output comes after a call with its id.
  ghost predicate Paired(items: seq<Item>) {
    forall j :: 0 <= j < |items| && items[j].FunctionCallOutput? ==> CalledBefore(items, j)
  }

  ghost predicate CalledBefore(items: seq<Item>, j: nat)
    requires j < |items| && items[j].FunctionCallOutput?
  {
    exists i :: 0 <= i < j && items[i].FunctionCall? && items[i].callId == items[j].callId
  }

  // Every call with an id is followed by an output with that id.
  ghost predicate Answered(items: seq<Item>) {
    forall i :: 0 <= i < |items| && items[i].FunctionCall? && items[i].callId != "" ==> AnsweredAfter(items, i)
  }

  ghost predicate AnsweredAfter(items: seq<Item>, i: nat)
    requires i < |items| && items[i].FunctionCall?
  {
    exists j :: i < j < |items| && items[j].FunctionCallOutput? && items[j].callId == items[i].callId
  }

  lemma PairedAppend(a: seq<Item>, b: seq<Item>)
    requires Paired(a) && Paired(b)
    ensures Paired(a + b)
  {
    var items := a + b;
    forall j | 0 <= j < |items| && items[j].FunctionCallOutput? ensures CalledBefore(items, j) {
      if j < |a| {
        assert CalledBefore(a, j);
        var i :| 0 <= i < j && a[i].FunctionCall? && a[i].callId == a[j].callId;
        assert items[i] == a[i];
      } else {
        assert CalledBefore(b, j - |a|);
        var i :| 0 <= i < j - |a| && b[i].FunctionCall? && b[i].callId == b[j - |a|].callId;
        assert items[|a| + i] == b[i];
      }
    }
  }

  lemma AnsweredAppend(a: seq<Item>, b: seq<Item>)
    requires Answered(a) && Answered(b)
    ensures Answered(a + b)
  {
    var items := a + b;
    forall i | 0 <= i < |items| && items[i].FunctionCall? && items[i].callId != "" ensures AnsweredAfter(items, i) {
      if i < |a| {
        assert AnsweredAfter(a, i);
        var j :| i < j < |a| && a[j].FunctionCallOutput? && a[j].callId == a[i].callId;
        assert items[j] == a[j];
      } else {
        assert AnsweredAfter(b, i - |a|);
        var j :| i - |a| < j < |b| && b[j].FunctionCallOutput? && b[j].callId == b[i - |a|].callId;
        assert items[|a| + j] == b[j];
      }
    }
  }

  // ---------- One group ----------

  lemma {:induction false} CallItemsAre(calls: seq<ToolCall>)
    ensures |CallItems(calls)| == |calls|
    ensures forall i :: 0 <= i < |calls| ==> CallItems(calls)[i] == calls[i].AsItem()
  {
    if calls != [] { CallItemsAre(calls[1..]); }
  }

  lemma {:induction false} ToolItemsAre(tools: seq<Row>)
    requires AllTools(tools)
    ensures |Convert(tools)| == |tools|
    ensures forall j :: 0 <= j < |tools| ==>
      Convert(tools)[j] == FunctionCallOutput(tools[j].toolCallId, tools[j].content.GetOr(""))
  {
    if tools != [] {
      assert tools[0] in tools;
      ToolItemsAre(tools[1..]);
    }
  }

  // Where the items of a group stand: the text first, then the calls, then the outputs.
  lemma GroupItems(m: Row, tools: seq<Row>) returns (calls: seq<Item>, outputs: seq<Item>, t: seq<Item>)
    requires m.HasCalls() && AllTools(tools)
    ensures Convert([m] + tools) == t + calls + outputs
    ensures |t| <= 1 && forall i :: 0 <= i < |t| ==> t[i].Message?
    ensures |calls| == |m.toolCalls| && forall i :: 0 <= i < |calls| ==> calls[i] == m.toolCalls[i].AsItem()
    ensures |outputs| == |tools| && forall j :: 0 <= j < |outputs| ==>
      outputs[j] == FunctionCallOutput(tools[j].toolCallId, tools[j].content.GetOr(""))
  {
    t := if m.content.Some? then [Message(Assistant, m.content.value)] else [];
    calls, outputs := CallItems(m.toolCalls), Convert(tools);
    CallItemsAre(m.toolCalls);
    ToolItemsAre(tools);
    ConvertAppend([m], tools);
    ConvertOne(m);
  }

  lemma GroupPaired(m: Row, tools: seq<Row>)
    requires m.HasCalls() && AllTools(tools) && ResultIds(tools) <= ExpectedIds(m)
    ensures Paired(Convert([m] + tools))
  {
    hide Convert;
    var calls, outputs, t := GroupItems(m, tools);
    var items := Convert([m] + tools);
    forall j | 0 <= j < |items| && items[j].FunctionCallOutput? ensures CalledBefore(items, j) {
      var k := j - |t| - |calls|;
      assert items[j] == outputs[k];
      assert tools[k] in tools && tools[k].toolCallId in ExpectedIds(m);
      var tc :| tc in m.toolCalls && tc.id == tools[k].toolCallId;
      var i :| 0 <= i < |m.toolCalls| && m.toolCalls[i] == tc;
      assert items[|t| + i] == calls[i];
    }
  }

  lemma GroupAnswered(m: Row, tools: seq<Row>)
    requires m.HasCalls() && AllTools(tools) && ExpectedIds(m) <= ResultIds(tools)
    ensures Answered(Convert([m] + tools))
  {
    hide Convert;
    var calls, outputs, t := GroupItems(m, tools);
    var items := Convert([m] + tools);
    forall i | 0 <= i < |items| && items[i].FunctionCall? && items[i].callId != "" ensures AnsweredAfter(items, i) {
      assert items[i] == calls[i - |t|];
      assert m.toolCalls[i - |t|] in m.toolCalls;
      assert items[i].callId in ResultIds(tools);
      var x :| x in tools && x.toolCallId == items[i].callId;
      var k :| 0 <= k < |tools| && tools[k] == x;
      assert items[|t| + |calls| + k] == outputs[k];
    }
  }

  lemma LoneRow(m: Row)
    requires !m.IsTool() && !m.HasCalls()
    ensures Paired(Convert([m])) && Answered(Convert([m]))
  {
    ConvertOne(m);
  }

  // ---------- Whole histories ----------

  // The rows the model is shown.
  function Visible(rows: seq<Row>): seq<Row> {
    if rows == [] then [] else (if rows[0].excluded then [] else [rows[0]]) + Visible(rows[1..])
  }

  lemma {:induction false} VisibleAppend(a: seq<Row>, b: seq<Row>)
    ensures Visible(a + b) == Visible(a) + Visible(b)
  {
    if a == [] {
      assert a + b == b;
    } else {
      VisibleAppend(a[1..], b);
      assert (a + b)[0] == a[0] && (a + b)[1..] == a[1..] + b;
      Associates(if a[0].excluded then [] else [a[0]], Visible(a[1..]), Visible(b));
    }
  }

  lemma {:induction false} VisibleSome(rows: seq<Row>)
    ensures forall m :: m in Visible(rows) ==> m in rows && !m.excluded
  {
    if rows != [] { VisibleSome(rows[1..]); }
  }

  lemma {:induction false} AllHidden(rows: seq<Row>)
    requires forall m :: m in rows ==> m.excluded
    ensures Visible(rows) == []
  {
    if rows != [] {
      assert rows[0] in rows;
      AllHidden(rows[1..]);
    }
  }

  // Whoever hides an assistant row with calls hides its tool rows too.
  ghost predicate HidesWholeGroups(rows: seq<Row>)
    decreases |rows|
  {
    rows == [] ||
    if rows[0].HasCalls() then
      var n := RunLength(rows[1..]);
      (rows[0].excluded ==> forall t :: t in rows[1..n + 1] ==> t.excluded) && HidesWholeGroups(rows[n + 1..])
    else HidesWholeGroups(rows[1..])
  }

  lemma VisibleGroupPaired(m: Row, tools: seq<Row>)
    requires m.HasCalls() && AllTools(tools) && Answers(tools, m)
    requires m.excluded ==> forall t :: t in tools ==> t.excluded
    ensures Paired(Convert(Visible([m] + tools)))
  {
    VisibleAppend([m], tools);
    VisibleSome(tools);
    var shown := Visible(tools);
    if m.excluded {
      AllHidden(tools);
    } else {
      assert Visible([m]) == [m];
      GroupPaired(m, shown);
    }
  }

  /** What a well-formed history shows the model pairs up, even when rows are hidden from it, as long as a
      hidden assistant row takes its tool rows along. */
  lemma {:induction false} VisiblePairsUp(rows: seq<Row>)
    requires WellFormed(rows) && HidesWholeGroups(rows)
    ensures Paired(Convert(Visible(rows)))
    decreases |rows|
  {
    hide Answers, RunLength, Paired;
    if rows == [] {
      EmptyPaired();
    } else if rows[0].HasCalls() {
      var tools, rest := TakeGroup(rows);
      VisiblePairsUp(rest);
      VisibleGroupPaired(rows[0], tools);
      VisibleAppend([rows[0]] + tools, rest);
      ConvertAppend(Visible([rows[0]] + tools), Visible(rest));
      PairedAppend(Convert(Visible([rows[0]] + tools)), Convert(Visible(rest)));
    } else {
      VisiblePairsUp(rows[1..]);
      LoneRow(rows[0]);
      ConvertAppend(if rows[0].excluded then [] else [rows[0]], Visible(rows[1..]));
      EmptyPaired();
      PairedAppend(Convert(if rows[0].excluded then [] else [rows[0]]), Convert(Visible(rows[1..])));
    }
  }

  // ---------- Hiding rows, exactly ----------

  // The ids the call rows of a history wait for.
  function CallIds(rows: seq<Row>): set<string> {
    if rows == [] then {} else (if rows[0].HasCalls() then ExpectedIds(rows[0]) else {}) + CallIds(rows[1..])
  }

  // No id is waited for by two rows.
  predicate DistinctCalls(rows: seq<Row>) {
    rows == [] ||
    ((rows[0].HasCalls() ==> ExpectedIds(rows[0]) !! CallIds(rows[1..])) && DistinctCalls(rows[1..]))
  }

  lemma {:induction false} CallIdsAppend(a: seq<Row>, b: seq<Row>)
    ensures CallIds(a + b) == CallIds(a) + CallIds(b)
    ensures DistinctCalls(a + b) ==> DistinctCalls(b)
  {
    hide ExpectedIds;
    if a == [] {
      assert a + b == b;
    } else {
      assert (a + b)[0] == a[0] && (a + b)[1..] == a[1..] + b;
      CallIdsAppend(a[1..], b);
    }
  }

  lemma {:induction false} ToolsCallNothing(tools: seq<Row>)
    requires AllTools(tools)
    ensures CallIds(tools) == {}
  {
    if tools != [] {
      assert tools[0] in tools;
      ToolsCallNothing(tools[1..]);
    }
  }

  lemma {:induction false} VisibleCallIds(rows: seq<Row>)
    ensures CallIds(Visible(rows)) <= CallIds(rows)
  {
    hide ExpectedIds;
    if rows != [] {
      VisibleCallIds(rows[1..]);
      CallIdsAppend(if rows[0].excluded then [] else [rows[0]], Visible(rows[1..]));
      assert [rows[0]][1..] == [];
    }
  }

  lemma {:induction false} ToolHasOutput(rows: seq<Row>, m: Row)
    requires m in rows && m.IsTool()
    ensures FunctionCallOutput(m.toolCallId, m.content.GetOr("")) in Convert(rows)
  {
    if rows[0] != m {
      assert m in rows[1..];
      ToolHasOutput(rows[1..], m);
    }
  }

  lemma {:induction false} CallHasRow(rows: seq<Row>, item: Item)
    requires item in Convert(rows) && item.FunctionCall? && item.callId != ""
    ensures item.callId in CallIds(rows)
  {
    if item in RowItems(rows[0]) {
      var m := rows[0];
      assert m.role == Assistant && item in CallItems(m.toolCalls);
      CallItemsAre(m.toolCalls);
      var i :| 0 <= i < |CallItems(m.toolCalls)| && CallItems(m.toolCalls)[i] == item;
      assert m.toolCalls[i] in m.toolCalls;
    } else {
      CallHasRow(rows[1..], item);
    }
  }

  // The rows shown hold a call for every tool row shown.
  ghost predicate CallsShown(rows: seq<Row>) {
    forall t :: t in rows && t.IsTool() && !t.excluded && t.toolCallId != "" ==> t.toolCallId in CallIds(Visible(rows))
  }

  lemma PairedShowsCalls(rows: seq<Row>)
    requires Paired(Convert(Visible(rows)))
    ensures CallsShown(rows)
  {
    hide CallIds, Convert;
    var shown := Visible(rows);
    var items := Convert(shown);
    forall t | t in rows && t.IsTool() && !t.excluded && t.toolCallId != "" ensures t.toolCallId in CallIds(shown) {
      InVisible(rows, t);
      ToolHasOutput(shown, t);
      var j :| 0 <= j < |items| && items[j] == FunctionCallOutput(t.toolCallId, t.content.GetOr(""));
      assert CalledBefore(items, j);
      var i :| 0 <= i < j && items[i].FunctionCall? && items[i].callId == items[j].callId;
      CallHasRow(shown, items[i]);
    }
  }

  lemma {:induction false} InVisible(rows: seq<Row>, m: Row)
    requires m in rows && !m.excluded
    ensures m in Visible(rows)
  {
    if rows[0] != m {
      assert m in rows[1..];
      InVisible(rows[1..], m);
    }
  }

  lemma {:induction false} ToolsAreCalled(rows: seq<Row>, t: Row)
    requires WellFormed(rows) && t in rows && t.IsTool()
    ensures t.toolCallId in CallIds(rows) && t.toolCallId != ""
    decreases |rows|
  {
    hide RunLength;
    if rows[0].HasCalls() {
      var tools, rest := TakeGroup(rows);
      CallIdsAppend([rows[0]] + tools, rest);
      CallIdsAppend([rows[0]], tools);
      assert [rows[0]][1..] == [];
      if t in tools {
        assert t.toolCallId in ResultIds(tools);
      } else {
        ToolsAreCalled(rest, t);
      }
    } else {
      ToolsAreCalled(rows[1..], t);
    }
  }

  lemma {:induction false} CallsShownHidesWhole(rows: seq<Row>)
    requires WellFormed(rows) && DistinctCalls(rows) && CallsShown(rows)
    ensures HidesWholeGroups(rows)
    decreases |rows|
  {
    hide RunLength, ExpectedIds, CallIds;
    if rows == [] {
    } else if rows[0].HasCalls() {
      var m := rows[0];
      var tools, rest := TakeGroup(rows);
      GroupShows(m, tools, rest);
      GroupHides(m, tools, rest);
      CallsShownHidesWhole(rest);
    } else {
      RowShows(rows);
      CallsShownHidesWhole(rows[1..]);
    }
  }

  // What is shown of a group and of what follows it.
  lemma GroupShows(m: Row, tools: seq<Row>, rest: seq<Row>)
    requires m.HasCalls() && AllTools(tools) && DistinctCalls([m] + tools + rest)
    ensures CallIds(Visible([m] + tools + rest)) ==
      (if m.excluded then {} else ExpectedIds(m)) + CallIds(Visible(rest))
    ensures DistinctCalls(rest) && ExpectedIds(m) !! CallIds(rest) && CallIds(Visible(rest)) <= CallIds(rest)
  {
    hide ExpectedIds;
    var shown := if m.excluded then [] else [m];
    assert [m] + tools + rest == [m] + (tools + rest);
    assert ([m] + (tools + rest))[1..] == tools + rest;
    CallIdsAppend(tools, rest);
    ToolsCallNothing(tools);
    VisibleCallIds(rest);
    VisibleAppend([m], tools + rest);
    VisibleAppend(tools, rest);
    assert [m][1..] == [] && Visible([m]) == shown;
    VisibleSome(tools);
    ToolsCallNothing(Visible(tools));
    CallIdsAppend(shown, Visible(tools) + Visible(rest));
    CallIdsAppend(Visible(tools), Visible(rest));
  }

  lemma GroupHides(m: Row, tools: seq<Row>, rest: seq<Row>)
    requires m.HasCalls() && AllTools(tools) && Answers(tools, m) && WellFormed(rest)
    requires DistinctCalls([m] + tools + rest) && CallsShown([m] + tools + rest)
    ensures m.excluded ==> forall t :: t in tools ==> t.excluded
    ensures CallsShown(rest)
  {
    hide RunLength, CallIds, Visible, DistinctCalls;
    var rows := [m] + tools + rest;
    GroupShows(m, tools, rest);
    if m.excluded {
      forall t | t in tools ensures t.excluded {
        assert t in rows && t.toolCallId in ResultIds(tools);
      }
    }
    forall t | t in rest && t.IsTool() && !t.excluded && t.toolCallId != ""
      ensures t.toolCallId in CallIds(Visible(rest))
    {
      assert t in rows;
      ToolsAreCalled(rest, t);
    }
  }

  lemma RowShows(rows: seq<Row>)
    requires rows != [] && !rows[0].HasCalls() && !rows[0].IsTool() && DistinctCalls(rows) && CallsShown(rows)
    ensures DistinctCalls(rows[1..]) && CallsShown(rows[1..])
  {
    hide ExpectedIds;
    var shown := if rows[0].excluded then [] else [rows[0]];
    CallIdsAppend(shown, Visible(rows[1..]));
    assert [rows[0]][1..] == [];
    forall t | t in rows[1..] ensures t in rows {}
  }

  /** MAIN: when no call id is used twice, what a well-formed history shows the model pairs up if and only if
      every hidden assistant row with calls takes its tool rows along. */
  lemma VisiblePairsUpIff(rows: seq<Row>)
    requires WellFormed(rows) && DistinctCalls(rows)
    ensures Paired(Convert(Visible(rows))) <==> HidesWholeGroups(rows)
  {
    hide *;
    if Paired(Convert(Visible(rows))) {
      PairedShowsCalls(rows);
      CallsShownHidesWhole(rows);
    }
    if HidesWholeGroups(rows) {
      VisiblePairsUp(rows);
    }
  }

  lemma EmptyPaired()
    ensures Paired(Convert([])) && Answered(Convert([]))
  {
  }

  /** MAIN: a well-formed history converts to items where, in both directions, every output has its
      call before it and every identified call has its output behind it. */
  lemma {:induction false} WellFormedPairsUp(rows: seq<Row>)
    requires WellFormed(rows)
    ensures Paired(Convert(rows)) && Answered(Convert(rows))
    decreases |rows|
  {
    hide RunLength, Paired, Answered;
    if rows == [] {
      EmptyPaired();
    } else if rows[0].HasCalls() {
      var tools, rest := TakeGroup(rows);
      WellFormedPairsUp(rest);
      GroupPaired(rows[0], tools);
      GroupAnswered(rows[0], tools);
      ConvertAppend([rows[0]] + tools, rest);
      PairedAppend(Convert([rows[0]] + tools), Convert(rest));
      AnsweredAppend(Convert([rows[0]] + tools), Convert(rest));
    } else {
      WellFormedPairsUp(rows[1..]);
      LoneRow(rows[0]);
      ConvertAppend([rows[0]], rows[1..]);
      assert [rows[0]] + rows[1..] == rows;
      PairedAppend(Convert([rows[0]]), Convert(rows[1..]));
      AnsweredAppend(Convert([rows[0]]), Convert(rows[1..]));
    }
  }

  /** Hiding is not repaired: an assistant row hidden alone leaves its tool row without a call. */
  lemma HiddenCallOrphansItsOutput(call: ToolCall)
    requires call.id != ""
    ensures var rows :=
        [Row(Assistant, None, [call], "", None, None, true), Row(Tool, None, [], call.id, None, None, false)];
      WellFormed(rows) && !Paired(Convert(Visible(rows)))
  {
    var m := Row(Assistant, None, [call], "", None, None, true);
    var t := Row(Tool, None, [], call.id, None, None, false);
    assert [m, t][1..] == [t] && [m, t][2..] == [];
    assert call in m.toolCalls;
    assert ExpectedIds(m) == {call.id} && ResultIds([t]) == {call.id};
    assert RunLength([t]) == 1;
    assert Visible([t]) == [t] + Visible([t][1..]) == [t];
    assert Visible([m, t]) == [t];
    var items := Convert([t]);
    ConvertOne(t);
    assert !CalledBefore(items, 0);
  }
}

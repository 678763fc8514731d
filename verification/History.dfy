/** Repair of assistant/tool-call pairs in a conversation history, and the edits that keep them. */
module History {
  import opened Messages
  import opened Sequences
  import opened TextOps

  // ---------- The grammar ----------

  function RunLength(rows: seq<Row>): (n: nat)
    ensures n <= |rows|
    ensures forall i :: 0 <= i < n ==> rows[i].IsTool()
    ensures n < |rows| ==> !rows[n].IsTool()
  {
    if rows != [] && rows[0].IsTool() then 1 + RunLength(rows[1..]) else 0
  }

  // The non-empty ids an assistant row waits for.
  function ExpectedIds(m: Row): set<string> {
    set tc | tc in m.toolCalls && tc.id != "" :: tc.id
  }

  function ResultIds(tools: seq<Row>): set<string> {
    set m | m in tools :: m.toolCallId
  }

  ghost predicate DistinctIds(tools: seq<Row>) {
    forall i, j :: 0 <= i < j < |tools| ==> tools[i].toolCallId != tools[j].toolCallId
  }

  // One tool row for each awaited id, no other, and at least one.
  ghost predicate Answers(tools: seq<Row>, m: Row) {
    ExpectedIds(m) != {} && ResultIds(tools) == ExpectedIds(m) && DistinctIds(tools)
  }

  /** Every assistant row with calls is followed by exactly one tool row per non-empty call id, and
      there is no other tool row. */
  ghost predicate WellFormed(rows: seq<Row>)
    decreases |rows|
  {
    rows == [] ||
    if rows[0].HasCalls() then
      var n := RunLength(rows[1..]);
      Answers(rows[1..n + 1], rows[0]) && WellFormed(rows[n + 1..])
    else
      !rows[0].IsTool() && WellFormed(rows[1..])
  }

  /** An id is awaited when some call of the row has it and it is not empty, and given when some tool row is
      for it. */
  lemma AwaitedIff(m: Row, tools: seq<Row>, id: string)
    ensures id in ExpectedIds(m) <==> id != "" && exists tc :: tc in m.toolCalls && tc.id == id
    ensures id in ResultIds(tools) <==> exists t :: t in tools && t.toolCallId == id
  {
  }

  /** So an answered row has a call with an id, and each of its non-empty ids exactly one tool row. */
  lemma AnsweredOnce(tools: seq<Row>, m: Row, tc: ToolCall)
    requires Answers(tools, m) && tc in m.toolCalls && tc.id != ""
    ensures exists i :: 0 <= i < |tools| && AnswersAlone(tools, i, tc.id)
  {
    AwaitedIff(m, tools, tc.id);
    var t :| t in tools && t.toolCallId == tc.id;
    var i :| 0 <= i < |tools| && tools[i] == t;
    assert AnswersAlone(tools, i, tc.id);
  }

  ghost predicate AnswersAlone(tools: seq<Row>, i: nat, id: string)
    requires i < |tools|
  {
    tools[i].toolCallId == id && forall j :: 0 <= j < |tools| && j != i ==> tools[j].toolCallId != id
  }

  predicate AllTools(rows: seq<Row>) {
    forall m :: m in rows ==> m.IsTool()
  }

  predicate StartsNoTool(rows: seq<Row>) {
    rows == [] || !rows[0].IsTool()
  }

  lemma {:induction false} RunLengthOf(tools: seq<Row>, rest: seq<Row>)
    requires AllTools(tools) && StartsNoTool(rest)
    ensures RunLength(tools + rest) == |tools|
  {
    if tools == [] {
      assert tools + rest == rest;
    } else {
      assert tools[0] in tools;
      assert (tools + rest)[1..] == tools[1..] + rest;
      RunLengthOf(tools[1..], rest);
    }
  }

  // An assistant row with calls, the tool rows right behind it, and what follows.
  lemma TakeGroup(rows: seq<Row>) returns (tools: seq<Row>, rest: seq<Row>)
    requires rows != [] && rows[0].HasCalls()
    ensures rows == [rows[0]] + tools + rest && |rest| < |rows|
    ensures AllTools(tools) && StartsNoTool(rest)
    ensures tools == rows[1..RunLength(rows[1..]) + 1] && rest == rows[RunLength(rows[1..]) + 1..]
  {
    var n := RunLength(rows[1..]);
    tools, rest := rows[1..n + 1], rows[n + 1..];
    assert forall i :: 0 <= i < n ==> tools[i] == rows[1..][i];
    assert rest != [] ==> rest[0] == rows[1..][n];
  }

  lemma GroupShape(m: Row, tools: seq<Row>, rest: seq<Row>)
    requires AllTools(tools) && StartsNoTool(rest)
    ensures var rows := [m] + tools + rest;
      RunLength(rows[1..]) == |tools| && rows[1..|tools| + 1] == tools && rows[|tools| + 1..] == rest
  {
    assert ([m] + tools + rest)[1..] == tools + rest;
    RunLengthOf(tools, rest);
  }

  // A block of one assistant row and its tool rows can be checked on its own.
  lemma GroupWellFormed(m: Row, tools: seq<Row>, rest: seq<Row>)
    requires m.HasCalls() && AllTools(tools) && StartsNoTool(rest)
    ensures WellFormed([m] + tools + rest) <==> Answers(tools, m) && WellFormed(rest)
  {
    hide Answers, RunLength;
    GroupShape(m, tools, rest);
  }

  lemma SplitBehindGroup(m: Row, tools: seq<Row>, rest: seq<Row>, b: seq<Row>)
    requires m.HasCalls() && AllTools(tools) && StartsNoTool(rest) && StartsNoTool(b)
    requires WellFormed(rest + b) <==> WellFormed(rest) && WellFormed(b)
    ensures WellFormed([m] + tools + rest + b) <==> WellFormed([m] + tools + rest) && WellFormed(b)
  {
    hide WellFormed, Answers;
    GroupWellFormed(m, tools, rest);
    GroupWellFormed(m, tools, rest + b);
    assert [m] + tools + rest + b == [m] + tools + (rest + b);
  }

  /** Well-formedness can be checked piecewise at any row that is not a tool row. */
  lemma {:induction false} WellFormedSplit(a: seq<Row>, b: seq<Row>)
    requires StartsNoTool(b)
    ensures WellFormed(a + b) <==> WellFormed(a) && WellFormed(b)
    decreases |a|
  {
    hide Answers;
    if a == [] {
      assert a + b == b;
    } else if a[0].HasCalls() {
      var tools, rest := TakeGroup(a);
      WellFormedSplit(rest, b);
      SplitBehindGroup(a[0], tools, rest, b);
    } else {
      WellFormedSplit(a[1..], b);
      assert (a + b)[1..] == a[1..] + b;
    }
  }

  // Every tool row sits in a run that starts right after an assistant row with calls.
  ghost predicate NoOrphans(rows: seq<Row>) {
    forall j :: 0 <= j < |rows| && rows[j].IsTool() ==> j > 0 && (rows[j - 1].IsTool() || rows[j - 1].HasCalls())
  }

  ghost predicate AnsweredAt(rows: seq<Row>, i: nat)
    requires i < |rows|
  {
    rows[i].HasCalls() ==> Answers(rows[i + 1..][..RunLength(rows[i + 1..])], rows[i])
  }

  ghost predicate AllAnswered(rows: seq<Row>) {
    forall i :: 0 <= i < |rows| ==> AnsweredAt(rows, i)
  }

  // A first block of n + 1 rows: one row and the tool rows behind it.
  lemma PeelAnswered(rows: seq<Row>, n: nat)
    requires n + 1 <= |rows| && AllTools(rows[1..n + 1])
    ensures AllAnswered(rows) <==> AnsweredAt(rows, 0) && AllAnswered(rows[n + 1..])
  {
    hide Answers, RunLength;
    var rest := rows[n + 1..];
    forall i | 0 <= i < |rest| ensures AnsweredAt(rest, i) <==> AnsweredAt(rows, n + 1 + i) {
      assert rest[i + 1..] == rows[n + 1 + i + 1..];
    }
    forall i | 1 <= i < n + 1 ensures AnsweredAt(rows, i) {
      assert rows[1..n + 1][i - 1] in rows[1..n + 1];
    }
    if AllAnswered(rest) && AnsweredAt(rows, 0) {
      forall i | 0 <= i < |rows| ensures AnsweredAt(rows, i) {
        if i > n { assert AnsweredAt(rest, i - n - 1); }
      }
    }
    if AllAnswered(rows) {
      forall i | 0 <= i < |rest| ensures AnsweredAt(rest, i) { assert AnsweredAt(rows, n + 1 + i); }
    }
  }

  lemma PeelOrphans(rows: seq<Row>, n: nat)
    requires n + 1 <= |rows| && AllTools(rows[1..n + 1])
    requires n > 0 ==> rows[0].HasCalls()
    requires rows[0].HasCalls() ==> StartsNoTool(rows[n + 1..])
    ensures NoOrphans(rows) <==> !rows[0].IsTool() && NoOrphans(rows[n + 1..])
  {
    var rest := rows[n + 1..];
    if NoOrphans(rows) {
      forall j | 0 <= j < |rest| && rest[j].IsTool() ensures j > 0 && (rest[j - 1].IsTool() || rest[j - 1].HasCalls()) {
        assert rows[n + 1 + j].IsTool();
      }
    }
    if !rows[0].IsTool() && NoOrphans(rest) {
      forall j | 0 <= j < |rows| && rows[j].IsTool() ensures j > 0 && (rows[j - 1].IsTool() || rows[j - 1].HasCalls()) {
        if j > n {
          assert rest[j - n - 1] == rows[j];
        } else if j > 1 {
          assert rows[j - 1] == rows[1..n + 1][j - 2];
        }
      }
    }
  }

  /** The grammar, said by position: each assistant row with calls is answered by the tool rows right
      behind it, and no tool row stands anywhere else. */
  lemma {:induction false} WellFormedByPosition(rows: seq<Row>)
    ensures WellFormed(rows) <==> NoOrphans(rows) && AllAnswered(rows)
    decreases |rows|
  {
    hide Answers, NoOrphans, AllAnswered;
    if rows == [] {
      PositionBase();
    } else if rows[0].HasCalls() {
      var tools, rest := TakeGroup(rows);
      WellFormedByPosition(rest);
      PeelAnswered(rows, |tools|);
      PeelOrphans(rows, |tools|);
      assert rows[1..][..|tools|] == tools;
    } else {
      WellFormedByPosition(rows[1..]);
      PeelAnswered(rows, 0);
      PeelOrphans(rows, 0);
    }
  }

  lemma PositionBase()
    ensures NoOrphans([]) && AllAnswered([])
  {
  }

  // ---------- Repair ----------

  // The first tool row for each wanted id, in order.
  function FirstMatches(tools: seq<Row>, wanted: set<string>): (r: seq<Row>)
    ensures forall m :: m in r ==> m in tools && m.toolCallId in wanted
  {
    if tools == [] then []
    else if tools[0].toolCallId in wanted then
      [tools[0]] + FirstMatches(tools[1..], wanted - {tools[0].toolCallId})
    else FirstMatches(tools[1..], wanted)
  }

  function HasText(m: Row): bool {
    m.content.Some? && !IsBlank(m.content.value)
  }

  // What is kept of an assistant row with calls and the tool rows behind it.
  function RepairGroup(m: Row, tools: seq<Row>): seq<Row> {
    var matched := FirstMatches(tools, ExpectedIds(m));
    if ExpectedIds(m) != {} && ExpectedIds(m) <= ResultIds(matched) then [m] + matched
    else if HasText(m) then [m.(toolCalls := [])]
    else []
  }

  function Sanitize(rows: seq<Row>): seq<Row>
    decreases |rows|
  {
    if rows == [] then []
    else if rows[0].HasCalls() then
      var n := RunLength(rows[1..]);
      RepairGroup(rows[0], rows[1..n + 1]) + Sanitize(rows[n + 1..])
    else if rows[0].IsTool() then Sanitize(rows[1..])
    else [rows[0]] + Sanitize(rows[1..])
  }

  lemma {:induction false} FirstMatchesDistinct(tools: seq<Row>, wanted: set<string>)
    ensures DistinctIds(FirstMatches(tools, wanted))
  {
    if tools != [] {
      var id := tools[0].toolCallId;
      if id in wanted {
        FirstMatchesDistinct(tools[1..], wanted - {id});
        var r := FirstMatches(tools[1..], wanted - {id});
        assert forall j :: 0 <= j < |r| ==> r[j] in r && r[j].toolCallId != id;
        assert FirstMatches(tools, wanted) == [tools[0]] + r;
      } else {
        FirstMatchesDistinct(tools[1..], wanted);
      }
    }
  }

  lemma {:induction false} FirstMatchesKeepsDistinct(tools: seq<Row>, wanted: set<string>)
    requires forall m :: m in tools ==> m.toolCallId in wanted
    requires DistinctIds(tools)
    ensures FirstMatches(tools, wanted) == tools
  {
    if tools != [] {
      assert tools[0] in tools;
      forall m | m in tools[1..] ensures m.toolCallId != tools[0].toolCallId {
        var j :| 0 <= j < |tools[1..]| && tools[1..][j] == m;
        assert tools[j + 1] == m;
      }
      FirstMatchesKeepsDistinct(tools[1..], wanted - {tools[0].toolCallId});
    }
  }

  lemma RepairedGroup(m: Row, tools: seq<Row>, rest: seq<Row>)
    requires m.HasCalls() && AllTools(tools) && WellFormed(rest)
    ensures WellFormed(RepairGroup(m, tools) + rest)
  {
    var matched := FirstMatches(tools, ExpectedIds(m));
    if ExpectedIds(m) != {} && ExpectedIds(m) <= ResultIds(matched) {
      FirstMatchesDistinct(tools, ExpectedIds(m));
      assert ResultIds(matched) == ExpectedIds(m);
      assert StartsNoTool(rest);
      GroupWellFormed(m, matched, rest);
    } else if HasText(m) {
      assert ([m.(toolCalls := [])] + rest)[1..] == rest;
    } else {
      assert [] + rest == rest;
    }
  }

  /** MAIN: the repair is total and its result is well formed, whatever the history was. */
  lemma {:induction false} SanitizeIsWellFormed(rows: seq<Row>)
    ensures WellFormed(Sanitize(rows))
    decreases |rows|
  {
    hide Answers;
    if rows == [] {
    } else if rows[0].HasCalls() {
      var n := RunLength(rows[1..]);
      SanitizeIsWellFormed(rows[n + 1..]);
      RepairedGroup(rows[0], rows[1..n + 1], Sanitize(rows[n + 1..]));
    } else if rows[0].IsTool() {
      SanitizeIsWellFormed(rows[1..]);
    } else {
      SanitizeIsWellFormed(rows[1..]);
      assert Sanitize(rows)[1..] == Sanitize(rows[1..]);
    }
  }

  lemma AnsweredGroupIsKept(m: Row, tools: seq<Row>)
    requires Answers(tools, m)
    ensures RepairGroup(m, tools) == [m] + tools
  {
    forall t | t in tools ensures t.toolCallId in ExpectedIds(m) { assert t.toolCallId in ResultIds(tools); }
    FirstMatchesKeepsDistinct(tools, ExpectedIds(m));
  }

  lemma SanitizeGroup(m: Row, tools: seq<Row>, rest: seq<Row>)
    requires m.HasCalls() && AllTools(tools) && StartsNoTool(rest)
    ensures Sanitize([m] + tools + rest) == RepairGroup(m, tools) + Sanitize(rest)
  {
    hide RepairGroup, RunLength;
    GroupShape(m, tools, rest);
  }

  lemma SanitizeRow(rows: seq<Row>)
    requires rows != [] && !rows[0].HasCalls()
    ensures Sanitize(rows) == (if rows[0].IsTool() then [] else [rows[0]]) + Sanitize(rows[1..])
  {
    hide RepairGroup, RunLength;
  }

  lemma {:induction false} WellFormedIsKept(rows: seq<Row>)
    requires WellFormed(rows)
    ensures Sanitize(rows) == rows
    decreases |rows|
  {
    hide Answers, RepairGroup, RunLength, Sanitize;
    if rows == [] {
      SanitizeEmpty();
    } else if rows[0].HasCalls() {
      var tools, rest := TakeGroup(rows);
      GroupWellFormed(rows[0], tools, rest);
      AnsweredGroupIsKept(rows[0], tools);
      WellFormedIsKept(rest);
      SanitizeGroup(rows[0], tools, rest);
    } else {
      SanitizeRow(rows);
      WellFormedIsKept(rows[1..]);
    }
  }

  lemma SanitizeEmpty()
    ensures Sanitize([]) == []
  {
  }

  /** MAIN: the histories the repair leaves alone are exactly the well-formed ones, so repairing
      twice is repairing once. */
  lemma SanitizeFixedIff(rows: seq<Row>)
    ensures Sanitize(rows) == rows <==> WellFormed(rows)
    ensures Sanitize(Sanitize(rows)) == Sanitize(rows)
  {
    SanitizeIsWellFormed(rows);
    WellFormedIsKept(Sanitize(rows));
    if WellFormed(rows) {
      WellFormedIsKept(rows);
    }
  }

  /** The repair is local: a break in one part of the history costs nothing in another. */
  lemma {:induction false} SanitizeSplit(a: seq<Row>, b: seq<Row>)
    requires StartsNoTool(b)
    ensures Sanitize(a + b) == Sanitize(a) + Sanitize(b)
    decreases |a|
  {
    hide RepairGroup, RunLength, Sanitize;
    if a == [] {
      SanitizeEmpty();
      assert a + b == b;
    } else if a[0].HasCalls() {
      var tools, rest := TakeGroup(a);
      SanitizeSplit(rest, b);
      SanitizeGroup(a[0], tools, rest);
      SanitizeGroup(a[0], tools, rest + b);
      assert a + b == [a[0]] + tools + (rest + b);
      Associates(RepairGroup(a[0], tools), Sanitize(rest), Sanitize(b));
    } else {
      SanitizeSplit(a[1..], b);
      SanitizeRow(a);
      SanitizeRow(a + b);
      assert (a + b)[1..] == a[1..] + b;
    }
  }

  // The rows a repair may never lose: all but tool rows and textless tool-call rows.  Only the call
  // list of such a row may go.
  function Spoken(rows: seq<Row>): seq<Row> {
    if rows == [] then [] else SpokenPart(rows[0]) + Spoken(rows[1..])
  }

  function SpokenPart(m: Row): seq<Row> {
    if m.IsTool() || (m.HasCalls() && !HasText(m)) then [] else [m.(toolCalls := [])]
  }

  lemma {:induction false} SpokenAppend(a: seq<Row>, b: seq<Row>)
    ensures Spoken(a + b) == Spoken(a) + Spoken(b)
  {
    hide SpokenPart;
    if a == [] {
      assert a + b == b;
    } else {
      SpokenAppend(a[1..], b);
      assert (a + b)[0] == a[0] && (a + b)[1..] == a[1..] + b;
      Associates(SpokenPart(a[0]), Spoken(a[1..]), Spoken(b));
    }
  }

  lemma {:induction false} ToolsAreNotSpoken(tools: seq<Row>)
    requires AllTools(tools)
    ensures Spoken(tools) == []
  {
    if tools != [] {
      assert tools[0] in tools;
      ToolsAreNotSpoken(tools[1..]);
    }
  }

  lemma RepairKeepsSpoken(m: Row, tools: seq<Row>)
    requires m.HasCalls() && AllTools(tools)
    ensures Spoken(RepairGroup(m, tools)) == Spoken([m] + tools)
  {
    var matched := FirstMatches(tools, ExpectedIds(m));
    ToolsAreNotSpoken(tools);
    ToolsAreNotSpoken(matched);
    SpokenAppend([m], tools);
    SpokenAppend([m], matched);
  }

  /** MAIN: every user, system and otherwise call-free row, and every assistant row with non-blank
      content, survives the repair, in order. */
  lemma {:induction false} SanitizeKeepsSpoken(rows: seq<Row>)
    ensures Spoken(Sanitize(rows)) == Spoken(rows)
    decreases |rows|
  {
    hide RepairGroup, HasText, RunLength;
    if rows == [] {
    } else if rows[0].HasCalls() {
      var tools, rest := TakeGroup(rows);
      SanitizeKeepsSpoken(rest);
      RepairKeepsSpoken(rows[0], tools);
      SpokenAppend(RepairGroup(rows[0], tools), Sanitize(rest));
      SpokenAppend([rows[0]] + tools, rest);
    } else {
      SanitizeKeepsSpoken(rows[1..]);
      if !rows[0].IsTool() {
        assert Sanitize(rows)[1..] == Sanitize(rows[1..]);
      }
    }
  }
}

/** The in-place edits of a conversation history: interruption trims, rollbacks, upserts. */
module HistoryEdits {
  import opened Wrappers
  import opened Messages
  import opened Sequences
  import opened TextOps
  import opened History

  // ---------- Interruption trims ----------

  predicate Unheard(m: Row) {
    m.role == Assistant || m.role == Tool
  }

  function UnheardLength(rows: seq<Row>): (n: nat)
    ensures n <= |rows|
    ensures forall i :: 0 <= i < n ==> Unheard(rows[i])
    ensures n < |rows| ==> !Unheard(rows[n])
  {
    if rows != [] && Unheard(rows[0]) then 1 + UnheardLength(rows[1..]) else 0
  }

  // `not updated or not updated.strip()`
  predicate NothingLeft(updated: Option<string>) {
    updated.None? || IsBlank(updated.value)
  }

  // How the caller rewrites a reply, given what was heard of it.
  type UpdateFn = (string, Option<string>) -> Option<string>

  function TrimAt(rows: seq<Row>, i: nat, heard: Option<string>, update: UpdateFn): seq<Row>
    requires i < |rows|
  {
    if rows[i].content.None? then rows
    else
      var updated := update(rows[i].content.value, heard);
      if !NothingLeft(updated) then rows[i := rows[i].(content := updated)]
      else
        var rest := rows[i + 1..];
        rows[..i] + rest[if rows[i].HasCalls() then RunLength(rest) else UnheardLength(rest)..]
  }

  // Which assistant row an interruption trims.
  datatype Target = LastReply | OfTurn(turn: Option<int>) | OfResponse(uid: Option<string>) {
    predicate Names(m: Row) {
      m.role == Assistant &&
      match this
      case LastReply => true
      case OfTurn(turn) => turn.Some? && m.turnId == turn
      case OfResponse(uid) => uid.Some? && m.responseUid == uid
    }
  }

  // The index of the last row the target names, or -1.
  function LastNamed(rows: seq<Row>, t: Target): (i: int)
    ensures -1 <= i < |rows|
    ensures i >= 0 ==> t.Names(rows[i])
    ensures forall j :: i < j < |rows| ==> !t.Names(rows[j])
  {
    if rows == [] then -1
    else if t.Names(rows[|rows| - 1]) then |rows| - 1
    else LastNamed(rows[..|rows| - 1], t)
  }

  function Trim(rows: seq<Row>, t: Target, heard: Option<string>, update: UpdateFn): seq<Row> {
    var i := LastNamed(rows, t);
    if i < 0 then rows else TrimAt(rows, i, heard, update)
  }

  lemma {:induction false} DropReplies(rows: seq<Row>)
    requires WellFormed(rows)
    ensures WellFormed(rows[UnheardLength(rows)..])
  {
    var n := UnheardLength(rows);
    TakeDrop(rows, n);
    WellFormedSplit(rows[..n], rows[n..]);
  }

  /** Trimming one assistant row, to whatever text the caller computes, keeps the grammar: a reply
      nobody heard goes together with its tool rows, or with the replies behind it. */
  lemma TrimAtKeepsGrammar(rows: seq<Row>, i: nat, heard: Option<string>, update: UpdateFn)
    requires i < |rows| && rows[i].role == Assistant
    requires WellFormed(rows)
    ensures WellFormed(TrimAt(rows, i, heard, update))
  {
    hide WellFormed, Answers, RunLength, UnheardLength, ExpectedIds;
    var m, rest := rows[i], rows[i + 1..];
    var tail := rows[i..];
    assert tail == [m] + rest;
    TakeDrop(rows, i);
    WellFormedSplit(rows[..i], tail);
    if m.content.Some? {
      var updated := update(m.content.value, heard);
      if NothingLeft(updated) {
        RestWithoutGroup(m, rest);
        var n := if m.HasCalls() then RunLength(rest) else UnheardLength(rest);
        WellFormedSplit(rows[..i], rest[n..]);
      } else {
        var m' := m.(content := updated);
        SameCallsSameGrammar(m, m', rest);
        WellFormedSplit(rows[..i], [m'] + rest);
        assert rows[i := m'] == rows[..i] + ([m'] + rest);
      }
    }
  }

  lemma RestWithoutGroup(m: Row, rest: seq<Row>)
    requires m.role == Assistant && WellFormed([m] + rest)
    ensures WellFormed(rest[if m.HasCalls() then RunLength(rest) else UnheardLength(rest)..])
  {
    hide Answers;
    assert ([m] + rest)[1..] == rest;
    if m.HasCalls() {
      assert ([m] + rest)[RunLength(rest) + 1..] == rest[RunLength(rest)..];
    } else {
      DropReplies(rest);
    }
  }

  lemma SameCallsSameGrammar(m: Row, m': Row, rest: seq<Row>)
    requires m.role == m'.role && m.toolCalls == m'.toolCalls
    requires WellFormed([m] + rest)
    ensures WellFormed([m'] + rest)
  {
    hide Answers, RunLength, ExpectedIds;
    if m.HasCalls() {
      hide WellFormed;
      var tools, more := TakeGroup([m] + rest);
      assert rest == ([m] + rest)[1..] == tools + more;
      Associates([m], tools, more);
      Associates([m'], tools, more);
      GroupWellFormed(m, tools, more);
      GroupWellFormed(m', tools, more);
      AnsweredAlike(m, m', tools);
    } else {
      assert ([m] + rest)[1..] == rest == ([m'] + rest)[1..];
    }
  }

  lemma AnsweredAlike(m: Row, m': Row, tools: seq<Row>)
    requires m.toolCalls == m'.toolCalls
    ensures Answers(tools, m) <==> Answers(tools, m')
  {
    assert ExpectedIds(m) == ExpectedIds(m');
  }

  /** MAIN: every interruption trim keeps every well-formed history well formed, whatever row it
      targets and whatever the update function answers. */
  lemma TrimKeepsGrammar(rows: seq<Row>, t: Target, heard: Option<string>, update: UpdateFn)
    requires WellFormed(rows)
    ensures WellFormed(Trim(rows, t, heard, update))
  {
    var i := LastNamed(rows, t);
    if i >= 0 {
      TrimAtKeepsGrammar(rows, i, heard, update);
    }
  }

  /** The row a trim is after: the last reply, the last of a turn, or the last of a response; none when no
      turn or response is given. */
  predicate IsTarget(rows: seq<Row>, t: Target, i: int) {
    0 <= i < |rows| && MeantRow(t, rows[i]) && forall j :: i < j < |rows| ==> !MeantRow(t, rows[j])
  }

  predicate MeantRow(t: Target, m: Row) {
    m.role == Assistant
    && (t.OfTurn? ==> t.turn.Some? && m.turnId == t.turn)
    && (t.OfResponse? ==> t.uid.Some? && m.responseUid == t.uid)
  }

  // r is rows without row i and without the rows right behind it that have to go with it, up to k.
  ghost predicate RemovedTo(rows: seq<Row>, i: nat, r: seq<Row>, k: nat)
    requires i < |rows|
  {
    && i < k <= |rows| && r == rows[..i] + rows[k..]
    && (forall j :: i < j < k ==> GoesToo(rows[i], rows[j]))
    && (k < |rows| ==> !GoesToo(rows[i], rows[k]))
  }

  // With a reply that made calls go its tool rows, with another one every reply and tool row behind it.
  predicate GoesToo(m: Row, behind: Row) {
    behind.role == Tool || (m.toolCalls == [] && behind.role == Assistant)
  }

  // What becomes of the rows when row i is trimmed: the answer is written into it if it has text, and the row
  // removed with what goes with it if not.
  ghost predicate TrimmedAt(rows: seq<Row>, i: nat, heard: Option<string>, update: UpdateFn, r: seq<Row>)
    requires i < |rows|
  {
    var m := rows[i];
    if m.content.None? then r == rows
    else
      var answer := update(m.content.value, heard);
      if answer.Some? && exists c :: c in answer.value && !IsSpace(c) then
        && |r| == |rows| && r[i] == m.(content := answer)
        && forall j :: 0 <= j < |rows| && j != i ==> r[j] == rows[j]
      else
        exists k :: RemovedTo(rows, i, r, k)
  }

  /** MAIN: a trim writes the answer of the update function into the row it is after, and nothing else, if the
      answer has text; if it has none, it removes that row and the rows that go with it; and it changes
      nothing when there is no such row or the row has no content. */
  lemma TrimIsExact(rows: seq<Row>, t: Target, heard: Option<string>, update: UpdateFn, i: int)
    ensures (forall j :: 0 <= j < |rows| ==> !MeantRow(t, rows[j])) ==> Trim(rows, t, heard, update) == rows
    ensures IsTarget(rows, t, i) ==> TrimmedAt(rows, i, heard, update, Trim(rows, t, heard, update))
  {
    forall m ensures t.Names(m) <==> MeantRow(t, m) {}
    hide MeantRow, Target.Names, TrimAt, TrimmedAt;
    if IsTarget(rows, t, i) {
      LastNamedIs(rows, t, i);
      assert rows[i].role == Assistant by { TargetsReply(t, rows[i]); }
      TrimAtIsExact(rows, i, heard, update);
    }
  }

  lemma TargetsReply(t: Target, m: Row)
    requires MeantRow(t, m)
    ensures m.role == Assistant
  {
  }

  lemma TrimAtIsExact(rows: seq<Row>, i: nat, heard: Option<string>, update: UpdateFn)
    requires i < |rows| && rows[i].role == Assistant
    ensures TrimmedAt(rows, i, heard, update, TrimAt(rows, i, heard, update))
  {
    hide RunLength, UnheardLength, RemovedTo;
    var m, rest := rows[i], rows[i + 1..];
    if m.content.Some? && NothingLeft(update(m.content.value, heard)) {
      var n := if m.HasCalls() then RunLength(rest) else UnheardLength(rest);
      RemovedRun(rows, i, n);
      assert RemovedTo(rows, i, TrimAt(rows, i, heard, update), i + 1 + n);
    }
  }

  lemma RemovedRun(rows: seq<Row>, i: nat, n: nat)
    requires i < |rows| && rows[i].role == Assistant
    requires var rest := rows[i + 1..]; n == if rows[i].HasCalls() then RunLength(rest) else UnheardLength(rest)
    ensures i + 1 + n <= |rows| && RemovedTo(rows, i, rows[..i] + rows[i + 1..][n..], i + 1 + n)
  {
    hide RunLength, UnheardLength;
    var rest := rows[i + 1..];
    assert rest[n..] == rows[i + 1 + n..];
    assert forall j :: i < j < i + 1 + n ==> rows[j] == rest[j - i - 1];
    assert n < |rest| ==> rows[i + 1 + n] == rest[n];
  }

  // ---------- Rolling back unheard responses ----------

  // The rows that stay once the trailing assistant and tool rows are popped.
  function Heard(rows: seq<Row>): (r: seq<Row>)
    ensures r <= rows
    ensures r == [] || !Unheard(r[|r| - 1])
    ensures forall j :: |r| <= j < |rows| ==> Unheard(rows[j])
  {
    if rows != [] && Unheard(rows[|rows| - 1]) then Heard(rows[..|rows| - 1]) else rows
  }

  /** MAIN: popping everything unheard keeps the grammar. */
  lemma PopUnheardKeepsGrammar(rows: seq<Row>)
    requires WellFormed(rows)
    ensures WellFormed(Heard(rows))
  {
    hide WellFormed, AllAnswered;
    var n := |Heard(rows)|;
    assert Heard(rows) == rows[..n];
    WellFormedByPosition(rows);
    assert StartsNoTool(rows[n..]);
    TakeDrop(rows, n);
    WellFormedSplit(rows[..n], rows[n..]);
  }

  // ---------- Adding rows ----------

  function NewReply(content: Option<string>, calls: seq<ToolCall>, turn: Option<int>, uid: Option<string>): Row {
    Row(Assistant, content, calls, "", turn, uid, false)
  }

  function ToolResult(id: string, content: string): Row {
    Row(Tool, Some(content), [], id, None, None, false)
  }

  // append_assistant: a repeat of the last reply adds no row, it only takes over the calls given.
  function AppendReply(
    rows: seq<Row>, content: Option<string>, calls: Option<seq<ToolCall>>, turn: Option<int>, uid: Option<string>)
    : seq<Row>
  {
    var n := |rows| - 1;
    if n >= 0 && rows[n].role == Assistant && rows[n].content == content && rows[n].turnId == turn
       && rows[n].responseUid == uid
    then rows[n := rows[n].(toolCalls := calls.GetOr(rows[n].toolCalls))]
    else rows + [NewReply(content, calls.GetOr([]), turn, uid)]
  }

  // attach_tool_calls_to_last_response
  function AttachToLast(rows: seq<Row>, calls: seq<ToolCall>): seq<Row> {
    var n := |rows| - 1;
    if n >= 0 && rows[n].role == Assistant then rows[n := rows[n].(toolCalls := calls)]
    else AppendReply(rows, None, Some(calls), None, None)
  }

  // attach_tool_calls_to_turn, for a given turn
  function AttachToTurn(rows: seq<Row>, turn: int, calls: seq<ToolCall>): seq<Row> {
    var i := LastNamed(rows, OfTurn(Some(turn)));
    if i >= 0 then rows[i := rows[i].(toolCalls := calls)] else AppendReply(rows, None, Some(calls), Some(turn), None)
  }

  // The last placeholder of a turn: an assistant row without response uid.
  function Placeholder(rows: seq<Row>, turn: int): (i: int)
    ensures -1 <= i < |rows|
    ensures i >= 0 ==> rows[i].role == Assistant && rows[i].turnId == Some(turn) && rows[i].responseUid.None?
    ensures forall j :: i < j < |rows| ==>
      !(rows[j].role == Assistant && rows[j].turnId == Some(turn) && rows[j].responseUid.None?)
  {
    if rows == [] then -1
    else
      var m := rows[|rows| - 1];
      if m.role == Assistant && m.turnId == Some(turn) && m.responseUid.None? then |rows| - 1
      else Placeholder(rows[..|rows| - 1], turn)
  }

  function UpsertResponse(rows: seq<Row>, uid: Option<string>, content: string, turn: Option<int>): seq<Row> {
    var i := LastNamed(rows, OfResponse(uid));
    if i >= 0 then
      var named := rows[i].(content := Some(content));
      rows[i := if turn.Some? && named.turnId.None? then named.(turnId := turn) else named]
    else
      var k := if turn.Some? then Placeholder(rows, turn.value) else -1;
      if k >= 0 then rows[k := rows[k].(content := Some(content), responseUid := uid)]
      else rows + [NewReply(Some(content), [], turn, uid)]
  }

  // upsert_assistant_for_turn
  function UpsertTurn(rows: seq<Row>, turn: Option<int>, content: string): seq<Row> {
    var i := LastNamed(rows, OfTurn(turn));
    if i >= 0 then rows[i := rows[i].(content := Some(content))]
    else rows + [NewReply(Some(content), [], turn, None)]
  }

  // Rewriting a row without touching its calls keeps the grammar.
  lemma RewriteKeepsGrammar(rows: seq<Row>, i: nat, m: Row)
    requires i < |rows| && WellFormed(rows)
    requires !rows[i].IsTool() && m.role == rows[i].role && m.toolCalls == rows[i].toolCalls
    ensures WellFormed(rows[i := m])
  {
    hide WellFormed;
    TakeDrop(rows, i);
    assert rows[i..] == [rows[i]] + rows[i + 1..];
    WellFormedSplit(rows[..i], rows[i..]);
    SameCallsSameGrammar(rows[i], m, rows[i + 1..]);
    WellFormedSplit(rows[..i], [m] + rows[i + 1..]);
    assert rows[i := m] == rows[..i] + ([m] + rows[i + 1..]);
  }

  // Writing into row i neither mends nor breaks anything, and a row without calls can be added to both.
  lemma RewriteKeepsForm(rows: seq<Row>, i: nat, m: Row)
    requires i < |rows| && !rows[i].IsTool() && m.role == rows[i].role && m.toolCalls == rows[i].toolCalls
    ensures WellFormed(rows[i := m]) <==> WellFormed(rows)
  {
    hide WellFormed;
    if WellFormed(rows) {
      RewriteKeepsGrammar(rows, i, m);
    }
    if WellFormed(rows[i := m]) {
      RewriteKeepsGrammar(rows[i := m], i, rows[i]);
      assert rows[i := m][i := rows[i]] == rows;
    }
  }

  lemma AppendKeepsForm(rows: seq<Row>, m: Row)
    requires !m.IsTool() && !m.HasCalls()
    ensures WellFormed(rows + [m]) <==> WellFormed(rows)
  {
    assert [m][1..] == [];
    WellFormedSplit(rows, [m]);
  }

  // Where an upsert writes, or -1 when it appends.
  function UpsertIndex(rows: seq<Row>, uid: Option<string>, turn: Option<int>): (i: int)
    ensures -1 <= i < |rows|
    ensures i >= 0 ==> rows[i].role == Assistant
  {
    if LastNamed(rows, OfResponse(uid)) >= 0 then LastNamed(rows, OfResponse(uid))
    else if turn.Some? then Placeholder(rows, turn.value) else -1
  }

  // What it writes there.
  function Committed(m: Row, uid: Option<string>, content: string, turn: Option<int>): Row {
    if OfResponse(uid).Names(m) then m.(content := Some(content), turnId := if m.turnId.None? then turn else m.turnId)
    else m.(content := Some(content), responseUid := uid)
  }

  lemma UpsertShape(rows: seq<Row>, uid: Option<string>, content: string, turn: Option<int>)
    ensures UpsertResponse(rows, uid, content, turn) ==
      var i := UpsertIndex(rows, uid, turn);
      if i >= 0 then rows[i := Committed(rows[i], uid, content, turn)]
      else rows + [NewReply(Some(content), [], turn, uid)]
  {
  }

  /** MAIN: committing a reply, new or not, keeps every well-formed history well formed, and mends none. */
  lemma UpsertsKeepGrammar(rows: seq<Row>, uid: Option<string>, content: string, turn: Option<int>)
    ensures WellFormed(UpsertResponse(rows, uid, content, turn)) <==> WellFormed(rows)
    ensures WellFormed(UpsertTurn(rows, turn, content)) <==> WellFormed(rows)
  {
    hide WellFormed;
    var i, t := UpsertIndex(rows, uid, turn), LastNamed(rows, OfTurn(turn));
    UpsertShape(rows, uid, content, turn);
    if i >= 0 {
      RewriteKeepsForm(rows, i, Committed(rows[i], uid, content, turn));
    } else {
      AppendKeepsForm(rows, NewReply(Some(content), [], turn, uid));
    }
    if t >= 0 {
      RewriteKeepsForm(rows, t, rows[t].(content := Some(content)));
    } else {
      AppendKeepsForm(rows, NewReply(Some(content), [], turn, None));
    }
  }

  lemma {:induction false} LastNamedIs(rows: seq<Row>, t: Target, i: nat)
    requires i < |rows| && t.Names(rows[i])
    requires forall j :: i < j < |rows| ==> !t.Names(rows[j])
    ensures LastNamed(rows, t) == i
  {
    assert LastNamed(rows, t) >= i;
  }

  /** What committing by turn writes: the text into the last reply of the turn, or a new last row with it. */
  lemma UpsertTurnWrites(rows: seq<Row>, turn: Option<int>, content: string, i: int)
    ensures var r := UpsertTurn(rows, turn, content);
      && (IsTarget(rows, OfTurn(turn), i) ==> r == rows[i := rows[i].(content := Some(content))])
      && ((forall j :: 0 <= j < |rows| ==> !MeantRow(OfTurn(turn), rows[j])) ==>
            r == rows + [Row(Assistant, Some(content), [], "", turn, None, false)])
  {
    forall m ensures OfTurn(turn).Names(m) <==> MeantRow(OfTurn(turn), m) {}
    hide MeantRow, Target.Names;
    if IsTarget(rows, OfTurn(turn), i) {
      LastNamedIs(rows, OfTurn(turn), i);
    }
  }

  // The last reply of a turn that no response has taken yet.
  predicate IsOpenReply(rows: seq<Row>, turn: Option<int>, i: int) {
    0 <= i < |rows| && OpenReply(rows[i], turn) && forall j :: i < j < |rows| ==> !OpenReply(rows[j], turn)
  }

  predicate OpenReply(m: Row, turn: Option<int>) {
    turn.Some? && m.role == Assistant && m.turnId == turn && m.responseUid.None?
  }

  /** What committing by response writes: into the last row of that response the text, and the turn if it had
      none; else into the last open reply of the turn the text and the response; else a new last row. */
  lemma UpsertResponseWrites(rows: seq<Row>, uid: Option<string>, content: string, turn: Option<int>, i: int)
    ensures var r := UpsertResponse(rows, uid, content, turn);
      var named := exists j :: 0 <= j < |rows| && MeantRow(OfResponse(uid), rows[j]);
      var open := exists j :: 0 <= j < |rows| && OpenReply(rows[j], turn);
      && (IsTarget(rows, OfResponse(uid), i) ==> r == rows[i := rows[i].(
            content := Some(content), turnId := if rows[i].turnId.Some? then rows[i].turnId else turn)])
      && (!named && IsOpenReply(rows, turn, i) ==>
            r == rows[i := rows[i].(content := Some(content), responseUid := uid)])
      && (!named && !open ==> r == rows + [Row(Assistant, Some(content), [], "", turn, uid, false)])
  {
    forall m ensures OfResponse(uid).Names(m) <==> MeantRow(OfResponse(uid), m) {}
    hide MeantRow, Target.Names;
    if IsTarget(rows, OfResponse(uid), i) {
      LastNamedIs(rows, OfResponse(uid), i);
    }
  }

  /** What appending a reply writes: a new last row, unless the last row is the same reply, which then takes
      the calls if any are given. */
  lemma AppendReplyWrites(
    rows: seq<Row>, content: Option<string>, calls: Option<seq<ToolCall>>, turn: Option<int>, uid: Option<string>)
    ensures var r := AppendReply(rows, content, calls, turn, uid);
      var n := |rows| - 1;
      if n >= 0 && rows[n].role == Assistant && rows[n].content == content && rows[n].turnId == turn
         && rows[n].responseUid == uid then
        r == if calls.Some? then rows[n := rows[n].(toolCalls := calls.value)] else rows
      else
        r == rows + [Row(Assistant, content, if calls.Some? then calls.value else [], "", turn, uid, false)]
  {
    if rows != [] && calls.None? {
      assert rows[|rows| - 1 := rows[|rows| - 1]] == rows;
    }
  }

  // The same text rewritten at the row a target names is the last text there.
  lemma RewriteTwice(rows: seq<Row>, i: nat, m: Row, m': Row)
    requires i < |rows|
    ensures rows[i := m][i := m'] == rows[i := m']
  {
  }

  /** MAIN: while a reply streams, its row is rewritten and no second one appears: committing twice
      under one response uid is committing the last text. */
  lemma UpsertResponseIsLastWrite(rows: seq<Row>, uid: string, first: string, last: string, turn: Option<int>)
    ensures UpsertResponse(UpsertResponse(rows, Some(uid), first, turn), Some(uid), last, turn)
      == UpsertResponse(rows, Some(uid), last, turn)
  {
    hide LastNamed, Placeholder;
    var once := UpsertResponse(rows, Some(uid), first, turn);
    var i := LastNamed(rows, OfResponse(Some(uid)));
    var k := if turn.Some? then Placeholder(rows, turn.value) else -1;
    var p := if i >= 0 then i else if k >= 0 then k else |rows|;
    LastNamedIs(once, OfResponse(Some(uid)), p);
    var m, m' := once[p], once[p].(content := Some(last));
    if p < |rows| {
      RewriteTwice(rows, p, m, m');
    } else {
      assert (rows + [m])[p := m'] == rows + [m'];
    }
  }

  /** The same for replies committed by turn. */
  lemma UpsertTurnIsLastWrite(rows: seq<Row>, turn: int, first: string, last: string)
    ensures UpsertTurn(UpsertTurn(rows, Some(turn), first), Some(turn), last) == UpsertTurn(rows, Some(turn), last)
  {
    hide LastNamed;
    var once := UpsertTurn(rows, Some(turn), first);
    var i := LastNamed(rows, OfTurn(Some(turn)));
    var p := if i >= 0 then i else |rows|;
    LastNamedIs(once, OfTurn(Some(turn)), p);
    var m, m' := once[p], once[p].(content := Some(last));
    if p < |rows| {
      RewriteTwice(rows, p, m, m');
    } else {
      assert (rows + [m])[p := m'] == rows + [m'];
    }
  }
}

/** The conversation history object: its rows, its interim copy and the edits on them. */
module Conversation {
  import opened Wrappers
  import opened Messages
  import opened Sequences
  import opened TextOps
  import opened History
  import opened HistoryEdits
  import opened HistoryPairs

  // ---------- The loops, on a list of rows ----------

  // The tool rows that answer the expected ids, first come first served, and the ids they cover.
  method MatchTools(tools: seq<Row>, expected: set<string>) returns (matched: seq<Row>, ids: set<string>)
    ensures matched == FirstMatches(tools, expected)
    ensures ids == ResultIds(matched)
  {
    matched, ids := [], {};
    assert tools[0..] == tools && expected - {} == expected;
    for k := 0 to |tools|
      invariant matched + FirstMatches(tools[k..], expected - ids) == FirstMatches(tools, expected)
      invariant ids == ResultIds(matched)
    {
      var m := tools[k];
      assert tools[k..][0] == m && tools[k..][1..] == tools[k + 1..];
      if m.toolCallId in expected && m.toolCallId !in ids {
        assert expected - ids - {m.toolCallId} == expected - (ids + {m.toolCallId});
        Associates(matched, [m], FirstMatches(tools[k + 1..], expected - ids - {m.toolCallId}));
        matched := matched + [m];
        ids := ids + {m.toolCallId};
      }
    }
    assert matched + [] == matched;
  }

  method SanitizeToolMessages(rows: seq<Row>) returns (sanitized: seq<Row>)
    ensures sanitized == Sanitize(rows)
  {
    hide Sanitize, RepairGroup;
    sanitized := [];
    var i := 0;
    SanitizeEmpty();
    assert rows[0..] == rows;
    while i < |rows|
      invariant i <= |rows|
      invariant sanitized + Sanitize(rows[i..]) == Sanitize(rows)
    {
      var m := rows[i];
      if m.HasCalls() {
        var j := i + 1;
        while j < |rows| && rows[j].IsTool()
          invariant i + 1 <= j <= |rows|
          invariant forall k :: i + 1 <= k < j ==> rows[k].IsTool()
        {
          j := j + 1;
        }
        var repaired := SanitizeOne(m, rows[i + 1..j]);
        GroupAt(rows, i, j);
        Associates(sanitized, repaired, Sanitize(rows[j..]));
        sanitized := sanitized + repaired;
        i := j;
      } else {
        SanitizeRow(rows[i..]);
        assert rows[i..][1..] == rows[i + 1..];
        if !m.IsTool() {
          Associates(sanitized, [m], Sanitize(rows[i + 1..]));
          sanitized := sanitized + [m];
        }
        i := i + 1;
      }
    }
    assert rows[i..] == [] && sanitized + [] == sanitized;
  }

  lemma GroupAt(rows: seq<Row>, i: nat, j: nat)
    requires i < j <= |rows| && rows[i].HasCalls()
    requires forall k :: i + 1 <= k < j ==> rows[k].IsTool()
    requires j < |rows| ==> !rows[j].IsTool()
    ensures Sanitize(rows[i..]) == RepairGroup(rows[i], rows[i + 1..j]) + Sanitize(rows[j..])
  {
    hide Sanitize, RepairGroup;
    assert AllTools(rows[i + 1..j]);
    assert rows[i..] == [rows[i]] + rows[i + 1..j] + rows[j..];
    SanitizeGroup(rows[i], rows[i + 1..j], rows[j..]);
  }

  // One assistant row with calls and the tool rows behind it.
  method SanitizeOne(m: Row, following: seq<Row>) returns (kept: seq<Row>)
    ensures kept == RepairGroup(m, following)
  {
    var expected := set tc | tc in m.toolCalls && tc.id != "" :: tc.id;
    var matched, ids := MatchTools(following, expected);
    if expected != {} && expected <= ids {
      kept := [m] + matched;
    } else {
      var stripped := m.(toolCalls := []);
      StripEmptyIff(m.content.GetOr(""));
      kept := if m.content.Some? && Strip(m.content.value) != "" then [stripped] else [];
    }
  }

  // The removal loop of a trim: rows are popped at one index while they belong to what was removed.
  method RemoveAt(rows: seq<Row>, index: nat, hasCalls: bool) returns (r: seq<Row>)
    requires index < |rows|
    ensures var rest := rows[index + 1..];
      r == rows[..index] + rest[if hasCalls then RunLength(rest) else UnheardLength(rest)..]
  {
    hide RunLength, UnheardLength;
    ghost var rest := rows[index + 1..];
    r := rows[..index] + rows[index + 1..];
    ghost var n := 0;
    while index < |r| && (if hasCalls then r[index].IsTool() else Unheard(r[index]))
      invariant n <= |rest| && r == rows[..index] + rest[n..]
      invariant hasCalls ==> n <= RunLength(rest)
      invariant !hasCalls ==> n <= UnheardLength(rest)
    {
      assert r[index] == rest[n];
      r := r[..index] + r[index + 1..];
      n := n + 1;
    }
    assert index < |r| ==> r[index] == rest[n];
  }

  method TrimAtIndex(rows: seq<Row>, index: nat, heard: Option<string>, update: UpdateFn) returns (r: seq<Row>)
    requires index < |rows|
    ensures r == TrimAt(rows, index, heard, update)
  {
    var original := rows[index].content;
    if original.None? {
      return rows;
    }
    var updated := update(original.value, heard);
    StripEmptyIff(updated.GetOr(""));
    if updated.None? || Strip(updated.value) == "" {
      r := RemoveAt(rows, index, rows[index].HasCalls());
    } else {
      r := rows[index := rows[index].(content := updated)];
    }
  }

  // The backward search every trim and upsert starts with.
  method FindLast(rows: seq<Row>, t: Target) returns (index: int)
    ensures index == LastNamed(rows, t)
  {
    index := |rows| - 1;
    while index >= 0 && !t.Names(rows[index])
      invariant -1 <= index < |rows|
      invariant forall j :: index < j < |rows| ==> !t.Names(rows[j])
    {
      index := index - 1;
    }
  }

  method TrimTarget(rows: seq<Row>, t: Target, heard: Option<string>, update: UpdateFn) returns (r: seq<Row>)
    ensures r == Trim(rows, t, heard, update)
    ensures WellFormed(rows) ==> WellFormed(r)
  {
    if WellFormed(rows) {
      TrimKeepsGrammar(rows, t, heard, update);
    }
    var index := FindLast(rows, t);
    if index < 0 {
      return rows;
    }
    r := TrimAtIndex(rows, index, heard, update);
  }

  // ---------- The object ----------

  class ConversationHistory {
    var messages: seq<Row>
    var interim: seq<Row>

    constructor (initial: seq<Row>)
      ensures messages == initial && interim == initial
    {
      messages := initial;
      interim := initial;
    }

    method AppendUser(content: string)
      modifies this`messages
      ensures messages == old(messages) + [Row(User, Some(content), [], "", None, None, false)]
      ensures WellFormed(old(messages)) ==> WellFormed(messages)
    {
      var row := Row(User, Some(content), [], "", None, None, false);
      if WellFormed(messages) {
        assert [row][1..] == [];
        WellFormedSplit(messages, [row]);
      }
      messages := messages + [row];
    }

    method AppendToolResult(id: string, content: string)
      modifies this`messages
      ensures messages == old(messages) + [Row(Tool, Some(content), [], id, None, None, false)]
    {
      messages := messages + [ToolResult(id, content)];
    }

    method AppendAssistant(
      content: Option<string>, calls: Option<seq<ToolCall>>, turn: Option<int>, uid: Option<string>)
      modifies this`messages
      ensures messages == AppendReply(old(messages), content, calls, turn, uid)
    {
      var n := |messages| - 1;
      if n >= 0 {
        var last := messages[n];
        if last.role == Assistant && last.content == content && last.turnId == turn && last.responseUid == uid {
          if calls.Some? {
            messages := messages[n := last.(toolCalls := calls.value)];
          } else {
            assert messages[n := last] == messages;
          }
          return;
        }
      }
      messages := messages + [NewReply(content, calls.GetOr([]), turn, uid)];
    }

    method AttachToolCallsToTurn(turn: Option<int>, calls: seq<ToolCall>)
      modifies this`messages
      ensures messages ==
        if turn.Some? then AttachToTurn(old(messages), turn.value, calls) else AttachToLast(old(messages), calls)
    {
      if turn.None? {
        var n := |messages| - 1;
        if n >= 0 && messages[n].role == Assistant {
          messages := messages[n := messages[n].(toolCalls := calls)];
        } else {
          AppendAssistant(None, Some(calls), None, None);
        }
        return;
      }
      var index := FindLast(messages, OfTurn(turn));
      if index >= 0 {
        messages := messages[index := messages[index].(toolCalls := calls)];
        return;
      }
      AppendAssistant(None, Some(calls), turn, None);
    }

    // Commits a turn's reply to the history or, when `toInterim`, to the interim copy.
    method UpsertAssistantForTurn(turn: Option<int>, content: string, toInterim: bool)
      modifies this
      ensures messages == if toInterim then old(messages) else UpsertTurn(old(messages), turn, content)
      ensures interim == if toInterim then UpsertTurn(old(interim), turn, content) else old(interim)
      ensures WellFormed(old(messages)) ==> WellFormed(messages)
    {
      hide WellFormed;
      var rows := if toInterim then interim else messages;
      if WellFormed(rows) {
        UpsertsKeepGrammar(rows, None, content, turn);
      }
      var index := FindLast(rows, OfTurn(turn));
      if index >= 0 {
        rows := rows[index := rows[index].(content := Some(content))];
      } else {
        rows := rows + [NewReply(Some(content), [], turn, None)];
      }
      if toInterim {
        interim := rows;
      } else {
        messages := rows;
      }
    }

    // Upserts a reply into the history or, when `toInterim`, into the interim copy.
    method UpsertAssistantForResponse(uid: Option<string>, content: string, toInterim: bool, turn: Option<int>)
      modifies this
      ensures messages == if toInterim then old(messages) else UpsertResponse(old(messages), uid, content, turn)
      ensures interim == if toInterim then UpsertResponse(old(interim), uid, content, turn) else old(interim)
      ensures WellFormed(old(messages)) ==> WellFormed(messages)
    {
      hide WellFormed;
      var rows := if toInterim then interim else messages;
      if WellFormed(rows) {
        UpsertsKeepGrammar(rows, uid, content, turn);
      }
      var index := FindLast(rows, OfResponse(uid));
      if index >= 0 {
        var named := rows[index].(content := Some(content));
        if turn.Some? && named.turnId.None? {
          named := named.(turnId := turn);
        }
        rows := rows[index := named];
      } else {
        index := -1;
        if turn.Some? {
          index := |rows| - 1;
          while index >= 0
            && !(rows[index].role == Assistant && rows[index].turnId == turn && rows[index].responseUid.None?)
            invariant -1 <= index < |rows|
            invariant forall j :: index < j < |rows| ==>
              !(rows[j].role == Assistant && rows[j].turnId == turn && rows[j].responseUid.None?)
          {
            index := index - 1;
          }
        }
        if index >= 0 {
          rows := rows[index := rows[index].(content := Some(content), responseUid := uid)];
        } else {
          rows := rows + [NewReply(Some(content), [], turn, uid)];
        }
      }
      if toInterim {
        interim := rows;
      } else {
        messages := rows;
      }
    }

    method PopUnheardResponses() returns (popped: seq<Row>)
      modifies this`messages
      ensures messages == Heard(old(messages))
      ensures |popped| == |old(messages)| - |messages|
      ensures forall k :: 0 <= k < |popped| ==> popped[k] == old(messages)[|old(messages)| - 1 - k]
      ensures WellFormed(old(messages)) ==> WellFormed(messages)
    {
      hide WellFormed;
      popped := [];
      ghost var start := messages;
      while messages != [] && Unheard(messages[|messages| - 1])
        invariant messages <= start && Heard(messages) == Heard(start)
        invariant |popped| == |start| - |messages|
        invariant forall k :: 0 <= k < |popped| ==> popped[k] == start[|start| - 1 - k]
        decreases |messages|
      {
        popped := popped + [messages[|messages| - 1]];
        messages := messages[..|messages| - 1];
      }
      if WellFormed(start) {
        PopUnheardKeepsGrammar(start);
      }
    }

    method SyncAfterInterruption(t: Target, heard: Option<string>, update: UpdateFn)
      modifies this`messages
      ensures messages == Trim(old(messages), t, heard, update)
      ensures WellFormed(old(messages)) ==> WellFormed(messages)
    {
      messages := TrimTarget(messages, t, heard, update);
    }

    method SyncInterimAfterInterruption(t: Target, heard: Option<string>, update: UpdateFn)
      modifies this`interim
      ensures interim == Trim(old(interim), t, heard, update)
      ensures WellFormed(old(interim)) ==> WellFormed(interim)
    {
      interim := TrimTarget(interim, t, heard, update);
    }

    /** The copy handed to the model: the history is repaired in place first, then hidden rows are
        left out.  Whatever edits came before, what it converts to pairs up. */
    method GetCopy() returns (shown: seq<Row>)
      modifies this`messages
      ensures messages == Sanitize(old(messages)) && WellFormed(messages)
      ensures shown == Visible(messages)
      ensures HidesWholeGroups(messages) ==> Paired(Convert(shown))
      ensures (forall m :: m in messages ==> !m.excluded) ==>
        shown == messages && Paired(Convert(shown)) && Answered(Convert(shown))
    {
      hide Paired, Answered, WellFormed, HidesWholeGroups, Sanitize, Convert;
      SanitizeIsWellFormed(messages);
      messages := SanitizeToolMessages(messages);
      shown := Visible(messages);
      if HidesWholeGroups(messages) {
        VisiblePairsUp(messages);
      }
      if forall m :: m in messages ==> !m.excluded {
        NothingHidden(messages);
        WellFormedPairsUp(messages);
      }
    }
  }

  lemma {:induction false} NothingHidden(rows: seq<Row>)
    requires forall m :: m in rows ==> !m.excluded
    ensures Visible(rows) == rows
  {
    if rows != [] {
      assert rows[0] in rows;
      NothingHidden(rows[1..]);
    }
  }
}

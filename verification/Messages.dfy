/** Conversation rows and their conversion to Responses API input items. */
module Messages {
  import opened Wrappers
  import opened Sequences

  datatype Role = System | User | Assistant | Tool | Developer

  datatype ToolCall = ToolCall(id: string, name: string, arguments: string) {
    function AsItem(): Item { FunctionCall(id, name, arguments) }
  }

  // `toolCalls == []` stands for an absent as well as an empty list: the source only tests truth.
  datatype Row = Row(
    role: Role,
    content: Option<string>,
    toolCalls: seq<ToolCall>,
    toolCallId: string,
    turnId: Option<int>,
    responseUid: Option<string>,
    excluded: bool)
  {
    predicate IsTool() { role == Tool }

    predicate HasCalls() { role == Assistant && toolCalls != [] }
  }

  datatype Item =
    | Message(role: Role, content: string)
    | FunctionCall(callId: string, name: string, arguments: string)
    | FunctionCallOutput(callId: string, output: string)

  function CallItems(calls: seq<ToolCall>): seq<Item> {
    if calls == [] then []
    else [calls[0].AsItem()] + CallItems(calls[1..])
  }

  // The input items of one row.  A role the adapter does not know converts to nothing.
  function RowItems(m: Row): seq<Item> {
    match m.role
    case System => [Message(System, m.content.GetOr(""))]
    case User => [Message(User, m.content.GetOr(""))]
    case Assistant =>
      (if m.content.Some? then [Message(Assistant, m.content.value)] else []) + CallItems(m.toolCalls)
    case Tool => [FunctionCallOutput(m.toolCallId, m.content.GetOr(""))]
    case Developer => []
  }

  function Convert(rows: seq<Row>): seq<Item> {
    if rows == [] then [] else RowItems(rows[0]) + Convert(rows[1..])
  }

  /** Conversion distributes over concatenation, so a history can be sent in pieces. */
  lemma {:induction false} ConvertAppend(a: seq<Row>, b: seq<Row>)
    ensures Convert(a + b) == Convert(a) + Convert(b)
  {
    hide RowItems;
    if a == [] {
      assert a + b == b;
    } else {
      ConvertAppend(a[1..], b);
      assert (a + b)[0] == a[0] && (a + b)[1..] == a[1..] + b;
      Associates(RowItems(a[0]), Convert(a[1..]), Convert(b));
    }
  }

  lemma ConvertOne(m: Row)
    ensures Convert([m]) == RowItems(m)
  {
    hide RowItems;
    assert [m][1..] == [];
  }

  lemma {:induction false} CallItemsAppend(a: seq<ToolCall>, b: seq<ToolCall>)
    ensures CallItems(a + b) == CallItems(a) + CallItems(b)
  {
    hide ToolCall.AsItem;
    if a == [] {
      assert a + b == b;
    } else {
      CallItemsAppend(a[1..], b);
      assert (a + b)[0] == a[0] && (a + b)[1..] == a[1..] + b;
      Associates([a[0].AsItem()], CallItems(a[1..]), CallItems(b));
    }
  }

  // ---------- What the items say, kind by kind ----------

  datatype Kind = Texts(role: Role) | Calls | Outputs

  datatype Part =
    | Text(text: string)
    | Call(id: string, name: string, arguments: string)
    | Output(id: string, text: string)

  function PartOf(i: Item, k: Kind): seq<Part> {
    match k
    case Texts(role) => if i.Message? && i.role == role then [Text(i.content)] else []
    case Calls => if i.FunctionCall? then [Call(i.callId, i.name, i.arguments)] else []
    case Outputs => if i.FunctionCallOutput? then [Output(i.callId, i.output)] else []
  }

  // The parts of one kind among the items, in order.
  function Parts(items: seq<Item>, k: Kind): seq<Part> {
    if items == [] then [] else PartOf(items[0], k) + Parts(items[1..], k)
  }

  // The part of one kind a row has to say: its text, where absent text is empty but an absent reply is none;
  // its calls; its tool output.  Tool and unknown rows have no message.
  function Meant(m: Row, k: Kind): seq<Part> {
    match k
    case Texts(role) =>
      if m.role != role || role == Tool || role == Developer then []
      else if m.content.Some? then [Text(m.content.value)]
      else if role == Assistant then []
      else [Text("")]
    case Calls =>
      if m.role != Assistant then []
      else
        seq(|m.toolCalls|, i requires 0 <= i < |m.toolCalls| =>
          Call(m.toolCalls[i].id, m.toolCalls[i].name, m.toolCalls[i].arguments))
    case Outputs =>
      if m.role == Tool then [Output(m.toolCallId, if m.content.Some? then m.content.value else "")] else []
  }

  function AllMeant(rows: seq<Row>, k: Kind): seq<Part> {
    if rows == [] then [] else Meant(rows[0], k) + AllMeant(rows[1..], k)
  }

  lemma {:induction false} PartsAppend(a: seq<Item>, b: seq<Item>, k: Kind)
    ensures Parts(a + b, k) == Parts(a, k) + Parts(b, k)
  {
    hide PartOf;
    if a == [] {
      assert a + b == b;
    } else {
      assert (a + b)[0] == a[0] && (a + b)[1..] == a[1..] + b;
      PartsAppend(a[1..], b, k);
      Associates(PartOf(a[0], k), Parts(a[1..], k), Parts(b, k));
    }
  }

  lemma {:induction false} CallItemsSay(calls: seq<ToolCall>, k: Kind)
    ensures !k.Calls? ==> Parts(CallItems(calls), k) == []
    ensures k.Calls? ==> |Parts(CallItems(calls), k)| == |calls|
    ensures k.Calls? ==> forall i :: 0 <= i < |calls| ==>
      Parts(CallItems(calls), k)[i] == Call(calls[i].id, calls[i].name, calls[i].arguments)
  {
    if calls != [] {
      CallItemsSay(calls[1..], k);
      assert CallItems(calls)[0] == calls[0].AsItem() && CallItems(calls)[1..] == CallItems(calls[1..]);
    }
  }

  lemma RowItemsSay(m: Row, k: Kind)
    ensures Parts(RowItems(m), k) == Meant(m, k)
  {
    if m.role == Assistant {
      var text := if m.content.Some? then [Message(Assistant, m.content.value)] else [];
      assert text != [] ==> text[1..] == [];
      assert Parts(text, k) == if k == Texts(Assistant) then Meant(m, k) else [];
      CallItemsSay(m.toolCalls, k);
      PartsAppend(text, CallItems(m.toolCalls), k);
    } else if m.role != Developer {
      assert RowItems(m)[1..] == [];
    }
  }

  /** MAIN: the conversion says what the rows say, kind by kind and in order: the texts of each role, the calls
      with their names and arguments, the tool outputs. */
  lemma {:induction false} ConversionSays(rows: seq<Row>, k: Kind)
    ensures Parts(Convert(rows), k) == AllMeant(rows, k)
  {
    hide RowItems, Meant, PartOf;
    if rows != [] {
      ConversionSays(rows[1..], k);
      RowItemsSay(rows[0], k);
      PartsAppend(RowItems(rows[0]), Convert(rows[1..]), k);
    }
  }

  lemma {:induction false} NobodySays(rows: seq<Row>)
    ensures AllMeant(rows, Texts(Tool)) == [] && AllMeant(rows, Texts(Developer)) == []
  {
    if rows != [] { NobodySays(rows[1..]); }
  }

  /** Within one reply the text comes before the calls. */
  lemma TextBeforeCalls(m: Row)
    requires m.role == Assistant && m.content.Some?
    ensures Convert([m]) != [] && Convert([m])[0] == Message(Assistant, m.content.value)
    ensures Parts(Convert([m])[1..], Texts(Assistant)) == []
  {
    ConvertOne(m);
    CallItemsSay(m.toolCalls, Texts(Assistant));
    assert RowItems(m)[1..] == CallItems(m.toolCalls);
  }

  method AppendRowItems(items: seq<Item>, m: Row) returns (r: seq<Item>)
    ensures r == items + RowItems(m)
    ensures forall k :: Parts(r, k) == Parts(items, k) + Meant(m, k)
  {
    forall k ensures Parts(items + RowItems(m), k) == Parts(items, k) + Meant(m, k) {
      PartsAppend(items, RowItems(m), k);
      RowItemsSay(m, k);
    }
    hide Parts, Meant;
    r := items;
    match m.role {
      case System => r := r + [Message(System, m.content.GetOr(""))];
      case User => r := r + [Message(User, m.content.GetOr(""))];
      case Assistant =>
        if m.content.Some? {
          r := r + [Message(Assistant, m.content.value)];
        }
        ghost var spoken := r;
        for j := 0 to |m.toolCalls|
          invariant r == spoken + CallItems(m.toolCalls[..j])
        {
          var tc := m.toolCalls[j];
          CallItemsAppend(m.toolCalls[..j], [tc]);
          assert m.toolCalls[..j + 1] == m.toolCalls[..j] + [tc];
          r := r + [FunctionCall(tc.id, tc.name, tc.arguments)];
        }
        assert m.toolCalls[..|m.toolCalls|] == m.toolCalls;
      case Tool => r := r + [FunctionCallOutput(m.toolCallId, m.content.GetOr(""))];
      case Developer =>
    }
  }

  /** `chat_to_responses_input`: the items are appended row by row, call by call. */
  method ChatToResponsesInput(rows: seq<Row>) returns (items: seq<Item>)
    ensures items == Convert(rows)
    ensures forall k :: Parts(items, k) == AllMeant(rows, k)
    ensures Parts(items, Texts(Tool)) == [] && Parts(items, Texts(Developer)) == []
  {
    hide RowItems, Parts, AllMeant;
    forall k ensures Parts(Convert(rows), k) == AllMeant(rows, k) { ConversionSays(rows, k); }
    NobodySays(rows);
    items := [];
    for i := 0 to |rows|
      invariant items == Convert(rows[..i])
    {
      ConvertAppend(rows[..i], [rows[i]]);
      assert rows[..i + 1] == rows[..i] + [rows[i]];
      ConvertOne(rows[i]);
      items := AppendRowItems(items, rows[i]);
    }
    assert rows[..|rows|] == rows;
  }
}

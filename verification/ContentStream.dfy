/** The content loop of the streaming chat: token deltas become speech chunks and captured
    tool-call fragments. */
module ContentStream {
  import opened Wrappers
  import opened Sequences
  import opened TextToolCalls

  datatype Delta = Content(text: string) | ToolCalls

  // Why a chunk was yielded when it was.  A cut at a space keeps the rest of the buffer.
  datatype Cut = AtSpace(rest: string) | FullBuffer | BeforeCall | BeforeToolCalls | EndOfStream

  // What became of each part of the stream, in order.
  datatype Piece =
    | Spoken(text: string, why: Cut)
    | Gap                                   // the one space a cut falls on
    | Fragment(text: string, whole: bool)   // captured, never spoken; cut short by the stream's end or not
    | Newlines(text: string)                // stripped behind a fragment
  {
    function Text(): string {
      match this
      case Spoken(t, _) => t
      case Gap => " "
      case Fragment(t, _) => t
      case Newlines(t) => t
    }

    predicate IsSpaceCut() { Spoken? && why.AtSpace? }

    predicate IsCallCut() { Spoken? && why.BeforeCall? }

    predicate IsToolCut() { Spoken? && why.BeforeToolCalls? }

    predicate IsLastCut() { Spoken? && why.EndOfStream? }

    predicate IsUnfinished() { Fragment? && !whole }
  }

  function Rebuilt(log: seq<Piece>): string {
    if log == [] then "" else log[0].Text() + Rebuilt(log[1..])
  }

  function SpokenChunks(log: seq<Piece>): seq<string> {
    if log == [] then []
    else (if log[0].Spoken? then [log[0].text] else []) + SpokenChunks(log[1..])
  }

  function Fragments(log: seq<Piece>): seq<string> {
    if log == [] then []
    else (if log[0].Fragment? then [log[0].text] else []) + Fragments(log[1..])
  }

  function ContentOf(deltas: seq<Delta>): string {
    if deltas == [] then ""
    else (if deltas[0].Content? then deltas[0].text else "") + ContentOf(deltas[1..])
  }

  // ---------- What a loop may do with the stream ----------

  ghost predicate NoCall(text: string, offered: seq<string>) {
    forall j: nat :: !BeginsCall(text, offered, j)
  }

  // What may wait in the buffer once `log` is decided: scanned text short of a flush, the rest kept by
  // the last cut, or what came behind the last fragment.
  ghost predicate Waiting(log: seq<Piece>, text: string, offered: seq<string>, size: nat) {
    || ((|text| < size || ' ' !in text) && NoCall(text, offered))
    || (|log| >= 2 && log[|log| - 2].IsSpaceCut() && log[|log| - 2].why.rest == text)
    || (log != [] && log[|log| - 1].Newlines?)
  }

  /** Piece i stands where it may, when `tail` is still pending behind the log.  A flush takes a full
      buffer in which no call begins, and falls at its last space or takes it whole when it has none.  A
      cut before a narrated call is one: a call begins right behind it, and is captured.  Only waiting
      text is spoken at the end or before tool calls; the end comes last.  A fragment starts where a call
      begins and is one whole call, unless the stream ended inside it. */
  ghost predicate LegalAt(log: seq<Piece>, i: nat, tail: string, offered: seq<string>, size: nat)
    requires i < |log|
  {
    var after := Rebuilt(log[i + 1..]) + tail;
    match log[i]
    case Spoken(text, AtSpace(rest)) =>
      && i + 1 < |log| && log[i + 1].Gap? && " " + rest <= after && ' ' !in rest
      && |text| + 1 + |rest| >= size && NoCall(text + " " + rest, offered)
    case Spoken(text, FullBuffer) => |text| >= size && ' ' !in text && NoCall(text, offered)
    case Spoken(text, BeforeCall) =>
      && text != "" && NoCall(text, offered) && BeginsCall(after, offered, 0)
      && (i + 1 < |log| ==> log[i + 1].Fragment?)
    case Spoken(text, BeforeToolCalls) => Waiting(log[..i], text, offered, size)
    case Spoken(text, EndOfStream) => Waiting(log[..i], text, offered, size) && i + 1 == |log|
    case Gap => i > 0 && log[i - 1].IsSpaceCut()
    case Fragment(text, whole) =>
      && BeginsCall(text + after, offered, 0)
      && (whole ==> ToolCallEnd(text) == |text|)
      && (!whole ==> ToolCallEnd(text) == -1 && after == "" && i + 2 == |log| && log[i + 1].IsLastCut())
    case Newlines(text) => OnlyNewlines(text) && i > 0 && log[i - 1].Fragment? && log[i - 1].whole
  }

  ghost predicate Legal(log: seq<Piece>, tail: string, offered: seq<string>, size: nat) {
    forall i: nat :: i < |log| ==> LegalAt(log, i, tail, offered, size)
  }

  // The stream has not ended yet.
  predicate InStream(log: seq<Piece>) {
    forall p :: p in log ==> !p.IsLastCut() && !p.IsUnfinished()
  }

  // Text is spoken before tool calls exactly where a tool-call delta interrupts the content.
  ghost predicate CutsAtToolCalls(log: seq<Piece>, deltas: seq<Delta>) {
    forall i :: 0 <= i < |log| && log[i].IsToolCut() ==> CutAtToolCalls(log[..i + 1], deltas)
  }

  ghost predicate CutAtToolCalls(log: seq<Piece>, deltas: seq<Delta>) {
    exists k :: 0 <= k < |deltas| && deltas[k].ToolCalls? && Rebuilt(log) == ContentOf(deltas[..k])
  }

  lemma {:induction false} LogAppend(a: seq<Piece>, b: seq<Piece>)
    ensures Rebuilt(a + b) == Rebuilt(a) + Rebuilt(b)
    ensures SpokenChunks(a + b) == SpokenChunks(a) + SpokenChunks(b)
    ensures Fragments(a + b) == Fragments(a) + Fragments(b)
  {
    if a == [] {
      assert a + b == b;
    } else {
      LogAppend(a[1..], b);
      assert (a + b)[0] == a[0] && (a + b)[1..] == a[1..] + b;
      Associates(a[0].Text(), Rebuilt(a[1..]), Rebuilt(b));
      Associates(if a[0].Spoken? then [a[0].text] else [], SpokenChunks(a[1..]), SpokenChunks(b));
      Associates(if a[0].Fragment? then [a[0].text] else [], Fragments(a[1..]), Fragments(b));
    }
  }

  lemma {:induction false} ContentAppend(a: seq<Delta>, b: seq<Delta>)
    ensures ContentOf(a + b) == ContentOf(a) + ContentOf(b)
  {
    if a == [] {
      assert a + b == b;
    } else {
      ContentAppend(a[1..], b);
      assert (a + b)[0] == a[0] && (a + b)[1..] == a[1..] + b;
      Associates(if a[0].Content? then a[0].text else "", ContentOf(a[1..]), ContentOf(b));
    }
  }

  lemma LogTwo(p: Piece, q: Piece)
    ensures Rebuilt([p, q]) == p.Text() + q.Text()
    ensures SpokenChunks([p, q]) == SpokenChunks([p]) + SpokenChunks([q])
    ensures Fragments([p, q]) == Fragments([p]) + Fragments([q])
  {
    assert [p, q] == [p] + [q];
    LogAppend([p], [q]);
    LogOne(p);
    LogOne(q);
  }

  lemma LogOne(p: Piece)
    ensures Rebuilt([p]) == p.Text()
    ensures SpokenChunks([p]) == if p.Spoken? then [p.text] else []
    ensures Fragments([p]) == if p.Fragment? then [p.text] else []
  {
    assert [p][1..] == [];
  }

  // ---------- String helpers ----------

  // buffer.rsplit(" ", 1)
  method SplitAtLastSpace(s: string) returns (head: string, found: bool, tail: string)
    ensures found <==> ' ' in s
    ensures found ==> s == head + " " + tail && ' ' !in tail
    ensures !found ==> head == s && tail == ""
  {
    var i := |s| - 1;
    while i >= 0 && s[i] != ' '
      invariant -1 <= i < |s|
      invariant ' ' !in s[i + 1..]
    {
      assert s[i..] == [s[i]] + s[i + 1..];
      i := i - 1;
    }
    if i < 0 {
      assert s[0..] == s;
      return s, false, "";
    }
    assert s == s[..i] + [s[i]] + s[i + 1..];
    return s[..i], true, s[i + 1..];
  }

  predicate OnlyNewlines(s: string) {
    forall i :: 0 <= i < |s| ==> s[i] == '\n'
  }

  // s.lstrip("\n"), and what it strips
  function StripNewlines(s: string): (r: (string, string))
    ensures s == r.0 + r.1 && OnlyNewlines(r.0)
    ensures r.1 != "" ==> r.1[0] != '\n'
  {
    if s != "" && s[0] == '\n' then
      var (stripped, rest) := StripNewlines(s[1..]);
      (s[..1] + stripped, rest)
    else ("", s)
  }

  // ---------- The loop's variables ----------

  datatype Scan = Scan(buffer: string, toolBuffer: Option<string>, captured: Option<string>, chunks: seq<string>) {
    // Received but neither spoken nor captured yet.
    function Pending(): string {
      toolBuffer.GetOr("") + buffer
    }

    // A call being captured has not ended.
    predicate IsOpen() {
      toolBuffer.Some? ==> ToolCallEnd(toolBuffer.value) < 0
    }
  }

  const START := Scan("", None, None, [])

  // What a log leaves captured: the last fragment, dropping earlier ones.
  function LastCaptured(log: seq<Piece>): Option<string> {
    var fs := Fragments(log);
    if fs == [] then None else Some(fs[|fs| - 1])
  }

  // The log tells what became of everything received.
  ghost predicate Told(received: string, s: Scan, log: seq<Piece>, offered: seq<string>, size: nat) {
    && Rebuilt(log) + s.Pending() == received
    && s.chunks == SpokenChunks(log)
    && s.captured == LastCaptured(log)
    && Legal(log, s.Pending(), offered, size)
    && InStream(log)
    && (s.toolBuffer.Some? ==> s.buffer == "" && BeginsCall(s.toolBuffer.value, offered, 0))
    && (s.toolBuffer.None? ==>
          Waiting(log, s.buffer, offered, size) && (log != [] ==> !log[|log| - 1].IsCallCut()))
  }

  // ---------- Rules survive what comes after ----------

  lemma LegalAtGrows(
    log: seq<Piece>, i: nat, tail: string, more: seq<Piece>, tail': string, offered: seq<string>, size: nat)
    requires i < |log| && LegalAt(log, i, tail, offered, size) && InStream(log)
    requires tail <= Rebuilt(more) + tail'
    requires more != [] && log[|log| - 1].IsCallCut() ==> more[0].Fragment?
    ensures LegalAt(log + more, i, tail', offered, size)
  {
    hide BeginsCall, ToolCallEnd, Rebuilt, NoCall;
    var all := log + more;
    var after, after' := Rebuilt(log[i + 1..]) + tail, Rebuilt(all[i + 1..]) + tail';
    assert log[i] in log;
    assert after <= after' by {
      assert all[i + 1..] == log[i + 1..] + more;
      LogAppend(log[i + 1..], more);
      Associates(Rebuilt(log[i + 1..]), Rebuilt(more), tail');
    }
    var u := after'[|after|..];
    assert after' == after + u;
    assert all[..i] == log[..i];
    match log[i] {
      case Spoken(text, BeforeCall) => BeginsCallGrows(after, u, offered, 0);
      case Fragment(text, _) =>
        BeginsCallGrows(text + after, u, offered, 0);
        Associates(text, after, u);
      case _ =>
    }
  }

  lemma LegalGrows(log: seq<Piece>, tail: string, more: seq<Piece>, tail': string, offered: seq<string>, size: nat)
    requires Legal(log, tail, offered, size) && InStream(log)
    requires tail <= Rebuilt(more) + tail'
    requires more != [] && log != [] && log[|log| - 1].IsCallCut() ==> more[0].Fragment?
    requires forall i: nat :: |log| <= i < |log + more| ==> LegalAt(log + more, i, tail', offered, size)
    ensures Legal(log + more, tail', offered, size)
  {
    hide LegalAt, InStream, Rebuilt;
    forall i: nat | i < |log + more| ensures LegalAt(log + more, i, tail', offered, size) {
      if i < |log| { LegalAtGrows(log, i, tail, more, tail', offered, size); }
    }
  }

  // What one stretch of the loop has to show: its own pieces stand where they may.
  lemma TellOn(
    received: string, s: Scan, log: seq<Piece>, text: string, s': Scan, more: seq<Piece>,
    offered: seq<string>, size: nat)
    requires Told(received, s, log, offered, size)
    requires Rebuilt(more) + s'.Pending() == s.Pending() + text
    requires s'.chunks == s.chunks + SpokenChunks(more)
    requires s'.captured == if Fragments(more) == [] then s.captured else Some(Fragments(more)[|Fragments(more)| - 1])
    requires InStream(more)
    requires more != [] && s.toolBuffer.Some? ==> more[0].Fragment?
    requires forall i: nat :: |log| <= i < |log + more| ==> LegalAt(log + more, i, s'.Pending(), offered, size)
    requires s'.toolBuffer.Some? ==> s'.buffer == "" && BeginsCall(s'.toolBuffer.value, offered, 0)
    requires s'.toolBuffer.None? ==> Waiting(log + more, s'.buffer, offered, size)
    requires s'.toolBuffer.None? && log + more != [] ==> !(log + more)[|log + more| - 1].IsCallCut()
    ensures Told(received + text, s', log + more, offered, size)
  {
    hide LegalAt, Legal, BeginsCall, Waiting, Rebuilt, SpokenChunks, Fragments, Scan.Pending;
    LogAppend(log, more);
    Associates(Rebuilt(log), Rebuilt(more), s'.Pending());
    Associates(Rebuilt(log), s.Pending(), text);
    assert s.Pending() <= Rebuilt(more) + s'.Pending();
    LegalGrows(log, s.Pending(), more, s'.Pending(), offered, size);
  }

  // ---------- One delta ----------

  // A capture in progress, settled if the call has ended: fragment kept, newlines dropped, rest buffered.
  function Settled(s: Scan): Scan
    requires s.toolBuffer.Some?
  {
    var text := s.toolBuffer.value;
    var end := ToolCallEnd(text);
    if end < 0 then s
    else s.(buffer := StripNewlines(text[end..]).1, toolBuffer := None, captured := Some(text[..end]))
  }

  // A capture that goes on.
  function Grown(s: Scan, content: string): Scan
    requires s.toolBuffer.Some?
  {
    Settled(s.(toolBuffer := Some(s.toolBuffer.value + content)))
  }

  // A capture that starts at idx of the buffered text: what is before it is spoken.
  function Begun(s: Scan, text: string, idx: nat): Scan
    requires idx < |text|
  {
    Settled(Scan("", Some(text[idx..]), s.captured, if idx > 0 then s.chunks + [text[..idx]] else s.chunks))
  }

  method Settle(s: Scan, offered: seq<string>, ghost size: nat, ghost received: string, ghost log: seq<Piece>)
    returns (s': Scan, ghost log': seq<Piece>)
    requires Told(received, s, log, offered, size) && s.toolBuffer.Some?
    ensures Told(received, s', log', offered, size) && s'.IsOpen()
    ensures s' == Settled(s)
    ensures log <= log' && NoToolCuts(log'[|log|..])
  {
    hide ToolCallEnd, Told, BeginsCall;
    var text := s.toolBuffer.value;
    var end := FindToolCallEnd(text);
    if end == -1 {
      return s, log;
    }
    var (newlines, remainder) := StripNewlines(text[end..]);
    s' := s.(buffer := remainder, toolBuffer := None, captured := Some(text[..end]));
    log' := log + [Fragment(text[..end], true), Newlines(newlines)];
    TellCapture(received, s, log, end, newlines, s', offered, size);
  }

  ghost predicate NoToolCuts(pieces: seq<Piece>) {
    forall p :: p in pieces ==> !p.IsToolCut()
  }

  lemma TellCapture(
    received: string, s: Scan, log: seq<Piece>, end: nat, newlines: string, s': Scan, offered: seq<string>, size: nat)
    requires Told(received, s, log, offered, size) && s.toolBuffer.Some?
    requires var text := s.toolBuffer.value;
      && end == ToolCallEnd(text) && text[end..] == newlines + s'.buffer && OnlyNewlines(newlines)
      && s' == s.(buffer := s'.buffer, toolBuffer := None, captured := Some(text[..end]))
    ensures Told(received, s', log + [Fragment(s.toolBuffer.value[..end], true), Newlines(newlines)], offered, size)
  {
    hide Rebuilt, SpokenChunks, Fragments, Legal, LegalAt, BeginsCall, ToolCallEnd, NoCall, OnlyNewlines;
    var text := s.toolBuffer.value;
    var f, n := Fragment(text[..end], true), Newlines(newlines);
    LogTwo(f, n);
    LogOne(f);
    LogOne(n);
    assert text == text[..end] + (newlines + s'.buffer);
    Associates(text[..end], newlines, s'.buffer);
    assert s.Pending() + "" == text && s'.Pending() == s'.buffer;
    LegalCapture(log, text, end, newlines, s'.buffer, offered, size);
    TellOn(received, s, log, "", s', [f, n], offered, size);
    assert received + "" == received;
  }

  lemma LegalCapture(
    log: seq<Piece>, text: string, end: nat, newlines: string, rest: string, offered: seq<string>, size: nat)
    requires end == ToolCallEnd(text) && text[end..] == newlines + rest && OnlyNewlines(newlines)
    requires BeginsCall(text, offered, 0)
    ensures var all := log + [Fragment(text[..end], true), Newlines(newlines)];
      LegalAt(all, |log|, rest, offered, size) && LegalAt(all, |log| + 1, rest, offered, size)
  {
    hide Rebuilt, BeginsCall, ToolCallEnd, OnlyNewlines;
    var n := Newlines(newlines);
    LogOne(n);
    FragmentIsComplete(text);
    assert (log + [Fragment(text[..end], true), n])[|log| + 1..] == [n];
    assert text[..end] + (newlines + rest) == text;
  }

  // While a call is being captured: its text grows until it is complete.
  method Grow(
    s: Scan, content: string, offered: seq<string>, ghost size: nat, ghost received: string, ghost log: seq<Piece>)
    returns (s': Scan, ghost log': seq<Piece>)
    requires Told(received, s, log, offered, size) && s.toolBuffer.Some?
    ensures Told(received + content, s', log', offered, size) && s'.IsOpen()
    ensures s' == Grown(s, content)
    ensures log <= log' && NoToolCuts(log'[|log|..])
  {
    hide ToolCallEnd, Legal, Rebuilt, SpokenChunks, Fragments, BeginsCall, LegalAt, Waiting;
    var s1 := s.(toolBuffer := Some(s.toolBuffer.value + content));
    BeginsCallGrows(s.toolBuffer.value, content, offered, 0);
    NothingLogged();
    TellOn(received, s, log, content, s1, [], offered, size);
    assert log + [] == log;
    s', log' := Settle(s1, offered, size, received + content, log);
  }

  lemma NothingLogged()
    ensures Rebuilt([]) == "" && SpokenChunks([]) == [] && Fragments([]) == []
  {
  }

  // A narrated call begins at idx of the buffered text: what is before it is spoken, what is from it on is
  // captured or being captured.
  method BeginCapture(
    s: Scan, content: string, idx: nat, offered: seq<string>,
    ghost size: nat, ghost received: string, ghost log: seq<Piece>)
    returns (s': Scan, ghost log': seq<Piece>)
    requires Told(received, s, log, offered, size) && s.toolBuffer.None?
    requires idx < |s.buffer + content| && EarliestCall(s.buffer + content, offered, idx)
    ensures Told(received + content, s', log', offered, size) && s'.IsOpen()
    ensures s' == Begun(s, s.buffer + content, idx)
    ensures log <= log' && NoToolCuts(log'[|log|..])
  {
    hide ToolCallEnd, Told, BeginsCall;
    var combined := s.buffer + content;
    var before, after := combined[..idx], combined[idx..];
    var s1 := Scan("", Some(after), s.captured, if before != "" then s.chunks + [before] else s.chunks);
    assert combined == before + after;
    BeginsCallCut(combined, offered, idx);
    NoCallBefore(combined, offered, idx);
    ghost var more := [];
    if before != "" {
      more := [Spoken(before, BeforeCall)];
      TellBegunBehind(received, s, log, content, before, after, offered, size);
    } else {
      assert after == combined && log + [] == log;
      TellBegunAtFront(received, s, log, content, offered, size);
    }
    s', log' := Settle(s1, offered, size, received + content, log + more);
    assert log'[|log|..] == more + log'[|log + more|..];
  }

  ghost predicate EarliestCall(text: string, offered: seq<string>, idx: nat) {
    BeginsCall(text, offered, idx) && forall j: nat :: BeginsCall(text, offered, j) ==> idx <= j
  }

  lemma TellBegunAtFront(
    received: string, s: Scan, log: seq<Piece>, content: string, offered: seq<string>, size: nat)
    requires Told(received, s, log, offered, size) && s.toolBuffer.None?
    requires BeginsCall(s.buffer + content, offered, 0)
    ensures Told(received + content, s.(buffer := "", toolBuffer := Some(s.buffer + content)), log, offered, size)
  {
    hide Rebuilt, SpokenChunks, Fragments, Legal, LegalAt, BeginsCall, NoCall, Waiting;
    NothingLogged();
    assert log + [] == log;
    TellOn(received, s, log, content, s.(buffer := "", toolBuffer := Some(s.buffer + content)), [], offered, size);
  }

  lemma TellBegunBehind(
    received: string, s: Scan, log: seq<Piece>, content: string, before: string, after: string,
    offered: seq<string>, size: nat)
    requires Told(received, s, log, offered, size) && s.toolBuffer.None?
    requires before != "" && s.buffer + content == before + after
    requires NoCall(before, offered) && BeginsCall(after, offered, 0)
    ensures Told(received + content, Scan("", Some(after), s.captured, s.chunks + [before]),
      log + [Spoken(before, BeforeCall)], offered, size)
  {
    hide Rebuilt, SpokenChunks, Fragments, Legal, LegalAt, BeginsCall, NoCall, Waiting;
    var p := Spoken(before, BeforeCall);
    LogOne(p);
    LegalCallCut(log, before, after, offered, size);
    var s' := Scan("", Some(after), s.captured, s.chunks + [before]);
    assert s'.Pending() == after && s.Pending() == s.buffer;
    TellOn(received, s, log, content, s', [p], offered, size);
  }

  lemma LegalCallCut(log: seq<Piece>, before: string, after: string, offered: seq<string>, size: nat)
    requires before != "" && NoCall(before, offered) && BeginsCall(after, offered, 0)
    ensures LegalAt(log + [Spoken(before, BeforeCall)], |log|, after, offered, size)
  {
    hide BeginsCall, NoCall, Rebuilt;
    NothingLogged();
    assert (log + [Spoken(before, BeforeCall)])[|log| + 1..] == [];
    assert Rebuilt([]) + after == after;
  }

  lemma NoCallBefore(text: string, offered: seq<string>, idx: nat)
    requires idx <= |text| && forall j: nat :: BeginsCall(text, offered, j) ==> idx <= j
    ensures NoCall(text[..idx], offered)
  {
    hide BeginsCall;
    assert text == text[..idx] + text[idx..];
    forall j: nat ensures !BeginsCall(text[..idx], offered, j) {
      BeginsCallGrows(text[..idx], text[idx..], offered, j);
      BeginsCallInside(text[..idx], offered, j);
    }
  }

  // A full buffer in which no call begins is cut at its last space, or spoken whole.
  method Flush(
    s: Scan, content: string, offered: seq<string>, size: nat, ghost received: string, ghost log: seq<Piece>)
    returns (s': Scan, ghost log': seq<Piece>)
    requires Told(received, s, log, offered, size) && s.toolBuffer.None?
    requires |s.buffer + content| >= size && NoCall(s.buffer + content, offered)
    ensures Told(received + content, s', log', offered, size)
    ensures Flushed(s, s.buffer + content, s')
    ensures log <= log' && NoToolCuts(log'[|log|..])
  {
    hide Told, NoCall;
    var text := s.buffer + content;
    var head, found, tail := SplitAtLastSpace(text);
    s' := s.(chunks := s.chunks + [head], buffer := tail);
    log' := log + if found then [Spoken(head, AtSpace(tail)), Gap] else [Spoken(head, FullBuffer)];
    if found {
      TellSpaceCut(received, s, log, content, head, tail, offered, size);
    } else {
      TellFullBuffer(received, s, log, content, offered, size);
    }
  }

  // One chunk more: the text up to its last space, or all of it.
  ghost predicate Flushed(s: Scan, text: string, s': Scan) {
    exists head: string ::
      && s' == s.(chunks := s.chunks + [head], buffer := s'.buffer)
      && ' ' !in s'.buffer
      && (' ' in text ==> text == head + " " + s'.buffer)
      && (' ' !in text ==> text == head && s'.buffer == "")
  }

  lemma TellSpaceCut(
    received: string, s: Scan, log: seq<Piece>, content: string, head: string, tail: string,
    offered: seq<string>, size: nat)
    requires Told(received, s, log, offered, size) && s.toolBuffer.None?
    requires s.buffer + content == head + " " + tail && ' ' !in tail
    requires |head| + 1 + |tail| >= size && NoCall(head + " " + tail, offered)
    ensures Told(received + content, s.(chunks := s.chunks + [head], buffer := tail),
      log + [Spoken(head, AtSpace(tail)), Gap], offered, size)
  {
    hide Rebuilt, SpokenChunks, Fragments, Legal, LegalAt, BeginsCall, NoCall;
    var p := Spoken(head, AtSpace(tail));
    var s' := s.(chunks := s.chunks + [head], buffer := tail);
    LogTwo(p, Gap);
    LogOne(p);
    LogOne(Gap);
    Associates(head, " ", tail);
    assert s'.Pending() == tail && s.Pending() == s.buffer;
    LegalSpaceCut(log, head, tail, offered, size);
    TellOn(received, s, log, content, s', [p, Gap], offered, size);
  }

  lemma LegalSpaceCut(log: seq<Piece>, head: string, tail: string, offered: seq<string>, size: nat)
    requires ' ' !in tail && |head| + 1 + |tail| >= size && NoCall(head + " " + tail, offered)
    ensures var all := log + [Spoken(head, AtSpace(tail)), Gap];
      LegalAt(all, |log|, tail, offered, size) && LegalAt(all, |log| + 1, tail, offered, size)
  {
    hide BeginsCall, NoCall, Rebuilt;
    LogOne(Gap);
    assert (log + [Spoken(head, AtSpace(tail)), Gap])[|log| + 1..] == [Gap];
  }

  lemma TellFullBuffer(
    received: string, s: Scan, log: seq<Piece>, content: string, offered: seq<string>, size: nat)
    requires Told(received, s, log, offered, size) && s.toolBuffer.None?
    requires var text := s.buffer + content; |text| >= size && ' ' !in text && NoCall(text, offered)
    ensures var text := s.buffer + content;
      Told(received + content, s.(chunks := s.chunks + [text], buffer := ""),
        log + [Spoken(text, FullBuffer)], offered, size)
  {
    hide Rebuilt, SpokenChunks, Fragments, Legal, NoCall;
    var text := s.buffer + content;
    var p := Spoken(text, FullBuffer);
    LogOne(p);
    NoCallInNothing(offered);
    TellOn(received, s, log, content, s.(chunks := s.chunks + [text], buffer := ""), [p], offered, size);
  }

  lemma NoCallInNothing(offered: seq<string>)
    ensures NoCall("", offered)
  {
    forall j: nat ensures !BeginsCall("", offered, j) { BeginsCallInside("", offered, j); }
  }

  /** What one delta does.  A capture grows.  Otherwise the earliest call beginning in the buffered text is
      captured; without one the text waits, or is flushed when it fills the buffer.  Tool calls have what
      is buffered spoken first. */
  ghost predicate Steps(s: Scan, d: Delta, s': Scan, offered: seq<string>, size: nat) {
    match d
    case ToolCalls => s' == if s.buffer == "" then s else s.(chunks := s.chunks + [s.buffer], buffer := "")
    case Content(content) =>
      var text := s.buffer + content;
      if s.toolBuffer.Some? then s' == Grown(s, content)
      else if !NoCall(text, offered) then
        exists idx: nat :: idx < |text| && EarliestCall(text, offered, idx) && s' == Begun(s, text, idx)
      else if |text| < size then s' == s.(buffer := text)
      else Flushed(s, text, s')
  }

  method OnContent(
    s: Scan, content: string, offered: seq<string>, size: nat, ghost received: string, ghost log: seq<Piece>)
    returns (s': Scan, ghost log': seq<Piece>)
    requires Told(received, s, log, offered, size) && s.IsOpen()
    ensures Told(received + content, s', log', offered, size) && s'.IsOpen()
    ensures log <= log' && NoToolCuts(log'[|log|..])
    ensures Steps(s, Content(content), s', offered, size)
  {
    hide Told, BeginsCall, ToolCallEnd;
    if s.toolBuffer.Some? {
      s', log' := Grow(s, content, offered, size, received, log);
      return;
    }
    var text := s.buffer + content;
    var idx := FindTextToolCallStart(text, offered);
    if idx != -1 {
      s', log' := BeginCapture(s, content, idx, offered, size, received, log);
      assert EarliestCall(text, offered, idx);
    } else {
      assert NoCall(text, offered);
      if |text| >= size {
        s', log' := Flush(s, content, offered, size, received, log);
      } else {
        TellWaiting(received, s, log, content, offered, size);
        s', log' := s.(buffer := text), log;
      }
    }
  }

  lemma TellWaiting(
    received: string, s: Scan, log: seq<Piece>, content: string, offered: seq<string>, size: nat)
    requires Told(received, s, log, offered, size) && s.toolBuffer.None?
    requires |s.buffer + content| < size && NoCall(s.buffer + content, offered)
    ensures Told(received + content, s.(buffer := s.buffer + content), log, offered, size)
  {
    hide Rebuilt, SpokenChunks, Fragments, Legal, NoCall;
    NothingLogged();
    assert log + [] == log;
    TellOn(received, s, log, content, s.(buffer := s.buffer + content), [], offered, size);
  }

  method OnToolCalls(
    s: Scan, ghost offered: seq<string>, ghost size: nat, ghost received: string, ghost log: seq<Piece>)
    returns (s': Scan, ghost log': seq<Piece>)
    requires Told(received, s, log, offered, size) && s.IsOpen()
    ensures Told(received, s', log', offered, size) && s'.IsOpen()
    ensures Steps(s, ToolCalls, s', offered, size)
    ensures log' == if s.buffer == "" then log else log + [Spoken(s.buffer, BeforeToolCalls)]
    ensures s.buffer != "" ==> Rebuilt(log') == received
  {
    hide Told, Rebuilt;
    if s.buffer == "" {
      return s, log;
    }
    TellToolCut(received, s, log, offered, size);
    s' := s.(chunks := s.chunks + [s.buffer], buffer := "");
    log' := log + [Spoken(s.buffer, BeforeToolCalls)];
  }

  lemma TellToolCut(received: string, s: Scan, log: seq<Piece>, offered: seq<string>, size: nat)
    requires Told(received, s, log, offered, size) && s.buffer != ""
    ensures var log' := log + [Spoken(s.buffer, BeforeToolCalls)];
      && Told(received, s.(chunks := s.chunks + [s.buffer], buffer := ""), log', offered, size)
      && Rebuilt(log') == received && s.toolBuffer.None?
  {
    hide Rebuilt, SpokenChunks, Fragments, Legal, LegalAt, NoCall, BeginsCall;
    var p := Spoken(s.buffer, BeforeToolCalls);
    var s' := s.(chunks := s.chunks + [s.buffer], buffer := "");
    LogOne(p);
    NoCallInNothing(offered);
    LegalToolCut(log, s.buffer, offered, size);
    TellOn(received, s, log, "", s', [p], offered, size);
    assert received + "" == received && Rebuilt(log + [p]) + s'.Pending() == Rebuilt(log + [p]);
  }

  lemma LegalToolCut(log: seq<Piece>, text: string, offered: seq<string>, size: nat)
    requires Waiting(log, text, offered, size)
    ensures LegalAt(log + [Spoken(text, BeforeToolCalls)], |log|, "", offered, size)
  {
    hide Waiting, Rebuilt;
    assert (log + [Spoken(text, BeforeToolCalls)])[..|log|] == log;
  }

  /** The end of the stream: an unfinished call is captured, not spoken; the rest of the buffer is spoken,
      last. */
  method Finish(s: Scan, ghost offered: seq<string>, ghost size: nat, ghost received: string, ghost log: seq<Piece>)
    returns (s': Scan, ghost log': seq<Piece>)
    requires Told(received, s, log, offered, size) && s.IsOpen()
    ensures s'.captured == if s.toolBuffer.Some? then s.toolBuffer else s.captured
    ensures s'.chunks == s.chunks + [s.buffer]
    ensures log' == log
      + (if s.toolBuffer.Some? then [Fragment(s.toolBuffer.value, false)] else [])
      + [Spoken(s.buffer, EndOfStream)]
    ensures Rebuilt(log') == received && s'.chunks == SpokenChunks(log') && s'.captured == LastCaptured(log')
    ensures Legal(log', "", offered, size)
  {
    hide Rebuilt, SpokenChunks, Fragments, Legal, NoCall, BeginsCall, ToolCallEnd;
    s' := s.(chunks := s.chunks + [s.buffer], buffer := "", toolBuffer := None);
    if s.toolBuffer.Some? {
      s' := s'.(captured := s.toolBuffer);
      log' := log + [Fragment(s.toolBuffer.value, false)] + [Spoken(s.buffer, EndOfStream)];
      LastCall(received, s, log, offered, size);
    } else {
      log' := log + [] + [Spoken(s.buffer, EndOfStream)];
      assert log + [] == log;
      LastWords(received, s, log, offered, size);
    }
  }

  lemma LastWords(received: string, s: Scan, log: seq<Piece>, offered: seq<string>, size: nat)
    requires Told(received, s, log, offered, size) && s.toolBuffer.None?
    ensures var log' := log + [Spoken(s.buffer, EndOfStream)];
      && Rebuilt(log') == received && SpokenChunks(log') == s.chunks + [s.buffer]
      && LastCaptured(log') == s.captured && Legal(log', "", offered, size)
  {
    hide Rebuilt, SpokenChunks, Fragments, Legal, NoCall, BeginsCall, Waiting;
    var last := Spoken(s.buffer, EndOfStream);
    var log' := log + [last];
    LogOne(last);
    LogAppend(log, [last]);
    assert log'[..|log|] == log;
    LegalGrows(log, s.Pending(), [last], "", offered, size);
  }

  lemma LastCall(received: string, s: Scan, log: seq<Piece>, offered: seq<string>, size: nat)
    requires Told(received, s, log, offered, size) && s.toolBuffer.Some? && s.IsOpen()
    ensures var log' := log + [Fragment(s.toolBuffer.value, false)] + [Spoken(s.buffer, EndOfStream)];
      && Rebuilt(log') == received && SpokenChunks(log') == s.chunks + [s.buffer]
      && LastCaptured(log') == s.toolBuffer && Legal(log', "", offered, size)
  {
    hide Rebuilt, SpokenChunks, Fragments, Legal, LegalAt, NoCall, BeginsCall, Waiting, ToolCallEnd;
    var f, last := Fragment(s.toolBuffer.value, false), Spoken("", EndOfStream);
    var log' := log + [f, last];
    assert log + [f] + [last] == log';
    LogTwo(f, last);
    LogOne(f);
    LogOne(last);
    LogAppend(log, [f, last]);
    LegalCutShort(log, f.text, offered, size);
    LegalGrows(log, s.Pending(), [f, last], "", offered, size);
  }

  lemma LegalCutShort(log: seq<Piece>, text: string, offered: seq<string>, size: nat)
    requires BeginsCall(text, offered, 0) && ToolCallEnd(text) < 0
    ensures var all := log + [Fragment(text, false), Spoken("", EndOfStream)];
      LegalAt(all, |log|, "", offered, size) && LegalAt(all, |log| + 1, "", offered, size)
  {
    hide Rebuilt, NoCall, BeginsCall, ToolCallEnd;
    var last := Spoken("", EndOfStream);
    var all := log + [Fragment(text, false), last];
    LogOne(last);
    NoCallInNothing(offered);
    assert all[|log| + 1..] == [last];
    assert Rebuilt([last]) + "" == "" && text + "" == text;
  }

  // ---------- The whole stream ----------

  lemma NextDelta(deltas: seq<Delta>, i: nat)
    requires i < |deltas|
    ensures ContentOf(deltas[..i + 1]) ==
      ContentOf(deltas[..i]) + if deltas[i].Content? then deltas[i].text else ""
  {
    assert deltas[..i + 1] == deltas[..i] + [deltas[i]];
    ContentAppend(deltas[..i], [deltas[i]]);
    assert [deltas[i]][1..] == [];
  }

  lemma CutsStay(log: seq<Piece>, log': seq<Piece>, deltas: seq<Delta>)
    requires CutsAtToolCalls(log, deltas) && log <= log' && NoToolCuts(log'[|log|..])
    ensures CutsAtToolCalls(log', deltas)
  {
    hide CutAtToolCalls;
    forall i | |log| <= i < |log'| ensures !log'[i].IsToolCut() {
      assert log'[i] in log'[|log|..];
    }
    forall i | 0 <= i < |log| && log'[i].IsToolCut() ensures CutAtToolCalls(log'[..i + 1], deltas) {
      assert log'[..i + 1] == log[..i + 1];
    }
  }

  lemma CutHere(log: seq<Piece>, p: Piece, deltas: seq<Delta>, k: nat)
    requires CutsAtToolCalls(log, deltas)
    requires k < |deltas| && deltas[k].ToolCalls? && Rebuilt(log + [p]) == ContentOf(deltas[..k])
    ensures CutsAtToolCalls(log + [p], deltas)
  {
    hide Rebuilt, ContentOf;
    var all := log + [p];
    forall i | 0 <= i < |all| && all[i].IsToolCut() ensures CutAtToolCalls(all[..i + 1], deltas) {
      if i < |log| {
        assert all[..i + 1] == log[..i + 1];
      } else {
        assert all[..i + 1] == all;
      }
    }
  }

  lemma ToldAtStart(deltas: seq<Delta>, offered: seq<string>, size: nat)
    ensures Told(ContentOf(deltas[..0]), START, [], offered, size) && START.IsOpen()
    ensures CutsAtToolCalls([], deltas)
  {
    hide BeginsCall, NoCall;
    NoCallInNothing(offered);
  }

  /** The log explains a stream: chunks, fragments, one space per space cut and the newlines stripped behind
      a fragment rebuild the content exactly, in order; every cut is where the rules allow one; the last
      chunk alone ends the stream; what ends up captured is the last fragment. */
  ghost predicate Explains(
    log: seq<Piece>, deltas: seq<Delta>, chunks: seq<string>, captured: Option<string>, offered: seq<string>, size: nat)
  {
    && Rebuilt(log) == ContentOf(deltas) && chunks == SpokenChunks(log) && captured == LastCaptured(log)
    && Legal(log, "", offered, size) && CutsAtToolCalls(log, deltas)
    && log != [] && log[|log| - 1].IsLastCut()
  }

  // The loop's variables around each delta, and what is left of them at the end.
  ghost predicate RunsTo(
    run: seq<Scan>, deltas: seq<Delta>, chunks: seq<string>, captured: Option<string>, offered: seq<string>, size: nat)
  {
    && |run| == |deltas| + 1 && run[0] == START
    && (forall i :: 0 <= i < |deltas| ==> Steps(run[i], deltas[i], run[i + 1], offered, size))
    && var last := run[|deltas|];
       chunks == last.chunks + [last.buffer]
       && captured == (if last.toolBuffer.Some? then last.toolBuffer else last.captured)
  }

  /** MAIN: with synthesis on, for every sequence of deltas, the yielded chunks and the captured call are
      explained by a log of the whole stream, and are those of the loop's run. */
  method StreamContent(deltas: seq<Delta>, offered: seq<string>, size: nat)
    returns (chunks: seq<string>, captured: Option<string>)
    ensures exists log :: Explains(log, deltas, chunks, captured, offered, size)
    ensures exists run :: RunsTo(run, deltas, chunks, captured, offered, size)
  {
    hide Told, Legal, Rebuilt, SpokenChunks, Fragments, ToolCallEnd, ContentOf, LastCaptured, CutsAtToolCalls,
      NoToolCuts, Steps;
    var s := START;
    ghost var log: seq<Piece>, run := [], [s];
    ToldAtStart(deltas, offered, size);
    for i := 0 to |deltas|
      invariant s.IsOpen() && Told(ContentOf(deltas[..i]), s, log, offered, size)
      invariant CutsAtToolCalls(log, deltas)
      invariant |run| == i + 1 && run[0] == START && run[i] == s
      invariant forall k :: 0 <= k < i ==> Steps(run[k], deltas[k], run[k + 1], offered, size)
    {
      s, log := OnDelta(s, deltas, i, offered, size, log);
      run := run + [s];
    }
    assert deltas[..|deltas|] == deltas;
    ghost var before := log;
    s, log := Finish(s, offered, size, ContentOf(deltas), log);
    LastPieces(before, log, deltas);
    chunks, captured := s.chunks, s.captured;
    assert Explains(log, deltas, chunks, captured, offered, size);
    assert RunsTo(run, deltas, chunks, captured, offered, size);
  }

  lemma LastPieces(log: seq<Piece>, log': seq<Piece>, deltas: seq<Delta>)
    requires CutsAtToolCalls(log, deltas) && log <= log'
    requires forall p :: p in log'[|log|..] ==> !p.IsToolCut()
    ensures CutsAtToolCalls(log', deltas)
  {
    CutsStay(log, log', deltas);
  }

  // One turn of the loop.
  method OnDelta(s: Scan, deltas: seq<Delta>, i: nat, offered: seq<string>, size: nat, ghost log: seq<Piece>)
    returns (s': Scan, ghost log': seq<Piece>)
    requires i < |deltas| && s.IsOpen() && Told(ContentOf(deltas[..i]), s, log, offered, size)
    requires CutsAtToolCalls(log, deltas)
    ensures s'.IsOpen() && Told(ContentOf(deltas[..i + 1]), s', log', offered, size)
    ensures CutsAtToolCalls(log', deltas)
    ensures Steps(s, deltas[i], s', offered, size)
  {
    hide Told, Rebuilt, ToolCallEnd, ContentOf, CutsAtToolCalls, NoToolCuts, Steps;
    ghost var received := ContentOf(deltas[..i]);
    NextDelta(deltas, i);
    match deltas[i] {
      case Content(text) =>
        s', log' := OnContent(s, text, offered, size, received, log);
        CutsStay(log, log', deltas);
      case ToolCalls =>
        s', log' := OnToolCalls(s, offered, size, received, log);
        assert received + "" == received;
        if s.buffer != "" { CutHere(log, Spoken(s.buffer, BeforeToolCalls), deltas, i); }
    }
  }

  // ---------- When a call is spoken after all ----------

  /** A spoken chunk that holds the start of a call was cut by the end of the stream or by tool calls, and it
      is what came behind a captured call in the same delta, or what the last space cut kept: text the loop
      did not scan again. */
  lemma SpokenCallIsUnscanned(log: seq<Piece>, i: nat, offered: seq<string>, size: nat)
    requires i < |log| && Legal(log, "", offered, size)
    requires log[i].Spoken? && !NoCall(log[i].text, offered)
    ensures log[i].IsToolCut() || (log[i].IsLastCut() && i + 1 == |log|)
    ensures (i >= 1 && log[i - 1].Newlines?)
      || (i >= 2 && log[i - 2].IsSpaceCut() && log[i - 2].why.rest == log[i].text)
  {
    hide BeginsCall, ToolCallEnd, Rebuilt;
    assert LegalAt(log, i, "", offered, size);
    match log[i].why {
      case AtSpace(rest) =>
        Associates(log[i].text, " ", rest);
        NoCallInFront(log[i].text, " " + rest, offered);
      case _ =>
    }
  }

  lemma NoCallInFront(text: string, more: string, offered: seq<string>)
    requires NoCall(text + more, offered)
    ensures NoCall(text, offered)
  {
    hide BeginsCall;
    forall j: nat ensures !BeginsCall(text, offered, j) { BeginsCallGrows(text, more, offered, j); }
  }

  // The chunks that hold the start of a call.
  ghost predicate HoldsCall(chunks: seq<string>, offered: seq<string>) {
    exists c :: c in chunks && !NoCall(c, offered)
  }

  // The buffer is spoken as it stands after i deltas, and a call begins in it.
  ghost predicate CallSpokenAt(run: seq<Scan>, deltas: seq<Delta>, i: nat, offered: seq<string>)
    requires |run| == |deltas| + 1 && i <= |deltas|
  {
    (i == |deltas| || deltas[i].ToolCalls?) && !NoCall(run[i].buffer, offered)
  }

  lemma StepSpeaks(s: Scan, d: Delta, s': Scan, offered: seq<string>, size: nat)
    requires Steps(s, d, s', offered, size)
    ensures HoldsCall(s'.chunks, offered) <==>
      HoldsCall(s.chunks, offered) || (d.ToolCalls? && !NoCall(s.buffer, offered))
  {
    hide BeginsCall, ToolCallEnd, NoCall;
    if d.Content? {
      var text := s.buffer + d.text;
      if s.toolBuffer.Some? {
        assert s'.chunks == s.chunks;
      } else if !NoCall(text, offered) {
        var idx: nat :| idx < |text| && EarliestCall(text, offered, idx) && s' == Begun(s, text, idx);
        NoCallBefore(text, offered, idx);
        assert s'.chunks == s.chunks || s'.chunks == s.chunks + [text[..idx]];
      } else if |text| >= size {
        var head: string :| s' == s.(chunks := s.chunks + [head], buffer := s'.buffer)
          && (' ' in text ==> text == head + " " + s'.buffer) && (' ' !in text ==> text == head);
        if ' ' in text {
          Associates(head, " ", s'.buffer);
          NoCallInFront(head, " " + s'.buffer, offered);
        }
      }
    } else {
      NoCallInNothing(offered);
    }
  }

  lemma {:induction false} SpokenSoFar(
    run: seq<Scan>, deltas: seq<Delta>, chunks: seq<string>, captured: Option<string>, offered: seq<string>, size: nat,
    n: nat)
    requires RunsTo(run, deltas, chunks, captured, offered, size) && n <= |deltas|
    ensures HoldsCall(run[n].chunks, offered) <==>
      exists i: nat :: i < n && CallSpokenAt(run, deltas, i, offered)
  {
    hide Steps, NoCall;
    if n > 0 {
      SpokenSoFar(run, deltas, chunks, captured, offered, size, n - 1);
      StepSpeaks(run[n - 1], deltas[n - 1], run[n], offered, size);
      if HoldsCall(run[n].chunks, offered) && !HoldsCall(run[n - 1].chunks, offered) {
        assert CallSpokenAt(run, deltas, n - 1, offered);
      }
    }
  }

  /** MAIN: the loop speaks the start of a call if and only if the stream ends, or tool calls come, while one
      stands in the buffer. */
  lemma SpeaksCallIff(
    run: seq<Scan>, deltas: seq<Delta>, chunks: seq<string>, captured: Option<string>, offered: seq<string>, size: nat)
    requires RunsTo(run, deltas, chunks, captured, offered, size)
    ensures HoldsCall(chunks, offered) <==>
      exists i: nat :: i <= |deltas| && CallSpokenAt(run, deltas, i, offered)
  {
    hide Steps, NoCall;
    var n := |deltas|;
    SpokenSoFar(run, deltas, chunks, captured, offered, size, n);
    if HoldsCall(chunks, offered) && !HoldsCall(run[n].chunks, offered) {
      assert CallSpokenAt(run, deltas, n, offered);
    }
    if CallSpokenAt(run, deltas, n, offered) {
      assert run[n].buffer in chunks;
    }
    if HoldsCall(run[n].chunks, offered) {
      var c :| c in run[n].chunks && !NoCall(c, offered);
      assert c in chunks;
    }
  }

  // A capture ends with this delta.
  ghost predicate Captures(s: Scan, content: string, s': Scan, offered: seq<string>) {
    (s.toolBuffer.Some? || !NoCall(s.buffer + content, offered)) && s'.toolBuffer.None?
  }

  // This delta has the buffer cut at a space.
  ghost predicate CutsAtSpace(s: Scan, content: string, s': Scan, size: nat) {
    && s.toolBuffer.None? && |s.buffer + content| >= size
    && exists head: string :: s'.chunks == s.chunks + [head] && s.buffer + content == head + " " + s'.buffer
  }

  /** And one gets into the buffer only behind a call whose capture has just ended, or as what a space cut
      keeps. */
  lemma CallLeftInBuffer(s: Scan, content: string, s': Scan, offered: seq<string>, size: nat)
    requires Steps(s, Content(content), s', offered, size)
    requires !NoCall(s'.buffer, offered) && s'.toolBuffer.None?
    ensures Captures(s, content, s', offered) || CutsAtSpace(s, content, s', size)
  {
    hide BeginsCall, ToolCallEnd, NoCall;
    NoCallInNothing(offered);
    var text := s.buffer + content;
    if s.toolBuffer.None? && NoCall(text, offered) && |text| >= size {
      var head: string :| s' == s.(chunks := s.chunks + [head], buffer := s'.buffer)
        && (' ' in text ==> text == head + " " + s'.buffer) && (' ' !in text ==> text == head && s'.buffer == "");
      assert ' ' in text;
    }
  }

  /** A second call in the delta that completes the first is such text: with a complete call `first` in front,
      whatever follows it is spoken when the stream ends there. */
  lemma SecondCallIsSpoken(first: string, second: string, offered: seq<string>, size: nat)
    requires DottedName(first, 0) && BareEnd(first) == |first|
    requires second != "" && second[0] != ';' && second[0] != '\n'
    ensures forall run, chunks, captured :: RunsTo(run, [Content(first + second)], chunks, captured, offered, size) ==>
      chunks == [second] && captured == Some(first)
  {
    hide DottedName, ToolCallEnd, BareEnd, Begun, BeginsCall;
    var text := first + second;
    FirstCallTaken(first, second, offered);
    forall run, chunks, captured | RunsTo(run, [Content(text)], chunks, captured, offered, size)
      ensures chunks == [second] && captured == Some(first)
    {
      assert Steps(run[0], Content(text), run[1], offered, size);
      assert START.buffer + text == text;
      var idx: nat :| idx < |text| && EarliestCall(text, offered, idx) && run[1] == Begun(START, text, idx);
      assert idx == 0;
    }
  }

  lemma FirstCallTaken(first: string, second: string, offered: seq<string>)
    requires DottedName(first, 0) && BareEnd(first) == |first|
    requires second != "" && second[0] != ';' && second[0] != '\n'
    ensures var text := first + second;
      && text != "" && BeginsCall(text, offered, 0)
      && Begun(START, text, 0) == Scan(second, None, Some(first), [])
  {
    var text := first + second;
    StartsWithHead(first);
    EndIsPrefixStable(first, second);
    PrefixStable(first, second, 0);
    hide ToolCallEnd, BareEnd, PrefixAt;
    assert text[0..] == text && text[..|first|] == first && text[|first|..] == second;
    assert StripNewlines(second).1 == second;
  }

  // ---------- A call and the speech behind it ----------

  /** Plain text in one delta is spoken as it is, cut at its last space when it fills the buffer. */
  lemma PlainSpeech(
    run: seq<Scan>, text: string, chunks: seq<string>, captured: Option<string>, offered: seq<string>, size: nat)
    requires NoCall(text, offered) && RunsTo(run, [Content(text)], chunks, captured, offered, size)
    ensures captured.None?
    ensures |text| < size ==> chunks == [text]
    ensures |text| >= size && ' ' !in text ==> chunks == [text, ""]
    ensures |text| >= size && ' ' in text ==>
      |chunks| == 2 && text == chunks[0] + " " + chunks[1] && ' ' !in chunks[1]
  {
    hide NoCall;
    assert Steps(run[0], Content(text), run[1], offered, size);
    assert START.buffer + text == text;
  }

  // A call that has not arrived in full has no end.
  lemma OpenPrefix(name: string, gap: string, body: string, p: string)
    requires IsName(name) && IsGap(gap) && BracketFree(body)
    requires p < CallText(name, gap, body) && |p| > 10
    ensures ToolCallEnd(p) < 0 && DottedName(p, 0)
  {
    var call := CallText(name, gap, body);
    CallIsComplete(name, gap, body, "");
    var more := call[|p|..];
    assert call == p + more && call[|call| - 1] == ')' && more[|more| - 1] == ')';
    assert p[..10] == call[..10] && p[10] == call[10];
    assert DottedName(p, 0);
    hide CallText, DottedName, ToolCallEnd;
    if ToolCallEnd(p) >= 0 {
      assert PrefixAt(p, 0) by { DottedStarts(p); }
      StartsWithHead(p);
      EndIsPrefixStable(p, more);
    }
  }

  lemma DottedStarts(text: string)
    requires DottedName(text, 0)
    ensures PrefixAt(text, 0)
  {
  }

  // The loop while the call comes in: everything is held, nothing is spoken.
  lemma {:induction false} HoldsTheCall(
    run: seq<Scan>, contents: seq<string>, offered: seq<string>, size: nat, name: string, gap: string, body: string,
    k: nat)
    requires IsName(name) && IsGap(gap) && BracketFree(body)
    requires 1 <= k <= |contents| && |run| > k && run[0] == START && |contents[0]| > 10
    requires forall i :: 0 <= i < k ==> Steps(run[i], Content(contents[i]), run[i + 1], offered, size)
    requires Joined(contents[..k]) < CallText(name, gap, body)
    ensures run[k] == Scan("", Some(Joined(contents[..k])), None, [])
  {
    hide Steps, CallText, ToolCallEnd, DottedName;
    var so := Joined(contents[..k]);
    JoinedMore(contents, k - 1);
    if k == 1 {
      assert contents[..0] == [] && so == contents[0];
      OpenPrefix(name, gap, body, so);
      FirstStep(run[1], so, offered, size);
    } else {
      var before := Joined(contents[..k - 1]);
      assert before <= so;
      HoldsTheCall(run, contents, offered, size, name, gap, body, k - 1);
      FirstIsIn(contents, k);
      OpenPrefix(name, gap, body, so);
      assert Steps(run[k - 1], Content(contents[k - 1]), run[k], offered, size);
      NextStep(run[k - 1], before, contents[k - 1], run[k], offered, size);
    }
  }

  lemma JoinedMore(contents: seq<string>, k: nat)
    requires k < |contents|
    ensures Joined(contents[..k + 1]) == Joined(contents[..k]) + contents[k]
  {
    JoinedAppend(contents[..k], [contents[k]]);
    assert contents[..k + 1] == contents[..k] + [contents[k]];
    assert [contents[k]][1..] == [] && Joined([contents[k]]) == contents[k] + "";
  }

  lemma {:induction false} JoinedAppend(a: seq<string>, b: seq<string>)
    ensures Joined(a + b) == Joined(a) + Joined(b)
  {
    if a == [] {
      assert a + b == b;
    } else {
      assert (a + b)[0] == a[0] && (a + b)[1..] == a[1..] + b;
      JoinedAppend(a[1..], b);
      Associates(a[0], Joined(a[1..]), Joined(b));
    }
  }

  lemma {:induction false} FirstIsIn(contents: seq<string>, k: nat)
    requires 1 <= k <= |contents|
    ensures |Joined(contents[..k])| >= |contents[0]|
  {
    assert contents[..k][0] == contents[0];
  }

  lemma FirstStep(s: Scan, text: string, offered: seq<string>, size: nat)
    requires Steps(START, Content(text), s, offered, size) && DottedName(text, 0)
    ensures s == Settled(Scan("", Some(text), None, []))
  {
    hide DottedName, Settled, Flushed;
    assert START.buffer + text == text && text[0..] == text;
    assert BeginsCall(text, offered, 0);
  }

  lemma NextStep(s: Scan, held: string, content: string, s': Scan, offered: seq<string>, size: nat)
    requires s == Scan("", Some(held), None, []) && Steps(s, Content(content), s', offered, size)
    ensures s' == Settled(Scan("", Some(held + content), None, []))
  {
    hide Settled, Flushed, BeginsCall, EarliestCall;
  }

  // Newlines and what follows them.
  lemma {:induction false} StripAll(newlines: string, after: string)
    requires OnlyNewlines(newlines) && (after == "" || after[0] != '\n')
    ensures StripNewlines(newlines + after).1 == after
  {
    if newlines == "" {
      assert newlines + after == after;
    } else {
      assert (newlines + after)[1..] == newlines[1..] + after;
      StripAll(newlines[1..], after);
    }
  }

  /** MAIN: a call, newlines and speech, the call cut into deltas in any way once it has begun: exactly the call
      is captured and exactly the speech is spoken.  The call may be any dotted name of letters, digits and
      underscores with a bracketed body; the last delta brings its end and everything behind it. */
  lemma CallThenSpeech(
    run: seq<Scan>, contents: seq<string>, deltas: seq<Delta>, chunks: seq<string>, captured: Option<string>,
    offered: seq<string>, size: nat, name: string, gap: string, body: string, newlines: string, after: string)
    requires IsName(name) && IsGap(gap) && BracketFree(body)
    requires OnlyNewlines(newlines) && (after == "" || (after[0] != '\n' && (after[0] != ';' || newlines != "")))
    requires contents != [] && Joined(contents) == CallText(name, gap, body) + (newlines + after)
    requires |contents[0]| > 10 && Joined(contents[..|contents| - 1]) < CallText(name, gap, body)
    requires |deltas| == |contents| && forall i :: 0 <= i < |deltas| ==> deltas[i] == Content(contents[i])
    requires RunsTo(run, deltas, chunks, captured, offered, size)
    ensures captured == Some(CallText(name, gap, body)) && chunks == [after]
  {
    hide Steps, ToolCallEnd, CallText, DottedName, StripNewlines;
    var n, call, rest := |contents| - 1, CallText(name, gap, body), newlines + after;
    CallIsComplete(name, gap, body, rest);
    JoinedMore(contents, n);
    assert contents[..n + 1] == contents;
    assert Steps(run[n], Content(contents[n]), run[n + 1], offered, size);
    if n == 0 {
      assert contents[..0] == [] && Joined(contents) == contents[0];
      DottedGrows(call, rest);
      FirstStep(run[1], contents[0], offered, size);
    } else {
      forall i | 0 <= i < n ensures Steps(run[i], Content(contents[i]), run[i + 1], offered, size) {
        assert Steps(run[i], deltas[i], run[i + 1], offered, size);
      }
      HoldsTheCall(run, contents, offered, size, name, gap, body, n);
      NextStep(run[n], Joined(contents[..n]), contents[n], run[n + 1], offered, size);
    }
    assert rest != "" && rest[0] == ';' ==> newlines == "" && rest == after;
    assert (call + rest)[..|call|] == call && (call + rest)[|call|..] == rest;
    StripAll(newlines, after);
  }

  lemma DottedGrows(text: string, more: string)
    requires DottedName(text, 0)
    ensures DottedName(text + more, 0)
  {
    PrefixStable(text, more, 0);
  }

  // ---------- What is captured does not depend on the cutting ----------

  // A capture that content deltas keep feeding until it ends.
  function GrownOver(s: Scan, contents: seq<string>): Scan
    decreases |contents|
  {
    if contents == [] || s.toolBuffer.None? then s else GrownOver(Grown(s, contents[0]), contents[1..])
  }

  /** The loop captures what `Captured` says of the text from the call's start on, so its capture depends
      on how that text is cut into deltas as little as `Captured` does. */
  lemma {:induction false} LoopCaptures(s: Scan, contents: seq<string>)
    requires s.toolBuffer.Some? && s.IsOpen()
    ensures var s' := GrownOver(s, contents);
      Captured(s.toolBuffer.value, contents) == if s'.toolBuffer.Some? then None else s'.captured
    decreases |contents|
  {
    hide ToolCallEnd;
    if contents != [] {
      var s1 := Grown(s, contents[0]);
      if s1.toolBuffer.Some? {
        LoopCaptures(s1, contents[1..]);
      }
    }
  }

  /** So from a given start, however the text from it on is cut into deltas, the loop captures a call in
      both cases or in none, and the same text up to a final semicolon. */
  lemma LoopCaptureIgnoresChunking(s1: Scan, c1: seq<string>, s2: Scan, c2: seq<string>)
    requires s1.toolBuffer.Some? && s1.IsOpen() && s2.toolBuffer.Some? && s2.IsOpen()
    requires PrefixAt(s1.toolBuffer.value, 0) && PrefixAt(s2.toolBuffer.value, 0)
    requires s1.toolBuffer.value + Joined(c1) == s2.toolBuffer.value + Joined(c2)
    ensures var e1, e2 := GrownOver(s1, c1), GrownOver(s2, c2);
      && (e1.toolBuffer.Some? <==> e2.toolBuffer.Some?)
      && (e1.toolBuffer.None? ==>
            && e1.captured.Some? && e2.captured.Some?
            && (e1.captured == e2.captured
                || e1.captured.value == e2.captured.value + ";" || e2.captured.value == e1.captured.value + ";"))
  {
    hide ToolCallEnd, Captured, Joined, PrefixAt;
    LoopCaptures(s1, c1);
    LoopCaptures(s2, c2);
    CaptureIgnoresChunking(s1.toolBuffer.value, c1, s2.toolBuffer.value, c2);
    EndedIsCaptured(s1, c1);
    EndedIsCaptured(s2, c2);
  }

  lemma {:induction false} EndedIsCaptured(s: Scan, contents: seq<string>)
    requires s.toolBuffer.Some?
    ensures GrownOver(s, contents).toolBuffer.None? ==> GrownOver(s, contents).captured.Some?
    decreases |contents|
  {
    hide ToolCallEnd;
    if contents != [] && Grown(s, contents[0]).toolBuffer.Some? {
      EndedIsCaptured(Grown(s, contents[0]), contents[1..]);
    }
  }
}

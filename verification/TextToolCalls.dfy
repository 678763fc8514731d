/** Scanners for tool calls narrated as plain text: where one starts and where it ends. */
module TextToolCalls {
  import opened Wrappers
  import opened Sequences
  import opened TextOps

  const PREFIX := "functions."

  // The regex class \w, on ASCII
  predicate IsWord(c: char) {
    'a' <= c <= 'z' || 'A' <= c <= 'Z' || '0' <= c <= '9' || c == '_'
  }

  predicate IsOpen(c: char) { c == '(' || c == '{' }

  predicate IsClose(c: char) { c == ')' || c == '}' }

  predicate PrefixAt(text: string, i: nat) {
    i + |PREFIX| <= |text| && text[i..i + |PREFIX|] == PREFIX
  }

  // ---------- The head: functions\.\w+\s*[({] ----------

  function WordEnd(text: string, i: nat): (j: nat)
    requires i <= |text|
    ensures i <= j <= |text|
    ensures forall k :: i <= k < j ==> IsWord(text[k])
    ensures j < |text| ==> !IsWord(text[j])
    decreases |text| - i
  {
    if i < |text| && IsWord(text[i]) then WordEnd(text, i + 1) else i
  }

  function SpaceEnd(text: string, i: nat): (j: nat)
    requires i <= |text|
    ensures i <= j <= |text|
    ensures forall k :: i <= k < j ==> IsSpace(text[k])
    ensures j < |text| ==> !IsSpace(text[j])
    decreases |text| - i
  {
    if i < |text| && IsSpace(text[i]) then SpaceEnd(text, i + 1) else i
  }

  // The opening bracket of a head that starts at i, or -1.
  function HeadAt(text: string, i: nat): (o: int)
    ensures o < |text|
    ensures o >= 0 ==> IsOpen(text[o])
  {
    if !PrefixAt(text, i) then -1
    else
      var w := WordEnd(text, i + |PREFIX|);
      var o := SpaceEnd(text, w);
      if w > i + |PREFIX| && o < |text| && IsOpen(text[o]) then o else -1
  }

  // The opening bracket of the leftmost head at or after i, or -1.
  function FirstHead(text: string, i: nat): (o: int)
    requires i <= |text|
    ensures o < |text|
    decreases |text| - i
  {
    if HeadAt(text, i) >= 0 then HeadAt(text, i)
    else if i == |text| then -1
    else FirstHead(text, i + 1)
  }

  // Where the bracket counting starts: the head's bracket, or a bare leading brace, or nowhere.
  function CountFrom(text: string): int {
    if FirstHead(text, 0) >= 0 then FirstHead(text, 0)
    else if LStrip(text) != "" && LStrip(text)[0] == '{' then |text| - |LStrip(text)|
    else -1
  }

  // The index behind the bracket that returns the count to zero, or -1.
  function CloseFrom(text: string, i: nat, depth: nat): (e: int)
    requires i <= |text|
    ensures e == -1 || i < e <= |text|
    decreases |text| - i
  {
    if i == |text| then -1
    else if IsOpen(text[i]) then CloseFrom(text, i + 1, depth + 1)
    else if IsClose(text[i]) && depth == 1 then i + 1
    else CloseFrom(text, i + 1, if IsClose(text[i]) && depth > 0 then depth - 1 else depth)
  }

  lemma {:induction false} LStripIsSuffix(s: string)
    ensures |LStrip(s)| <= |s| && LStrip(s) == s[|s| - |LStrip(s)|..]
    ensures forall k :: 0 <= k < |s| - |LStrip(s)| ==> IsSpace(s[k])
    ensures LStrip(s) != "" ==> !IsSpace(LStrip(s)[0])
  {
    if s != "" && IsSpace(s[0]) {
      LStripIsSuffix(s[1..]);
      var n := |s| - |LStrip(s)|;
      forall k | 0 <= k < n ensures IsSpace(s[k]) { if k > 0 { assert s[k] == s[1..][k - 1]; } }
    }
  }

  lemma CountFromBracket(text: string)
    ensures -1 <= CountFrom(text) < |text|
    ensures CountFrom(text) >= 0 ==> IsOpen(text[CountFrom(text)])
  {
    LStripIsSuffix(text);
    if FirstHead(text, 0) >= 0 { var s := HeadFound(text, 0); }
  }

  lemma {:induction false} HeadFound(text: string, i: nat) returns (s: nat)
    requires i <= |text| && FirstHead(text, i) >= 0
    ensures i <= s <= |text| && HeadAt(text, s) == FirstHead(text, i)
    ensures forall k :: i <= k < s ==> HeadAt(text, k) < 0
    ensures IsOpen(text[FirstHead(text, i)])
    decreases |text| - i
  {
    hide HeadAt;
    if HeadAt(text, i) >= 0 { s := i; } else { s := HeadFound(text, i + 1); }
  }

  lemma {:induction false} NoHead(text: string, i: nat)
    requires i <= |text|
    ensures FirstHead(text, i) < 0 <==> forall k :: i <= k <= |text| ==> HeadAt(text, k) < 0
    decreases |text| - i
  {
    hide HeadAt;
    if HeadAt(text, i) < 0 && i < |text| { NoHead(text, i + 1); }
  }

  // The end of the bracket run, leaving a trailing semicolon aside.
  function BareEnd(text: string): int {
    CountFromBracket(text);
    if CountFrom(text) < 0 then -1 else CloseFrom(text, CountFrom(text), 0)
  }

  // The index behind a complete narrated call, or -1.
  function ToolCallEnd(text: string): (e: int)
    ensures -1 <= e <= |text|
  {
    var e := BareEnd(text);
    if 0 <= e < |text| && text[e] == ';' then e + 1 else e
  }

  method FindToolCallEnd(text: string) returns (end: int)
    ensures end == ToolCallEnd(text)
  {
    var start := CountFrom(text);
    CountFromBracket(text);
    if start < 0 {
      return -1;
    }
    var depth := 0;
    for i := start to |text|
      invariant depth >= 0 && (i > start ==> depth > 0)
      invariant CloseFrom(text, start, 0) == CloseFrom(text, i, depth)
    {
      if IsOpen(text[i]) {
        depth := depth + 1;
      } else if IsClose(text[i]) {
        depth := depth - 1;
        if depth == 0 {
          end := i + 1;
          if end < |text| && text[end] == ';' {
            end := end + 1;
          }
          return;
        }
      }
    }
    end := -1;
  }

  // ---------- The slice closes the bracket run ----------

  // Brackets still open after text[from..to].
  function Depth(text: string, from: nat, to: nat): int
    requires from <= to <= |text|
  {
    if from == to then 0
    else Depth(text, from, to - 1)
         + (if IsOpen(text[to - 1]) then 1 else if IsClose(text[to - 1]) then -1 else 0)
  }

  lemma {:induction false} CloseIsFirstZero(text: string, from: nat, i: nat, depth: nat)
    requires from <= i <= |text| && depth == Depth(text, from, i)
    requires depth > 0 || (i == from < |text| && IsOpen(text[i]))
    ensures var e := CloseFrom(text, i, depth);
      && (forall k | i < k <= |text| && (e < 0 || k < e) :: Depth(text, from, k) > 0)
      && (e >= 0 ==> Depth(text, from, e) == 0)
    decreases |text| - i
  {
    if i < |text| {
      var d := Depth(text, from, i + 1);
      if d > 0 {
        CloseIsFirstZero(text, from, i + 1, d);
      }
    }
  }

  /** MAIN: the returned slice ends at the first return of the bracket depth to zero, counted from the
      first bracket, plus at most one semicolon; -1 means the depth never returns to zero. */
  lemma EndClosesTheRun(text: string)
    requires CountFrom(text) >= 0
    ensures var from := CountFrom(text); var e := BareEnd(text);
      && from < |text|
      && (forall k | from < k <= |text| && (e < 0 || k < e) :: Depth(text, from, k) > 0)
      && (e >= 0 ==> from < e <= |text| && Depth(text, from, e) == 0)
      && (e >= 0 ==> ToolCallEnd(text) == if e < |text| && text[e] == ';' then e + 1 else e)
  {
    CountFromBracket(text);
    CloseIsFirstZero(text, CountFrom(text), CountFrom(text), 0);
  }

  // ---------- Prefix stability ----------

  lemma {:induction false} CloseStable(t: string, u: string, i: nat, depth: nat)
    requires i <= |t| && CloseFrom(t, i, depth) >= 0
    ensures CloseFrom(t + u, i, depth) == CloseFrom(t, i, depth)
    decreases |t| - i
  {
    if i < |t| {
      assert (t + u)[i] == t[i];
      if IsOpen(t[i]) {
        CloseStable(t, u, i + 1, depth + 1);
      } else if !(IsClose(t[i]) && depth == 1) {
        CloseStable(t, u, i + 1, if IsClose(t[i]) && depth > 0 then depth - 1 else depth);
      }
    }
  }

  // A head says what every character of it is.
  lemma HeadShape(text: string, i: nat) returns (w: nat)
    requires HeadAt(text, i) >= 0
    ensures PrefixAt(text, i) && i + |PREFIX| < w <= HeadAt(text, i)
    ensures forall k :: i + |PREFIX| <= k < w ==> IsWord(text[k])
    ensures forall k :: w <= k < HeadAt(text, i) ==> IsSpace(text[k])
    ensures IsOpen(text[HeadAt(text, i)])
    ensures text[i + |PREFIX| - 1] == '.'
  {
    w := WordEnd(text, i + |PREFIX|);
    assert text[i..i + |PREFIX|][|PREFIX| - 1] == '.';
  }

  lemma HeadFromShape(text: string, i: nat, w: nat, o: nat)
    requires PrefixAt(text, i) && i + |PREFIX| < w <= o < |text|
    requires forall k :: i + |PREFIX| <= k < w ==> IsWord(text[k])
    requires forall k :: w <= k < o ==> IsSpace(text[k])
    requires IsOpen(text[o])
    ensures HeadAt(text, i) == o
  {
    var w' := WordEnd(text, i + |PREFIX|);
    assert !IsWord(text[w]) by { if w < o { assert IsSpace(text[w]); } }
    assert w' == w;
    assert SpaceEnd(text, w) == o;
  }

  lemma PrefixStable(t: string, u: string, i: nat)
    requires i + |PREFIX| <= |t|
    ensures PrefixAt(t + u, i) <==> PrefixAt(t, i)
  {
    assert (t + u)[i..i + |PREFIX|] == t[i..i + |PREFIX|];
  }

  // A head of t + u whose bracket lies in t is a head of t, and the other way round.
  lemma HeadStable(t: string, u: string, i: nat)
    ensures HeadAt(t, i) >= 0 ==> HeadAt(t + u, i) == HeadAt(t, i)
    ensures 0 <= HeadAt(t + u, i) < |t| ==> HeadAt(t, i) == HeadAt(t + u, i)
  {
    if HeadAt(t, i) >= 0 {
      var w := HeadShape(t, i);
      PrefixStable(t, u, i);
      HeadFromShape(t + u, i, w, HeadAt(t, i));
    }
    if 0 <= HeadAt(t + u, i) < |t| {
      var w := HeadShape(t + u, i);
      PrefixStable(t, u, i);
      forall k | i + |PREFIX| <= k <= HeadAt(t + u, i) ensures t[k] == (t + u)[k] {}
      HeadFromShape(t, i, w, HeadAt(t + u, i));
    }
  }

  lemma NoDotInHead(text: string, i: nat, k: nat)
    requires i + |PREFIX| <= k < HeadAt(text, i)
    ensures text[k] != '.'
  {
    var w := HeadShape(text, i);
    assert k < w ==> IsWord(text[k]);
  }

  // A head that runs across the end of t leaves no room for a later head inside t.
  lemma NoLaterHead(t: string, u: string, i: nat, s: nat)
    requires HeadAt(t + u, i) >= |t| && i < s
    ensures HeadAt(t, s) < 0
  {
    if HeadAt(t, s) >= 0 {
      var v := HeadShape(t, s);
      NoDotInHead(t + u, i, s + |PREFIX| - 1);
      assert false;
    }
  }

  lemma FirstHeadStable(t: string, u: string)
    requires FirstHead(t, 0) >= 0
    ensures FirstHead(t + u, 0) == FirstHead(t, 0)
  {
    var s := HeadFound(t, 0);
    forall k | 0 <= k < s ensures HeadAt(t + u, k) < 0 {
      HeadStable(t, u, k);
      if HeadAt(t + u, k) >= |t| { NoLaterHead(t, u, k, s); }
    }
    HeadStable(t, u, s);
    SkipTo(t + u, 0, s);
  }

  lemma {:induction false} SkipTo(text: string, i: nat, s: nat)
    requires i <= s <= |text| && HeadAt(text, s) >= 0
    requires forall k :: i <= k < s ==> HeadAt(text, k) < 0
    ensures FirstHead(text, i) == HeadAt(text, s)
    decreases s - i
  {
    hide HeadAt;
    if i < s { SkipTo(text, i + 1, s); }
  }

  // One more character behind a bare end can only be the call's semicolon.
  function Extended(t: string, u: string): int {
    if BareEnd(t) == |t| && u != "" && u[0] == ';' then |t| + 1 else ToolCallEnd(t)
  }

  /** MAIN: once a text with a `functions.name(` head has an end, every extension has the same end,
      or one more for a semicolon that arrives right at it. */
  lemma EndIsPrefixStable(t: string, u: string)
    requires FirstHead(t, 0) >= 0 && ToolCallEnd(t) >= 0
    ensures BareEnd(t + u) == BareEnd(t)
    ensures ToolCallEnd(t + u) == Extended(t, u)
    ensures ToolCallEnd(t + u) == ToolCallEnd(t)
      || (ToolCallEnd(t) == |t| && u != "" && u[0] == ';' && ToolCallEnd(t + u) == |t| + 1)
  {
    FirstHeadStable(t, u);
    CountFromBracket(t);
    CloseStable(t, u, CountFrom(t), 0);
    EndCharacter(t, u);
  }

  lemma EndCharacter(t: string, u: string)
    requires BareEnd(t) >= 0 && BareEnd(t + u) == BareEnd(t)
    ensures ToolCallEnd(t + u) == Extended(t, u)
  {
    var e := BareEnd(t);
    CountFromBracket(t);
    if e < |t| { assert (t + u)[e] == t[e]; }
    else if u != "" { assert (t + u)[e] == u[0]; }
  }

  lemma {:induction false} LStripAppend(t: string, u: string)
    requires LStrip(t) != ""
    ensures LStrip(t + u) == LStrip(t) + u
  {
    if t != "" && IsSpace(t[0]) {
      LStripAppend(t[1..], u);
      assert (t + u)[1..] == t[1..] + u;
    } else {
      assert (t + u)[0] == t[0];
    }
  }

  /** A bare `{...}` has no such protection: its end survives an extension exactly when the extension
      brings no `functions.name(` head, which would take the scan over. */
  lemma BareBraceStableIff(t: string, u: string)
    requires FirstHead(t, 0) < 0 && ToolCallEnd(t) >= 0
    ensures ToolCallEnd(t + u) == Extended(t, u) <==> FirstHead(t + u, 0) < 0
  {
    LStripIsSuffix(t);
    LStripAppend(t, u);
    CountFromBracket(t);
    if FirstHead(t + u, 0) < 0 {
      CloseStable(t, u, CountFrom(t), 0);
      EndCharacter(t, u);
    } else {
      var s := HeadFound(t + u, 0);
      HeadStable(t, u, s);
      NoHead(t, 0);
      if s > |t| {
      } else {
        assert HeadAt(t, s) < 0;
      }
      assert HeadAt(t + u, s) >= |t|;
      CountFromBracket(t + u);
      var o := CountFrom(t + u);
      if BareEnd(t + u) >= 0 {
        assert !IsClose((t + u)[o]);
        assert BareEnd(t + u) > o + 1;
      }
    }
  }

  // ---------- Chunking independence ----------

  function Joined(chunks: seq<string>): string {
    if chunks == [] then "" else chunks[0] + Joined(chunks[1..])
  }

  // The fragment captured when the text after a call's start arrives as `buffer`, then chunk by chunk.
  function Captured(buffer: string, chunks: seq<string>): Option<string>
    decreases |chunks|
  {
    if ToolCallEnd(buffer) >= 0 then Some(buffer[..ToolCallEnd(buffer)])
    else if chunks == [] then None
    else Captured(buffer + chunks[0], chunks[1..])
  }

  // One complete call, with or without its semicolon.
  predicate IsFragmentOf(f: string, text: string) {
    var b := BareEnd(text);
    && 0 <= b <= |text|
    && (f == text[..b] || (b < |text| && text[b] == ';' && f == text[..b + 1]))
  }

  lemma StartsWithHead(text: string)
    requires PrefixAt(text, 0) && ToolCallEnd(text) >= 0
    ensures FirstHead(text, 0) >= 0
  {
    assert text[0..|PREFIX|][0] == 'f';
  }

  lemma {:induction false} CapturedIsFragment(buffer: string, chunks: seq<string>)
    requires PrefixAt(buffer, 0)
    ensures var text := buffer + Joined(chunks); var f := Captured(buffer, chunks);
      && (f.Some? ==> IsFragmentOf(f.value, text))
      && (f.None? <==> ToolCallEnd(text) < 0)
    decreases |chunks|
  {
    var text := buffer + Joined(chunks);
    if ToolCallEnd(buffer) >= 0 {
      StartsWithHead(buffer);
      EndIsPrefixStable(buffer, Joined(chunks));
      var b := BareEnd(buffer);
      assert text[..b] == buffer[..b];
      if ToolCallEnd(buffer) == b + 1 { assert text[..b + 1] == buffer[..b + 1]; }
    } else if chunks == [] {
      assert text == buffer;
    } else {
      PrefixStable(buffer, chunks[0], 0);
      CapturedIsFragment(buffer + chunks[0], chunks[1..]);
      Associates(buffer, chunks[0], Joined(chunks[1..]));
    }
  }

  /** MAIN: however the text from a call's start on is cut into deltas, a call is captured in one
      chunking exactly when it is in the other, and the fragments agree up to a final semicolon. */
  lemma CaptureIgnoresChunking(b1: string, c1: seq<string>, b2: string, c2: seq<string>)
    requires PrefixAt(b1, 0) && PrefixAt(b2, 0)
    requires b1 + Joined(c1) == b2 + Joined(c2)
    ensures var f1, f2 := Captured(b1, c1), Captured(b2, c2);
      && (f1.Some? <==> f2.Some?)
      && (f1.Some? ==> f1 == f2 || f1.value == f2.value + ";" || f2.value == f1.value + ";")
  {
    hide Captured, ToolCallEnd, BareEnd, PrefixAt;
    CapturedIsFragment(b1, c1);
    CapturedIsFragment(b2, c2);
    var text := b1 + Joined(c1);
    var b := BareEnd(text);
    if 0 <= b < |text| && text[b] == ';' {
      assert text[..b + 1] == text[..b] + ";";
    }
  }

  /** A captured fragment is a complete call all by itself. */
  lemma FragmentIsComplete(text: string)
    requires ToolCallEnd(text) >= 0
    ensures ToolCallEnd(text[..ToolCallEnd(text)]) == ToolCallEnd(text)
  {
    var e := ToolCallEnd(text);
    var t, u := text[..e], text[e..];
    assert t + u == text;
    CountFromBracket(text);
    var b := BareEnd(text);
    if FirstHead(text, 0) >= 0 {
      var s := HeadFound(text, 0);
      assert HeadAt(text, s) < b <= |t|;
      forall k | 0 <= k < s ensures HeadAt(t, k) < 0 { HeadStable(t, u, k); }
      HeadStable(t, u, s);
      SkipTo(t, 0, s);
    } else {
      NoHead(text, 0);
      forall k | 0 <= k <= |t| ensures HeadAt(t, k) < 0 { HeadStable(t, u, k); }
      NoHead(t, 0);
      LeadingBraceKept(t, u);
    }
    CloseCut(t, u, CountFrom(text), 0);
  }

  lemma {:induction false} CloseCut(t: string, u: string, i: nat, depth: nat)
    requires i <= |t| && 0 <= CloseFrom(t + u, i, depth) <= |t|
    ensures CloseFrom(t, i, depth) == CloseFrom(t + u, i, depth)
    decreases |t| - i
  {
    if i < |t| {
      assert (t + u)[i] == t[i];
      if IsOpen(t[i]) {
        CloseCut(t, u, i + 1, depth + 1);
      } else if !(IsClose(t[i]) && depth == 1) {
        CloseCut(t, u, i + 1, if IsClose(t[i]) && depth > 0 then depth - 1 else depth);
      }
    }
  }

  lemma LeadingBraceKept(t: string, u: string)
    requires LStrip(t + u) != "" && |t + u| - |LStrip(t + u)| < |t|
    ensures LStrip(t) != "" && LStrip(t)[0] == LStrip(t + u)[0]
    ensures |t| - |LStrip(t)| == |t + u| - |LStrip(t + u)|
  {
    LStripIsSuffix(t);
    LStripIsSuffix(t + u);
    var n := |t + u| - |LStrip(t + u)|;
    assert (t + u)[n] == t[n] == LStrip(t + u)[0];
    assert !IsSpace(t[n]);
    LStripAppend(t, u);
  }

  // ---------- Where a narrated call starts ----------

  // functions\.\w at i
  predicate DottedName(text: string, i: nat) {
    PrefixAt(text, i) && i + |PREFIX| < |text| && IsWord(text[i + |PREFIX|])
  }

  predicate OccursAt(text: string, name: string, i: nat) {
    i + |name| <= |text| && text[i..i + |name|] == name
  }

  // The first occurrence of a nonempty name, as str.find.
  ghost predicate FirstAt(text: string, name: string, i: nat) {
    OccursAt(text, name, i) && forall j :: 0 <= j < i ==> !OccursAt(text, name, j)
  }

  // `brace` opens a { } wrapper that is still open at i.
  predicate WrapsFrom(text: string, brace: nat, i: nat)
    requires i <= |text|
  {
    brace < i && text[brace] == '{' && '{' !in text[brace + 1..i] && '}' !in text[brace..i]
  }

  // A narrated call begins here: a dotted name, or the open wrapper around an offered tool's name.
  ghost predicate BeginsCall(text: string, offered: seq<string>, i: nat) {
    DottedName(text, i) ||
    exists n, at: nat ::
      0 <= n < |offered| && offered[n] != "" && FirstAt(text, offered[n], at) && WrapsFrom(text, i, at)
  }

  method Find(text: string, name: string) returns (i: int)
    requires name != ""
    ensures i == -1 || (0 <= i && FirstAt(text, name, i))
    ensures i == -1 ==> forall at: nat :: !FirstAt(text, name, at)
  {
    i := 0;
    while i + |name| <= |text|
      invariant 0 <= i
      invariant forall j :: 0 <= j < i ==> !OccursAt(text, name, j)
    {
      if OccursAt(text, name, i) {
        return;
      }
      i := i + 1;
    }
    i := -1;
  }

  lemma InSlice(text: string, lo: nat, k: nat, hi: nat)
    requires lo <= k < hi <= |text|
    ensures text[k] in text[lo..hi]
  {
    assert text[lo..hi][k - lo] == text[k];
  }

  // text.rfind("{", 0, i), and -1 also when a closing brace follows it before i
  method OpenWrapper(text: string, i: nat) returns (brace: int)
    requires i <= |text|
    ensures brace == -1 || (0 <= brace && WrapsFrom(text, brace, i))
    ensures brace == -1 ==> forall b: nat :: !WrapsFrom(text, b, i)
    ensures forall b: nat :: WrapsFrom(text, b, i) ==> b == brace
  {
    brace := i - 1;
    while brace >= 0 && text[brace] != '{'
      invariant -1 <= brace < i
      invariant forall j :: brace < j < i ==> text[j] != '{'
    {
      brace := brace - 1;
    }
    forall b: nat | WrapsFrom(text, b, i) ensures b == brace {
      if b < brace { InSlice(text, b + 1, brace, i); }
    }
    if brace >= 0 && '}' in text[brace..i] {
      brace := -1;
    }
  }

  method FirstDottedName(text: string) returns (idx: int)
    ensures idx == -1 || (0 <= idx && DottedName(text, idx))
    ensures forall j: nat :: DottedName(text, j) ==> 0 <= idx <= j
  {
    idx := 0;
    while idx < |text|
      invariant 0 <= idx
      invariant forall j: nat :: j < idx ==> !DottedName(text, j)
    {
      if DottedName(text, idx) {
        return;
      }
      idx := idx + 1;
    }
    idx := -1;
  }

  /** The earliest index where a narrated call begins, or -1 when none does. */
  method FindTextToolCallStart(text: string, offered: seq<string>) returns (idx: int)
    ensures idx == -1 || (0 <= idx < |text| && BeginsCall(text, offered, idx))
    ensures forall j: nat :: BeginsCall(text, offered, j) ==> 0 <= idx <= j
  {
    idx := FirstDottedName(text);
    for n := 0 to |offered|
      invariant idx == -1 || (0 <= idx < |text| && BeginsCall(text, offered, idx))
      invariant forall j: nat :: DottedName(text, j) ==> 0 <= idx <= j
      invariant forall m, at: nat, j: nat | 0 <= m < n && offered[m] != "" ::
        FirstAt(text, offered[m], at) && WrapsFrom(text, j, at) ==> 0 <= idx <= j
    {
      var name := offered[n];
      if name != "" {
        var i := Find(text, name);
        forall at: nat | FirstAt(text, name, at) ensures i == at {
          assert i != -1 && FirstAt(text, name, i);
          assert at < i ==> !OccursAt(text, name, at);
        }
        if i != -1 {
          var brace := OpenWrapper(text, i);
          if brace != -1 && (idx == -1 || brace < idx) {
            idx := brace;
          }
        }
      }
    }
  }

  /** An offered tool's name inside an object that is still open begins a call at the object's brace, unless a
      brace is closed in between. */
  lemma WrapperBeginsIff(before: string, mid: string, name: string, after: string)
    requires name != "" && '{' !in mid && '.' !in before + "{" + mid + name + after
    requires var text, at := before + "{" + mid + name + after, |before| + 1 + |mid|;
      forall j: nat :: j < at ==> !OccursAt(text, name, j)
    ensures BeginsCall(before + "{" + mid + name + after, [name], |before|) <==> '}' !in mid
  {
    var text, b, at := before + "{" + mid + name + after, |before|, |before| + 1 + |mid|;
    assert text[b] == '{' && text[b + 1..at] == mid && text[at..at + |name|] == name;
    assert text[b..at] == ['{'] + mid;
    assert FirstAt(text, name, at);
    assert !DottedName(text, b) by { NoDottedWithoutDot(text, b); }
    assert WrapsFrom(text, b, at) <==> '}' !in mid;
    forall x: nat | FirstAt(text, name, x) ensures x == at { FirstIsOne(text, name, x, at); }
    assert [name][0] == name;
  }

  lemma FirstIsOne(text: string, name: string, i: nat, j: nat)
    requires FirstAt(text, name, i) && FirstAt(text, name, j)
    ensures i == j
  {
  }

  lemma NoDottedWithoutDot(text: string, i: nat)
    requires '.' !in text
    ensures !DottedName(text, i)
  {
    if i + 10 <= |text| {
      assert text[i..i + 10][9] == text[i + 9] && text[i + 9] in text;
    }
  }

  // ---------- More text and less ----------

  lemma OccursGrows(text: string, u: string, name: string, i: nat)
    ensures OccursAt(text, name, i) ==> OccursAt(text + u, name, i)
    ensures i + |name| <= |text| && OccursAt(text + u, name, i) ==> OccursAt(text, name, i)
  {
    if i + |name| <= |text| {
      assert (text + u)[i..i + |name|] == text[i..i + |name|];
    }
  }

  /** A call that begins somewhere still does when more text arrives. */
  lemma BeginsCallGrows(text: string, u: string, offered: seq<string>, i: nat)
    ensures BeginsCall(text, offered, i) ==> BeginsCall(text + u, offered, i)
  {
    hide PrefixAt, WrapsFrom;
    if DottedName(text, i) {
      PrefixStable(text, u, i);
    } else if BeginsCall(text, offered, i) {
      var n, at: nat :|
        0 <= n < |offered| && offered[n] != "" && FirstAt(text, offered[n], at) && WrapsFrom(text, i, at);
      FirstAtGrows(text, u, offered[n], at);
      WrapsGrows(text, u, i, at);
    }
  }

  lemma FirstAtGrows(text: string, u: string, name: string, at: nat)
    requires FirstAt(text, name, at)
    ensures at + |name| <= |text| && FirstAt(text + u, name, at)
  {
    assert at + |name| <= |text|;
    forall j: nat | j <= at ensures OccursAt(text + u, name, j) <==> OccursAt(text, name, j) {
      OccursGrows(text, u, name, j);
    }
  }

  lemma WrapsGrows(text: string, u: string, brace: nat, i: nat)
    requires i <= |text| && WrapsFrom(text, brace, i)
    ensures WrapsFrom(text + u, brace, i)
  {
    assert (text + u)[brace..i] == text[brace..i];
    assert (text + u)[brace + 1..i] == text[brace + 1..i];
  }

  lemma BeginsCallInside(text: string, offered: seq<string>, i: nat)
    ensures BeginsCall(text, offered, i) ==> i < |text|
  {
  }

  /** Seen from where it begins, a call begins at the front. */
  lemma BeginsCallCut(text: string, offered: seq<string>, i: nat)
    requires i <= |text| && BeginsCall(text, offered, i)
    ensures BeginsCall(text[i..], offered, 0)
  {
    var rest := text[i..];
    if DottedName(text, i) {
      assert rest[0..|PREFIX|] == text[i..i + |PREFIX|];
    } else {
      var n, at: nat :|
        0 <= n < |offered| && offered[n] != "" && FirstAt(text, offered[n], at) && WrapsFrom(text, i, at);
      forall j: nat | i + j <= at ensures OccursAt(rest, offered[n], j) <==> OccursAt(text, offered[n], i + j) {
        OccursCut(text, offered[n], i, j);
      }
      assert rest[0..at - i] == text[i..at] && rest[1..at - i] == text[i + 1..at];
      assert at <= |text| by { OccursCut(text, offered[n], i, at - i); }
      assert FirstAt(rest, offered[n], at - i) && WrapsFrom(rest, 0, at - i);
    }
  }

  lemma OccursCut(text: string, name: string, i: nat, j: nat)
    requires i <= |text|
    ensures OccursAt(text[i..], name, j) <==> OccursAt(text, name, i + j)
    ensures OccursAt(text, name, i + j) ==> i + j <= |text|
  {
    if i + j + |name| <= |text| {
      assert text[i..][j..j + |name|] == text[i + j..i + j + |name|];
    }
  }

  // ---------- Calls, written out ----------

  predicate IsName(name: string) {
    name != "" && forall i :: 0 <= i < |name| ==> NameChar(name[i])
  }

  predicate NameChar(c: char) {
    || 'a' as int <= c as int <= 'z' as int || 'A' as int <= c as int <= 'Z' as int
    || '0' as int <= c as int <= '9' as int || c == '_'
  }

  predicate BracketFree(s: string) {
    forall i :: 0 <= i < |s| ==> s[i] != '(' && s[i] != ')' && s[i] != '{' && s[i] != '}'
  }

  // White space that may stand between name and bracket.
  predicate IsGap(s: string) {
    forall i :: 0 <= i < |s| ==> s[i] == ' ' || s[i] == '\t' || s[i] == '\n'
  }

  // functions.name({body})
  function CallText(name: string, gap: string, body: string): string {
    "functions." + name + gap + "({" + body + "})"
  }

  lemma {:induction false} SkipBody(text: string, i: nat, j: nat, depth: nat)
    requires i <= j <= |text| && depth > 0 && BracketFree(text[i..j])
    ensures CloseFrom(text, i, depth) == CloseFrom(text, j, depth)
    decreases j - i
  {
    if i < j {
      assert text[i..j][0] == text[i];
      assert text[i..j][1..] == text[i + 1..j];
      SkipBody(text, i + 1, j, depth);
    }
  }

  // The bracket run of `...({body})`, opened at o.
  lemma RunCloses(text: string, o: nat, body: string)
    requires o + |body| + 4 == |text| && text[o..] == "({" + body + "})" && BracketFree(body)
    ensures CloseFrom(text, o, 0) == |text|
  {
    var b := o + 2;
    assert forall k :: 0 <= k < |body| + 4 ==> text[o + k] == ("({" + body + "})")[k];
    assert text[o] == '(' && text[o + 1] == '{';
    assert text[b..b + |body|] == body;
    SkipBody(text, b, b + |body|, 2);
    assert text[b + |body|] == '}' && text[b + |body| + 1] == ')';
  }

  lemma CallHead(name: string, gap: string, rest: string)
    requires IsName(name) && IsGap(gap) && rest != "" && (rest[0] == '(' || rest[0] == '{')
    ensures var text := "functions." + name + gap + rest;
      HeadAt(text, 0) == 10 + |name| + |gap| && DottedName(text, 0)
  {
    var text := "functions." + name + gap + rest;
    var w, o := 10 + |name|, 10 + |name| + |gap|;
    assert |PREFIX| == 10 && text[0..10] == PREFIX;
    assert text[10..w] == name && text[w..o] == gap && text[o] == rest[0];
    forall k | 10 <= k < w ensures IsWord(text[k]) { assert text[k] == name[k - 10] && NameChar(name[k - 10]); }
    forall k | w <= k < o ensures IsSpace(text[k]) { assert text[k] == gap[k - w]; }
    HeadFromShape(text, 0, w, o);
    assert IsWord(text[10]);
  }

  /** MAIN: a call is complete as it is written: a dotted name of letters, digits and underscores, white space
      or none, and a bracketed body.  A semicolon right behind it belongs to it; nothing else does. */
  lemma CallIsComplete(name: string, gap: string, body: string, rest: string)
    requires IsName(name) && IsGap(gap) && BracketFree(body)
    ensures var call := CallText(name, gap, body);
      && ToolCallEnd(call) == |call| && DottedName(call, 0)
      && ToolCallEnd(call + rest) == if rest != "" && rest[0] == ';' then |call| + 1 else |call|
  {
    var call, o := CallText(name, gap, body), 10 + |name| + |gap|;
    Associates("functions." + name + gap, "({" + body, "})");
    Associates("functions." + name + gap, "({", body);
    assert call == "functions." + name + gap + ("({" + body + "})");
    CallHead(name, gap, "({" + body + "})");
    assert call[o..] == "({" + body + "})";
    RunCloses(call, o, body);
    CallEnds(call, o, rest);
  }

  lemma CallEnds(call: string, o: nat, rest: string)
    requires HeadAt(call, 0) == o && CloseFrom(call, o, 0) == |call|
    ensures ToolCallEnd(call) == |call|
    ensures ToolCallEnd(call + rest) == if rest != "" && rest[0] == ';' then |call| + 1 else |call|
  {
    hide HeadAt, CloseFrom;
    assert FirstHead(call, 0) == o;
    assert CountFrom(call) == o && BareEnd(call) == |call| && ToolCallEnd(call) == |call|;
    EndIsPrefixStable(call, rest);
  }

  lemma HeadHasDot(text: string, k: nat)
    ensures HeadAt(text, k) >= 0 ==> k + 9 < |text| && text[k + 9] == '.'
  {
    if HeadAt(text, k) >= 0 {
      var w := HeadShape(text, k);
    }
  }

  /** A bare object of arguments is complete too, behind leading white space. */
  lemma BareObjectIsComplete(gap: string, body: string)
    requires IsGap(gap) && BracketFree(body) && '.' !in body
    ensures var text := gap + "{" + body + "}";
      ToolCallEnd(text) == |text|
  {
    var text, o := gap + "{" + body + "}", |gap|;
    assert text[..o] == gap && text[o] == '{' && text[o + 1..o + 1 + |body|] == body && text[|text| - 1] == '}';
    forall j | 0 <= j < |text| ensures text[j] != '.' {
      assert j < o ==> text[j] == gap[j];
      assert o < j < |text| - 1 ==> text[j] == body[j - o - 1] && body[j - o - 1] in body;
    }
    forall k | 0 <= k <= |text| ensures HeadAt(text, k) < 0 { HeadHasDot(text, k); }
    NoHead(text, 0);
    SkipGap(text, o);
    SkipBody(text, o + 1, o + 1 + |body|, 1);
  }

  lemma {:induction false} SkipGap(text: string, o: nat)
    requires o < |text| && IsGap(text[..o]) && !IsSpace(text[o])
    ensures LStrip(text) == text[o..]
  {
    if o > 0 {
      assert text[..o][0] == text[0] && text[1..][..o - 1] == text[..o][1..];
      SkipGap(text[1..], o - 1);
    }
  }

  // Behind the name stands a character that is neither white space nor an opening bracket.
  lemma BadFront(text: string, name: string, c: char)
    requires PrefixAt(text, 0) && 10 + |name| < |text| && text[10..10 + |name|] == name && text[10 + |name|] == c
    requires (name == "" || IsName(name)) && !NameChar(c)
    requires name == "" || (!IsSpace(c) && c != '(' && c != '{')
    ensures HeadAt(text, 0) < 0 && (name == "" ==> !DottedName(text, 0))
  {
    var n := 10 + |name|;
    forall k | 10 <= k < n ensures IsWord(text[k]) { assert text[k] == name[k - 10] && NameChar(name[k - 10]); }
    assert WordEnd(text, 10) == n;
    assert name != "" ==> SpaceEnd(text, n) == n;
  }

  /** A name cut short by any other character is no call: nothing is captured to its end. */
  lemma NotACall(name: string, c: char, rest: string)
    requires (name == "" || IsName(name)) && !NameChar(c) && c != '.' && '.' !in rest
    requires name == "" || (!(9 <= c as int <= 13 || 28 <= c as int <= 32) && c != '(' && c != '{')
    ensures ToolCallEnd("functions." + name + [c] + rest) == -1
    ensures name == "" ==> !DottedName("functions." + name + [c] + rest, 0)
  {
    hide HeadAt, DottedName, PrefixAt;
    var text, n := "functions." + name + [c] + rest, 10 + |name|;
    assert text[10..n] == name && text[n] == c && text[n + 1..] == rest;
    assert PrefixAt(text, 0) by { StartsWithPrefix(text); }
    forall k | 10 <= k < |text| ensures text[k] != '.' {
      assert k < n ==> text[k] == name[k - 10] && NameChar(name[k - 10]);
      assert k > n ==> text[k] == rest[k - n - 1];
    }
    BadFront(text, name, c);
    forall k | 1 <= k <= |text| ensures HeadAt(text, k) < 0 { HeadHasDot(text, k); }
    NoHead(text, 0);
    assert text[0] == 'f' && LStrip(text) == text;
  }

  lemma StartsWithPrefix(text: string)
    requires "functions." <= text
    ensures PrefixAt(text, 0)
  {
  }
}

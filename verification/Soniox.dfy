/** Folding Soniox tokens into one segment per utterance, and the language each segment gets. */
module Soniox {
  import opened Wrappers
  import opened TextOps

  const ENDPOINT := "<end>"

  // `lang == ""` stands for a token without a language.
  datatype Token = Token(text: string, final: bool, lang: string, startMs: Option<int>, endMs: Option<int>) {
    predicate IsEndpoint() { text == ENDPOINT }

    // lang.split("-")[0].lower()
    function Short(): string { Lower(BeforeDash(lang)) }
  }

  function BeforeDash(s: string): string {
    if s == "" || s[0] == '-' then "" else [s[0]] + BeforeDash(s[1..])
  }

  function LowerChar(c: char): char {
    if 'A' <= c <= 'Z' then ((c as int) + 32) as char else c
  }

  function Lower(s: string): string {
    if s == "" then "" else [LowerChar(s[0])] + Lower(s[1..])
  }

  // ---------- Language counts: a dict in first-seen order ----------

  datatype Tally = Tally(lang: string, n: nat)

  function Bump(table: seq<Tally>, lang: string): seq<Tally> {
    if table == [] then [Tally(lang, 1)]
    else if table[0].lang == lang then [table[0].(n := table[0].n + 1)] + table[1..]
    else [table[0]] + Bump(table[1..], lang)
  }

  function MaxCount(table: seq<Tally>): (m: nat)
    ensures forall k :: 0 <= k < |table| ==> table[k].n <= m
    ensures table != [] ==> exists k :: 0 <= k < |table| && table[k].n == m
  {
    if table == [] then 0
    else
      var rest := MaxCount(table[1..]);
      assert forall k :: 1 <= k < |table| ==> table[k] == table[1..][k - 1];
      if table[0].n >= rest then
        table[0].n
      else
        assert exists k :: 0 <= k < |table| && table[k].n == rest by {
          var j :| 0 <= j < |table[1..]| && table[1..][j].n == rest;
          assert table[j + 1].n == rest;
        }
        rest
  }

  // The languages with n tokens, in first-seen order.
  function WithCount(table: seq<Tally>, n: nat): seq<string> {
    if table == [] then []
    else
      WithCount(table[..|table| - 1], n)
      + (if table[|table| - 1].n == n then [table[|table| - 1].lang] else [])
  }

  lemma {:induction false} WithCountMember(table: seq<Tally>, n: nat, x: string)
    ensures x in WithCount(table, n) <==> Tally(x, n) in table
  {
    if table != [] {
      WithCountMember(table[..|table| - 1], n, x);
      assert table == table[..|table| - 1] + [table[|table| - 1]];
    }
  }

  // The last of them sits behind every other entry with that count.
  lemma {:induction false} WithCountLast(table: seq<Tally>, n: nat) returns (k: nat)
    requires WithCount(table, n) != []
    ensures k < |table| && table[k] == Tally(WithCount(table, n)[|WithCount(table, n)| - 1], n)
    ensures forall l :: k < l < |table| ==> table[l].n != n
  {
    if table[|table| - 1].n == n {
      k := |table| - 1;
    } else {
      k := WithCountLast(table[..|table| - 1], n);
    }
  }

  // ---------- One utterance ----------

  datatype Pending = Pending(
    text: string,
    counts: seq<Tally>,
    lastLang: Option<string>,
    startMs: Option<int>,
    endMs: Option<int>)

  const NOTHING := Pending("", [], None, None, None)

  datatype Segment = Segment(text: string, lang: Option<string>, audioMs: nat)

  function Winner(p: Pending): Option<string> {
    if p.counts == [] then None
    else
      var top := WithCount(p.counts, MaxCount(p.counts));
      if p.lastLang.Some? && p.lastLang.value in top then p.lastLang
      else if top != [] then Some(top[|top| - 1])
      else None
  }

  function AudioMs(startMs: Option<int>, endMs: Option<int>): nat {
    if startMs.Some? && endMs.Some? && endMs.value > startMs.value then endMs.value - startMs.value else 0
  }

  // The segments a flush hands on: none when there is no text.
  function Flushed(p: Pending): seq<Segment> {
    if Strip(p.text) == "" then [] else [Segment(Strip(p.text), Winner(p), AudioMs(p.startMs, p.endMs))]
  }

  function Later(a: Option<int>, b: Option<int>): Option<int> {
    if b.None? then a else if a.None? then b else if a.value >= b.value then a else b
  }

  function Absorb(p: Pending, t: Token): Pending {
    if t.text == "" || !t.final then p
    else
      Pending(
        p.text + t.text,
        if t.lang != "" then Bump(p.counts, t.Short()) else p.counts,
        if t.lang != "" then Some(t.Short()) else p.lastLang,
        if p.startMs.Some? then p.startMs else if t.startMs.Some? then t.startMs else t.endMs,
        Later(p.endMs, t.endMs))
  }

  // ---------- The fold over messages ----------

  datatype Fold = Fold(pending: Pending, segments: seq<Segment>)

  function Feed(s: Fold, tokens: seq<Token>): Fold
    decreases |tokens|
  {
    if tokens == [] then s
    else
      var t := tokens[0];
      var s' := if t.IsEndpoint() then Fold(NOTHING, s.segments + Flushed(s.pending))
                else s.(pending := Absorb(s.pending, t));
      Feed(s', tokens[1..])
  }

  lemma {:induction false} FeedAppend(s: Fold, a: seq<Token>, b: seq<Token>)
    ensures Feed(s, a + b) == Feed(Feed(s, a), b)
    decreases |a|
  {
    hide Absorb, Flushed, Token.IsEndpoint;
    if a == [] {
      assert a + b == b;
    } else {
      assert (a + b)[0] == a[0] && (a + b)[1..] == a[1..] + b;
      var t := a[0];
      FeedAppend(
        if t.IsEndpoint() then Fold(NOTHING, s.segments + Flushed(s.pending)) else s.(pending := Absorb(s.pending, t)),
        a[1..], b);
    }
  }

  function Flatten(messages: seq<seq<Token>>): seq<Token> {
    if messages == [] then [] else messages[0] + Flatten(messages[1..])
  }

  function FeedAll(s: Fold, messages: seq<seq<Token>>): Fold
    decreases |messages|
  {
    if messages == [] then s else FeedAll(Feed(s, messages[0]), messages[1..])
  }

  /** MAIN: the segments depend only on the token sequence, not on how it was cut into messages. */
  lemma {:induction false} BatchingIsIrrelevant(s: Fold, messages: seq<seq<Token>>)
    ensures FeedAll(s, messages) == Feed(s, Flatten(messages))
    decreases |messages|
  {
    hide Feed;
    if messages == [] {
      FeedNothing(s);
    } else {
      BatchingIsIrrelevant(Feed(s, messages[0]), messages[1..]);
      FeedAppend(s, messages[0], Flatten(messages[1..]));
    }
  }

  lemma FeedNothing(s: Fold)
    ensures Feed(s, []) == s
  {
  }

  // ---------- What one utterance amounts to ----------

  // The tokens that count, in order.
  function Counted(tokens: seq<Token>): seq<Token> {
    if tokens == [] then []
    else Counted(tokens[..|tokens| - 1])
         + (var t := tokens[|tokens| - 1]; if t.text != "" && t.final then [t] else [])
  }

  function TextOf(tokens: seq<Token>): string {
    if tokens == [] then "" else TextOf(tokens[..|tokens| - 1]) + tokens[|tokens| - 1].text
  }

  function LangsOf(tokens: seq<Token>): seq<string> {
    if tokens == [] then []
    else LangsOf(tokens[..|tokens| - 1])
         + (var t := tokens[|tokens| - 1]; if t.lang != "" then [t.Short()] else [])
  }

  function TableOf(langs: seq<string>): seq<Tally> {
    if langs == [] then [] else Bump(TableOf(langs[..|langs| - 1]), langs[|langs| - 1])
  }

  function LastOf(langs: seq<string>): Option<string> {
    if langs == [] then None else Some(langs[|langs| - 1])
  }

  /** Exactly the final tokens with text count, in order. */
  lemma CountedIs(tokens: seq<Token>, t: Token)
    ensures Counted([]) == []
    ensures Counted(tokens + [t]) == Counted(tokens) + if t.final && t.text != "" then [t] else []
  {
    assert (tokens + [t])[..|tokens|] == tokens;
  }

  /** A language tag counts up to its first dash, in lower case. */
  lemma {:induction false} ShortIs(t: Token, tag: string, region: string)
    requires '-' !in tag && (t.lang == tag || t.lang == tag + "-" + region)
    ensures |t.Short()| == |tag|
    ensures forall i :: 0 <= i < |tag| ==>
      t.Short()[i] as int == tag[i] as int + if 'A' as int <= tag[i] as int <= 'Z' as int then 32 else 0
  {
    UpToDash(t.lang, tag);
    LowerEach(tag);
  }

  lemma {:induction false} UpToDash(s: string, tag: string)
    requires '-' !in tag && tag <= s && (s == tag || s[|tag|] == '-')
    ensures BeforeDash(s) == tag
  {
    if tag != "" {
      assert tag[0] in tag && s[1..][..|tag| - 1] == tag[1..];
      UpToDash(s[1..], tag[1..]);
      assert tag == [tag[0]] + tag[1..];
    }
  }

  lemma {:induction false} LowerEach(s: string)
    ensures |Lower(s)| == |s|
    ensures forall i :: 0 <= i < |s| ==> Lower(s)[i] == LowerChar(s[i])
  {
    if s != "" {
      LowerEach(s[1..]);
      assert Lower(s)[1..] == Lower(s[1..]);
    }
  }

  predicate NoEndpoint(tokens: seq<Token>) {
    forall t :: t in tokens ==> !t.IsEndpoint()
  }

  /** An utterance is folded into its joined text and the counts of its languages, of exactly the final
      tokens with text. */
  lemma {:induction false} UtteranceFold(tokens: seq<Token>, segments: seq<Segment>)
    requires NoEndpoint(tokens)
    ensures var s := Feed(Fold(NOTHING, segments), tokens);
      var counted := Counted(tokens);
      && s.segments == segments
      && s.pending.text == TextOf(counted)
      && s.pending.counts == TableOf(LangsOf(counted))
      && s.pending.lastLang == LastOf(LangsOf(counted))
  {
    hide Bump, Token.Short, Token.IsEndpoint, Flushed, Later, Feed, TableOf, LangsOf, TextOf, LastOf;
    var start := Fold(NOTHING, segments);
    if tokens == [] {
      FeedNothing(start);
      CountNothing();
    } else {
      var before, t := tokens[..|tokens| - 1], tokens[|tokens| - 1];
      assert forall x :: x in before ==> x in tokens;
      UtteranceFold(before, segments);
      FeedAppend(start, before, [t]);
      assert before + [t] == tokens && t in tokens;
      FeedOne(Feed(start, before), t);
      if t.text != "" && t.final {
        CountOneMore(Counted(before), t);
      } else {
        assert Counted(before) + [] == Counted(before);
      }
    }
  }

  lemma CountNothing()
    ensures Counted([]) == [] && TextOf([]) == "" && LangsOf([]) == [] && TableOf([]) == [] && LastOf([]) == None
  {
  }

  lemma FeedOne(s: Fold, t: Token)
    requires !t.IsEndpoint()
    ensures Feed(s, [t]) == s.(pending := Absorb(s.pending, t))
  {
    hide Absorb, Flushed, Token.IsEndpoint;
    FeedNothing(s.(pending := Absorb(s.pending, t)));
    assert [t][1..] == [];
  }

  lemma CountOneMore(counted: seq<Token>, t: Token)
    ensures TextOf(counted + [t]) == TextOf(counted) + t.text
    ensures LangsOf(counted + [t]) == LangsOf(counted) + if t.lang != "" then [t.Short()] else []
    ensures TableOf(LangsOf(counted + [t])) ==
      if t.lang != "" then Bump(TableOf(LangsOf(counted)), t.Short()) else TableOf(LangsOf(counted))
    ensures LastOf(LangsOf(counted + [t])) == if t.lang != "" then Some(t.Short()) else LastOf(LangsOf(counted))
  {
    hide Bump, Token.Short;
    assert (counted + [t])[..|counted|] == counted;
    var langs := LangsOf(counted);
    if t.lang != "" {
      assert (langs + [t.Short()])[..|langs|] == langs;
    } else {
      assert langs + [] == langs;
    }
  }

  // The start of a token, or its end when only that is known.
  function FirstSeen(t: Token): Option<int> {
    if t.startMs.Some? then t.startMs else t.endMs
  }

  // p.startMs is the first time seen among the tokens.
  ghost predicate IsFirstSeen(start: Option<int>, tokens: seq<Token>) {
    if start.None? then forall i :: 0 <= i < |tokens| ==> FirstSeen(tokens[i]).None?
    else
      exists i :: 0 <= i < |tokens| && FirstSeen(tokens[i]) == start
        && (forall j :: 0 <= j < i ==> FirstSeen(tokens[j]).None?)
  }

  // p.endMs is the latest end among the tokens.
  ghost predicate IsLatestEnd(end: Option<int>, tokens: seq<Token>) {
    if end.None? then forall i :: 0 <= i < |tokens| ==> tokens[i].endMs.None?
    else
      && (exists i :: 0 <= i < |tokens| && tokens[i].endMs == end)
      && (forall i :: 0 <= i < |tokens| && tokens[i].endMs.Some? ==> tokens[i].endMs.value <= end.value)
  }

  lemma SpanGrows(p: Pending, counted: seq<Token>, t: Token)
    requires IsFirstSeen(p.startMs, counted) && IsLatestEnd(p.endMs, counted)
    requires t.text != "" && t.final
    ensures IsFirstSeen(Absorb(p, t).startMs, counted + [t]) && IsLatestEnd(Absorb(p, t).endMs, counted + [t])
  {
    hide Token.Short, Bump;
    var all := counted + [t];
    var start, end := Absorb(p, t).startMs, Absorb(p, t).endMs;
    assert forall i :: 0 <= i < |counted| ==> all[i] == counted[i];
    assert all[|counted|] == t;
    if end.Some? {
      if end == t.endMs {
        assert all[|counted|].endMs == end;
      } else {
        var i :| 0 <= i < |counted| && counted[i].endMs == end;
        assert all[i].endMs == end;
      }
    }
    if start.Some? {
      if p.startMs.Some? {
        var i :| 0 <= i < |counted| && FirstSeen(counted[i]) == start
          && forall j :: 0 <= j < i ==> FirstSeen(counted[j]).None?;
        assert FirstSeen(all[i]) == start;
      } else {
        assert FirstSeen(all[|counted|]) == start;
      }
    }
  }

  /** The span of an utterance runs from the first time seen to the latest end of its tokens. */
  lemma {:induction false} UtteranceSpan(tokens: seq<Token>, segments: seq<Segment>)
    requires NoEndpoint(tokens)
    ensures var p := Feed(Fold(NOTHING, segments), tokens).pending;
      IsFirstSeen(p.startMs, Counted(tokens)) && IsLatestEnd(p.endMs, Counted(tokens))
  {
    hide Absorb, IsFirstSeen, IsLatestEnd, Token.IsEndpoint, Feed;
    if tokens == [] {
      FeedNothing(Fold(NOTHING, segments));
      EmptySpan();
    } else {
      var before, t := tokens[..|tokens| - 1], tokens[|tokens| - 1];
      assert forall x :: x in before ==> x in tokens;
      UtteranceSpan(before, segments);
      FeedAppend(Fold(NOTHING, segments), before, [t]);
      assert before + [t] == tokens && t in tokens;
      var s := Feed(Fold(NOTHING, segments), before);
      FeedOne(s, t);
      if t.text != "" && t.final {
        SpanGrows(s.pending, Counted(before), t);
      } else {
        NothingAbsorbed(s.pending, t);
        assert Counted(before) + [] == Counted(before);
      }
    }
  }

  lemma NothingAbsorbed(p: Pending, t: Token)
    requires t.text == "" || !t.final
    ensures Absorb(p, t) == p
  {
  }

  lemma EmptySpan()
    ensures IsFirstSeen(None, []) && IsLatestEnd(None, [])
  {
  }

  /** MAIN: an endpoint turns the utterance before it into at most one segment, with the joined text of
      its final tokens, the language their counts elect, and the length of their span; and starts afresh. */
  lemma UtteranceSegment(tokens: seq<Token>, end: Token, segments: seq<Segment>)
    requires NoEndpoint(tokens) && end.IsEndpoint()
    ensures var s := Feed(Fold(NOTHING, segments), tokens + [end]);
      var counted := Counted(tokens);
      && s.pending == NOTHING
      && (Strip(TextOf(counted)) == "" ==> s.segments == segments)
      && (Strip(TextOf(counted)) != "" ==> exists from, to ::
            && IsFirstSeen(from, counted) && IsLatestEnd(to, counted)
            && s.segments == segments + [Segment(
                 Strip(TextOf(counted)), WinnerOf(LangsOf(counted)),
                 if from.Some? && to.Some? && to.value > from.value then to.value - from.value else 0)])
  {
    hide Absorb, IsFirstSeen, IsLatestEnd, Token.IsEndpoint, Feed, TextOf, LangsOf, TableOf, Counted, Strip;
    UtteranceFold(tokens, segments);
    UtteranceSpan(tokens, segments);
    FeedAppend(Fold(NOTHING, segments), tokens, [end]);
    var p := Feed(Fold(NOTHING, segments), tokens).pending;
    FeedEndpoint(Fold(p, segments), end);
    assert segments + [] == segments;
    assert Winner(p) == WinnerOf(LangsOf(Counted(tokens)));
    assert IsFirstSeen(p.startMs, Counted(tokens)) && IsLatestEnd(p.endMs, Counted(tokens));
  }

  lemma FeedEndpoint(s: Fold, t: Token)
    requires t.IsEndpoint()
    ensures Feed(s, [t]) == Fold(NOTHING, s.segments + Flushed(s.pending))
  {
    hide Absorb, Flushed, Token.IsEndpoint;
    FeedNothing(Fold(NOTHING, s.segments + Flushed(s.pending)));
    assert [t][1..] == [];
  }

  // ---------- The winning language ----------

  function Count(langs: seq<string>, x: string): nat {
    if langs == [] then 0
    else Count(langs[..|langs| - 1], x) + if langs[|langs| - 1] == x then 1 else 0
  }

  // The first position of x, or |langs|.
  function FirstIndex(langs: seq<string>, x: string): (i: nat)
    ensures i <= |langs|
    ensures i < |langs| ==> langs[i] == x
    ensures forall j :: 0 <= j < i ==> langs[j] != x
  {
    if langs == [] then 0
    else
      var i := FirstIndex(langs[..|langs| - 1], x);
      if i < |langs| - 1 then i else if langs[|langs| - 1] == x then i else i + 1
  }

  function Bumped(table: seq<Tally>, x: string, k: nat): seq<Tally>
    requires k <= |table|
  {
    if k < |table| then table[k := Tally(x, table[k].n + 1)] else table + [Tally(x, 1)]
  }

  // k is where x stands in the table, or its end.
  ghost predicate StandsAt(table: seq<Tally>, x: string, k: nat) {
    k <= |table| && forall i :: 0 <= i < |table| ==> (table[i].lang == x <==> i == k)
  }

  ghost predicate Distinct(table: seq<Tally>) {
    forall i, j :: 0 <= i < j < |table| ==> table[i].lang != table[j].lang
  }

  lemma {:induction false} BumpEffect(table: seq<Tally>, x: string) returns (k: nat)
    requires Distinct(table)
    ensures StandsAt(table, x, k) && Bump(table, x) == Bumped(table, x, k)
  {
    hide Distinct;
    if table == [] {
      k := 0;
    } else if table[0].lang == x {
      k := 0;
      AlreadyFirst(table);
    } else {
      var tail := table[1..];
      assert table == [table[0]] + tail;
      DistinctTail(table[0], tail);
      var j := BumpEffect(tail, x);
      k := j + 1;
      BumpedTail(table[0], tail, x, j);
    }
  }

  lemma AlreadyFirst(table: seq<Tally>)
    requires table != [] && Distinct(table)
    ensures StandsAt(table, table[0].lang, 0)
  {
  }

  lemma DistinctTail(head: Tally, tail: seq<Tally>)
    requires Distinct([head] + tail)
    ensures Distinct(tail)
  {
    var table := [head] + tail;
    forall i, j | 0 <= i < j < |tail| ensures tail[i].lang != tail[j].lang {
      assert table[i + 1] == tail[i] && table[j + 1] == tail[j];
    }
  }

  lemma BumpedTail(head: Tally, tail: seq<Tally>, x: string, j: nat)
    requires head.lang != x && StandsAt(tail, x, j)
    ensures StandsAt([head] + tail, x, j + 1) && Bumped([head] + tail, x, j + 1) == [head] + Bumped(tail, x, j)
  {
  }

  lemma TableOfNothing()
    ensures Tabulates(TableOf([]), [])
  {
  }

  // The table holds each language once, with its count, in the order of first appearance.
  ghost predicate Tabulates(table: seq<Tally>, langs: seq<string>) {
    && (forall k :: 0 <= k < |table| ==> table[k].lang in langs && table[k].n == Count(langs, table[k].lang))
    && (forall k, l :: 0 <= k < l < |table| ==> FirstIndex(langs, table[k].lang) < FirstIndex(langs, table[l].lang))
    && (forall x :: x in langs ==> exists k :: 0 <= k < |table| && table[k].lang == x)
  }

  lemma OneMoreLang(langs: seq<string>, x: string, y: string)
    ensures Count(langs + [x], y) == Count(langs, y) + if x == y then 1 else 0
    ensures FirstIndex(langs + [x], y) ==
      if y in langs then FirstIndex(langs, y) else if x == y then |langs| else |langs| + 1
    ensures y in langs ==> FirstIndex(langs, y) < |langs|
  {
    var all := langs + [x];
    assert all[..|all| - 1] == langs;
    if y in langs {
      var j :| 0 <= j < |langs| && langs[j] == y;
      assert FirstIndex(langs, y) <= j;
    } else {
      assert FirstIndex(langs, y) == |langs|;
    }
  }

  lemma {:induction false} TableTabulates(langs: seq<string>)
    ensures Tabulates(TableOf(langs), langs)
  {
    hide Tabulates, Bump, Bumped, StandsAt, Count, FirstIndex, Distinct;
    if langs == [] {
      TableOfNothing();
    } else {
      var before, x := langs[..|langs| - 1], langs[|langs| - 1];
      TableTabulates(before);
      var table := TableOf(before);
      assert langs == before + [x];
      DistinctLangs(table, before);
      var k := BumpEffect(table, x);
      BumpTabulates(table, before, x, k);
    }
  }

  lemma DistinctLangs(table: seq<Tally>, langs: seq<string>)
    requires Tabulates(table, langs)
    ensures Distinct(table)
  {
    hide Count, FirstIndex;
    forall i, j | 0 <= i < j < |table| ensures table[i].lang != table[j].lang {
      assert FirstIndex(langs, table[i].lang) < FirstIndex(langs, table[j].lang);
    }
  }

  lemma BumpTabulates(table: seq<Tally>, before: seq<string>, x: string, k: nat)
    requires Tabulates(table, before) && StandsAt(table, x, k)
    ensures Tabulates(Bumped(table, x, k), before + [x])
  {
    hide Count, FirstIndex;
    BumpCounts(table, before, x, k);
    BumpOrder(table, before, x, k);
    var langs, table' := before + [x], Bumped(table, x, k);
    forall y | y in langs ensures exists i :: 0 <= i < |table'| && table'[i].lang == y {
      if y == x {
        assert table'[k].lang == y;
      } else {
        var i :| 0 <= i < |table| && table[i].lang == y;
        assert table'[i].lang == y;
      }
    }
  }

  lemma BumpCounts(table: seq<Tally>, before: seq<string>, x: string, k: nat)
    requires Tabulates(table, before) && StandsAt(table, x, k)
    ensures forall i :: 0 <= i < |Bumped(table, x, k)| ==>
      Bumped(table, x, k)[i].lang in before + [x]
      && Bumped(table, x, k)[i].n == Count(before + [x], Bumped(table, x, k)[i].lang)
  {
    hide Count, FirstIndex;
    var table' := Bumped(table, x, k);
    forall i | 0 <= i < |table'|
      ensures table'[i].lang in before + [x] && table'[i].n == Count(before + [x], table'[i].lang)
    {
      OneMoreLang(before, x, table'[i].lang);
      if i == k == |table| {
        assert x !in before;
        NeverCounted(before, x);
      }
    }
  }

  lemma BumpOrder(table: seq<Tally>, before: seq<string>, x: string, k: nat)
    requires Tabulates(table, before) && StandsAt(table, x, k)
    ensures forall i, j :: 0 <= i < j < |Bumped(table, x, k)| ==>
      FirstIndex(before + [x], Bumped(table, x, k)[i].lang) < FirstIndex(before + [x], Bumped(table, x, k)[j].lang)
  {
    hide Count, FirstIndex;
    var table' := Bumped(table, x, k);
    forall i, j | 0 <= i < j < |table'|
      ensures FirstIndex(before + [x], table'[i].lang) < FirstIndex(before + [x], table'[j].lang)
    {
      OneMoreLang(before, x, table'[i].lang);
      OneMoreLang(before, x, table'[j].lang);
      assert table[i].lang in before && table'[i].lang == table[i].lang;
      if j < |table| {
        assert table'[j].lang == table[j].lang && table[j].lang in before;
      } else {
        assert table'[j].lang == x && k == |table| && x !in before;
      }
    }
  }

  lemma {:induction false} NeverCounted(langs: seq<string>, x: string)
    requires x !in langs
    ensures Count(langs, x) == 0
  {
    if langs != [] { NeverCounted(langs[..|langs| - 1], x); }
  }

  // x is tagged as often as any language.
  ghost predicate Dominant(langs: seq<string>, x: string) {
    x in langs && forall y :: y in langs ==> Count(langs, y) <= Count(langs, x)
  }

  // The dominant language first seen last.
  ghost predicate NewestDominant(langs: seq<string>, x: string) {
    Dominant(langs, x) && forall y :: Dominant(langs, y) ==> FirstIndex(langs, y) <= FirstIndex(langs, x)
  }

  // The dominant language with the latest token.
  ghost predicate LatestDominant(langs: seq<string>, x: string) {
    exists i :: 0 <= i < |langs| && langs[i] == x && Dominant(langs, x)
      && forall j :: i < j < |langs| ==> !Dominant(langs, langs[j])
  }

  function WinnerOf(langs: seq<string>): Option<string> {
    Winner(Pending("", TableOf(langs), LastOf(langs), None, None))
  }

  lemma TopIsDominant(langs: seq<string>, x: string)
    requires langs != []
    ensures var table := TableOf(langs);
      table != [] && (Tally(x, MaxCount(table)) in table <==> Dominant(langs, x))
  {
    TableTabulates(langs);
    hide Count, FirstIndex, Bump, TableOf, MaxCount;
    MaxIsDominant(TableOf(langs), langs, x);
  }

  lemma MaxIsDominant(table: seq<Tally>, langs: seq<string>, x: string)
    requires Tabulates(table, langs) && langs != []
    ensures table != [] && (Tally(x, MaxCount(table)) in table <==> Dominant(langs, x))
  {
    hide Count, FirstIndex, MaxCount;
    assert langs[0] in langs;
    var best := MaxCount(table);
    if Tally(x, best) in table {
      var k :| 0 <= k < |table| && table[k] == Tally(x, best);
      forall y | y in langs ensures Count(langs, y) <= Count(langs, x) {
        var l :| 0 <= l < |table| && table[l].lang == y;
      }
    } else {
      var l :| 0 <= l < |table| && table[l].n == best;
      assert table[l].lang in langs;
      assert forall k :: 0 <= k < |table| && table[k].lang == x ==> table[k] in table && table[k].n < best;
    }
  }

  /** MAIN: the segment's language always has a maximal count.  The last tagged language wins if it is
      among those; otherwise the winner is the one of them that was first seen last. */
  lemma WinnerIsDominant(langs: seq<string>)
    requires langs != []
    ensures var w := WinnerOf(langs); var last := langs[|langs| - 1];
      && w.Some? && Dominant(langs, w.value)
      && (Dominant(langs, last) ==> w.value == last)
      && (!Dominant(langs, last) ==> NewestDominant(langs, w.value))
  {
    hide Count, FirstIndex, Bump, TableOf, MaxCount, WithCount;
    var table := TableOf(langs);
    var best := MaxCount(table);
    var top := WithCount(table, best);
    var last := langs[|langs| - 1];
    TopIsDominant(langs, last);
    WithCountMember(table, best, last);
    var m :| 0 <= m < |table| && table[m].n == best;
    WithCountMember(table, best, table[m].lang);
    assert Tally(table[m].lang, best) in table;
    var w := top[|top| - 1];
    TopIsDominant(langs, w);
    WithCountMember(table, best, w);
    assert w in top;
    LastTopIsNewest(langs);
  }

  lemma LastTopIsNewest(langs: seq<string>)
    requires langs != [] && WithCount(TableOf(langs), MaxCount(TableOf(langs))) != []
    ensures var top := WithCount(TableOf(langs), MaxCount(TableOf(langs)));
      NewestDominant(langs, top[|top| - 1])
  {
    TableTabulates(langs);
    hide Count, FirstIndex, Bump, TableOf, MaxCount, WithCount;
    var table := TableOf(langs);
    var best := MaxCount(table);
    var top := WithCount(table, best);
    var w := top[|top| - 1];
    var k := WithCountLast(table, best);
    assert table[k] in table;
    TopIsDominant(langs, w);
    forall y | Dominant(langs, y) ensures FirstIndex(langs, y) <= FirstIndex(langs, w) {
      TopIsDominant(langs, y);
      var l :| 0 <= l < |table| && table[l] == Tally(y, best);
      assert l <= k;
    }
  }

  /** The comment in the source promises that a tie goes to the latest seen language.  It does exactly
      when the last tagged language is itself among the tied ones, or the tied language first seen last
      is also the one seen last. */
  lemma LatestSeenWinsIff(langs: seq<string>)
    requires langs != []
    ensures WinnerOf(langs).Some?
    ensures LatestDominant(langs, WinnerOf(langs).value) <==>
      Dominant(langs, langs[|langs| - 1]) || exists x :: NewestDominant(langs, x) && LatestDominant(langs, x)
  {
    WinnerIsDominant(langs);
    hide Count, WinnerOf;
    var last, w := langs[|langs| - 1], WinnerOf(langs).value;
    if Dominant(langs, last) {
      assert langs[|langs| - 1] == w;
      assert LatestDominant(langs, w);
    } else {
      forall x | NewestDominant(langs, x) ensures x == w {
        assert FirstIndex(langs, x) == FirstIndex(langs, w);
        FoundAt(langs, x);
        FoundAt(langs, w);
      }
    }
  }

  lemma FoundAt(langs: seq<string>, x: string)
    requires x in langs
    ensures FirstIndex(langs, x) < |langs| && langs[FirstIndex(langs, x)] == x
  {
    var j :| 0 <= j < |langs| && langs[j] == x;
    assert FirstIndex(langs, x) <= j;
  }

  /** It fails for a, b, b, a, c: a and b tie, a was seen later, and b wins. */
  lemma LatestSeenCanLose(a: string, b: string, c: string)
    requires a != b && b != c && a != c
    ensures var langs := [a, b, b, a, c];
      WinnerOf(langs) == Some(b) && LatestDominant(langs, a) && !LatestDominant(langs, b)
  {
    var langs := [a, b, b, a, c];
    FiveTokens(a, b, c);
    assert forall x :: x in langs ==> x == a || x == b || x == c;
    assert Dominant(langs, a) && Dominant(langs, b) && !Dominant(langs, c);
    WinnerIsDominant(langs);
    var w := WinnerOf(langs).value;
    assert w == a || w == b || w == c;
    assert FirstIndex(langs, b) <= FirstIndex(langs, w);
    assert langs[3] == a && langs[4] == c;
  }

  lemma FiveTokens(a: string, b: string, c: string)
    requires a != b && b != c && a != c
    ensures var langs := [a, b, b, a, c];
      && Count(langs, a) == 2 && Count(langs, b) == 2 && Count(langs, c) == 1
      && FirstIndex(langs, a) == 0 && FirstIndex(langs, b) == 1
  {
    FiveCounts(a, b, c, a);
    FiveCounts(a, b, c, b);
    FiveCounts(a, b, c, c);
    hide Count, FirstIndex;
    var langs := [a, b, b, a, c];
    assert langs[0] == a && langs[1] == b;
  }

  lemma FiveCounts(a: string, b: string, c: string, x: string)
    ensures Count([a, b, b, a, c], x) ==
      (if a == x then 2 else 0) + (if b == x then 2 else 0) + (if c == x then 1 else 0)
  {
    hide FirstIndex;
    var p2, p3, p4 := [a, b], [a, b, b], [a, b, b, a];
    assert Count([a], x) == if a == x then 1 else 0;
    hide Count;
    assert [a] + [b] == p2 && p2 + [b] == p3 && p3 + [a] == p4 && p4 + [c] == [a, b, b, a, c];
    OneMoreLang([a], b, x);
    OneMoreLang(p2, b, x);
    OneMoreLang(p3, a, x);
    OneMoreLang(p4, c, x);
  }

  /** The same of segments: the language of an utterance's segment is the latest seen of the tied ones
      exactly then. */
  lemma SegmentLatestSeenIff(tokens: seq<Token>, end: Token, segments: seq<Segment>)
    requires NoEndpoint(tokens) && end.IsEndpoint()
    requires Strip(TextOf(Counted(tokens))) != "" && LangsOf(Counted(tokens)) != []
    ensures var langs := LangsOf(Counted(tokens));
      var s := Feed(Fold(NOTHING, segments), tokens + [end]);
      && |s.segments| == |segments| + 1 && s.segments[|segments|].lang.Some?
      && (LatestDominant(langs, s.segments[|segments|].lang.value) <==>
            Dominant(langs, langs[|langs| - 1]) || exists x :: NewestDominant(langs, x) && LatestDominant(langs, x))
  {
    hide *;
    UtteranceSegment(tokens, end, segments);
    LatestSeenWinsIff(LangsOf(Counted(tokens)));
  }

  // A final token with text in this language.
  function Said(lang: string): Token {
    Token("x", true, lang, None, None)
  }

  lemma SaidMore(tokens: seq<Token>, lang: string)
    requires Counted(tokens) == tokens && lang != ""
    ensures Counted(tokens + [Said(lang)]) == tokens + [Said(lang)]
    ensures LangsOf(tokens + [Said(lang)]) == LangsOf(tokens) + [Said(lang).Short()]
    ensures TextOf(tokens + [Said(lang)]) == TextOf(tokens) + "x"
  {
    hide Token.Short, Bump;
    var all := tokens + [Said(lang)];
    assert all[..|tokens|] == tokens;
    CountOneMore(tokens, Said(lang));
  }

  lemma ShortNames()
    ensures Said("en").Short() == "en" && Said("de").Short() == "de" && Said("fr").Short() == "fr"
  {
    assert BeforeDash("en") == "en" && Lower("en") == "en";
    assert BeforeDash("de") == "de" && Lower("de") == "de";
    assert BeforeDash("fr") == "fr" && Lower("fr") == "fr";
  }

  lemma SaidFive()
    ensures var tokens := [Said("en"), Said("de"), Said("de"), Said("en"), Said("fr")];
      && Counted(tokens) == tokens && NoEndpoint(tokens)
      && LangsOf(tokens) == ["en", "de", "de", "en", "fr"] && TextOf(tokens) == "xxxxx"
  {
    hide Counted, LangsOf, TextOf, Token.Short;
    var t1, t2, t3 := [Said("en")], [Said("en"), Said("de")], [Said("en"), Said("de"), Said("de")];
    var t4 := t3 + [Said("en")];
    assert [] + [Said("en")] == t1 && t1 + [Said("de")] == t2 && t2 + [Said("de")] == t3;
    assert t4 + [Said("fr")] == [Said("en"), Said("de"), Said("de"), Said("en"), Said("fr")];
    ShortNames();
    CountNothing();
    SaidMore([], "en");
    SaidMore(t1, "de");
    SaidMore(t2, "de");
    SaidMore(t3, "en");
    SaidMore(t4, "fr");
  }

  /** And it does fail: after tokens in en, de, de, en, fr the segment is put down as de, although en ties
      with it and was heard later. */
  lemma LatestSeenCanLoseASegment(end: Token, segments: seq<Segment>)
    requires end.IsEndpoint()
    ensures var tokens := [Said("en"), Said("de"), Said("de"), Said("en"), Said("fr")];
      var langs := LangsOf(Counted(tokens));
      var s := Feed(Fold(NOTHING, segments), tokens + [end]);
      && |s.segments| == |segments| + 1 && s.segments[|segments|].lang == Some("de")
      && LatestDominant(langs, "en") && !LatestDominant(langs, "de")
  {
    SaidFive();
    var tokens := [Said("en"), Said("de"), Said("de"), Said("en"), Said("fr")];
    assert !IsBlank("xxxxx") by { assert 'x' in "xxxxx"; }
    StripEmptyIff("xxxxx");
    hide *;
    LatestSeenCanLose("en", "de", "fr");
    UtteranceSegment(tokens, end, segments);
  }
}

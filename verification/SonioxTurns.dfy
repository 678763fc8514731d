/** The Soniox detector: token messages in, the buffer of the current turn out. */
module SonioxTurns {
  import opened Wrappers
  import opened TextOps
  import opened Soniox
  import Detector

  // What the turn buffer is handed of a segment.  A language cut down to nothing counts as none.
  function Entry(s: Segment, ts: real): Detector.Segment {
    Detector.Segment(s.lang.GetOr(""), None, s.text, s.audioMs as real / 1000.0, ts)
  }

  ghost predicate Entered(log: seq<Detector.Segment>, segments: seq<Segment>) {
    |log| == |segments| && forall i :: 0 <= i < |log| ==> log[i] == Entry(segments[i], log[i].ts)
  }

  // ---------- The turn, read off the segments alone ----------

  function JoinedText(segments: seq<Segment>): string {
    if segments == [] then ""
    else if |segments| == 1 then segments[0].text
    else JoinedText(segments[..|segments| - 1]) + " " + segments[|segments| - 1].text
  }

  function Tags(segments: seq<Segment>): seq<string> {
    if segments == [] then []
    else
      var tag := segments[|segments| - 1].lang.GetOr("");
      Tags(segments[..|segments| - 1]) + if tag != "" then [tag] else []
  }

  ghost predicate IsLongestOf(seconds: real, segments: seq<Segment>) {
    if segments == [] then seconds == 0.0
    else
      && (forall i :: 0 <= i < |segments| ==> segments[i].audioMs as real / 1000.0 <= seconds)
      && (exists i :: 0 <= i < |segments| && segments[i].audioMs as real / 1000.0 == seconds)
  }

  // The turn's text and longest segment are those of the last n segments, the ones still within the age
  // bound; its language and streak are those of all of them.
  ghost predicate TurnTells(
    text: string, longest: real, lang: Option<string>, streak: nat, n: nat, segments: seq<Segment>)
  {
    && n <= |segments|
    && text == JoinedText(segments[|segments| - n..])
    && IsLongestOf(longest, segments[|segments| - n..])
    && Detector.IsTrailingRun(Tags(segments), streak)
    && lang == Detector.LastOf(Tags(segments))
  }

  lemma {:induction false} EnteredTags(log: seq<Detector.Segment>, segments: seq<Segment>)
    requires Entered(log, segments)
    ensures Detector.Languages(log) == Tags(segments)
  {
    if log != [] {
      EnteredTags(log[..|log| - 1], segments[..|segments| - 1]);
    }
  }

  lemma {:induction false} EnteredTexts(log: seq<Detector.Segment>, segments: seq<Segment>)
    requires Entered(log, segments)
    ensures Detector.JoinTexts(log) == JoinedText(segments)
  {
    if |log| > 1 {
      EnteredTexts(log[..|log| - 1], segments[..|segments| - 1]);
    }
  }

  lemma EnteredLongest(m: real, log: seq<Detector.Segment>, segments: seq<Segment>)
    requires Entered(log, segments) && Detector.IsLongest(m, log)
    ensures IsLongestOf(m, segments)
  {
    if log != [] {
      var i :| 0 <= i < |log| && log[i].audio == m;
      assert segments[i].audioMs as real / 1000.0 == m;
    }
  }

  lemma ReadOff(
    log: seq<Detector.Segment>, segments: seq<Segment>, now: real, cutoff: real,
    longest: real, lang: Option<string>, streak: nat)
    requires Entered(log, segments) && Detector.InOrder(log, now)
    requires Detector.IsLongest(longest, Detector.Recent(log, cutoff)) && Detector.Tells(lang, streak, log)
    ensures var kept := Detector.Recent(log, cutoff);
      && TurnTells(Detector.JoinTexts(kept), longest, lang, streak, |kept|, segments)
      && Detector.Retained(log, |kept|, cutoff)
  {
    hide Detector.Recent, Detector.JoinTexts, JoinedText, Detector.Languages, Tags, Detector.IsLongest, IsLongestOf,
      Detector.IsTrailingRun, Entry;
    var kept := Detector.Recent(log, cutoff);
    Detector.RecentIsTail(log, now, cutoff);
    var tail := segments[|segments| - |kept|..];
    assert Entered(kept, tail);
    EnteredTags(log, segments);
    EnteredTexts(kept, tail);
    EnteredLongest(longest, kept, tail);
  }

  // ---------- The detector ----------

  class SonioxDetector {
    var pending: Pending
    const buffer: Detector.TurnBuffer
    ghost var segments: seq<Segment>      // since the last drain

    constructor ()
      ensures Valid() && Current() == Fold(NOTHING, []) && fresh(buffer)
    {
      pending, segments := NOTHING, [];
      buffer := new Detector.TurnBuffer();
    }

    ghost function Current(): Fold
      reads this
    {
      Fold(pending, segments)
    }

    ghost predicate Valid()
      reads this, buffer
    {
      buffer.Valid() && Entered(buffer.log, segments)
    }

    // The buffer says of the turn what its segments say, and retains exactly those within the age bound.
    ghost predicate Tells()
      reads this, buffer
    {
      && Detector.Retained(buffer.log, |buffer.segments|, buffer.cutoff) && Entered(buffer.log, segments)
      && TurnTells(buffer.text, buffer.maxSegment, buffer.lang, buffer.streak, |buffer.segments|, segments)
    }

    lemma ValidTells()
      requires Valid()
      ensures Tells()
    {
      hide TurnTells, Entered, Detector.InOrder, Detector.Recent, Detector.JoinTexts, Detector.IsLongest,
        Detector.Tells;
      Detector.RecentIsTail(buffer.log, buffer.now, buffer.cutoff);
      ReadOff(buffer.log, segments, buffer.now, buffer.cutoff, buffer.maxSegment, buffer.lang, buffer.streak);
    }

    // One segment per endpoint, stamped and evicting at two readings of the clock.
    method FlushPendingSegment(stamp: real, cut: real)
      requires Valid() && buffer.now <= stamp <= cut
      modifies this, buffer
      ensures Valid() && buffer.now <= cut
      ensures Current() == Fold(NOTHING, old(segments) + Flushed(old(pending)))
    {
      hide Winner, Detector.TurnBuffer.Valid;
      var p := pending;
      pending := NOTHING;
      var text := Strip(p.text);
      if text == "" {
        assert old(segments) + [] == old(segments);
        return;
      }
      var segment := Segment(text, Winner(p), AudioMs(p.startMs, p.endMs));
      ghost var before := buffer.log;
      buffer.Accumulate(text, segment.lang.GetOr(""), segment.audioMs as real / 1000.0, None, stamp, cut);
      segments := segments + [segment];
      assert buffer.log == before + [Entry(segment, stamp)];
    }

    // One server message: its tokens in order; `clock` holds the two readings an endpoint at i would take.
    method HandleMessage(tokens: seq<Token>, clock: seq<(real, real)>)
      requires Valid() && Ticks(buffer.now, clock) && |clock| == |tokens|
      modifies this, buffer
      ensures Valid() && Tells()
      ensures Current() == Feed(old(Current()), tokens)
      ensures if clock == [] then buffer.now == old(buffer.now) else buffer.now <= clock[|clock| - 1].1
    {
      hide Absorb, Flushed, Token.IsEndpoint, Entered, Detector.TurnBuffer.Valid;
      ghost var start := Current();
      assert tokens[0..] == tokens;
      for i := 0 to |tokens|
        invariant Valid()
        invariant if i == 0 then buffer.now == old(buffer.now) else buffer.now <= clock[i - 1].1
        invariant Feed(Current(), tokens[i..]) == Feed(start, tokens)
      {
        var t := tokens[i];
        assert tokens[i..][0] == t && tokens[i..][1..] == tokens[i + 1..];
        if t.IsEndpoint() {
          FlushPendingSegment(clock[i].0, clock[i].1);
        } else {
          pending := Absorb(pending, t);
        }
      }
      ValidTells();
    }

    /** MAIN: after any messages, however their tokens were batched, the turn's text, longest segment,
        language and streak are those of the segments the flattened tokens fold to. */
    method Receive(messages: seq<seq<Token>>, clocks: seq<seq<(real, real)>>)
      requires Valid() && |clocks| == |messages| && TicksOn(buffer.now, clocks)
      requires forall k :: 0 <= k < |messages| ==> |clocks[k]| == |messages[k]|
      modifies this, buffer
      ensures Valid() && Tells()
      ensures Current() == Feed(old(Current()), Flatten(messages))
    {
      hide Feed, Flatten, Entered, Detector.TurnBuffer.Valid, TurnTells, TicksOn, Ticks;
      ghost var start := Current();
      assert messages[0..] == messages && clocks[0..] == clocks;
      for k := 0 to |messages|
        invariant Valid() && TicksOn(buffer.now, clocks[k..])
        invariant FeedAll(Current(), messages[k..]) == FeedAll(start, messages)
      {
        assert messages[k..][0] == messages[k] && messages[k..][1..] == messages[k + 1..];
        NextTicks(buffer.now, clocks[k..]);
        assert clocks[k..][0] == clocks[k] && clocks[k..][1..] == clocks[k + 1..];
        ghost var before := buffer.now;
        HandleMessage(messages[k], clocks[k]);
        EarlierTicks(if clocks[k] == [] then before else clocks[k][|clocks[k]| - 1].1, buffer.now, clocks[k + 1..]);
      }
      BatchingIsIrrelevant(start, messages);
      ValidTells();
    }

    method TakeTurnTranscript() returns (transcript: string, detected: Option<string>)
      requires Valid()
      modifies this, buffer
      ensures Valid() && segments == [] && pending == old(pending) && buffer.now == old(buffer.now)
      ensures detected == Detector.LastOf(Tags(old(segments)))
      ensures |old(buffer.segments)| <= |old(segments)|
      ensures transcript == Strip(JoinedText(old(segments)[|old(segments)| - |old(buffer.segments)|..]))
    {
      ValidTells();
      transcript, detected := buffer.TakeTurnTranscript();
      segments := [];
    }
  }

  // Clock readings: pairs in order, none before `now`.
  ghost predicate Ticks(now: real, clock: seq<(real, real)>) {
    && (forall i :: 0 <= i < |clock| ==> now <= clock[i].0 <= clock[i].1)
    && (forall i, j :: 0 <= i < j < |clock| ==> clock[i].1 <= clock[j].0)
  }

  ghost predicate TicksOn(now: real, clocks: seq<seq<(real, real)>>)
    decreases |clocks|
  {
    clocks == [] ||
    (Ticks(now, clocks[0])
     && TicksOn(if clocks[0] == [] then now else clocks[0][|clocks[0]| - 1].1, clocks[1..]))
  }

  lemma NextTicks(now: real, clocks: seq<seq<(real, real)>>)
    requires clocks != [] && TicksOn(now, clocks)
    ensures Ticks(now, clocks[0])
    ensures TicksOn(if clocks[0] == [] then now else clocks[0][|clocks[0]| - 1].1, clocks[1..])
  {
  }

  // Readings that come after some time come after any earlier one.
  lemma {:induction false} EarlierTicks(now: real, before: real, clocks: seq<seq<(real, real)>>)
    requires before <= now && TicksOn(now, clocks)
    ensures TicksOn(before, clocks)
    decreases |clocks|
  {
    if clocks != [] && clocks[0] == [] {
      EarlierTicks(now, before, clocks[1..]);
    }
  }
}

/** The per-turn transcript buffer of a language detector. */
module Detector {
  import opened Wrappers
  import opened TextOps

  const MAX_AGE := 30.0

  // `lang == ""` stands for no detected language.
  datatype Segment = Segment(lang: string, prob: Option<real>, text: string, audio: real, ts: real)

  // The segments no older than the cutoff.
  function Recent(segments: seq<Segment>, cutoff: real): seq<Segment> {
    if segments == [] then []
    else Recent(segments[..|segments| - 1], cutoff)
         + (if segments[|segments| - 1].ts >= cutoff then [segments[|segments| - 1]] else [])
  }

  // " ".join(texts)
  function JoinTexts(segments: seq<Segment>): string {
    if segments == [] then ""
    else if |segments| == 1 then segments[0].text
    else JoinTexts(segments[..|segments| - 1]) + " " + segments[|segments| - 1].text
  }

  ghost predicate IsLongest(m: real, segments: seq<Segment>) {
    if segments == [] then m == 0.0
    else
      && (forall i :: 0 <= i < |segments| ==> segments[i].audio <= m)
      && (exists i :: 0 <= i < |segments| && segments[i].audio == m)
  }

  function Longest(segments: seq<Segment>): (m: real)
    ensures IsLongest(m, segments)
  {
    if segments == [] then 0.0
    else
      var rest := Longest(segments[1..]);
      if |segments| == 1 || segments[0].audio >= rest then
        assert segments[0].audio == segments[0].audio;
        segments[0].audio
      else
        assert exists i :: 1 <= i < |segments| && segments[i].audio == rest by {
          var j :| 0 <= j < |segments[1..]| && segments[1..][j].audio == rest;
          assert segments[j + 1].audio == rest;
        }
        assert forall i :: 1 <= i < |segments| ==> segments[i] == segments[1..][i - 1];
        rest
  }

  // The languages tagged, in order; segments without one are passed over.
  function Languages(segments: seq<Segment>): seq<string> {
    if segments == [] then []
    else Languages(segments[..|segments| - 1])
         + (if segments[|segments| - 1].lang != "" then [segments[|segments| - 1].lang] else [])
  }

  // n is the length of the run of one language the sequence ends with.
  ghost predicate IsTrailingRun(langs: seq<string>, n: nat) {
    && n <= |langs|
    && (langs != [] ==> n > 0)
    && (forall i :: |langs| - n <= i < |langs| ==> langs[i] == langs[|langs| - 1])
    && (n < |langs| ==> langs[|langs| - n - 1] != langs[|langs| - 1])
  }

  /** Eviction at every step keeps what one eviction at the end would keep, as the clock never runs back. */
  lemma {:induction false} EvictionIsCumulative(segments: seq<Segment>, s: Segment, early: real, late: real)
    requires early <= late
    ensures Recent(Recent(segments, early) + [s], late) == Recent(segments + [s], late)
  {
    RecentTwice(segments, early, late);
    var kept := Recent(segments, early);
    assert (kept + [s])[..|kept|] == kept;
    assert (segments + [s])[..|segments|] == segments;
  }

  lemma {:induction false} RecentTwice(segments: seq<Segment>, early: real, late: real)
    requires early <= late
    ensures Recent(Recent(segments, early), late) == Recent(segments, late)
  {
    if segments != [] {
      var before, last := segments[..|segments| - 1], segments[|segments| - 1];
      RecentTwice(before, early, late);
      var kept := Recent(before, early);
      if last.ts >= early {
        assert (kept + [last])[..|kept|] == kept;
      } else {
        assert Recent(segments, early) == kept;
      }
    }
  }

  // Stamped in speech order, none after now.
  ghost predicate InOrder(segments: seq<Segment>, now: real) {
    && (forall i, j :: 0 <= i <= j < |segments| ==> segments[i].ts <= segments[j].ts)
    && (forall i :: 0 <= i < |segments| ==> segments[i].ts <= now)
  }

  lemma {:induction false} NothingRecent(segments: seq<Segment>, cutoff: real)
    requires forall i :: 0 <= i < |segments| ==> segments[i].ts < cutoff
    ensures Recent(segments, cutoff) == []
  {
    if segments != [] {
      NothingRecent(segments[..|segments| - 1], cutoff);
    }
  }

  // The last n segments are exactly those no older than the cutoff.
  ghost predicate Retained(segments: seq<Segment>, n: nat, cutoff: real) {
    n <= |segments| && forall k :: 0 <= k < |segments| ==> (segments[k].ts >= cutoff <==> |segments| - n <= k)
  }

  /** Joining puts one space between texts. */
  lemma JoinsWithSpaces(segments: seq<Segment>, s: Segment)
    ensures JoinTexts([]) == "" && JoinTexts([s]) == s.text
    ensures segments != [] ==> JoinTexts(segments + [s]) == JoinTexts(segments) + " " + s.text
  {
    assert (segments + [s])[..|segments|] == segments;
  }

  /** Eviction takes the oldest segments: what stays is the tail of the segments within the age bound. */
  lemma {:induction false} RecentIsTail(segments: seq<Segment>, now: real, cutoff: real)
    requires InOrder(segments, now)
    ensures |Recent(segments, cutoff)| <= |segments|
    ensures Recent(segments, cutoff) == segments[|segments| - |Recent(segments, cutoff)|..]
    ensures Retained(segments, |Recent(segments, cutoff)|, cutoff)
  {
    hide Retained;
    if segments == [] {
      RetainedNone(segments, cutoff);
    } else {
      var n := |segments| - 1;
      if segments[n].ts >= cutoff {
        RecentIsTail(segments[..n], now, cutoff);
        RetainedGrows(segments, |Recent(segments[..n], cutoff)|, cutoff);
        OneMoreBehind(segments, n - |Recent(segments[..n], cutoff)|);
      } else {
        NothingRecent(segments, cutoff);
        RetainedNone(segments, cutoff);
      }
    }
  }

  lemma RetainedNone(segments: seq<Segment>, cutoff: real)
    requires forall i :: 0 <= i < |segments| ==> segments[i].ts < cutoff
    ensures Retained(segments, 0, cutoff)
  {
  }

  lemma RetainedGrows(segments: seq<Segment>, n: nat, cutoff: real)
    requires segments != [] && segments[|segments| - 1].ts >= cutoff
    requires Retained(segments[..|segments| - 1], n, cutoff)
    ensures Retained(segments, n + 1, cutoff)
  {
    assert forall k :: 0 <= k < |segments| - 1 ==> segments[k] == segments[..|segments| - 1][k];
  }

  lemma OneMoreBehind<T>(s: seq<T>, k: nat)
    requires k < |s|
    ensures s[k..] == s[..|s| - 1][k..] + [s[|s| - 1]]
  {
  }

  lemma LanguagesGrow(segments: seq<Segment>, s: Segment)
    ensures Languages([]) == []
    ensures Languages(segments + [s]) == if s.lang != "" then Languages(segments) + [s.lang] else Languages(segments)
  {
    assert (segments + [s])[..|segments|] == segments;
  }

  lemma RunGrows(langs: seq<string>, n: nat, x: string)
    requires IsTrailingRun(langs, n)
    ensures IsTrailingRun(langs + [x], if langs != [] && langs[|langs| - 1] == x then n + 1 else 1)
  {
  }

  function LastOf(langs: seq<string>): Option<string> {
    if langs == [] then None else Some(langs[|langs| - 1])
  }

  // The last language and its run, read off the segments.
  ghost predicate Tells(lang: Option<string>, streak: nat, log: seq<Segment>) {
    IsTrailingRun(Languages(log), streak) && lang == LastOf(Languages(log))
  }

  lemma TellsOneMore(lang: Option<string>, streak: nat, log: seq<Segment>, s: Segment)
    requires Tells(lang, streak, log)
    ensures if s.lang == "" then Tells(lang, streak, log + [s])
      else Tells(Some(s.lang), if lang == Some(s.lang) then streak + 1 else 1, log + [s])
  {
    hide IsTrailingRun, Languages;
    LanguagesGrow(log, s);
    RunGrows(Languages(log), streak, s.lang);
  }

  // What is kept of a log: exactly its segments no older than the cutoff, which are its last ones.
  ghost predicate Keeps(kept: seq<Segment>, log: seq<Segment>, cutoff: real) {
    && kept == Recent(log, cutoff) && |kept| <= |log| && kept == log[|log| - |kept|..]
    && Retained(log, |kept|, cutoff)
  }

  lemma KeepsOneMore(
    kept: seq<Segment>, log: seq<Segment>, early: real, now: real, s: Segment, late: real, later: real)
    requires Keeps(kept, log, early) && InOrder(log, now) && now <= s.ts <= later && early <= late
    ensures InOrder(log + [s], later) && Keeps(Recent(kept + [s], late), log + [s], late)
  {
    hide Recent, Retained;
    EvictionIsCumulative(log, s, early, late);
    RecentIsTail(log + [s], later, late);
  }

  lemma NothingLogged(now: real, cutoff: real)
    ensures InOrder([], now) && Keeps([], [], cutoff) && Tells(None, 0, [])
    ensures JoinTexts([]) == "" && IsLongest(0.0, [])
  {
  }

  class TurnBuffer {
    var text: string
    var lang: Option<string>
    var streak: nat
    var prob: Option<real>
    var maxSegment: real
    var segments: seq<Segment>
    var event: bool
    ghost var log: seq<Segment>     // every segment since the last drain
    ghost var cutoff: real          // the age bound of the last accumulate
    ghost var now: real             // the last clock reading

    constructor ()
      ensures Valid() && log == []
    {
      text, lang, streak, prob, maxSegment, segments, event := "", None, 0, None, 0.0, [], false;
      log, cutoff, now := [], -MAX_AGE, 0.0;
    }

    // Everything read off the buffer is what the segment history says.
    ghost predicate Valid()
      reads this
    {
      && Keeps(segments, log, cutoff) && cutoff <= now - MAX_AGE
      && InOrder(log, now)
      && text == JoinTexts(segments)
      && IsLongest(maxSegment, segments)
      && (event <==> log != [])
      && Tells(lang, streak, log)
    }

    /** One recognized segment, stamped at `stamp` and evicting at `cut`, two readings of one clock. */
    method Accumulate(transcript: string, lang: string, audio: real, prob: Option<real>, stamp: real, cut: real)
      requires Valid() && now <= stamp <= cut
      modifies this
      ensures Valid()
      ensures log == if transcript == "" then old(log) else old(log) + [Segment(lang, prob, transcript, audio, stamp)]
      ensures transcript != "" ==> cutoff == cut - 30.0 && now == cut
      ensures this.prob == if transcript != "" && lang != "" then prob else old(this.prob)
      ensures Keeps(segments, log, cutoff)
      ensures transcript == "" ==> segments == old(segments) && cutoff == old(cutoff)
    {
      hide Recent, JoinTexts, IsLongest, Tells, Keeps, InOrder;
      if transcript != "" {
        var s := Segment(lang, prob, transcript, audio, stamp);
        KeepsOneMore(segments, log, cutoff, now, s, cut - MAX_AGE, cut);
        TellsOneMore(this.lang, streak, log, s);
        event := true;
        segments := Recent(segments + [s], cut - MAX_AGE);
        text := JoinTexts(segments);
        maxSegment := Longest(segments);
        if lang != "" {
          streak := if this.lang == Some(lang) then streak + 1 else 1;
          this.lang := Some(lang);
          this.prob := prob;
        }
        log := log + [s];
        cutoff := cut - MAX_AGE;
        now := cut;
      }
    }

    // Drained once per conversational turn.
    method TakeTurnTranscript() returns (transcript: string, detected: Option<string>)
      requires Valid()
      modifies this
      ensures Valid() && log == [] && segments == [] && !event && streak == 0 && now == old(now)
      ensures lang.None? && prob.None?
      ensures transcript == Strip(JoinTexts(old(segments)))
      ensures detected == old(lang)
    {
      hide JoinTexts, Strip, Keeps, InOrder, Tells, IsLongest;
      NothingLogged(now, cutoff);
      transcript, detected := Strip(text), lang;
      text, lang, streak, prob, segments, maxSegment, event := "", None, 0, None, [], 0.0, false;
      log := [];
    }
  }
}

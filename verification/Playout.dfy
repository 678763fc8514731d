/** The playout clock: when the queued agent audio will have been played, and what the silence
    watchdog makes of it. */
module Playout {
  const ONLINE_CHECK := "is_user_online_message"
  const STALL_HANGUP_FLOOR := 20.0

  function Max(a: real, b: real): real { if a >= b then a else b }

  function Min(a: real, b: real): real { if a <= b then a else b }

  // A chunk handed over at `at`, lasting `duration`.
  datatype Chunk = Chunk(at: real, duration: real, kind: string) {
    // Silent chunks and the online check do not move the clock.
    predicate Counts() { duration > 0.0 && kind != ONLINE_CHECK }
  }

  datatype Event = Queued(chunk: Chunk) | Dropped

  // The source's recurrence.
  function Clock(events: seq<Event>): real {
    if events == [] then 0.0
    else
      var before := Clock(events[..|events| - 1]);
      match events[|events| - 1]
      case Queued(c) => if c.Counts() then Max(before, c.at) + c.duration else before
      case Dropped => 0.0
  }

  // The chunks counted since the last drop.
  function Pending(events: seq<Event>): (r: seq<Chunk>)
    ensures forall i :: 0 <= i < |r| ==> r[i].Counts() && Queued(r[i]) in events
  {
    if events == [] then []
    else
      var before := Pending(events[..|events| - 1]);
      match events[|events| - 1]
      case Queued(c) => if c.Counts() then before + [c] else before
      case Dropped => []
  }

  function Length(chunks: seq<Chunk>): real {
    if chunks == [] then 0.0 else Length(chunks[..|chunks| - 1]) + chunks[|chunks| - 1].duration
  }

  // If the audio from chunk j on plays without a gap, it ends here.
  function EndsFrom(chunks: seq<Chunk>, j: nat): real
    requires j < |chunks|
  {
    chunks[j].at + Length(chunks[j..])
  }

  ghost predicate IsMax(m: real, chunks: seq<Chunk>) {
    && (forall j :: 0 <= j < |chunks| ==> EndsFrom(chunks, j) <= m)
    && (exists j :: 0 <= j < |chunks| && EndsFrom(chunks, j) == m)
  }

  ghost predicate SentAfterEpoch(events: seq<Event>) {
    forall e :: e in events && e.Queued? ==> e.chunk.at >= 0.0
  }

  lemma EndsFromGrows(chunks: seq<Chunk>, c: Chunk, j: nat)
    requires j < |chunks|
    ensures EndsFrom(chunks + [c], j) == EndsFrom(chunks, j) + c.duration
  {
    var tail := (chunks + [c])[j..];
    assert tail == chunks[j..] + [c];
    assert tail[..|tail| - 1] == chunks[j..];
  }

  lemma EndsFromLast(chunks: seq<Chunk>, c: Chunk)
    ensures EndsFrom(chunks + [c], |chunks|) == c.at + c.duration
  {
    var tail := (chunks + [c])[|chunks|..];
    assert tail == [c];
    assert tail[..|tail| - 1] == [] && Length([]) == 0.0;
    assert Length(tail) == c.duration;
  }

  lemma AppendMax(m: real, chunks: seq<Chunk>, c: Chunk)
    requires if chunks == [] then m == 0.0 && c.at >= 0.0 else IsMax(m, chunks)
    ensures IsMax(Max(m, c.at) + c.duration, chunks + [c])
  {
    var m', all := Max(m, c.at) + c.duration, chunks + [c];
    EndsFromLast(chunks, c);
    forall j | 0 <= j < |all| ensures EndsFrom(all, j) <= m' {
      if j < |chunks| { EndsFromGrows(chunks, c, j); }
    }
    if chunks == [] || c.at >= m {
      assert EndsFrom(all, |chunks|) == m';
    } else {
      var j :| 0 <= j < |chunks| && EndsFrom(chunks, j) == m;
      EndsFromGrows(chunks, c, j);
      assert EndsFrom(all, j) == m';
    }
  }

  /** MAIN: for every run of queued chunks and drops, in whatever order the send times come, the clock
      is the maximum over the counted chunks j since the last drop of `sent at j + everything from j on`,
      and 0 when there are none. */
  lemma {:induction false} ClosedForm(events: seq<Event>)
    requires SentAfterEpoch(events)
    ensures if Pending(events) == [] then Clock(events) == 0.0 else IsMax(Clock(events), Pending(events))
  {
    if events != [] {
      var before, e := events[..|events| - 1], events[|events| - 1];
      assert SentAfterEpoch(before);
      ClosedForm(before);
      if e.Queued? && e.chunk.Counts() {
        assert e in events;
        AppendMax(Clock(before), Pending(before), e.chunk);
      }
    }
  }

  // From chunk j on, more audio was handed over than time has passed since.
  predicate AheadFrom(chunks: seq<Chunk>, j: nat, now: real) {
    j < |chunks| && now - chunks[j].at < Length(chunks[j..])
  }

  ghost predicate Ahead(chunks: seq<Chunk>, now: real) {
    exists j: nat :: AheadFrom(chunks, j, now)
  }

  /** So audio is estimated to be playing at `now` exactly when the call is ahead from some chunk on. */
  lemma StillPlayingIff(events: seq<Event>, now: real)
    requires SentAfterEpoch(events) && now >= 0.0
    ensures now < Clock(events) <==> Ahead(Pending(events), now)
  {
    hide Length;
    ClosedForm(events);
    var chunks := Pending(events);
    if now < Clock(events) {
      var j :| 0 <= j < |chunks| && EndsFrom(chunks, j) == Clock(events);
      assert AheadFrom(chunks, j, now);
      assert Ahead(chunks, now);
    } else {
      forall j: nat ensures !AheadFrom(chunks, j, now) {
        assert j < |chunks| ==> EndsFrom(chunks, j) <= Clock(events);
      }
    }
  }

  // ---------- The clock object ----------

  class PlayoutClock {
    var audioPlayingUntil: real
    ghost var events: seq<Event>

    constructor ()
      ensures events == [] && Valid()
    {
      audioPlayingUntil, events := 0.0, [];
    }

    ghost predicate Valid()
      reads this
    {
      audioPlayingUntil == Clock(events)
    }

    method NoteAudioQueued(duration: real, kind: string, now: real)
      requires Valid()
      modifies this
      ensures Valid() && events == old(events) + [Queued(Chunk(now, duration, kind))]
      ensures audioPlayingUntil ==
        if duration <= 0.0 || kind == "is_user_online_message" then old(audioPlayingUntil)
        else (if old(audioPlayingUntil) >= now then old(audioPlayingUntil) else now) + duration
      ensures audioPlayingUntil >= old(audioPlayingUntil)
    {
      hide Pending;
      events := events + [Queued(Chunk(now, duration, kind))];
      assert events[..|events| - 1] == old(events);
      if duration <= 0.0 || kind == ONLINE_CHECK {
        return;
      }
      audioPlayingUntil := Max(audioPlayingUntil, now) + duration;
    }

    method DropPlayoutEstimate()
      requires Valid()
      modifies this
      ensures Valid() && events == old(events) + [Dropped] && audioPlayingUntil == 0.0
    {
      events := events + [Dropped];
      assert events[..|events| - 1] == old(events);
      audioPlayingUntil := 0.0;
    }
  }

  // ---------- The silence watchdog ----------

  function LastAiAudio(lastTransmitted: real, now: real, playingUntil: real): real {
    Max(lastTransmitted, Min(now, playingUntil))
  }

  function Silence(lastTransmitted: real, now: real, playingUntil: real): real {
    now - LastAiAudio(lastTransmitted, now, playingUntil)
  }

  predicate StallHangup(hangAfter: real, audioPlaying: bool, generating: bool, aiSilence: real, userSilence: real) {
    hangAfter > 0.0 &&
    var timeout := Max(hangAfter, STALL_HANGUP_FLOOR);
    !audioPlaying && !generating && aiSilence > timeout && userSilence > timeout
  }

  /** MAIN: the measured silence lies between 0 and the time since the last transmitted chunk; it is 0
      while queued audio plays and counts from the end of the audio afterwards; so the estimate can delay
      a stall hangup and never cause one. */
  lemma EstimateOnlyDelays(
    lastTransmitted: real, now: real, playingUntil: real,
    hangAfter: real, audioPlaying: bool, generating: bool, userSilence: real)
    requires lastTransmitted <= now
    ensures var s := Silence(lastTransmitted, now, playingUntil);
      var plain := now - lastTransmitted;
      && 0.0 <= s <= plain
      && (now <= playingUntil ==> s == 0.0)
      && (playingUntil < now ==> s == Min(plain, now - playingUntil))
      && (StallHangup(hangAfter, audioPlaying, generating, s, userSilence) <==>
            StallHangup(hangAfter, audioPlaying, generating, plain, userSilence)
            && playingUntil < now - Max(hangAfter, STALL_HANGUP_FLOOR))
  {
  }

  /** A stall is hung up on exactly when that is switched on, nothing plays or is being generated, and both
      sides have been silent for longer than the limit set and for longer than 20 seconds. */
  lemma HangupIff(hangAfter: real, audioPlaying: bool, generating: bool, aiSilence: real, userSilence: real)
    ensures StallHangup(hangAfter, audioPlaying, generating, aiSilence, userSilence) <==>
      && hangAfter > 0.0 && !audioPlaying && !generating
      && aiSilence > hangAfter && aiSilence > 20.0 && userSilence > hangAfter && userSilence > 20.0
  {
  }

  /** A hangup that goes ahead comes after every counted chunk, played without a gap, ended more than
      the stall timeout ago. */
  lemma {:induction false} HangupAfterAllAudio(
    events: seq<Event>, lastTransmitted: real, now: real,
    hangAfter: real, audioPlaying: bool, generating: bool, userSilence: real, j: nat)
    requires SentAfterEpoch(events) && lastTransmitted <= now && j < |Pending(events)|
    requires StallHangup(hangAfter, audioPlaying, generating,
      Silence(lastTransmitted, now, Clock(events)), userSilence)
    ensures EndsFrom(Pending(events), j) < now - Max(hangAfter, STALL_HANGUP_FLOOR)
  {
    hide Clock, Pending, Length;
    ClosedForm(events);
    EstimateOnlyDelays(lastTransmitted, now, Clock(events), hangAfter, audioPlaying, generating, userSilence);
  }
}

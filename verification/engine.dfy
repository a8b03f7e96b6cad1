/**
 * The echo-suppression policy of the playback sync engine, as pure functions
 * over the three-field `sharedStatus` record. Each of the `play`, `pause` and
 * `seeked` listeners becomes a step function that yields the new status and
 * the messages broadcast; `Run` folds a sequence of local media events.
 * The wall clock (`Date.now()`) is a parameter in milliseconds.
 */
module Engine {
  import opened Messages

  /** The latency window, in milliseconds, within which a play after a
      broadcast pause is taken for an echo. */
  const MAX_LATENCY: nat := 500

  datatype Status = Status(lastSeekTime: real, lastPauseTime: nat, isPaused: bool)

  /** `sharedStatus` when the panel is first opened. */
  const INITIAL: Status := Status(0.0, 0, true)

  /** The status after a listener ran, and what it broadcast (in order). */
  datatype Step = Step(status: Status, sent: seq<Message>)

  /** A local media-element event, with the clock reading or the element's
      `currentTime` that its listener looks at. */
  datatype LocalEvent = PlayEvent(now: nat) | PauseEvent(now: nat) | SeekedEvent(currentTime: real)

  /** The `play` listener: broadcast PLAY only when the engine believes the
      video paused and strictly more than MAX_LATENCY ms passed since the last
      broadcast pause. */
  function PlayStep(s: Status, now: nat): (r: Step)
    ensures r.sent == [Play] <==> s.isPaused && now - s.lastPauseTime > MAX_LATENCY
    ensures r.sent == [] <==> !(s.isPaused && now - s.lastPauseTime > MAX_LATENCY)
    ensures r.sent == [] ==> r.status == s
    ensures r.sent != [] ==> r.status == s.(isPaused := false)
  {
    if s.isPaused && now - s.lastPauseTime > MAX_LATENCY then
      Step(s.(isPaused := false), [Play])
    else
      Step(s, [])
  }

  /** The `pause` listener: broadcast PAUSE only when the engine believes the
      video playing; the pause time is recorded only together with that
      broadcast. */
  function PauseStep(s: Status, now: nat): (r: Step)
    ensures r.sent == [Pause] <==> !s.isPaused
    ensures r.sent == [] <==> s.isPaused
    ensures r.status.isPaused
    ensures r.sent == [] ==> r.status == s
    ensures r.sent != [] ==> r.status.lastPauseTime == now && r.status.lastSeekTime == s.lastSeekTime
  {
    if !s.isPaused then
      Step(s.(isPaused := true, lastPauseTime := now), [Pause])
    else
      Step(s, [])
  }

  /** The `seeked` listener: broadcast the element's position only when it
      differs (exactly, no epsilon) from the last one recorded; either way the
      recorded position is the element's position afterwards. */
  function SeekedStep(s: Status, currentTime: real): (r: Step)
    ensures r.sent == [Seek(currentTime)] <==> currentTime != s.lastSeekTime
    ensures r.sent == [] <==> currentTime == s.lastSeekTime
    ensures r.status == s.(lastSeekTime := currentTime)
  {
    if s.lastSeekTime != currentTime then
      Step(s.(lastSeekTime := currentTime), [Seek(currentTime)])
    else
      Step(s, [])
  }

  function Handle(s: Status, e: LocalEvent): (r: Step)
    ensures |r.sent| <= 1
    ensures forall m | m in r.sent :: IsBroadcast(m)
  {
    match e
    case PlayEvent(now) => PlayStep(s, now)
    case PauseEvent(now) => PauseStep(s, now)
    case SeekedEvent(t) => SeekedStep(s, t)
  }

  /** The listeners run one event at a time, in arrival order. */
  function Run(s: Status, evs: seq<LocalEvent>): (r: Step)
    ensures |r.sent| <= |evs|
    ensures forall m | m in r.sent :: IsBroadcast(m)
    decreases |evs|
  {
    if evs == [] then Step(s, [])
    else
      var first := Handle(s, evs[0]);
      var rest := Run(first.status, evs[1..]);
      Step(rest.status, first.sent + rest.sent)
  }

  /** The message that opens the next play/pause transition: PLAY when the
      engine believes the video paused, PAUSE otherwise. */
  function Expected(paused: bool): Message {
    if paused then Play else Pause
  }

  /** Leaving SEEK messages aside, `ms` alternates PLAY and PAUSE, starting
      with the one that `paused` calls for. */
  predicate Alternates(ms: seq<Message>, paused: bool)
    decreases |ms|
  {
    ms == [] ||
    (if ms[0].Seek? then Alternates(ms[1..], paused)
     else ms[0] == Expected(paused) && Alternates(ms[1..], !paused))
  }

  /** The logical paused flag after the play/pause messages of `ms`. */
  function PausedAfter(ms: seq<Message>, paused: bool): bool
    decreases |ms|
  {
    if ms == [] then paused
    else if ms[0] == Play then PausedAfter(ms[1..], false)
    else if ms[0] == Pause then PausedAfter(ms[1..], true)
    else PausedAfter(ms[1..], paused)
  }

  /** For every sequence of local events, the PLAY and PAUSE broadcasts
      alternate (never two PLAYs or two PAUSEs in a row), and `isPaused`
      always equals "the last of them was a PAUSE" (or its start value when
      none was sent). From INITIAL the first one is therefore a PLAY. */
  lemma {:induction false} PlayPauseAlternate(s: Status, evs: seq<LocalEvent>)
    ensures Alternates(Run(s, evs).sent, s.isPaused)
    ensures Run(s, evs).status.isPaused == PausedAfter(Run(s, evs).sent, s.isPaused)
    decreases |evs|
  {
    if evs != [] {
      var first := Handle(s, evs[0]);
      var rest := Run(first.status, evs[1..]);
      PlayPauseAlternate(first.status, evs[1..]);
      if first.sent != [] {
        var m := first.sent[0];
        assert first.sent == [m];
        var all := first.sent + rest.sent;
        assert all[0] == m && all[1..] == rest.sent;
        match evs[0]
        case PlayEvent(_) => assert m == Play && s.isPaused && !first.status.isPaused;
        case PauseEvent(_) => assert m == Pause && !s.isPaused && first.status.isPaused;
        case SeekedEvent(_) => assert m.Seek? && first.status.isPaused == s.isPaused;
      } else {
        assert first.sent + rest.sent == rest.sent;
      }
    }
  }

  /** The positions of the SEEK messages in `ms`, in order, each differ from
      the one before (the first from `last`). */
  predicate SeeksChange(ms: seq<Message>, last: real)
    decreases |ms|
  {
    ms == [] ||
    (if ms[0].Seek? then ms[0].t != last && SeeksChange(ms[1..], ms[0].t)
     else SeeksChange(ms[1..], last))
  }

  /** The position of the last seeked event of `evs`, or `last` if none. */
  function LastSeek(evs: seq<LocalEvent>, last: real): real
    decreases |evs|
  {
    if evs == [] then last
    else if evs[0].SeekedEvent? then LastSeek(evs[1..], evs[0].currentTime)
    else LastSeek(evs[1..], last)
  }

  /** For every sequence of local events, `lastSeekTime` ends as the position
      of the last seeked event, and no two consecutive SEEK broadcasts carry
      the same position: a seek to the value already recorded is never sent. */
  lemma {:induction false} SeekTrace(s: Status, evs: seq<LocalEvent>)
    ensures Run(s, evs).status.lastSeekTime == LastSeek(evs, s.lastSeekTime)
    ensures SeeksChange(Run(s, evs).sent, s.lastSeekTime)
    decreases |evs|
  {
    if evs != [] {
      var first := Handle(s, evs[0]);
      var rest := Run(first.status, evs[1..]);
      SeekTrace(first.status, evs[1..]);
      if first.sent != [] {
        var m := first.sent[0];
        var all := first.sent + rest.sent;
        assert all[0] == m && all[1..] == rest.sent;
        if m.Seek? {
          assert evs[0] == SeekedEvent(m.t) && m.t != s.lastSeekTime;
        } else {
          assert first.status.lastSeekTime == s.lastSeekTime;
        }
      } else {
        assert first.sent + rest.sent == rest.sent;
      }
    }
  }

  /** Two seeked events in a row at the same position broadcast one SEEK at
      most, and none if the position was already recorded. */
  lemma SeekTwiceSendsOnce(s: Status, t: real)
    ensures Run(s, [SeekedEvent(t), SeekedEvent(t)]).sent ==
            (if t != s.lastSeekTime then [Seek(t)] else [])
  {
  }

  /** The heuristic's known blind spot: a genuine replay within MAX_LATENCY ms
      of a broadcast pause is swallowed, so peers see only the PAUSE and the
      engine still believes the video paused. */
  lemma QuickReplayIsSuppressed(s: Status, p: nat, d: nat)
    requires !s.isPaused && d <= MAX_LATENCY
    ensures Run(s, [PauseEvent(p), PlayEvent(p + d)]) ==
            Step(s.(isPaused := true, lastPauseTime := p), [Pause])
  {
    var evs := [PauseEvent(p), PlayEvent(p + d)];
    var paused := s.(isPaused := true, lastPauseTime := p);
    assert evs[1..] == [PlayEvent(p + d)];
    assert Run(paused, evs[1..]) == Step(paused, []) by {
      assert evs[1..][1..] == [];
    }
    assert [Pause] + [] == [Pause];
  }

  /** A replay strictly later than MAX_LATENCY ms after the broadcast pause
      is broadcast. */
  lemma SlowReplayIsSent(s: Status, p: nat, d: nat)
    requires !s.isPaused && d > MAX_LATENCY
    ensures Run(s, [PauseEvent(p), PlayEvent(p + d)]) ==
            Step(s.(isPaused := false, lastPauseTime := p), [Pause, Play])
  {
    var evs := [PauseEvent(p), PlayEvent(p + d)];
    var paused := s.(isPaused := true, lastPauseTime := p);
    assert evs[1..] == [PlayEvent(p + d)];
    assert Run(paused, evs[1..]) == Step(paused.(isPaused := false), [Play]) by {
      assert evs[1..][1..] == [];
    }
    assert [Pause] + [Play] == [Pause, Play];
  }

  /** The local event that applying a broadcast message raises at a peer:
      `play()` and `pause()` raise play and pause, writing `currentTime`
      raises seeked at that position. */
  function EchoEvent(m: Message, now: nat): (e: LocalEvent)
    requires IsBroadcast(m)
    ensures Dispatch(m) == CallPlay ==> e == PlayEvent(now)
    ensures Dispatch(m) == CallPause ==> e == PauseEvent(now)
    ensures Dispatch(m).SetCurrentTime? ==> e == SeekedEvent(Dispatch(m).t)
  {
    match m
    case Play => PlayEvent(now)
    case Pause => PauseEvent(now)
    case Seek(t) => SeekedEvent(t)
  }

  /** A peer that applies a received broadcast answers with that same message
      or with nothing. */
  lemma EchoMirrors(b: Status, m: Message, now: nat)
    requires IsBroadcast(m)
    ensures Handle(b, EchoEvent(m, now)).sent in {[], [m]}
  {
  }

  /** PLAY and PAUSE are one kind of message (they move `isPaused`), SEEK is
      the other (it moves `lastSeekTime`). */
  predicate SameKind(x: Message, m: Message) {
    x.Seek? == m.Seek?
  }

  /** A run that broadcasts no PLAY and no PAUSE leaves `isPaused` as it was. */
  lemma {:induction false} QuietRunKeepsPaused(s: Status, evs: seq<LocalEvent>)
    requires forall x | x in Run(s, evs).sent :: x.Seek?
    ensures Run(s, evs).status.isPaused == s.isPaused
    decreases |evs|
  {
    if evs != [] {
      var first := Handle(s, evs[0]);
      var rest := Run(first.status, evs[1..]);
      assert forall x | x in first.sent :: x in first.sent + rest.sent;
      assert forall x | x in rest.sent :: x in first.sent + rest.sent;
      match evs[0] {
        case PlayEvent(now) => assert Play !in first.sent;
        case PauseEvent(now) => assert Pause !in first.sent;
        case SeekedEvent(t) =>
      }
      assert first.status.isPaused == s.isPaused;
      QuietRunKeepsPaused(first.status, evs[1..]);
    }
  }

  /** A run that broadcasts no SEEK leaves `lastSeekTime` as it was: a seeked
      event that sends nothing was at the recorded position already. */
  lemma {:induction false} QuietRunKeepsLastSeek(s: Status, evs: seq<LocalEvent>)
    requires forall x | x in Run(s, evs).sent :: !x.Seek?
    ensures Run(s, evs).status.lastSeekTime == s.lastSeekTime
    decreases |evs|
  {
    if evs != [] {
      var first := Handle(s, evs[0]);
      var rest := Run(first.status, evs[1..]);
      assert forall x | x in first.sent :: x in first.sent + rest.sent;
      assert forall x | x in rest.sent :: x in first.sent + rest.sent;
      match evs[0] {
        case PlayEvent(now) =>
        case PauseEvent(now) =>
        case SeekedEvent(t) => assert Seek(t) !in first.sent;
      }
      assert first.status.lastSeekTime == s.lastSeekTime;
      QuietRunKeepsLastSeek(first.status, evs[1..]);
    }
  }

  /** No feedback loop: when a local event made this peer broadcast `m`, the
      echo of `m` coming back (applied to the element, whatever the clock)
      broadcasts nothing, provided the events handled in between (`mid`,
      possibly none) broadcast no message of `m`'s kind. So a message
      bounces at most once unless a new local change of the same kind
      overtakes its echo. */
  lemma EchoIsSuppressed(a: Status, e: LocalEvent, mid: seq<LocalEvent>, later: nat)
    ensures var after := Handle(a, e).status;
      forall m | m in Handle(a, e).sent && (forall x | x in Run(after, mid).sent :: !SameKind(x, m)) ::
        Handle(Run(after, mid).status, EchoEvent(m, later)).sent == []
  {
    var after := Handle(a, e).status;
    forall m | m in Handle(a, e).sent && (forall x | x in Run(after, mid).sent :: !SameKind(x, m))
      ensures Handle(Run(after, mid).status, EchoEvent(m, later)).sent == []
    {
      if m.Seek? {
        QuietRunKeepsLastSeek(after, mid);
      } else {
        QuietRunKeepsPaused(after, mid);
      }
    }
  }
}

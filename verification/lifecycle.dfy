/**
 * The life of one peer link as seen by the registry, as pure state machines
 * over the transport's callbacks. `copies` is how many times the link stands
 * in `currentConnections`.
 *
 * Two kinds of link exist:
 *  - an outgoing attempt of the current content script, registered at once
 *    and guarded by a 20-second timer that `open` clears and that, when it
 *    fires, closes and unregisters the link;
 *  - a link registered only on `open` (every incoming link, and the outgoing
 *    links of the older content script), with no timer.
 * Both unregister on `close` and on `error`.
 */
module Lifecycle {

  /** How long an outgoing attempt may stay unopened, in milliseconds; the
      timer firing is the `Timeout` event. */
  const CONNECT_TIMEOUT_MS: nat := 20000

  datatype TimerState = TimerPending | TimerCleared | TimedOut

  /** A transport callback, or the attempt's timer firing. */
  datatype LinkEvent = Open | Timeout | Close | Error

  /** An outgoing attempt: its timer, its registrations, and how many times
      the timeout callback ran its close-and-unregister body. */
  datatype Attempt = Attempt(timer: TimerState, copies: nat, teardowns: nat)

  /** Just after the connect button: registered once, timer running. */
  const CONNECTING: Attempt := Attempt(TimerPending, 1, 0)

  /** One `unregisterConnection`: one registration fewer, none when absent. */
  function Dec(n: nat): nat {
    if n == 0 then 0 else n - 1
  }

  /** The single-use guard between promotion and teardown: at most one
      registration, the teardown ran at most once and exactly when the timer
      fired, and a timed-out link is not registered. */
  ghost predicate Sound(a: Attempt) {
    && a.copies <= 1
    && a.teardowns <= 1
    && (a.teardowns == 1 <==> a.timer == TimedOut)
    && (a.timer == TimedOut ==> a.copies == 0)
  }

  /** `open` clears a pending timer (clearing a fired one has no effect); a
      pending timer that fires closes the link and unregisters it; a cleared
      or fired timer never fires; `close` and `error` unregister. */
  function AttemptStep(a: Attempt, e: LinkEvent): (r: Attempt)
    ensures r.teardowns == a.teardowns + 1 <==> a.timer == TimerPending && e == Timeout
    ensures r.teardowns != a.teardowns + 1 ==> r.teardowns == a.teardowns
    ensures r.timer == TimerCleared <==> a.timer == TimerCleared || (a.timer == TimerPending && e == Open)
    ensures a.timer != TimerPending ==> r.timer == a.timer
    ensures r.copies == (if e == Close || e == Error || r.teardowns != a.teardowns then Dec(a.copies) else a.copies)
    ensures Sound(a) ==> Sound(r)
  {
    match e
    case Open => if a.timer == TimerPending then a.(timer := TimerCleared) else a
    case Timeout =>
      if a.timer == TimerPending then Attempt(TimedOut, Dec(a.copies), a.teardowns + 1) else a
    case Close => a.(copies := Dec(a.copies))
    case Error => a.(copies := Dec(a.copies))
  }

  function AttemptRun(a: Attempt, evs: seq<LinkEvent>): Attempt
    decreases |evs|
  {
    if evs == [] then a else AttemptRun(AttemptStep(a, evs[0]), evs[1..])
  }

  /** No `close` and no `error` among `evs`. */
  predicate NoCloseOrError(evs: seq<LinkEvent>) {
    forall i | 0 <= i < |evs| :: evs[i] != Close && evs[i] != Error
  }

  /** A pending timer fires: `Timeout` comes before any `Open`. */
  predicate TimerFires(evs: seq<LinkEvent>)
    decreases |evs|
  {
    evs != [] && (evs[0] == Timeout || (evs[0] != Open && TimerFires(evs[1..])))
  }

  /** Every run keeps the single-use guard. */
  lemma {:induction false} AttemptRunSound(a: Attempt, evs: seq<LinkEvent>)
    requires Sound(a)
    ensures Sound(AttemptRun(a, evs))
    decreases |evs|
  {
    if evs != [] {
      AttemptRunSound(AttemptStep(a, evs[0]), evs[1..]);
    }
  }

  /** What a run of callbacks leaves: the link stays registered exactly when
      it was, no `close` or `error` came, and the timer (if still pending) did
      not fire before `open`; the teardown runs once exactly in that last
      case. */
  lemma {:induction false} AttemptRunOutcome(a: Attempt, evs: seq<LinkEvent>)
    requires Sound(a)
    ensures var fired := a.timer == TimerPending && TimerFires(evs);
      && AttemptRun(a, evs).copies == (if a.copies == 1 && NoCloseOrError(evs) && !fired then 1 else 0)
      && AttemptRun(a, evs).teardowns == a.teardowns + (if fired then 1 else 0)
      && (a.timer != TimerPending ==> AttemptRun(a, evs).timer == a.timer)
    decreases |evs|
  {
    if evs != [] {
      var b := AttemptStep(a, evs[0]);
      AttemptRunOutcome(b, evs[1..]);
      assert NoCloseOrError(evs) <==> evs[0] != Close && evs[0] != Error && NoCloseOrError(evs[1..]) by {
        if evs[0] != Close && evs[0] != Error && NoCloseOrError(evs[1..]) {
          forall i | 0 <= i < |evs| ensures evs[i] != Close && evs[i] != Error {
            if i > 0 { assert evs[i] == evs[1..][i - 1]; }
          }
        }
        if NoCloseOrError(evs) {
          forall i | 0 <= i < |evs[1..]| ensures evs[1..][i] != Close && evs[1..][i] != Error {
            assert evs[1..][i] == evs[i + 1];
          }
        }
      }
    }
  }

  /** Scenario: the transport opens before the timer fires. The timer is
      cancelled, the teardown never runs, and the link stays registered until
      a `close` or `error`. */
  lemma OpenedAttemptStays(evs: seq<LinkEvent>)
    ensures AttemptRun(CONNECTING, [Open] + evs).timer == TimerCleared
    ensures AttemptRun(CONNECTING, [Open] + evs).teardowns == 0
    ensures AttemptRun(CONNECTING, [Open] + evs).copies == (if NoCloseOrError(evs) then 1 else 0)
  {
    var all := [Open] + evs;
    assert all[1..] == evs;
    var cleared := AttemptStep(CONNECTING, Open);
    AttemptRunOutcome(cleared, evs);
  }

  /** Scenario: the transport never opens. The timer closes and unregisters
      the link, and nothing afterwards (in particular the `close` that
      closing raises) registers it again or runs the teardown again. */
  lemma UnopenedAttemptTimesOut(evs: seq<LinkEvent>)
    ensures AttemptRun(CONNECTING, [Timeout] + evs) == Attempt(TimedOut, 0, 1)
  {
    var all := [Timeout] + evs;
    assert all[1..] == evs;
    var gone := AttemptStep(CONNECTING, Timeout);
    AttemptRunOutcome(gone, evs);
  }

  /** A link registered only on `open`, with no timer (`Timeout` never
      happens to it and changes nothing). `registerConnection` does not
      deduplicate, so each `open` adds a registration. */
  function GatedStep(copies: nat, e: LinkEvent): (r: nat)
    ensures e == Open ==> r == copies + 1
    ensures e == Close || e == Error ==> r == Dec(copies)
    ensures e == Timeout ==> r == copies
  {
    match e
    case Open => copies + 1
    case Close => Dec(copies)
    case Error => Dec(copies)
    case Timeout => copies
  }

  function GatedRun(copies: nat, evs: seq<LinkEvent>): nat
    decreases |evs|
  {
    if evs == [] then copies else GatedRun(GatedStep(copies, evs[0]), evs[1..])
  }

  /** How many `open` callbacks `evs` holds. */
  function Opens(evs: seq<LinkEvent>): nat
    decreases |evs|
  {
    if evs == [] then 0 else (if evs[0] == Open then 1 else 0) + Opens(evs[1..])
  }

  /** Some `open` in `evs` is followed by no `close` and no `error`. */
  predicate OpenedAndLive(evs: seq<LinkEvent>)
    decreases |evs|
  {
    evs != [] && ((evs[0] == Open && NoCloseOrError(evs[1..])) || OpenedAndLive(evs[1..]))
  }

  /** With the transport's one `open` per link, a link registered on `open`
      stands in the registry exactly once when it opened and was not closed
      or errored since, and not at all otherwise. */
  lemma {:induction false} GatedRunOutcome(copies: nat, evs: seq<LinkEvent>)
    requires copies + Opens(evs) <= 1
    ensures GatedRun(copies, evs) ==
            (if (copies == 1 && NoCloseOrError(evs)) || OpenedAndLive(evs) then 1 else 0)
    decreases |evs|
  {
    if evs != [] {
      GatedRunOutcome(GatedStep(copies, evs[0]), evs[1..]);
      assert NoCloseOrError(evs) <==> evs[0] != Close && evs[0] != Error && NoCloseOrError(evs[1..]) by {
        if evs[0] != Close && evs[0] != Error && NoCloseOrError(evs[1..]) {
          forall i | 0 <= i < |evs| ensures evs[i] != Close && evs[i] != Error {
            if i > 0 { assert evs[i] == evs[1..][i - 1]; }
          }
        }
        if NoCloseOrError(evs) {
          forall i | 0 <= i < |evs[1..]| ensures evs[1..][i] != Close && evs[1..][i] != Error {
            assert evs[1..][i] == evs[i + 1];
          }
        }
      }
    }
  }
}

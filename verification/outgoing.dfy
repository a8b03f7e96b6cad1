/**
 * The outgoing connection attempt of the current content script: the link
 * is registered as soon as it is dialled, a 20-second timer closes and
 * unregisters it unless `open` clears the timer first, and `close` and
 * `error` unregister it. Its `data` callback is `Session.ReceiveData`.
 */
module Outgoing {
  import opened Registry
  import opened Page
  import opened Sync
  import opened Lifecycle

  /** The closure state of one connect click: the link and its timer handle. */
  class ConnectAttempt {
    const conn: Link
    var timer: TimerState
    /** How many times the timeout callback ran its body. */
    ghost var teardowns: nat

    constructor (conn: Link)
      ensures this.conn == conn && timer == TimerPending && teardowns == 0
    {
      this.conn := conn;
      timer := TimerPending;
      teardowns := 0;
    }
  }

  /** The attempt as the pure lifecycle sees it. */
  ghost function View(s: Session, at: ConnectAttempt): Attempt
    reads s, at
  {
    Attempt(at.timer, multiset(s.connections)[at.conn], at.teardowns)
  }

  /** The connect button: dial, register the new link at once, start the
      timer. */
  method Connect(s: Session, remotePeerId: string) returns (at: ConnectAttempt)
    requires s.Valid()
    modifies s`connections, s`elements
    ensures s.Valid()
    ensures fresh(at) && fresh(at.conn) && at.conn.peer == remotePeerId
    ensures s.connections == old(s.connections) + [at.conn]
    ensures |s.elements| == old(|s.elements|) + 1
    ensures s.elements[..old(|s.elements|)] == old(s.elements)
    ensures fresh(s.elements[old(|s.elements|)])
    ensures View(s, at) == CONNECTING
  {
    var conn := new Link(remotePeerId);
    assert conn !in s.connections;
    s.RegisterConnection(conn);
    at := new ConnectAttempt(conn);
  }

  /** `conn.on('open')`: clear the timer (a fired one is unaffected). */
  method OnOpen(s: Session, at: ConnectAttempt)
    modifies at`timer
    ensures View(s, at) == AttemptStep(old(View(s, at)), Open)
  {
    if at.timer == TimerPending {
      at.timer := TimerCleared;
    }
  }

  /** The timer callback: runs only while the timer is pending; it closes the
      link (a transport call; the `close` it raises arrives as `OnClose`) and
      unregisters it. */
  method OnTimeout(s: Session, at: ConnectAttempt)
    requires s.Valid()
    modifies s`connections, s`elements, at`timer, at`teardowns
    ensures s.Valid()
    ensures s.connections ==
      if old(at.timer) == TimerPending then Unregistered(old(s.connections), at.conn)
      else old(s.connections)
    ensures s.elements ==
      if old(at.timer) == TimerPending then
        (if at.conn in old(s.connections)
        then RemoveAt(old(s.elements), IndexOf(old(s.connections), at.conn))
        else old(s.elements))
      else old(s.elements)
    ensures View(s, at) == AttemptStep(old(View(s, at)), Timeout)
  {
    ghost var before := View(s, at);
    if at.timer == TimerPending {
      ghost var conns := s.connections;
      at.timer := TimedOut;
      at.teardowns := at.teardowns + 1;
      s.UnregisterConnection(at.conn);
      assert multiset(s.connections) == multiset(conns) - multiset{at.conn};
      assert View(s, at) == Attempt(TimedOut, Dec(before.copies), before.teardowns + 1);
      assert AttemptStep(before, Timeout) == View(s, at);
    } else {
      assert AttemptStep(before, Timeout) == before;
    }
  }

  /** `conn.on('close')`: unregister; the timer is left as it is. */
  method OnClose(s: Session, at: ConnectAttempt)
    requires s.Valid()
    modifies s`connections, s`elements
    ensures s.Valid()
    ensures s.connections == Unregistered(old(s.connections), at.conn)
    ensures s.elements ==
      if at.conn in old(s.connections)
        then RemoveAt(old(s.elements), IndexOf(old(s.connections), at.conn))
        else old(s.elements)
    ensures View(s, at) == AttemptStep(old(View(s, at)), Close)
  {
    s.UnregisterConnection(at.conn);
  }

  /** `conn.on('error')`: unregister; the timer is left as it is. */
  method OnError(s: Session, at: ConnectAttempt)
    requires s.Valid()
    modifies s`connections, s`elements
    ensures s.Valid()
    ensures s.connections == Unregistered(old(s.connections), at.conn)
    ensures s.elements ==
      if at.conn in old(s.connections)
        then RemoveAt(old(s.elements), IndexOf(old(s.connections), at.conn))
        else old(s.elements)
    ensures View(s, at) == AttemptStep(old(View(s, at)), Error)
  {
    s.UnregisterConnection(at.conn);
  }
}

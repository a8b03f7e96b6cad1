/**
 * One activation of the content script on a page with a video: the
 * `sharedStatus` record, the two parallel registry lists, and the listeners
 * and helpers that read and update them in place. Sends are opaque to the
 * model and are recorded, in order, in the ghost `outbox`.
 */
module Sync {
  import opened Messages
  import opened Engine
  import opened Registry
  import opened Page

  class Session {
    const video: Video

    // sharedStatus
    var lastSeekTime: real
    var lastPauseTime: nat
    var isPaused: bool

    // currentConnections and connectionElements
    var connections: seq<Link>
    var elements: seq<Row>

    /** Every `send` made so far, in order. */
    ghost var outbox: seq<Delivery<Link, Message>>

    function SharedStatus(): Status
      reads this
    {
      Status(lastSeekTime, lastPauseTime, isPaused)
    }

    /** The two lists have equal length and row i belongs to link i. */
    ghost predicate Valid()
      reads this
    {
      && |elements| == |connections|
      && forall i | 0 <= i < |elements| :: elements[i].conn == connections[i]
    }

    /** The panel opened on `video`: paused, no pause or seek recorded, no
        links. */
    constructor (video: Video)
      ensures this.video == video && SharedStatus() == INITIAL
      ensures connections == [] && elements == [] && outbox == []
      ensures Valid()
    {
      this.video := video;
      lastSeekTime, lastPauseTime, isPaused := 0.0, 0, true;
      connections, elements := [], [];
      outbox := [];
    }

    /** The `play` listener, at clock reading `now`. */
    method OnPlay(now: nat)
      modifies this`isPaused, this`outbox
      ensures SharedStatus() == PlayStep(old(SharedStatus()), now).status
      ensures outbox == old(outbox) + FanoutAll(connections, PlayStep(old(SharedStatus()), now).sent)
    {
      if isPaused && now - lastPauseTime > MAX_LATENCY {
        isPaused := false;
        SendAll(Play);
        assert FanoutAll(connections, [Play]) == Fanout(connections, Play) + [];
      }
    }

    /** The `pause` listener, at clock reading `now`. */
    method OnPause(now: nat)
      modifies this`isPaused, this`lastPauseTime, this`outbox
      ensures SharedStatus() == PauseStep(old(SharedStatus()), now).status
      ensures outbox == old(outbox) + FanoutAll(connections, PauseStep(old(SharedStatus()), now).sent)
    {
      if !isPaused {
        isPaused := true;
        lastPauseTime := now;
        SendAll(Pause);
        assert FanoutAll(connections, [Pause]) == Fanout(connections, Pause) + [];
      }
    }

    /** The `seeked` listener, reading the element's `currentTime`. */
    method OnSeeked()
      modifies this`lastSeekTime, this`outbox
      ensures SharedStatus() == SeekedStep(old(SharedStatus()), video.currentTime).status
      ensures outbox == old(outbox) + FanoutAll(connections, SeekedStep(old(SharedStatus()), video.currentTime).sent)
    {
      if lastSeekTime != video.currentTime {
        lastSeekTime := video.currentTime;
        SendAll(Seek(video.currentTime));
        assert FanoutAll(connections, [Seek(video.currentTime)]) == Fanout(connections, Seek(video.currentTime)) + [];
      }
    }

    /** `receiveData`: act on the element only. It sends nothing and leaves
        `sharedStatus` and the registry alone (nothing of `this` is in its
        frame); the element event it causes goes through the listeners. */
    method ReceiveData(data: Message)
      modifies video
      ensures Dispatch(data) == NoCall ==> unchanged(video)
      ensures Dispatch(data) == CallPlay ==> !video.paused && video.currentTime == old(video.currentTime)
      ensures Dispatch(data) == CallPause ==> video.paused && video.currentTime == old(video.currentTime)
      ensures Dispatch(data).SetCurrentTime? ==>
        video.currentTime == Dispatch(data).t && video.paused == old(video.paused)
    {
      match Dispatch(data)
      case CallPlay => video.Play();
      case CallPause => video.Pause();
      case SetCurrentTime(t) => video.currentTime := t;
      case NoCall =>
    }

    /** `sendAll`: one send per registered link, in list order, registry
        untouched. */
    method SendAll(data: Message)
      modifies this`outbox
      ensures outbox == old(outbox) + Fanout(connections, data)
    {
      for i := 0 to |connections|
        invariant outbox == old(outbox) + Fanout(connections[..i], data)
      {
        assert connections[..i + 1][..i] == connections[..i];
        outbox := outbox + [Delivery(connections[i], data)];
      }
      assert connections[..|connections|] == connections;
    }

    /** `registerConnection`: append the link and a new row for it, without
        looking for an earlier registration. */
    method RegisterConnection(conn: Link)
      requires Valid()
      modifies this`connections, this`elements
      ensures Valid()
      ensures connections == old(connections) + [conn]
      ensures |elements| == |old(elements)| + 1 && elements[..|old(elements)|] == old(elements)
      ensures fresh(elements[|old(elements)|])
    {
      connections := connections + [conn];
      var row := new Row(conn);
      elements := elements + [row];
    }

    /** `unregisterConnection`: nothing when the link is absent, otherwise
        drop its first occurrence and the row at the same index. */
    method UnregisterConnection(conn: Link)
      requires Valid()
      modifies this`connections, this`elements
      ensures Valid()
      ensures connections == Unregistered(old(connections), conn)
      ensures elements ==
        if conn in old(connections) then RemoveAt(old(elements), IndexOf(old(connections), conn))
        else old(elements)
    {
      var index := IndexOf(connections, conn);
      if index == -1 {
        return;
      }
      connections := RemoveAt(connections, index);
      elements := RemoveAt(elements, index);
    }
  }
}

/**
 * The page-side collaborators of the content script, reduced to what the
 * sync logic touches: the chosen video element, the transport's data
 * connections (compared by object identity, as `indexOf` does) and the
 * panel rows built for them.
 */
module Page {

  /** The media element: its position and its own paused flag (distinct from
      the engine's logical `isPaused`). */
  class Video {
    var currentTime: real
    var paused: bool

    constructor (currentTime: real, paused: bool)
      ensures this.currentTime == currentTime && this.paused == paused
    {
      this.currentTime := currentTime;
      this.paused := paused;
    }

    /** `video.play()`; the `play` event it raises is delivered separately. */
    method Play()
      modifies this
      ensures !paused && currentTime == old(currentTime)
    {
      paused := false;
    }

    /** `video.pause()`; the `pause` event it raises is delivered separately. */
    method Pause()
      modifies this
      ensures paused && currentTime == old(currentTime)
    {
      paused := true;
    }
  }

  /** A transport data connection to the peer `peer`. Every `peer.connect`
      and every incoming connection is a new object. */
  class Link {
    const peer: string

    constructor (peer: string)
      ensures this.peer == peer
    {
      this.peer := peer;
    }
  }

  /** The panel row `buildConnectionDiv` makes for a link; its disconnect
      button closes that link. */
  class Row {
    const conn: Link

    constructor (conn: Link)
      ensures this.conn == conn
    {
      this.conn := conn;
    }
  }
}

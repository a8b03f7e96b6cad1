/**
 * Links that enter the registry only when the transport reports them open:
 * every incoming link (both content scripts), and the outgoing links of the
 * older content script, whose connect button only dials. Their `close` and
 * `error` callbacks unregister them; their `data` callback is
 * `Session.ReceiveData`.
 */
module Links {
  import opened Registry
  import opened Page
  import opened Sync
  import opened Lifecycle

  /** How many times `conn` stands in the registry. */
  ghost function Copies(s: Session, conn: Link): nat
    reads s
  {
    multiset(s.connections)[conn]
  }

  /** The older connect button: `peer.connect(remotePeerId)` yields a new
      link and nothing is registered yet. */
  method Dial(s: Session, remotePeerId: string) returns (conn: Link)
    ensures fresh(conn) && conn.peer == remotePeerId
    ensures Copies(s, conn) == 0
  {
    conn := new Link(remotePeerId);
  }

  /** `conn.on('open')`: register the link. */
  method OnOpen(s: Session, conn: Link)
    requires s.Valid()
    modifies s`connections, s`elements
    ensures s.Valid()
    ensures s.connections == old(s.connections) + [conn]
    ensures |s.elements| == old(|s.elements|) + 1
    ensures s.elements[..old(|s.elements|)] == old(s.elements)
    ensures fresh(s.elements[old(|s.elements|)])
    ensures Copies(s, conn) == GatedStep(old(Copies(s, conn)), Open)
  {
    s.RegisterConnection(conn);
  }

  /** `conn.on('close')`: unregister the link. */
  method OnClose(s: Session, conn: Link)
    requires s.Valid()
    modifies s`connections, s`elements
    ensures s.Valid()
    ensures s.connections == Unregistered(old(s.connections), conn)
    ensures s.elements ==
      if conn in old(s.connections)
        then RemoveAt(old(s.elements), IndexOf(old(s.connections), conn))
        else old(s.elements)
    ensures Copies(s, conn) == GatedStep(old(Copies(s, conn)), Close)
  {
    s.UnregisterConnection(conn);
  }

  /** `conn.on('error')`: unregister the link. */
  method OnError(s: Session, conn: Link)
    requires s.Valid()
    modifies s`connections, s`elements
    ensures s.Valid()
    ensures s.connections == Unregistered(old(s.connections), conn)
    ensures s.elements ==
      if conn in old(s.connections)
        then RemoveAt(old(s.elements), IndexOf(old(s.connections), conn))
        else old(s.elements)
    ensures Copies(s, conn) == GatedStep(old(Copies(s, conn)), Error)
  {
    s.UnregisterConnection(conn);
  }
}

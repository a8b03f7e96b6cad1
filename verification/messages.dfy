/**
 * The wire format exchanged over peer links: `{a: 'PLAY'}`, `{a: 'PAUSE'}`,
 * `{a: 'SEEK', t}`, and the dispatch `receiveData` performs on an inbound
 * payload before it touches the media element.
 */
module Messages {

  /** An inbound or outbound payload. `NotAnObject` stands for any value whose
      `typeof` is not 'object' (so not `null`, whose `typeof` is 'object');
      `Other` for a non-null object whose action tag `a` is none of the three
      known ones. */
  datatype Message = NotAnObject | Play | Pause | Seek(t: real) | Other

  /** What `receiveData` does to the media element for a payload. */
  datatype ElementCall = NoCall | CallPlay | CallPause | SetCurrentTime(t: real)

  /** The three messages the playback handlers ever broadcast. */
  predicate IsBroadcast(m: Message) {
    m.Play? || m.Pause? || m.Seek?
  }

  /** The tag switch of `receiveData`: non-objects and unknown tags do nothing,
      PLAY and PAUSE call the element, SEEK overwrites its position with `t`. */
  function Dispatch(m: Message): (c: ElementCall)
    ensures c == NoCall <==> !IsBroadcast(m)
    ensures c == CallPlay <==> m == Play
    ensures c == CallPause <==> m == Pause
    ensures c.SetCurrentTime? <==> m.Seek?
    ensures m.Seek? ==> c.t == m.t
  {
    match m
    case Play => CallPlay
    case Pause => CallPause
    case Seek(t) => SetCurrentTime(t)
    case NotAnObject => NoCall
    case Other => NoCall
  }
}

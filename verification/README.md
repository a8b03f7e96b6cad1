# Long Distance Cinema — playback sync, modelled in Dafny

Long Distance Cinema is a browser extension whose content script keeps the
play, pause and seek state of one video in step across several browsers,
over direct peer links. This project models the logic of that content
script: the echo-suppression engine and the connection registry.

- The **playback sync engine** keeps the three-field `sharedStatus` record:
  `lastSeekTime`, `lastPauseTime` and `isPaused`. Its `play`, `pause` and
  `seeked` listeners decide whether to broadcast `{a:'PLAY'}`, `{a:'PAUSE'}`
  or `{a:'SEEK', t}`. A play within `MAX_LATENCY = 500` ms of a broadcast
  pause is swallowed as an echo; the test is strict (`>`).
- `receiveData` applies a remote message to the video element only. The
  element event that this causes then passes through the same listeners.
- The **connection registry** keeps two parallel lists: the links
  (`currentConnections`) and their panel rows (`connectionElements`).
  `registerConnection` pushes onto both, `unregisterConnection` uses
  `indexOf` and `splice` on both, and `sendAll` loops over the links.
- The current content script (`src/content/main.js`) registers an outgoing
  link as soon as it dials it. A 20-second timer then closes and unregisters
  the link, unless `open` clears the timer first. The older build
  (`content/main.js`) registers outgoing links only on `open`. Both builds
  register incoming links only on `open`.

The two builds share the engine and registry code line for line; only the
line numbers differ. That code is modelled once, and a row below cites one
build. In `src/content/main.js`, lines 44-120 hold that code; the same
code is at `content/main.js` lines 37-113, seven lines earlier and identical.

Layout:
- `messages.dfy` (`Messages`): the wire messages and `receiveData`'s tag
  switch.
- `engine.dfy` (`Engine`): the listeners as pure step functions over the
  status, runs of local events, and the echo lemmas.
- `registry.dfy` (`Registry`): `indexOf`, `splice`, the unregister result and
  the `sendAll` deliveries on sequences, with their lemmas.
- `lifecycle.dfy` (`Lifecycle`): the per-link state machines. The timed
  outgoing attempt has states TimerPending, TimerCleared and TimedOut and
  events Open, Timeout, Close and Error. The second machine is for links
  registered on open.
- `page.dfy` (`Page`): the video element, the links and the panel rows, as
  classes. Links are compared by object identity, as `indexOf` does.
- `session.dfy` (`Sync`): the `Session` class. Its fields are
  `sharedStatus`, the two lists and a ghost `outbox` of sends. Its methods
  are the listeners, `receiveData`, `sendAll`, `registerConnection` and
  `unregisterConnection`. Each method is proved against the pure functions.
- `links.dfy` (`Links`): callbacks of links registered on open.
- `outgoing.dfy` (`Outgoing`): the timed outgoing attempt of the current
  build.

The model keeps these behaviours of the code:
- The pause time is recorded only when a PAUSE is actually broadcast.
- `registerConnection` does not deduplicate: each registration adds one
  entry, and `sendAll` sends once per entry.
- `sendAll` sends to every registered link, including an outgoing link that
  is still connecting.
- `receiveData` never touches `sharedStatus`. So a received SEEK to a new
  position is rebroadcast once by the receiver's own `seeked` listener
  (`EchoMirrors`). When that echo comes back to the sender, the sender
  suppresses it (`EchoIsSuppressed`).
- `close` and `error` on an outgoing attempt do not clear its timer. If the
  timer fires later, its unregister finds nothing and changes nothing.

## Model

| member | source | states |
|---|---|---|
| `Messages.Dispatch` | src/content/main.js:77-94 | Non-objects and unknown tags cause no element call. PLAY calls play(), PAUSE calls pause(), and SEEK sets the position to exactly `t`. The same switch is at content/main.js:70-87. |
| `Engine.PlayStep` | src/content/main.js:53-58 | PLAY is sent iff `isPaused` holds and `now - lastPauseTime > 500`; then `isPaused` becomes false. Otherwise nothing is sent and the status is unchanged. The same code is at content/main.js:46-51. |
| `Engine.PauseStep` | src/content/main.js:60-66 | PAUSE is sent iff the engine thinks the video is playing; then `isPaused` holds and `lastPauseTime == now`. When already paused, nothing is sent and `lastPauseTime` is unchanged. The same code is at content/main.js:53-59. |
| `Engine.SeekedStep` | src/content/main.js:68-73 | SEEK(currentTime) is sent iff the position differs exactly from `lastSeekTime`. Afterwards `lastSeekTime == currentTime` either way. The same code is at content/main.js:61-66. |
| `Engine.Handle` | src/content/main.js:53-73 | Any one local media event broadcasts at most one message, and only PLAY, PAUSE or SEEK. |
| `Engine.Run` | content/main.js:46-66 | Events are handled one at a time, in order. A run never sends more messages than it has events, and only PLAY, PAUSE or SEEK. |
| `Engine.PlayPauseAlternate` | content/main.js:46-59 | For every event sequence, PLAY and PAUSE broadcasts alternate, starting with PLAY from a paused status. `isPaused` always matches the last of them. So a PLAY while logically playing, or a PAUSE while logically paused, is never sent. |
| `Engine.SeekTrace` | content/main.js:61-66 | For every event sequence, `lastSeekTime` ends at the position of the last seeked event. No two consecutive SEEK broadcasts carry the same position. |
| `Engine.SeekTwiceSendsOnce` | src/content/main.js:68-73 | Two seeked events at the same position send one SEEK if the position is new, and none otherwise. |
| `Engine.QuickReplayIsSuppressed` | src/content/main.js:53-66 | A pause followed by a play at most 500 ms later sends only the PAUSE. The engine stays logically paused. |
| `Engine.SlowReplayIsSent` | content/main.js:46-59 | A pause followed by a play more than 500 ms later sends PAUSE and then PLAY. |
| `Engine.EchoEvent` | src/content/main.js:77-94 | Applying a broadcast message at a peer raises a play, pause or seeked event. That event matches the element call that `receiveData` makes. |
| `Engine.EchoMirrors` | content/main.js:46-87 | A peer that applies a received PLAY, PAUSE or SEEK rebroadcasts that same message or nothing. |
| `Engine.QuietRunKeepsPaused` | src/content/main.js:53-66 | Any run of local events that broadcasts no PLAY and no PAUSE leaves `isPaused` as it was. |
| `Engine.QuietRunKeepsLastSeek` | content/main.js:46-66 | Any run of local events that broadcasts no SEEK leaves `lastSeekTime` as it was. A seeked event that sends nothing was already at the recorded position. |
| `Engine.EchoIsSuppressed` | src/content/main.js:53-94 | Suppose a local event made a peer broadcast a message, and the peer then handled any events (possibly none) that broadcast no message of the same kind (PLAY/PAUSE, or SEEK). When the echo of that message comes back then, whatever the clock, the peer broadcasts nothing. So a message bounces at most once, unless a newer local change of the same kind overtakes its echo. |
| `Registry.IndexOf` | src/content/main.js:114-116 | Returns -1 iff the link is absent. Otherwise returns the index of its first occurrence. |
| `Registry.RemoveAt` | src/content/main.js:118-119 | `splice(i, 1)` drops exactly element i. Elements before i keep their index, later ones shift down by one, and the multiset loses one copy of element i. |
| `Registry.Unregistered` | content/main.js:106-113 | Unregistering an absent link leaves the list unchanged. Otherwise the list is one shorter and has one copy of the link fewer. |
| `Registry.UnregisterRemovesFirst` | src/content/main.js:113-120 | The result is the list without the first occurrence of the link, with the others in their original order. |
| `Registry.UnregisterTwiceIsOnce` | src/content/main.js:240-257 | For a link registered at most once, a second unregister is a no-op and the link is gone. So the timeout's unregister followed by the close handler's is harmless. |
| `Registry.RegisterThenUnregister` | content/main.js:98-113 | Registering an absent link and then unregistering it restores the list exactly. |
| `Registry.Fanout` | src/content/main.js:96-100 | `sendAll` makes one delivery per list entry, in list order, and the i-th delivery goes to link i. The same loop is at content/main.js:89-93. |
| `Registry.FanoutDeliversOncePerLink` | content/main.js:89-93 | Each link receives the message once per registration. That is exactly once if it is registered once, and never if it is not registered. |
| `Registry.FanoutOnlyToRegistered` | src/content/main.js:96-100 | Every delivery goes to a registered link and carries the message sent. |
| `Lifecycle.AttemptStep` | src/content/main.js:238-257 | `open` clears a pending timer. A pending timer that fires runs its teardown once and unregisters the link. A cleared or fired timer never fires. `close` and `error` unregister. Each step preserves `Sound`: at most one registration, at most one teardown, and a timed-out link is unregistered. |
| `Lifecycle.AttemptRunSound` | src/content/main.js:240-249 | Every sequence of callbacks preserves `Sound`. Promotion by `open` and teardown by the timer never both run. |
| `Lifecycle.AttemptRunOutcome` | src/content/main.js:233-264 | After any callbacks, the link is registered iff it was registered, no `close` or `error` came, and a pending timer did not fire before `open`. The teardown ran once exactly when the timer fired. A settled timer stays settled. |
| `Lifecycle.OpenedAttemptStays` | src/content/main.js:246-249 | If `open` comes first, the timer is cleared and the teardown never runs. The link stays registered until a `close` or `error`. |
| `Lifecycle.UnopenedAttemptTimesOut` | src/content/main.js:240-244 | If the timer fires first, the link is unregistered and torn down once. Nothing afterwards re-registers it, including the `close` that closing raises. |
| `Lifecycle.GatedStep` | content/main.js:198-215 | For a link registered on open, `open` adds a registration (no dedup), `close` and `error` remove one, and nothing else changes it. |
| `Lifecycle.GatedRunOutcome` | content/main.js:235-248 | Assume the transport raises `open` at most once. Then a link registered on open is in the registry exactly once iff it opened and no `close` or `error` followed, and is absent otherwise. |
| `Page.Video.Play` | src/content/main.js:83 | `video.play()` leaves the element unpaused at the same position. |
| `Page.Video.Pause` | src/content/main.js:87 | `video.pause()` leaves the element paused at the same position. |
| `Page.Row.constructor` | src/content/main.js:161-189 | The row that `buildConnectionDiv` makes belongs to the link it was built for. |
| `Sync.Session.constructor` | src/content/main.js:43-51 | Initially `isPaused` holds, `lastPauseTime = 0`, `lastSeekTime = 0`, both lists are empty and nothing has been sent. The same initial state is at content/main.js:36-44. |
| `Sync.Session.OnPlay` | src/content/main.js:53-58 | Sets the status to `PlayStep` of the old status. It sends PLAY once to every registered link exactly when `PlayStep` broadcasts, and the registry is unchanged. |
| `Sync.Session.OnPause` | src/content/main.js:60-66 | Sets the status to `PauseStep` of the old status. It sends PAUSE once to every registered link exactly when `PauseStep` broadcasts, and the registry is unchanged. |
| `Sync.Session.OnSeeked` | src/content/main.js:68-73 | Sets the status to `SeekedStep` of the old status at the element's position. It sends SEEK(position) to every registered link exactly when `SeekedStep` broadcasts, and the element is unchanged. |
| `Sync.Session.ReceiveData` | src/content/main.js:77-94 | Changes only the element, as `Dispatch` says. It never sends, and never changes `sharedStatus` or the registry. The same code is at content/main.js:70-87. |
| `Sync.Session.SendAll` | src/content/main.js:96-100 | Appends exactly `Fanout(connections, data)` to the outbox and leaves the lists unchanged. |
| `Sync.Session.RegisterConnection` | src/content/main.js:105-111 | Appends the link and a new row for it at the end of the two lists. The lists keep equal length and row i belongs to link i. The same code is at content/main.js:98-104. |
| `Sync.Session.UnregisterConnection` | src/content/main.js:113-120 | An absent link is a no-op. Otherwise the first occurrence of the link and the row at the same index are removed. The pairing of rows to links is kept. The same code is at content/main.js:106-113. |
| `Links.Dial` | content/main.js:196-197 | The older connect button creates a new link and registers nothing. |
| `Links.OnOpen` | content/main.js:198-203 | On `open`, the link is appended to the registry, following `GatedStep`, and a new row for it is appended to the rows; earlier rows are kept. The incoming `open` is the same (content/main.js:235-239, src/content/main.js:282-286). |
| `Links.OnClose` | content/main.js:204-209 | On `close`, the link is unregistered, following `GatedStep`. If it was registered, the row at its first index is removed; otherwise the rows are unchanged. The incoming `close` is the same (content/main.js:240-244, src/content/main.js:287-291). |
| `Links.OnError` | content/main.js:210-215 | On `error`, the link is unregistered, following `GatedStep`. If it was registered, the row at its first index is removed; otherwise the rows are unchanged. The incoming `error` is the same (content/main.js:245-249, src/content/main.js:292-296). |
| `Outgoing.Connect` | src/content/main.js:233-244 | Creates a new link with the entered peer id and appends it to the registry at once, with a new row appended after the existing ones. The attempt starts as `CONNECTING`: the timer is pending and the link is registered once. |
| `Outgoing.OnOpen` | src/content/main.js:246-249 | Follows `AttemptStep` on `Open`: clears a pending timer and touches nothing else. |
| `Outgoing.OnTimeout` | src/content/main.js:240-244 | Follows `AttemptStep` on `Timeout`. Only a pending timer runs the callback, which unregisters the link and removes the row at its first index; otherwise links and rows are unchanged. |
| `Outgoing.OnClose` | src/content/main.js:250-253 | Follows `AttemptStep` on `Close`: unregisters the link, removes the row at its first index if it was registered, and leaves the timer as it is. |
| `Outgoing.OnError` | src/content/main.js:254-257 | Follows `AttemptStep` on `Error`: unregisters the link, removes the row at its first index if it was registered, and leaves the timer as it is. |

## Left out

- Choosing the video (`alert`/`prompt` over several videos), re-showing an
  existing panel, and all panel construction and styling are left out. So
  are the copy button, the connect button enabling, the older build's
  `restore()` of the connect controls, and console logging. They are user
  interface with no sync logic.
- The row's status text ("Connecting…" / "Connected") and its disconnect
  button are left out. The button only calls `conn.close()`, and the
  resulting `close` arrives as `OnClose`.
- The PeerJS transport is opaque. That covers `new Peer()`, peer id
  allocation, the peer's own `open`/`close` handlers, and the semantics of
  `conn.send` and `conn.close`. Its callbacks are method calls. A send is
  recorded in the ghost outbox, and a failing send is not modelled.
- The `data` callbacks only call `receiveData`, so they are
  `Session.ReceiveData` and have no member of their own.
- `Date.now()` is a `nat` parameter in milliseconds. The 20-second
  `setTimeout` is the explicit `Timeout` event: the constant
  `CONNECT_TIMEOUT_MS` records the delay, but no clock is modelled.
- `currentTime` and `t` are `real` values compared by exact equality.
  Floating-point rounding and NaN, which `!==` treats as unequal to itself,
  are not modelled.
- A SEEK object whose `t` is missing or not a number is not modelled: `Seek`
  always carries a `real`. Payloads are already decoded: an unknown tag on a
  non-null object is `Other`, and a value whose `typeof` is not 'object' is
  `NotAnObject`.
- A `null` payload is not modelled. Its `typeof` is 'object', so it passes
  the guard (src/content/main.js:78) and reading `data.a`
  (src/content/main.js:81) throws a TypeError. That happens before any
  element call, so it changes no state and sends nothing.
- Engine.EchoEvent: it assumes the `seeked` event reports exactly the `t`
  that was written. A real element may clamp the position to its seekable
  range or duration, and it fires `seeked` later, by which time a playing
  element has moved on. `Engine.EchoMirrors` and the SEEK half of
  `Engine.EchoIsSuppressed` rely on this assumption.
- Page.Video.Play: it keeps the position. A real `play()` on media that has
  ended first seeks back to the start.
- That `play()` and `pause()` make the element raise `play`/`pause`, and
  that writing `currentTime` raises `seeked`, is not automatic. The caller
  makes the listener call (`EchoEvent` names the event). The promise that
  `play()` returns, and its possible rejection, are left out.
- `Lifecycle.GatedRunOutcome`: it assumes that the transport raises `open` at
  most once per link. The code itself would register a link twice if `open`
  came twice.
- The popup scripts (`popup/main.js`, `src/popup/main.js`) are not part of
  this model. They only inject the content script.

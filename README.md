# WebSocket relay: connection registry and exclude-sender broadcast

This project models the core of a small WebSocket signalling relay written in Go.
The core is `handleWebSocket`. The server keeps one registry of live connections:
the `clients` map, keyed by connection handle and guarded by a mutex. Each
connection runs its own session:

1. The session registers its handle.
2. It reads messages until the first read error.
3. It broadcasts each message it reads, with its frame kind unchanged, to every other
   registered handle.
4. When the loop ends, a deferred block closes the handle and removes it from the map.

If a write to a recipient fails during a broadcast, that recipient is closed and
deleted from the map at once. The fan-out then carries on with the remaining members.

The model has five modules:

- `Wire` (wire.dfy) holds the values: handles, the two data frame kinds, messages,
  write attempts, read results, and what it means for a sequence to enumerate a set.
- `Fanout` (fanout.dfy) treats the registry as a value `Hub`. A `Hub` holds the map's
  members, the handles closed so far and the log of every write attempt. The module
  gives the effect of each step that touches the registry:
  - `Register`, the locked insert
  - `Close`, the unlocked close at the start of a session's teardown
  - `Unregister`, the locked delete that follows it
  - `Teardown`, close then delete with nothing in between; a failing recipient
    is pruned this way inside the locked fan-out
  - `Deliver`, one turn of the range loop
  - `Broadcast`, the whole locked loop over a given visiting order

  It also proves the broadcast's properties for every order in which Go may range
  over the map.
- `Registry` (registry.dfy) is the same registry as a class, `Clients`. Its methods
  update `clients` and `closed` in place. The broadcast is a `while` loop over a
  snapshot of the keys. It takes the keys in whatever order it chooses and returns
  that order. Each method's postcondition ties the new state to the `Fanout` function
  of the old state.
- `Session` (session.dfy) models `handleWebSocket` after the upgrade. It takes a
  finite trace of read results and an oracle `fails(k)`. The oracle gives the handles
  whose write fails during the k-th broadcast. `HandleWebSocket` is the loop itself.
  `Run` is its specification. The lemmas cover the following:
  - Reading stops at the first error.
  - The session's own handle stays registered until teardown.
  - Other members are pruned exactly when a write to them fails.
  - Every other member is written the messages in order, up to and including the
    first one whose write to it fails, and nothing after.
- `Scenario` (scenario.dfy) works through a three-client exchange for every
  iteration order:
  1. A, B and C connect.
  2. A sends `01 02`, which B and C get and A does not.
  3. B disappears, and C's next write to B is taken to fail. B is closed and pruned.
  4. C's following message reaches A and is never attempted at B.

Membership after pruning: a handle can leave the registry before its own
session ends. A handle whose write failed is deleted while its session may still
be running (main.go:58-62), and that session's later teardown then deletes an
absent key, which changes nothing. So the registry holds the sessions that have
registered and not yet been torn down, minus those pruned.

Writes to closed handles: a session closes its handle without the lock
(main.go:29) and deletes it under the lock afterwards (main.go:30-32). In
between, another session's broadcast can still find the handle registered and
write to it; `Fanout.CloseWindow` proves this. "No registered handle is closed"
(`Fanout.WellFormed`, `Registry.Clients.Valid`) is therefore an invariant of
the model when each session's close and delete run back to back, not of the
program.

## Model

| member | source | states |
|---|---|---|
| `Fanout.Register` | main.go:36-38 | The handle becomes a member and no other membership changes. Registering a handle that is already a member leaves the registry exactly as it was. Nothing is closed or written. |
| `Fanout.Close` | main.go:29 | The handle is closed and stays registered. No other handle's closed status changes, and closing it again changes nothing. Nothing is written. |
| `Fanout.Unregister` | main.go:30-32 | The handle is no longer a member and other memberships are unchanged. Deleting an absent handle changes nothing. Nothing is closed or written. |
| `Fanout.Teardown` | main.go:28-34 | The handle is closed and is no longer a member. Other handles keep their membership and their closed status. Tearing down a handle that is not a member leaves the members unchanged. Repeating a teardown changes nothing. |
| `Fanout.MembershipCount` | main.go:28-38 | Registering grows the registry by one exactly when the handle was new. Teardown shrinks it by one exactly when the handle was a member. |
| `Fanout.BroadcastEffect` | main.go:54-65 | For any visiting order, the members lose exactly the failing recipients other than the sender. The closed set gains exactly those handles. The log gains exactly the attempts in visiting order. |
| `Fanout.AttemptsTargets` | main.go:55-57 | Every attempt carries the received message unchanged. It goes to a visited handle other than the sender. |
| `Fanout.AttemptsExactlyOnce` | main.go:55-57 | Over an order without repetitions, each visited handle other than the sender gets exactly one attempt, with the received message. No other write is made. |
| `Fanout.BroadcastMembers` | main.go:58-62 | After a broadcast over the map, the members are the old members minus the handles whose write failed. The sender is never among them. The failing recipients are closed and no other handle is. No member is added. The sender stays registered. |
| `Fanout.BroadcastAttempts` | main.go:54-65 | After a broadcast over the map, earlier writes are kept. Each registered client other than the sender gets exactly one new attempt, carrying the received frame kind and payload. Nothing else is written, and the sender gets nothing. |
| `Fanout.BroadcastKeepsWellFormed` | main.go:55-62 | If no member was closed before a broadcast, none is after it. Every new attempt goes to a member that was open when the broadcast began, and never to the sender. |
| `Fanout.FailuresDoNotStopFanout` | main.go:58-63 | The attempts a broadcast makes do not depend on which writes fail. A failure does not end the fan-out. |
| `Fanout.BroadcastOrderIndependent` | main.go:55-64 | Any two iteration orders over the map give the same members and the same closed handles. They also give the same attempts, up to order. |
| `Fanout.WritesToAttempts` | main.go:55-57 | Seen from one handle, a broadcast over an order without repetitions writes the message once if the handle is visited and is not the sender, and writes nothing otherwise. |
| `Fanout.BroadcastWritesTo` | main.go:54-65 | Seen from one handle, a broadcast over the map appends the message once if the handle is a member other than the sender, and appends nothing otherwise. |
| `Registry.Clients.constructor` | main.go:13 | The map starts empty, with nothing closed or written. |
| `Registry.Clients.Register` | main.go:36-38 | An in-place insert. The new state is `Fanout.Register` of the old one. No registered handle is closed. |
| `Registry.Clients.Close` | main.go:29 | The unlocked close, in place. The new state is `Fanout.Close` of the old one. |
| `Registry.Clients.Unregister` | main.go:30-32 | The locked delete, in place. The new state is `Fanout.Unregister` of the old one. Afterwards no closed handle is registered, unless one other than the deleted handle was before. |
| `Registry.Clients.Teardown` | main.go:28-34 | `Close` followed by `Unregister` with nothing in between. The new state is `Fanout.Teardown` of the old one, and no registered handle is closed. |
| `Registry.Clients.Broadcast` | main.go:54-65 | The loop visits every handle of the snapshot exactly once, in the order it returns. The new state is `Fanout.Broadcast` of the old state over that order. If no registered handle was closed before, none is after. |
| `Session.FirstError` | main.go:41-50 | Every read before the returned index succeeds. The read at that index, if there is one, is an error. |
| `Session.Taken` | main.go:41-50 | The loop makes this many reads. If a read fails, the last of them is the first error and all earlier ones succeed. Otherwise the loop reads the whole trace and every read succeeds. |
| `Session.FramesBefore` | main.go:41-52 | The messages broadcast are exactly those read before the first error, in order and unchanged. |
| `Session.StopsAtFirstError` | main.go:41-50 | After a read error, whatever the trace holds next changes neither the number of reads nor the messages broadcast. |
| `Session.RelayClients` | main.go:41-66 | Over a sequence of broadcasts from one sender, the members lose exactly the handles some write failed to, the sender excepted. |
| `Session.RelayWrites` | main.go:41-66 | Over a sequence of broadcasts, the registry stays well formed and no member is added. Earlier writes are kept. Every new write goes to a handle that was a member at the start and is not the sender. |
| `Session.RelayLogGrows` | main.go:54-65 | A run of broadcasts only appends to the write log: the earlier writes stay as they were. |
| `Session.RelayStep` | main.go:54-65 | Seen from one handle, the last broadcast of a run appends its message once if the handle is then a member other than the sender, and appends nothing otherwise. |
| `Session.RelayDelivery` | main.go:41-66 | Over a sequence of broadcasts, a member other than the sender is written the messages in the order sent, up to and including the first one whose write to it fails, and nothing after. No other handle is written. |
| `Session.RunMembership` | main.go:28-50 | If a read fails, the session's handle ends closed and unregistered. Otherwise it is still registered. The other members lose exactly the handles a write failed to. |
| `Session.RunDelivery` | main.go:28-66 | A whole session keeps the registry well formed and keeps earlier writes. Each other client registered at its start is written the messages read, in order and unchanged, until its first failed write. Nothing is written to the session's own handle or to an unregistered handle. |
| `Session.HandleWebSocket` | main.go:28-66 | The loop registers, reads until the first error, broadcasts each message once, and tears down when a read failed. The number of reads is `Taken`, and one run order is returned per message broadcast. Each order enumerates the registry as that broadcast finds it. The new state is `Run` of the old one. |
| `Fanout.CloseWindow` | main.go:28-32 | Between a session's unlocked close and its locked delete, a broadcast by another session writes to the closed handle exactly once. The registry at that point holds a closed handle. |
| `Scenario.Pruned` | main.go:58-62 | In the three-client exchange, A's message leaves all three registered. C's first message, whose write to B fails, leaves only A and C, with B closed. |
| `Scenario.Inbox` | main.go:54-65 | In the three-client exchange, for every iteration order, a client gets A's message exactly when it is B or C. It gets C's first message exactly when it is A or B. It gets C's second message exactly when it is A. |
| `Scenario.ThreeClients` | main.go:54-65 | In the three-client exchange, A receives only C's two messages. B receives A's message and C's first, which fails. C receives only A's message. B ends closed and pruned. |

## Left out

- The HTTP upgrade and its error path (main.go:22-26): a library call. The model starts with an upgraded handle.
- The CORS middleware, the health check, the root handler and the port setting in `main` (main.go:71-106): HTTP plumbing with no state of the core.
- All logging, including `IsUnexpectedCloseError` (main.go:44-48). It only chooses a log line, and both branches leave the loop the same way.
- The mutex and the goroutine per connection. Each locked region (insert, delete, whole fan-out) and the unlocked close are each one atomic step. `HandleWebSocket` runs one session with no other session interleaved. Interleavings of several sessions can be written as sequences of the `Fanout` steps (`CloseWindow` is one), but no schedule of them is modelled.
- Fanout.Teardown: fuses the unlocked close (main.go:29) and the locked delete (main.go:30-32) into one step. So it does not capture a broadcast by another session falling between the two. `Fanout.Close`, `Fanout.Unregister` and `Fanout.CloseWindow` model that window separately.
- Registry.Clients.Teardown: runs `Close` and `Unregister` back to back. Its `Valid()` postcondition holds only because nothing falls between them. `Session.HandleWebSocket` uses it, because it runs one session alone.
- The unlocked `len(clients)` read at main.go:39: a logging-only data race.
- `ReadMessage`, `WriteMessage` and `Close` are network calls. A finite read trace stands in for the reads, and an oracle of failing handles stands in for the write results. Close only marks the handle closed, and its error is ignored, as in the Go code.
- Session.HandleWebSocket: a trace with no read error stands for a session still blocked in `ReadMessage`, so its teardown is not run.
- Registry.Clients.Register: requires the handle not to be closed yet, because it comes straight from a fresh upgrade. This keeps the invariant that no registered handle is closed.
- Frame kinds: only text and binary messages reach the relay. Control frames are handled inside the WebSocket library, which is not part of this model.

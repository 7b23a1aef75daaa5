# captain3d: session relay, player state and client directory

A Dafny model of the bookkeeping in the captain3d multiplayer game. The model
covers three parts:

- **The relay** (`server.js`). It keeps the registry of connected sessions,
  which maps an integer id to its last position. It also keeps the
  `playerIdCounter`. Four socket handlers change them: connect, move, combat
  and disconnect.
- **A player** (`public/player.js`). A player has health, the `defeated` flag,
  the ability table and a cooldown expiry for each ability.
- **The browser client's `Game`** (`public/client.js`). It keeps a `players`
  directory and a `playerId` field. The socket handlers update them, and the
  cameras and the outgoing 'combat' request sit beside them.

Each stateful part is a class whose methods change its fields. Each class has
a `State()` or `Dir()` view that is a plain value. The handlers that change
the registry, a player's health or cooldowns, or the client directory tie the
new view to a function of the old one in their `ensures`: `AfterConnect`,
`AfterMove`, `AfterDisconnect`, `Damaged`, `CooledDown` or `Deliver`. Lemmas
about those functions state what the handlers guarantee. The relay's combat
handler changes nothing and states its outcome as `CombatOutcome`; the camera
methods, `HandleCombat` and `SetPosition` state their new fields directly.

The files are:

- `js.dfy`: JavaScript values as they cross the socket (numbers, strings,
  `null`, `undefined`), strict equality, and the property key a value becomes
  in `obj[v]`. It also holds the reading of a key back as an integer id.
- `protocol.dfy`: positions, the events the relay sends, envelopes, and
  counting of envelopes.
- `server.dfy`: the relay as a value (`Relay`), its transition functions, and
  the `SessionRelay` class.
- `server_props.dfy`: what the relay's handlers guarantee, one call at a time
  and over whole runs.
- `player.dfy`: the player's state as a value, its histories, rate limiting,
  and the `Player` class.
- `client.dfy`: the client directory as a value (`Directory`), its event
  function, and the `Game` and `Camera` classes.
- `session.dfy`: the relay's outbox read as each session's inbox and applied
  to that session's directory.

Some conventions of the model:

- The relay's `Object.keys(players)` lists integer-like keys in ascending
  order, so every fan-out goes over `KeysBelow(players, counter)`.
- Socket emits are appends to an outbox of `Envelope(recipient, event)`.
- A handler that throws returns `Threw(error)` and changes nothing, as in
  the source. A run of the relay (`Server.Run`) goes on after such a throw;
  see "## Left out".
- `Date.now()` is a parameter `now`.

Two quirks of the code are modelled as written:

- At `server.js:60`, a string key from `Object.keys` is compared with the
  numeric id using `!==`. That test is always true, so the new session is also
  sent a 'player-connected' about itself.
- The relay never sends 'player-id', although the client listens for it. The
  client's `playerId` therefore stays `null`. The client's own player sits in
  its directory under the key `"null"` and also under its numeric id (see
  `Session.NewClientDirectory`).

## Model

| member | source | states |
|---|---|---|
| Js.Decimal | server.js:59 | an id prints as a non-empty string of decimal digits |
| Js.IndexOf | server.js:83 | a property key names an integer entry exactly when it is canonical: digits only, no leading zero |
| Js.DecimalIsCanonical | server.js:59-61 | the key `Object.keys` yields for an id is canonical and reads back as that id |
| Js.CanonicalIsDecimal | server.js:83 | a canonical key is exactly the printed form of the integer it reads as |
| Js.IndexOfDecimal | server.js:61 | looking up an entry by its printed key finds that entry's id |
| Js.DecimalOfIndex | server.js:83 | a key that finds entry `n` is the printed form of `n` |
| Js.DecimalInjective | server.js:55 | distinct ids have distinct keys, so entries never collide |
| Js.NumericKeys | public/client.js:70 | a numeric id and its string form index the same directory entry, which is never the `"null"` or `"undefined"` key |
| Protocol.AscendingMultiplicity | server.js:59 | a key listed in ascending order occurs exactly once |
| Protocol.ReceivedConcat | server.js:62 | counting a given envelope is additive over successive emits |
| Protocol.AnnouncedConcat | server.js:68 | counting the announcements of a key to a session is additive over successive emits |
| Server.KeysBelow | server.js:59 | `Object.keys` lists only registered ids, each below the bound |
| Server.KeysBelowAscending | server.js:59 | `Object.keys` lists integer keys in strictly ascending order |
| Server.KeysBelowComplete | server.js:59 | `Object.keys` leaves out no registered id |
| Server.WelcomeStep | server.js:59-64 | one more iteration of the welcome `forEach` appends at most that key's 'player-connected' |
| Server.SessionRelay.constructor | server.js:44-47 | the relay starts with an empty registry, counter 0 and nothing sent |
| Server.SessionRelay.SendWelcome | server.js:59-64 | the welcome `forEach` appends exactly `Welcome` of the listed keys and changes neither the registry nor the counter |
| Server.SessionRelay.Connect | server.js:50-68 | the new id is the old counter and was not registered; the new state is `AfterConnect` of the old; every key stays below the counter |
| Server.SessionRelay.Move | server.js:71-77 | from a registered sender the new state is `AfterMove`; from an unregistered id it throws a TypeError and nothing changes |
| Server.SessionRelay.Combat | server.js:79-92 | nothing changes and nothing is sent; the outcome is `CombatOutcome`, and it throws a ReferenceError exactly when both ids name registered entries, and completes otherwise |
| Server.SessionRelay.Disconnect | server.js:96-104 | the new state is `AfterDisconnect` of the old; every key stays below the counter |
| Server.RegisteredIffSomeKey | server.js:83 | `players[v]` finds an entry exactly when `v`'s property key is the printed form of a registered id |
| ServerProperties.WelcomeSendsEveryKey | server.js:59-64 | the `!==` test never filters: the welcome has one envelope per listed key, each with the key as a string and its stored position |
| ServerProperties.WelcomeReceived | server.js:59-64 | the welcome delivers an entry's announcement only to the new session, once per listing of that key |
| ServerProperties.WelcomeAnnounced | server.js:59-64 | the welcome announces key `k` to the new session once per listing of `k`, and to nobody else |
| ServerProperties.WelcomeRecipients | server.js:59-64 | everything the welcome sends goes to the new session and is a 'player-connected' naming a printed id |
| ServerProperties.BroadcastReceived | server.js:68 | a broadcast delivers its event to each listed session except the sender, once per listing, and nothing else |
| ServerProperties.BroadcastAnnounced | server.js:68 | a broadcast of a new id announces that id, and only it, to each listed session except the sender |
| ServerProperties.BroadcastRecipients | server.js:76 | a broadcast reaches only listed sessions other than the sender, with the broadcast event |
| ServerProperties.AllKeysOnce | server.js:59 | `Object.keys` lists every registered id exactly once and nothing else |
| ServerProperties.ConnectAllocatesFreshId | server.js:54-55 | connect hands out the counter, which is not registered; it bumps the counter by exactly one, registers the id at the origin, leaves every other entry unchanged and grows the registry by one |
| ServerProperties.ConnectSends | server.js:59-68 | connect appends the welcome and then the broadcast to what was sent before |
| ServerProperties.ConnectMessagesFor | server.js:59-68 | the new session receives exactly one 'player-connected' for each registered entry, its own included, and none for an unregistered id |
| ServerProperties.ConnectWelcomesEveryEntry | server.js:59-64 | the new session is sent exactly one 'player-connected' per registered entry, its own id included, with that entry's position |
| ServerProperties.BroadcastReachesEachOther | server.js:76 | a broadcast over the registry reaches each registered session other than the sender exactly once |
| ServerProperties.ConnectMessagesTo | server.js:68 | each session other than the new one receives exactly one announcement of the new numeric id at the origin |
| ServerProperties.ConnectAnnouncesToOthers | server.js:68 | every earlier session is sent exactly one 'player-connected' for the new id at the origin, and that is all connect sends to sessions other than the new one |
| ServerProperties.WelcomeReachesNoOther | server.js:62 | the welcome sends nothing to any session but the new one |
| ServerProperties.MoveEffect | server.js:71-77 | a move from a registered sender replaces only its position and keeps the counter; it reaches every other registered session exactly once and never the sender; from an unregistered id nothing changes |
| ServerProperties.DisconnectEffect | server.js:96-104 | disconnect deletes only the sender's entry and keeps the counter; each other registered session is told exactly once, and the sender is not told |
| ServerProperties.StepKeepsInvariant | server.js:54-55 | every handler keeps all keys below the counter; only connect bumps the counter, by one |
| ServerProperties.IdsStrictlyIncrease | server.js:47-54 | along any run, the ids handed out strictly increase and are never reused; the counter ends one past the last |
| ServerProperties.DepartedNeverReturns | server.js:103 | an id that has left is never registered again |
| ServerProperties.RelayedEventsNamePrintedIds | server.js:62-100 | everything the relay sends names a printed integer id; it never sends 'player-id' or 'combat' |
| ServerProperties.ConnectionsRegistry | server.js:54-55 | after `n` connects the counter is `n` and the registry holds exactly ids 0 to n-1 |
| ServerProperties.ConnectRegisters | server.js:54-55 | a connect registers the old counter at the origin and bumps the counter by one |
| ServerProperties.ConnectionsState | server.js:54-55 | after `n` connects the counter is `n` and the registry maps ids 0 to n-1 to the origin |
| ServerProperties.ConnectionsSize | server.js:55 | after `n` connects the registry has `n` entries |
| ServerProperties.ConnectionsAtOrigin | server.js:55 | after `n` connects and no moves every entry is at the origin |
| ServerProperties.WelcomeAnnouncesRegistry | server.js:59-64 | the welcome of a connect announces each registered id exactly once to the new session, and nothing to any other session |
| ServerProperties.BroadcastAnnouncesNewcomer | server.js:68 | the broadcast of a connect announces the new id exactly once to each other registered session, and to nobody else |
| ServerProperties.ConnectAnnouncementStep | server.js:59-68 | with ids 0 to n-2 registered, the connect handing out n-1 adds one announcement of each id below `n` to session n-1 and one of n-1 to each earlier session, and nothing else |
| ServerProperties.ConnectionAnnouncements | server.js:59-68 | the `n`-th connect adds exactly the announcements of ids below `n` to session n-1, and of id n-1 to earlier sessions |
| ServerProperties.AfterConnections | server.js:59-68 | after `n` connects, every session has been told exactly once about every session, itself included, and never about an id that was not handed out |
| Players.UseOutcome | public/player.js:79-90 | `useAbility` completes when the ability is on cooldown or is in the table; otherwise it throws a TypeError |
| Players.HealthAccounting | public/player.js:121-123 | health is the starting health less the sum of all damage taken |
| Players.DefeatIsPermanent | public/player.js:121-129 | once `defeated` is true, no history clears it |
| Players.ConsistencyPreserved | public/player.js:126-128 | no history leaves health at or below zero without `defeated` |
| Players.DefeatedIffSomeHitWasFatal | public/player.js:121-129 | a player is defeated exactly when it started defeated or some hit left its health at or below zero |
| Players.ExpiryStays | public/player.js:83-98 | after an ability fires at time t, with the clock never going back, its stored expiry stays at least t plus its cooldown |
| Players.RateLimited | public/player.js:83-98 | two firings of the same ability are at least that ability's table cooldown apart |
| Players.Player.constructor | public/player.js:11-21 | a new player has health 100, is not defeated and has no cooldowns |
| Players.Player.IsDefeated | public/player.js:131-133 | a player not reported defeated has health above zero |
| Players.Player.IsAbilityOnCooldown | public/player.js:92-94 | an ability is on cooldown exactly when an expiry is stored and is later than `now`; a never-used ability is off cooldown |
| Players.Player.TakeDamage | public/player.js:121-129 | health drops by exactly the damage; `defeated` is set exactly when it was already set or health is now at or below zero |
| Players.Player.SetAbilityCooldown | public/player.js:96-98 | afterwards the ability is on cooldown at time t exactly when t is before `now` plus the duration; nothing else changes |
| Players.Player.SetPosition | public/player.js:109-111 | only the position changes, to the given one |
| Players.Player.UseAbility | public/player.js:79-90 | off cooldown with a known name, the target takes the table damage and the user's expiry becomes `now` plus the table cooldown, also when the target is the user; on cooldown nothing changes; with an unknown name it throws a TypeError and nothing changes |
| Client.DeliveryKeepsConsistency | public/client.js:101-114 | no sequence of events leaves an entry at or below zero health without `defeated` |
| Client.PrintedIdsSpareLocalEntry | public/client.js:48 | events naming printed integer ids never touch the local player's `"null"` entry or the `playerId` field |
| Client.Game.constructor | public/client.js:29-48 | the directory holds just the local player, under `"null"`, because `playerId` is still null; the local camera exists and is active |
| Client.Game.OnPlayerConnected | public/client.js:63-72 | a fresh player at the given position is stored under the id's key, replacing any entry there; nothing else changes |
| Client.Game.Store | public/client.js:70 | storing an object not yet in the directory adds its state under the key and keeps every entry valid and distinct |
| Client.Game.OnPlayerId | public/client.js:74-76 | only `playerId` changes |
| Client.Game.OnPlayerDisconnected | public/client.js:79-86 | the id's entry is removed if present, otherwise nothing changes; other entries are untouched |
| Client.Game.OnMove | public/client.js:89-98 | nothing changes when the id `===` the client's `playerId` or names no entry; otherwise only that entry's position is set |
| Client.Game.OnCombat | public/client.js:101-114 | the target takes the damage only when both entries exist; otherwise nothing changes |
| Client.Game.CreateCamera | public/client.js:128-134 | a fresh camera is stored under the name; nothing else changes |
| Client.Game.SetActiveCamera | public/client.js:136-140 | the active camera changes, to the named one, only when that camera exists |
| Client.Game.IsInCombatRange | public/client.js:211-218 | every pair is in range |
| Client.Game.HandleCombat | public/client.js:203-209 | the 'combat' request is always sent, with the given ids and ability name |
| Session.InboxConcat | server.js:62-68 | a session's inbox of successive emits is the concatenation of its inboxes |
| Session.InboxWelcome | server.js:59-64 | the new session's inbox from the welcome is every welcome event in key order; other sessions get none |
| Session.InboxBroadcast | server.js:68 | a broadcast gives each session other than the sender one copy of its event per listing of that session, and the sender nothing |
| Session.ConnectInboxes | server.js:59-68 | from one connect the new session receives exactly the welcome events, every other registered session exactly one announcement of the new id, and anyone else nothing |
| Session.KeyStringsMember | public/client.js:70 | an id's key is among the keys of a list exactly when the id is in the list |
| Session.KeyStringsAreDecimal | public/client.js:70 | every key of a list is the printed form of a listed id |
| Session.KeyStringsExcludeNull | public/client.js:70 | no printed id is the `"null"` key the local player sits under |
| Session.DeliverWelcome | public/client.js:63-72 | delivering the welcome adds one entry per key at its position and leaves the other entries and `playerId` unchanged |
| Session.NewClientInbox | server.js:59-68 | the new session's share of a connect is exactly the welcome, in key order |
| Session.WelcomedDirectory | public/client.js:63-72 | after the welcome, a fresh game holds the local `"null"` entry plus exactly one entry per registered id, at its position |
| Session.NewClientDirectory | server.js:59-64 | a new client ends up with its local player under `"null"` and, at the origin, under its own id as well, plus every other registered id; `playerId` stays null |
| Session.ExistingClientInbox | server.js:68 | from a connect, each earlier session receives exactly one event: the new numeric id at the origin |
| Session.ExistingClientLearnsNewcomer | server.js:68 | each earlier session receives exactly one event from a connect, and its directory gains the newcomer at the origin |
| Session.MoveInbox | server.js:76 | a move reaches each other registered session exactly once and the mover not at all |
| Session.RelayedMove | public/client.js:89-98 | a client never sent 'player-id' lets every relayed move through; only the mover's entry, if present, takes the new position |
| Session.DisconnectInbox | server.js:100 | a departure reaches each other registered session exactly once |
| Session.RelayedDisconnect | public/client.js:79-86 | each other registered session drops the leaver's entry from its directory, and nothing else changes |

## Left out

- HTTPS server creation, certificate reads, express static serving, CORS and
  `listen` (`server.js:1-41`, `server.js:107-111`) are I/O and library setup.
- The socket.io transport is not modelled: delivery, ordering across
  sessions, and the socket object stored in each registry entry. An emit is
  an append to the outbox. A broadcast is modelled in ascending id order.
- The relay's combat success branch is not modelled as a broadcast. It reads
  the undeclared `game` (`server.js:83`) and throws a ReferenceError before
  `useAbility` or `io.emit` run, so it is `Threw(ReferenceError)` with no
  effect.
- Property names inherited from `Object.prototype` (`"constructor"`,
  `"toString"`, `"__proto__"`, …) are not modelled. Lookups see own entries
  only, in `players[...]` on both sides and in `this.abilities[...]`.
- Numbers are integers. Fractional ids or damage, `NaN` and other non-integer
  values are not modelled. So the client's `combat` handler takes `damage` as
  a supplied integer; with the relay's actual payload it would be `undefined`
  and health would become `NaN`. Ids on the wire are numbers, strings, `null`
  or `undefined`; objects and booleans are not modelled.
- Ids, the id counter, health, damage and clock readings are unbounded
  integers. JavaScript numbers are doubles: after 2^53 connections
  `playerIdCounter++` (`server.js:54`) no longer changes the value, so ids
  would repeat and `players[playerId] = …` (`server.js:55`) would overwrite a
  live entry; and from 10^21 up `String(n)` switches to exponent notation,
  which `Js.Decimal` does not follow. `Server.SessionRelay.Connect`,
  `ServerProperties.IdsStrictlyIncrease` and
  `ServerProperties.DepartedNeverReturns` therefore hold for runs of fewer
  than 2^53 connections only.
- Payloads are assumed well-formed: `data` is an object and every `position`
  is an `{x, y, z}` triple (`Protocol.Vec3`). Not modelled: a `null` or
  missing `data`, which throws a TypeError at the destructuring
  (`server.js:80`, `public/client.js:64`) or the property read
  (`server.js:73`); a missing position, which the relay stores as `undefined`
  and sends on in later welcomes (`server.js:61-62`, `server.js:73-76`); and
  the client's `player.setPosition(undefined)` (`public/client.js:69`,
  `public/client.js:95`, `public/player.js:109-111`), which throws, so that
  entry is never stored or moved.
- An uncaught throw in a relay handler is not followed past the throw. No
  handler in `server.js` catches, and an exception escaping a socket.io
  listener can end the Node process, losing the registry and the counter.
  `Server.Step` instead leaves the state as it was and the run continues, so
  the run lemmas (`ServerProperties.IdsStrictlyIncrease`,
  `ServerProperties.DepartedNeverReturns`,
  `ServerProperties.RelayedEventsNamePrintedIds`) describe every prefix of a
  run that the process survives, and nothing after a throw.
- `Date.now()` is the parameter `now`. Both reads in one `useAbility` call
  see the same `now`.
- Players.Player.UseAbility: the target is always a player object. A `null`
  or `undefined` target, which would throw a TypeError, is not modelled.
- Players.Player.IsDefeated: its contract promises only that an undefeated
  player has health left. That the result is the `defeated` field is visible
  only from its body.
- All three.js code is not modelled: the mesh, movement along a direction
  (`moveForward`, `moveBackward`, `moveLeft`, `moveRight`), `getDirection`,
  `rotatePlayer`, `getPosition`, the camera parameters, `initControls`,
  `updatePlayerCamera`, `onWindowResize`, `onMouseMove`, `animate`,
  `handleInput` and its 'move' emit. A player's mesh is reduced to its
  position.
- `public/ground.js` only builds a textured mesh and is not part of this
  model.
- The random colour (`public/client.js:67`) and `console.log` are not modelled.
- The socket connection setup (`public/client.js:7-16`) and the registration
  of listeners in `initSocketListeners` are not modelled. Each handler is a
  method that the caller invokes with the event's payload.

## Code versus its own comments

The comments in the code promise more than the code does. The model follows
the code throughout.

- `server.js:58` says "Send existing player positions to the new player".
  The `!==` test at `server.js:60` compares a string key with a number and is
  always true, so the new session is also sent its own entry
  (`ServerProperties.WelcomeSendsEveryKey`). After `n` connects, each session
  has therefore heard about itself too (`ServerProperties.AfterConnections`).
- `server.js:67` says the new player's id goes "to all other clients", and
  the client listens for 'player-id' (`public/client.js:74-76`), but nothing
  in `server.js` ever sends 'player-id'
  (`ServerProperties.RelayedEventsNamePrintedIds`). A client's `playerId`
  stays `null` (`Session.NewClientDirectory`).
- `server.js:89` says "Emit the combat event to all clients". Between
  registered players the handler throws at `game.isInCombatRange`
  (`server.js:83`) before it gets there, and otherwise sends nothing
  (`Server.SessionRelay.Combat`).

/** The events the relay sends to clients, with the bookkeeping to count them. */
module Protocol {
  import opened Js

  /** A position `{x, y, z}`. The relay only stores and forwards positions. */
  datatype Vec3 = Vec3(x: real, y: real, z: real)

  /** `{ x: 0, y: 0, z: 0 }`, where a new session is placed. */
  const Origin := Vec3(0.0, 0.0, 0.0)

  /** A server-to-client event, by its socket.io event name. */
  datatype ServerEvent =
    | PlayerConnected(playerId: JsVal, position: Vec3)  // 'player-connected'
    | PlayerIdAssigned(playerId: JsVal)                 // 'player-id': listened for by clients, never sent
    | PlayerDisconnected(playerId: JsVal)               // 'player-disconnected'
    | PlayerMoved(playerId: JsVal, position: Vec3)      // 'move'
    | CombatHit(attackerId: JsVal, targetId: JsVal, damage: int)  // 'combat': listened for by clients, never delivered

  /** An event about one player whose id, used as a property key, is the
      printed form of an integer: the only kind the relay sends. */
  predicate NamesPrintedId(ev: ServerEvent) {
    (ev.PlayerConnected? || ev.PlayerMoved? || ev.PlayerDisconnected?) && IsCanonicalIndex(ToKey(ev.playerId))
  }

  /** One event sent to the session with id `recipient`. */
  datatype Envelope = Envelope(recipient: nat, event: ServerEvent)

  /** A 'combat' request a client sends. */
  datatype CombatRequest = CombatRequest(attackerId: JsVal, targetId: JsVal, abilityName: string)

  /** Strictly increasing, hence free of repetitions. */
  predicate Ascending(keys: seq<nat>) {
    forall i, j :: 0 <= i < j < |keys| ==> keys[i] < keys[j]
  }

  /** How many times `k` occurs in `keys`. */
  function Multiplicity(keys: seq<nat>, k: nat): nat {
    if keys == [] then 0
    else Multiplicity(keys[..|keys| - 1], k) + (if keys[|keys| - 1] == k then 1 else 0)
  }

  /** In a strictly increasing list every member occurs exactly once. */
  lemma {:induction false} AscendingMultiplicity(keys: seq<nat>, k: nat)
    requires Ascending(keys)
    ensures Multiplicity(keys, k) == if k in keys then 1 else 0
  {
    if keys != [] {
      var init := keys[..|keys| - 1];
      AscendingMultiplicity(init, k);
      assert keys == init + [keys[|keys| - 1]];
      if keys[|keys| - 1] == k {
        assert k !in init;
      }
    }
  }

  /** How many copies of exactly `e` are in `out`. */
  function Received(out: seq<Envelope>, e: Envelope): nat {
    if out == [] then 0
    else Received(out[..|out| - 1], e) + (if out[|out| - 1] == e then 1 else 0)
  }

  /** How many 'player-connected' events sent to `to` name a player whose
      property key is `key`: the client stores an announced player under
      that key, whether the id came as a number or as a string. */
  function Announced(out: seq<Envelope>, to: nat, key: string): nat {
    if out == [] then 0
    else
      var e := out[|out| - 1];
      Announced(out[..|out| - 1], to, key)
        + (if e.recipient == to && e.event.PlayerConnected? && ToKey(e.event.playerId) == key then 1 else 0)
  }

  lemma {:induction false} ReceivedConcat(a: seq<Envelope>, b: seq<Envelope>, e: Envelope)
    ensures Received(a + b, e) == Received(a, e) + Received(b, e)
  {
    if b != [] {
      var init := b[..|b| - 1];
      assert (a + b)[..|a + b| - 1] == a + init;
      ReceivedConcat(a, init, e);
    } else {
      assert a + b == a;
    }
  }

  lemma {:induction false} AnnouncedConcat(a: seq<Envelope>, b: seq<Envelope>, to: nat, key: string)
    ensures Announced(a + b, to, key) == Announced(a, to, key) + Announced(b, to, key)
  {
    if b != [] {
      var init := b[..|b| - 1];
      assert (a + b)[..|a + b| - 1] == a + init;
      AnnouncedConcat(a, init, to, key);
    } else {
      assert a + b == a;
    }
  }
}

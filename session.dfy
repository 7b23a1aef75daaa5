/** What a connect looks like from the clients' side: the events the relay
    sends each session, delivered in order to that session's directory. */
module Session {
  import opened Js
  import opened Protocol
  import opened Server
  import opened ServerProperties
  import opened Players
  import opened Client

  /** The events in `out` addressed to session `to`, in the order sent. */
  function Inbox(out: seq<Envelope>, to: nat): seq<ServerEvent> {
    if out == [] then []
    else
      var e := out[|out| - 1];
      Inbox(out[..|out| - 1], to) + (if e.recipient == to then [e.event] else [])
  }

  lemma {:induction false} InboxConcat(a: seq<Envelope>, b: seq<Envelope>, to: nat)
    ensures Inbox(a + b, to) == Inbox(a, to) + Inbox(b, to)
  {
    if b != [] {
      var init := b[..|b| - 1];
      assert (a + b)[..|a + b| - 1] == a + init;
      InboxConcat(a, init, to);
    } else {
      assert a + b == a;
    }
  }

  /** The welcome events for `keys`, in order. */
  function WelcomeEvents(players: map<nat, Vec3>, keys: seq<nat>): seq<ServerEvent>
    requires forall i :: 0 <= i < |keys| ==> keys[i] in players
  {
    if keys == [] then []
    else
      var k := keys[|keys| - 1];
      WelcomeEvents(players, keys[..|keys| - 1]) + [PlayerConnected(JsStr(Decimal(k)), players[k])]
  }

  /** The new session's share of the welcome is every welcome event; nobody
      else gets any of it. */
  lemma {:induction false} InboxWelcome(players: map<nat, Vec3>, id: nat, keys: seq<nat>, to: nat)
    requires forall i :: 0 <= i < |keys| ==> keys[i] in players
    ensures Inbox(Welcome(players, id, keys), to) == if to == id then WelcomeEvents(players, keys) else []
  {
    if keys != [] {
      var init, k := keys[..|keys| - 1], keys[|keys| - 1];
      var sent := Envelope(id, PlayerConnected(JsStr(Decimal(k)), players[k]));
      InboxWelcome(players, id, init, to);
      InboxConcat(Welcome(players, id, init), [sent], to);
      assert [sent][..0] == [];
    }
  }

  /** `n` copies of `ev`. */
  function Copies(ev: ServerEvent, n: nat): seq<ServerEvent> {
    if n == 0 then [] else Copies(ev, n - 1) + [ev]
  }

  /** A broadcast gives each listed session other than the sender one copy
      of its event per listing, and nothing to anyone else. */
  lemma {:induction false} InboxBroadcast(keys: seq<nat>, sender: nat, ev: ServerEvent, to: nat)
    ensures Inbox(Broadcast(keys, sender, ev), to) == Copies(ev, if to != sender then Multiplicity(keys, to) else 0)
  {
    if keys != [] {
      var init, k := keys[..|keys| - 1], keys[|keys| - 1];
      var tail := if k != sender then [Envelope(k, ev)] else [];
      InboxBroadcast(init, sender, ev, to);
      InboxConcat(Broadcast(init, sender, ev), tail, to);
      if tail != [] {
        assert tail[..0] == [];
      }
    }
  }

  /** Everything one connect sends, as each session's inbox: the new session
      gets the welcome in key order, every other registered session the
      newcomer's numeric id at the origin, and nobody else anything. */
  lemma ConnectInboxes(players: map<nat, Vec3>, id: nat, j: nat)
    requires forall k :: k in players ==> k < id + 1
    ensures var keys := KeysBelow(players, id + 1);
            var joined := PlayerConnected(JsNum(id), Origin);
            Inbox(Welcome(players, id, keys) + Broadcast(keys, id, joined), j)
            == if j == id then WelcomeEvents(players, keys) else if j in players then [joined] else []
  {
    var keys := KeysBelow(players, id + 1);
    var joined := PlayerConnected(JsNum(id), Origin);
    InboxConcat(Welcome(players, id, keys), Broadcast(keys, id, joined), j);
    InboxWelcome(players, id, keys, j);
    InboxBroadcast(keys, id, joined, j);
    AllKeysOnce(players, id + 1, j);
    assert Copies(joined, 1) == [joined];
  }

  /** The printed ids of `keys`. */
  function KeyStrings(keys: seq<nat>): set<string> {
    if keys == [] then {} else KeyStrings(keys[..|keys| - 1]) + {Decimal(keys[|keys| - 1])}
  }

  lemma {:induction false} KeyStringsMember(keys: seq<nat>, k: nat)
    ensures Decimal(k) in KeyStrings(keys) <==> k in keys
  {
    if keys != [] {
      var init, last := keys[..|keys| - 1], keys[|keys| - 1];
      KeyStringsMember(init, k);
      assert keys == init + [last];
      if Decimal(last) == Decimal(k) {
        DecimalInjective(last, k);
      }
    }
  }

  /** Delivering the welcome adds one entry per key, at that key's position,
      and leaves every other entry and the `playerId` field alone. */
  lemma {:induction false} DeliverWelcome(d: Directory, players: map<nat, Vec3>, keys: seq<nat>)
    requires forall i :: 0 <= i < |keys| ==> keys[i] in players
    ensures var r := DeliverAll(d, WelcomeEvents(players, keys));
            && r.playerId == d.playerId
            && r.view.Keys == d.view.Keys + KeyStrings(keys)
            && (forall k :: k in keys ==> Decimal(k) in r.view && r.view[Decimal(k)] == Fresh.(position := players[k]))
            && (forall key :: key in d.view && key !in KeyStrings(keys) ==> r.view[key] == d.view[key])
  {
    if keys != [] {
      var init, last := keys[..|keys| - 1], keys[|keys| - 1];
      var w := WelcomeEvents(players, init);
      var ev := PlayerConnected(JsStr(Decimal(last)), players[last]);
      DeliverWelcome(d, players, init);
      assert (w + [ev])[..|w + [ev]| - 1] == w;
      assert keys == init + [last];
      forall k | k in keys
        ensures Decimal(k) in DeliverAll(d, w + [ev]).view
        ensures DeliverAll(d, w + [ev]).view[Decimal(k)] == Fresh.(position := players[k])
      {
        if Decimal(k) == Decimal(last) {
          DecimalInjective(k, last);
        }
      }
    }
  }

  /** What the new session is sent by a connect: the welcome, in key order. */
  lemma NewClientInbox(s: Relay)
    requires Invariant(s)
    ensures var r := AfterConnect(s);
            && (forall k :: k in r.players ==> k < s.counter + 1)
            && Inbox(r.outbox[|s.outbox|..], s.counter) == WelcomeEvents(r.players, KeysBelow(r.players, s.counter + 1))
  {
    ConnectSends(s);
    ConnectInboxes(AfterConnect(s).players, s.counter, s.counter);
  }

  /** A fresh game's directory after the welcome for a registry whose keys
      are below `n`: the local entry plus one entry per registered id. */
  lemma WelcomedDirectory(players: map<nat, Vec3>, n: nat)
    requires forall k :: k in players ==> k < n
    ensures var d := DeliverAll(Initial, WelcomeEvents(players, KeysBelow(players, n)));
            && d.playerId == JsNull
            && "null" in d.view && d.view["null"] == Fresh
            && (forall k: nat :: Decimal(k) in d.view <==> k in players)
            && (forall k :: k in players ==> d.view[Decimal(k)] == Fresh.(position := players[k]))
            && (forall key :: key in d.view ==> key == "null" || exists k :: k in players && Decimal(k) == key)
  {
    var keys := KeysBelow(players, n);
    DeliverWelcome(Initial, players, keys);
    var d := DeliverAll(Initial, WelcomeEvents(players, keys));
    forall k: nat
      ensures Decimal(k) in d.view <==> k in players
    {
      KeyStringsMember(keys, k);
      NumericKeys(k);
      if k in players {
        KeysBelowComplete(players, n, k);
      }
    }
    forall k | k in players
      ensures d.view[Decimal(k)] == Fresh.(position := players[k])
    {
      KeysBelowComplete(players, n, k);
    }
    KeyStringsExcludeNull(keys);
    forall key | key in d.view
      ensures key == "null" || exists k :: k in players && Decimal(k) == key
    {
      if key != "null" {
        KeyStringsAreDecimal(keys, key);
      }
    }
  }

  /** The directory of a client that has just connected, once its own
      events of the connect have arrived: besides the local player under
      "null", one entry per registered id at its stored position, the new
      session's own id included (the welcome does not skip it), so the
      local player is listed twice. `playerId` stays null. */
  lemma NewClientDirectory(s: Relay)
    requires Invariant(s)
    ensures var r := AfterConnect(s);
            var d := DeliverAll(Initial, Inbox(r.outbox[|s.outbox|..], s.counter));
            && d.playerId == JsNull
            && "null" in d.view && d.view["null"] == Fresh
            && Decimal(s.counter) in d.view && d.view[Decimal(s.counter)] == Fresh
            && (forall k: nat :: Decimal(k) in d.view <==> k in r.players)
            && (forall k :: k in r.players ==> d.view[Decimal(k)] == Fresh.(position := r.players[k]))
            && (forall key :: key in d.view ==> key == "null" || exists k :: k in r.players && Decimal(k) == key)
  {
    var r := AfterConnect(s);
    NewClientInbox(s);
    WelcomedDirectory(r.players, s.counter + 1);
  }

  /** No printed id is the key "null". */
  lemma {:induction false} KeyStringsExcludeNull(keys: seq<nat>)
    ensures "null" !in KeyStrings(keys)
  {
    if keys != [] {
      KeyStringsExcludeNull(keys[..|keys| - 1]);
      NumericKeys(keys[|keys| - 1]);
    }
  }

  lemma {:induction false} KeyStringsAreDecimal(keys: seq<nat>, key: string)
    requires key in KeyStrings(keys)
    ensures exists k :: k in keys && Decimal(k) == key
  {
    var init, last := keys[..|keys| - 1], keys[|keys| - 1];
    if key != Decimal(last) {
      KeyStringsAreDecimal(init, key);
      var k :| k in init && Decimal(k) == key;
      assert k in keys;
    }
  }

  /** A session registered before the connect receives exactly one event
      from it: the newcomer's numeric id at the origin. */
  lemma ExistingClientInbox(s: Relay, j: nat)
    requires Invariant(s) && j in s.players
    ensures var r := AfterConnect(s);
            && s.outbox <= r.outbox
            && Inbox(r.outbox[|s.outbox|..], j) == [PlayerConnected(JsNum(s.counter), Origin)]
  {
    ConnectSends(s);
    ConnectInboxes(AfterConnect(s).players, s.counter, j);
  }

  /** Each earlier session's directory gains the newcomer, at the origin,
      and nothing else changes. */
  lemma ExistingClientLearnsNewcomer(s: Relay, j: nat, d: Directory)
    requires Invariant(s) && j in s.players
    ensures var r := AfterConnect(s);
            DeliverAll(d, Inbox(r.outbox[|s.outbox|..], j)) == d.(view := d.view[Decimal(s.counter) := Fresh])
  {
    ExistingClientInbox(s, j);
    var joined := PlayerConnected(JsNum(s.counter), Origin);
    assert [joined][..0] == [];
    assert Fresh.(position := Origin) == Fresh;
  }

  /** A move reaches every other registered session once and the mover not
      at all. */
  lemma MoveInbox(s: Relay, sender: nat, position: Vec3, j: nat)
    requires Invariant(s) && sender in s.players && j in s.players
    ensures var r := AfterMove(s, sender, position);
            && s.outbox <= r.outbox
            && Inbox(r.outbox[|s.outbox|..], j) == if j == sender then [] else [PlayerMoved(JsNum(sender), position)]
  {
    var r := AfterMove(s, sender, position);
    var keys := KeysBelow(s.players, s.counter);
    var ev := PlayerMoved(JsNum(sender), position);
    assert r.outbox[|s.outbox|..] == Broadcast(keys, sender, ev);
    InboxBroadcast(keys, sender, ev, j);
    AllKeysOnce(s.players, s.counter, j);
    assert Copies(ev, 1) == [ev];
  }

  /** A client that was never sent 'player-id' still has a null `playerId`,
      which no relayed id equals, so the `!==` guard lets every relayed move
      through: the mover's entry, if the client has one, takes the new
      position, and nothing else changes. */
  lemma RelayedMove(s: Relay, sender: nat, position: Vec3, j: nat, d: Directory)
    requires Invariant(s) && sender in s.players && j in s.players
    requires d.playerId == JsNull
    ensures var r := AfterMove(s, sender, position);
            var key := Decimal(sender);
            DeliverAll(d, Inbox(r.outbox[|s.outbox|..], j))
            == if j != sender && key in d.view then d.(view := d.view[key := d.view[key].(position := position)]) else d
  {
    MoveInbox(s, sender, position, j);
    var ev := PlayerMoved(JsNum(sender), position);
    assert [ev][..0] == [];
    NumericKeys(sender);
  }

  /** A departure reaches every other registered session once. */
  lemma DisconnectInbox(s: Relay, sender: nat, j: nat)
    requires Invariant(s) && j in s.players && j != sender
    ensures var r := AfterDisconnect(s, sender);
            && s.outbox <= r.outbox
            && Inbox(r.outbox[|s.outbox|..], j) == [PlayerDisconnected(JsNum(sender))]
  {
    var r := AfterDisconnect(s, sender);
    var keys := KeysBelow(s.players, s.counter);
    var ev := PlayerDisconnected(JsNum(sender));
    assert r.outbox[|s.outbox|..] == Broadcast(keys, sender, ev);
    InboxBroadcast(keys, sender, ev, j);
    AllKeysOnce(s.players, s.counter, j);
    assert Copies(ev, 1) == [ev];
  }

  /** Each session other than the leaver drops the leaver's entry, and
      nothing else in its directory changes. */
  lemma RelayedDisconnect(s: Relay, sender: nat, j: nat, d: Directory)
    requires Invariant(s) && j in s.players && j != sender
    ensures var r := AfterDisconnect(s, sender);
            var inbox := Inbox(r.outbox[|s.outbox|..], j);
            && DeliverAll(d, inbox).view == d.view - {Decimal(sender)}
            && DeliverAll(d, inbox).playerId == d.playerId
  {
    DisconnectInbox(s, sender, j);
    var ev := PlayerDisconnected(JsNum(sender));
    assert [ev][..0] == [];
    NumericKeys(sender);
  }
}

/** What the relay's handlers guarantee, one call at a time and over runs. */
module ServerProperties {
  import opened Js
  import opened Protocol
  import opened Server

  // ---------------------------------------------------------------------
  // The fan-out functions

  /** The `!==` test of the welcome loop compares a string with a number, so
      it never excludes a key: the new session is sent every entry, its own
      included, each with the key as a string and the stored position. */
  lemma {:induction false} WelcomeSendsEveryKey(players: map<nat, Vec3>, id: nat, keys: seq<nat>)
    requires forall i :: 0 <= i < |keys| ==> keys[i] in players
    ensures var w := Welcome(players, id, keys);
            |w| == |keys|
            && forall i :: 0 <= i < |w| ==> w[i] == Envelope(id, PlayerConnected(JsStr(Decimal(keys[i])), players[keys[i]]))
  {
    if keys != [] {
      WelcomeSendsEveryKey(players, id, keys[..|keys| - 1]);
    }
  }

  lemma {:induction false} WelcomeReceived(players: map<nat, Vec3>, id: nat, keys: seq<nat>, to: nat, k: nat, pos: Vec3)
    requires forall i :: 0 <= i < |keys| ==> keys[i] in players
    ensures Received(Welcome(players, id, keys), Envelope(to, PlayerConnected(JsStr(Decimal(k)), pos)))
            == if to == id && k in players && pos == players[k] then Multiplicity(keys, k) else 0
  {
    if keys != [] {
      var init, last := keys[..|keys| - 1], keys[|keys| - 1];
      var sent := Envelope(id, PlayerConnected(JsStr(Decimal(last)), players[last]));
      WelcomeReceived(players, id, init, to, k, pos);
      ReceivedConcat(Welcome(players, id, init), [sent], Envelope(to, PlayerConnected(JsStr(Decimal(k)), pos)));
      if Decimal(last) == Decimal(k) {
        DecimalInjective(last, k);
      }
    }
  }

  lemma {:induction false} WelcomeAnnounced(players: map<nat, Vec3>, id: nat, keys: seq<nat>, to: nat, k: nat)
    requires forall i :: 0 <= i < |keys| ==> keys[i] in players
    ensures Announced(Welcome(players, id, keys), to, Decimal(k)) == if to == id then Multiplicity(keys, k) else 0
  {
    if keys != [] {
      var init, last := keys[..|keys| - 1], keys[|keys| - 1];
      var sent := Envelope(id, PlayerConnected(JsStr(Decimal(last)), players[last]));
      WelcomeAnnounced(players, id, init, to, k);
      AnnouncedConcat(Welcome(players, id, init), [sent], to, Decimal(k));
      if Decimal(last) == Decimal(k) {
        DecimalInjective(last, k);
      }
    }
  }

  /** Everything the welcome loop sends goes to the new session and is a
      'player-connected' naming a printed id. */
  lemma {:induction false} WelcomeRecipients(players: map<nat, Vec3>, id: nat, keys: seq<nat>)
    requires forall i :: 0 <= i < |keys| ==> keys[i] in players
    ensures forall e :: e in Welcome(players, id, keys) ==>
              e.recipient == id && e.event.PlayerConnected? && NamesPrintedId(e.event)
  {
    if keys != [] {
      WelcomeRecipients(players, id, keys[..|keys| - 1]);
      DecimalIsCanonical(keys[|keys| - 1]);
    }
  }

  /** A broadcast delivers `ev` to each listed session other than the sender,
      as many times as it is listed, and nothing else. */
  lemma {:induction false} BroadcastReceived(keys: seq<nat>, sender: nat, ev: ServerEvent, e: Envelope)
    ensures Received(Broadcast(keys, sender, ev), e)
            == if e.event == ev && e.recipient != sender then Multiplicity(keys, e.recipient) else 0
  {
    if keys != [] {
      var init, last := keys[..|keys| - 1], keys[|keys| - 1];
      BroadcastReceived(init, sender, ev, e);
      var tail := if last != sender then [Envelope(last, ev)] else [];
      ReceivedConcat(Broadcast(init, sender, ev), tail, e);
      if tail != [] {
        assert tail[..0] == [];
      }
    }
  }

  lemma {:induction false} BroadcastAnnounced(keys: seq<nat>, sender: nat, id: nat, pos: Vec3, to: nat, k: nat)
    ensures Announced(Broadcast(keys, sender, PlayerConnected(JsNum(id), pos)), to, Decimal(k))
            == if k == id && to != sender then Multiplicity(keys, to) else 0
  {
    var ev := PlayerConnected(JsNum(id), pos);
    if keys != [] {
      var init, last := keys[..|keys| - 1], keys[|keys| - 1];
      BroadcastAnnounced(init, sender, id, pos, to, k);
      var tail := if last != sender then [Envelope(last, ev)] else [];
      AnnouncedConcat(Broadcast(init, sender, ev), tail, to, Decimal(k));
      if tail != [] {
        assert tail[..0] == [];
      }
      if Decimal(id) == Decimal(k) {
        DecimalInjective(id, k);
      }
    }
  }

  lemma {:induction false} BroadcastRecipients(keys: seq<nat>, sender: nat, ev: ServerEvent)
    ensures forall e :: e in Broadcast(keys, sender, ev) ==> e.recipient != sender && e.recipient in keys && e.event == ev
  {
    if keys != [] {
      BroadcastRecipients(keys[..|keys| - 1], sender, ev);
    }
  }

  /** The keys the handlers list are every registered id, once each. */
  lemma AllKeysOnce(players: map<nat, Vec3>, n: nat, k: nat)
    requires forall j :: j in players ==> j < n
    ensures Multiplicity(KeysBelow(players, n), k) == if k in players then 1 else 0
  {
    KeysBelowAscending(players, n);
    AscendingMultiplicity(KeysBelow(players, n), k);
    if k in players {
      KeysBelowComplete(players, n, k);
    }
  }

  // ---------------------------------------------------------------------
  // One handler at a time

  /** Connect hands out the counter, which no entry holds, bumps the counter
      by one, adds the new id at the origin and leaves every other entry alone. */
  lemma ConnectAllocatesFreshId(s: Relay)
    requires Invariant(s)
    ensures var r := AfterConnect(s);
            && s.counter !in s.players
            && r.counter == s.counter + 1
            && r.players.Keys == s.players.Keys + {s.counter}
            && r.players[s.counter] == Origin
            && (forall k :: k in s.players ==> r.players[k] == s.players[k])
            && |r.players| == |s.players| + 1
            && Invariant(r)
  {
  }

  /** What a connect appends: the welcome loop's output, then the broadcast. */
  lemma ConnectSends(s: Relay)
    requires Invariant(s)
    ensures var r := AfterConnect(s);
            var keys := KeysBelow(r.players, s.counter + 1);
            && s.outbox <= r.outbox
            && (forall j :: j in r.players ==> j < s.counter + 1)
            && r.outbox[|s.outbox|..]
               == Welcome(r.players, s.counter, keys) + Broadcast(keys, s.counter, PlayerConnected(JsNum(s.counter), Origin))
  {
    var r := AfterConnect(s);
    var keys := KeysBelow(r.players, s.counter + 1);
    var w := Welcome(r.players, s.counter, keys);
    var b := Broadcast(keys, s.counter, PlayerConnected(JsNum(s.counter), Origin));
    assert r.outbox == s.outbox + (w + b);
  }

  /** The connect messages as seen by the new session `id`, for one entry `k`. */
  lemma ConnectMessagesFor(players: map<nat, Vec3>, id: nat, k: nat)
    requires forall j :: j in players ==> j < id + 1
    ensures var keys := KeysBelow(players, id + 1);
            var sent := Welcome(players, id, keys) + Broadcast(keys, id, PlayerConnected(JsNum(id), Origin));
            && (k in players ==> Received(sent, Envelope(id, PlayerConnected(JsStr(Decimal(k)), players[k]))) == 1)
            && Announced(sent, id, Decimal(k)) == if k in players then 1 else 0
  {
    var keys := KeysBelow(players, id + 1);
    var w := Welcome(players, id, keys);
    var b := Broadcast(keys, id, PlayerConnected(JsNum(id), Origin));
    AllKeysOnce(players, id + 1, k);
    if k in players {
      var e := Envelope(id, PlayerConnected(JsStr(Decimal(k)), players[k]));
      ReceivedConcat(w, b, e);
      WelcomeReceived(players, id, keys, id, k, players[k]);
      BroadcastReceived(keys, id, PlayerConnected(JsNum(id), Origin), e);
    }
    AnnouncedConcat(w, b, id, Decimal(k));
    WelcomeAnnounced(players, id, keys, id, k);
    BroadcastAnnounced(keys, id, id, Origin, id, k);
  }

  /** The new session is sent exactly one 'player-connected' for each entry,
      its own id included, carrying that entry's position; it is sent nothing
      about ids that are not registered. */
  lemma ConnectWelcomesEveryEntry(s: Relay)
    requires Invariant(s)
    ensures var r := AfterConnect(s);
            var sent := r.outbox[|s.outbox|..];
            && s.outbox <= r.outbox
            && (forall k :: k in r.players ==>
                  Received(sent, Envelope(s.counter, PlayerConnected(JsStr(Decimal(k)), r.players[k]))) == 1)
            && (forall k: nat :: Announced(sent, s.counter, Decimal(k)) == if k in r.players then 1 else 0)
  {
    ConnectSends(s);
    forall k: nat {
      ConnectMessagesFor(AfterConnect(s).players, s.counter, k);
    }
  }

  /** A broadcast over every registered id reaches each registered session
      other than the sender exactly once. */
  lemma BroadcastReachesEachOther(players: map<nat, Vec3>, n: nat, sender: nat, ev: ServerEvent, j: nat)
    requires forall k :: k in players ==> k < n
    requires j in players && j != sender
    ensures Received(Broadcast(KeysBelow(players, n), sender, ev), Envelope(j, ev)) == 1
  {
    BroadcastReceived(KeysBelow(players, n), sender, ev, Envelope(j, ev));
    AllKeysOnce(players, n, j);
  }

  /** The connect messages as seen by a session `j` other than the new one. */
  lemma ConnectMessagesTo(players: map<nat, Vec3>, id: nat, j: nat)
    requires forall k :: k in players ==> k < id + 1
    requires j in players && j != id
    ensures var keys := KeysBelow(players, id + 1);
            var joined := PlayerConnected(JsNum(id), Origin);
            Received(Welcome(players, id, keys) + Broadcast(keys, id, joined), Envelope(j, joined)) == 1
  {
    var keys := KeysBelow(players, id + 1);
    var joined := PlayerConnected(JsNum(id), Origin);
    WelcomeReachesNoOther(players, id, keys, Envelope(j, joined));
    BroadcastReachesEachOther(players, id + 1, id, joined, j);
    ReceivedConcat(Welcome(players, id, keys), Broadcast(keys, id, joined), Envelope(j, joined));
  }

  /** Every session registered before the connect is sent exactly one
      'player-connected' with the new numeric id at the origin, and that is
      all the connect sends to sessions other than the new one. */
  lemma ConnectAnnouncesToOthers(s: Relay)
    requires Invariant(s)
    ensures var r := AfterConnect(s);
            var sent := r.outbox[|s.outbox|..];
            var joined := PlayerConnected(JsNum(s.counter), Origin);
            && s.outbox <= r.outbox
            && (forall j :: j in s.players ==> Received(sent, Envelope(j, joined)) == 1)
            && (forall e :: e in sent && e.recipient != s.counter ==> e.recipient in s.players && e.event == joined)
  {
    var r := AfterConnect(s);
    var keys := KeysBelow(r.players, s.counter + 1);
    ConnectSends(s);
    forall j | j in s.players {
      ConnectMessagesTo(r.players, s.counter, j);
    }
    WelcomeRecipients(r.players, s.counter, keys);
    BroadcastRecipients(keys, s.counter, PlayerConnected(JsNum(s.counter), Origin));
  }

  lemma {:induction false} WelcomeReachesNoOther(players: map<nat, Vec3>, id: nat, keys: seq<nat>, e: Envelope)
    requires forall i :: 0 <= i < |keys| ==> keys[i] in players
    requires e.recipient != id
    ensures Received(Welcome(players, id, keys), e) == 0
  {
    if keys != [] {
      var init, last := keys[..|keys| - 1], keys[|keys| - 1];
      WelcomeReachesNoOther(players, id, init, e);
      ReceivedConcat(Welcome(players, id, init), [Envelope(id, PlayerConnected(JsStr(Decimal(last)), players[last]))], e);
    }
  }

  /** A move from a registered session replaces only its stored position,
      keeps the counter, and is sent exactly once to every other registered
      session and never to the sender. From an unregistered id nothing
      changes. */
  lemma MoveEffect(s: Relay, sender: nat, position: Vec3)
    requires Invariant(s)
    ensures var r := AfterMove(s, sender, position);
            var moved := PlayerMoved(JsNum(sender), position);
            && s.outbox <= r.outbox
            && r.counter == s.counter
            && Invariant(r)
            && (sender !in s.players ==> r == s)
            && (sender in s.players ==>
                 && r.players == s.players[sender := position]
                 && (forall j :: j in s.players && j != sender ==> Received(r.outbox[|s.outbox|..], Envelope(j, moved)) == 1)
                 && (forall e :: e in r.outbox[|s.outbox|..] ==> e.recipient != sender && e.recipient in s.players && e.event == moved))
  {
    if sender in s.players {
      var keys := KeysBelow(s.players, s.counter);
      var moved := PlayerMoved(JsNum(sender), position);
      var r := AfterMove(s, sender, position);
      assert r.outbox[|s.outbox|..] == Broadcast(keys, sender, moved);
      forall j | j in s.players && j != sender
        ensures Received(Broadcast(keys, sender, moved), Envelope(j, moved)) == 1
      {
        BroadcastReceived(keys, sender, moved, Envelope(j, moved));
        AllKeysOnce(s.players, s.counter, j);
      }
      BroadcastRecipients(keys, sender, moved);
    }
  }

  /** A disconnect deletes only the sender's entry, keeps the counter, and
      announces the departure exactly once to every other registered session. */
  lemma DisconnectEffect(s: Relay, sender: nat)
    requires Invariant(s)
    ensures var r := AfterDisconnect(s, sender);
            var left := PlayerDisconnected(JsNum(sender));
            && s.outbox <= r.outbox
            && r.counter == s.counter
            && Invariant(r)
            && r.players.Keys == s.players.Keys - {sender}
            && (forall k :: k in r.players ==> r.players[k] == s.players[k])
            && (forall j :: j in s.players && j != sender ==> Received(r.outbox[|s.outbox|..], Envelope(j, left)) == 1)
            && (forall e :: e in r.outbox[|s.outbox|..] ==> e.recipient != sender && e.recipient in s.players && e.event == left)
  {
    var keys := KeysBelow(s.players, s.counter);
    var left := PlayerDisconnected(JsNum(sender));
    var r := AfterDisconnect(s, sender);
    assert r.outbox[|s.outbox|..] == Broadcast(keys, sender, left);
    forall j | j in s.players && j != sender
      ensures Received(Broadcast(keys, sender, left), Envelope(j, left)) == 1
    {
      BroadcastReceived(keys, sender, left, Envelope(j, left));
      AllKeysOnce(s.players, s.counter, j);
    }
    BroadcastRecipients(keys, sender, left);
  }

  // ---------------------------------------------------------------------
  // Runs

  /** The ids handed out by the connects of a run, in order. */
  function AssignedIds(s: Relay, events: seq<Event>): seq<nat> {
    if events == [] then []
    else
      var init := events[..|events| - 1];
      AssignedIds(s, init) + (if events[|events| - 1].Connect? then [Run(s, init).counter] else [])
  }

  lemma StepKeepsInvariant(s: Relay, e: Event)
    requires Invariant(s)
    ensures Invariant(Step(s, e)) && Step(s, e).counter == s.counter + (if e.Connect? then 1 else 0)
  {
  }

  /** Along any run the ids handed out strictly increase, never fall below
      the starting counter, and the counter ends one past the last of them:
      an id is never handed out twice. Every registered id stays below the
      counter. */
  lemma {:induction false} IdsStrictlyIncrease(s: Relay, events: seq<Event>)
    requires Invariant(s)
    ensures var ids := AssignedIds(s, events);
            var r := Run(s, events);
            && Invariant(r)
            && Ascending(ids)
            && r.counter == s.counter + |ids|
            && forall i :: 0 <= i < |ids| ==> s.counter <= ids[i] < r.counter
  {
    if events != [] {
      var init := events[..|events| - 1];
      IdsStrictlyIncrease(s, init);
      StepKeepsInvariant(Run(s, init), events[|events| - 1]);
    }
  }

  /** A session that has left never comes back under the same id: once an
      id below the counter is missing from the registry, no later event puts
      it back. */
  lemma {:induction false} DepartedNeverReturns(s: Relay, events: seq<Event>, id: nat)
    requires Invariant(s) && id < s.counter && id !in s.players
    ensures Invariant(Run(s, events)) && id < Run(s, events).counter && id !in Run(s, events).players
  {
    if events != [] {
      var init := events[..|events| - 1];
      DepartedNeverReturns(s, init, id);
      StepKeepsInvariant(Run(s, init), events[|events| - 1]);
    }
  }

  /** Everything the relay sends is a 'player-connected', 'move' or
      'player-disconnected' naming a printed integer id. In particular it
      never sends 'player-id' or 'combat', although clients listen for both. */
  lemma {:induction false} RelayedEventsNamePrintedIds(s: Relay, events: seq<Event>)
    requires forall e :: e in s.outbox ==> NamesPrintedId(e.event)
    ensures forall e :: e in Run(s, events).outbox ==>
              NamesPrintedId(e.event) && !e.event.PlayerIdAssigned? && !e.event.CombatHit?
  {
    if events != [] {
      var init := events[..|events| - 1];
      RelayedEventsNamePrintedIds(s, init);
      var t := Run(s, init);
      match events[|events| - 1]
      case Connect =>
        var players := t.players[t.counter := Origin];
        var keys := KeysBelow(players, t.counter + 1);
        WelcomeRecipients(players, t.counter, keys);
        BroadcastRecipients(keys, t.counter, PlayerConnected(JsNum(t.counter), Origin));
        DecimalIsCanonical(t.counter);
      case Move(sender, position) =>
        BroadcastRecipients(KeysBelow(t.players, t.counter), sender, PlayerMoved(JsNum(sender), position));
        DecimalIsCanonical(sender);
      case Combat(_, _, _) =>
      case Disconnect(sender) =>
        BroadcastRecipients(KeysBelow(t.players, t.counter), sender, PlayerDisconnected(JsNum(sender)));
        DecimalIsCanonical(sender);
    }
  }

  // ---------------------------------------------------------------------
  // n sessions connect

  /** The relay after `n` connections and nothing else. */
  function Connections(n: nat): Relay {
    if n == 0 then Start else AfterConnect(Connections(n - 1))
  }

  /** The registry built by `n` connects: ids 0 to n-1 at the origin. */
  function Joined(n: nat): map<nat, Vec3> {
    if n == 0 then map[] else Joined(n - 1)[n - 1 := Origin]
  }

  /** After `n` connections the counter is `n` and the registry is `Joined(n)`. */
  lemma {:induction false} ConnectionsState(n: nat)
    ensures Connections(n).counter == n && Connections(n).players == Joined(n)
  {
    if n > 0 {
      ConnectionsState(n - 1);
      ConnectRegisters(Connections(n - 1));
    }
  }

  /** A connect registers the counter's value at the origin and bumps the counter. */
  lemma ConnectRegisters(s: Relay)
    ensures AfterConnect(s).counter == s.counter + 1
    ensures AfterConnect(s).players == s.players[s.counter := Origin]
  {
  }

  lemma {:induction false} JoinedKeys(n: nat)
    ensures forall k: nat :: k in Joined(n) <==> k < n
  {
    if n > 0 {
      JoinedKeys(n - 1);
    }
  }

  /** After `n` connections the counter is `n`, every key is below it, and
      the registry holds exactly ids 0 to n-1. */
  lemma ConnectionsRegistry(n: nat)
    ensures Connections(n).counter == n && Invariant(Connections(n))
    ensures forall k: nat :: k in Connections(n).players <==> k < n
  {
    ConnectionsState(n);
    JoinedKeys(n);
  }

  /** After `n` connections the registry holds `n` entries. */
  lemma {:induction false} ConnectionsSize(n: nat)
    ensures |Connections(n).players| == n
  {
    ConnectionsState(n);
    JoinedSize(n);
  }

  lemma {:induction false} JoinedSize(n: nat)
    ensures |Joined(n)| == n
  {
    if n > 0 {
      JoinedSize(n - 1);
      JoinedKeys(n - 1);
      assert n - 1 !in Joined(n - 1);
    }
  }

  /** After `n` connections and no moves, every entry is at the origin. */
  lemma ConnectionsAtOrigin(n: nat)
    ensures forall k :: k in Connections(n).players ==> Connections(n).players[k] == Origin
  {
    ConnectionsState(n);
    JoinedAtOrigin(n);
  }

  lemma {:induction false} JoinedAtOrigin(n: nat)
    ensures forall k :: k in Joined(n) ==> Joined(n)[k] == Origin
  {
    if n > 0 {
      JoinedAtOrigin(n - 1);
    }
  }

  /** The welcome of a connect announces each registered id once to the
      new session, and nothing to anyone else. */
  lemma WelcomeAnnouncesRegistry(players: map<nat, Vec3>, id: nat, i: nat, j: nat)
    requires forall k :: k in players ==> k < id + 1
    ensures Announced(Welcome(players, id, KeysBelow(players, id + 1)), i, Decimal(j))
            == if i == id && j in players then 1 else 0
  {
    WelcomeAnnounced(players, id, KeysBelow(players, id + 1), i, j);
    AllKeysOnce(players, id + 1, j);
  }

  /** The broadcast of a connect announces the new id once to every other
      registered session. */
  lemma BroadcastAnnouncesNewcomer(players: map<nat, Vec3>, id: nat, i: nat, j: nat)
    requires forall k :: k in players ==> k < id + 1
    ensures Announced(Broadcast(KeysBelow(players, id + 1), id, PlayerConnected(JsNum(id), Origin)), i, Decimal(j))
            == if j == id && i != id && i in players then 1 else 0
  {
    BroadcastAnnounced(KeysBelow(players, id + 1), id, id, Origin, i, j);
    AllKeysOnce(players, id + 1, i);
  }

  /** How the connect that hands out id `n - 1` changes the count of
      announcements of `j` that session `i` has received, when the registry
      holds exactly the earlier ids. */
  lemma ConnectAnnouncementStep(s: Relay, n: nat, i: nat, j: nat)
    requires n > 0 && s.counter == n - 1
    requires forall k: nat :: k in s.players <==> k < n - 1
    ensures Announced(AfterConnect(s).outbox, i, Decimal(j))
            == Announced(s.outbox, i, Decimal(j))
               + (if i == n - 1 && j < n then 1 else 0)
               + (if j == n - 1 && i < n - 1 then 1 else 0)
  {
    var id := s.counter;
    var players := s.players[id := Origin];
    var keys := KeysBelow(players, id + 1);
    var w := Welcome(players, id, keys);
    var b := Broadcast(keys, id, PlayerConnected(JsNum(id), Origin));
    assert AfterConnect(s).outbox == s.outbox + w + b;
    AnnouncedConcat(s.outbox + w, b, i, Decimal(j));
    AnnouncedConcat(s.outbox, w, i, Decimal(j));
    WelcomeAnnouncesRegistry(players, id, i, j);
    BroadcastAnnouncesNewcomer(players, id, i, j);
  }

  /** How the n-th connection changes the count of announcements of `j`
      that session `i` has received. */
  lemma ConnectionAnnouncements(n: nat, i: nat, j: nat)
    requires n > 0
    ensures Announced(Connections(n).outbox, i, Decimal(j))
            == Announced(Connections(n - 1).outbox, i, Decimal(j))
               + (if i == n - 1 && j < n then 1 else 0)
               + (if j == n - 1 && i < n - 1 then 1 else 0)
  {
    var s := Connections(n - 1);
    ConnectionsRegistry(n - 1);
    ConnectAnnouncementStep(s, n, i, j);
    assert Connections(n) == AfterConnect(s);
  }

  /** After `n` connections every session has been told exactly once about
      every session, itself included: about earlier ones and itself by the
      welcome (string ids), about later ones by their broadcast (numeric
      ids). No session is told about an id that was never handed out. */
  lemma {:induction false} AfterConnections(n: nat)
    ensures forall i: nat, j: nat {:trigger Announced(Connections(n).outbox, i, Decimal(j))} ::
              Announced(Connections(n).outbox, i, Decimal(j)) == if i < n && j < n then 1 else 0
  {
    if n > 0 {
      AfterConnections(n - 1);
      forall i: nat, j: nat
        ensures Announced(Connections(n).outbox, i, Decimal(j)) == if i < n && j < n then 1 else 0
      {
        assert Announced(Connections(n - 1).outbox, i, Decimal(j)) == if i < n - 1 && j < n - 1 then 1 else 0;
        ConnectionAnnouncements(n, i, j);
      }
    }
  }
}

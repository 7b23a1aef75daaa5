/** The relay in server.js: the module-level `players` registry, the
    `playerIdCounter`, and the four socket handlers that change them. A
    session's socket is identified with its player id, so the registry maps
    an id to the last position received from it, and every emit is recorded
    as an envelope appended to an outbox. */
module Server {
  import opened Js
  import opened Protocol

  /** The relay's whole state as a value. */
  datatype Relay = Relay(players: map<nat, Vec3>, counter: nat, outbox: seq<Envelope>)

  /** `const players = {}` and `let playerIdCounter = 0`, before any connection. */
  const Start := Relay(map[], 0, [])

  /** Every registered id was handed out by the counter. */
  ghost predicate Invariant(s: Relay) {
    forall k :: k in s.players ==> k < s.counter
  }

  /** The registry's keys below `n` in ascending order, which is the order
      `Object.keys` lists integer-like keys in. With `n` the counter this is
      every key. */
  function KeysBelow(players: map<nat, Vec3>, n: nat): (keys: seq<nat>)
    ensures forall i :: 0 <= i < |keys| ==> keys[i] in players && keys[i] < n
  {
    if n == 0 then []
    else KeysBelow(players, n - 1) + (if n - 1 in players then [n - 1] else [])
  }

  /** The listing is in strictly ascending order. */
  lemma {:induction false} KeysBelowAscending(players: map<nat, Vec3>, n: nat)
    ensures Ascending(KeysBelow(players, n))
  {
    if n > 0 {
      KeysBelowAscending(players, n - 1);
    }
  }

  /** No registered key below `n` is left out of the listing. */
  lemma {:induction false} KeysBelowComplete(players: map<nat, Vec3>, n: nat, k: nat)
    requires k in players && k < n
    ensures k in KeysBelow(players, n)
  {
    if k < n - 1 {
      KeysBelowComplete(players, n - 1, k);
    }
  }

  /** What the `forEach` of the connection handler sends the new session `id`:
      for each listed key, a 'player-connected' carrying the key as the string
      `Object.keys` yields, unless that string is `!==` the numeric id. */
  function Welcome(players: map<nat, Vec3>, id: nat, keys: seq<nat>): seq<Envelope>
    requires forall i :: 0 <= i < |keys| ==> keys[i] in players
  {
    if keys == [] then []
    else
      var k := keys[|keys| - 1];
      var existing := JsStr(Decimal(k));
      Welcome(players, id, keys[..|keys| - 1])
        + (if existing != JsNum(id) then [Envelope(id, PlayerConnected(existing, players[k]))] else [])
  }

  lemma WelcomeStep(players: map<nat, Vec3>, id: nat, keys: seq<nat>, i: nat)
    requires i < |keys| && forall j :: 0 <= j < |keys| ==> keys[j] in players
    ensures var existing := JsStr(Decimal(keys[i]));
            Welcome(players, id, keys[..i + 1])
              == Welcome(players, id, keys[..i])
                 + (if existing != JsNum(id) then [Envelope(id, PlayerConnected(existing, players[keys[i]]))] else [])
  {
    assert keys[..i + 1][..i] == keys[..i];
  }

  /** `socket.broadcast.emit(ev)` from the session `sender`: one copy to each
      listed session other than the sender. */
  function Broadcast(keys: seq<nat>, sender: nat, ev: ServerEvent): seq<Envelope> {
    if keys == [] then []
    else
      var k := keys[|keys| - 1];
      Broadcast(keys[..|keys| - 1], sender, ev) + (if k != sender then [Envelope(k, ev)] else [])
  }

  /** The 'connection' handler: take the counter as the new id, bump the
      counter, register the id at the origin, welcome the new session with
      every entry, and announce it to everyone else. */
  function AfterConnect(s: Relay): Relay {
    var id := s.counter;
    var players := s.players[id := Origin];
    var keys := KeysBelow(players, id + 1);
    Relay(players, id + 1,
          s.outbox + Welcome(players, id, keys) + Broadcast(keys, id, PlayerConnected(JsNum(id), Origin)))
  }

  /** The 'move' handler of session `sender`. Writing the position of an
      unregistered id throws a TypeError before the broadcast. */
  function AfterMove(s: Relay, sender: nat, position: Vec3): Relay {
    if sender !in s.players then s
    else
      Relay(s.players[sender := position], s.counter,
            s.outbox + Broadcast(KeysBelow(s.players, s.counter), sender, PlayerMoved(JsNum(sender), position)))
  }

  /** The 'disconnect' handler of session `sender`: announce the departure to
      the others, then delete the entry. */
  function AfterDisconnect(s: Relay, sender: nat): Relay {
    Relay(s.players - {sender}, s.counter,
          s.outbox + Broadcast(KeysBelow(s.players, s.counter), sender, PlayerDisconnected(JsNum(sender))))
  }

  /** `players[v]` is truthy: `v` names a registered id. */
  predicate Registered(players: map<nat, Vec3>, v: JsVal) {
    match IndexOf(ToKey(v))
    case Some(k) => k in players
    case None => false
  }

  /** How the 'combat' handler ends. When both ids are registered it
      evaluates `game.isInCombatRange`, and `game` is not declared in the
      server, so it throws before it changes or emits anything. */
  function CombatOutcome(players: map<nat, Vec3>, attackerId: JsVal, targetId: JsVal): Outcome {
    if Registered(players, attackerId) && Registered(players, targetId) then Threw(ReferenceError)
    else Completed
  }

  /** A handler invocation, for reasoning about runs. */
  datatype Event =
    | Connect
    | Move(sender: nat, position: Vec3)
    | Combat(attackerId: JsVal, targetId: JsVal, abilityName: string)
    | Disconnect(sender: nat)

  function Step(s: Relay, e: Event): Relay {
    match e
    case Connect => AfterConnect(s)
    case Move(sender, position) => AfterMove(s, sender, position)
    case Combat(_, _, _) => s
    case Disconnect(sender) => AfterDisconnect(s, sender)
  }

  /** The state after handling `events` in order, starting from `s`. */
  function Run(s: Relay, events: seq<Event>): Relay {
    if events == [] then s else Step(Run(s, events[..|events| - 1]), events[|events| - 1])
  }

  /** The relay process's state, updated in place by the handlers. */
  class SessionRelay {
    var players: map<nat, Vec3>
    var counter: nat
    var outbox: seq<Envelope>

    function State(): Relay
      reads this
    {
      Relay(players, counter, outbox)
    }

    ghost predicate Valid()
      reads this
    {
      Invariant(State())
    }

    constructor ()
      ensures Valid() && State() == Start
    {
      players, counter, outbox := map[], 0, [];
    }

    /** io.on('connection'). */
    method Connect() returns (id: nat)
      requires Valid()
      modifies this
      ensures Valid()
      ensures id == old(counter) && id !in old(players)
      ensures State() == AfterConnect(old(State()))
    {
      id := counter;
      counter := counter + 1;
      players := players[id := Origin];
      var keys := KeysBelow(players, counter);
      SendWelcome(id, keys);
      outbox := outbox + Broadcast(keys, id, PlayerConnected(JsNum(id), Origin));
    }

    /** The `forEach` of the connection handler over the listed keys. */
    method SendWelcome(id: nat, keys: seq<nat>)
      requires forall i :: 0 <= i < |keys| ==> keys[i] in players
      modifies this
      ensures players == old(players) && counter == old(counter)
      ensures outbox == old(outbox) + Welcome(players, id, keys)
    {
      for i := 0 to |keys|
        invariant players == old(players) && counter == old(counter)
        invariant forall j :: 0 <= j < |keys| ==> keys[j] in players
        invariant outbox == old(outbox) + Welcome(players, id, keys[..i])
      {
        WelcomeStep(players, id, keys, i);
        var existing := JsStr(Decimal(keys[i]));
        if existing != JsNum(id) {
          outbox := outbox + [Envelope(id, PlayerConnected(existing, players[keys[i]]))];
        }
      }
      assert keys[..|keys|] == keys;
    }

    /** socket.on('move') of session `sender`. */
    method Move(sender: nat, position: Vec3) returns (outcome: Outcome)
      requires Valid()
      modifies this
      ensures Valid()
      ensures outcome == if sender in old(players) then Completed else Threw(TypeError)
      ensures State() == AfterMove(old(State()), sender, position)
    {
      if sender !in players {
        return Threw(TypeError);
      }
      var others := KeysBelow(players, counter);
      players := players[sender := position];
      outbox := outbox + Broadcast(others, sender, PlayerMoved(JsNum(sender), position));
      outcome := Completed;
    }

    /** socket.on('combat'): it never changes the registry or sends anything;
        it throws exactly when both ids are registered. */
    method Combat(attackerId: JsVal, targetId: JsVal, abilityName: string) returns (outcome: Outcome)
      requires Valid()
      ensures outcome == CombatOutcome(players, attackerId, targetId)
      ensures outcome != Completed <==> (exists a :: a in players && Decimal(a) == ToKey(attackerId))
                                         && (exists t :: t in players && Decimal(t) == ToKey(targetId))
      ensures outcome != Completed ==> outcome == Threw(ReferenceError)
    {
      RegisteredIffSomeKey(players, attackerId);
      RegisteredIffSomeKey(players, targetId);
      if Registered(players, attackerId) && Registered(players, targetId) {
        return Threw(ReferenceError);
      }
      outcome := Completed;
    }

    /** socket.on('disconnect') of session `sender`. */
    method Disconnect(sender: nat)
      requires Valid()
      modifies this
      ensures Valid()
      ensures State() == AfterDisconnect(old(State()), sender)
    {
      outbox := outbox + Broadcast(KeysBelow(players, counter), sender, PlayerDisconnected(JsNum(sender)));
      players := players - {sender};
    }
  }

  /** `players[v]` finds an entry exactly when `v`'s property key is the
      printed form of a registered id. */
  lemma RegisteredIffSomeKey(players: map<nat, Vec3>, v: JsVal)
    ensures Registered(players, v) <==> exists k :: k in players && Decimal(k) == ToKey(v)
  {
    var key := ToKey(v);
    if Registered(players, v) {
      var k := IndexOf(key).value;
      DecimalOfIndex(key, k);
    }
    if k :| k in players && Decimal(k) == key {
      IndexOfDecimal(k);
    }
  }
}

/** The bookkeeping of the browser client in public/client.js: the `Game`
    object's directory of players, keyed the way a plain object keys them,
    the `playerId` field, the cameras, and the socket handlers that change
    them. Rendering is reduced to what the handlers read or write. */
module Client {
  import opened Js
  import opened Protocol
  import opened Players

  /** What a client knows about the players: every directory entry's state,
      and its own id as far as it has been told. */
  datatype Directory = Directory(view: map<string, PlayerState>, playerId: JsVal)

  /** The directory of a newly constructed game: the local player is stored
      under the key `null` becomes, since `playerId` is still null then. */
  const Initial := Directory(map["null" := Fresh], JsNull)

  /** The effect of one server event on the directory. */
  function Deliver(d: Directory, e: ServerEvent): Directory {
    match e
    case PlayerConnected(id, position) =>
      d.(view := d.view[ToKey(id) := Fresh.(position := position)])
    case PlayerIdAssigned(id) =>
      d.(playerId := id)
    case PlayerDisconnected(id) =>
      d.(view := d.view - {ToKey(id)})
    case PlayerMoved(id, position) =>
      var key := ToKey(id);
      if id != d.playerId && key in d.view then d.(view := d.view[key := d.view[key].(position := position)])
      else d
    case CombatHit(attackerId, targetId, damage) =>
      var key := ToKey(targetId);
      if ToKey(attackerId) in d.view && key in d.view then d.(view := d.view[key := Damaged(d.view[key], damage)])
      else d
  }

  /** The directory after `events` in order. */
  function DeliverAll(d: Directory, events: seq<ServerEvent>): Directory {
    if events == [] then d else Deliver(DeliverAll(d, events[..|events| - 1]), events[|events| - 1])
  }

  /** Every entry is consistent: at or below zero health means defeated. */
  ghost predicate AllConsistent(d: Directory) {
    forall key :: key in d.view ==> Consistent(d.view[key])
  }

  /** No sequence of events produces an entry at or below zero health that
      is not marked defeated. */
  lemma {:induction false} DeliveryKeepsConsistency(d: Directory, events: seq<ServerEvent>)
    requires AllConsistent(d)
    ensures AllConsistent(DeliverAll(d, events))
  {
    if events != [] {
      DeliveryKeepsConsistency(d, events[..|events| - 1]);
    }
  }

  /** Events that name printed integer ids never touch the entry stored
      under "null", where the local player sits, nor the `playerId` field. */
  lemma {:induction false} PrintedIdsSpareLocalEntry(d: Directory, events: seq<ServerEvent>)
    requires forall i :: 0 <= i < |events| ==> NamesPrintedId(events[i])
    ensures var r := DeliverAll(d, events);
            && r.playerId == d.playerId
            && ("null" in r.view <==> "null" in d.view)
            && ("null" in d.view ==> r.view["null"] == d.view["null"])
  {
    if events != [] {
      var n := |events| - 1;
      PrintedIdsSpareLocalEntry(d, events[..n]);
      assert ToKey(events[n].playerId) != "null" by {
        assert IsCanonicalIndex(ToKey(events[n].playerId));
      }
    }
  }

  /** The state of every player object in a directory of objects. */
  function Views(m: map<string, Player>): map<string, PlayerState>
    reads m.Values
  {
    map k | k in m :: m[k].State()
  }

  /** Different keys hold different objects. */
  predicate Injective(m: map<string, Player>) {
    forall a, b :: a in m && b in m && a != b ==> m[a] != m[b]
  }

  /** Every object in the directory is a valid player. */
  ghost predicate AllValid(m: map<string, Player>)
    reads m.Values
  {
    forall k :: k in m ==> m[k].Valid()
  }

  /** `new THREE.PerspectiveCamera(…)`: only its identity matters here. */
  class Camera {
    constructor () {
    }
  }

  /** The `Game` object. */
  class Game {
    var players: map<string, Player>
    var playerId: JsVal
    var cameras: map<string, Camera>
    var activeCamera: Camera?
    var player: Player
    var outbox: seq<CombatRequest>

    function Dir(): Directory
      reads this, players.Values
    {
      Directory(Views(players), playerId)
    }

    /** Different keys hold different player objects, and each is valid. */
    ghost predicate Valid()
      reads this, players.Values
    {
      Injective(players) && AllValid(players)
    }

    /** The constructor up to the socket listeners, then `initCameras`: the
        local player goes in the directory under `playerId`, which is null,
        and the local camera is created and made active. */
    constructor ()
      ensures Valid()
      ensures Dir() == Initial
      ensures players == map["null" := player] && fresh(player)
      ensures cameras.Keys == {"localPlayerCamera"} && activeCamera == cameras["localPlayerCamera"]
      ensures outbox == []
    {
      var id := JsNull;
      var local := new Player();
      cameras := map[];
      playerId := id;
      activeCamera := null;
      outbox := [];
      player := local;
      players := map[ToKey(id) := local];
      new;
      CreateCamera("localPlayerCamera");
      SetActiveCamera("localPlayerCamera");
    }

    /** socket.on('player-connected'): a new player object at the given
        position goes under the id's key, replacing any entry there. */
    method OnPlayerConnected(id: JsVal, position: Vec3)
      requires Valid()
      modifies this
      ensures Valid()
      ensures Dir() == Deliver(old(Dir()), PlayerConnected(id, position))
      ensures ToKey(id) in players && players == old(players)[ToKey(id) := players[ToKey(id)]] && fresh(players[ToKey(id)])
      ensures cameras == old(cameras) && activeCamera == old(activeCamera) && player == old(player) && outbox == old(outbox)
    {
      var p := new Player();
      p.SetPosition(position);
      Store(ToKey(id), p);
    }

    /** `this.players[key] = p` for an object not yet in the directory. */
    method Store(key: string, p: Player)
      requires Valid() && p.Valid() && p !in players.Values
      modifies this
      ensures Valid()
      ensures Dir() == old(Dir()).(view := old(Dir()).view[key := p.State()])
      ensures players == old(players)[key := p]
      ensures playerId == old(playerId) && cameras == old(cameras) && activeCamera == old(activeCamera)
      ensures player == old(player) && outbox == old(outbox)
    {
      assert Views(players[key := p]) == Views(players)[key := p.State()];
      players := players[key := p];
    }

    /** socket.on('player-id'). */
    method OnPlayerId(id: JsVal)
      requires Valid()
      modifies this
      ensures Valid()
      ensures Dir() == Deliver(old(Dir()), PlayerIdAssigned(id))
      ensures playerId == id && players == old(players)
      ensures cameras == old(cameras) && activeCamera == old(activeCamera) && player == old(player) && outbox == old(outbox)
    {
      playerId := id;
    }

    /** socket.on('player-disconnected'): the entry goes if there is one. */
    method OnPlayerDisconnected(id: JsVal)
      requires Valid()
      modifies this
      ensures Valid()
      ensures Dir() == Deliver(old(Dir()), PlayerDisconnected(id))
      ensures players == old(players) - {ToKey(id)}
      ensures cameras == old(cameras) && activeCamera == old(activeCamera) && player == old(player) && outbox == old(outbox)
    {
      var key := ToKey(id);
      if key in players {
        assert Views(players - {key}) == Views(players) - {key};
        players := players - {key};
      }
    }

    /** socket.on('move'): ignored when the id is `===` the client's own
        `playerId` or names no entry; otherwise that entry's position is set. */
    method OnMove(id: JsVal, position: Vec3)
      requires Valid()
      modifies players.Values
      ensures Valid()
      ensures Dir() == Deliver(old(Dir()), PlayerMoved(id, position))
    {
      if id != playerId {
        var key := ToKey(id);
        if key in players {
          var p := players[key];
          p.SetPosition(position);
          assert Dir().view == old(Dir()).view[key := old(Dir()).view[key].(position := position)];
        }
      }
    }

    /** socket.on('combat'): the target takes the damage when both the
        attacker's and the target's entries exist. */
    method OnCombat(attackerId: JsVal, targetId: JsVal, damage: int)
      requires Valid()
      modifies players.Values
      ensures Valid()
      ensures Dir() == Deliver(old(Dir()), CombatHit(attackerId, targetId, damage))
    {
      var key := ToKey(targetId);
      if ToKey(attackerId) in players && key in players {
        var target := players[key];
        target.TakeDamage(damage);
        var defeated := target.IsDefeated();
        assert Dir().view == old(Dir()).view[key := Damaged(old(Dir()).view[key], damage)];
      }
    }

    /** `createCamera(name)`. */
    method CreateCamera(name: string)
      modifies this
      ensures name in cameras && cameras == old(cameras)[name := cameras[name]] && fresh(cameras[name])
      ensures players == old(players) && playerId == old(playerId) && activeCamera == old(activeCamera)
      ensures player == old(player) && outbox == old(outbox)
    {
      var camera := new Camera();
      cameras := cameras[name := camera];
    }

    /** `setActiveCamera(name)`: only a camera that exists becomes active. */
    method SetActiveCamera(name: string)
      modifies this
      ensures activeCamera == if name in cameras then cameras[name] else old(activeCamera)
      ensures players == old(players) && playerId == old(playerId) && cameras == old(cameras)
      ensures player == old(player) && outbox == old(outbox)
    {
      if name in cameras {
        activeCamera := cameras[name];
      }
    }

    /** `isInCombatRange`: a placeholder that accepts every pair. */
    function IsInCombatRange(attackerId: JsVal, targetId: JsVal): (r: bool)
      ensures r
    {
      true
    }

    /** `handleCombat`: the 'combat' request always goes out. */
    method HandleCombat(attackerId: JsVal, targetId: JsVal, abilityName: string)
      modifies this
      ensures outbox == old(outbox) + [CombatRequest(attackerId, targetId, abilityName)]
      ensures players == old(players) && playerId == old(playerId) && cameras == old(cameras)
      ensures activeCamera == old(activeCamera) && player == old(player)
    {
      if IsInCombatRange(attackerId, targetId) {
        outbox := outbox + [CombatRequest(attackerId, targetId, abilityName)];
      }
    }
  }
}

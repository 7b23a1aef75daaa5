/** A player in public/player.js: health, the `defeated` flag, the ability
    table and the per-ability cooldown expiries, compared against a clock
    reading `now` that the caller supplies in place of `Date.now()`. */
module Players {
  import opened Js
  import opened Protocol

  /** An entry of the ability table: the damage dealt and the cooldown in
      milliseconds. */
  datatype Ability = Ability(damage: int, cooldown: int)

  /** The health a player starts with. */
  const InitialHealth: int := 100

  /** `this.abilities`, the same for every player. */
  const Abilities: map<string, Ability> :=
    map["basicAttack" := Ability(20, 1000), "specialAbility" := Ability(50, 5000)]

  /** The part of a player the game logic reads and writes. */
  datatype PlayerState = PlayerState(health: int, defeated: bool, cooldowns: map<string, int>, position: Vec3)

  /** A newly constructed player. */
  const Fresh := PlayerState(InitialHealth, false, map[], Origin)

  /** `abilityCooldowns[name] > now`: an expiry is stored and lies ahead.
      A missing expiry reads as `undefined`, which is not greater than any number. */
  predicate OnCooldown(cooldowns: map<string, int>, name: string, now: int) {
    name in cooldowns && cooldowns[name] > now
  }

  /** `takeDamage(damage)`: health goes down by the damage, and the player is
      marked defeated once health is at or below zero. Nothing clears the flag. */
  function Damaged(p: PlayerState, damage: int): PlayerState {
    var health := p.health - damage;
    p.(health := health, defeated := p.defeated || health <= 0)
  }

  /** `setAbilityCooldown(name, duration)` at time `now`. */
  function CooledDown(p: PlayerState, name: string, duration: int, now: int): PlayerState {
    p.(cooldowns := p.cooldowns[name := now + duration])
  }

  /** `useAbility` acts: the ability is off cooldown and is in the table. */
  predicate Fires(cooldowns: map<string, int>, name: string, now: int) {
    !OnCooldown(cooldowns, name, now) && name in Abilities
  }

  /** How `useAbility` ends: off cooldown, an unknown name leaves `ability`
      undefined and reading its `damage` throws. On cooldown nothing is read. */
  function UseOutcome(cooldowns: map<string, int>, name: string, now: int): (r: Outcome)
    ensures r == Completed <==> OnCooldown(cooldowns, name, now) || name in Abilities
    ensures r != Completed ==> r == Threw(TypeError)
  {
    if !OnCooldown(cooldowns, name, now) && name !in Abilities then Threw(TypeError) else Completed
  }

  /** A player whose health is at or below zero is marked defeated. */
  ghost predicate Consistent(p: PlayerState) {
    p.health <= 0 ==> p.defeated
  }

  // ---------------------------------------------------------------------
  // Histories of one player

  /** Every way a player's state changes: `useAbility` is `TakeDamage` on its
      target followed by `SetAbilityCooldown` on its user. */
  datatype PlayerOp =
    | TakeDamage(damage: int)
    | SetAbilityCooldown(name: string, duration: int, now: int)
    | SetPosition(position: Vec3)

  function Apply(p: PlayerState, op: PlayerOp): PlayerState {
    match op
    case TakeDamage(damage) => Damaged(p, damage)
    case SetAbilityCooldown(name, duration, now) => CooledDown(p, name, duration, now)
    case SetPosition(position) => p.(position := position)
  }

  /** The state after `ops` in order. */
  function ApplyAll(p: PlayerState, ops: seq<PlayerOp>): PlayerState {
    if ops == [] then p else Apply(ApplyAll(p, ops[..|ops| - 1]), ops[|ops| - 1])
  }

  /** The damage taken over `ops`. */
  function TotalDamage(ops: seq<PlayerOp>): int {
    if ops == [] then 0
    else TotalDamage(ops[..|ops| - 1]) + (if ops[|ops| - 1].TakeDamage? then ops[|ops| - 1].damage else 0)
  }

  /** Health is the starting health less every hit taken. */
  lemma {:induction false} HealthAccounting(p: PlayerState, ops: seq<PlayerOp>)
    ensures ApplyAll(p, ops).health == p.health - TotalDamage(ops)
  {
    if ops != [] {
      HealthAccounting(p, ops[..|ops| - 1]);
    }
  }

  /** Once defeated, always defeated. */
  lemma {:induction false} DefeatIsPermanent(p: PlayerState, ops: seq<PlayerOp>)
    requires p.defeated
    ensures ApplyAll(p, ops).defeated
  {
    if ops != [] {
      DefeatIsPermanent(p, ops[..|ops| - 1]);
    }
  }

  /** No history leaves a player at or below zero health without the flag. */
  lemma {:induction false} ConsistencyPreserved(p: PlayerState, ops: seq<PlayerOp>)
    requires Consistent(p)
    ensures Consistent(ApplyAll(p, ops))
  {
    if ops != [] {
      ConsistencyPreserved(p, ops[..|ops| - 1]);
    }
  }

  /** Operation `i` of `ops` is a hit that leaves health at or below zero. */
  predicate FatalAt(p: PlayerState, ops: seq<PlayerOp>, i: nat)
    requires i < |ops|
  {
    ops[i].TakeDamage? && ApplyAll(p, ops[..i + 1]).health <= 0
  }

  /** A player is defeated exactly when it started defeated or some hit left
      its health at or below zero. */
  lemma {:induction false} DefeatedIffSomeHitWasFatal(p: PlayerState, ops: seq<PlayerOp>)
    ensures ApplyAll(p, ops).defeated <==> p.defeated || exists i :: 0 <= i < |ops| && FatalAt(p, ops, i)
  {
    if ops != [] {
      var n := |ops| - 1;
      var init := ops[..n];
      DefeatedIffSomeHitWasFatal(p, init);
      forall i | 0 <= i < n
        ensures FatalAt(p, ops, i) == FatalAt(p, init, i)
      {
        assert ops[..i + 1] == init[..i + 1];
      }
      assert ops[..n + 1] == ops;
      assert FatalAt(p, ops, n) <==> ops[n].TakeDamage? && ApplyAll(p, ops).health <= 0;
      assert ApplyAll(p, ops).defeated <==> ApplyAll(p, init).defeated || FatalAt(p, ops, n);
    }
  }

  // ---------------------------------------------------------------------
  // Rate limiting

  /** A call `useAbility(name, …)` made when the clock reads `now`. */
  datatype Attempt = Attempt(name: string, now: int)

  /** The user's cooldown expiries after a series of attempts. Only its own
      `useAbility` calls change them. */
  function CooldownsAfter(cooldowns: map<string, int>, attempts: seq<Attempt>): map<string, int> {
    if attempts == [] then cooldowns
    else
      var prev := CooldownsAfter(cooldowns, attempts[..|attempts| - 1]);
      var a := attempts[|attempts| - 1];
      if Fires(prev, a.name, a.now) then prev[a.name := a.now + Abilities[a.name].cooldown] else prev
  }

  /** Whether attempt `i` acts. */
  predicate FiredAt(cooldowns: map<string, int>, attempts: seq<Attempt>, i: nat)
    requires i < |attempts|
  {
    Fires(CooldownsAfter(cooldowns, attempts[..i]), attempts[i].name, attempts[i].now)
  }

  /** The clock does not run backwards. */
  predicate Chronological(attempts: seq<Attempt>) {
    forall i, j :: 0 <= i < j < |attempts| ==> attempts[i].now <= attempts[j].now
  }

  /** After an ability fires at time t, its stored expiry stays at least
      t plus its cooldown. */
  lemma {:induction false} ExpiryStays(cooldowns: map<string, int>, attempts: seq<Attempt>, i: nat, k: nat)
    requires i < k <= |attempts| && Chronological(attempts) && FiredAt(cooldowns, attempts, i)
    ensures var a := attempts[i];
            var after := CooldownsAfter(cooldowns, attempts[..k]);
            a.name in after && after[a.name] >= a.now + Abilities[a.name].cooldown
  {
    var a := attempts[i];
    if k == i + 1 {
      assert attempts[..k][..i] == attempts[..i];
    } else {
      ExpiryStays(cooldowns, attempts, i, k - 1);
      assert attempts[..k][..k - 1] == attempts[..k - 1];
      assert attempts[k - 1].now >= a.now;
    }
  }

  /** Two firings of the same ability are at least its cooldown apart. */
  lemma RateLimited(cooldowns: map<string, int>, attempts: seq<Attempt>, i: nat, j: nat)
    requires i < j < |attempts| && Chronological(attempts)
    requires attempts[i].name == attempts[j].name
    requires FiredAt(cooldowns, attempts, i) && FiredAt(cooldowns, attempts, j)
    ensures attempts[j].now >= attempts[i].now + Abilities[attempts[i].name].cooldown
  {
    ExpiryStays(cooldowns, attempts, i, j);
  }

  // ---------------------------------------------------------------------
  // The class

  /** A `Player` object. Its mesh is reduced to the position. */
  class Player {
    var health: int
    var defeated: bool
    var abilityCooldowns: map<string, int>
    var position: Vec3

    function State(): PlayerState
      reads this
    {
      PlayerState(health, defeated, abilityCooldowns, position)
    }

    ghost predicate Valid()
      reads this
    {
      Consistent(State())
    }

    /** `new Player(color)`: the colour only paints the mesh. */
    constructor ()
      ensures Valid() && State() == Fresh
    {
      health, defeated, abilityCooldowns, position := InitialHealth, false, map[], Origin;
    }

    /** `isDefeated()`: a player not reported defeated has health left. */
    function IsDefeated(): (r: bool)
      requires Valid()
      reads this
      ensures !r ==> health > 0
    {
      defeated
    }

    /** `isAbilityOnCooldown(name)` when the clock reads `now`. */
    function IsAbilityOnCooldown(name: string, now: int): (r: bool)
      reads this
      ensures r <==> name in abilityCooldowns && now < abilityCooldowns[name]
      ensures name !in abilityCooldowns ==> !r
    {
      OnCooldown(abilityCooldowns, name, now)
    }

    method TakeDamage(damage: int)
      requires Valid()
      modifies this
      ensures Valid()
      ensures health == old(health) - damage
      ensures defeated <==> old(defeated) || health <= 0
      ensures State() == Damaged(old(State()), damage)
    {
      health := health - damage;
      if health <= 0 {
        defeated := true;
      }
    }

    /** `setAbilityCooldown(name, duration)` when the clock reads `now`: the
        ability is on cooldown exactly until `now + duration`. */
    method SetAbilityCooldown(name: string, duration: int, now: int)
      requires Valid()
      modifies this
      ensures Valid()
      ensures forall t :: IsAbilityOnCooldown(name, t) <==> t < now + duration
      ensures State() == CooledDown(old(State()), name, duration, now)
    {
      abilityCooldowns := abilityCooldowns[name := now + duration];
    }

    /** `setPosition(position)`. */
    method SetPosition(p: Vec3)
      requires Valid()
      modifies this
      ensures Valid()
      ensures State() == old(State()).(position := p)
    {
      position := p;
    }

    /** `useAbility(name, target)` when the clock reads `now`. The target may
        be the user itself. */
    method UseAbility(name: string, target: Player, now: int) returns (outcome: Outcome)
      requires Valid() && target.Valid()
      modifies this, target
      ensures Valid() && target.Valid()
      ensures outcome == UseOutcome(old(abilityCooldowns), name, now)
      ensures !Fires(old(abilityCooldowns), name, now) ==> State() == old(State()) && target.State() == old(target.State())
      ensures Fires(old(abilityCooldowns), name, now) && target != this ==>
                target.State() == Damaged(old(target.State()), Abilities[name].damage)
                && State() == CooledDown(old(State()), name, Abilities[name].cooldown, now)
      ensures Fires(old(abilityCooldowns), name, now) && target == this ==>
                State() == CooledDown(Damaged(old(State()), Abilities[name].damage), name, Abilities[name].cooldown, now)
    {
      if IsAbilityOnCooldown(name, now) {
        return Completed;
      }
      if name !in Abilities {
        return Threw(TypeError);
      }
      var ability := Abilities[name];
      target.TakeDamage(ability.damage);
      SetAbilityCooldown(name, ability.cooldown, now);
      outcome := Completed;
    }
  }
}

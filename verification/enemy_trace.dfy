/** EnemyCharacter as a value: one snapshot of every field the enemy's methods
    touch, one step function per operation, and runs of operations. The class
    in module EnemyCharacters is proved to move its snapshot exactly as these
    functions do, so every lemma here is a fact about that class. */
module EnemyTrace {
  import opened EnemyRules

  /** Everything the enemy's operations read or write. `handEnabled` and
      `handDamage` belong to the attacking hand; `controllerEnabled` and
      `animatorAlive` stand for the character controller's enabled flag and
      the animator's "alive" parameter; `pendingWaits` counts death-wait
      coroutines still waiting; `events` records calls into collaborators. */
  datatype Enemy = Enemy(
    maxHealth: real,
    health: real,
    state: StateTag,
    handEnabled: bool,
    handDamage: DamageRange,
    controllerEnabled: bool,
    animatorAlive: bool,
    position: Vector3,
    rotation: Quaternion,
    pendingWaits: nat,
    events: seq<HostEvent>)

  /** One per-tick update. `process` is the behaviour state's own transition,
      `(clip, t)` what the animator reports after it, `dt` the frame time.
      The boolean is what the update returns. */
  function Update(e: Enemy, process: StateTag -> StateTag, clip: string, t: real, dt: real): (r: (Enemy, bool))
    ensures r.1 == Living(r.0.health)
    ensures r.0.controllerEnabled == e.controllerEnabled && r.0.animatorAlive == e.animatorAlive
    ensures r.0.pendingWaits == e.pendingWaits && r.0.events == e.events
    ensures r.0.health >= e.health || dt < 0.0 || e.maxHealth < 0.0
  {
    if !Living(e.health) then (e, false)
    else
      var s := process(e.state);
      var health := if s == Walking then e.health + Regen(dt, e.maxHealth) else e.health;
      var e' := e.(state := s, handEnabled := HandGate(s, clip, t), health := health);
      (e', Living(e'.health))
  }

  /** Damage of `amount`; a blow that leaves the enemy not alive disables
      locomotion, clears the animator flag and starts one more death wait,
      whether or not one is already pending. */
  function Hit(e: Enemy, amount: real): (e': Enemy)
    ensures e'.health == e.health - amount
    ensures |e'.events| == |e.events| + (if Living(e'.health) then 0 else 1)
    ensures e'.pendingWaits == e.pendingWaits + (if Living(e'.health) then 0 else 1)
  {
    var e1 := e.(health := e.health - amount);
    if Living(e1.health) then e1
    else e1.(controllerEnabled := false, animatorAlive := false,
             pendingWaits := e1.pendingWaits + 1, events := e1.events + [WaitStarted])
  }

  /** One poll of one pending death wait, with the animator reporting
      `(clip, t)`. Returns whether the wait resumed (dropped loot and pushed
      the enemy to the pool). */
  function Poll(e: Enemy, clip: string, t: real): (r: (Enemy, bool))
    ensures r.1 <==> e.pendingWaits > 0 && clip == DeathClip && t >= DeathDone
    ensures !r.1 ==> r.0 == e
    ensures r.1 ==> r.0.events == e.events + [ItemsDropped, PushedToPool]
    ensures r.1 ==> r.0.pendingWaits + 1 == e.pendingWaits
  {
    if e.pendingWaits > 0 && !IsDeath(clip, t) then
      (e.(pendingWaits := e.pendingWaits - 1, events := e.events + [ItemsDropped, PushedToPool]), true)
    else (e, false)
  }

  /** Reuse of the instance at `(p, r)`. */
  function Spawn(e: Enemy, p: Vector3, r: Quaternion): (e': Enemy)
    ensures e'.health == e.maxHealth && Living(e'.health) == (e.maxHealth > 0.0)
    ensures e'.controllerEnabled && e'.position == p && e'.rotation == r && e'.state == Walking
    ensures e'.handEnabled == e.handEnabled && e'.animatorAlive == e.animatorAlive
    ensures e'.pendingWaits == e.pendingWaits && e'.events == e.events
  {
    e.(health := e.maxHealth, controllerEnabled := true, position := p, rotation := r, state := Walking)
  }

  /** The operations a driver, the coroutine scheduler and the pool may apply
      to one enemy, in any order. */
  datatype Op =
    | Tick(process: StateTag -> StateTag, clip: string, t: real, dt: real)
    | Damage(amount: real)
    | PollWait(clip: string, t: real)
    | Respawn(p: Vector3, r: Quaternion)

  function Step(e: Enemy, op: Op): Enemy
  {
    match op
    case Tick(process, clip, t, dt) => Update(e, process, clip, t, dt).0
    case Damage(amount) => Hit(e, amount)
    case PollWait(clip, t) => Poll(e, clip, t).0
    case Respawn(p, r) => Spawn(e, p, r)
  }

  function Run(e: Enemy, ops: seq<Op>): Enemy
    decreases |ops|
  {
    if ops == [] then e else Run(Step(e, ops[0]), ops[1..])
  }

  /** Every loot drop is immediately followed by a push to the pool, and every
      push immediately preceded by a loot drop. */
  ghost predicate DropThenPush(ev: seq<HostEvent>)
  {
    forall i :: 0 <= i < |ev| ==> PairedAt(ev, i)
  }

  /** Entry `i` of `ev` is not a drop without its push, nor a push without
      its drop. */
  ghost predicate PairedAt(ev: seq<HostEvent>, i: nat)
    requires i < |ev|
  {
    && (ev[i] == ItemsDropped ==> i + 1 < |ev| && ev[i + 1] == PushedToPool)
    && (ev[i] == PushedToPool ==> 0 < i && ev[i - 1] == ItemsDropped)
  }

  /** The bookkeeping of the death waits: drops and pushes come in pairs, and
      every wait ever started is either still pending or has pushed the
      enemy exactly once. */
  ghost predicate WaitsAccounted(e: Enemy)
  {
    && DropThenPush(e.events)
    && e.pendingWaits + multiset(e.events)[PushedToPool] == multiset(e.events)[WaitStarted]
  }

  lemma DropThenPushExtends(ev: seq<HostEvent>, tail: seq<HostEvent>)
    requires DropThenPush(ev)
    requires tail == [WaitStarted] || tail == [ItemsDropped, PushedToPool]
    ensures DropThenPush(ev + tail)
  {
    var ev' := ev + tail;
    forall i | 0 <= i < |ev'|
      ensures PairedAt(ev', i)
    {
      if i < |ev| {
        assert PairedAt(ev, i);
        assert ev'[i] == ev[i];
        if ev[i] == PushedToPool { assert ev'[i - 1] == ev[i - 1]; }
        if ev[i] == ItemsDropped && i + 1 < |ev| { assert ev'[i + 1] == ev[i + 1]; }
      }
    }
  }

  /** Every operation keeps the death-wait bookkeeping. */
  lemma StepKeepsWaitsAccounted(e: Enemy, op: Op)
    requires WaitsAccounted(e)
    ensures WaitsAccounted(Step(e, op))
  {
    match op
    case Damage(amount) =>
      if !Living(e.health - amount) { DropThenPushExtends(e.events, [WaitStarted]); }
    case PollWait(clip, t) =>
      if Poll(e, clip, t).1 { DropThenPushExtends(e.events, [ItemsDropped, PushedToPool]); }
    case Tick(_, _, _, _) =>
    case Respawn(_, _) =>
  }

  /** The bookkeeping holds after any run of operations; in particular the
      enemy is never pushed to the pool more often than a death wait was
      started, and never without dropping its loot just before. */
  lemma {:induction false} RunKeepsWaitsAccounted(e: Enemy, ops: seq<Op>)
    requires WaitsAccounted(e)
    ensures WaitsAccounted(Run(e, ops))
    ensures multiset(Run(e, ops).events)[PushedToPool] <= multiset(Run(e, ops).events)[WaitStarted]
    decreases |ops|
  {
    if ops != [] {
      StepKeepsWaitsAccounted(e, ops[0]);
      RunKeepsWaitsAccounted(Step(e, ops[0]), ops[1..]);
    }
  }

  /** Total damage of the `Damage` operations of a run. */
  function TotalDamage(ops: seq<Op>): real
    decreases |ops|
  {
    if ops == [] then 0.0
    else (if ops[0].Damage? then ops[0].amount else 0.0) + TotalDamage(ops[1..])
  }

  /** Total frame time of the `Tick` operations of a run. */
  function TotalTime(ops: seq<Op>): real
    decreases |ops|
  {
    if ops == [] then 0.0
    else (if ops[0].Tick? then ops[0].dt else 0.0) + TotalTime(ops[1..])
  }

  /** A run of hits lowers health by exactly the total damage: nothing is
      clamped between blows. */
  lemma {:induction false} HitsSubtractTotal(e: Enemy, ops: seq<Op>)
    requires forall i :: 0 <= i < |ops| ==> ops[i].Damage?
    ensures Run(e, ops).health == e.health - TotalDamage(ops)
    decreases |ops|
  {
    if ops != [] {
      HitsSubtractTotal(Step(e, ops[0]), ops[1..]);
    }
  }

  /** From a freshly spawned enemy, after any run of hits the enemy is alive
      exactly when the total damage is below its maximum health. */
  lemma AliveIffDamageBelowMax(e: Enemy, p: Vector3, r: Quaternion, ops: seq<Op>)
    requires forall i :: 0 <= i < |ops| ==> ops[i].Damage?
    ensures Living(Run(Spawn(e, p, r), ops).health) <==> TotalDamage(ops) < e.maxHealth
  {
    HitsSubtractTotal(Spawn(e, p, r), ops);
  }

  /** Every blow that lands on an enemy already dead starts one more death
      wait (there is no guard against it). */
  lemma {:induction false} CorpseHitsStartWaits(e: Enemy, ops: seq<Op>)
    requires !Living(e.health)
    requires forall i :: 0 <= i < |ops| ==> ops[i].Damage? && ops[i].amount >= 0.0
    ensures !Living(Run(e, ops).health)
    ensures Run(e, ops).pendingWaits == e.pendingWaits + |ops|
    decreases |ops|
  {
    if ops != [] {
      CorpseHitsStartWaits(Step(e, ops[0]), ops[1..]);
    }
  }

  /** A second blow on a corpse and two completed polls release the enemy to
      the pool twice for a single death. */
  lemma CorpseHitReleasesTwice(e: Enemy)
    requires Living(e.health) && e.pendingWaits == 0
    ensures var ops := [Damage(e.health), Damage(0.0), PollWait(DeathClip, 1.0), PollWait(DeathClip, 1.0)];
            multiset(Run(e, ops).events)[PushedToPool] == multiset(e.events)[PushedToPool] + 2
  {
    var e1 := Hit(e, e.health);
    var e2 := Hit(e1, 0.0);
    assert e2.pendingWaits == 2;
    var e3 := Poll(e2, DeathClip, 1.0).0;
    var e4 := Poll(e3, DeathClip, 1.0).0;
    assert e4.events == e.events + [WaitStarted, WaitStarted, ItemsDropped, PushedToPool, ItemsDropped, PushedToPool];
    var ops := [Damage(e.health), Damage(0.0), PollWait(DeathClip, 1.0), PollWait(DeathClip, 1.0)];
    assert Run(e, ops) == Run(e1, ops[1..]);
    assert Run(e1, ops[1..]) == Run(e2, ops[2..]);
    assert Run(e2, ops[2..]) == Run(e3, ops[3..]);
    assert Run(e3, ops[3..]) == e4;
  }

  /** Polls that never see the death clip at 0.9f change nothing at all. */
  lemma {:induction false} PollsBeforeDeathEndChangeNothing(e: Enemy, ops: seq<Op>)
    requires forall i :: 0 <= i < |ops| ==> ops[i].PollWait? && IsDeath(ops[i].clip, ops[i].t)
    ensures Run(e, ops) == e
    decreases |ops|
  {
    if ops != [] {
      PollsBeforeDeathEndChangeNothing(Step(e, ops[0]), ops[1..]);
    }
  }

  /** Ticks on a dead enemy change nothing. */
  lemma {:induction false} TicksOnCorpseChangeNothing(e: Enemy, ops: seq<Op>)
    requires !Living(e.health)
    requires forall i :: 0 <= i < |ops| ==> ops[i].Tick?
    ensures Run(e, ops) == e
    decreases |ops|
  {
    if ops != [] {
      TicksOnCorpseChangeNothing(Step(e, ops[0]), ops[1..]);
    }
  }

  /** Regeneration over two stretches of time adds up. */
  lemma RegenAdds(a: real, b: real, m: real)
    ensures Regen(a, m) + Regen(b, m) == Regen(a + b, m)
  {
    assert (a + b) * m == a * m + b * m;
  }

  /** A patrolling enemy that stays in `Walking` regains exactly
      `TotalTime * maxHealth / 20` health, with no cap at its maximum, and
      keeps its hand disabled. */
  lemma {:induction false} WalkingRegenerates(e: Enemy, ops: seq<Op>)
    requires Living(e.health) && e.state == Walking && 0.0 <= e.maxHealth
    requires forall i :: 0 <= i < |ops| ==>
      ops[i].Tick? && ops[i].process(Walking) == Walking && 0.0 <= ops[i].dt
    ensures Run(e, ops).health == e.health + Regen(TotalTime(ops), e.maxHealth)
    ensures Living(Run(e, ops).health) && Run(e, ops).state == Walking
    ensures ops != [] ==> !Run(e, ops).handEnabled
    decreases |ops|
  {
    if ops == [] {
      assert Regen(0.0, e.maxHealth) == 0.0;
    } else {
      var dt, rest := ops[0].dt, TotalTime(ops[1..]);
      var e1 := Step(e, ops[0]);
      assert e1.health == e.health + Regen(dt, e.maxHealth);
      WalkingRegenerates(e1, ops[1..]);
      RegenAdds(dt, rest, e.maxHealth);
      assert TotalTime(ops) == dt + rest;
      if ops[1..] == [] {
        assert !e1.handEnabled;
      }
    }
  }

  /** With positive frame time, regeneration from full health goes past the
      maximum: the code does not cap it. */
  lemma RegenPassesMax(e: Enemy, process: StateTag -> StateTag, clip: string, t: real, dt: real)
    requires e.health == e.maxHealth > 0.0 && process(e.state) == Walking && dt > 0.0
    ensures Update(e, process, clip, t, dt).0.health > e.maxHealth
  {
    assert dt * e.maxHealth > 0.0;
  }

  /** Whatever came before, a respawn restores full health, locomotion, the
      spawn pose and the patrol state, but neither the animator's "alive"
      flag nor the pending death waits. */
  lemma {:induction false} RespawnAfterAnyRun(e: Enemy, ops: seq<Op>, p: Vector3, r: Quaternion)
    ensures var e' := Spawn(Run(e, ops), p, r);
            e'.health == e.maxHealth && e'.controllerEnabled && e'.state == Walking
            && e'.position == p && e'.rotation == r
    decreases |ops|
  {
    if ops != [] {
      RespawnAfterAnyRun(Step(e, ops[0]), ops[1..], p, r);
    }
  }

  /** A death never re-arms the animator: after a fatal blow and a respawn
      the "alive" flag is still cleared. */
  lemma SpawnLeavesAnimatorDead(e: Enemy, amount: real, p: Vector3, r: Quaternion)
    requires !Living(e.health - amount)
    ensures !Spawn(Hit(e, amount), p, r).animatorAlive
    ensures Spawn(Hit(e, amount), p, r).pendingWaits == e.pendingWaits + 1
  {
  }
}

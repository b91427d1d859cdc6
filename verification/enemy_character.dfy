/** The enemy character and its attacking hand as objects whose fields the
    operations update in place. Host queries (animator clip and normalized
    time, frame time, random index) are parameters; the behaviour state's own
    transition is the parameter `process`. `Spawn`, `EnemyUpdate`, `Hit` and
    `AwaitAnimation` are proved to move `Snapshot()` exactly as the matching
    function of EnemyTrace does, and every mutating method keeps the
    death-wait bookkeeping `Valid()`. */
module EnemyCharacters {
  import opened EnemyRules
  import opened EnemyTrace

  /** The attacking hand: its damage range and its enabled flag. */
  class Punch {
    var enabled: bool
    var damage: DamageRange

    constructor (damage: DamageRange)
      ensures this.damage == damage && !enabled
    {
      this.damage := damage;
      enabled := false;
    }
  }

  class EnemyCharacter {
    /** Serialized configuration. */
    const maxHealthPoints: real
    const damage: DamageRange
    const hand: Punch

    var currentHealthPoints: real
    var state: StateTag
    /** The character controller's enabled flag (locomotion authority). */
    var controllerEnabled: bool
    /** The animator's boolean parameter "alive". */
    var animatorAlive: bool
    var position: Vector3
    var rotation: Quaternion
    /** Patrol points shared by the spawn group; written only by `Initialize`. */
    var targetPoints: seq<Vector3>
    /** Death-wait coroutines started and not yet resumed. */
    var pendingWaits: nat
    /** Calls into the coroutine scheduler, the loot dropper and the pool. */
    ghost var events: seq<HostEvent>
    /** Whether `Initialize` has bound the collaborators. */
    ghost var initialized: bool

    ghost function Snapshot(): Enemy
      reads this, hand
    {
      Enemy(maxHealthPoints, currentHealthPoints, state, hand.enabled, hand.damage,
            controllerEnabled, animatorAlive, position, rotation, pendingWaits, events)
    }

    ghost predicate Valid()
      reads this, hand
    {
      WaitsAccounted(Snapshot())
    }

    predicate IsAlive()
      reads this
    {
      Living(currentHealthPoints)
    }

    /** Instantiation by the host, with the serialized configuration and the
        health the base character starts with. */
    constructor (maxHealthPoints: real, damage: DamageRange, hand: Punch,
                 health: real, position: Vector3, rotation: Quaternion)
      ensures Valid() && !initialized
      ensures this.maxHealthPoints == maxHealthPoints && this.damage == damage && this.hand == hand
      ensures currentHealthPoints == health && controllerEnabled && animatorAlive
      ensures this.position == position && this.rotation == rotation
      ensures pendingWaits == 0 && events == []
    {
      this.maxHealthPoints := maxHealthPoints;
      this.damage := damage;
      this.hand := hand;
      currentHealthPoints := health;
      state := Walking;
      controllerEnabled := true;
      animatorAlive := true;
      this.position := position;
      this.rotation := rotation;
      targetPoints := [];
      pendingWaits := 0;
      events := [];
      initialized := false;
    }

    /** Binds the patrol points, hands the configured damage range to the
        hand and starts in `Walking`. */
    method Initialize(targetPoints: seq<Vector3>)
      requires Valid()
      modifies this, hand
      ensures Valid() && initialized
      ensures this.targetPoints == targetPoints
      ensures hand.damage == damage && state == Walking
      ensures hand.enabled == old(hand.enabled)
      ensures currentHealthPoints == old(currentHealthPoints) && controllerEnabled == old(controllerEnabled)
      ensures animatorAlive == old(animatorAlive) && pendingWaits == old(pendingWaits) && events == old(events)
      ensures position == old(position) && rotation == old(rotation)
    {
      this.targetPoints := targetPoints;
      hand.damage := damage;
      state := Walking;
      initialized := true;
    }

    /** Places the enemy at `(p, r)` for a new life: full health, locomotion
        re-enabled around the teleport, patrol state. */
    method Spawn(p: Vector3, r: Quaternion)
      requires Valid() && initialized
      modifies this
      ensures Valid() && initialized
      ensures Snapshot() == EnemyTrace.Spawn(old(Snapshot()), p, r)
      ensures currentHealthPoints == maxHealthPoints && controllerEnabled
      ensures position == p && rotation == r && state == Walking
      ensures animatorAlive == old(animatorAlive) && pendingWaits == old(pendingWaits)
      ensures targetPoints == old(targetPoints)
    {
      currentHealthPoints := maxHealthPoints;
      controllerEnabled := false;
      position, rotation := p, r;
      controllerEnabled := true;
      state := Walking;
    }

    /** The per-tick update. A dead enemy is left untouched and reports
        `false`. A living one advances its state with `process`, sets the
        hand from the animator report `(clip, t)` and, when walking,
        regenerates `dt * maxHealthPoints / 20`. Returns whether the enemy is
        alive afterwards. */
    method EnemyUpdate(process: StateTag -> StateTag, clip: string, t: real, dt: real) returns (alive: bool)
      requires Valid() && initialized
      modifies this, hand
      ensures Valid() && initialized
      ensures (Snapshot(), alive) == Update(old(Snapshot()), process, clip, t, dt)
      ensures alive == IsAlive()
      ensures !old(IsAlive()) ==> Snapshot() == old(Snapshot()) && !alive
      ensures old(IsAlive()) ==> state == process(old(state))
      ensures old(IsAlive()) ==>
        (hand.enabled <==> state == Attack && clip == AttackClip
                           && SwingStart < CycleFraction(t) < SwingEnd)
      ensures old(IsAlive()) && state == Walking ==>
        currentHealthPoints == old(currentHealthPoints) + dt * maxHealthPoints / RegenSeconds
      ensures state == Attack ==> currentHealthPoints == old(currentHealthPoints)
      ensures targetPoints == old(targetPoints)
    {
      if IsAlive() {
        state := process(state);
        if state == Attack {
          hand.enabled := SwingLands(clip, t);
        } else {
          hand.enabled := false;
        }
        if state == Walking {
          currentHealthPoints := currentHealthPoints + dt * maxHealthPoints / RegenSeconds;
        }
      }
      alive := IsAlive();
    }

    /** The patrol point picked by the random index `roll`. */
    method GetRandomPoint(roll: int) returns (p: Vector3)
      requires initialized && 0 <= roll < |targetPoints|
      ensures p in targetPoints
      ensures p == targetPoints[roll]
    {
      p := targetPoints[roll];
    }

    /** Takes `amount` of damage. A blow that leaves the enemy not alive
        disables locomotion, clears the animator's "alive" flag and starts
        one more death wait, also when the enemy was already dead. */
    method Hit(amount: real)
      requires Valid() && initialized
      modifies this
      ensures Valid() && initialized
      ensures Snapshot() == EnemyTrace.Hit(old(Snapshot()), amount)
      ensures currentHealthPoints == old(currentHealthPoints) - amount
      ensures !IsAlive() ==> !controllerEnabled && !animatorAlive
                             && pendingWaits == old(pendingWaits) + 1
                             && events == old(events) + [WaitStarted]
      ensures IsAlive() ==> controllerEnabled == old(controllerEnabled) && animatorAlive == old(animatorAlive)
                            && pendingWaits == old(pendingWaits) && events == old(events)
      ensures state == old(state) && position == old(position) && targetPoints == old(targetPoints)
    {
      ghost var before := Snapshot();
      currentHealthPoints := currentHealthPoints - amount;
      if !IsAlive() {
        controllerEnabled := false;
        animatorAlive := false;
        pendingWaits := pendingWaits + 1;
        events := events + [WaitStarted];
      }
      StepKeepsWaitsAccounted(before, Damage(amount));
    }

    /** One poll of a pending death wait, the animator reporting `(clip, t)`.
        While `IsDeath` holds nothing happens; otherwise the wait resumes:
        it drops the loot, then pushes the enemy to its pool. */
    method AwaitAnimation(clip: string, t: real) returns (resumed: bool)
      requires Valid() && initialized
      modifies this
      ensures Valid() && initialized
      ensures (Snapshot(), resumed) == Poll(old(Snapshot()), clip, t)
      ensures resumed <==> old(pendingWaits) > 0 && clip == DeathClip && t >= DeathDone
      ensures resumed ==> events == old(events) + [ItemsDropped, PushedToPool]
                          && pendingWaits == old(pendingWaits) - 1
      ensures !resumed ==> Snapshot() == old(Snapshot())
      ensures state == old(state) && currentHealthPoints == old(currentHealthPoints)
      ensures targetPoints == old(targetPoints)
    {
      ghost var before := Snapshot();
      if pendingWaits > 0 && !IsDeath(clip, t) {
        events := events + [ItemsDropped];
        events := events + [PushedToPool];
        pendingWaits := pendingWaits - 1;
        resumed := true;
        assert events == before.events + [ItemsDropped, PushedToPool];
      } else {
        resumed := false;
      }
      StepKeepsWaitsAccounted(before, PollWait(clip, t));
    }
  }
}

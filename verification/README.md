# EnemyCharacter: the enemy's per-tick rules, damage and death wait

This project models `EnemyCharacter`, the enemy combatant of the BaseDefense
game. It covers the enemy's per-tick update, damage taken, the coroutine
that waits for the death animation, respawn from the pool, setup, and the
choice of a patrol point. The host engine is not modelled. The animator's clip
name and normalized time, the frame time, the random index and the behaviour
state's own transition all become plain inputs.

Three modules:

- `EnemyRules` (`enemy_rules.dfy`) holds the pure rules and the value types.
  - Truncation of the normalized time and its fraction within the cycle.
  - The hand gate: enabled only in `Attack`, on clip `"Base.Attack"`, with the cycle fraction strictly inside (0.5, 0.75).
  - The health regenerated per tick.
  - `IsDeath`, the death-wait condition. It is true while the wait must go on, despite its name.
  - A cycle-based reference definition of the landing window, proved equivalent to the gate.
- `EnemyTrace` (`enemy_trace.dfy`) models the enemy as a value.
  - `Enemy` is a snapshot of every field the operations touch.
  - `Update`, `Hit`, `Poll` and `Spawn` are one step each.
  - `Run` applies any sequence of steps.
  - Lemmas about runs: damage adds up without clamping, the death-wait bookkeeping is kept, dead enemies ignore ticks, regeneration while walking, and the double release.
- `EnemyCharacters` (`enemy_character.dfy`) holds the classes `EnemyCharacter` and `Punch` (the attacking hand), whose methods update fields in place.
  - `Spawn`, `EnemyUpdate`, `Hit` and `AwaitAnimation` are proved to move `Snapshot()` exactly as their `EnemyTrace` steps do. `Initialize` states its effect field by field.
  - Each one keeps `Valid()`: loot drops and pool pushes come in pairs, and every push answers a started death wait.

Collaborators whose code is not part of this model:

- Calls to `StartCoroutine`, `ItemDrop.DropItems` and `ObjectsPool.Push` are recorded in a ghost event log (`WaitStarted`, `ItemsDropped`, `PushedToPool`).
- The `AwaitAnimation` coroutine is a counter of pending waits plus an explicit poll method. Each poll resumes one pending wait at most.
- `State.Process()` is an arbitrary function `process: StateTag -> StateTag`.
- `BaseCharacter` is not part of this model. `IsAlive` is taken to be `health > 0`, and the `CurrentHealthPoints` setter is taken to store its value without clamping. Both are assumptions.

Floats are `real`. The constants are the exact single-precision values the
code compares against. `0.5f` and `0.75f` are exact. `0.9f` is
0.89999997615814208984375, just below 0.9, so a death clip at a normalized time
of 0.9 already ends the wait (`DeathWaitEnds`). The `(int)` cast truncates
toward zero (`Trunc`). A negative normalized time therefore has a non-positive
fraction and never enables the hand.

Behaviour of the code worth knowing, each stated by a lemma:

- **No guard against a second death.** `Hit` has no guard: every blow on a dead enemy starts another death wait (`CorpseHitsStartWaits`). Two waits that complete release the enemy to the pool twice (`CorpseHitReleasesTwice`). This holds as long as the pool push leaves the object active; if `ObjectsPool.Push` deactivates it, the host stops its remaining coroutines, which this model does not capture (see "## Left out").
- **No cap on regeneration.** The code adds `dt * max / 20` with no cap, so health can pass the maximum (`RegenPassesMax`, `WalkingRegenerates`).
- **No validation at setup.** `Initialize` validates neither the patrol list nor the maximum. `GetRandomPoint` requires its index to lie in range, which an empty list cannot meet.
- **Respawn resets only what it writes.** `Spawn` leaves the animator's `"alive"` flag cleared and any still-pending death waits in place (`SpawnLeavesAnimatorDead`). If `ObjectsPool.Push` deactivates the object, the host resets the animator and drops the coroutines when it is re-enabled; that too is outside this model.

## Model

| member | source | states |
|---|---|---|
| EnemyRules.Trunc | Assets/Scripts/Characters/EnemyCharacter.cs:78 | the `(int)` cast truncates toward zero: for t ≥ 0 the result is the largest integer not above t, and for t < 0 the smallest not below it |
| EnemyRules.CycleFraction | Assets/Scripts/Characters/EnemyCharacter.cs:78-81 | the cycle fraction lies in (-1, 1) and has the sign of the time; removing it from the time leaves a whole number |
| EnemyRules.HandGate | Assets/Scripts/Characters/EnemyCharacter.cs:75-84 | the hand can only be enabled in state `Attack`, on clip `"Base.Attack"`, at a positive normalized time; the clip-and-fraction test of lines 79-81 is the predicate `SwingLands` it calls |
| EnemyRules.Regen | Assets/Scripts/Characters/EnemyCharacter.cs:87 | 20 seconds of walking regain exactly one full bar (`max`); no time regains nothing; a forward step never loses health and a positive one with positive max gains some |
| EnemyRules.SwingWindowByCycles | Assets/Scripts/Characters/EnemyCharacter.cs:78-81 | the fraction is strictly inside (0.5, 0.75) iff t lies strictly inside (k + 0.5, k + 0.75) for some cycle k ≥ 0; both directions |
| EnemyRules.HandGateIff | Assets/Scripts/Characters/EnemyCharacter.cs:75-84 | the hand is enabled iff the state is `Attack`, the clip is `"Base.Attack"` and t is strictly inside the landing part of some cycle; both directions |
| EnemyRules.WindowBoundsExcluded | Assets/Scripts/Characters/EnemyCharacter.cs:80-81 | in every cycle, fractions of exactly 0.5 and 0.75 leave the hand off, while 0.6 turns it on |
| EnemyRules.DeathWaitEnds | Assets/Scripts/Characters/EnemyCharacter.cs:126-130 | about the constant `0.9f` in `IsDeath` (the predicate that is true while the wait goes on): the death clip at time 0.9 already ends the wait, and no time at or below 0.8999999 does |
| EnemyTrace.Update | Assets/Scripts/Characters/EnemyCharacter.cs:70-91 | the tick returns whether the enemy is alive after it; the tick never touches locomotion, the animator flag or the death waits; with dt ≥ 0 and max ≥ 0 it never lowers health |
| EnemyTrace.Hit | Assets/Scripts/Characters/EnemyCharacter.cs:106-117 | health drops by exactly the damage; exactly one death wait and one log entry are added when the blow leaves the enemy not alive, and none otherwise |
| EnemyTrace.Poll | Assets/Scripts/Characters/EnemyCharacter.cs:120-130 | a poll resumes iff a wait is pending and the clip is `"Death"` at time ≥ 0.9f; when it resumes it logs a drop and then a push, and one wait fewer is pending; otherwise nothing changes |
| EnemyTrace.Spawn | Assets/Scripts/Characters/EnemyCharacter.cs:56-63 | whatever came before: health is the maximum (alive iff max > 0), locomotion is on, the pose is `(p, r)` and the state is `Walking`; the hand, the animator flag, the waits and the log are kept |
| EnemyTrace.StepKeepsWaitsAccounted | Assets/Scripts/Characters/EnemyCharacter.cs:106-130 | every operation keeps the bookkeeping: each drop is immediately followed by a push, each push is immediately preceded by a drop, and pending waits plus pushes equal waits started |
| EnemyTrace.RunKeepsWaitsAccounted | Assets/Scripts/Characters/EnemyCharacter.cs:106-130 | after any sequence of ticks, hits, polls and respawns the bookkeeping still holds, so the enemy is never pushed to the pool more often than a death wait was started |
| EnemyTrace.HitsSubtractTotal | Assets/Scripts/Characters/EnemyCharacter.cs:106-108 | after any sequence of hits, health is the starting health minus the total damage, with nothing clamped in between |
| EnemyTrace.AliveIffDamageBelowMax | Assets/Scripts/Characters/EnemyCharacter.cs:106-112 | after a spawn and any sequence of hits, the enemy is alive iff the total damage is below its maximum health |
| EnemyTrace.CorpseHitsStartWaits | Assets/Scripts/Characters/EnemyCharacter.cs:112-117 | on a dead enemy, every non-negative blow starts one more death wait and the enemy stays dead |
| EnemyTrace.CorpseHitReleasesTwice | Assets/Scripts/Characters/EnemyCharacter.cs:106-125 | a fatal blow, then a second blow, then two finished polls push the enemy to the pool twice for one death |
| EnemyTrace.PollsBeforeDeathEndChangeNothing | Assets/Scripts/Characters/EnemyCharacter.cs:120-130 | any number of polls that do not see the death clip at 0.9f leave the enemy exactly as it was |
| EnemyTrace.TicksOnCorpseChangeNothing | Assets/Scripts/Characters/EnemyCharacter.cs:70-91 | any number of ticks on a dead enemy leave the state, the hand, health and every other field unchanged |
| EnemyTrace.RegenAdds | Assets/Scripts/Characters/EnemyCharacter.cs:87 | regeneration over two stretches of time equals regeneration over their sum, so per-tick gains add up to the gain for the total time |
| EnemyTrace.WalkingRegenerates | Assets/Scripts/Characters/EnemyCharacter.cs:86-87 | over ticks that stay in `Walking`, health rises by exactly the regeneration for the total time (total time × max / 20) with no cap; the enemy stays alive and the hand stays off |
| EnemyTrace.RegenPassesMax | Assets/Scripts/Characters/EnemyCharacter.cs:86-87 | from full health, one walking tick with positive dt takes health above the maximum |
| EnemyTrace.RespawnAfterAnyRun | Assets/Scripts/Characters/EnemyCharacter.cs:56-63 | after any run of operations, a respawn restores full health, locomotion, the spawn pose and `Walking` |
| EnemyTrace.SpawnLeavesAnimatorDead | Assets/Scripts/Characters/EnemyCharacter.cs:56-63 | after a fatal hit, a respawn leaves the animator's `"alive"` flag cleared and the death wait still pending |
| EnemyCharacters.EnemyCharacter.Initialize | Assets/Scripts/Characters/EnemyCharacter.cs:41-51 | binds the patrol points, sets the hand's damage range to the configured range and the state to `Walking`, and changes nothing else |
| EnemyCharacters.EnemyCharacter.Spawn | Assets/Scripts/Characters/EnemyCharacter.cs:56-63 | moves the object exactly as `EnemyTrace.Spawn`: full health, controller enabled, pose `(p, r)`, `Walking`, animator flag and waits unchanged |
| EnemyCharacters.EnemyCharacter.EnemyUpdate | Assets/Scripts/Characters/EnemyCharacter.cs:70-91 | dead: nothing changes and the result is false. Alive: the state becomes `process(old state)`; the hand is on iff `Attack`, `"Base.Attack"` and the fraction is strictly inside (0.5, 0.75); walking adds `dt * max / 20` to health and attacking leaves it alone. The result is whether the enemy is alive afterwards |
| EnemyCharacters.EnemyCharacter.GetRandomPoint | Assets/Scripts/Characters/EnemyCharacter.cs:94-97 | the result is the patrol point at the given in-range index, so it is one of the patrol points |
| EnemyCharacters.EnemyCharacter.Hit | Assets/Scripts/Characters/EnemyCharacter.cs:106-117 | health drops by the damage. If the enemy is then not alive: the controller is disabled, the animator `"alive"` flag is false and one more death wait is pending. Otherwise all three are unchanged |
| EnemyCharacters.EnemyCharacter.AwaitAnimation | Assets/Scripts/Characters/EnemyCharacter.cs:120-130 | a poll resumes iff a wait is pending and the clip is `"Death"` at time ≥ 0.9f. Resuming logs a loot drop and then a pool push, and removes one pending wait. Any other poll changes nothing; no poll changes the state, health or patrol points |

## Left out

- `SetTrigger` (EnemyCharacter.cs:101-104) only forwards to `State.SetTrigger`. The Walking and Attack state classes are not part of this model, so it has no effect to state.
- `State.Process()` and its distance-threshold transitions, along with the walking movement they cause, are not part of this model. The transition is an arbitrary input function, and `position` changes only through `Spawn`.
- The hit particle burst and `HitEffect.Play()` (EnemyCharacter.cs:109-111) are visual only. Their integer/float arithmetic also depends on the type of `maxHealthPoints`, which is not shown.
- `GetComponent` lookups, the Zenject injection of `enemyBase` and `player`, and `Factory` are wiring. `Initialize` keeps only what the modelled operations use.
- GetRandomPoint: does not model the uniform distribution of `Random.Range`. The index is an input with a range precondition.
- The animator's `IsName` matching rules are not modelled. The reported clip name is compared with the literal.
- Float rounding is not modelled: arithmetic is exact over the reals. So is the unchecked `(int)` cast of a normalized time beyond the 32-bit range.
- What `ObjectsPool.Push` and `ItemDrop.DropItems` do is not modelled, for example whether deactivating the object stops other pending coroutines. Both are only logged.
- The coroutine scheduler is not modelled. Polls are explicit calls, and the frame at which the first poll happens is the caller's choice.
- The per-type pool (acquire/release) and the spawner that drives `EnemyUpdate` are not part of this model.
- Assets/Scripts/BaseDefense/AttackImplemention/Projectiles/Projectile.cs is a physics component with no logic of its own.
- Assets/Scripts/BaseDefense/UI/BuyButtons/BuyButton.cs is UI glue.

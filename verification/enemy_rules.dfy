/** Pure rules of EnemyCharacter: the value types it works with, the hand gate
    that decides when the attacking hand may land a blow, the death-clip test
    that ends the death wait, and the health regeneration rate.

    Floats of the host engine are modelled as `real`; every float the code
    compares against is written out with its exact single-precision value. */
module EnemyRules {

  /** The two behaviour states. Their own `Process` and `SetTrigger` logic is
      not part of this model; only which of the two is current matters here. */
  datatype StateTag = Walking | Attack

  datatype Vector3 = Vector3(x: real, y: real, z: real)

  datatype Quaternion = Quaternion(x: real, y: real, z: real, w: real)

  /** The `[min, max]` damage slider handed to the attacking hand. */
  datatype DamageRange = DamageRange(min: real, max: real)

  /** Calls into collaborators whose bodies are not part of this model, in the
      order they are made: starting the death-wait coroutine, dropping loot,
      and returning the enemy to its pool. */
  datatype HostEvent = WaitStarted | ItemsDropped | PushedToPool

  /** Name of the attack clip checked before the hand is enabled. */
  const AttackClip: string := "Base.Attack"

  /** Name of the clip the death wait waits for. */
  const DeathClip: string := "Death"

  /** The open window of an attack cycle during which the hand is enabled. */
  const SwingStart: real := 0.5
  const SwingEnd: real := 0.75

  /** `0.9f`: the float nearest to 0.9, which lies just below it. */
  const DeathDone: real := 0.89999997615814208984375

  /** Health regenerated while walking is `max / RegenSeconds` per second. */
  const RegenSeconds: real := 20.0

  /** The alive test of a character: strictly positive health. */
  predicate Living(health: real)
  {
    health > 0.0
  }

  /** The `(int)` cast of a float: truncation toward zero. */
  function Trunc(t: real): (n: int)
    ensures 0.0 <= t ==> n as real <= t < n as real + 1.0
    ensures t < 0.0 ==> n as real - 1.0 < t <= n as real
  {
    if t >= 0.0 then t.Floor else -((-t).Floor)
  }

  /** `normalizedTime - (int)normalizedTime`: the position inside the current
      animation cycle, carrying the sign of the time. */
  function CycleFraction(t: real): (f: real)
    ensures -1.0 < f < 1.0
    ensures 0.0 <= t ==> 0.0 <= f
    ensures t <= 0.0 ==> f <= 0.0
    ensures (t - f).Floor as real == t - f
  {
    t - Trunc(t) as real
  }

  /** Whether the attack clip `clip`, at normalized time `t`, is in the part of
      its swing where the blow lands. */
  predicate SwingLands(clip: string, t: real)
  {
    clip == AttackClip && SwingStart < CycleFraction(t) && CycleFraction(t) < SwingEnd
  }

  /** The enabled flag the hand takes in state `s`: only an attacking enemy in
      the landing part of its swing has an active hand. */
  function HandGate(s: StateTag, clip: string, t: real): (on: bool)
    ensures on ==> s == Attack && clip == AttackClip
    ensures on ==> 0.0 < t
  {
    if s == Attack then SwingLands(clip, t) else false
  }

  /** Health gained over `dt` seconds of walking: a full bar every
      `RegenSeconds` seconds, never negative for a forward step. */
  function Regen(dt: real, maxHealth: real): (gain: real)
    ensures dt == RegenSeconds ==> gain == maxHealth
    ensures dt == 0.0 ==> gain == 0.0
    ensures 0.0 <= dt && 0.0 <= maxHealth ==> 0.0 <= gain
    ensures 0.0 < dt && 0.0 < maxHealth ==> 0.0 < gain
  {
    dt * maxHealth / RegenSeconds
  }

  /** The death-wait condition, true while the wait must go on: the name is
      the source's, and it is true exactly while the death clip has NOT yet
      reached `DeathDone`. */
  predicate IsDeath(clip: string, t: real)
  {
    !(clip == DeathClip && t >= DeathDone)
  }

  /** Start of animation cycle number `k`, in normalized time. */
  function CycleStart(k: nat): real
  {
    k as real
  }

  /** Reference definition of the landing window that does not mention the
      cast: `t` lies strictly inside `(k + 0.5, k + 0.75)` for some cycle `k`.
      Negative times therefore never land. */
  lemma {:induction false} SwingWindowByCycles(t: real)
    ensures SwingStart < CycleFraction(t) < SwingEnd
            <==> exists k: nat :: CycleStart(k) + SwingStart < t < CycleStart(k) + SwingEnd
  {
    if SwingStart < CycleFraction(t) < SwingEnd {
      assert 0.0 <= t;
      var k: nat := Trunc(t);
      assert CycleStart(k) + SwingStart < t < CycleStart(k) + SwingEnd;
    }
    if exists k: nat :: CycleStart(k) + SwingStart < t < CycleStart(k) + SwingEnd {
      var k: nat :| CycleStart(k) + SwingStart < t < CycleStart(k) + SwingEnd;
      var n := Trunc(t);
      assert n as real <= t < n as real + 1.0;
      assert k as real <= t < k as real + 1.0;
      assert n == k;
    }
  }

  /** The hand gate, stated both ways against the cycle-based reference:
      enabled exactly when attacking, playing the attack clip, and strictly
      inside the landing part of some cycle. */
  lemma HandGateIff(s: StateTag, clip: string, t: real)
    ensures HandGate(s, clip, t)
            <==> s == Attack && clip == AttackClip
                 && exists k: nat :: CycleStart(k) + SwingStart < t < CycleStart(k) + SwingEnd
  {
    SwingWindowByCycles(t);
  }

  /** The boundaries of the window are excluded: a fraction of exactly 0.5 or
      0.75 leaves the hand disabled, in every cycle. */
  lemma {:induction false} WindowBoundsExcluded(k: nat)
    ensures !SwingLands(AttackClip, CycleStart(k) + SwingStart)
    ensures !SwingLands(AttackClip, CycleStart(k) + SwingEnd)
    ensures SwingLands(AttackClip, CycleStart(k) + 0.6)
  {
    var a, b, c := CycleStart(k) + SwingStart, CycleStart(k) + SwingEnd, CycleStart(k) + 0.6;
    assert Trunc(a) == k by { assert k as real <= a < k as real + 1.0; }
    assert Trunc(b) == k by { assert k as real <= b < k as real + 1.0; }
    assert Trunc(c) == k by { assert k as real <= c < k as real + 1.0; }
  }

  /** The constant of the death wait: `0.9f` lies just below the decimal 0.9,
      so a death clip at 0.9 already ends the wait, and nothing noticeably
      earlier does. (`IsDeath` itself is true while the wait goes on.) */
  lemma DeathWaitEnds(clip: string, t: real)
    ensures clip == DeathClip && t >= 0.9 ==> !IsDeath(clip, t)
    ensures !IsDeath(clip, t) ==> t > 0.8999999
  {
  }
}

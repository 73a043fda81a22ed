/** The keep-alive lock object. Each function is the code between two awaits; the class
    runs the same segments on its fields. Lock objects are named by numbers. */
module KeepAlive {
  import opened LockConfigurations

  const MIN_LOCK_AT_MOST_FOR: Millis := 30000.0

  datatype Fields = Fields(
    active: bool,
    lost: bool,
    released: bool,
    remainingLockAtLeastFor: Millis,
    currentLockAtMostUntil: Millis,
    currentLock: nat)

  /** How far a renewal gets before its first await. */
  datatype Begun = Inactive | FoundLost | Requested(extended: nat, next: Millis, now: Millis)

  function Fresh(base: LockConfiguration, lock: nat): Fields {
    Fields(true, false, false, base.lockAtLeastFor, LockAtMostUntil(base), lock)
  }

  /** `checkedAt` and `now` are the two clock readings, in that order. */
  function Begin(k: Fields, checkedAt: Millis, now: Millis): (Fields, Begun) {
    if !k.active then (k, Inactive)
    else if k.currentLockAtMostUntil < checkedAt then (k.(lost := true, active := false), FoundLost)
    else (k, Requested(k.currentLock, Max(0.0, k.remainingLockAtLeastFor), now))
  }

  /** The continuation once `extend` has answered; the flag says whether the loss is reported. */
  function Finish(k: Fields, base: LockConfiguration, extended: nat, next: Millis, now: Millis,
                  answer: Option<nat>): (Fields, bool)
  {
    if k.released then (k, false)
    else match answer
      case None =>
        if k.currentLock != extended || k.lost then (k, false) else (k.(lost := true, active := false), true)
      case Some(lock) =>
        (k.(lost := false, currentLock := lock,
            currentLockAtMostUntil := now + base.lockAtMostFor,
            remainingLockAtLeastFor := Max(0.0, next - base.lockAtMostFor / 2.0)), false)
  }

  /** Both attempts of one tick have thrown. */
  function GiveUp(k: Fields): Fields {
    k.(active := false)
  }

  /** Unlock up to its await; the lock to unlock, unless the lock is known to be lost. */
  function StartUnlock(k: Fields): (Fields, Option<nat>) {
    (k.(released := true, active := false), if k.lost then None else Some(k.currentLock))
  }

  class KeepAliveLock {
    const baseConfig: LockConfiguration
    var valid: bool
    var active: bool
    var lost: bool
    var released: bool
    var remainingLockAtLeastFor: Millis
    var currentLockAtMostUntil: Millis
    var currentLock: nat
    var timerRunning: bool

    function View(): Fields
      reads this
    {
      Fields(active, lost, released, remainingLockAtLeastFor, currentLockAtMostUntil, currentLock)
    }

    /** The interval is cleared exactly when the lock stops renewing. */
    predicate Valid()
      reads this
    {
      (timerRunning <==> active) && (lost || released ==> !active) && (!valid ==> released)
    }

    constructor (initialLock: nat, baseConfig: LockConfiguration)
      ensures Valid() && valid && this.baseConfig == baseConfig
      ensures View() == Fresh(baseConfig, initialLock)
    {
      this.baseConfig := baseConfig;
      valid, active, lost, released, timerRunning := true, true, false, false, true;
      remainingLockAtLeastFor := baseConfig.lockAtLeastFor;
      currentLockAtMostUntil := LockAtMostUntil(baseConfig);
      currentLock := initialLock;
    }

    method Deactivate()
      modifies this`active, this`timerRunning
      ensures !active && !timerRunning
    {
      active, timerRunning := false, false;
    }

    method BeginRenewal(checkedAt: Millis, now: Millis) returns (begun: Begun)
      requires Valid()
      modifies this
      ensures Valid() && valid == old(valid)
      ensures (View(), begun) == Begin(old(View()), checkedAt, now)
    {
      if !active { return Inactive; }
      if currentLockAtMostUntil < checkedAt {
        lost := true;
        Deactivate();
        return FoundLost;
      }
      return Requested(currentLock, Max(0.0, remainingLockAtLeastFor), now);
    }

    method FinishRenewal(extended: nat, next: Millis, now: Millis, answer: Option<nat>) returns (reportLost: bool)
      requires Valid()
      modifies this
      ensures Valid() && valid == old(valid)
      ensures (View(), reportLost) == Finish(old(View()), baseConfig, extended, next, now, answer)
    {
      if released { return false; }
      if answer.None? {
        if currentLock != extended || lost { return false; }
        lost := true;
        Deactivate();
        return true;
      }
      lost := false;
      currentLock := answer.value;
      currentLockAtMostUntil := now + baseConfig.lockAtMostFor;
      remainingLockAtLeastFor := Max(0.0, next - baseConfig.lockAtMostFor / 2.0);
      return false;
    }

    method AbandonRenewal()
      requires Valid()
      modifies this
      ensures Valid() && valid == old(valid)
      ensures View() == GiveUp(old(View()))
    {
      Deactivate();
    }

    method BeginUnlock() returns (r: Result<Option<nat>>)
      requires Valid()
      modifies this
      ensures Valid() && valid == old(valid)
      ensures !old(valid) ==> r == Thrown(ALREADY_USED) && View() == old(View())
      ensures old(valid) ==> r.Returned? && (View(), r.value) == StartUnlock(old(View()))
    {
      if !valid { return Thrown(ALREADY_USED); }
      released := true;
      Deactivate();
      if lost { return Returned(None); }
      return Returned(Some(currentLock));
    }

    method EndUnlock()
      requires Valid() && released
      modifies this
      ensures Valid() && !valid && View() == old(View())
    {
      valid := false;
    }
  }
}

/** Lock configurations and the deadline arithmetic every backend shares.
    Times and durations are real numbers of milliseconds, because half of an odd
    `lockAtMostFor` is a duration the keep-alive lock computes with. */
module LockConfigurations {

  type Millis = real

  datatype Option<+T> = None | Some(value: T)

  /** How an asynchronous call ends: with a value, or by throwing. */
  datatype Result<+T> = Returned(value: T) | Thrown(message: string)

  const ALREADY_USED := "Lock has already been released or extended"

  datatype LockConfiguration = LockConfiguration(
    name: string,
    lockAtMostFor: Millis,
    lockAtLeastFor: Millis,
    createdAt: Millis)

  function LockAtMostUntil(config: LockConfiguration): Millis {
    config.createdAt + config.lockAtMostFor
  }

  function LockAtLeastUntil(config: LockConfiguration): Millis {
    config.createdAt + config.lockAtLeastFor
  }

  /** What `createLockConfig` guarantees of the durations it lets through. */
  predicate ValidDurations(config: LockConfiguration) {
    0.0 <= config.lockAtLeastFor <= config.lockAtMostFor
  }

  function Max(a: Millis, b: Millis): Millis {
    if a < b then b else a
  }

  function Min(a: Millis, b: Millis): Millis {
    if a < b then a else b
  }

  /** The deadline an unlock writes, for a clock that reads `now`. */
  function UnlockTime(config: LockConfiguration, now: Millis): Millis {
    Max(now, LockAtLeastUntil(config))
  }

  /** What a configuration promises even to a holder that never unlocks. */
  function Promise(config: LockConfiguration): Millis {
    Min(LockAtLeastUntil(config), LockAtMostUntil(config))
  }

  /** A configuration without a minimum hold. */
  function Plan(name: string, lockAtMostFor: Millis, createdAt: Millis): LockConfiguration {
    LockConfiguration(name, lockAtMostFor, 0.0, createdAt)
  }
}

/** The in-memory provider: a mutable map from lock name to stored deadline.
    Its entries record no host, so as lease rows they all carry `NOBODY`. */
module InMemory {
  import opened LockConfigurations
  import opened Lease

  const NOBODY: string := ""

  function RowOf(locks: map<string, Millis>, name: string): Option<Row> {
    if name in locks then Some(Row(locks[name], NOBODY)) else None
  }

  class InMemoryLockProvider {
    var locks: map<string, Millis>

    constructor ()
      ensures locks == map[]
    {
      locks := map[];
    }

    /** Deletes the entry when its deadline has been reached. */
    method IsLocked(name: string, now: Millis) returns (held: bool)
      modifies this
      ensures held <==> name in old(locks) && old(locks)[name] > now
      ensures locks == if held then old(locks) else old(locks) - {name}
    {
      if name !in locks { return false; }
      if locks[name] <= now {
        locks := locks - {name};
        return false;
      }
      return true;
    }

    method Lock(config: LockConfiguration, now: Millis) returns (lock: InMemoryLock?)
      modifies this
      ensures (lock != null) == TryAcquire(old(RowOf(locks, config.name)), config, NOBODY, now).Some?
      ensures lock == null ==> locks == old(locks)
      ensures lock != null ==>
        && fresh(lock) && lock.valid && lock.provider == this && lock.config == config
        && locks == old(locks)[config.name := LockAtMostUntil(config)]
    {
      var held := IsLocked(config.name, now);
      if held { return null; }
      locks := locks[config.name := LockAtMostUntil(config)];
      lock := new InMemoryLock(this, config);
    }
  }

  /** A one-shot lock object: `valid` until its unlock or its first successful extension. */
  class InMemoryLock {
    const provider: InMemoryLockProvider
    const config: LockConfiguration
    var valid: bool

    constructor (provider: InMemoryLockProvider, config: LockConfiguration)
      ensures this.provider == provider && this.config == config && valid
    {
      this.provider, this.config, valid := provider, config, true;
    }

    method Unlock() returns (r: Result<()>)
      modifies this`valid, provider
      ensures !old(valid) ==> r == Thrown(ALREADY_USED) && !valid && provider.locks == old(provider.locks)
      ensures old(valid) ==>
        && r == Returned(()) && !valid
        && provider.locks ==
           match TryUnlock(old(RowOf(provider.locks, config.name)), config, NOBODY, UnlockDeadline(AtLeastOnly, config, 0.0))
           case None => old(provider.locks)
           case Some(row) => old(provider.locks)[config.name := row.lockUntil]
    {
      if !valid { return Thrown(ALREADY_USED); }
      DoUnlock();
      valid := false;
      return Returned(());
    }

    method DoUnlock()
      modifies provider
      ensures provider.locks ==
        if config.name in old(provider.locks) && old(provider.locks)[config.name] == LockAtMostUntil(config)
        then old(provider.locks)[config.name := LockAtLeastUntil(config)]
        else old(provider.locks)
    {
      if config.name !in provider.locks || provider.locks[config.name] != LockAtMostUntil(config) { return; }
      provider.locks := provider.locks[config.name := LockAtLeastUntil(config)];
    }

    /** The clock is read twice: for the new configuration and then for the guard. */
    method Extend(lockAtMostFor: Millis, lockAtLeastFor: Millis, createdAt: Millis, now: Millis)
      returns (r: Result<InMemoryLock?>)
      modifies this`valid, provider
      ensures var newConfig := LockConfiguration(config.name, lockAtMostFor, lockAtLeastFor, createdAt);
        var row := TryExtend(old(RowOf(provider.locks, config.name)), newConfig, NOBODY, Some(LockAtMostUntil(config)), now);
        if !old(valid) then
          r == Thrown(ALREADY_USED) && !valid && provider.locks == old(provider.locks)
        else if row.None? then
          r == Returned(null) && valid && provider.locks == old(provider.locks)
        else
          && r.Returned? && r.value != null && fresh(r.value) && !valid
          && r.value.valid && r.value.provider == provider && r.value.config == newConfig
          && provider.locks == old(provider.locks)[config.name := row.value.lockUntil]
    {
      if !valid { return Thrown(ALREADY_USED); }
      var newConfig := LockConfiguration(config.name, lockAtMostFor, lockAtLeastFor, createdAt);
      var ownedUntil := LockAtMostUntil(config);
      if config.name in provider.locks && provider.locks[config.name] == ownedUntil && ownedUntil > now {
        provider.locks := provider.locks[config.name := LockAtMostUntil(newConfig)];
        var lock := new InMemoryLock(provider, newConfig);
        valid := false;
        return Returned(lock);
      }
      return Returned(null);
    }
  }
}

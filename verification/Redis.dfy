/** The Redis lock: a key with an expiry, conditional scripts on it, and lock objects that
    compute a time to live before the server runs the command. */
module Redis {
  import opened LockConfigurations

  datatype Entry = Entry(value: string, expireAt: Millis)

  /** The key as the server sees it at `now`: an expired entry is gone. */
  function Present(entry: Option<Entry>, now: Millis): Option<Entry> {
    if entry.Some? && entry.value.expireAt > now then entry else None
  }

  // ---- The commands and scripts, and what they reply

  const INVALID_EXPIRE := "ERR invalid expire time in 'set' command"

  /** SET key value NX PX ttl. A time to live of zero is an error, and nothing is set. */
  function SetIfAbsent(entry: Option<Entry>, value: string, ttl: Millis, now: Millis): (Option<Entry>, Result<bool>) {
    if ttl <= 0.0 then (entry, Thrown(INVALID_EXPIRE))
    else if Present(entry, now).Some? then (entry, Returned(false))
    else (Some(Entry(value, now + ttl)), Returned(true))
  }

  /** SET key value XX PX ttl: no comparison. */
  function SetIfPresent(entry: Option<Entry>, value: string, ttl: Millis, now: Millis): (Option<Entry>, Result<bool>) {
    if ttl <= 0.0 then (entry, Thrown(INVALID_EXPIRE))
    else if Present(entry, now).None? then (entry, Returned(false))
    else (Some(Entry(value, now + ttl)), Returned(true))
  }

  /** Compare, then PEXPIRE: a time to live of zero deletes the key and still replies 1. */
  function ExpireIfEquals(entry: Option<Entry>, value: string, ttl: Millis, now: Millis): (Option<Entry>, bool) {
    var p := Present(entry, now);
    if p.Some? && p.value.value == value
    then (if ttl <= 0.0 then None else Some(Entry(value, now + ttl)), true)
    else (entry, false)
  }

  /** Compare, then DEL. */
  function DeleteIfEquals(entry: Option<Entry>, value: string, now: Millis): (Option<Entry>, bool) {
    var p := Present(entry, now);
    if p.Some? && p.value.value == value then (None, true) else (entry, false)
  }

  /** DEL: no comparison. */
  function Delete(entry: Option<Entry>, now: Millis): (Option<Entry>, bool) {
    (None, Present(entry, now).Some?)
  }

  // ---- What a lock object asks of the server

  /** The time to live for a deadline, computed when the client's clock reads `now`. */
  function TimeToLive(until: Millis, now: Millis): Millis {
    Max(0.0, until - now)
  }

  function ExtendKey(safeUpdate: bool, entry: Option<Entry>, value: string, config: LockConfiguration, now: Millis, serverNow: Millis)
    : (Option<Entry>, Result<bool>)
  {
    var ttl := TimeToLive(LockAtMostUntil(config), now);
    if safeUpdate then
      var (after, ok) := ExpireIfEquals(entry, value, ttl, serverNow);
      (after, Returned(ok))
    else SetIfPresent(entry, value, ttl, serverNow)
  }

  /** The flag says whether the key was there to be changed. */
  function UnlockKey(safeUpdate: bool, entry: Option<Entry>, value: string, config: LockConfiguration, now: Millis, serverNow: Millis)
    : (Option<Entry>, bool)
  {
    var keepLockFor := LockAtLeastUntil(config) - now;
    if keepLockFor > 0.0 then
      if safeUpdate then ExpireIfEquals(entry, value, keepLockFor, serverNow)
      else
        var (after, reply) := SetIfPresent(entry, value, keepLockFor, serverNow);
        (after, reply == Returned(true))
    else if safeUpdate then DeleteIfEquals(entry, value, serverNow)
    else Delete(entry, serverNow)
  }

  class RedisServer {
    var data: map<string, Entry>

    constructor ()
      ensures data == map[]
    {
      data := map[];
    }

    function At(key: string): Option<Entry>
      reads this
    {
      if key in data then Some(data[key]) else None
    }

    method Store(key: string, entry: Option<Entry>)
      modifies this
      ensures At(key) == entry
      ensures forall k :: k != key ==> At(k) == old(At(k))
    {
      data := if entry.Some? then data[key := entry.value] else data - {key};
    }
  }

  /** A one-shot lock object. */
  class RedisLock {
    const config: LockConfiguration
    const redis: RedisServer
    const key: string
    const value: string
    const safeUpdate: bool
    var valid: bool

    constructor (config: LockConfiguration, redis: RedisServer, key: string, value: string, safeUpdate: bool)
      ensures this.config == config && this.redis == redis && this.key == key && this.value == value
      ensures this.safeUpdate == safeUpdate && valid
    {
      this.config, this.redis, this.key, this.value, this.safeUpdate, valid := config, redis, key, value, safeUpdate, true;
    }

    /** `now` is read by the client, `serverNow` when the script runs. */
    method Unlock(now: Millis, serverNow: Millis) returns (r: Result<()>)
      modifies this`valid, redis
      ensures !valid
      ensures !old(valid) ==> r == Thrown(ALREADY_USED) && redis.data == old(redis.data)
      ensures old(valid) ==>
        r.Returned? && redis.At(key) == UnlockKey(safeUpdate, old(redis.At(key)), value, config, now, serverNow).0
      ensures forall k :: k != key ==> redis.At(k) == old(redis.At(k))
    {
      if !valid { return Thrown(ALREADY_USED); }
      var keepLockFor := LockAtLeastUntil(config) - now;
      if keepLockFor > 0.0 {
        if safeUpdate {
          redis.Store(key, ExpireIfEquals(redis.At(key), value, keepLockFor, serverNow).0);
        } else {
          redis.Store(key, SetIfPresent(redis.At(key), value, keepLockFor, serverNow).0);
        }
      } else if safeUpdate {
        redis.Store(key, DeleteIfEquals(redis.At(key), value, serverNow).0);
      } else {
        redis.Store(key, None);
      }
      valid := false;
      return Returned(());
    }

    method Extend(lockAtMostFor: Millis, lockAtLeastFor: Millis, createdAt: Millis, now: Millis, serverNow: Millis)
      returns (r: Result<RedisLock?>)
      modifies this`valid, redis
      ensures !old(valid) ==> r == Thrown(ALREADY_USED) && !valid && redis.data == old(redis.data)
      ensures old(valid) ==>
        var newConfig := LockConfiguration(config.name, lockAtMostFor, lockAtLeastFor, createdAt);
        var (entry, reply) := ExtendKey(safeUpdate, old(redis.At(key)), value, newConfig, now, serverNow);
        && redis.At(key) == entry
        && r.Thrown? == reply.Thrown?
        && (r.Returned? ==> (r.value != null <==> reply == Returned(true)))
        && valid == (reply != Returned(true))
        && (r.Returned? && r.value != null ==>
              fresh(r.value) && r.value.valid && r.value.config == newConfig && r.value.safeUpdate == safeUpdate
              && r.value.redis == redis && r.value.key == key && r.value.value == value)
      ensures forall k :: k != key ==> redis.At(k) == old(redis.At(k))
    {
      if !valid { return Thrown(ALREADY_USED); }
      var newConfig := LockConfiguration(config.name, lockAtMostFor, lockAtLeastFor, createdAt);
      var expireMs := TimeToLive(LockAtMostUntil(newConfig), now);
      var ok: bool;
      if safeUpdate {
        var (entry, changed) := ExpireIfEquals(redis.At(key), value, expireMs, serverNow);
        redis.Store(key, entry);
        ok := changed;
      } else {
        var (entry, reply) := SetIfPresent(redis.At(key), value, expireMs, serverNow);
        if reply.Thrown? { return Thrown(reply.message); }
        redis.Store(key, entry);
        ok := reply.value;
      }
      if !ok { return Returned(null); }
      var lock := new RedisLock(newConfig, redis, key, value, safeUpdate);
      valid := false;
      return Returned(lock);
    }
  }

  class InternalRedisLockProvider {
    const redis: RedisServer
    const keyPrefix: string
    const safeUpdate: bool

    constructor (redis: RedisServer, prefix: string, env: string, safeUpdate: bool)
      ensures this.redis == redis && keyPrefix == prefix + ":" + env && this.safeUpdate == safeUpdate
    {
      this.redis, this.safeUpdate := redis, safeUpdate;
      keyPrefix := prefix + ":" + env;
    }

    function BuildKey(lockName: string): string {
      keyPrefix + ":" + lockName
    }

    static function ParseKey(key: string, prefix: string, env: string): string {
      var n := |prefix + ":" + env + ":"|;
      if n <= |key| then key[n..] else ""
    }

    /** `value` holds a random identifier made for this call. A deadline that has passed when the
        time to live is computed makes the command fail and the call throw. */
    method Lock(config: LockConfiguration, value: string, now: Millis, serverNow: Millis) returns (r: Result<RedisLock?>)
      modifies redis
      ensures r.Thrown? <==> LockAtMostUntil(config) <= now
      ensures r.Returned? ==> (r.value != null <==> Present(old(redis.At(BuildKey(config.name))), serverNow).None?)
      ensures redis.At(BuildKey(config.name)) ==
        SetIfAbsent(old(redis.At(BuildKey(config.name))), value, TimeToLive(LockAtMostUntil(config), now), serverNow).0
      ensures r.Returned? && r.value != null ==>
        fresh(r.value) && r.value.valid && r.value.config == config && r.value.safeUpdate == safeUpdate
        && r.value.redis == redis && r.value.key == BuildKey(config.name) && r.value.value == value
      ensures forall k :: k != BuildKey(config.name) ==> redis.At(k) == old(redis.At(k))
    {
      var key := BuildKey(config.name);
      var (entry, acquired) := SetIfAbsent(redis.At(key), value, TimeToLive(LockAtMostUntil(config), now), serverNow);
      if acquired.Thrown? { return Thrown(acquired.message); }
      redis.Store(key, entry);
      if !acquired.value { return Returned(null); }
      var lock := new RedisLock(config, redis, key, value, safeUpdate);
      return Returned(lock);
    }

    /** The lock name can be read back from its key. */
    lemma KeyRoundTrip(prefix: string, env: string, lockName: string)
      requires keyPrefix == prefix + ":" + env
      ensures ParseKey(BuildKey(lockName), prefix, env) == lockName
    {
      assert BuildKey(lockName) == (prefix + ":" + env + ":") + lockName;
    }
  }
}

/** Every run of lock objects over one key, with `safeUpdate` or without. */
module RedisRuns {
  import opened LockConfigurations
  import opened Redis

  /** `live` until the server applies its unlock or an extension that replaces it. */
  datatype Handle = Handle(value: string, config: LockConfiguration, live: bool)

  /** `floor` is the minimum hold promised by the last change of the key. */
  datatype State = State(safeUpdate: bool, clock: Millis, entry: Option<Entry>, floor: Millis, handles: seq<Handle>)

  /** `now` is when the client computed the time to live. */
  datatype Step =
    | Advance(to: Millis)
    | Lock(config: LockConfiguration, value: string, now: Millis)
    | Extend(handle: nat, config: LockConfiguration, now: Millis)
    | Unlock(handle: nat, now: Millis)

  ghost predicate Enabled(s: State, step: Step) {
    match step
    case Advance(to) => s.clock <= to
    case Lock(_, value, now) => now <= s.clock && forall i :: 0 <= i < |s.handles| ==> s.handles[i].value != value
    case Extend(i, _, now) => i < |s.handles| && s.handles[i].live && now <= s.clock
    case Unlock(i, now) => i < |s.handles| && s.handles[i].live && now <= s.clock
  }

  function AfterLock(s: State, config: LockConfiguration, value: string, now: Millis): State {
    var (entry, reply) := SetIfAbsent(s.entry, value, TimeToLive(LockAtMostUntil(config), now), s.clock);
    if reply == Returned(true)
    then s.(entry := entry, floor := Promise(config), handles := s.handles + [Handle(value, config, true)])
    else s
  }

  function AfterExtend(s: State, i: nat, config: LockConfiguration, now: Millis): State
    requires i < |s.handles|
  {
    var h := s.handles[i];
    var (entry, reply) := ExtendKey(s.safeUpdate, s.entry, h.value, config, now, s.clock);
    if reply == Returned(true)
    then s.(entry := entry, floor := Promise(config), handles := s.handles[i := h.(live := false)] + [Handle(h.value, config, true)])
    else s
  }

  function AfterUnlock(s: State, i: nat, now: Millis): State
    requires i < |s.handles|
  {
    var h := s.handles[i];
    var (entry, changed) := UnlockKey(s.safeUpdate, s.entry, h.value, h.config, now, s.clock);
    s.(entry := entry, floor := if changed then LockAtLeastUntil(h.config) else s.floor, handles := s.handles[i := h.(live := false)])
  }

  function Next(s: State, step: Step): State
    requires step.Extend? || step.Unlock? ==> step.handle < |s.handles|
  {
    match step
    case Advance(to) => s.(clock := to)
    case Lock(config, value, now) => AfterLock(s, config, value, now)
    case Extend(i, config, now) => AfterExtend(s, i, config, now)
    case Unlock(i, now) => AfterUnlock(s, i, now)
  }

  ghost predicate IsRun(s: State, steps: seq<Step>)
    decreases |steps|
  {
    steps == [] || (Enabled(s, steps[0]) && IsRun(Next(s, steps[0]), steps[1..]))
  }

  ghost function Run(s: State, steps: seq<Step>): State
    requires IsRun(s, steps)
    decreases |steps|
  {
    if steps == [] then s else Run(Next(s, steps[0]), steps[1..])
  }

  function Empty(safeUpdate: bool, clock: Millis): State {
    State(safeUpdate, clock, None, clock, [])
  }

  predicate Holds(s: State, i: nat) {
    i < |s.handles| && s.handles[i].live && LockAtMostUntil(s.handles[i].config) > s.clock
  }

  /** A believed hold is backed by a key that outlasts it. */
  ghost predicate Backed(s: State) {
    forall i: nat :: Holds(s, i) ==>
      s.entry.Some? && s.entry.value.value == s.handles[i].value && s.entry.value.expireAt >= LockAtMostUntil(s.handles[i].config)
  }

  /** One usable handle per value. */
  ghost predicate OneShot(s: State) {
    forall i, j | 0 <= i < |s.handles| && 0 <= j < |s.handles| && s.handles[i].live && s.handles[j].live ::
      s.handles[i].value == s.handles[j].value ==> i == j
  }

  ghost predicate Inv(s: State) {
    && Backed(s)
    && OneShot(s)
    // A present key belongs to somebody who locked.
    && (s.entry.Some? ==> exists i :: 0 <= i < |s.handles| && s.handles[i].value == s.entry.value.value)
    && (s.floor <= s.clock || (s.entry.Some? && s.floor <= s.entry.value.expireAt))
  }

  /** Nobody but handle `i` believes it holds the lock. */
  ghost predicate NoOtherHolds(s: State, i: nat) {
    forall j: nat :: Holds(s, j) ==> j == i
  }

  ghost predicate AtMostOneHolds(s: State) {
    forall i: nat, j: nat :: Holds(s, i) && Holds(s, j) ==> i == j
  }

  /** An update is safe when the script compares, or when nobody else believes it holds the lock. */
  ghost predicate SafeStep(s: State, step: Step) {
    s.safeUpdate || (step.Extend? || step.Unlock? ==> NoOtherHolds(s, step.handle))
  }

  lemma LockKeepsInv(s: State, config: LockConfiguration, value: string, now: Millis)
    requires Inv(s) && Enabled(s, Lock(config, value, now))
    ensures Inv(AfterLock(s, config, value, now))
  {
    var s' := AfterLock(s, config, value, now);
    forall i: nat | Holds(s', i) && i < |s.handles| ensures Holds(s, i) {}
    if |s'.handles| > |s.handles| { assert s'.handles[|s.handles|].value == value; }
  }

  lemma ExtendKeepsInv(s: State, i: nat, config: LockConfiguration, now: Millis)
    requires Inv(s) && Enabled(s, Extend(i, config, now)) && SafeStep(s, Extend(i, config, now))
    ensures Inv(AfterExtend(s, i, config, now))
  {
    var s' := AfterExtend(s, i, config, now);
    forall j: nat | Holds(s', j) && j < |s.handles| ensures Holds(s, j) {}
    assert s'.handles[i].value == s.handles[i].value;
    if s'.entry.Some? && s'.entry.value.value != s.handles[i].value {
      var k :| 0 <= k < |s.handles| && s.handles[k].value == s.entry.value.value;
      assert s'.handles[k].value == s.handles[k].value;
    }
  }

  lemma UnlockKeepsInv(s: State, i: nat, now: Millis)
    requires Inv(s) && Enabled(s, Unlock(i, now)) && SafeStep(s, Unlock(i, now))
    ensures Inv(AfterUnlock(s, i, now))
  {
    var s' := AfterUnlock(s, i, now);
    forall j: nat | Holds(s', j) ensures Holds(s, j) && j != i {}
    assert s'.handles[i].value == s.handles[i].value;
    if s'.entry.Some? && s'.entry.value.value != s.handles[i].value {
      var k :| 0 <= k < |s.handles| && s.handles[k].value == s.entry.value.value;
      assert s'.handles[k].value == s.handles[k].value;
    }
  }

  lemma StepKeepsInv(s: State, step: Step)
    requires Inv(s) && Enabled(s, step) && SafeStep(s, step)
    ensures Inv(Next(s, step))
  {
    match step
    case Advance(to) =>
      forall i: nat | Holds(Next(s, step), i) ensures Holds(s, i) {}
    case Lock(config, value, now) => LockKeepsInv(s, config, value, now);
    case Extend(i, config, now) => ExtendKeepsInv(s, i, config, now);
    case Unlock(i, now) => UnlockKeepsInv(s, i, now);
  }

  ghost predicate SafeRun(s: State, steps: seq<Step>)
    requires IsRun(s, steps)
    decreases |steps|
  {
    steps != [] ==> SafeStep(s, steps[0]) && SafeRun(Next(s, steps[0]), steps[1..])
  }

  lemma {:induction false} SafeUpdateMakesSafeRuns(s: State, steps: seq<Step>)
    requires IsRun(s, steps) && s.safeUpdate
    ensures SafeRun(s, steps)
    decreases |steps|
  {
    if steps != [] { SafeUpdateMakesSafeRuns(Next(s, steps[0]), steps[1..]); }
  }

  lemma {:induction false} RunKeepsInv(s: State, steps: seq<Step>)
    requires Inv(s) && IsRun(s, steps) && SafeRun(s, steps)
    ensures Inv(Run(s, steps))
    decreases |steps|
  {
    if steps != [] {
      StepKeepsInv(s, steps[0]);
      RunKeepsInv(Next(s, steps[0]), steps[1..]);
    }
  }

  /** However late each command runs after its time to live was computed, a holder that believes
      it holds the lock is the only one, and the key holds its value until its deadline: in every
      run with `safeUpdate`, and without it in every run whose updates meet no other hold. */
  lemma MutualExclusion(safeUpdate: bool, start: Millis, steps: seq<Step>, i: nat, j: nat)
    requires IsRun(Empty(safeUpdate, start), steps)
    requires safeUpdate || SafeRun(Empty(safeUpdate, start), steps)
    requires Holds(Run(Empty(safeUpdate, start), steps), i) && Holds(Run(Empty(safeUpdate, start), steps), j)
    ensures i == j
    ensures var s := Run(Empty(safeUpdate, start), steps);
      Present(s.entry, s.clock).Some? && s.entry.value.value == s.handles[i].value
      && s.entry.value.expireAt >= LockAtMostUntil(s.handles[i].config)
  {
    if safeUpdate { SafeUpdateMakesSafeRuns(Empty(safeUpdate, start), steps); }
    RunKeepsInv(Empty(safeUpdate, start), steps);
  }

  /** With `safeUpdate`, a handle whose value is not the stored one changes nothing. */
  lemma SupersededHandleIsHarmless(s: State, i: nat, config: LockConfiguration, now: Millis)
    requires s.safeUpdate && i < |s.handles|
    requires Present(s.entry, s.clock).None? || s.entry.value.value != s.handles[i].value
    ensures AfterExtend(s, i, config, now) == s
    ensures AfterUnlock(s, i, now).entry == s.entry
  {
  }

  /** With `safeUpdate`, whoever locks next does so no earlier than the minimum hold promised last. */
  lemma MinimumHold(start: Millis, steps: seq<Step>, config: LockConfiguration, value: string, now: Millis)
    requires IsRun(Empty(true, start), steps)
    requires var s := Run(Empty(true, start), steps);
      SetIfAbsent(s.entry, value, TimeToLive(LockAtMostUntil(config), now), s.clock).1 == Returned(true)
    ensures Run(Empty(true, start), steps).floor <= Run(Empty(true, start), steps).clock
  {
    SafeUpdateMakesSafeRuns(Empty(true, start), steps);
    RunKeepsInv(Empty(true, start), steps);
  }

  /** Whoever holds the lock extends it, with `safeUpdate` or without: the key then expires when the
      new deadline is as far away as it was when the client computed it. */
  lemma HolderCanExtend(s: State, i: nat, config: LockConfiguration, now: Millis)
    requires Inv(s) && Holds(s, i) && now < config.createdAt + config.lockAtMostFor
    ensures var s' := AfterExtend(s, i, config, now);
      && |s'.handles| == |s.handles| + 1 && !s'.handles[i].live
      && s'.entry == Some(Entry(s.handles[i].value, s.clock + (config.createdAt + config.lockAtMostFor - now)))
  {
  }

  /** Whoever holds the lock releases it by an unlock, with `safeUpdate` or without: what is left of
      the minimum is kept and not a moment more, and the next lock call is granted exactly from then on. */
  lemma HolderReleases(s: State, i: nat, now: Millis, config: LockConfiguration, value: string, later: Millis, computed: Millis)
    requires Inv(s) && Holds(s, i) && s.clock <= later && computed < config.createdAt + config.lockAtMostFor
    ensures var least := s.handles[i].config.createdAt + s.handles[i].config.lockAtLeastFor;
      var released := AfterUnlock(s, i, now).entry;
      var granted := SetIfAbsent(released, value, TimeToLive(LockAtMostUntil(config), computed), later).1 == Returned(true);
      && released == (if now < least then Some(Entry(s.handles[i].value, s.clock + (least - now))) else None)
      && (granted <==> now >= least || s.clock + (least - now) <= later)
  {
  }

  /** A lock call sets the key exactly if it is absent and the deadline is ahead, and then to expire
      when that is as far away as it was when the client computed it. */
  lemma LockIsGrantedExactlyIf(s: State, config: LockConfiguration, value: string, now: Millis)
    ensures var s' := AfterLock(s, config, value, now);
      var granted := now < config.createdAt + config.lockAtMostFor && (s.entry.None? || s.entry.value.expireAt <= s.clock);
      if granted then
        && s'.handles == s.handles + [Handle(value, config, true)]
        && s'.entry == Some(Entry(value, s.clock + (config.createdAt + config.lockAtMostFor - now)))
      else s' == s
  {
  }

  // ---- Without `safeUpdate`

  /** An extension into the future leaves at most one believed hold, and every believed hold
      backed, exactly if no other handle holds the lock. */
  lemma UnsafeExtensionIsSafeExactlyIf(s: State, i: nat, config: LockConfiguration, now: Millis)
    requires Inv(s) && !s.safeUpdate && Enabled(s, Extend(i, config, now)) && LockAtMostUntil(config) > s.clock
    ensures AtMostOneHolds(AfterExtend(s, i, config, now)) <==> NoOtherHolds(s, i)
    ensures Backed(AfterExtend(s, i, config, now)) <==> NoOtherHolds(s, i)
  {
    var s' := AfterExtend(s, i, config, now);
    if NoOtherHolds(s, i) {
      ExtendKeepsInv(s, i, config, now);
      forall j: nat | Holds(s', j) && j < |s.handles| ensures Holds(s, j) {}
    } else {
      var j: nat :| Holds(s, j) && j != i;
      assert Holds(s', j) && Holds(s', |s.handles|);
      assert s'.handles[|s.handles|].value == s.handles[i].value != s.handles[j].value;
    }
  }

  /** An unlock leaves every other believed hold backed exactly if there is none. */
  lemma UnsafeUnlockIsSafeExactlyIf(s: State, i: nat, now: Millis)
    requires Inv(s) && !s.safeUpdate && Enabled(s, Unlock(i, now))
    ensures Backed(AfterUnlock(s, i, now)) <==> NoOtherHolds(s, i)
  {
    var s' := AfterUnlock(s, i, now);
    if NoOtherHolds(s, i) {
      UnlockKeepsInv(s, i, now);
    } else {
      var j: nat :| Holds(s, j) && j != i;
      assert Holds(s', j);
      assert s.handles[i].value != s.handles[j].value;
    }
  }

  /** The comparison that `safeUpdate` makes is enough to rule the other holds out. */
  lemma OwnKeyMeansNoOtherHolds(s: State, i: nat)
    requires Inv(s) && i < |s.handles| && s.handles[i].live
    requires Present(s.entry, s.clock).None? || s.entry.value.value == s.handles[i].value
    ensures NoOtherHolds(s, i)
  {
  }

  lemma {:induction false} RunAppends(s: State, steps: seq<Step>, step: Step, after: State)
    requires IsRun(s, steps) && Enabled(Run(s, steps), step) && Next(Run(s, steps), step) == after
    ensures IsRun(s, steps + [step]) && Run(s, steps + [step]) == after
    decreases |steps|
  {
    var all := steps + [step];
    if steps == [] {
      assert all[1..] == [];
    } else {
      assert all[1..] == steps[1..] + [step];
      RunAppends(Next(s, steps[0]), steps[1..], step, after);
    }
  }

  /** One lock lapses without an unlock and another is granted. */
  lemma SuccessorRun(name: string, a: string, b: string) returns (steps: seq<Step>)
    requires a != b
    ensures IsRun(Empty(false, 0.0), steps)
    ensures Run(Empty(false, 0.0), steps) ==
      State(false, 50.0, Some(Entry(b, 150.0)), 50.0, [Handle(a, Plan(name, 50.0, 0.0), true), Handle(b, Plan(name, 100.0, 50.0), true)])
  {
    var first, second := Plan(name, 50.0, 0.0), Plan(name, 100.0, 50.0);
    var s1 := State(false, 0.0, Some(Entry(a, 50.0)), 0.0, [Handle(a, first, true)]);
    var s2 := s1.(clock := 50.0);
    var s3 := State(false, 50.0, Some(Entry(b, 150.0)), 50.0, [Handle(a, first, true)] + [Handle(b, second, true)]);
    steps := [];
    RunAppends(Empty(false, 0.0), steps, Lock(first, a, 0.0), s1);
    steps := steps + [Lock(first, a, 0.0)];
    RunAppends(Empty(false, 0.0), steps, Advance(50.0), s2);
    steps := steps + [Advance(50.0)];
    RunAppends(Empty(false, 0.0), steps, Lock(second, b, 50.0), s3);
    steps := steps + [Lock(second, b, 50.0)];
  }

  /** Without `safeUpdate`, an expired holder's late extension overwrites its successor's key, and
      both believe they hold the lock. */
  lemma UnsafeUpdateBreaksExclusion(name: string, a: string, b: string) returns (steps: seq<Step>)
    requires a != b
    ensures IsRun(Empty(false, 0.0), steps)
    ensures var s := Run(Empty(false, 0.0), steps); Holds(s, 1) && Holds(s, 2) && s.handles[1].value != s.handles[2].value
  {
    steps := SuccessorRun(name, a, b);
    var s := Run(Empty(false, 0.0), steps);
    RunAppends(Empty(false, 0.0), steps, Extend(0, Plan(name, 100.0, 50.0), 50.0), AfterExtend(s, 0, Plan(name, 100.0, 50.0), 50.0));
    steps := steps + [Extend(0, Plan(name, 100.0, 50.0), 50.0)];
  }

  /** Without `safeUpdate`, an expired holder's late unlock deletes its successor's key; a third
      caller is granted the lock, and two believe they hold it. */
  lemma UnsafeUnlockBreaksExclusion(name: string, a: string, b: string, c: string) returns (steps: seq<Step>)
    requires a != b && a != c && b != c
    ensures IsRun(Empty(false, 0.0), steps)
    ensures var s := Run(Empty(false, 0.0), steps); Holds(s, 1) && Holds(s, 2) && s.handles[1].value != s.handles[2].value
  {
    steps := SuccessorRun(name, a, b);
    var s := Run(Empty(false, 0.0), steps);
    var released := AfterUnlock(s, 0, 50.0);
    RunAppends(Empty(false, 0.0), steps, Unlock(0, 50.0), released);
    steps := steps + [Unlock(0, 50.0)];
    RunAppends(Empty(false, 0.0), steps, Lock(Plan(name, 100.0, 50.0), c, 50.0), AfterLock(released, Plan(name, 100.0, 50.0), c, 50.0));
    steps := steps + [Lock(Plan(name, 100.0, 50.0), c, 50.0)];
  }
}

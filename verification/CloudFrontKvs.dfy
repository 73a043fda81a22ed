/** The optimistic lease over a key-value store with one ETag for the whole store.
    Other clients may write between any two calls of an operation. */
module CloudFrontKvs {
  import opened LockConfigurations
  import opened Lease

  /** An accepted change of one key; `None` deletes it. `mine` marks this client's puts. */
  datatype Write = Write(key: string, record: Option<Record>, mine: bool)

  /** What another client writes. */
  datatype Change = Change(key: string, record: Option<Record>)

  function Current(writes: seq<Write>, key: string): Option<Record> {
    if writes == [] then None
    else if writes[|writes| - 1].key == key then writes[|writes| - 1].record
    else Current(writes[..|writes| - 1], key)
  }

  /** Only others have written since there were `from` writes. */
  predicate OnlyOthers(writes: seq<Write>, from: nat) {
    forall i :: from <= i < |writes| ==> !writes[i].mine
  }

  /** The last write is this client's only one since `from`, and put `record`. */
  predicate WroteOnce(writes: seq<Write>, from: nat, key: string, record: Record) {
    && from < |writes|
    && writes[|writes| - 1] == Write(key, Some(record), true)
    && OnlyOthers(writes[..|writes| - 1], from)
  }

  /** The record replaced by the last write. */
  function Replaced(writes: seq<Write>, key: string): Option<Row>
    requires writes != []
  {
    Ownership(Current(writes[..|writes| - 1], key))
  }

  /** An ETag read no later than a record, and still current at the put, proves that the put
      replaces exactly the record read. */
  lemma EtagBeforeRecordSuffices(atEtag: seq<Write>, atRecord: seq<Write>, atPut: seq<Write>, key: string)
    requires atEtag <= atRecord <= atPut && |atEtag| == |atPut|
    ensures Current(atRecord, key) == Current(atPut, key)
  {
    assert atRecord == atPut;
  }

  /** Reading the record first does not: the put then goes through on a record that has
      become somebody else's live lock. */
  lemma EtagAfterRecordFails() returns (atRecord: seq<Write>, atEtag: seq<Write>, atPut: seq<Write>)
    ensures atRecord <= atEtag <= atPut && |atEtag| == |atPut|
    ensures TryAcquire(Ownership(Current(atRecord, "job")), LockConfiguration("job", 10.0, 0.0, 0.0), "me", 0.0).Some?
    ensures TryAcquire(Ownership(Current(atPut, "job")), LockConfiguration("job", 10.0, 0.0, 0.0), "me", 0.0).None?
  {
    atRecord := [];
    atEtag := [Write("job", Some(Record(5.0, 0.0, "other")), false)];
    atPut := atEtag;
  }

  /** `Date.parse` of the epoch is falsy, so such a record gets the caller's `createdAt`. */
  function KeptLockedAt(existing: Record, config: LockConfiguration): Millis {
    if existing.lockedAt == 0.0 then config.createdAt else existing.lockedAt
  }

  /** The last write keeps when the lock was taken, unless that was the epoch. */
  predicate KeepsLockedAt(writes: seq<Write>, key: string) {
    && writes != []
    && var before, after := Current(writes[..|writes| - 1], key), Current(writes, key);
       before.Some? && after.Some? && (before.value.lockedAt != 0.0 ==> after.value.lockedAt == before.value.lockedAt)
  }

  // ---- The store

  datatype PutOutcome = Stored | Conflict | PutFailed

  class KeyValueStore {
    var writes: seq<Write>

    constructor ()
      ensures writes == []
    {
      writes := [];
    }

    method OthersWrite(changes: seq<Change>)
      modifies this
      ensures old(writes) <= writes && |writes| == |old(writes)| + |changes|
      ensures OnlyOthers(writes, |old(writes)|)
    {
      for i := 0 to |changes|
        invariant old(writes) <= writes && |writes| == |old(writes)| + i
        invariant OnlyOthers(writes, |old(writes)|)
      {
        writes := writes + [Write(changes[i].key, changes[i].record, false)];
      }
    }

    method DescribeEtag(fault: bool) returns (etag: Result<nat>)
      ensures etag == if fault then Thrown("describe failed") else Returned(|writes|)
    {
      if fault { return Thrown("describe failed"); }
      return Returned(|writes|);
    }

    method GetRecord(key: string, fault: bool) returns (record: Result<Option<Record>>)
      ensures record == if fault then Thrown("get failed") else Returned(Current(writes, key))
    {
      if fault { return Thrown("get failed"); }
      return Returned(Current(writes, key));
    }

    method PutRecord(key: string, record: Record, etag: nat, fault: bool) returns (outcome: PutOutcome)
      modifies this
      ensures outcome.Stored? <==> !fault && etag == |old(writes)|
      ensures outcome.Conflict? <==> !fault && etag != |old(writes)|
      ensures writes == if outcome.Stored? then old(writes) + [Write(key, Some(record), true)] else old(writes)
    {
      if fault { return PutFailed; }
      if etag != |writes| { return Conflict; }
      writes := writes + [Write(key, Some(record), true)];
      return Stored;
    }
  }

  /** What happens around the calls of one attempt, and the clock it reads. */
  datatype Attempt = Attempt(
    beforeEtag: seq<Change>, etagFails: bool,
    beforeRecord: seq<Change>, recordFails: bool,
    beforePut: seq<Change>, putFails: bool,
    now: Millis, unlockNow: Millis)
  {
    predicate Fails() {
      etagFails || recordFails || putFails
    }

    /** Somebody writes between the ETag and the put. */
    predicate Disturbed() {
      beforeRecord != [] || beforePut != []
    }
  }

  class CloudFrontKvsLockProvider {
    const store: KeyValueStore
    const keyPrefix: string
    const hostname: string
    const maxEtagRetries: nat

    constructor (store: KeyValueStore, keyPrefix: string, hostname: string, maxEtagRetries: nat)
      ensures this.store == store && this.keyPrefix == keyPrefix
      ensures this.hostname == hostname && this.maxEtagRetries == maxEtagRetries
    {
      this.store, this.keyPrefix, this.hostname, this.maxEtagRetries := store, keyPrefix, hostname, maxEtagRetries;
    }

    function StorageKey(name: string): string {
      keyPrefix + name
    }

    /** The one write since `from` is an acquire of the lease on the record it replaced. */
    predicate AcquiredOnce(writes: seq<Write>, from: nat, key: string, config: LockConfiguration, now: Millis) {
      && WroteOnce(writes, from, key, Record(LockAtMostUntil(config), config.createdAt, hostname))
      && TryAcquire(Replaced(writes, key), config, hostname, now).Some?
    }

    /** The one write since `from` is `row`, a lease step on the record it replaced, and keeps
        when and by whom the lock was taken. */
    predicate SteppedOnce(writes: seq<Write>, from: nat, key: string, config: LockConfiguration, row: Option<Row>) {
      && from < |writes|
      && row.Some?
      && var before := Current(writes[..|writes| - 1], key);
         && before.Some?
         && before.value.lockedBy == hostname
         && WroteOnce(writes, from, key, Record(row.value.lockUntil, KeptLockedAt(before.value, config), hostname))
    }

    predicate UnlockedOnce(writes: seq<Write>, from: nat, key: string, config: LockConfiguration, now: Millis) {
      from < |writes| && SteppedOnce(writes, from, key, config,
        TryUnlock(Replaced(writes, key), config, hostname, UnlockTime(config, now)))
    }

    predicate ExtendedOnce(writes: seq<Write>, from: nat, key: string, config: LockConfiguration,
                           previous: Option<Millis>, now: Millis)
    {
      from < |writes| && SteppedOnce(writes, from, key, config,
        TryExtend(Replaced(writes, key), config, hostname, previous, now))
    }

    /** Reads the ETag and then the record of one attempt. */
    method Observe(key: string, a: Attempt) returns (seen: Result<(nat, Option<Record>)>, ghost atEtag: seq<Write>)
      modifies store
      ensures old(store.writes) <= store.writes && OnlyOthers(store.writes, |old(store.writes)|)
      ensures atEtag <= store.writes
      ensures seen.Thrown? <==> a.etagFails || a.recordFails
      ensures seen.Returned? ==>
        && seen.value.0 == |atEtag| == |store.writes| - |a.beforeRecord|
        && seen.value.1 == Current(store.writes, key)
    {
      store.OthersWrite(a.beforeEtag);
      atEtag := store.writes;
      var etag := store.DescribeEtag(a.etagFails);
      if etag.Thrown? { return Thrown(etag.message), atEtag; }
      store.OthersWrite(a.beforeRecord);
      var record := store.GetRecord(key, a.recordFails);
      if record.Thrown? { return Thrown(record.message), atEtag; }
      return Returned((etag.value, record.value)), atEtag;
    }

    /** The conditional put that ends an attempt, with the interference before it: if it goes
        through, it replaces the record that was read. */
    method TryPut(key: string, record: Record, etag: nat, a: Attempt, ghost atEtag: seq<Write>) returns (outcome: PutOutcome)
      requires atEtag <= store.writes && etag == |atEtag| == |store.writes| - |a.beforeRecord|
      modifies store
      ensures old(store.writes) <= store.writes
      ensures outcome.Stored? ==>
        && WroteOnce(store.writes, |old(store.writes)|, key, record)
        && Current(store.writes[..|store.writes| - 1], key) == Current(old(store.writes), key)
      ensures !outcome.Stored? ==> OnlyOthers(store.writes, |old(store.writes)|)
      ensures outcome.Conflict? ==> a.Disturbed()
      ensures outcome.PutFailed? ==> a.putFails
    {
      ghost var atRecord := store.writes;
      store.OthersWrite(a.beforePut);
      ghost var atPut := store.writes;
      outcome := store.PutRecord(key, record, etag, a.putFails);
      if outcome.Stored? {
        EtagBeforeRecordSuffices(atEtag, atRecord, atPut, key);
        assert store.writes[..|store.writes| - 1] == atPut;
      }
    }

    /** An acquire is one atomic step of the lease on the record it replaced; a lock call that
        does not acquire has written nothing, and had found the lock held or run out of attempts. */
    method Lock(config: LockConfiguration, world: nat -> Attempt) returns (r: Result<bool>, attempts: nat)
      modifies store
      ensures old(store.writes) <= store.writes
      ensures attempts <= maxEtagRetries
      ensures r.Thrown? ==> exists k :: 0 <= k < maxEtagRetries && world(k).Fails()
      ensures r == Returned(false) && attempts == maxEtagRetries ==> forall k :: 0 <= k < maxEtagRetries ==> world(k).Disturbed()
      ensures r == Returned(true) ==>
        && attempts > 0
        && AcquiredOnce(store.writes, |old(store.writes)|, StorageKey(config.name), config, world(attempts - 1).now)
      ensures r != Returned(true) ==> OnlyOthers(store.writes, |old(store.writes)|)
      ensures r == Returned(false) ==>
        || attempts == maxEtagRetries
        || TryAcquire(Ownership(Current(store.writes, StorageKey(config.name))), config, hostname, world(attempts).now).None?
    {
      var key := StorageKey(config.name);
      attempts := 0;
      while attempts < maxEtagRetries
        invariant attempts <= maxEtagRetries
        invariant forall k :: 0 <= k < attempts ==> world(k).Disturbed()
        invariant old(store.writes) <= store.writes && OnlyOthers(store.writes, |old(store.writes)|)
      {
        var a := world(attempts);
        var seen, atEtag := Observe(key, a);
        if seen.Thrown? { return Thrown(seen.message), attempts; }
        var (etag, existing) := seen.value;
        if existing.Some? && existing.value.lockUntil > a.now { return Returned(false), attempts; }
        var record := Record(LockAtMostUntil(config), config.createdAt, hostname);
        var outcome := TryPut(key, record, etag, a, atEtag);
        attempts := attempts + 1;
        match outcome
        case Stored => return Returned(true), attempts;
        case Conflict =>
        case PutFailed => return Thrown("put failed"), attempts;
      }
      return Returned(false), attempts;
    }

    /** Either writes nothing, or releases in one atomic step of the lease. */
    method Unlock(config: LockConfiguration, world: nat -> Attempt) returns (r: Result<bool>, attempts: nat)
      modifies store
      ensures old(store.writes) <= store.writes
      ensures attempts <= maxEtagRetries
      ensures r.Thrown? ==> exists k :: 0 <= k < maxEtagRetries && world(k).Fails()
      ensures r == Returned(false) && attempts == maxEtagRetries ==> forall k :: 0 <= k < maxEtagRetries ==> world(k).Disturbed()
      ensures r == Returned(true) ==>
        && attempts > 0
        && UnlockedOnce(store.writes, |old(store.writes)|, StorageKey(config.name), config, world(attempts - 1).unlockNow)
        && KeepsLockedAt(store.writes, StorageKey(config.name))
      ensures r != Returned(true) ==> OnlyOthers(store.writes, |old(store.writes)|)
      ensures r == Returned(false) ==>
        || attempts == maxEtagRetries
        || TryUnlock(Ownership(Current(store.writes, StorageKey(config.name))), config, hostname, 0.0).None?
    {
      var key := StorageKey(config.name);
      attempts := 0;
      while attempts < maxEtagRetries
        invariant attempts <= maxEtagRetries
        invariant forall k :: 0 <= k < attempts ==> world(k).Disturbed()
        invariant old(store.writes) <= store.writes && OnlyOthers(store.writes, |old(store.writes)|)
      {
        var a := world(attempts);
        var seen, atEtag := Observe(key, a);
        if seen.Thrown? { return Thrown(seen.message), attempts; }
        var (etag, existing) := seen.value;
        if existing.None? { return Returned(false), attempts; }
        if existing.value.lockedBy != hostname { return Returned(false), attempts; }
        if existing.value.lockUntil != LockAtMostUntil(config) { return Returned(false), attempts; }
        var record := Record(UnlockTime(config, a.unlockNow), KeptLockedAt(existing.value, config), existing.value.lockedBy);
        var outcome := TryPut(key, record, etag, a, atEtag);
        attempts := attempts + 1;
        match outcome
        case Stored => return Returned(true), attempts;
        case Conflict =>
        case PutFailed => return Thrown("put failed"), attempts;
      }
      return Returned(false), attempts;
    }

    /** Either writes nothing, or extends in one atomic step of the lease. */
    method Extend(config: LockConfiguration, previous: Option<Millis>, world: nat -> Attempt) returns (r: Result<bool>, attempts: nat)
      modifies store
      ensures old(store.writes) <= store.writes
      ensures attempts <= maxEtagRetries
      ensures r.Thrown? ==> exists k :: 0 <= k < maxEtagRetries && world(k).Fails()
      ensures r == Returned(false) && attempts == maxEtagRetries ==> forall k :: 0 <= k < maxEtagRetries ==> world(k).Disturbed()
      ensures r == Returned(true) ==>
        && attempts > 0
        && ExtendedOnce(store.writes, |old(store.writes)|, StorageKey(config.name), config, previous, world(attempts - 1).now)
        && KeepsLockedAt(store.writes, StorageKey(config.name))
      ensures r != Returned(true) ==> OnlyOthers(store.writes, |old(store.writes)|)
      ensures r == Returned(false) ==>
        || attempts == maxEtagRetries
        || TryExtend(Ownership(Current(store.writes, StorageKey(config.name))), config, hostname, previous, world(attempts).now).None?
    {
      var key := StorageKey(config.name);
      attempts := 0;
      while attempts < maxEtagRetries
        invariant attempts <= maxEtagRetries
        invariant forall k :: 0 <= k < attempts ==> world(k).Disturbed()
        invariant old(store.writes) <= store.writes && OnlyOthers(store.writes, |old(store.writes)|)
      {
        var a := world(attempts);
        var seen, atEtag := Observe(key, a);
        if seen.Thrown? { return Thrown(seen.message), attempts; }
        var (etag, existing) := seen.value;
        if existing.None? { return Returned(false), attempts; }
        if existing.value.lockedBy != hostname { return Returned(false), attempts; }
        if existing.value.lockUntil <= a.now { return Returned(false), attempts; }
        if previous.Some? && existing.value.lockUntil != previous.value { return Returned(false), attempts; }
        var record := Record(LockAtMostUntil(config), KeptLockedAt(existing.value, config), hostname);
        var outcome := TryPut(key, record, etag, a, atEtag);
        attempts := attempts + 1;
        match outcome
        case Stored => return Returned(true), attempts;
        case Conflict =>
        case PutFailed => return Thrown("put failed"), attempts;
      }
      return Returned(false), attempts;
    }
  }
}

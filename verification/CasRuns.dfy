/** Every run of many clients over one compare-and-set store, call by call: reading a version,
    reading the record, and the conditional put, with anybody's calls in between. */
module CasRuns {
  import opened LockConfigurations
  import Lease
  import opened LeaseView
  import CloudFrontKvs
  import ObjectStores

  /** A whole key-value store and the lock's key in it, or the object of one lock. */
  datatype Store =
    | Kvs(key: string, writes: seq<CloudFrontKvs.Write>)
    | Object(scheme: ObjectStores.Scheme, log: seq<ObjectStores.Event>)

  datatype Version = Etag(writes: nat) | Token(token: ObjectStores.Token)

  function RecordOf(store: Store): Option<Lease.Record> {
    match store
    case Kvs(key, writes) => CloudFrontKvs.Current(writes, key)
    case Object(_, log) => ObjectStores.Current(log)
  }

  function RowOf(store: Store): Option<Lease.Row> {
    Lease.Ownership(RecordOf(store))
  }

  /** The condition of a put. A missing object has the token that only a missing object has. */
  function VersionOf(store: Store): Version {
    match store
    case Kvs(_, writes) => Etag(|writes|)
    case Object(scheme, log) => Token(ObjectStores.TokenOf(scheme, log))
  }

  /** `later` is what has become of `store`. */
  predicate Grown(store: Store, later: Store) {
    match store
    case Kvs(key, writes) => later.Kvs? && later.key == key && writes <= later.writes
    case Object(scheme, log) => later.Object? && later.scheme == scheme && log <= later.log
  }

  predicate Plausible(store: Store) {
    store.Object? ==> ObjectStores.Plausible(store.scheme, store.log)
  }

  /** A version read no later than the record, and at once with it on an object, that still matches
      at the put proves that the put replaces the record that was read. */
  lemma MatchingVersionMeansSameRecord(atVersion: Store, atRecord: Store, atPut: Store)
    requires Grown(atVersion, atRecord) && Grown(atRecord, atPut) && Plausible(atRecord) && Plausible(atPut)
    requires atRecord.Object? ==> atVersion == atRecord
    requires VersionOf(atVersion) == VersionOf(atPut)
    ensures RecordOf(atRecord) == RecordOf(atPut)
  {
    match atRecord
    case Kvs(key, writes) => CloudFrontKvs.EtagBeforeRecordSuffices(atVersion.writes, writes, atPut.writes, key);
    case Object(scheme, log) => ObjectStores.MatchingTokenMeansSameRecord(scheme, log, atPut.log);
  }

  /** The store after a put; on GCS an existing object may be patched instead of saved, and `skip`
      is how far the server's generation counter moves on. */
  function Put(store: Store, record: Lease.Record, patch: bool, skip: nat): Store {
    match store
    case Kvs(key, writes) => Kvs(key, writes + [CloudFrontKvs.Write(key, Some(record), true)])
    case Object(scheme, log) =>
      if patch && scheme.Gcs? && log != [] then Object(scheme, log + [ObjectStores.Patch(record, true)])
      else Object(scheme, log + [ObjectStores.Save(ObjectStores.Generation(log) + 1 + skip, record,
                                                   if scheme.S3? then Some(record) else None, true)])
  }

  lemma PutStores(store: Store, record: Lease.Record, patch: bool, skip: nat)
    requires Plausible(store)
    ensures var after := Put(store, record, patch, skip);
      RecordOf(after) == Some(record) && Grown(store, after) && Plausible(after)
  {
    var after := Put(store, record, patch, skip);
    if store.Object? { assert after.log[..|after.log| - 1] == store.log; }
  }

  // ---- The clients

  datatype Operation =
    | Lock(config: LockConfiguration, host: string)
    | Extend(lock: nat, config: LockConfiguration)
    | Unlock(lock: nat)

  /** One attempt of an operation: the store when its version was read, and when its record was. */
  datatype Attempt = Attempt(op: Operation, atVersion: Store, atRecord: Option<Store>)

  datatype System = System(clock: Millis, store: Store, locks: seq<LockObject<()>>, attempts: map<nat, Attempt>)

  datatype Step =
    | Pass(to: Millis)
    | Elsewhere(write: CloudFrontKvs.Write)      // a write for another lock in the same key-value store
    | ReadVersion(id: nat, op: Operation)        // also the start of every retry
    | ReadRecord(id: nat)
    | TryPut(id: nat, now: Millis, patch: bool, skip: nat)

  /** One caller at a time uses a lock object, as long as it is usable. */
  predicate Usable(op: Operation, locks: seq<LockObject<()>>) {
    op.Extend? || op.Unlock? ==> op.lock < |locks| && locks[op.lock].valid
  }

  predicate Enabled(s: System, step: Step) {
    match step
    case Pass(to) => s.clock <= to
    case Elsewhere(w) => s.store.Kvs? && w.key != s.store.key
    case ReadVersion(_, op) => Usable(op, s.locks)
    case ReadRecord(id) => id in s.attempts
    case TryPut(id, now, _, _) =>
      id in s.attempts && s.attempts[id].atRecord.Some? && Usable(s.attempts[id].op, s.locks) && now <= s.clock
  }

  /** What an operation makes of the record it has read, with the clock at `now`: the row to put. */
  function Decide(op: Operation, locks: seq<LockObject<()>>, row: Option<Lease.Row>, now: Millis): Option<Lease.Row>
    requires Usable(op, locks)
  {
    match op
    case Lock(config, host) => Lease.TryAcquire(row, config, host, now)
    case Extend(i, config) => Lease.TryExtend(row, config, locks[i].host, Some(LockAtMostUntil(locks[i].config)), now)
    case Unlock(i) => Lease.TryUnlock(row, locks[i].config, locks[i].host, UnlockTime(locks[i].config, now))
  }

  /** The lock objects once an operation has put its record. */
  function Granted(op: Operation, locks: seq<LockObject<()>>): seq<LockObject<()>>
    requires Usable(op, locks)
  {
    match op
    case Lock(config, host) => locks + [LockObject(config, host, true, ())]
    case Extend(i, config) => locks[i := locks[i].(valid := false)] + [locks[i].(config := config)]
    case Unlock(i) => locks[i := locks[i].(valid := false)]
  }

  /** When the lock was taken: an acquire sets it, any other put keeps it. */
  function LockedAt(op: Operation, locks: seq<LockObject<()>>, store: Store, seen: Option<Lease.Record>): Millis
    requires Usable(op, locks)
  {
    match op
    case Lock(config, _) => config.createdAt
    case Extend(_, config) => KeptLockedAt(store, seen, config)
    case Unlock(i) => KeptLockedAt(store, seen, locks[i].config)
  }

  function KeptLockedAt(store: Store, seen: Option<Lease.Record>, config: LockConfiguration): Millis {
    if seen.None? then config.createdAt
    else if store.Kvs? then CloudFrontKvs.KeptLockedAt(seen.value, config)
    else seen.value.lockedAt
  }

  /** The record an attempt would put. */
  function NewRecord(s: System, a: Attempt, row: Lease.Row): Lease.Record
    requires Usable(a.op, s.locks) && a.atRecord.Some?
  {
    Lease.Record(row.lockUntil, LockedAt(a.op, s.locks, s.store, RecordOf(a.atRecord.value)), row.lockedBy)
  }

  /** A put that goes through. A refused attempt, or one that meets a conflict, writes nothing; it
      may be tried again. (An unlock that gives up uses its lock object up; leaving that usable only
      allows more.) */
  function AfterPut(s: System, id: nat, now: Millis, patch: bool, skip: nat): System
    requires Enabled(s, TryPut(id, now, patch, skip))
  {
    var a := s.attempts[id];
    var rest := s.(attempts := s.attempts - {id});
    var row := Decide(a.op, s.locks, RowOf(a.atRecord.value), now);
    if row.None? || VersionOf(a.atVersion) != VersionOf(s.store) then rest
    else rest.(store := Put(s.store, NewRecord(s, a, row.value), patch, skip), locks := Granted(a.op, s.locks))
  }

  function Next(s: System, step: Step): System
    requires Enabled(s, step)
  {
    match step
    case Pass(to) => s.(clock := to)
    case Elsewhere(w) => s.(store := Kvs(s.store.key, s.store.writes + [w]))
    case ReadVersion(id, op) => s.(attempts := s.attempts[id := Attempt(op, s.store, None)])
    case ReadRecord(id) =>
      // An object's version and record come in one answer.
      var a := s.attempts[id];
      s.(attempts := s.attempts[id := a.(atRecord := Some(s.store), atVersion := if s.store.Object? then s.store else a.atVersion)])
    case TryPut(id, now, patch, skip) => AfterPut(s, id, now, patch, skip)
  }

  predicate IsRun(s: System, steps: seq<Step>)
    decreases |steps|
  {
    steps == [] || (Enabled(s, steps[0]) && IsRun(Next(s, steps[0]), steps[1..]))
  }

  function Run(s: System, steps: seq<Step>): System
    requires IsRun(s, steps)
    decreases |steps|
  {
    if steps == [] then s else Run(Next(s, steps[0]), steps[1..])
  }

  // ---- The lease behind the store

  /** What an attempt has read is a past of the store. */
  ghost predicate AttemptFits(store: Store, a: Attempt) {
    && Grown(a.atVersion, store)
    && (a.atRecord.Some? ==>
          && Plausible(a.atRecord.value) && Grown(a.atVersion, a.atRecord.value) && Grown(a.atRecord.value, store)
          && (store.Object? ==> a.atVersion == a.atRecord.value))
  }

  ghost predicate Matches(s: System, lease: Lease.State) {
    && Plausible(s.store)
    && (forall id <- s.attempts :: AttemptFits(s.store, s.attempts[id]))
    && Shows(s.clock, RowOf(s.store), s.locks, lease)
  }

  /** The step of the lease that an operation takes when its put goes through. */
  function OperationStep(op: Operation, now: Millis): Lease.Step {
    match op
    case Lock(config, host) => Lease.Acquire(config, host, now, false)
    case Extend(i, config) => Lease.Extend(i, config, now)
    case Unlock(i) => Lease.Unlock(i, Lease.ClientTime, now)
  }

  /** The step of the lease that a step takes: a put that goes through, and the passing of time. */
  function LeaseStep(s: System, step: Step): Option<Lease.Step>
    requires Enabled(s, step)
  {
    match step
    case Pass(to) => Some(Lease.Advance(to))
    case TryPut(id, now, _, _) =>
      var a := s.attempts[id];
      if Decide(a.op, s.locks, RowOf(a.atRecord.value), now).None? || VersionOf(a.atVersion) != VersionOf(s.store) then None
      else Some(OperationStep(a.op, now))
    case _ => None
  }

  /** Attempts still fit when the store has grown. */
  lemma AttemptsStillFit(before: Store, after: Store, attempts: map<nat, Attempt>)
    requires Grown(before, after) && forall id <- attempts :: AttemptFits(before, attempts[id])
    ensures forall id <- attempts :: AttemptFits(after, attempts[id])
  {
  }

  lemma OperationShows(clock: Millis, row: Option<Lease.Row>, locks: seq<LockObject<()>>, lease: Lease.State, op: Operation, now: Millis)
    requires Shows(clock, row, locks, lease) && Usable(op, locks) && now <= clock && Decide(op, locks, row, now).Some?
    ensures var step := OperationStep(op, now);
      Lease.Enabled(lease, step) && Shows(clock, Decide(op, locks, row, now), Granted(op, locks), Lease.Next(lease, step))
  {
    match op
    case Lock(config, host) => AcquireShows(clock, row, locks, lease, config, host, now, ());
    case Extend(i, config) => ExtendShows(clock, row, locks, lease, i, config, now);
    case Unlock(i) => UnlockShows(clock, row, locks, lease, i, Lease.ClientTime, now);
  }

  /** A put that goes through, spelled out. */
  lemma PutPlaces(s: System, lease: Lease.State, id: nat, now: Millis, patch: bool, skip: nat)
    requires Matches(s, lease) && Enabled(s, TryPut(id, now, patch, skip))
    requires LeaseStep(s, TryPut(id, now, patch, skip)).Some?
    ensures var a, row := s.attempts[id], Decide(s.attempts[id].op, s.locks, RowOf(s.store), now);
      && row.Some?
      && AfterPut(s, id, now, patch, skip) ==
           System(s.clock, Put(s.store, NewRecord(s, a, row.value), patch, skip), Granted(a.op, s.locks), s.attempts - {id})
  {
    var a := s.attempts[id];
    assert AttemptFits(s.store, a);
    MatchingVersionMeansSameRecord(a.atVersion, a.atRecord.value, s.store);
  }

  lemma PutMatches(s: System, lease: Lease.State, id: nat, now: Millis, patch: bool, skip: nat)
    requires Matches(s, lease) && Enabled(s, TryPut(id, now, patch, skip))
    requires LeaseStep(s, TryPut(id, now, patch, skip)).Some?
    ensures var step := OperationStep(s.attempts[id].op, now);
      Lease.Enabled(lease, step) && Matches(AfterPut(s, id, now, patch, skip), Lease.Next(lease, step))
  {
    PutPlaces(s, lease, id, now, patch, skip);
    var a, row := s.attempts[id], Decide(s.attempts[id].op, s.locks, RowOf(s.store), now);
    OperationShows(s.clock, RowOf(s.store), s.locks, lease, a.op, now);
    StoredMatches(s, Lease.Next(lease, OperationStep(a.op, now)), NewRecord(s, a, row.value), patch, skip, Granted(a.op, s.locks), id);
  }

  /** The system once a record has been put, if the lease shows that record. */
  lemma StoredMatches(s: System, lease: Lease.State, record: Lease.Record, patch: bool, skip: nat, locks: seq<LockObject<()>>, id: nat)
    requires Plausible(s.store) && forall i <- s.attempts :: AttemptFits(s.store, s.attempts[i])
    requires Shows(s.clock, Lease.Ownership(Some(record)), locks, lease)
    ensures Matches(System(s.clock, Put(s.store, record, patch, skip), locks, s.attempts - {id}), lease)
  {
    PutStores(s.store, record, patch, skip);
    AttemptsStillFit(s.store, Put(s.store, record, patch, skip), s.attempts - {id});
  }

  lemma ElsewhereMatches(s: System, lease: Lease.State, w: CloudFrontKvs.Write)
    requires Matches(s, lease) && Enabled(s, Elsewhere(w))
    ensures Matches(Next(s, Elsewhere(w)), lease)
  {
    var after := Next(s, Elsewhere(w)).store;
    assert after.writes[..|after.writes| - 1] == s.store.writes;
    AttemptsStillFit(s.store, after, s.attempts);
  }

  lemma ReadMatches(s: System, lease: Lease.State, id: nat, a: Attempt)
    requires Matches(s, lease) && AttemptFits(s.store, a)
    ensures Matches(s.(attempts := s.attempts[id := a]), lease)
  {
  }

  lemma StepIsLeaseStep(s: System, lease: Lease.State, step: Step)
    requires Matches(s, lease) && Enabled(s, step)
    ensures match LeaseStep(s, step)
      case None => Matches(Next(s, step), lease)
      case Some(l) => Lease.Enabled(lease, l) && Matches(Next(s, step), Lease.Next(lease, l))
  {
    match step
    case Pass(to) => AdvanceShows(s.clock, RowOf(s.store), s.locks, lease, to);
    case Elsewhere(w) => ElsewhereMatches(s, lease, w);
    case ReadVersion(id, op) => ReadMatches(s, lease, id, Attempt(op, s.store, None));
    case ReadRecord(id) => ReadMatches(s, lease, id, Next(s, step).attempts[id]);
    case TryPut(id, now, patch, skip) =>
      if LeaseStep(s, step).Some? { PutMatches(s, lease, id, now, patch, skip); }
  }

  /** Every run of the clients, call by call, is a run of the lease. */
  lemma {:induction false} RunsRefineLease(s: System, lease: Lease.State, steps: seq<Step>) returns (taken: seq<Lease.Step>)
    requires Matches(s, lease) && IsRun(s, steps)
    ensures Lease.IsRun(lease, taken)
    ensures Matches(Run(s, steps), Lease.Run(lease, taken))
    decreases |steps|
  {
    if steps == [] {
      taken := [];
    } else {
      StepIsLeaseStep(s, lease, steps[0]);
      match LeaseStep(s, steps[0])
      case None => taken := RunsRefineLease(Next(s, steps[0]), lease, steps[1..]);
      case Some(step) =>
        var rest := RunsRefineLease(Next(s, steps[0]), Lease.Next(lease, step), steps[1..]);
        taken := [step] + rest;
        assert taken[1..] == rest;
    }
  }

  /** An attempt goes through exactly if its version still matches and its operation is allowed on
      the record in the store; what it stores then, and that only an acquire changes when the lock
      was taken. */
  lemma PutGoesThroughExactlyIf(s: System, lease: Lease.State, id: nat, now: Millis, patch: bool, skip: nat)
    requires Matches(s, lease) && Enabled(s, TryPut(id, now, patch, skip))
    ensures var a, after, row := s.attempts[id], AfterPut(s, id, now, patch, skip), RowOf(s.store);
      var allowed := match a.op
                     case Lock(_, _) => row.None? || row.value.lockUntil <= now
                     case Extend(i, _) => row == Some(Lease.Row(LockAtMostUntil(s.locks[i].config), s.locks[i].host)) && row.value.lockUntil > now
                     case Unlock(i) => row == Some(Lease.Row(LockAtMostUntil(s.locks[i].config), s.locks[i].host));
      if VersionOf(a.atVersion) == VersionOf(s.store) && allowed then
        && RecordOf(after.store).Some?
        && RecordOf(after.store).value.lockUntil ==
             (match a.op
              case Lock(config, _) => config.createdAt + config.lockAtMostFor
              case Extend(_, config) => config.createdAt + config.lockAtMostFor
              case Unlock(i) =>
                var least := s.locks[i].config.createdAt + s.locks[i].config.lockAtLeastFor;
                if now < least then least else now)
        && (match a.op
            case Lock(config, host) => RecordOf(after.store).value == Lease.Record(config.createdAt + config.lockAtMostFor, config.createdAt, host)
            case _ => RecordOf(s.store).value.lockedAt != 0.0 || s.store.Object? ==>
                        RecordOf(after.store).value.lockedAt == RecordOf(s.store).value.lockedAt)
        && after.locks == Granted(a.op, s.locks)
      else after.store == s.store && after.locks == s.locks
  {
    var a := s.attempts[id];
    assert AttemptFits(s.store, a);
    if VersionOf(a.atVersion) == VersionOf(s.store) {
      MatchingVersionMeansSameRecord(a.atVersion, a.atRecord.value, s.store);
      var row := Decide(a.op, s.locks, RowOf(s.store), now);
      if row.Some? { PutStores(s.store, NewRecord(s, a, row.value), patch, skip); }
    }
  }

  /** In every run, whoever holds the lock stays in control of it: an undisturbed attempt of its
      extension or of its unlock goes through. */
  lemma HolderStaysInControl(clock: Millis, store: Store, steps: seq<Step>, i: nat, id: nat, now: Millis, patch: bool, skip: nat)
    requires Plausible(store) && IsRun(System(clock, store, [], map[]), steps)
    requires var end := Run(System(clock, store, [], map[]), steps);
      && Holds(end.clock, end.locks, i)
      && Enabled(end, TryPut(id, now, patch, skip))
      && (end.attempts[id].op == Unlock(i) || (end.attempts[id].op.Extend? && end.attempts[id].op.lock == i))
      && VersionOf(end.attempts[id].atVersion) == VersionOf(end.store)
    ensures var end := Run(System(clock, store, [], map[]), steps);
      AfterPut(end, id, now, patch, skip).locks == Granted(end.attempts[id].op, end.locks)
  {
    var s := System(clock, store, [], map[]);
    InitialShows(clock, RowOf(store), s.locks);
    var taken := RunsRefineLease(s, Initial(clock, RowOf(store)), steps);
    PutGoesThroughExactlyIf(Run(s, steps), Lease.Run(Initial(clock, RowOf(store)), taken), id, now, patch, skip);
  }

  /** Whatever is stored at the start, and however the clients' calls interleave: at most one usable
      lock object has a deadline in the future, and then the stored deadline is no earlier. */
  lemma MutualExclusion(clock: Millis, store: Store, steps: seq<Step>, i: nat, j: nat)
    requires Plausible(store) && IsRun(System(clock, store, [], map[]), steps)
    requires var end := Run(System(clock, store, [], map[]), steps); Holds(end.clock, end.locks, i) && Holds(end.clock, end.locks, j)
    ensures i == j
    ensures var end := Run(System(clock, store, [], map[]), steps);
      RecordOf(end.store).Some? && RecordOf(end.store).value.lockUntil >= LockAtMostUntil(end.locks[i].config)
  {
    var s := System(clock, store, [], map[]);
    var start, end := Initial(clock, RowOf(store)), Run(s, steps);
    InitialShows(clock, RowOf(store), s.locks);
    var taken := RunsRefineLease(s, start, steps);
    AtMostOneHolds(end.clock, RowOf(end.store), end.locks, Lease.Run(start, taken), i, j);
  }

  /** And then no put of a lock call goes through, whatever it has read and whenever. */
  lemma HolderShutsOutLockCalls(clock: Millis, store: Store, steps: seq<Step>, i: nat, id: nat, now: Millis, patch: bool, skip: nat)
    requires Plausible(store) && IsRun(System(clock, store, [], map[]), steps)
    requires var end := Run(System(clock, store, [], map[]), steps);
      && Holds(end.clock, end.locks, i)
      && Enabled(end, TryPut(id, now, patch, skip)) && end.attempts[id].op.Lock?
    ensures var end := Run(System(clock, store, [], map[]), steps);
      var after := AfterPut(end, id, now, patch, skip);
      after.store == end.store && after.locks == end.locks
  {
    var s := System(clock, store, [], map[]);
    var end := Run(s, steps);
    MutualExclusion(clock, store, steps, i, i);
    InitialShows(clock, RowOf(store), s.locks);
    var taken := RunsRefineLease(s, Initial(clock, RowOf(store)), steps);
    var a := end.attempts[id];
    if VersionOf(a.atVersion) == VersionOf(end.store) {
      MatchingVersionMeansSameRecord(a.atVersion, a.atRecord.value, end.store);
    }
  }
}

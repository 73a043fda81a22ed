/** The SQL row, the four statements on it, and the lock objects over a storage accessor. */
module Storage {
  import opened LockConfigurations
  import opened Lease

  type Rows = map<string, Record>

  datatype Statement = INSERT | UPDATE | EXTEND | UNLOCK

  /** The values bound to a statement's placeholders. A server-time source binds no `now`. */
  datatype Params = Params(
    name: string,
    lockUntil: Millis,
    now: Option<Millis>,
    lockedBy: string,
    unlockTime: Millis,
    previousLockUntil: Option<Millis>)

  datatype Source = ClientTimeSource | ServerTimeSource

  function RuleOf(source: Source): UnlockRule {
    match source case ClientTimeSource => ClientTime case ServerTimeSource => ServerTime
  }

  /** `clock` is read here, before the statement is sent. */
  function Bind(source: Source, lockedBy: string, config: LockConfiguration, previous: Option<Millis>, clock: Millis): Params {
    match source
    case ClientTimeSource =>
      Params(config.name, LockAtMostUntil(config), Some(clock), lockedBy, UnlockTime(config, clock), previous)
    case ServerTimeSource =>
      Params(config.name, LockAtMostUntil(config), None, lockedBy, Max(LockAtLeastUntil(config), config.createdAt), previous)
  }

  /** Runs one statement when the database clock reads `serverNow`; returns the rows and
      the number of rows affected. */
  function Execute(statement: Statement, rows: Rows, p: Params, serverNow: Millis): (Rows, nat) {
    var now := if p.now.Some? then p.now.value else serverNow;
    if statement.INSERT? then
      if p.name in rows then (rows, 0) else (rows[p.name := Record(p.lockUntil, now, p.lockedBy)], 1)
    else if p.name !in rows then (rows, 0)
    else
      var row := rows[p.name];
      match statement
      case UPDATE =>
        if row.lockUntil <= now then (rows[p.name := Record(p.lockUntil, now, p.lockedBy)], 1) else (rows, 0)
      case EXTEND =>
        if row.lockedBy == p.lockedBy && row.lockUntil > now && Some(row.lockUntil) == p.previousLockUntil
        then (rows[p.name := row.(lockUntil := p.lockUntil)], 1) else (rows, 0)
      case UNLOCK =>
        if row.lockedBy == p.lockedBy && row.lockUntil == p.lockUntil
        then (rows[p.name := row.(lockUntil := p.unlockTime)], 1) else (rows, 0)
      case INSERT => (rows, 0)
  }

  // ---- The rows as the abstract lease sees them

  function LeaseRow(rows: Rows, name: string): Option<Row> {
    Ownership(if name in rows then Some(rows[name]) else None)
  }

  /** The moment a source's guards compare against. */
  function GuardTime(source: Source, clock: Millis, serverNow: Millis): Millis {
    match source case ClientTimeSource => clock case ServerTimeSource => serverNow
  }

  /** `rows'` differs from `rows` only in that `name` now holds `row`, if there is one. */
  ghost predicate Wrote(rows: Rows, rows': Rows, name: string, row: Option<Row>) {
    && (forall n :: n != name ==> (n in rows <==> n in rows') && (n in rows ==> rows'[n] == rows[n]))
    && LeaseRow(rows', name) == if row.Some? then row else LeaseRow(rows, name)
  }

  /** An insert or update that affects a row is an acquire of the lease, guarded at the time
      the source reads; a lock call that affects none met a row that refuses the acquire. */
  lemma InsertThenUpdateIsAcquire(source: Source, host: string, config: LockConfiguration, rows: Rows, clock: Millis, serverNow: Millis)
    ensures var p := Bind(source, host, config, None, clock);
      var now := GuardTime(source, clock, serverNow);
      var (inserted, n) := Execute(INSERT, rows, p, serverNow);
      var (after, m) := if n > 0 then (inserted, n) else Execute(UPDATE, inserted, p, serverNow);
      var row := TryAcquire(LeaseRow(rows, config.name), config, host, now);
      (m > 0 <==> row.Some?) && Wrote(rows, after, config.name, row)
  {
  }

  lemma ExtendIsLeaseExtend(source: Source, host: string, config: LockConfiguration, previous: Millis, rows: Rows, clock: Millis, serverNow: Millis)
    ensures var p := Bind(source, host, config, Some(previous), clock);
      var (after, n) := Execute(EXTEND, rows, p, serverNow);
      var row := TryExtend(LeaseRow(rows, config.name), config, host, Some(previous), GuardTime(source, clock, serverNow));
      && (n > 0 <==> row.Some?)
      && Wrote(rows, after, config.name, row)
      && (n > 0 ==> after[config.name].lockedAt == rows[config.name].lockedAt)
  {
  }

  lemma UnlockIsLeaseUnlock(source: Source, host: string, config: LockConfiguration, rows: Rows, clock: Millis, serverNow: Millis)
    ensures var (after, n) := Execute(UNLOCK, rows, Bind(source, host, config, None, clock), serverNow);
      var row := TryUnlock(LeaseRow(rows, config.name), config, host, UnlockDeadline(RuleOf(source), config, clock));
      && Wrote(rows, after, config.name, row)
      && (row.Some? ==> after[config.name].lockedAt == rows[config.name].lockedAt)
  {
  }

  // ---- The accessor and the lock object

  /** A table reached through a connection that may fail before a statement takes effect. */
  class SqlStorageAccessor {
    const source: Source
    const lockedBy: string
    var rows: Rows

    constructor (source: Source, lockedBy: string)
      ensures this.source == source && this.lockedBy == lockedBy && rows == map[]
    {
      this.source, this.lockedBy, rows := source, lockedBy, map[];
    }

    /** `fault` decides whether the connection fails. */
    method Query(statement: Statement, p: Params, serverNow: Millis, fault: bool) returns (affected: Result<nat>)
      modifies this
      ensures fault ==> affected.Thrown? && rows == old(rows)
      ensures !fault ==> affected.Returned? && (rows, affected.value) == Execute(statement, old(rows), p, serverNow)
    {
      if fault { return Thrown("connection failed"); }
      var (after, n) := Execute(statement, rows, p, serverNow);
      rows := after;
      return Returned(n);
    }

    method InsertRecord(config: LockConfiguration, clock: Millis, serverNow: Millis, fault: bool) returns (r: Result<bool>)
      modifies this
      ensures fault ==> r.Thrown? && rows == old(rows)
      ensures !fault ==> r == Returned(config.name !in old(rows))
      ensures !fault ==> rows == Execute(INSERT, old(rows), Bind(source, lockedBy, config, None, clock), serverNow).0
    {
      var affected := Query(INSERT, Bind(source, lockedBy, config, None, clock), serverNow, fault);
      if affected.Thrown? { return Thrown(affected.message); }
      return Returned(affected.value > 0);
    }

    method UpdateRecord(config: LockConfiguration, clock: Millis, serverNow: Millis, fault: bool) returns (r: Result<bool>)
      modifies this
      ensures fault ==> r.Thrown? && rows == old(rows)
      ensures !fault ==> r == Returned(config.name in old(rows) && old(rows)[config.name].lockUntil <= GuardTime(source, clock, serverNow))
      ensures !fault ==> rows == Execute(UPDATE, old(rows), Bind(source, lockedBy, config, None, clock), serverNow).0
    {
      var affected := Query(UPDATE, Bind(source, lockedBy, config, None, clock), serverNow, fault);
      if affected.Thrown? { return Thrown(affected.message); }
      return Returned(affected.value > 0);
    }

    method Unlock(config: LockConfiguration, clock: Millis, serverNow: Millis, fault: bool) returns (r: Result<()>)
      modifies this
      ensures r.Thrown? == fault
      ensures fault ==> rows == old(rows)
      ensures !fault ==> Wrote(old(rows), rows, config.name,
        TryUnlock(LeaseRow(old(rows), config.name), config, lockedBy, UnlockDeadline(RuleOf(source), config, clock)))
    {
      var affected := Query(UNLOCK, Bind(source, lockedBy, config, None, clock), serverNow, fault);
      if affected.Thrown? { return Thrown(affected.message); }
      return Returned(());
    }

    method Extend(config: LockConfiguration, previous: Option<Millis>, clock: Millis, serverNow: Millis, fault: bool) returns (r: Result<bool>)
      modifies this
      ensures previous.None? ==> r == Returned(false) && rows == old(rows)
      ensures previous.Some? && fault ==> r.Thrown? && rows == old(rows)
      ensures previous.Some? && !fault ==>
        var row := TryExtend(LeaseRow(old(rows), config.name), config, lockedBy, previous, GuardTime(source, clock, serverNow));
        r == Returned(row.Some?) && Wrote(old(rows), rows, config.name, row)
    {
      if previous.None? { return Returned(false); }
      var affected := Query(EXTEND, Bind(source, lockedBy, config, previous, clock), serverNow, fault);
      if affected.Thrown? { return Thrown(affected.message); }
      return Returned(affected.value > 0);
    }
  }

  class StorageLock {
    const config: LockConfiguration
    const accessor: SqlStorageAccessor
    var valid: bool

    constructor (config: LockConfiguration, accessor: SqlStorageAccessor)
      ensures this.config == config && this.accessor == accessor && valid
    {
      this.config, this.accessor, valid := config, accessor, true;
    }

    /** An unlock that throws leaves the lock object usable. */
    method Unlock(clock: Millis, serverNow: Millis, fault: bool) returns (r: Result<()>)
      modifies this`valid, accessor
      ensures !old(valid) ==> r == Thrown(ALREADY_USED)
      ensures valid == (old(valid) && fault)
      ensures !old(valid) || fault ==> r.Thrown? && accessor.rows == old(accessor.rows)
      ensures old(valid) && !fault ==> r.Returned? && Wrote(old(accessor.rows), accessor.rows, config.name,
        TryUnlock(LeaseRow(old(accessor.rows), config.name), config, accessor.lockedBy, UnlockDeadline(RuleOf(accessor.source), config, clock)))
    {
      if !valid { return Thrown(ALREADY_USED); }
      r := accessor.Unlock(config, clock, serverNow, fault);
      if r.Returned? { valid := false; }
    }

    /** Passes its own deadline as the previous one, which is what fences it. */
    method Extend(lockAtMostFor: Millis, lockAtLeastFor: Millis, createdAt: Millis, clock: Millis, serverNow: Millis, fault: bool)
      returns (r: Result<StorageLock?>)
      modifies this`valid, accessor
      ensures !old(valid) ==> r == Thrown(ALREADY_USED)
      ensures !old(valid) || fault ==> r.Thrown? && valid == old(valid) && accessor.rows == old(accessor.rows)
      ensures old(valid) && !fault ==>
        var newConfig := LockConfiguration(config.name, lockAtMostFor, lockAtLeastFor, createdAt);
        var row := TryExtend(LeaseRow(old(accessor.rows), config.name), newConfig, accessor.lockedBy,
                             Some(LockAtMostUntil(config)), GuardTime(accessor.source, clock, serverNow));
        && r.Returned? && Wrote(old(accessor.rows), accessor.rows, config.name, row)
        && (r.value == null) == row.None? == valid
        && (r.value != null ==> fresh(r.value) && r.value.valid && r.value.config == newConfig && r.value.accessor == accessor)
    {
      if !valid { return Thrown(ALREADY_USED); }
      var newConfig := LockConfiguration(config.name, lockAtMostFor, lockAtLeastFor, createdAt);
      var ok := accessor.Extend(newConfig, Some(LockAtMostUntil(config)), clock, serverNow, fault);
      if ok.Thrown? { return Thrown(ok.message); }
      if !ok.value { return Returned(null); }
      var lock := new StorageLock(newConfig, accessor);
      valid := false;
      return Returned(lock);
    }
  }
}

/** The cached lock call, and any number of providers with caches of their own. */
module Registry {
  import opened LockConfigurations
  import Lease
  import opened Storage

  /** The connection faults and clock readings one lock call meets. */
  datatype Circumstances = Circumstances(
    insertFails: bool, updateFails: bool,
    insertClock: Millis, insertServerNow: Millis,
    updateClock: Millis, updateServerNow: Millis)

  datatype Outcome = Acquired | Refused | Failed

  /** A lock call without a cache: insert, and if that finds a row, update. */
  function InsertThenUpdate(source: Source, host: string, rows: Rows, config: LockConfiguration, c: Circumstances): (Rows, Outcome) {
    if c.insertFails then (rows, Failed)
    else
      var (inserted, n) := Execute(INSERT, rows, Bind(source, host, config, None, c.insertClock), c.insertServerNow);
      if n > 0 then (inserted, Acquired)
      else if c.updateFails then (inserted, Failed)
      else
        var (updated, m) := Execute(UPDATE, inserted, Bind(source, host, config, None, c.updateClock), c.updateServerNow);
        (updated, if m > 0 then Acquired else Refused)
  }

  class LockRecordRegistry {
    var records: set<string>

    constructor ()
      ensures records == {}
    {
      records := {};
    }

    predicate LockRecordRecentlyCreated(name: string)
      reads this
    {
      name in records
    }

    method AddRecord(name: string)
      modifies this
      ensures records == old(records) + {name}
    {
      records := records + {name};
    }

    method ClearCache(name: string)
      modifies this
      ensures records == old(records) - {name}
    {
      records := records - {name};
    }
  }

  class StorageBasedLockProvider {
    const accessor: SqlStorageAccessor
    const registry: LockRecordRegistry

    /** Every cached name has a row. */
    predicate Valid()
      reads registry, accessor
    {
      registry.records <= accessor.rows.Keys
    }

    constructor (accessor: SqlStorageAccessor)
      ensures this.accessor == accessor && fresh(registry) && Valid()
    {
      this.accessor := accessor;
      registry := new LockRecordRegistry();
    }

    /** A cached lock call sees the same result and leaves the same rows as an uncached
        one; it only skips an insert, and with it the chance that the insert fails. It acquires
        exactly when the lease does, at the guard time of the statement that decides. */
    method Lock(config: LockConfiguration, c: Circumstances) returns (r: Result<StorageLock?>)
      requires Valid()
      modifies registry, accessor
      ensures Valid()
      ensures var cached := config.name in old(registry.records);
        var (rows, outcome) := InsertThenUpdate(accessor.source, accessor.lockedBy, old(accessor.rows), config,
                                                c.(insertFails := c.insertFails && !cached));
        && accessor.rows == rows
        && (r.Thrown? <==> outcome.Failed?)
        && (r.Returned? ==> (r.value != null <==> outcome.Acquired?))
        && registry.records ==
             (if r.Thrown? then old(registry.records) - {config.name} else old(registry.records) + {config.name})
      ensures r.Thrown? <==>
        || (config.name !in old(registry.records) && c.insertFails)
        || (config.name in old(accessor.rows) && c.updateFails)
      ensures r.Thrown? ==> accessor.rows == old(accessor.rows)
      ensures r.Returned? ==>
        var now := if config.name in old(accessor.rows) then GuardTime(accessor.source, c.updateClock, c.updateServerNow)
                   else GuardTime(accessor.source, c.insertClock, c.insertServerNow);
        var row := Lease.TryAcquire(LeaseRow(old(accessor.rows), config.name), config, accessor.lockedBy, now);
        (r.value != null <==> row.Some?) && Wrote(old(accessor.rows), accessor.rows, config.name, row)
      ensures r.Returned? && r.value != null ==>
        fresh(r.value) && r.value.valid && r.value.config == config && r.value.accessor == accessor
    {
      if !registry.LockRecordRecentlyCreated(config.name) {
        var inserted := accessor.InsertRecord(config, c.insertClock, c.insertServerNow, c.insertFails);
        if inserted.Thrown? { return Thrown(inserted.message); }
        registry.AddRecord(config.name);
        if inserted.value {
          var lock := new StorageLock(config, accessor);
          return Returned(lock);
        }
      }
      var updated := accessor.UpdateRecord(config, c.updateClock, c.updateServerNow, c.updateFails);
      if updated.Thrown? {
        registry.ClearCache(config.name);
        return Thrown(updated.message);
      }
      if updated.value {
        var lock := new StorageLock(config, accessor);
        return Returned(lock);
      }
      return Returned(null);
    }
  }

  // ---- Many providers over one table, with their statements interleaved

  datatype Fleet = Fleet(rows: Rows, caches: seq<set<string>>)

  datatype Move =
    | Inserts(provider: nat, p: Params, serverNow: Millis)   // the insert statement, and the name cached on its return
    | Runs(statement: Statement, p: Params, serverNow: Millis) // any statement of any lock object or provider
    | Clears(provider: nat, name: string)                    // after a failed update, or clearCache

  function Moved(f: Fleet, move: Move): Fleet {
    match move
    case Inserts(i, p, serverNow) =>
      var rows := Execute(INSERT, f.rows, p, serverNow).0;
      if i < |f.caches| then Fleet(rows, f.caches[i := f.caches[i] + {p.name}]) else f
    case Runs(statement, p, serverNow) => f.(rows := Execute(statement, f.rows, p, serverNow).0)
    case Clears(i, name) =>
      if i < |f.caches| then f.(caches := f.caches[i := f.caches[i] - {name}]) else f
  }

  function MovedAll(f: Fleet, moves: seq<Move>): Fleet
    decreases |moves|
  {
    if moves == [] then f else MovedAll(Moved(f, moves[0]), moves[1..])
  }

  /** In every interleaving, a name in any provider's cache has a row, so the insert that
      provider skips would have changed nothing and reported no row, at any moment. */
  lemma {:induction false} SkippedInsertIsNoOp(f: Fleet, moves: seq<Move>, i: nat, p: Params, serverNow: Millis)
    requires forall j :: 0 <= j < |f.caches| ==> f.caches[j] <= f.rows.Keys
    requires var g := MovedAll(f, moves); i < |g.caches| && p.name in g.caches[i]
    ensures Execute(INSERT, MovedAll(f, moves).rows, p, serverNow) == (MovedAll(f, moves).rows, 0)
    decreases |moves|
  {
    if moves != [] {
      var g := Moved(f, moves[0]);
      assert f.rows.Keys <= g.rows.Keys;
      forall j | 0 <= j < |g.caches| ensures g.caches[j] <= g.rows.Keys {
        assert f.caches[j] <= f.rows.Keys;
      }
      SkippedInsertIsNoOp(g, moves[1..], i, p, serverNow);
    }
  }
}

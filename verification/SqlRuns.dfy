/** Every run of many processes over one table: each statement of each lock call, extension and
    unlock runs at a moment of its own, and the whole run is a run of the lease. */
module SqlRuns {
  import opened LockConfigurations
  import Lease
  import opened LeaseView
  import opened Storage

  /** The database, its clock, and the lock objects that calls for one lock name have returned. */
  datatype Database = Database(clock: Millis, rows: Rows, locks: seq<LockObject<Source>>)

  /** `now` is when the process read its clock; the statement runs later. */
  datatype Call =
    | Pass(to: Millis)
    | Insert(source: Source, host: string, config: LockConfiguration, now: Millis)
    | Update(source: Source, host: string, config: LockConfiguration, now: Millis)
    | Extend(lock: nat, config: LockConfiguration, now: Millis)
    | Unlock(lock: nat, now: Millis)
    | Elsewhere(statement: Statement, p: Params)   // a statement for another lock name

  predicate Enabled(db: Database, name: string, call: Call) {
    match call
    case Pass(to) => db.clock <= to
    case Insert(_, _, config, now) => config.name == name && now <= db.clock
    case Update(_, _, config, now) => config.name == name && now <= db.clock
    case Extend(i, config, now) => i < |db.locks| && db.locks[i].valid && config.name == name && now <= db.clock
    case Unlock(i, now) => i < |db.locks| && db.locks[i].valid && now <= db.clock
    case Elsewhere(_, p) => p.name != name
  }

  function AfterLockCall(db: Database, statement: Statement, source: Source, host: string, config: LockConfiguration, now: Millis): Database {
    var (rows, n) := Execute(statement, db.rows, Bind(source, host, config, None, now), db.clock);
    Database(db.clock, rows, if n > 0 then db.locks + [LockObject(config, host, true, source)] else db.locks)
  }

  function AfterExtend(db: Database, i: nat, config: LockConfiguration, now: Millis): Database
    requires i < |db.locks|
  {
    var l := db.locks[i];
    var (rows, n) := Execute(EXTEND, db.rows, Bind(l.backend, l.host, config, Some(LockAtMostUntil(l.config)), now), db.clock);
    Database(db.clock, rows, if n > 0 then db.locks[i := l.(valid := false)] + [l.(config := config)] else db.locks)
  }

  function AfterUnlock(db: Database, i: nat, now: Millis): Database
    requires i < |db.locks|
  {
    var l := db.locks[i];
    Database(db.clock, Execute(UNLOCK, db.rows, Bind(l.backend, l.host, l.config, None, now), db.clock).0,
             db.locks[i := l.(valid := false)])
  }

  function Next(db: Database, name: string, call: Call): Database
    requires Enabled(db, name, call)
  {
    match call
    case Pass(to) => db.(clock := to)
    case Insert(source, host, config, now) => AfterLockCall(db, INSERT, source, host, config, now)
    case Update(source, host, config, now) => AfterLockCall(db, UPDATE, source, host, config, now)
    case Extend(i, config, now) => AfterExtend(db, i, config, now)
    case Unlock(i, now) => AfterUnlock(db, i, now)
    case Elsewhere(statement, p) => db.(rows := Execute(statement, db.rows, p, db.clock).0)
  }

  predicate IsRun(db: Database, name: string, calls: seq<Call>)
    decreases |calls|
  {
    calls == [] || (Enabled(db, name, calls[0]) && IsRun(Next(db, name, calls[0]), name, calls[1..]))
  }

  function Run(db: Database, name: string, calls: seq<Call>): Database
    requires IsRun(db, name, calls)
    decreases |calls|
  {
    if calls == [] then db else Run(Next(db, name, calls[0]), name, calls[1..])
  }

  // ---- The lease behind the rows

  /** Every lock object of this name is for this name, and the lease shows them and the row. */
  ghost predicate Matches(db: Database, name: string, s: Lease.State) {
    && (forall i :: 0 <= i < |db.locks| ==> db.locks[i].config.name == name)
    && Shows(db.clock, LeaseRow(db.rows, name), db.locks, s)
  }

  /** The step of the lease that a call takes, if any: an insert that finds a row and an update
      that finds none are not even attempts. */
  function LeaseStep(db: Database, name: string, call: Call): Option<Lease.Step>
    requires Enabled(db, name, call)
  {
    match call
    case Pass(to) => Some(Lease.Advance(to))
    case Insert(source, host, config, now) =>
      if name in db.rows then None else Some(Lease.Acquire(config, host, GuardTime(source, now, db.clock), false))
    case Update(source, host, config, now) =>
      if name in db.rows then Some(Lease.Acquire(config, host, GuardTime(source, now, db.clock), false)) else None
    case Extend(i, config, now) => Some(Lease.Extend(i, config, GuardTime(db.locks[i].backend, now, db.clock)))
    case Unlock(i, now) => Some(Lease.Unlock(i, RuleOf(db.locks[i].backend), now))
    case Elsewhere(_, _) => None
  }

  lemma LockCallMatches(db: Database, name: string, s: Lease.State, statement: Statement, source: Source, host: string,
                        config: LockConfiguration, now: Millis)
    requires Matches(db, name, s) && config.name == name && now <= db.clock
    requires if statement.INSERT? then name !in db.rows else statement.UPDATE? && name in db.rows
    ensures Matches(AfterLockCall(db, statement, source, host, config, now), name,
                    Lease.AfterAcquire(s, config, host, GuardTime(source, now, db.clock), false))
  {
    InsertThenUpdateIsAcquire(source, host, config, db.rows, now, db.clock);
    AcquireShows(db.clock, LeaseRow(db.rows, name), db.locks, s, config, host, GuardTime(source, now, db.clock), source);
  }

  lemma ExtendMatches(db: Database, name: string, s: Lease.State, i: nat, config: LockConfiguration, now: Millis)
    requires Matches(db, name, s) && Enabled(db, name, Extend(i, config, now))
    ensures var guard := GuardTime(db.locks[i].backend, now, db.clock);
      && Lease.Enabled(s, Lease.Extend(i, config, guard))
      && Matches(AfterExtend(db, i, config, now), name, Lease.AfterExtend(s, i, config, guard))
  {
    var l := db.locks[i];
    ExtendIsLeaseExtend(l.backend, l.host, config, LockAtMostUntil(l.config), db.rows, now, db.clock);
    ExtendShows(db.clock, LeaseRow(db.rows, name), db.locks, s, i, config, GuardTime(l.backend, now, db.clock));
  }

  lemma UnlockMatches(db: Database, name: string, s: Lease.State, i: nat, now: Millis)
    requires Matches(db, name, s) && Enabled(db, name, Unlock(i, now))
    ensures var rule := RuleOf(db.locks[i].backend);
      && Lease.Enabled(s, Lease.Unlock(i, rule, now))
      && Matches(AfterUnlock(db, i, now), name, Lease.AfterUnlock(s, i, rule, now))
  {
    var l := db.locks[i];
    UnlockIsLeaseUnlock(l.backend, l.host, l.config, db.rows, now, db.clock);
    UnlockShows(db.clock, LeaseRow(db.rows, name), db.locks, s, i, RuleOf(l.backend), now);
  }

  lemma CallIsLeaseStep(db: Database, name: string, s: Lease.State, call: Call)
    requires Matches(db, name, s) && Enabled(db, name, call)
    ensures match LeaseStep(db, name, call)
      case None => Matches(Next(db, name, call), name, s)
      case Some(step) => Lease.Enabled(s, step) && Matches(Next(db, name, call), name, Lease.Next(s, step))
  {
    match call
    case Pass(to) => AdvanceShows(db.clock, LeaseRow(db.rows, name), db.locks, s, to);
    case Insert(source, host, config, now) =>
      if name !in db.rows { LockCallMatches(db, name, s, INSERT, source, host, config, now); }
    case Update(source, host, config, now) =>
      if name in db.rows { LockCallMatches(db, name, s, UPDATE, source, host, config, now); }
    case Extend(i, config, now) => ExtendMatches(db, name, s, i, config, now);
    case Unlock(i, now) => UnlockMatches(db, name, s, i, now);
    case Elsewhere(_, _) =>
  }

  /** Every run over the table is, for each lock name, a run of the lease. */
  lemma {:induction false} RunsRefineLease(db: Database, name: string, s: Lease.State, calls: seq<Call>) returns (steps: seq<Lease.Step>)
    requires Matches(db, name, s) && IsRun(db, name, calls)
    ensures Lease.IsRun(s, steps)
    ensures Matches(Run(db, name, calls), name, Lease.Run(s, steps))
    decreases |calls|
  {
    if calls == [] {
      steps := [];
    } else {
      CallIsLeaseStep(db, name, s, calls[0]);
      match LeaseStep(db, name, calls[0])
      case None => steps := RunsRefineLease(Next(db, name, calls[0]), name, s, calls[1..]);
      case Some(step) =>
        var rest := RunsRefineLease(Next(db, name, calls[0]), name, Lease.Next(s, step), calls[1..]);
        steps := [step] + rest;
        assert steps[1..] == rest;
    }
  }

  /** A lock statement is granted exactly if it is an insert without a row, or an update of a row
      whose deadline has passed at the source's guard time; and then the row ends lockAtMostFor
      after the creation. */
  lemma LockCallIsGrantedExactlyIf(db: Database, statement: Statement, source: Source, host: string, config: LockConfiguration, now: Millis)
    requires statement.INSERT? || statement.UPDATE?
    ensures var after := AfterLockCall(db, statement, source, host, config, now);
      var granted := if statement.INSERT? then config.name !in db.rows
                     else config.name in db.rows && db.rows[config.name].lockUntil <= GuardTime(source, now, db.clock);
      && |after.locks| == |db.locks| + (if granted then 1 else 0)
      && (granted ==> LeaseRow(after.rows, config.name) == Some(Lease.Row(config.createdAt + config.lockAtMostFor, host)))
      && (!granted ==> after == db)
  {
  }

  /** In every run, whoever holds the lock stays in control of it: its extension is granted and its
      unlock releases the row, at the moment of the unlock or when the minimum is over. */
  lemma HolderStaysInControl(db: Database, name: string, calls: seq<Call>, i: nat, config: LockConfiguration, now: Millis)
    requires db.locks == [] && IsRun(db, name, calls)
    requires var end := Run(db, name, calls); Holds(end.clock, end.locks, i) && now <= end.clock
    requires config.name == name
    ensures var end := Run(db, name, calls);
      var extended := AfterExtend(end, i, config, now);
      && |extended.locks| == |end.locks| + 1 && !extended.locks[i].valid
      && LeaseRow(extended.rows, name) == Some(Lease.Row(config.createdAt + config.lockAtMostFor, end.locks[i].host))
    ensures var end := Run(db, name, calls);
      var least := end.locks[i].config.createdAt + end.locks[i].config.lockAtLeastFor;
      LeaseRow(AfterUnlock(end, i, now).rows, name) ==
        Some(Lease.Row(if end.locks[i].backend.ClientTimeSource? then (if now < least then least else now)
                       else if end.locks[i].config.lockAtLeastFor < 0.0 then end.locks[i].config.createdAt else least,
                       end.locks[i].host))
  {
    InitialShows(db.clock, LeaseRow(db.rows, name), db.locks);
    var steps := RunsRefineLease(db, name, Initial(db.clock, LeaseRow(db.rows, name)), calls);
    HolderControls(Run(db, name, calls), name, Lease.Run(Initial(db.clock, LeaseRow(db.rows, name)), steps), i, config, now);
  }

  lemma HolderControls(db: Database, name: string, s: Lease.State, i: nat, config: LockConfiguration, now: Millis)
    requires Matches(db, name, s) && Holds(db.clock, db.locks, i) && now <= db.clock && config.name == name
    ensures var extended := AfterExtend(db, i, config, now);
      && |extended.locks| == |db.locks| + 1 && !extended.locks[i].valid
      && LeaseRow(extended.rows, name) == Some(Lease.Row(config.createdAt + config.lockAtMostFor, db.locks[i].host))
    ensures var l := db.locks[i];
      LeaseRow(AfterUnlock(db, i, now).rows, name) ==
        Some(Lease.Row(Lease.UnlockDeadline(RuleOf(l.backend), l.config, now), l.host))
  {
    assert name in db.rows && db.rows[name].lockUntil == LockAtMostUntil(db.locks[i].config);
  }

  /** With any number of processes on any hosts, sharing host names or not, on client time or
      server time, and starting from any table: at most one usable lock object has a deadline in
      the future, and then the row outlasts it. */
  lemma MutualExclusion(db: Database, name: string, calls: seq<Call>, i: nat, j: nat)
    requires db.locks == [] && IsRun(db, name, calls)
    requires var end := Run(db, name, calls); Holds(end.clock, end.locks, i) && Holds(end.clock, end.locks, j)
    ensures i == j
    ensures var end := Run(db, name, calls);
      name in end.rows && end.rows[name].lockUntil >= LockAtMostUntil(end.locks[i].config)
  {
    var start, end := Initial(db.clock, LeaseRow(db.rows, name)), Run(db, name, calls);
    InitialShows(db.clock, LeaseRow(db.rows, name), db.locks);
    var steps := RunsRefineLease(db, name, start, calls);
    AtMostOneHolds(end.clock, LeaseRow(end.rows, name), end.locks, Lease.Run(start, steps), i, j);
  }

  /** And then every insert and update for that name is refused, whenever its clock was read. */
  lemma HolderShutsOutLockCalls(db: Database, name: string, calls: seq<Call>, i: nat, statement: Statement,
                                source: Source, host: string, config: LockConfiguration, now: Millis)
    requires db.locks == [] && IsRun(db, name, calls)
    requires var end := Run(db, name, calls); Holds(end.clock, end.locks, i) && now <= end.clock
    requires statement.INSERT? || statement.UPDATE?
    requires config.name == name
    ensures AfterLockCall(Run(db, name, calls), statement, source, host, config, now) == Run(db, name, calls)
  {
    MutualExclusion(db, name, calls, i, i);
  }

  /** A usable lock object that has been superseded leaves a live row alone. */
  lemma SupersededLockIsHarmless(db: Database, name: string, calls: seq<Call>, i: nat, j: nat, config: LockConfiguration, now: Millis)
    requires db.locks == [] && IsRun(db, name, calls)
    requires var end := Run(db, name, calls); Holds(end.clock, end.locks, i) && j != i
    requires Enabled(Run(db, name, calls), name, Extend(j, config, now))
    ensures var end := Run(db, name, calls);
      AfterExtend(end, j, config, now) == end && AfterUnlock(end, j, now).rows == end.rows
  {
    var end := Run(db, name, calls);
    MutualExclusion(db, name, calls, i, i);
    if Holds(end.clock, end.locks, j) { MutualExclusion(db, name, calls, i, j); }
    InitialShows(db.clock, LeaseRow(db.rows, name), db.locks);
    var steps := RunsRefineLease(db, name, Initial(db.clock, LeaseRow(db.rows, name)), calls);
    assert end.locks[j].config.name == name;
  }
}

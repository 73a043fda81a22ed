/** The deadline-fenced lease: one stored deadline per lock name, the conditional
    writes the backends perform on it, and every run of many holders over it. */
module Lease {
  import opened LockConfigurations

  /** A lock record as the backends store it. */
  datatype Record = Record(lockUntil: Millis, lockedAt: Millis, lockedBy: string)

  /** The part of a stored record that decides ownership. */
  datatype Row = Row(lockUntil: Millis, lockedBy: string)

  function Ownership(record: Option<Record>): Option<Row> {
    if record.Some? then Some(Row(record.value.lockUntil, record.value.lockedBy)) else None
  }

  // ---- The conditional writes. `None` means the guard refused and nothing changed.

  function TryAcquire(row: Option<Row>, config: LockConfiguration, host: string, now: Millis): Option<Row> {
    if row.None? || row.value.lockUntil <= now then Some(Row(LockAtMostUntil(config), host)) else None
  }

  function TryExtend(row: Option<Row>, config: LockConfiguration, host: string,
                     previous: Option<Millis>, now: Millis): Option<Row>
  {
    if && row.Some?
       && row.value.lockedBy == host
       && row.value.lockUntil > now
       && (previous.Some? ==> row.value.lockUntil == previous.value)
    then Some(Row(LockAtMostUntil(config), host))
    else None
  }

  function TryUnlock(row: Option<Row>, config: LockConfiguration, host: string, unlockTime: Millis): Option<Row> {
    if row.Some? && row.value.lockedBy == host && row.value.lockUntil == LockAtMostUntil(config)
    then Some(Row(unlockTime, host))
    else None
  }

  /** The deadline each family of backends writes on unlock. */
  datatype UnlockRule =
    | AtLeastOnly   // in-memory map: lockAtLeastUntil, even when that is past
    | ClientTime    // max of the clock read by the client and lockAtLeastUntil
    | ServerTime    // never reads the clock: max of createdAt and lockAtLeastUntil

  function UnlockDeadline(rule: UnlockRule, config: LockConfiguration, now: Millis): Millis {
    match rule
    case AtLeastOnly => LockAtLeastUntil(config)
    case ClientTime => UnlockTime(config, now)
    case ServerTime => Max(LockAtLeastUntil(config), config.createdAt)
  }

  // ---- Runs

  /** One successful lock call and everything extended from it. A sequential tenure uses
      one handle at a time and may shrink its deadline. A monotone tenure (the keep-alive
      lock) may have several extensions in flight, none of which shortens the deadline. */
  datatype Tenure = Tenure(monotone: bool, closed: bool)

  /** A lock object. `live` until the store applies its unlock or, in a sequential
      tenure, an extension that replaces it: this is the one-shot flag. */
  datatype Handle = Handle(tenure: nat, config: LockConfiguration, host: string, live: bool)

  /** The stored row, with the history that the proofs talk about: the tenure that owns
      it, the tenure that wrote it last, and the minimum hold promised for it. */
  datatype Cell = Cell(row: Row, owner: nat, writer: nat, floor: Millis)

  datatype State = State(clock: Millis, cell: Option<Cell>, handles: seq<Handle>, tenures: seq<Tenure>)

  /** A statement's `now` was read at some moment before the statement runs. */
  datatype Step =
    | Advance(to: Millis)
    | Acquire(config: LockConfiguration, host: string, now: Millis, monotone: bool)
    | Extend(handle: nat, config: LockConfiguration, now: Millis)
    | Unlock(handle: nat, rule: UnlockRule, now: Millis)
    | Sweep(now: Millis)      // the in-memory map drops an entry whose deadline has been reached

  function StoredRow(s: State): Option<Row> {
    if s.cell.Some? then Some(s.cell.value.row) else None
  }

  predicate WellFormed(s: State) {
    && (forall i :: 0 <= i < |s.handles| ==> s.handles[i].tenure < |s.tenures|)
    && (s.cell.Some? ==> s.cell.value.owner < |s.tenures| && s.cell.value.writer < |s.tenures|)
  }

  predicate Enabled(s: State, step: Step)
    requires WellFormed(s)
  {
    match step
    case Advance(to) => s.clock <= to
    case Acquire(_, _, now, _) => now <= s.clock
    case Extend(i, config, now) =>
      && i < |s.handles|
      && now <= s.clock
      && (if s.tenures[s.handles[i].tenure].monotone
          then LockAtMostUntil(s.handles[i].config) <= LockAtMostUntil(config)
          else s.handles[i].live)
    case Unlock(i, _, now) => i < |s.handles| && now <= s.clock && s.handles[i].live
    case Sweep(now) => now <= s.clock
  }

  /** The row's deadline has not passed: no acquire can succeed. */
  predicate RowIsLive(s: State) {
    s.cell.Some? && s.cell.value.row.lockUntil > s.clock
  }

  function AfterAcquire(s: State, config: LockConfiguration, host: string, now: Millis, monotone: bool): (s': State)
    requires WellFormed(s)
    ensures WellFormed(s')
  {
    match TryAcquire(StoredRow(s), config, host, now)
    case None => s
    case Some(row) =>
      var t := |s.tenures|;
      s.(cell := Some(Cell(row, t, t, Promise(config))),
         handles := s.handles + [Handle(t, config, host, true)],
         tenures := s.tenures + [Tenure(monotone, false)])
  }

  function AfterExtend(s: State, i: nat, config: LockConfiguration, now: Millis): (s': State)
    requires WellFormed(s) && i < |s.handles|
    ensures WellFormed(s')
  {
    var h := s.handles[i];
    var t := s.tenures[h.tenure];
    match TryExtend(StoredRow(s), config, h.host, Some(LockAtMostUntil(h.config)), now)
    case None => s
    case Some(row) =>
      var was := s.cell.value;
      // A live row stays with its owner; a row that had lapsed is taken over.
      var keeps := RowIsLive(s) && was.owner != h.tenure;
      var cell := Cell(row, if keeps then was.owner else h.tenure, h.tenure, if keeps then was.floor else Promise(config));
      s.(cell := Some(cell),
         handles := s.handles[i := h.(live := t.monotone && h.live)] + [Handle(h.tenure, config, h.host, !t.closed)])
  }

  function AfterUnlock(s: State, i: nat, rule: UnlockRule, now: Millis): (s': State)
    requires WellFormed(s) && i < |s.handles|
    ensures WellFormed(s')
  {
    var h := s.handles[i];
    var cell :=
      match TryUnlock(StoredRow(s), h.config, h.host, UnlockDeadline(rule, h.config, now))
      case None => s.cell
      case Some(row) => Some(s.cell.value.(row := row, writer := h.tenure, floor := LockAtLeastUntil(h.config)));
    State(s.clock, cell, Retired(s.handles, h.tenure), s.tenures[h.tenure := s.tenures[h.tenure].(closed := true)])
  }

  /** The handles after tenure `t` has given up its lock. */
  function Retired(handles: seq<Handle>, t: nat): (r: seq<Handle>)
    ensures |r| == |handles|
    ensures forall i :: 0 <= i < |r| ==> r[i] == handles[i].(live := handles[i].live && handles[i].tenure != t)
  {
    seq(|handles|, i requires 0 <= i < |handles| => handles[i].(live := handles[i].live && handles[i].tenure != t))
  }

  function Next(s: State, step: Step): (s': State)
    requires WellFormed(s) && Enabled(s, step)
    ensures WellFormed(s')
  {
    match step
    case Advance(to) => s.(clock := to)
    case Acquire(config, host, now, monotone) => AfterAcquire(s, config, host, now, monotone)
    case Extend(i, config, now) => AfterExtend(s, i, config, now)
    case Unlock(i, rule, now) => AfterUnlock(s, i, rule, now)
    case Sweep(now) => if s.cell.Some? && s.cell.value.row.lockUntil <= now then s.(cell := None) else s
  }

  /** Every step of the run is enabled where it is taken. */
  predicate IsRun(s: State, steps: seq<Step>)
    requires WellFormed(s)
    decreases |steps|
  {
    steps == [] || (Enabled(s, steps[0]) && IsRun(Next(s, steps[0]), steps[1..]))
  }

  function Run(s: State, steps: seq<Step>): (s': State)
    requires WellFormed(s) && IsRun(s, steps)
    ensures WellFormed(s')
    decreases |steps|
  {
    if steps == [] then s else Run(Next(s, steps[0]), steps[1..])
  }

  function Empty(clock: Millis): State {
    State(clock, None, [], [])
  }
}

/** Mutual exclusion, harmlessness of superseded handles and the minimum hold,
    over every run of the deadline-fenced lease. */
module LeaseSafety {
  import opened LockConfigurations
  import opened Lease

  /** The holder of handle `i` believes it holds the lock. */
  ghost predicate Holds(s: State, i: nat) {
    i < |s.handles| && s.handles[i].live && LockAtMostUntil(s.handles[i].config) > s.clock
  }

  /** The deadline fence: a believed hold is backed by the stored row. */
  ghost predicate Backed(s: State) {
    forall i: nat :: Holds(s, i) ==>
      && s.cell.Some?
      && s.cell.value.owner == s.handles[i].tenure
      && s.cell.value.row.lockUntil >= LockAtMostUntil(s.handles[i].config)
  }

  /** The one-shot flag: a sequential tenure never has two usable handles, and a
      monotone tenure's handles stay usable exactly until it is unlocked. */
  ghost predicate OneShot(s: State)
    requires WellFormed(s)
  {
    && (forall i, j | 0 <= i < |s.handles| && 0 <= j < |s.handles| && s.handles[i].live && s.handles[j].live ::
          s.handles[i].tenure == s.handles[j].tenure && !s.tenures[s.handles[i].tenure].monotone ==> i == j)
    && (forall i :: 0 <= i < |s.handles| ==>
          && (s.handles[i].live ==> !s.tenures[s.handles[i].tenure].closed)
          && (s.tenures[s.handles[i].tenure].monotone && !s.tenures[s.handles[i].tenure].closed ==> s.handles[i].live))
  }

  ghost predicate FloorKept(s: State) {
    s.cell.Some? ==> s.cell.value.floor <= s.cell.value.row.lockUntil || s.cell.value.floor <= s.clock
  }

  ghost predicate Inv(s: State) {
    WellFormed(s) && Backed(s) && OneShot(s) && FloorKept(s)
  }

  lemma AcquireKeepsInv(s: State, config: LockConfiguration, host: string, now: Millis, monotone: bool)
    requires Inv(s) && now <= s.clock
    ensures Inv(AfterAcquire(s, config, host, now, monotone))
  {
    if TryAcquire(StoredRow(s), config, host, now).Some? {
      assert forall i: nat :: !Holds(s, i);
      var s' := AfterAcquire(s, config, host, now, monotone);
      forall i: nat | Holds(s', i) ensures i == |s.handles| {
        if i < |s.handles| { assert Holds(s, i); }
      }
    }
  }

  lemma ExtendKeepsInv(s: State, i: nat, config: LockConfiguration, now: Millis)
    requires Inv(s) && Enabled(s, Extend(i, config, now))
    ensures Inv(AfterExtend(s, i, config, now))
  {
    ExtendKeepsBacked(s, i, config, now);
    ExtendKeepsOneShot(s, i, config, now);
  }

  lemma ExtendKeepsBacked(s: State, i: nat, config: LockConfiguration, now: Millis)
    requires Inv(s) && Enabled(s, Extend(i, config, now))
    ensures Backed(AfterExtend(s, i, config, now)) && FloorKept(AfterExtend(s, i, config, now))
  {
    var h := s.handles[i];
    var s' := AfterExtend(s, i, config, now);
    if TryExtend(StoredRow(s), config, h.host, Some(LockAtMostUntil(h.config)), now).Some? {
      if RowIsLive(s) && h.live { assert Holds(s, i); }
      forall j: nat | Holds(s', j)
        ensures s'.cell.value.owner == s'.handles[j].tenure
        ensures s'.cell.value.row.lockUntil >= LockAtMostUntil(s'.handles[j].config)
      {
        if j < |s.handles| { assert Holds(s, j); }
      }
    }
  }

  lemma ExtendKeepsOneShot(s: State, i: nat, config: LockConfiguration, now: Millis)
    requires Inv(s) && Enabled(s, Extend(i, config, now))
    ensures OneShot(AfterExtend(s, i, config, now))
  {
  }

  lemma UnlockKeepsInv(s: State, i: nat, rule: UnlockRule, now: Millis)
    requires Inv(s) && Enabled(s, Unlock(i, rule, now))
    ensures Inv(AfterUnlock(s, i, rule, now))
  {
    var h := s.handles[i];
    var s' := AfterUnlock(s, i, rule, now);
    assert LockAtMostUntil(h.config) > s.clock ==> Holds(s, i);
    forall j: nat | Holds(s', j) ensures Holds(s, j) && s'.cell == s.cell {
      assert Holds(s, j);
      assert s.handles[j].tenure != h.tenure;
    }
  }

  lemma StepKeepsInv(s: State, step: Step)
    requires Inv(s) && Enabled(s, step)
    ensures Inv(Next(s, step))
  {
    match step
    case Advance(to) =>
      forall i: nat | Holds(Next(s, step), i) ensures Holds(s, i) {}
    case Acquire(config, host, now, monotone) => AcquireKeepsInv(s, config, host, now, monotone);
    case Extend(i, config, now) => ExtendKeepsInv(s, i, config, now);
    case Unlock(i, rule, now) => UnlockKeepsInv(s, i, rule, now);
    case Sweep(now) =>
      forall i: nat | Holds(Next(s, step), i) ensures Holds(s, i) {}
  }

  lemma {:induction false} RunKeepsInv(s: State, steps: seq<Step>)
    requires Inv(s) && IsRun(s, steps)
    ensures Inv(Run(s, steps))
    decreases |steps|
  {
    if steps != [] {
      StepKeepsInv(s, steps[0]);
      RunKeepsInv(Next(s, steps[0]), steps[1..]);
    }
  }

  /** At most one tenure believes it holds the lock, whatever the interleaving of
      acquires, extensions and unlocks and whenever each statement's `now` was read;
      within a sequential tenure, at most one handle does. */
  lemma MutualExclusion(start: Millis, steps: seq<Step>, i: nat, j: nat)
    requires IsRun(Empty(start), steps)
    requires Holds(Run(Empty(start), steps), i) && Holds(Run(Empty(start), steps), j)
    ensures var s := Run(Empty(start), steps);
      && s.handles[i].tenure == s.handles[j].tenure
      && (!s.tenures[s.handles[i].tenure].monotone ==> i == j)
  {
    RunKeepsInv(Empty(start), steps);
  }

  /** While somebody believes it holds the lock, no acquire succeeds. */
  lemma HolderShutsOutAcquires(s: State, i: nat, config: LockConfiguration, host: string, now: Millis, monotone: bool)
    requires Inv(s) && Holds(s, i) && now <= s.clock
    ensures AfterAcquire(s, config, host, now, monotone) == s
  {
  }

  /** A usable handle of a sequential tenure that does not own the row cannot touch
      it while the row is live: its unlock and its extension both miss. */
  lemma SupersededHandleIsHarmless(s: State, i: nat, config: LockConfiguration, rule: UnlockRule, now: Millis)
    requires Inv(s) && i < |s.handles| && s.handles[i].live && now <= s.clock
    requires RowIsLive(s) && s.cell.value.owner != s.handles[i].tenure
    ensures AfterExtend(s, i, config, now) == s
    ensures AfterUnlock(s, i, rule, now).cell == s.cell
  {
    assert !Holds(s, i);
  }

  /** A monotone tenure may still have an extension in flight after its unlock. If that hits a
      successor's live row, it leaves the owner and the minimum hold alone and only lengthens. */
  lemma LateExtensionOnlyLengthens(s: State, i: nat, config: LockConfiguration, now: Millis)
    requires Inv(s) && Enabled(s, Extend(i, config, now))
    requires RowIsLive(s) && s.cell.value.owner != s.handles[i].tenure
    ensures var c := AfterExtend(s, i, config, now).cell;
      && c.Some?
      && c.value.owner == s.cell.value.owner
      && c.value.floor == s.cell.value.floor
      && c.value.row.lockUntil >= s.cell.value.row.lockUntil
  {
    if !s.tenures[s.handles[i].tenure].monotone { SupersededHandleIsHarmless(s, i, config, AtLeastOnly, now); }
  }

  /** Whoever acquires does so no earlier than the minimum hold promised by the last
      write to the row: lockAtLeastUntil after an unlock, and the smaller of the two
      deadlines for a holder that vanished. */
  lemma MinimumHold(start: Millis, steps: seq<Step>, config: LockConfiguration, host: string, now: Millis)
    requires IsRun(Empty(start), steps)
    requires var s := Run(Empty(start), steps);
      s.cell.Some? && now <= s.clock && TryAcquire(StoredRow(s), config, host, now).Some?
    ensures Run(Empty(start), steps).cell.value.floor <= Run(Empty(start), steps).clock
  {
    RunKeepsInv(Empty(start), steps);
  }

  /** What an unlock of one's own row stores, and with it exactly when the next acquire succeeds:
      when the minimum is over, and with a clock also no earlier than the unlock. */
  lemma UnlockReleasesExactly(s: State, i: nat, rule: UnlockRule, now: Millis)
    requires WellFormed(s) && i < |s.handles|
    requires StoredRow(s) == Some(Row(LockAtMostUntil(s.handles[i].config), s.handles[i].host))
    ensures var c := s.handles[i].config;
      var least := c.createdAt + c.lockAtLeastFor;
      var until := match rule
                   case AtLeastOnly => least
                   case ClientTime => if now < least then least else now
                   case ServerTime => if least < c.createdAt then c.createdAt else least;
      && StoredRow(AfterUnlock(s, i, rule, now)) == Some(Row(until, s.handles[i].host))
      && forall config, host, t :: TryAcquire(StoredRow(AfterUnlock(s, i, rule, now)), config, host, t).Some? <==> until <= t
  {
  }

  // ---- Late extensions

  /** Exactly when an extension changes a live row that another tenure owns: the row was written
      from its own host with its own old deadline, and the new deadline is another one. */
  lemma LateExtensionChangesRowExactlyIf(s: State, i: nat, config: LockConfiguration, now: Millis)
    requires Inv(s) && Enabled(s, Extend(i, config, now))
    requires RowIsLive(s) && s.cell.value.owner != s.handles[i].tenure
    ensures var h := s.handles[i]; var row := s.cell.value.row;
      StoredRow(AfterExtend(s, i, config, now)) != StoredRow(s) <==>
        && row.lockedBy == h.host
        && row.lockUntil == LockAtMostUntil(h.config)
        && LockAtMostUntil(config) != LockAtMostUntil(h.config)
  {
  }

  /** The tenure that a step writes the row for, and the row, if the step writes it. */
  function Written(s: State, step: Step): Option<(nat, Row)>
    requires WellFormed(s) && Enabled(s, step)
  {
    match step
    case Acquire(config, host, now, _) =>
      var row := TryAcquire(StoredRow(s), config, host, now);
      if row.Some? then Some((|s.tenures|, row.value)) else None
    case Extend(i, config, now) =>
      var h := s.handles[i];
      var row := TryExtend(StoredRow(s), config, h.host, Some(LockAtMostUntil(h.config)), now);
      if row.Some? then Some((h.tenure, row.value)) else None
    case Unlock(i, rule, now) =>
      var h := s.handles[i];
      var row := TryUnlock(StoredRow(s), h.config, h.host, UnlockDeadline(rule, h.config, now));
      if row.Some? then Some((h.tenure, row.value)) else None
    case _ => None
  }

  /** No lock object of another tenure has both the host and the deadline of this row. */
  ghost predicate Apart(s: State, tenure: nat, row: Row) {
    forall h <- s.handles :: h.tenure != tenure ==> h.host != row.lockedBy || LockAtMostUntil(h.config) != row.lockUntil
  }

  /** Every write of the run stays apart from the lock objects there are: other tenures are on
      other hosts, or their deadlines do not collide with it. */
  ghost predicate KeepsApart(s: State, steps: seq<Step>)
    requires WellFormed(s) && IsRun(s, steps)
    decreases |steps|
  {
    steps != [] ==>
      && (Written(s, steps[0]).Some? ==> Apart(s, Written(s, steps[0]).value.0, Written(s, steps[0]).value.1))
      && KeepsApart(Next(s, steps[0]), steps[1..])
  }

  /** The row belongs to the tenure that wrote it last, and no other could mistake it for its own. */
  ghost predicate OwnRow(s: State) {
    s.cell.Some? ==> s.cell.value.owner == s.cell.value.writer && Apart(s, s.cell.value.writer, s.cell.value.row)
  }

  lemma StepKeepsOwnRow(s: State, step: Step)
    requires WellFormed(s) && Enabled(s, step) && OwnRow(s)
    requires Written(s, step).Some? ==> Apart(s, Written(s, step).value.0, Written(s, step).value.1)
    ensures OwnRow(Next(s, step))
  {
    match step
    case Extend(i, config, now) => assert s.handles[i] in s.handles;
    case Unlock(i, rule, now) => UnlockKeepsOwnRow(s, i, rule, now);
    case _ =>
  }

  lemma UnlockKeepsOwnRow(s: State, i: nat, rule: UnlockRule, now: Millis)
    requires WellFormed(s) && Enabled(s, Unlock(i, rule, now)) && OwnRow(s)
    requires var step := Unlock(i, rule, now);
      Written(s, step).Some? ==> Apart(s, Written(s, step).value.0, Written(s, step).value.1)
    ensures OwnRow(AfterUnlock(s, i, rule, now))
  {
    assert s.handles[i] in s.handles;
    var s' := AfterUnlock(s, i, rule, now);
    forall h <- s'.handles ensures exists g <- s.handles :: g.tenure == h.tenure && g.host == h.host && g.config == h.config {
      var k :| 0 <= k < |s'.handles| && s'.handles[k] == h;
      assert s.handles[k] in s.handles;
    }
  }

  lemma {:induction false} RunKeepsOwnRow(s: State, steps: seq<Step>)
    requires WellFormed(s) && IsRun(s, steps) && OwnRow(s) && KeepsApart(s, steps)
    ensures OwnRow(Run(s, steps))
    decreases |steps|
  {
    if steps != [] {
      StepKeepsOwnRow(s, steps[0]);
      RunKeepsOwnRow(Next(s, steps[0]), steps[1..]);
    }
  }

  /** In every run whose writes stay apart, no extension of any tenure, however late, changes a
      live row that another tenure owns. */
  lemma LateExtensionsAreHarmlessWhenApart(start: Millis, steps: seq<Step>, i: nat, config: LockConfiguration, now: Millis)
    requires IsRun(Empty(start), steps) && KeepsApart(Empty(start), steps)
    requires Enabled(Run(Empty(start), steps), Extend(i, config, now))
    requires var s := Run(Empty(start), steps); RowIsLive(s) && s.cell.value.owner != s.handles[i].tenure
    ensures AfterExtend(Run(Empty(start), steps), i, config, now) == Run(Empty(start), steps)
  {
    RunKeepsOwnRow(Empty(start), steps);
    var s := Run(Empty(start), steps);
    assert s.handles[i] in s.handles;
  }

  // ---- What each fence is for

  lemma RunStarts(s: State, step: Step, rest: seq<Step>, s': State)
    requires WellFormed(s) && Enabled(s, step) && Next(s, step) == s' && IsRun(s', rest)
    ensures IsRun(s, [step] + rest) && Run(s, [step] + rest) == Run(s', rest)
  {
    assert ([step] + rest)[1..] == rest;
  }

  lemma FourSteps(s0: State, a: Step, s1: State, b: Step, s2: State, c: Step, s3: State, d: Step, s4: State)
    requires WellFormed(s0) && Enabled(s0, a) && Next(s0, a) == s1
    requires Enabled(s1, b) && Next(s1, b) == s2
    requires Enabled(s2, c) && Next(s2, c) == s3
    requires Enabled(s3, d) && Next(s3, d) == s4
    ensures IsRun(s0, [a, b, c, d]) && Run(s0, [a, b, c, d]) == s4
  {
    RunStarts(s3, d, [], s4);
    RunStarts(s2, c, [d] + [], s3);
    RunStarts(s1, b, [c] + ([d] + []), s2);
    RunStarts(s0, a, [b] + ([c] + ([d] + [])), s1);
    assert [a, b, c, d] == [a] + ([b] + ([c] + ([d] + [])));
  }

  /** A lock is shrunk and lapses, and a later one ends when the first would have ended. */
  lemma ReusedDeadlineRun(name: string, host: string) returns (steps: seq<Step>)
    ensures IsRun(Empty(0.0), steps)
    ensures Run(Empty(0.0), steps) ==
      State(100.0, Some(Cell(Row(1000.0, host), 1, 1, 100.0)),
            [Handle(0, Plan(name, 1000.0, 0.0), host, false), Handle(0, Plan(name, 100.0, 0.0), host, true), Handle(1, Plan(name, 900.0, 100.0), host, true)],
            [Tenure(false, false), Tenure(false, false)])
  {
    var first, shrunk, later := Plan(name, 1000.0, 0.0), Plan(name, 100.0, 0.0), Plan(name, 900.0, 100.0);
    var a := [Tenure(false, false)];
    var used, next := Handle(0, first, host, false), Handle(0, shrunk, host, true);
    var s1 := State(0.0, Some(Cell(Row(1000.0, host), 0, 0, 0.0)), [Handle(0, first, host, true)], a);
    var s2 := State(0.0, Some(Cell(Row(100.0, host), 0, 0, 0.0)), [used, next], a);
    var s3 := s2.(clock := 100.0);
    var s4 := State(100.0, Some(Cell(Row(1000.0, host), 1, 1, 100.0)), [used, next] + [Handle(1, later, host, true)], a + a);
    var acquire, shrink, pass, reacquire :=
      Acquire(first, host, 0.0, false), Extend(0, shrunk, 0.0), Advance(100.0), Acquire(later, host, 100.0, false);
    assert Next(Empty(0.0), acquire) == s1;
    assert Next(s1, shrink) == s2;
    assert Next(s2, pass) == s3;
    assert Next(s3, reacquire) == s4;
    FourSteps(Empty(0.0), acquire, s1, shrink, s2, pass, s3, reacquire, s4);
    steps := [acquire, shrink, pass, reacquire];
  }

  /** Neither fence is enough alone: a shrinking extension lets a later tenure reuse an old
      deadline, and then the replaced handle passes the deadline fence on a row that is not
      its own. Only its cleared one-shot flag keeps the successor's lock. */
  lemma DeadlineFenceAloneIsNotEnough(name: string, host: string) returns (steps: seq<Step>)
    ensures IsRun(Empty(0.0), steps)
    ensures var s := Run(Empty(0.0), steps);
      && |s.handles| == 3
      && Holds(s, 2) && s.handles[2].tenure != s.handles[0].tenure
      && !s.handles[0].live
      && var h := s.handles[0];
         var released := TryUnlock(StoredRow(s), h.config, h.host, UnlockDeadline(ClientTime, h.config, s.clock));
         released.Some? && released.value.lockUntil <= s.clock
  {
    steps := ReusedDeadlineRun(name, host);
  }

  /** A renewal is still in flight when its lock is unlocked and another acquires up to the same deadline. */
  lemma CollidingDeadlineRun(name: string, host: string) returns (steps: seq<Step>)
    ensures IsRun(Empty(0.0), steps)
    ensures Run(Empty(0.0), steps) ==
      State(600.0, Some(Cell(Row(1000.0, host), 1, 1, 600.0)),
            [Handle(0, Plan(name, 1000.0, 0.0), host, false), Handle(1, Plan(name, 400.0, 600.0), host, true)],
            [Tenure(true, true), Tenure(false, false)])
  {
    var first, later := Plan(name, 1000.0, 0.0), Plan(name, 400.0, 600.0);
    var h := Handle(0, first, host, true);
    var s1 := State(0.0, Some(Cell(Row(1000.0, host), 0, 0, 0.0)), [h], [Tenure(true, false)]);
    var s2 := s1.(clock := 600.0);
    var s3 := State(600.0, Some(Cell(Row(600.0, host), 0, 0, 0.0)), [h.(live := false)], [Tenure(true, true)]);
    var s4 := State(600.0, Some(Cell(Row(1000.0, host), 1, 1, 600.0)), [h.(live := false)] + [Handle(1, later, host, true)],
                    [Tenure(true, true)] + [Tenure(false, false)]);
    var acquire, pass, unlock, reacquire :=
      Acquire(first, host, 0.0, true), Advance(600.0), Unlock(0, ClientTime, 600.0), Acquire(later, host, 600.0, false);
    assert Next(Empty(0.0), acquire) == s1;
    assert Next(s1, pass) == s2;
    assert Next(s2, unlock) == s3;
    assert Next(s3, reacquire) == s4;
    FourSteps(Empty(0.0), acquire, s1, pass, s2, unlock, s3, reacquire, s4);
    steps := [acquire, pass, unlock, reacquire];
  }

  /** The harmlessness of superseded handles does not extend to overlapping extensions: one
      still in flight when its tenure unlocks can hit the successor's record and lengthen it. */
  lemma LateExtensionCanReachASuccessor(name: string, host: string) returns (steps: seq<Step>, late: LockConfiguration)
    ensures IsRun(Empty(0.0), steps)
    ensures var s := Run(Empty(0.0), steps);
      && |s.handles| == 2
      && Holds(s, 1) && s.handles[1].tenure != s.handles[0].tenure
      && Enabled(s, Extend(0, late, 500.0))
      && StoredRow(AfterExtend(s, 0, late, 500.0)) != StoredRow(s)
  {
    steps := CollidingDeadlineRun(name, host);
    late := Plan(name, 1000.0, 500.0);
  }
}

/** Every run of one keep-alive lock over the deadline-fenced lease: ticks, overlapping
    renewals, failures and retries, a concurrent unlock, and any other holders. */
module KeepAliveRuns {
  import opened LockConfigurations
  import Lease
  import opened KeepAlive

  /** A renewal between its two segments. An answer may still be lost on the way back. */
  datatype Phase = InFlight | Answered(answer: Option<nat>) | Failed

  datatype Renewal = Renewal(
    retry: bool,
    extended: nat,
    now: Millis,
    config: LockConfiguration,
    phase: Phase)

  datatype World = World(
    lease: Lease.State,
    own: nat,                     // the tenure acquired by this lock
    base: LockConfiguration,
    fields: Fields,
    renewals: map<nat, Renewal>,
    nextId: nat,
    ticks: nat,                   // interval callbacks fired
    installed: nat,               // renewals whose lock was installed
    lossReports: nat,             // "lock was lost" notifications sent
    toRelease: Option<nat>,       // the unlock call in flight
    releasedAt: Option<Millis>,
    inTime: bool)                 // every callback so far has fired when due

  /** The clock readings of one uninterrupted segment, in the order they are taken. */
  datatype Readings = Readings(checkedAt: Millis, now: Millis, createdAt: Millis)

  datatype Step =
    | Others(step: Lease.Step)
    | Tick(at: Readings)
    | Store(id: nat, now: Millis)
    | Throw(id: nat)
    | Recover(id: nat, at: Readings)
    | Complete(id: nat)
    | Unlock
    | Release(rule: Lease.UnlockRule, now: Millis)

  /** The interval between ticks. */
  function Period(base: LockConfiguration): Millis {
    (base.lockAtMostFor / 2.0).Floor as real
  }

  /** `n` periods, as a sum. */
  function Times(n: nat, x: Millis): Millis {
    if n == 0 then 0.0 else Times(n - 1, x) + x
  }

  /** When a callback that follows `ticks` others is due for the minimum hold's sake: each renewal
      before it may have taken half a lockAtMostFor off the remaining minimum, and the clock must
      have given that back. The nominal time is about a period later. */
  function Due(base: LockConfiguration, ticks: nat): Millis {
    base.createdAt + Min(base.lockAtLeastFor, Times(ticks, base.lockAtMostFor / 2.0))
  }

  function OwnHandle(w: World, i: nat): bool {
    i < |w.lease.handles| && w.lease.handles[i].tenure == w.own
  }

  /** The lock was just acquired from the underlying provider in some run of the lease. */
  ghost predicate Start(w: World) {
    var last := |w.lease.handles| - 1;
    && Lease.WellFormed(w.lease)
    && w.own == |w.lease.tenures| - 1
    && 0 <= last && w.lease.handles[last] == Lease.Handle(w.own, w.base, w.lease.handles[last].host, true)
    && (forall i :: 0 <= i < last ==> w.lease.handles[i].tenure != w.own)
    && w.lease.tenures[w.own] == Lease.Tenure(true, false)
    && w.lease.cell.Some? && w.lease.cell.value.owner == w.lease.cell.value.writer == w.own
    && w.lease.cell.value.row.lockUntil == LockAtMostUntil(w.base)
    && ValidDurations(w.base) && MIN_LOCK_AT_MOST_FOR <= w.base.lockAtMostFor
    && w.base.createdAt <= w.lease.clock
    && w == World(w.lease, w.own, w.base, Fresh(w.base, last), map[], 0, 0, 0, 0, None, None, true)
  }

  predicate InOrder(w: World, at: Readings) {
    w.lease.clock <= at.checkedAt <= at.now <= at.createdAt
  }

  ghost predicate Enabled(w: World, step: Step) {
    Lease.WellFormed(w.lease) &&
    match step
    case Others(s) =>
      && Lease.Enabled(w.lease, s)
      && (s.Extend? || s.Unlock? ==> !OwnHandle(w, s.handle))
    case Tick(at) => InOrder(w, at)
    case Store(id, now) =>
      && id in w.renewals && w.renewals[id].phase.InFlight?
      && Lease.Enabled(w.lease, Lease.Extend(w.renewals[id].extended, w.renewals[id].config, now))
    case Throw(id) => id in w.renewals && !w.renewals[id].phase.Failed?
    case Recover(id, at) => id in w.renewals && w.renewals[id].phase.Failed? && InOrder(w, at)
    case Complete(id) => id in w.renewals && w.renewals[id].phase.Answered?
    case Unlock => !w.fields.released
    case Release(rule, now) =>
      w.toRelease.Some? && Lease.Enabled(w.lease, Lease.Unlock(w.toRelease.value, rule, now))
  }

  /** Runs the first segment of a renewal, which may put a request in flight. */
  function Launch(w: World, at: Readings, retry: bool): World {
    var (k, begun) := Begin(w.fields, at.checkedAt, at.now);
    var w := w.(lease := w.lease.(clock := at.createdAt), fields := k);
    match begun
    case Inactive => w
    case FoundLost => w.(lossReports := w.lossReports + 1)
    case Requested(extended, next, now) =>
      var config := LockConfiguration(w.base.name, w.base.lockAtMostFor, next, at.createdAt);
      Request(w, Renewal(retry, extended, now, config, InFlight))
  }

  function Request(w: World, r: Renewal): World {
    w.(renewals := w.renewals[w.nextId := r], nextId := w.nextId + 1)
  }

  function AfterTick(w: World, at: Readings): World {
    Launch(CountTick(w, at.checkedAt), at, false)
  }

  function CountTick(w: World, firedAt: Millis): World {
    w.(ticks := w.ticks + 1,
       inTime := w.inTime && firedAt >= Due(w.base, w.ticks))
  }

  function AfterStore(w: World, id: nat, now: Millis): World
    requires Lease.WellFormed(w.lease) && id in w.renewals && w.renewals[id].extended < |w.lease.handles|
  {
    var r := w.renewals[id];
    var lease := Lease.AfterExtend(w.lease, r.extended, r.config, now);
    var answer := if |lease.handles| > |w.lease.handles| then Some(|w.lease.handles|) else None;
    w.(lease := lease, renewals := w.renewals[id := r.(phase := Answered(answer))])
  }

  function AfterThrow(w: World, id: nat): World
    requires id in w.renewals
  {
    w.(renewals := w.renewals[id := w.renewals[id].(phase := Failed)])
  }

  function AfterRecover(w: World, id: nat, at: Readings): World
    requires id in w.renewals
  {
    var rest := w.(renewals := w.renewals - {id});
    if w.renewals[id].retry then rest.(fields := GiveUp(w.fields)) else Launch(rest, at, true)
  }

  function AfterComplete(w: World, id: nat): World
    requires id in w.renewals && w.renewals[id].phase.Answered?
  {
    var r := w.renewals[id];
    var (k, report) := Finish(w.fields, w.base, r.extended, r.config.lockAtLeastFor, r.now, r.phase.answer);
    w.(fields := k,
       renewals := w.renewals - {id},
       installed := w.installed + (if !w.fields.released && r.phase.answer.Some? then 1 else 0),
       lossReports := w.lossReports + (if report then 1 else 0))
  }

  ghost function Next(w: World, step: Step): World
    requires Enabled(w, step)
  {
    match step
    case Others(s) => w.(lease := Lease.Next(w.lease, s))
    case Tick(at) => AfterTick(w, at)
    case Store(id, now) => AfterStore(w, id, now)
    case Throw(id) => AfterThrow(w, id)
    case Recover(id, at) => AfterRecover(w, id, at)
    case Complete(id) => AfterComplete(w, id)
    case Unlock =>
      var (k, target) := StartUnlock(w.fields);
      w.(fields := k, toRelease := target, releasedAt := Some(w.lease.clock))
    case Release(rule, now) =>
      w.(lease := Lease.AfterUnlock(w.lease, w.toRelease.value, rule, now), toRelease := None)
  }

  ghost predicate IsRun(w: World, steps: seq<Step>)
    decreases |steps|
  {
    steps == [] || (Enabled(w, steps[0]) && IsRun(Next(w, steps[0]), steps[1..]))
  }

  ghost function Run(w: World, steps: seq<Step>): World
    requires IsRun(w, steps)
    decreases |steps|
  {
    if steps == [] then w else Run(Next(w, steps[0]), steps[1..])
  }
}

/** What every run of a keep-alive lock keeps. */
module KeepAliveSafety {
  import opened LockConfigurations
  import Lease
  import LeaseSafety
  import opened KeepAlive
  import opened KeepAliveRuns

  // ---- The lease below, and the shape of this lock's own requests

  ghost predicate LeaseFits(w: World) {
    && LeaseSafety.Inv(w.lease)
    && w.own < |w.lease.tenures|
    && w.lease.tenures[w.own].monotone
    && (w.lease.tenures[w.own].closed ==> w.fields.released && w.toRelease.None?)
  }

  ghost predicate BaseFits(w: World) {
    && ValidDurations(w.base) && MIN_LOCK_AT_MOST_FOR <= w.base.lockAtMostFor
    && w.base.createdAt <= w.lease.clock
  }

  /** No later than any request of this lock. */
  function Horizon(w: World): Millis {
    match w.releasedAt case None => w.lease.clock case Some(t) => Min(t, w.lease.clock)
  }

  ghost predicate OwnConfig(w: World, config: LockConfiguration) {
    && config.lockAtMostFor == w.base.lockAtMostFor
    && 0.0 <= config.lockAtLeastFor <= w.base.lockAtLeastFor
    && w.base.createdAt <= config.createdAt <= Horizon(w)
    && (w.inTime ==> LockAtLeastUntil(config) >= LockAtLeastUntil(w.base))
  }

  /** Every lock object of this tenure, and every request for one, is well shaped. */
  ghost predicate HandlesFit(w: World) {
    && (forall i :: 0 <= i < |w.lease.handles| && w.lease.handles[i].tenure == w.own ==> OwnConfig(w, w.lease.handles[i].config))
    && OwnHandle(w, w.fields.currentLock)
    && w.fields.currentLockAtMostUntil <= LockAtMostUntil(w.lease.handles[w.fields.currentLock].config)
    && (w.toRelease.Some? ==> OwnHandle(w, w.toRelease.value))
  }

  ghost predicate RequestFits(w: World, r: Renewal) {
    && OwnHandle(w, r.extended)
    && OwnConfig(w, r.config)
    && r.now <= r.config.createdAt
    && w.lease.handles[r.extended].config.createdAt <= r.config.createdAt
    && (r.phase.Answered? && r.phase.answer.Some? ==>
          OwnHandle(w, r.phase.answer.value) && w.lease.handles[r.phase.answer.value].config == r.config)
  }

  ghost predicate RequestsFit(w: World) {
    forall id <- w.renewals :: id < w.nextId && RequestFits(w, w.renewals[id])
  }

  // ---- The state machine

  /** The lock a renewal has been granted is new to everybody else. */
  ghost predicate AnswerIsNew(fields: Fields, renewals: map<nat, Renewal>, id: nat)
    requires id in renewals
  {
    renewals[id].phase.Answered? && renewals[id].phase.answer.Some? ==>
      var lock := renewals[id].phase.answer.value;
      && lock != fields.currentLock
      && (forall other <- renewals ::
            && renewals[other].extended != lock
            && (other != id ==> renewals[other].phase != Answered(Some(lock))))
  }

  ghost predicate MachineFits(fields: Fields, renewals: map<nat, Renewal>, lossReports: nat) {
    && (fields.lost || fields.released ==> !fields.active)
    && (forall id <- renewals :: AnswerIsNew(fields, renewals, id))
    && lossReports <= 1
    && (fields.lost ==> lossReports == 1)
    && (lossReports == 1 ==>
          !fields.active && (fields.lost || forall id <- renewals :: renewals[id].extended != fields.currentLock))
  }

  ghost predicate ReleaseFits(w: World) {
    && (w.releasedAt.Some? <==> w.fields.released)
    && (w.releasedAt.Some? ==> w.releasedAt.value <= w.lease.clock)
    && (w.toRelease.Some? ==> w.fields.released)
  }

  // ---- The decay of the remaining minimum

  /** Half a lockAtMostFor for each installed renewal. */
  function Decay(w: World): Millis {
    Times(w.installed, w.base.lockAtMostFor / 2.0)
  }

  ghost predicate DecayFits(w: World) {
    && w.installed + |w.renewals| <= w.ticks
    && 0.0 <= w.fields.remainingLockAtLeastFor <= w.base.lockAtLeastFor
    && w.fields.remainingLockAtLeastFor >= w.base.lockAtLeastFor - Decay(w)
    && (forall id <- w.renewals :: w.renewals[id].config.lockAtLeastFor >= w.base.lockAtLeastFor - Decay(w))
    && (w.inTime && w.ticks > 0 ==> w.lease.clock >= Due(w.base, w.ticks - 1))
  }

  /** Until the promised minimum has passed, the row is this lock's and outlasts it. */
  ghost predicate MinimumFits(w: World) {
    w.inTime ==>
      || w.lease.clock >= LockAtLeastUntil(w.base)
      || (&& w.lease.cell.Some?
          && w.lease.cell.value.owner == w.own
          && w.lease.cell.value.row.lockUntil >= LockAtLeastUntil(w.base))
  }

  /** No row this lock wrote last outlives its horizon by more than lockAtMostFor. */
  ghost predicate LeakBounded(w: World) {
    w.lease.cell.Some? && w.lease.cell.value.writer == w.own ==>
      w.lease.cell.value.row.lockUntil <= Max(w.lease.clock, Horizon(w) + w.base.lockAtMostFor)
  }

  /** Everything that does not speak of the lease's own invariant. */
  ghost predicate LocalInv(w: World) {
    && BaseFits(w) && HandlesFit(w) && RequestsFit(w) && ReleaseFits(w)
    && MachineFits(w.fields, w.renewals, w.lossReports)
    && DecayFits(w) && MinimumFits(w) && LeakBounded(w)
  }

  ghost predicate Inv(w: World) {
    LeaseFits(w) && LocalInv(w)
  }

  lemma StartFits(w: World)
    requires Start(w) && LeaseSafety.Inv(w.lease)
    ensures Inv(w)
  {
  }

  /** Everything the invariant says of the lock objects and of the stored row stays the same. */
  ghost predicate SameStanding(w: World, w': World) {
    && w'.lease == w.lease && w'.own == w.own && w'.base == w.base
    && w'.toRelease == w.toRelease && w'.releasedAt == w.releasedAt && w'.inTime == w.inTime
    && w'.fields.currentLock == w.fields.currentLock
    && w'.fields.currentLockAtMostUntil == w.fields.currentLockAtMostUntil
    && w'.fields.released == w.fields.released
  }

  lemma KeptWithSameStanding(w: World, w': World)
    requires LocalInv(w) && SameStanding(w, w')
    requires RequestsFit(w') && MachineFits(w'.fields, w'.renewals, w'.lossReports) && DecayFits(w')
    ensures LocalInv(w')
  {
    assert forall config :: OwnConfig(w, config) ==> OwnConfig(w', config);
  }

  lemma RequestsFitStill(w: World, w': World)
    requires RequestsFit(w) && SameStanding(w, w') && w.nextId <= w'.nextId
    requires forall id <- w'.renewals :: id in w.renewals && w'.renewals[id] == w.renewals[id]
    ensures RequestsFit(w')
  {
    forall id <- w'.renewals ensures RequestFits(w', w'.renewals[id]) { assert RequestFits(w, w.renewals[id]); }
  }

  // ---- Steps of the other holders

  /** What a step of the lease that is not this tenure's leaves to this tenure. */
  ghost predicate Undisturbed(s: Lease.State, s': Lease.State, t: nat) {
    && |s.handles| <= |s'.handles|
    && (forall i :: 0 <= i < |s.handles| ==>
          s'.handles[i].tenure == s.handles[i].tenure && (s.handles[i].tenure == t ==> s'.handles[i] == s.handles[i]))
    && (forall i :: |s.handles| <= i < |s'.handles| ==> s'.handles[i].tenure != t)
    && t < |s.tenures| <= |s'.tenures|
    && s'.tenures[t] == s.tenures[t]
    && s.clock <= s'.clock
    && (s'.cell.Some? && s'.cell.value.writer == t ==> s.cell == s'.cell)
    && (Lease.RowIsLive(s) && s.cell.value.owner == t ==>
          && s'.cell.Some? && s'.cell.value.owner == t
          && s'.cell.value.row.lockUntil >= s.cell.value.row.lockUntil)
  }

  lemma OthersLeaveUndisturbed(s: Lease.State, step: Lease.Step, t: nat)
    requires LeaseSafety.Inv(s) && Lease.Enabled(s, step) && t < |s.tenures|
    requires step.Extend? || step.Unlock? ==> s.handles[step.handle].tenure != t
    ensures Undisturbed(s, Lease.Next(s, step), t)
  {
    match step
    case Advance(_) =>
    case Acquire(_, _, _, _) =>
    case Sweep(_) =>
    case Extend(i, config, now) =>
      if Lease.RowIsLive(s) && s.cell.value.owner == t {
        LeaseSafety.LateExtensionOnlyLengthens(s, i, config, now);
      }
    case Unlock(i, rule, now) =>
      assert LockAtMostUntil(s.handles[i].config) > s.clock ==> LeaseSafety.Holds(s, i);
  }

  lemma KeptWhenUndisturbed(w: World, w': World)
    requires LocalInv(w) && Undisturbed(w.lease, w'.lease, w.own)
    requires w' == w.(lease := w'.lease)
    ensures LocalInv(w')
  {
    assert Horizon(w) <= Horizon(w');
    forall config | OwnConfig(w, config) ensures OwnConfig(w', config) {}
    forall id <- w'.renewals ensures RequestFits(w', w'.renewals[id]) {
      assert RequestFits(w, w.renewals[id]);
    }
  }

  // ---- Ticks and retries

  lemma {:induction false} TimesGrows(a: nat, b: nat, x: Millis)
    requires a <= b && 0.0 <= x
    ensures Times(a, x) <= Times(b, x)
    decreases b
  {
    if a < b { TimesGrows(a, b - 1, x); }
  }

  /** A renewal that asks for what is left after `installed` others reaches the original minimum
      exactly if it starts when due. */
  lemma RenewalReachesMinimumExactlyIf(base: LockConfiguration, installed: nat, now: Millis)
    ensures now + Max(0.0, base.lockAtLeastFor - Times(installed, base.lockAtMostFor / 2.0)) >= LockAtLeastUntil(base)
      <==> now >= Due(base, installed)
  {
  }

  /** A renewal that follows fewer installed renewals than ticks asks for enough. */
  lemma RequestCoversMinimum(base: LockConfiguration, installed: nat, ticks: nat, now: Millis, next: Millis)
    requires ValidDurations(base)
    requires installed < ticks && now >= Due(base, ticks - 1)
    requires 0.0 <= next && next >= base.lockAtLeastFor - Times(installed, base.lockAtMostFor / 2.0)
    ensures now + next >= LockAtLeastUntil(base)
  {
    TimesGrows(installed, ticks - 1, base.lockAtMostFor / 2.0);
    RenewalReachesMinimumExactlyIf(base, installed, now);
  }

  /** A callback at its nominal time, or up to about a period before it, is in time: rounding the
      period down never costs more than that. */
  lemma NominalTimeIsInTime(base: LockConfiguration, ticks: nat, firedAt: Millis)
    requires ValidDurations(base) && MIN_LOCK_AT_MOST_FOR <= base.lockAtMostFor
    requires firedAt >= base.createdAt + Times(ticks + 1, Period(base))
    ensures firedAt >= Due(base, ticks)
  {
    var p, half := Period(base), base.lockAtMostFor / 2.0;
    assert p > half - 1.0;
    assert Times(1, p) == p && Times(2, p) == Times(1, p) + p && Times(3, p) == Times(2, p) + p;
    assert Times(1, half) == half;
    if ticks == 0 {
      TimesGrows(0, 1, p);
    } else if ticks == 1 {
      TimesGrows(2, ticks + 1, p);
    } else {
      TimesGrows(3, ticks + 1, p);
    }
  }

  lemma AdvanceKeepsLocal(w: World, to: Millis)
    requires LocalInv(w) && w.own < |w.lease.tenures| && w.lease.clock <= to
    ensures LocalInv(w.(lease := w.lease.(clock := to)))
  {
    KeptWhenUndisturbed(w, w.(lease := w.lease.(clock := to)));
  }

  lemma LaunchKeepsLocal(w: World, at: Readings, retry: bool)
    requires LocalInv(w) && w.own < |w.lease.tenures| && InOrder(w, at) && w.installed + |w.renewals| < w.ticks
    ensures LocalInv(Launch(w, at, retry))
  {
    var now := w.(lease := w.lease.(clock := at.createdAt));
    AdvanceKeepsLocal(w, at.createdAt);
    var (k, begun) := Begin(w.fields, at.checkedAt, at.now);
    match begun
    case Inactive => assert Launch(w, at, retry) == now;
    case FoundLost => LossKeepsLocal(now);
    case Requested(extended, next, startedAt) =>
      var config := LockConfiguration(w.base.name, w.base.lockAtMostFor, next, at.createdAt);
      NewRequestFits(now, Renewal(retry, extended, startedAt, config, InFlight));
      RequestKeepsLocal(now, Renewal(retry, extended, startedAt, config, InFlight));
  }

  lemma NewRequestFits(w: World, r: Renewal)
    requires LocalInv(w) && w.fields.active && w.installed < w.ticks
    requires r.phase.InFlight? && r.extended == w.fields.currentLock && r.now <= w.lease.clock
    requires r.config == LockConfiguration(w.base.name, w.base.lockAtMostFor, Max(0.0, w.fields.remainingLockAtLeastFor), w.lease.clock)
    ensures RequestFits(w, r)
  {
    if w.inTime {
      RequestCoversMinimum(w.base, w.installed, w.ticks, w.lease.clock, r.config.lockAtLeastFor);
    }
    assert OwnConfig(w, w.lease.handles[w.fields.currentLock].config);
  }

  lemma LossKeepsLocal(w: World)
    requires LocalInv(w) && w.fields.active
    ensures LocalInv(w.(fields := w.fields.(lost := true, active := false), lossReports := w.lossReports + 1))
  {
    var w' := w.(fields := w.fields.(lost := true, active := false), lossReports := w.lossReports + 1);
    RequestsFitStill(w, w');
    assert MachineFits(w'.fields, w'.renewals, w'.lossReports) by {
      forall id <- w'.renewals ensures AnswerIsNew(w'.fields, w'.renewals, id) { assert AnswerIsNew(w.fields, w.renewals, id); }
    }
    KeptWithSameStanding(w, w');
  }

  lemma MachineAfterRequest(fields: Fields, renewals: map<nat, Renewal>, lossReports: nat, id: nat, r: Renewal)
    requires MachineFits(fields, renewals, lossReports) && fields.active && id !in renewals
    requires r.phase.InFlight? && r.extended == fields.currentLock
    ensures MachineFits(fields, renewals[id := r], lossReports)
  {
    var more := renewals[id := r];
    forall i <- more ensures AnswerIsNew(fields, more, i) {
      if i != id { assert AnswerIsNew(fields, renewals, i); }
    }
  }

  lemma RequestKeepsLocal(w: World, r: Renewal)
    requires LocalInv(w) && w.fields.active && w.installed + |w.renewals| < w.ticks
    requires r.phase.InFlight? && r.extended == w.fields.currentLock && RequestFits(w, r)
    requires r.config.lockAtLeastFor >= w.base.lockAtLeastFor - Decay(w)
    ensures LocalInv(Request(w, r))
  {
    var w' := Request(w, r);
    assert RequestsFit(w') by { MoreRequestsFit(w, r); }
    assert MachineFits(w'.fields, w'.renewals, w'.lossReports) by {
      MachineAfterRequest(w.fields, w.renewals, w.lossReports, w.nextId, r);
    }
    assert DecayFits(w') by { DecayAfterRequest(w, r); }
    KeptWithSameStanding(w, w');
  }

  lemma DecayAfterRequest(w: World, r: Renewal)
    requires DecayFits(w) && w.installed + |w.renewals| < w.ticks && w.nextId !in w.renewals
    requires r.config.lockAtLeastFor >= w.base.lockAtLeastFor - Decay(w)
    ensures DecayFits(Request(w, r))
  {
    OneMore(w.renewals, w.nextId, r);
    var w' := Request(w, r);
    assert Decay(w') == Decay(w);
    forall id <- w'.renewals ensures w'.renewals[id].config.lockAtLeastFor >= w'.base.lockAtLeastFor - Decay(w') {
      if id != w.nextId { assert id in w.renewals; }
    }
  }

  lemma OneMore(renewals: map<nat, Renewal>, id: nat, r: Renewal)
    requires id !in renewals
    ensures |renewals[id := r]| == |renewals| + 1
  {
    assert renewals[id := r].Keys == renewals.Keys + {id};
    assert |renewals[id := r]| == |renewals[id := r].Keys|;
  }

  lemma OneLess(renewals: map<nat, Renewal>, id: nat)
    requires id in renewals
    ensures |renewals - {id}| == |renewals| - 1
  {
    assert (renewals - {id}).Keys == renewals.Keys - {id};
    assert |renewals - {id}| == |(renewals - {id}).Keys|;
  }

  lemma MoreRequestsFit(w: World, r: Renewal)
    requires RequestsFit(w) && RequestFits(w, r)
    ensures RequestsFit(Request(w, r))
  {
    forall id <- Request(w, r).renewals ensures RequestFits(Request(w, r), Request(w, r).renewals[id]) {
      assert RequestFits(w, Request(w, r).renewals[id]);
    }
  }

  lemma TickKeepsLocal(w: World, at: Readings)
    requires LocalInv(w) && w.own < |w.lease.tenures| && InOrder(w, at)
    ensures LocalInv(AfterTick(w, at))
  {
    var fired := w.(lease := w.lease.(clock := at.checkedAt));
    AdvanceKeepsLocal(w, at.checkedAt);
    CountTickKeepsLocal(fired);
    var counted := CountTick(fired, at.checkedAt);
    LaunchKeepsLocal(counted, at, false);
    LaunchReadsClock(CountTick(w, at.checkedAt), at.checkedAt, at, false);
  }

  /** A launch reads the clock itself. */
  lemma LaunchReadsClock(w: World, clock: Millis, at: Readings, retry: bool)
    ensures Launch(w.(lease := w.lease.(clock := clock)), at, retry) == Launch(w, at, retry)
  {
  }

  lemma CountTickKeepsLocal(w: World)
    requires LocalInv(w)
    ensures LocalInv(CountTick(w, w.lease.clock))
  {
    var w' := CountTick(w, w.lease.clock);
    forall config | OwnConfig(w, config) ensures OwnConfig(w', config) {}
    forall id <- w'.renewals ensures RequestFits(w', w'.renewals[id]) { assert RequestFits(w, w.renewals[id]); }
  }

  /** Forgetting a renewal. */
  lemma DropKeepsLocal(w: World, id: nat)
    requires LocalInv(w) && id in w.renewals
    ensures var w' := w.(renewals := w.renewals - {id}); LocalInv(w') && w'.installed + |w'.renewals| < w'.ticks
  {
    var w' := w.(renewals := w.renewals - {id});
    RequestsFitStill(w, w');
    assert MachineFits(w'.fields, w'.renewals, w'.lossReports) by {
      forall i <- w'.renewals ensures AnswerIsNew(w'.fields, w'.renewals, i) { assert AnswerIsNew(w.fields, w.renewals, i); }
    }
    OneLess(w.renewals, id);
    DecayFitsStill(w, w');
    KeptWithSameStanding(w, w');
  }

  lemma DecayFitsStill(w: World, w': World)
    requires DecayFits(w) && w' == w.(renewals := w'.renewals) && |w'.renewals| <= |w.renewals|
    requires forall id <- w'.renewals :: id in w.renewals && w'.renewals[id].config == w.renewals[id].config
    ensures DecayFits(w')
  {
    assert Decay(w') == Decay(w);
  }

  lemma GiveUpKeepsLocal(w: World)
    requires LocalInv(w)
    ensures LocalInv(w.(fields := GiveUp(w.fields)))
  {
    var w' := w.(fields := GiveUp(w.fields));
    RequestsFitStill(w, w');
    MachineAfterGiveUp(w.fields, w.renewals, w.lossReports);
    assert Decay(w') == Decay(w) && DecayFits(w');
    KeptWithSameStanding(w, w');
  }

  lemma MachineAfterGiveUp(fields: Fields, renewals: map<nat, Renewal>, lossReports: nat)
    requires MachineFits(fields, renewals, lossReports)
    ensures MachineFits(GiveUp(fields), renewals, lossReports)
  {
    forall i <- renewals ensures AnswerIsNew(GiveUp(fields), renewals, i) { assert AnswerIsNew(fields, renewals, i); }
  }

  lemma RecoverKeepsLocal(w: World, id: nat, at: Readings)
    requires LocalInv(w) && w.own < |w.lease.tenures| && Enabled(w, Recover(id, at))
    ensures LocalInv(AfterRecover(w, id, at))
  {
    var rest := w.(renewals := w.renewals - {id});
    DropKeepsLocal(w, id);
    if w.renewals[id].retry {
      GiveUpKeepsLocal(rest);
    } else {
      LaunchKeepsLocal(rest, at, true);
    }
  }

  // ---- A renewal that throws

  lemma ThrowKeepsLocal(w: World, id: nat)
    requires LocalInv(w) && Enabled(w, Throw(id))
    ensures LocalInv(AfterThrow(w, id))
  {
    var w' := AfterThrow(w, id);
    assert RequestsFit(w') by { RephaseKeepsRequests(w, w', id, Failed); }
    assert MachineFits(w'.fields, w'.renewals, w'.lossReports) by {
      MachineAfterRephase(w.fields, w.renewals, w.lossReports, id, Failed);
    }
    DecayAfterRephase(w, w', id);
    KeptWithSameStanding(w, w');
  }

  lemma RephaseKeepsRequests(w: World, w': World, id: nat, phase: Phase)
    requires RequestsFit(w) && id in w.renewals
    requires w' == w.(renewals := w.renewals[id := w.renewals[id].(phase := phase)], lease := w'.lease)
    requires |w.lease.handles| <= |w'.lease.handles|
    requires w'.lease.clock == w.lease.clock
    requires forall i :: 0 <= i < |w.lease.handles| ==>
      w'.lease.handles[i].tenure == w.lease.handles[i].tenure && w'.lease.handles[i].config == w.lease.handles[i].config
    requires phase.Answered? && phase.answer.Some? ==>
      OwnHandle(w', phase.answer.value) && w'.lease.handles[phase.answer.value].config == w.renewals[id].config
    ensures RequestsFit(w')
  {
    forall i <- w'.renewals ensures RequestFits(w', w'.renewals[i]) {
      assert RequestFits(w, w.renewals[i]);
    }
  }

  /** Changing the phase of one renewal, to one whose answer, if any, is new. */
  lemma MachineAfterRephase(fields: Fields, renewals: map<nat, Renewal>, lossReports: nat, id: nat, phase: Phase)
    requires MachineFits(fields, renewals, lossReports) && id in renewals
    requires phase.Answered? && phase.answer.Some? ==>
      && fields.currentLock != phase.answer.value
      && (forall i <- renewals :: renewals[i].extended != phase.answer.value && renewals[i].phase != phase)
    ensures MachineFits(fields, renewals[id := renewals[id].(phase := phase)], lossReports)
  {
    var later := renewals[id := renewals[id].(phase := phase)];
    forall i <- later ensures AnswerIsNew(fields, later, i) {
      assert AnswerIsNew(fields, renewals, i);
    }
  }

  // ---- The store runs a renewal's statement

  lemma StoreKeepsLocal(w: World, id: nat, now: Millis)
    requires LocalInv(w) && Enabled(w, Store(id, now))
    ensures LocalInv(AfterStore(w, id, now))
  {
    StoredHandlesFit(w, id, now);
    StoredMinimumFits(w, id, now);
    StoredLeakBounded(w, id, now);
    StoredAnswerFits(w, id, now);
    DecayAfterRephase(w, AfterStore(w, id, now), id);
  }

  lemma DecayAfterRephase(w: World, w': World, id: nat)
    requires DecayFits(w) && id in w.renewals
    requires id in w'.renewals
    requires w' == w.(lease := w'.lease, renewals := w.renewals[id := w'.renewals[id]]) && w'.lease.clock == w.lease.clock
    requires w'.renewals[id].config == w.renewals[id].config
    ensures DecayFits(w')
  {
    assert w'.renewals.Keys == w.renewals.Keys;
    assert |w'.renewals| == |w.renewals.Keys| == |w.renewals|;
  }

  lemma StoredAnswerFits(w: World, id: nat, now: Millis)
    requires HandlesFit(w) && RequestsFit(w) && MachineFits(w.fields, w.renewals, w.lossReports) && Enabled(w, Store(id, now))
    ensures var w' := AfterStore(w, id, now); RequestsFit(w') && MachineFits(w'.fields, w'.renewals, w'.lossReports)
  {
    var w' := AfterStore(w, id, now);
    assert RequestFits(w, w.renewals[id]);
    RephaseKeepsRequests(w, w', id, w'.renewals[id].phase);
    HandleBounds(w);
    MachineAfterRephase(w.fields, w.renewals, w.lossReports, id, w'.renewals[id].phase);
  }

  /** No lock known to this object is numbered like one still to be created. */
  lemma HandleBounds(w: World)
    requires HandlesFit(w) && RequestsFit(w)
    ensures w.fields.currentLock < |w.lease.handles|
    ensures forall id <- w.renewals ::
      && w.renewals[id].extended < |w.lease.handles|
      && w.renewals[id].phase != Answered(Some(|w.lease.handles|))
  {
    forall id <- w.renewals
      ensures w.renewals[id].extended < |w.lease.handles|
      ensures w.renewals[id].phase != Answered(Some(|w.lease.handles|))
    {
      assert RequestFits(w, w.renewals[id]);
    }
  }

  lemma StoredHandlesFit(w: World, id: nat, now: Millis)
    requires HandlesFit(w) && RequestsFit(w) && Enabled(w, Store(id, now))
    ensures HandlesFit(AfterStore(w, id, now))
  {
    assert RequestFits(w, w.renewals[id]);
    assert forall config :: OwnConfig(w, config) ==> OwnConfig(AfterStore(w, id, now), config);
  }

  lemma StoredMinimumFits(w: World, id: nat, now: Millis)
    requires LocalInv(w) && Enabled(w, Store(id, now))
    ensures MinimumFits(AfterStore(w, id, now))
  {
    assert RequestFits(w, w.renewals[id]);
  }

  lemma StoredLeakBounded(w: World, id: nat, now: Millis)
    requires LocalInv(w) && Enabled(w, Store(id, now))
    ensures LeakBounded(AfterStore(w, id, now))
  {
    assert RequestFits(w, w.renewals[id]);
  }

  // ---- The answer arrives

  lemma CompleteKeepsLocal(w: World, id: nat)
    requires LocalInv(w) && Enabled(w, Complete(id))
    ensures LocalInv(AfterComplete(w, id))
  {
    AnsweredRequestsFit(w, id);
    MachineAfterAnswer(w.fields, w.base, w.renewals, w.lossReports, id);
    assert DecayFits(AfterComplete(w, id)) by { DecayAfterAnswer(w, id); }
  }

  lemma AnsweredRequestsFit(w: World, id: nat)
    requires BaseFits(w) && HandlesFit(w) && RequestsFit(w) && Enabled(w, Complete(id))
    ensures var w' := AfterComplete(w, id); HandlesFit(w') && RequestsFit(w')
    ensures 0.0 <= w.renewals[id].config.lockAtLeastFor <= w.base.lockAtLeastFor
  {
    var w' := AfterComplete(w, id);
    assert RequestFits(w, w.renewals[id]);
    forall i <- w'.renewals ensures RequestFits(w', w'.renewals[i]) { assert RequestFits(w, w.renewals[i]); }
  }

  lemma MachineAfterAnswer(fields: Fields, base: LockConfiguration, renewals: map<nat, Renewal>, lossReports: nat, id: nat)
    requires MachineFits(fields, renewals, lossReports) && id in renewals && renewals[id].phase.Answered?
    ensures var r := renewals[id];
      var (k, report) := Finish(fields, base, r.extended, r.config.lockAtLeastFor, r.now, r.phase.answer);
      MachineFits(k, renewals - {id}, lossReports + (if report then 1 else 0))
  {
    var r := renewals[id];
    var (k, report) := Finish(fields, base, r.extended, r.config.lockAtLeastFor, r.now, r.phase.answer);
    var rest := renewals - {id};
    assert AnswerIsNew(fields, renewals, id);
    forall i <- rest ensures AnswerIsNew(k, rest, i) {
      assert AnswerIsNew(fields, renewals, i);
    }
  }

  lemma DecayAfterAnswer(w: World, id: nat)
    requires DecayFits(w) && 0.0 < w.base.lockAtMostFor && id in w.renewals && w.renewals[id].phase.Answered?
    requires 0.0 <= w.renewals[id].config.lockAtLeastFor <= w.base.lockAtLeastFor
    ensures DecayFits(AfterComplete(w, id))
  {
    var w' := AfterComplete(w, id);
    OneLess(w.renewals, id);
    assert Times(w.installed + 1, w.base.lockAtMostFor / 2.0) == Decay(w) + w.base.lockAtMostFor / 2.0;
    assert Decay(w) <= Decay(w') <= Decay(w) + w.base.lockAtMostFor / 2.0;
  }

  // ---- The unlock

  lemma UnlockKeepsLocal(w: World)
    requires LocalInv(w) && Enabled(w, Unlock)
    ensures LocalInv(Next(w, Unlock))
  {
    var w' := Next(w, Unlock);
    MachineAfterUnlock(w.fields, w.renewals, w.lossReports);
    UnlockKeepsLocks(w);
    assert Decay(w') == Decay(w) && DecayFits(w');
    assert MinimumFits(w') && LeakBounded(w');
  }

  lemma MachineAfterUnlock(fields: Fields, renewals: map<nat, Renewal>, lossReports: nat)
    requires MachineFits(fields, renewals, lossReports)
    ensures MachineFits(StartUnlock(fields).0, renewals, lossReports)
  {
    forall i <- renewals ensures AnswerIsNew(StartUnlock(fields).0, renewals, i) { assert AnswerIsNew(fields, renewals, i); }
  }

  lemma UnlockKeepsLocks(w: World)
    requires HandlesFit(w) && RequestsFit(w) && ReleaseFits(w) && Enabled(w, Unlock)
    ensures var w' := Next(w, Unlock); HandlesFit(w') && RequestsFit(w')
  {
    var w' := Next(w, Unlock);
    assert forall config :: OwnConfig(w, config) ==> OwnConfig(w', config);
    forall i <- w'.renewals ensures RequestFits(w', w'.renewals[i]) { assert RequestFits(w, w.renewals[i]); }
  }

  lemma ReleaseKeepsLocal(w: World, rule: Lease.UnlockRule, now: Millis)
    requires LocalInv(w) && Enabled(w, Release(rule, now))
    ensures LocalInv(Next(w, Release(rule, now)))
  {
    var w' := Next(w, Release(rule, now));
    ReleasedLocksFit(w, rule, now);
    ReleasedRowFits(w, rule, now);
    ReleasedRestFits(w, rule, now);
  }

  lemma ReleasedRestFits(w: World, rule: Lease.UnlockRule, now: Millis)
    requires LocalInv(w) && Enabled(w, Release(rule, now))
    ensures var w' := Next(w, Release(rule, now));
      BaseFits(w') && MachineFits(w'.fields, w'.renewals, w'.lossReports) && ReleaseFits(w') && DecayFits(w')
  {
    DecayFitsWhen(w, Next(w, Release(rule, now)));
  }

  lemma DecayFitsWhen(w: World, w': World)
    requires DecayFits(w)
    requires w'.renewals == w.renewals && w'.installed == w.installed && w'.ticks == w.ticks && w'.base == w.base
    requires w'.inTime == w.inTime && w'.fields == w.fields && w.lease.clock <= w'.lease.clock
    ensures DecayFits(w')
  {
    assert Decay(w') == Decay(w);
  }

  lemma ReleasedLocksFit(w: World, rule: Lease.UnlockRule, now: Millis)
    requires HandlesFit(w) && RequestsFit(w) && Enabled(w, Release(rule, now))
    ensures var w' := Next(w, Release(rule, now)); HandlesFit(w') && RequestsFit(w')
  {
    var w' := Next(w, Release(rule, now));
    forall i <- w'.renewals ensures RequestFits(w', w'.renewals[i]) { assert RequestFits(w, w.renewals[i]); }
  }

  lemma ReleasedRowFits(w: World, rule: Lease.UnlockRule, now: Millis)
    requires BaseFits(w) && HandlesFit(w) && MinimumFits(w) && LeakBounded(w) && Enabled(w, Release(rule, now))
    ensures var w' := Next(w, Release(rule, now)); MinimumFits(w') && LeakBounded(w')
  {
    assert OwnConfig(w, w.lease.handles[w.toRelease.value].config);
  }

  /** The step of the lease below, if any, that a step takes. */
  function Below(w: World, step: Step): Option<Lease.Step>
    requires step.Store? ==> step.id in w.renewals
    requires step.Release? ==> w.toRelease.Some?
  {
    match step
    case Others(s) => Some(s)
    case Tick(at) => Some(Lease.Advance(at.createdAt))
    case Recover(id, at) =>
      if id in w.renewals && w.renewals[id].retry then None else Some(Lease.Advance(at.createdAt))
    case Store(id, now) => Some(Lease.Extend(w.renewals[id].extended, w.renewals[id].config, now))
    case Release(rule, now) => Some(Lease.Unlock(w.toRelease.value, rule, now))
    case _ => None
  }

  /** No guard of the machine holds a real call back: a statement in flight may run at any moment,
      because its deadline is no earlier than the one it replaces. */
  lemma StoreIsNeverBlocked(w: World, id: nat, now: Millis)
    requires Inv(w) && id in w.renewals && w.renewals[id].phase.InFlight? && now <= w.lease.clock
    ensures Enabled(w, Store(id, now))
  {
    assert RequestFits(w, w.renewals[id]);
    assert OwnConfig(w, w.lease.handles[w.renewals[id].extended].config);
  }

  /** And so may the unlock. */
  lemma ReleaseIsNeverBlocked(w: World, rule: Lease.UnlockRule, now: Millis)
    requires Inv(w) && w.toRelease.Some? && now <= w.lease.clock
    ensures Enabled(w, Release(rule, now))
  {
  }

  /** Every step of this machine is one step of the lease, or none. */
  lemma StepsRefineLease(w: World, step: Step)
    requires Enabled(w, step)
    ensures match Below(w, step)
      case None => Next(w, step).lease == w.lease
      case Some(s) => Lease.Enabled(w.lease, s) && Next(w, step).lease == Lease.Next(w.lease, s)
  {
  }

  lemma LeaseStillFits(w: World, step: Step)
    requires Inv(w) && Enabled(w, step)
    ensures LeaseFits(Next(w, step))
  {
    StepsRefineLease(w, step);
    OwnTenureStays(w, step);
    if Below(w, step).Some? { LeaseSafety.StepKeepsInv(w.lease, Below(w, step).value); }
  }

  ghost predicate OwnTenureFits(w: World) {
    && w.own < |w.lease.tenures|
    && w.lease.tenures[w.own].monotone
    && (w.lease.tenures[w.own].closed ==> w.fields.released && w.toRelease.None?)
  }

  /** Only an unlock closes a monotone tenure. */
  lemma MonotoneTenureStays(s: Lease.State, step: Lease.Step, t: nat)
    requires Lease.WellFormed(s) && Lease.Enabled(s, step) && t < |s.tenures| && s.tenures[t].monotone
    ensures var s' := Lease.Next(s, step);
      && t < |s'.tenures| && s'.tenures[t].monotone
      && (s'.tenures[t].closed ==> s.tenures[t].closed || (step.Unlock? && s.handles[step.handle].tenure == t))
  {
  }

  lemma OwnTenureStays(w: World, step: Step)
    requires LeaseFits(w) && ReleaseFits(w) && Enabled(w, step)
    ensures OwnTenureFits(Next(w, step))
  {
    StepsRefineLease(w, step);
    if Below(w, step).Some? { MonotoneTenureStays(w.lease, Below(w, step).value, w.own); }
  }

  lemma OthersKeepLocal(w: World, s: Lease.Step)
    requires Inv(w) && Enabled(w, Others(s))
    ensures LocalInv(Next(w, Others(s)))
  {
    OthersLeaveUndisturbed(w.lease, s, w.own);
    KeptWhenUndisturbed(w, w.(lease := Lease.Next(w.lease, s)));
  }

  lemma StepKeepsInv(w: World, step: Step)
    requires Inv(w) && Enabled(w, step)
    ensures Inv(Next(w, step))
  {
    LeaseStillFits(w, step);
    match step
    case Others(s) => OthersKeepLocal(w, s);
    case Tick(at) => TickKeepsLocal(w, at);
    case Store(id, now) => StoreKeepsLocal(w, id, now);
    case Throw(id) => ThrowKeepsLocal(w, id);
    case Recover(id, at) => RecoverKeepsLocal(w, id, at);
    case Complete(id) => CompleteKeepsLocal(w, id);
    case Unlock => UnlockKeepsLocal(w);
    case Release(rule, now) => ReleaseKeepsLocal(w, rule, now);
  }

  lemma {:induction false} RunKeepsInv(w: World, steps: seq<Step>)
    requires Inv(w) && IsRun(w, steps)
    ensures Inv(Run(w, steps))
    decreases |steps|
  {
    if steps != [] {
      StepKeepsInv(w, steps[0]);
      RunKeepsInv(Next(w, steps[0]), steps[1..]);
    }
  }

  // ---- The theorems

  /** Wrapping a lock that the underlying provider has just granted, in any run, is a start. */
  lemma ProviderLockStarts(s: Lease.State, config: LockConfiguration, host: string, now: Millis) returns (w: World)
    requires LeaseSafety.Inv(s) && now <= s.clock && config.createdAt <= s.clock
    requires ValidDurations(config) && MIN_LOCK_AT_MOST_FOR <= config.lockAtMostFor
    requires Lease.TryAcquire(Lease.StoredRow(s), config, host, now).Some?
    ensures Start(w) && LeaseSafety.Inv(w.lease)
    ensures w.lease == Lease.AfterAcquire(s, config, host, now, true) && w.base == config
  {
    var lease := Lease.AfterAcquire(s, config, host, now, true);
    LeaseSafety.AcquireKeepsInv(s, config, host, now, true);
    w := World(lease, |s.tenures|, config, Fresh(config, |s.handles|), map[], 0, 0, 0, 0, None, None, true);
  }

  /** Whatever happened before, nothing can have been lost silently: until release, a tracked
      deadline in the future means the row is this lock's own, outlasts that deadline, and
      turns every acquire away. */
  lemma TrackedDeadlineIsBacked(w: World, steps: seq<Step>, config: LockConfiguration, host: string, now: Millis)
    requires Start(w) && LeaseSafety.Inv(w.lease) && IsRun(w, steps)
    requires var v := Run(w, steps);
      !v.fields.released && v.fields.currentLockAtMostUntil > v.lease.clock && now <= v.lease.clock
    ensures var v := Run(w, steps);
      && v.lease.cell.Some?
      && v.lease.cell.value.owner == v.own
      && v.lease.cell.value.row.lockUntil >= v.fields.currentLockAtMostUntil
      && Lease.TryAcquire(Lease.StoredRow(v.lease), config, host, now).None?
  {
    StartFits(w);
    RunKeepsInv(w, steps);
    var v := Run(w, steps);
    assert LeaseSafety.Holds(v.lease, v.fields.currentLock);
  }

  /** Nobody else acquires before the minimum hold of the original configuration is over,
      however renewals overlap and whether or not the lock has been unlocked, as long as every
      callback fires when due. */
  lemma MinimumHoldNeverWeakens(w: World, steps: seq<Step>, config: LockConfiguration, host: string, now: Millis)
    requires Start(w) && LeaseSafety.Inv(w.lease) && IsRun(w, steps)
    requires var v := Run(w, steps);
      v.inTime && now <= v.lease.clock && Lease.TryAcquire(Lease.StoredRow(v.lease), config, host, now).Some?
    ensures Run(w, steps).lease.clock >= Run(w, steps).base.createdAt + Run(w, steps).base.lockAtLeastFor
  {
    StartFits(w);
    RunKeepsInv(w, steps);
  }

  /** A renewal asks for at least the original minimum less half a lockAtMostFor for each tick
      before the last. */
  ghost predicate AsksForEnough(w: World, r: Renewal) {
    && 1 <= w.ticks
    && r.config.lockAtLeastFor >= Max(0.0, w.base.lockAtLeastFor - Times(w.ticks - 1, w.base.lockAtMostFor / 2.0))
  }

  /** Every lock object of this tenure carries the original minimum hold or more. */
  ghost predicate LocksKeepMinimum(w: World) {
    forall i: nat :: OwnHandle(w, i) ==> LockAtLeastUntil(w.lease.handles[i].config) >= LockAtLeastUntil(w.base)
  }

  /** At the j-th tick, and for as long as it is the last, every renewal asks for enough; and no
      lock object that a renewal yields weakens the minimum hold. */
  lemma RenewalsAskForEnough(w: World, steps: seq<Step>, id: nat)
    requires Start(w) && LeaseSafety.Inv(w.lease) && IsRun(w, steps)
    ensures var v := Run(w, steps);
      && (id in v.renewals ==> AsksForEnough(v, v.renewals[id]))
      && (v.inTime ==> LocksKeepMinimum(v))
  {
    StartFits(w);
    RunKeepsInv(w, steps);
    var v := Run(w, steps);
    if id in v.renewals { RenewalAsksForEnough(v, id); }
  }

  lemma RenewalAsksForEnough(w: World, id: nat)
    requires BaseFits(w) && RequestsFit(w) && DecayFits(w) && id in w.renewals
    ensures AsksForEnough(w, w.renewals[id])
  {
    assert |w.renewals.Keys| >= 1 by { assert id in w.renewals.Keys; }
    assert RequestFits(w, w.renewals[id]);
    TimesGrows(w.installed, w.ticks - 1, w.base.lockAtMostFor / 2.0);
  }

  /** After an unlock that starts at time u, nothing this lock writes keeps anybody out
      beyond u + lockAtMostFor, in any continuation. */
  lemma LeakIsBounded(w: World, steps: seq<Step>)
    requires Start(w) && LeaseSafety.Inv(w.lease) && IsRun(w, steps)
    requires var v := Run(w, steps);
      v.releasedAt.Some? && Lease.RowIsLive(v.lease) && v.lease.cell.value.writer == v.own
    ensures var v := Run(w, steps);
      v.lease.cell.value.row.lockUntil <= v.releasedAt.value + v.base.lockAtMostFor
  {
    StartFits(w);
    RunKeepsInv(w, steps);
  }

  /** Lost or released means inactive, and the loss is reported at most once. */
  lemma LossIsReportedOnce(w: World, steps: seq<Step>)
    requires Start(w) && LeaseSafety.Inv(w.lease) && IsRun(w, steps)
    ensures var v := Run(w, steps);
      && (v.fields.lost || v.fields.released ==> !v.fields.active)
      && v.lossReports <= 1
      && (v.fields.lost ==> v.lossReports == 1)
  {
    StartFits(w);
    RunKeepsInv(w, steps);
  }

  /** Once inactive, always inactive: no renewal starts, and after a release nothing is
      reported and the object's fields, with the lock installed last, stay as they are. */
  lemma {:induction false} InactiveIsFinal(w: World, steps: seq<Step>)
    requires IsRun(w, steps) && !w.fields.active
    ensures var v := Run(w, steps);
      && !v.fields.active
      && v.nextId == w.nextId
      && (w.fields.released ==> v.fields == w.fields && v.lossReports == w.lossReports)
    decreases |steps|
  {
    if steps != [] { InactiveIsFinal(Next(w, steps[0]), steps[1..]); }
  }

  /** The lock object a step installs, if any. */
  function Installs(w: World, step: Step): Option<nat> {
    if step.Complete? && step.id in w.renewals && w.renewals[step.id].phase.Answered? && !w.fields.released
    then w.renewals[step.id].phase.answer else None
  }

  /** The lock object installed last in a run, or the one before it. */
  ghost function Latest(w: World, before: nat, steps: seq<Step>): nat
    requires IsRun(w, steps)
    decreases |steps|
  {
    if steps == [] then before
    else
      var installed := Installs(w, steps[0]);
      Latest(Next(w, steps[0]), if installed.Some? then installed.value else before, steps[1..])
  }

  lemma {:induction false} CurrentIsLatest(w: World, steps: seq<Step>)
    requires IsRun(w, steps)
    ensures Run(w, steps).fields.currentLock == Latest(w, w.fields.currentLock, steps)
    decreases |steps|
  {
    if steps != [] { CurrentIsLatest(Next(w, steps[0]), steps[1..]); }
  }

  /** In every run, unlocking reaches exactly the lock object installed last, which is this
      tenure's and which the store would still unlock; or none, and then the loss has been reported.
      (The object's own flag is not part of the machine. An extension that has just been answered
      clears it before the new object is installed, and an unlock in between is turned away.) */
  lemma UnlockTargetsLatestLock(w: World, steps: seq<Step>)
    requires Start(w) && LeaseSafety.Inv(w.lease) && IsRun(w, steps) && Enabled(Run(w, steps), Unlock)
    ensures var v := Next(Run(w, steps), Unlock);
      if v.toRelease.None? then v.lossReports == 1
      else
        && v.toRelease == Some(Latest(w, w.fields.currentLock, steps))
        && OwnHandle(v, v.toRelease.value) && v.lease.handles[v.toRelease.value].live
  {
    StartFits(w);
    RunKeepsInv(w, steps);
    CurrentIsLatest(w, steps);
  }

  // ---- A callback that fires early

  lemma {:induction false} RunAppends(w: World, steps: seq<Step>, step: Step, w': World)
    requires IsRun(w, steps) && Enabled(Run(w, steps), step) && Next(Run(w, steps), step) == w'
    ensures IsRun(w, steps + [step]) && Run(w, steps + [step]) == w'
    decreases |steps|
  {
    var all := steps + [step];
    if steps == [] {
      assert all[1..] == [];
    } else {
      assert all[1..] == steps[1..] + [step];
      RunAppends(Next(w, steps[0]), steps[1..], step, w');
    }
  }

  /** A lock of thirty seconds whose minimum is `least`, created at zero. */
  function HalfMinute(name: string, least: Millis): LockConfiguration {
    LockConfiguration(name, 30000.0, least, 0.0)
  }

  /** The lease of the one tenure, with a lock object for each minimum. */
  function Held(name: string, host: string, minima: seq<Millis>): Lease.State
    requires minima != []
  {
    var least := minima[|minima| - 1];
    Lease.State(0.0, Some(Lease.Cell(Lease.Row(30000.0, host), 0, 0, Promise(HalfMinute(name, least)))),
                seq(|minima|, i requires 0 <= i < |minima| => Lease.Handle(0, HalfMinute(name, minima[i]), host, true)),
                [Lease.Tenure(true, false)])
  }

  /** After `ticks` callbacks, all at once, and as many renewals. */
  function Renewed(name: string, host: string, minima: seq<Millis>, remaining: Millis, inTime: bool): World
    requires minima != []
  {
    var n := |minima| - 1;
    World(Held(name, host, minima), 0, HalfMinute(name, 30000.0), Fields(true, false, false, remaining, 30000.0, n),
          map[], n, n, n, 0, None, None, inTime)
  }

  /** One callback at time zero, whose renewal is answered and installed at once. */
  lemma RenewAtOnce(name: string, host: string, minima: seq<Millis>, least: Millis, inTime: bool, w: World, steps: seq<Step>)
    returns (more: seq<Step>, after: World)
    requires minima != [] && 0.0 <= least && IsRun(w, steps) && Run(w, steps) == Renewed(name, host, minima, least, inTime)
    ensures IsRun(w, more) && Run(w, more) == after
    ensures after == Renewed(name, host, minima + [least], Max(0.0, least - 15000.0),
                             inTime && 0.0 >= Due(HalfMinute(name, 30000.0), |minima| - 1))
  {
    var at, n := Readings(0.0, 0.0, 0.0), |minima| - 1;
    var w0 := Run(w, steps);
    var r := Renewal(false, n, 0.0, HalfMinute(name, least), InFlight);
    var w1 := Next(w0, Tick(at));
    assert w1 == w0.(ticks := n + 1, nextId := n + 1, renewals := map[n := r],
                     inTime := inTime && 0.0 >= Due(HalfMinute(name, 30000.0), n));
    RunAppends(w, steps, Tick(at), w1);
    var w2 := Next(w1, Store(n, 0.0));
    assert w2.lease == Held(name, host, minima + [least]);
    assert w2 == w1.(lease := w2.lease, renewals := map[n := r.(phase := Answered(Some(n + 1)))]);
    RunAppends(w, steps + [Tick(at)], Store(n, 0.0), w2);
    after := Next(w2, Complete(n));
    assert after.renewals == map[];
    RunAppends(w, steps + [Tick(at)] + [Store(n, 0.0)], Complete(n), after);
    more := steps + [Tick(at)] + [Store(n, 0.0)] + [Complete(n)];
  }

  /** The timing matters: two callbacks at once take the minimum hold of thirty seconds down to
      fifteen, and after an unlock somebody else acquires at fifteen. */
  lemma EarlyCallbackWeakensMinimum(name: string, host: string, other: LockConfiguration, otherHost: string)
    returns (w: World, steps: seq<Step>)
    ensures Start(w) && LeaseSafety.Inv(w.lease) && IsRun(w, steps)
    ensures var v := Run(w, steps);
      && !v.inTime
      && Lease.TryAcquire(Lease.StoredRow(v.lease), other, otherHost, v.lease.clock).Some?
      && v.lease.clock < v.base.createdAt + v.base.lockAtLeastFor
  {
    w := Renewed(name, host, [30000.0], 30000.0, true);
    steps := [];
    var first, second;
    steps, first := RenewAtOnce(name, host, [30000.0], 30000.0, true, w, steps);
    steps, second := RenewAtOnce(name, host, [30000.0] + [30000.0], 15000.0, true, w, steps);
    var unlocked := Next(second, Unlock);
    RunAppends(w, steps, Unlock, unlocked);
    steps := steps + [Unlock];
    var later := Next(unlocked, Others(Lease.Advance(15000.0)));
    RunAppends(w, steps, Others(Lease.Advance(15000.0)), later);
    steps := steps + [Others(Lease.Advance(15000.0))];
    var released := Next(later, Release(Lease.ClientTime, 15000.0));
    RunAppends(w, steps, Release(Lease.ClientTime, 15000.0), released);
    steps := steps + [Release(Lease.ClientTime, 15000.0)];
  }
}

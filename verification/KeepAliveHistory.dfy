/** What a keep-alive lock does next, from a record of what has happened to it: when each renewal
    started, how many installed ones it follows, and which was installed last. */
module KeepAliveHistory {
  import opened LockConfigurations
  import Lease
  import LeaseSafety
  import opened KeepAlive
  import opened KeepAliveRuns
  import opened KeepAliveSafety

  /** For each renewal, when it started and how many installed renewals the lock it extends follows;
      the same for the lock in use; and whether a loss has been reported since that was installed. */
  datatype History = History(starts: map<nat, Millis>, depths: map<nat, nat>, lastStart: Millis, depth: nat, lost: bool)

  function Origin(base: LockConfiguration): History {
    History(map[], map[], base.createdAt, 0, false)
  }

  function Launched(w: World, h: History, at: Readings): History {
    h.(starts := h.starts[w.nextId := at.now], depths := h.depths[w.nextId := h.depth])
  }

  function RecordedTimes(w: World, h: History, step: Step): History {
    match step
    case Tick(at) => Launched(w, h, at)
    case Recover(id, at) => if id in w.renewals && w.renewals[id].retry then h else Launched(w, h, at)
    case Complete(id) =>
      if Installs(w, step).Some? && id in h.starts && id in h.depths
      then h.(lastStart := h.starts[id], depth := h.depths[id] + 1) else h
    case _ => h
  }

  ghost function Recorded(w: World, h: History, step: Step): History
    requires Enabled(w, step)
  {
    RecordedTimes(w, h, step).(lost := if Installs(w, step).Some? then false else h.lost || Next(w, step).lossReports > w.lossReports)
  }

  ghost function RecordedAll(w: World, h: History, steps: seq<Step>): History
    requires IsRun(w, steps)
    decreases |steps|
  {
    if steps == [] then h else RecordedAll(Next(w, steps[0]), Recorded(w, h, steps[0]), steps[1..])
  }

  /** What is left of the minimum after `n` renewals in a row. */
  function Left(base: LockConfiguration, n: nat): Millis {
    Max(0.0, base.lockAtLeastFor - Times(n, base.lockAtMostFor / 2.0))
  }

  // ---- The fields agree with the record

  ghost predicate RenewalAgrees(w: World, h: History, id: nat)
    requires id in w.renewals
  {
    var r := w.renewals[id];
    && id < w.nextId && id in h.starts && id in h.depths
    && r.now == h.starts[id]
    && r.config.lockAtLeastFor == Left(w.base, h.depths[id])
  }

  ghost predicate Agrees(w: World, h: History) {
    && 0.0 <= w.base.lockAtLeastFor && 0.0 <= w.base.lockAtMostFor
    && w.fields.currentLockAtMostUntil == h.lastStart + w.base.lockAtMostFor
    && w.fields.remainingLockAtLeastFor == Left(w.base, h.depth)
    && (forall id <- w.renewals :: RenewalAgrees(w, h, id))
  }

  lemma LaunchAgrees(w: World, h: History, at: Readings, retry: bool)
    requires Agrees(w, h)
    ensures Agrees(Launch(w, at, retry), Launched(w, h, at))
  {
    var w', h' := Launch(w, at, retry), Launched(w, h, at);
    forall id <- w'.renewals ensures RenewalAgrees(w', h', id) {
      if id in w.renewals { assert RenewalAgrees(w, h, id); }
    }
  }

  lemma InstallAgrees(w: World, h: History, id: nat)
    requires Agrees(w, h) && Enabled(w, Complete(id))
    ensures Agrees(AfterComplete(w, id), RecordedTimes(w, h, Complete(id)))
  {
    var w', h' := AfterComplete(w, id), RecordedTimes(w, h, Complete(id));
    assert RenewalAgrees(w, h, id);
    var n, half := h.depths[id], w.base.lockAtMostFor / 2.0;
    assert Times(n + 1, half) == Times(n, half) + half;
    forall i <- w'.renewals ensures RenewalAgrees(w', h', i) { assert RenewalAgrees(w, h, i); }
  }

  /** Dropping renewals or changing their phase changes nothing the record speaks of. */
  lemma StillAgrees(w: World, w': World, h: History)
    requires Agrees(w, h) && w'.base == w.base && w'.nextId == w.nextId
    requires w'.fields.currentLockAtMostUntil == w.fields.currentLockAtMostUntil
    requires w'.fields.remainingLockAtLeastFor == w.fields.remainingLockAtLeastFor
    requires forall id <- w'.renewals ::
      id in w.renewals && w'.renewals[id].now == w.renewals[id].now && w'.renewals[id].config == w.renewals[id].config
    ensures Agrees(w', h)
  {
    forall id <- w'.renewals ensures RenewalAgrees(w', h, id) { assert RenewalAgrees(w, h, id); }
  }

  lemma StepAgrees(w: World, h: History, step: Step)
    requires Agrees(w, h) && Enabled(w, step)
    ensures Agrees(Next(w, step), RecordedTimes(w, h, step))
  {
    match step
    case Tick(at) =>
      StillAgrees(w, CountTick(w, at.checkedAt), h);
      LaunchAgrees(CountTick(w, at.checkedAt), h, at, false);
    case Recover(id, at) =>
      var rest := w.(renewals := w.renewals - {id});
      StillAgrees(w, rest, h);
      if w.renewals[id].retry { StillAgrees(rest, Next(w, step), h); } else { LaunchAgrees(rest, h, at, true); }
    case Complete(id) => InstallAgrees(w, h, id);
    case _ => StillAgrees(w, Next(w, step), h);
  }

  /** Whether the record says lost makes no difference to the rest. */
  lemma LostApart(w: World, h: History, lost: bool)
    requires Agrees(w, h)
    ensures Agrees(w, h.(lost := lost))
  {
    forall id <- w.renewals ensures RenewalAgrees(w, h.(lost := lost), id) { assert RenewalAgrees(w, h, id); }
  }

  lemma LostFlagAgrees(w: World, h: History, step: Step)
    requires Enabled(w, step) && w.fields.lost == h.lost
    ensures Next(w, step).fields.lost == Recorded(w, h, step).lost
  {
  }

  lemma {:induction false} RunAgrees(w: World, h: History, steps: seq<Step>)
    requires Agrees(w, h) && w.fields.lost == h.lost && IsRun(w, steps)
    ensures var v, last := Run(w, steps), RecordedAll(w, h, steps);
      Agrees(v, last) && v.fields.lost == last.lost && v.base == w.base
    decreases |steps|
  {
    if steps != [] {
      StepAgrees(w, h, steps[0]);
      LostApart(Next(w, steps[0]), RecordedTimes(w, h, steps[0]), Recorded(w, h, steps[0]).lost);
      LostFlagAgrees(w, h, steps[0]);
      RunAgrees(Next(w, steps[0]), Recorded(w, h, steps[0]), steps[1..]);
    }
  }

  // ---- The theorems

  /** In every run, the tracked deadline is lockAtMostFor after the start of the renewal installed
      last, or after the creation; and what is left of the minimum is the original less half a
      lockAtMostFor for each renewal that led to the lock in use. */
  lemma TrackedDeadlineFollowsRenewals(w: World, steps: seq<Step>)
    requires Start(w) && IsRun(w, steps)
    ensures var v, h := Run(w, steps), RecordedAll(w, Origin(w.base), steps);
      && v.base == w.base
      && v.fields.currentLockAtMostUntil == h.lastStart + w.base.lockAtMostFor
      && v.fields.remainingLockAtLeastFor == Max(0.0, w.base.lockAtLeastFor - Times(h.depth, w.base.lockAtMostFor / 2.0))
  {
    RunAgrees(w, Origin(w.base), steps);
  }

  /** The step runs the first segment of a renewal: a callback, or the one retry after a failure. */
  predicate Attempts(w: World, step: Step) {
    step.Tick? || (step.Recover? && step.id in w.renewals && !w.renewals[step.id].retry)
  }

  /** A callback or retry of an active lock finds it lost exactly if the tracked deadline has passed,
      and otherwise asks for the lock in use to be extended by exactly what is left; of an inactive
      lock it does nothing. */
  ghost predicate RenewsUntilDeadline(w: World, h: History, latest: nat, step: Step)
    requires Enabled(w, step) && Attempts(w, step)
  {
    var w' := Next(w, step);
    if !w.fields.active then w'.nextId == w.nextId && w'.fields == w.fields && w'.lossReports == w.lossReports
    else if step.at.checkedAt > h.lastStart + w.base.lockAtMostFor then
      w'.nextId == w.nextId && w'.fields.lost && !w'.fields.active && w'.lossReports == w.lossReports + 1
    else
      && w'.nextId == w.nextId + 1 && w'.fields == w.fields && w'.lossReports == w.lossReports
      && w.nextId in w'.renewals
      && w'.renewals[w.nextId] ==
         Renewal(step.Recover?, latest, step.at.now,
                 LockConfiguration(w.base.name, w.base.lockAtMostFor,
                                   Max(0.0, w.base.lockAtLeastFor - Times(h.depth, w.base.lockAtMostFor / 2.0)), step.at.createdAt),
                 InFlight)
  }

  lemma AttemptRenews(w: World, h: History, step: Step)
    requires Agrees(w, h) && Enabled(w, step) && Attempts(w, step)
    ensures RenewsUntilDeadline(w, h, w.fields.currentLock, step)
  {
  }

  /** So it is in every run. */
  lemma AttemptsRenewUntilDeadline(w: World, steps: seq<Step>, step: Step)
    requires Start(w) && IsRun(w, steps) && Enabled(Run(w, steps), step) && Attempts(Run(w, steps), step)
    ensures Run(w, steps).base == w.base
    ensures RenewsUntilDeadline(Run(w, steps), RecordedAll(w, Origin(w.base), steps), Latest(w, w.fields.currentLock, steps), step)
  {
    RunAgrees(w, Origin(w.base), steps);
    CurrentIsLatest(w, steps);
    AttemptRenews(Run(w, steps), RecordedAll(w, Origin(w.base), steps), step);
  }

  /** A callback at its nominal time after the start of the last installed renewal comes half a
      lockAtMostFor before the tracked deadline, or less than a millisecond earlier still. */
  lemma NominalPeriodLeavesHalf(base: LockConfiguration, lastStart: Millis)
    ensures var deadline := lastStart + base.lockAtMostFor;
      deadline - base.lockAtMostFor / 2.0 - 1.0 < lastStart + Period(base) <= deadline - base.lockAtMostFor / 2.0
  {
  }

  /** In every run, an active lock stops renewing exactly if it is unlocked, a callback or retry
      comes after the tracked deadline, the store refuses to extend the lock in use, or a retry
      fails too. So none is given up before its tracked deadline for any other reason. */
  lemma StopsExactlyIf(w: World, steps: seq<Step>, step: Step)
    requires Start(w) && LeaseSafety.Inv(w.lease) && IsRun(w, steps) && Enabled(Run(w, steps), step) && Run(w, steps).fields.active
    ensures var v, h := Run(w, steps), RecordedAll(w, Origin(w.base), steps);
      !Next(v, step).fields.active <==>
        || step.Unlock?
        || (Attempts(v, step) && step.at.checkedAt > h.lastStart + w.base.lockAtMostFor)
        || (step.Complete? && v.renewals[step.id].phase == Answered(None)
            && v.renewals[step.id].extended == Latest(w, w.fields.currentLock, steps))
        || (step.Recover? && v.renewals[step.id].retry)
    ensures var v := Run(w, steps);
      !Next(v, step).fields.active && step.Complete? ==> Next(v, step).lossReports == v.lossReports + 1
  {
    RunAgrees(w, Origin(w.base), steps);
    CurrentIsLatest(w, steps);
    StartFits(w);
    RunKeepsInv(w, steps);
    ActiveStops(Run(w, steps), RecordedAll(w, Origin(w.base), steps), step);
  }

  lemma ActiveStops(w: World, h: History, step: Step)
    requires Agrees(w, h) && Enabled(w, step) && w.fields.active && !w.fields.lost && !w.fields.released
    ensures !Next(w, step).fields.active <==>
      || step.Unlock?
      || (Attempts(w, step) && step.at.checkedAt > h.lastStart + w.base.lockAtMostFor)
      || (step.Complete? && w.renewals[step.id].phase == Answered(None) && w.renewals[step.id].extended == w.fields.currentLock)
      || (step.Recover? && w.renewals[step.id].retry)
    ensures !Next(w, step).fields.active && step.Complete? ==> Next(w, step).lossReports == w.lossReports + 1
  {
  }

  /** In every run, unlocking reaches the lock object installed last, unless a loss has been
      reported since, and then none. */
  lemma UnlockReachesExactly(w: World, steps: seq<Step>)
    requires Start(w) && IsRun(w, steps) && Enabled(Run(w, steps), Unlock)
    ensures Next(Run(w, steps), Unlock).toRelease ==
      if RecordedAll(w, Origin(w.base), steps).lost then None else Some(Latest(w, w.fields.currentLock, steps))
  {
    RunAgrees(w, Origin(w.base), steps);
    CurrentIsLatest(w, steps);
  }
}

/** What the machines over real stores share: a clock, a row and the lock objects handed out, seen
    as a state of the lease in which every tenure is sequential. */
module LeaseView {
  import opened LockConfigurations
  import Lease
  import LeaseSafety

  /** A lock object; `backend` is whatever else its store needs to know. */
  datatype LockObject<+T> = LockObject(config: LockConfiguration, host: string, valid: bool, backend: T)

  ghost predicate SameObject<T>(l: LockObject<T>, h: Lease.Handle) {
    l.config == h.config && l.host == h.host && l.valid == h.live
  }

  ghost predicate Sequential(tenures: seq<Lease.Tenure>) {
    forall k :: 0 <= k < |tenures| ==> !tenures[k].monotone
  }

  /** The lease state has the same clock, row and lock objects, and adds the history. */
  ghost predicate Shows<T>(clock: Millis, row: Option<Lease.Row>, locks: seq<LockObject<T>>, s: Lease.State) {
    && LeaseSafety.Inv(s)
    && Sequential(s.tenures)
    && s.clock == clock
    && Lease.StoredRow(s) == row
    && |locks| == |s.handles|
    && (forall i :: 0 <= i < |locks| ==> SameObject(locks[i], s.handles[i]))
    && Exact(clock, row, locks)
  }

  predicate Holds<T>(clock: Millis, locks: seq<LockObject<T>>, i: nat) {
    i < |locks| && locks[i].valid && LockAtMostUntil(locks[i].config) > clock
  }

  /** The row is exactly as the lock object that holds the lock has left it. */
  ghost predicate Exact<T>(clock: Millis, row: Option<Lease.Row>, locks: seq<LockObject<T>>) {
    forall i: nat :: Holds(clock, locks, i) ==> row == Some(Lease.Row(LockAtMostUntil(locks[i].config), locks[i].host))
  }

  /** The row after a conditional write. */
  function Updated(row: Option<Lease.Row>, written: Option<Lease.Row>): Option<Lease.Row> {
    if written.Some? then written else row
  }

  /** Whatever is stored when the first process starts. */
  function Initial(clock: Millis, row: Option<Lease.Row>): Lease.State {
    match row
    case None => Lease.Empty(clock)
    case Some(r) => Lease.State(clock, Some(Lease.Cell(r, 0, 0, r.lockUntil)), [], [Lease.Tenure(false, true)])
  }

  lemma InitialShows<T>(clock: Millis, row: Option<Lease.Row>, none: seq<LockObject<T>>)
    requires none == []
    ensures Shows(clock, row, none, Initial(clock, row))
  {
  }

  /** What the lease's mutual exclusion says of the store. */
  lemma AtMostOneHolds<T>(clock: Millis, row: Option<Lease.Row>, locks: seq<LockObject<T>>, s: Lease.State, i: nat, j: nat)
    requires Shows(clock, row, locks, s) && Holds(clock, locks, i) && Holds(clock, locks, j)
    ensures i == j
    ensures row.Some? && row.value.lockUntil >= LockAtMostUntil(locks[i].config)
  {
    assert SameObject(locks[i], s.handles[i]) && SameObject(locks[j], s.handles[j]);
    assert LeaseSafety.Holds(s, i) && LeaseSafety.Holds(s, j);
  }

  lemma AdvanceShows<T>(clock: Millis, row: Option<Lease.Row>, locks: seq<LockObject<T>>, s: Lease.State, to: Millis)
    requires Shows(clock, row, locks, s) && clock <= to
    ensures Lease.Enabled(s, Lease.Advance(to)) && Shows(to, row, locks, Lease.Next(s, Lease.Advance(to)))
  {
    LeaseSafety.StepKeepsInv(s, Lease.Advance(to));
    forall i: nat | Holds(to, locks, i) ensures Holds(clock, locks, i) {}
  }

  lemma AcquireShows<T>(clock: Millis, row: Option<Lease.Row>, locks: seq<LockObject<T>>, s: Lease.State,
                        config: LockConfiguration, host: string, now: Millis, backend: T)
    requires Shows(clock, row, locks, s) && now <= clock
    ensures var written := Lease.TryAcquire(row, config, host, now);
      Shows(clock, Updated(row, written), if written.Some? then locks + [LockObject(config, host, true, backend)] else locks,
            Lease.AfterAcquire(s, config, host, now, false))
  {
    LeaseSafety.AcquireKeepsInv(s, config, host, now, false);
    if Lease.TryAcquire(row, config, host, now).Some? {
      var after := locks + [LockObject(config, host, true, backend)];
      assert forall i: nat :: !Holds(clock, locks, i);
      assert forall i: nat :: i < |locks| ==> (Holds(clock, after, i) <==> Holds(clock, locks, i));
    }
  }

  lemma ExtendShows<T>(clock: Millis, row: Option<Lease.Row>, locks: seq<LockObject<T>>, s: Lease.State,
                       i: nat, config: LockConfiguration, now: Millis)
    requires Shows(clock, row, locks, s) && i < |locks| && locks[i].valid && now <= clock
    ensures var l := locks[i];
      var written := Lease.TryExtend(row, config, l.host, Some(LockAtMostUntil(l.config)), now);
      && Lease.Enabled(s, Lease.Extend(i, config, now))
      && Shows(clock, Updated(row, written),
               if written.Some? then locks[i := l.(valid := false)] + [l.(config := config)] else locks,
               Lease.AfterExtend(s, i, config, now))
  {
    assert SameObject(locks[i], s.handles[i]);
    LeaseSafety.ExtendKeepsInv(s, i, config, now);
    var s', written := Lease.AfterExtend(s, i, config, now), Lease.TryExtend(row, config, locks[i].host, Some(LockAtMostUntil(locks[i].config)), now);
    if written.Some? {
      var after := locks[i := locks[i].(valid := false)] + [locks[i].(config := config)];
      forall j | 0 <= j < |after| ensures SameObject(after[j], s'.handles[j]) {
        if j < |locks| { assert SameObject(locks[j], s.handles[j]); }
      }
      forall j: nat | Holds(clock, after, j) ensures j == |locks| {
        if j < |locks| {
          assert Holds(clock, locks, j) && Holds(clock, locks, i);
          AtMostOneHolds(clock, row, locks, s, i, j);
        }
      }
    }
  }

  /** Unlocking retires the whole tenure, which has only this one usable lock object. */
  lemma UnlockShows<T>(clock: Millis, row: Option<Lease.Row>, locks: seq<LockObject<T>>, s: Lease.State,
                       i: nat, rule: Lease.UnlockRule, now: Millis)
    requires Shows(clock, row, locks, s) && i < |locks| && locks[i].valid && now <= clock
    ensures var l := locks[i];
      var written := Lease.TryUnlock(row, l.config, l.host, Lease.UnlockDeadline(rule, l.config, now));
      && Lease.Enabled(s, Lease.Unlock(i, rule, now))
      && Shows(clock, Updated(row, written), locks[i := l.(valid := false)], Lease.AfterUnlock(s, i, rule, now))
  {
    assert SameObject(locks[i], s.handles[i]);
    LeaseSafety.UnlockKeepsInv(s, i, rule, now);
    var s', after := Lease.AfterUnlock(s, i, rule, now), locks[i := locks[i].(valid := false)];
    forall j | 0 <= j < |after| ensures SameObject(after[j], s'.handles[j]) {
      assert SameObject(locks[j], s.handles[j]);
      assert s'.handles[j].live == (s.handles[j].live && j != i);
    }
    forall j: nat | Holds(clock, after, j) ensures Holds(clock, locks, j) && j != i {
      assert Holds(clock, locks, j);
    }
    if j: nat :| Holds(clock, after, j) {
      if LockAtMostUntil(locks[i].config) > clock { AtMostOneHolds(clock, row, locks, s, i, j); }
    }
  }
}

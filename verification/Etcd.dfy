/** The etcd lock: a key attached to a lease, and its hand-over to a shorter lease on unlock.
    Time passes, leases expire and others lock and unlock between any two calls. */
module Etcd {
  import opened LockConfigurations

  /** Whole seconds, rounded up so that the lease never ends early. */
  function ToTtlSeconds(ms: Millis): int {
    (ms / 1000.0).Floor + 1
  }

  datatype Key = Key(holder: nat, lease: nat)

  const ME: nat := 0

  /** The server: the lock's key and the expiry of every granted lease. */
  datatype Server = Server(clock: Millis, key: Option<Key>, leases: map<nat, Millis>, nextLease: nat)

  function Grant(s: Server, ttlSeconds: int): Server {
    s.(leases := s.leases[s.nextLease := s.clock + ttlSeconds as Millis * 1000.0], nextLease := s.nextLease + 1)
  }

  /** Ends a lease, and with it a key attached to it. */
  function Revoke(s: Server, lease: nat): Server {
    s.(leases := s.leases - {lease}, key := if s.key.Some? && s.key.value.lease == lease then None else s.key)
  }

  /** If the key's lease is still `current`, attaches the key to `newLease`. */
  function Reput(s: Server, current: nat, newLease: nat): (Server, bool) {
    if s.key.Some? && s.key.value.lease == current then (s.(key := Some(Key(ME, newLease))), true) else (s, false)
  }

  /** What the rest of the world may do; impossible events change nothing. */
  datatype Event =
    | Pass(time: Millis)
    | Expire(lease: nat)
    | OtherLocks(holder: nat, ttlSeconds: int)
    | OtherRevokes(lease: nat)

  /** `mine` are the leases that only this client revokes. */
  function Happen(s: Server, mine: set<nat>, e: Event): Server {
    match e
    case Pass(time) => s.(clock := s.clock + Max(0.0, time))
    case Expire(lease) => if lease in s.leases && s.leases[lease] <= s.clock then Revoke(s, lease) else s
    case OtherLocks(holder, ttlSeconds) =>
      var granted := Grant(s, ttlSeconds);
      if s.key.None? && holder != ME then granted.(key := Some(Key(holder, s.nextLease))) else granted
    case OtherRevokes(lease) => if lease in mine then s else Revoke(s, lease)
  }

  // ---- The unlock call, between its server calls

  datatype Phase =
    | Holding
    | Computed(ttlSeconds: int)
    | Granted(newLease: nat)
    | HandedOver(newLease: nat)
    | Missed(newLease: nat)
    | Aborted(newLease: nat)
    | NothingToKeep
    | Finished(handedTo: Option<nat>, threw: bool)

  datatype State = State(server: Server, config: LockConfiguration, lease: nat, phase: Phase)

  datatype Step =
    | Others(event: Event)
    | Compute                 // reads the clock, decides whether a minimum remains
    | GrantNew(fault: bool)   // a call that fails has no effect on the server
    | Commit(fault: bool)
    | RevokeNew(fault: bool)
    | RevokeOld(fault: bool)

  function Mine(s: State): set<nat> {
    {s.lease} + (match s.phase
                 case Granted(f) => {f}
                 case HandedOver(f) => {f}
                 case Missed(f) => {f}
                 case Aborted(f) => {f}
                 case Finished(f, _) => if f.Some? then {f.value} else {}
                 case _ => {})
  }

  predicate Enabled(s: State, step: Step) {
    match step
    case Others(_) => true
    case Compute => s.phase.Holding?
    case GrantNew(_) => s.phase.Computed?
    case Commit(_) => s.phase.Granted?
    case RevokeNew(_) => s.phase.Missed? || s.phase.Aborted?
    case RevokeOld(_) => s.phase.HandedOver? || s.phase.NothingToKeep?
  }

  function Next(s: State, step: Step): State
    requires Enabled(s, step)
  {
    match step
    case Others(e) => s.(server := Happen(s.server, Mine(s), e))
    case Compute =>
      var remaining := LockAtLeastUntil(s.config) - s.server.clock;
      s.(phase := if s.config.lockAtLeastFor <= 0.0 || remaining <= 0.0 then NothingToKeep else Computed(ToTtlSeconds(remaining)))
    case GrantNew(fault) =>
      if fault then s.(phase := Finished(None, true))
      else s.(server := Grant(s.server, s.phase.ttlSeconds), phase := Granted(s.server.nextLease))
    case Commit(fault) =>
      // Attaching to a lease that has expired is an error.
      if fault || (s.server.key.Some? && s.server.key.value.lease == s.lease && s.phase.newLease !in s.server.leases)
      then s.(phase := Aborted(s.phase.newLease))
      else
        var (server, ok) := Reput(s.server, s.lease, s.phase.newLease);
        s.(server := server, phase := if ok then HandedOver(s.phase.newLease) else Missed(s.phase.newLease))
    case RevokeNew(fault) =>
      // After an aborted commit a failing revoke is ignored.
      s.(server := if fault then s.server else Revoke(s.server, s.phase.newLease),
         phase := if s.phase.Missed? && !fault then NothingToKeep else Finished(None, true))
    case RevokeOld(fault) =>
      s.(server := if fault then s.server else Revoke(s.server, s.lease),
         phase := Finished(if s.phase.HandedOver? then Some(s.phase.newLease) else None, fault))
  }

  predicate IsRun(s: State, steps: seq<Step>)
    decreases |steps|
  {
    steps == [] || (Enabled(s, steps[0]) && IsRun(Next(s, steps[0]), steps[1..]))
  }

  function Run(s: State, steps: seq<Step>): State
    requires IsRun(s, steps)
    decreases |steps|
  {
    if steps == [] then s else Run(Next(s, steps[0]), steps[1..])
  }

  /** One more step at the end of a run. */
  lemma {:induction false} RunAppends(s: State, steps: seq<Step>, step: Step)
    requires IsRun(s, steps) && Enabled(Run(s, steps), step)
    ensures IsRun(s, steps + [step])
    ensures Run(s, steps + [step]) == Next(Run(s, steps), step)
    decreases |steps|
  {
    var all := steps + [step];
    if steps == [] {
      assert all[1..] == [];
    } else {
      assert all[1..] == steps[1..] + [step];
      RunAppends(Next(s, steps[0]), steps[1..], step);
    }
  }

  // ---- The accessor

  /** Which calls fail; a failing call has no effect on the server. */
  datatype LockFaults = LockFaults(grant: bool, commit: bool, revoke: bool, revokeAgain: bool)

  datatype UnlockFaults = UnlockFaults(grant: bool, commit: bool, revokeNew: bool, revokeOld: bool)

  class EtcdAccessor {
    var server: Server

    constructor (server: Server)
      ensures this.server == server
    {
      this.server := server;
    }

    method Meanwhile(mine: set<nat>, events: seq<Event>)
      modifies this
      ensures server == HappenAll(old(server), mine, events)
    {
      var i := 0;
      while i < |events|
        invariant 0 <= i <= |events|
        invariant HappenAll(server, mine, events[i..]) == HappenAll(old(server), mine, events)
      {
        server := Happen(server, mine, events[i]);
        i := i + 1;
      }
    }

    /** A granted lock's key is attached to a lease that outlives `lockAtMostUntil`, by no more than a
        second and the time the call has taken. Any other call
        puts no key, and leaves its lease behind only if revoking it fails. */
    method Lock(config: LockConfiguration, before: seq<Event>, between: seq<Event>, faults: LockFaults)
      returns (lease: Result<Option<nat>>, ghost id: nat)
      requires Sane(server) && config.createdAt <= server.clock
      modifies this
      ensures Sane(server)
      ensures faults.grant || faults.commit ==> lease.Thrown?
      ensures faults == LockFaults(false, false, false, false) && (forall e <- between :: !e.Expire?) ==> lease.Returned?
      ensures lease.Returned? && lease.value.Some? ==> lease.value.value == id && StartsHolding(State(server, config, id, Holding))
      ensures lease.Returned? && lease.value.Some? ==>
        id in server.leases && server.leases[id] <= server.clock + config.lockAtMostFor + 1000.0
      ensures lease.Returned? && lease.value.None? ==> server.key.Some? && id !in server.leases
      ensures lease.Thrown? || lease.value.None? ==> server.key.Some? ==> server.key.value.lease != id
      ensures lease.Thrown? && id in server.leases ==> faults.revoke
    {
      Meanwhile({}, before);
      HappenAllKeeps(old(server), {}, before);
      var granted := server.nextLease;
      id := granted;
      if faults.grant { return Thrown("grant failed"), id; }
      LeaseOutlives(config, server.clock);
      server := Grant(server, ToTtlSeconds(config.lockAtMostFor));
      ghost var afterGrant := server;
      Meanwhile({granted}, between);
      HappenAllKeeps(afterGrant, {granted}, between);
      if faults.commit || (server.key.None? && granted !in server.leases) {
        TryRevoke(granted, faults.revoke);
        return Thrown("commit failed"), id;
      }
      if server.key.None? {
        server := server.(key := Some(Key(ME, granted)));
        return Returned(Some(granted)), id;
      }
      TryRevoke(granted, faults.revoke);
      if faults.revoke {
        TryRevoke(granted, faults.revokeAgain);
        return Thrown("revoke failed"), id;
      }
      return Returned(None), id;
    }

    method TryRevoke(lease: nat, fault: bool)
      modifies this
      ensures server == if fault then old(server) else Revoke(old(server), lease)
    {
      if !fault { server := Revoke(server, lease); }
    }

    /** The unlock call takes the steps of the machine, in its order, whatever happens in the gaps
        between its calls and whichever of them fail, and throws exactly when the machine says so. */
    method Unlock(config: LockConfiguration, lease: nat, gaps: seq<seq<Event>>, faults: UnlockFaults)
      returns (r: Result<()>, ghost steps: seq<Step>)
      requires |gaps| == 5
      modifies this
      ensures var start := State(old(server), config, lease, Holding);
        && IsRun(start, steps)
        && Run(start, steps).server == server
        && Run(start, steps).phase.Finished?
        && (r.Thrown? <==> Run(start, steps).phase.threw)
    {
      ghost var start := State(server, config, lease, Holding);
      steps := Gap(start, [], {lease}, gaps[0]);
      var remaining := LockAtLeastUntil(config) - server.clock;
      RunAppends(start, steps, Compute);
      steps := steps + [Compute];
      if config.lockAtLeastFor <= 0.0 || remaining <= 0.0 {
        r, steps := Release(start, steps, {lease}, lease, gaps[4], faults.revokeOld);
        return;
      }
      r, steps := HandOver(start, steps, lease, ToTtlSeconds(remaining), gaps, faults);
    }

    method HandOver(ghost start: State, ghost before: seq<Step>, lease: nat, ttlSeconds: int, gaps: seq<seq<Event>>, faults: UnlockFaults)
      returns (r: Result<()>, ghost steps: seq<Step>)
      requires |gaps| == 5
      requires IsRun(start, before) && Run(start, before) == State(server, start.config, lease, Computed(ttlSeconds))
      modifies this
      ensures IsRun(start, steps)
      ensures Run(start, steps).server == server
      ensures Run(start, steps).phase.Finished? && (r.Thrown? <==> Run(start, steps).phase.threw)
    {
      steps := Gap(start, before, {lease}, gaps[1]);
      RunAppends(start, steps, GrantNew(faults.grant));
      steps := steps + [GrantNew(faults.grant)];
      if faults.grant { return Thrown("grant failed"), steps; }
      var newLease := server.nextLease;
      server := Grant(server, ttlSeconds);
      r, steps := CommitAndRevoke(start, steps, lease, newLease, gaps, faults);
    }

    method CommitAndRevoke(ghost start: State, ghost before: seq<Step>, lease: nat, newLease: nat, gaps: seq<seq<Event>>, faults: UnlockFaults)
      returns (r: Result<()>, ghost steps: seq<Step>)
      requires |gaps| == 5
      requires IsRun(start, before) && Run(start, before) == State(server, start.config, lease, Granted(newLease))
      modifies this
      ensures IsRun(start, steps)
      ensures Run(start, steps).server == server
      ensures Run(start, steps).phase.Finished? && (r.Thrown? <==> Run(start, steps).phase.threw)
    {
      steps := Gap(start, before, {lease, newLease}, gaps[2]);
      RunAppends(start, steps, Commit(faults.commit));
      steps := steps + [Commit(faults.commit)];
      if faults.commit || (server.key.Some? && server.key.value.lease == lease && newLease !in server.leases) {
        steps := Withdraw(start, steps, {lease, newLease}, newLease, gaps[3], faults.revokeNew);
        return Thrown("commit failed"), steps;
      }
      var (after, succeeded) := Reput(server, lease, newLease);
      server := after;
      if !succeeded {
        steps := Withdraw(start, steps, {lease, newLease}, newLease, gaps[3], faults.revokeNew);
        if faults.revokeNew { return Thrown("revoke failed"), steps; }
        r, steps := Release(start, steps, {lease}, lease, gaps[4], faults.revokeOld);
        return;
      }
      r, steps := Release(start, steps, {lease, newLease}, lease, gaps[4], faults.revokeOld);
    }

    method Withdraw(ghost start: State, ghost before: seq<Step>, mine: set<nat>, newLease: nat, events: seq<Event>, fault: bool)
      returns (ghost steps: seq<Step>)
      requires IsRun(start, before) && Run(start, before).server == server && mine == Mine(Run(start, before))
      requires Run(start, before).phase == Missed(newLease) || Run(start, before).phase == Aborted(newLease)
      modifies this
      ensures IsRun(start, steps)
      ensures Run(start, steps) == Run(start, before).(server := server,
        phase := if Run(start, before).phase.Missed? && !fault then NothingToKeep else Finished(None, true))
    {
      steps := Gap(start, before, mine, events);
      RunAppends(start, steps, RevokeNew(fault));
      steps := steps + [RevokeNew(fault)];
      TryRevoke(newLease, fault);
    }

    method Release(ghost start: State, ghost before: seq<Step>, mine: set<nat>, lease: nat, events: seq<Event>, fault: bool)
      returns (r: Result<()>, ghost steps: seq<Step>)
      requires IsRun(start, before) && Run(start, before).server == server && mine == Mine(Run(start, before))
      requires (Run(start, before).phase.HandedOver? || Run(start, before).phase.NothingToKeep?) && Run(start, before).lease == lease
      modifies this
      ensures IsRun(start, steps)
      ensures Run(start, steps).server == server
      ensures Run(start, steps).phase.Finished? && (r.Thrown? <==> Run(start, steps).phase.threw)
    {
      steps := Gap(start, before, mine, events);
      RunAppends(start, steps, RevokeOld(fault));
      steps := steps + [RevokeOld(fault)];
      TryRevoke(lease, fault);
      r := if fault then Thrown("revoke failed") else Returned(());
    }

    /** Lets the events of one gap happen, and adds them to the run. */
    method Gap(ghost start: State, ghost steps: seq<Step>, mine: set<nat>, events: seq<Event>) returns (ghost more: seq<Step>)
      requires IsRun(start, steps) && Run(start, steps).server == server && mine == Mine(Run(start, steps))
      modifies this
      ensures IsRun(start, more) && Run(start, more) == Run(start, steps).(server := server)
      ensures steps <= more && forall i :: |steps| <= i < |more| ==> more[i].Others?
      ensures server == HappenAll(old(server), mine, events)
    {
      more := steps;
      var i := 0;
      while i < |events|
        invariant 0 <= i <= |events|
        invariant HappenAll(server, mine, events[i..]) == HappenAll(old(server), mine, events)
        invariant IsRun(start, more) && Run(start, more) == Run(start, steps).(server := server)
        invariant steps <= more && forall i :: |steps| <= i < |more| ==> more[i].Others?
      {
        RunAppends(start, more, Others(events[i]));
        more := more + [Others(events[i])];
        server := Happen(server, mine, events[i]);
        i := i + 1;
      }
    }
  }

  function HappenAll(s: Server, mine: set<nat>, events: seq<Event>): Server
    decreases |events|
  {
    if events == [] then s else HappenAll(Happen(s, mine, events[0]), mine, events[1..])
  }

  /** The key is attached to a lease that has been granted, and every lease has been. */
  predicate Sane(s: Server) {
    && (s.key.Some? ==> s.key.value.lease < s.nextLease)
    && (forall id <- s.leases :: id < s.nextLease)
  }

  ghost predicate StartsHolding(s: State) {
    && s.phase.Holding?
    && Sane(s.server)
    && s.server.key == Some(Key(ME, s.lease))
    && s.lease in s.server.leases
    && s.server.leases[s.lease] > LockAtMostUntil(s.config)
  }

  /** A lease granted for a duration, at or after the moment the duration starts, outlives it. */
  lemma LeaseOutlives(config: LockConfiguration, grantedAt: Millis)
    requires config.createdAt <= grantedAt
    ensures grantedAt + ToTtlSeconds(config.lockAtMostFor) as Millis * 1000.0 > LockAtMostUntil(config)
  {
  }

  /** The seconds cover the duration, and no more than one second more. */
  lemma TtlIsTight(ms: Millis)
    ensures ms < ToTtlSeconds(ms) as Millis * 1000.0 <= ms + 1000.0
  {
  }

  lemma {:induction false} HappenAllKeeps(s: Server, mine: set<nat>, events: seq<Event>)
    requires Sane(s) && forall id <- mine :: id < s.nextLease
    ensures var s' := HappenAll(s, mine, events);
      && Sane(s')
      && s.clock <= s'.clock && s.nextLease <= s'.nextLease
      && (forall id <- mine :: id in s'.leases ==> id in s.leases && s'.leases[id] == s.leases[id])
      && (s'.key.Some? && s'.key.value.lease in mine ==> s'.key == s.key)
      && ((forall e <- events :: !e.Expire?) ==> forall id <- mine :: id in s.leases ==> id in s'.leases)
    decreases |events|
  {
    if events != [] { HappenAllKeeps(Happen(s, mine, events[0]), mine, events[1..]); }
  }
}

/** Every run of the unlock call. */
module EtcdSafety {
  import opened LockConfigurations
  import opened Etcd

  /** The key is this client's, under a lease that outlives `until`. */
  ghost predicate KeptUntil(s: State, lease: nat, until: Millis) {
    s.server.clock < until ==>
      s.server.key == Some(Key(ME, lease)) && lease in s.server.leases && s.server.leases[lease] >= until
  }

  ghost predicate Inv(s: State) {
    && Sane(s.server)
    && (forall id <- Mine(s) :: id < s.server.nextLease)
    && (s.phase.Holding? || s.phase.Computed? || s.phase.Granted? ==> KeptUntil(s, s.lease, LockAtMostUntil(s.config)))
    && (s.phase.Computed? ==> s.server.clock + s.phase.ttlSeconds as Millis * 1000.0 >= LockAtLeastUntil(s.config))
    && (s.phase.Granted? && s.phase.newLease in s.server.leases ==> s.server.leases[s.phase.newLease] >= LockAtLeastUntil(s.config))
    && (s.phase.Granted? || s.phase.HandedOver? || s.phase.Missed? || s.phase.Aborted? ==> s.phase.newLease != s.lease)
    && (s.phase.HandedOver? ==> KeptUntil(s, s.phase.newLease, LockAtLeastUntil(s.config)))
    && (s.phase.Finished? && s.phase.handedTo.Some? ==>
          s.phase.handedTo.value != s.lease && KeptUntil(s, s.phase.handedTo.value, LockAtLeastUntil(s.config)))
  }

  lemma HappenKeepsSane(s: Server, mine: set<nat>, e: Event)
    requires Sane(s)
    ensures Sane(Happen(s, mine, e)) && s.clock <= Happen(s, mine, e).clock && s.nextLease <= Happen(s, mine, e).nextLease
  {
  }

  /** No outside event takes away a key under a lease of this client's that has not run out. */
  lemma HappenKeepsKey(s: State, e: Event, lease: nat, until: Millis)
    requires Sane(s.server) && lease in Mine(s) && lease < s.server.nextLease && KeptUntil(s, lease, until)
    ensures KeptUntil(s.(server := Happen(s.server, Mine(s), e)), lease, until)
  {
  }

  lemma HappenKeepsLease(s: Server, mine: set<nat>, e: Event, lease: nat)
    requires lease in mine && lease < s.nextLease
    ensures var s' := Happen(s, mine, e); lease in s'.leases ==> lease in s.leases && s'.leases[lease] == s.leases[lease]
  {
  }

  lemma OthersKeepInv(s: State, e: Event)
    requires Inv(s)
    ensures Inv(Next(s, Others(e)))
  {
    HappenKeepsSane(s.server, Mine(s), e);
    match s.phase
    case Holding => HappenKeepsKey(s, e, s.lease, LockAtMostUntil(s.config));
    case Computed(_) => HappenKeepsKey(s, e, s.lease, LockAtMostUntil(s.config));
    case Granted(newLease) =>
      HappenKeepsKey(s, e, s.lease, LockAtMostUntil(s.config));
      HappenKeepsLease(s.server, Mine(s), e, newLease);
    case HandedOver(newLease) => HappenKeepsKey(s, e, newLease, LockAtLeastUntil(s.config));
    case Finished(handedTo, _) =>
      if handedTo.Some? { HappenKeepsKey(s, e, handedTo.value, LockAtLeastUntil(s.config)); }
    case _ =>
  }

  lemma GrantKeepsInv(s: State, fault: bool)
    requires Inv(s) && Enabled(s, GrantNew(fault))
    ensures Inv(Next(s, GrantNew(fault)))
  {
    if !fault {
      var s' := Next(s, GrantNew(fault));
      assert s'.server.leases[s'.phase.newLease] == s.server.clock + s.phase.ttlSeconds as Millis * 1000.0;
      assert s.lease != s'.phase.newLease;
    }
  }

  lemma CommitKeepsInv(s: State, fault: bool)
    requires Inv(s) && Enabled(s, Commit(fault))
    ensures Inv(Next(s, Commit(fault)))
  {
    var newLease := s.phase.newLease;
    assert s.lease in Mine(s) && newLease in Mine(s);
  }

  lemma RevokeNewKeepsInv(s: State, fault: bool)
    requires Inv(s) && Enabled(s, RevokeNew(fault))
    ensures Inv(Next(s, RevokeNew(fault)))
  {
    assert s.lease in Mine(s);
  }

  lemma RevokeOldKeepsInv(s: State, fault: bool)
    requires Inv(s) && Enabled(s, RevokeOld(fault))
    ensures Inv(Next(s, RevokeOld(fault)))
  {
    assert s.lease in Mine(s);
  }

  lemma StepKeepsInv(s: State, step: Step)
    requires Inv(s) && Enabled(s, step)
    ensures Inv(Next(s, step))
  {
    match step
    case Others(e) => OthersKeepInv(s, e);
    case Compute =>
      assert s.lease in Mine(s);
    case GrantNew(fault) => GrantKeepsInv(s, fault);
    case Commit(fault) => CommitKeepsInv(s, fault);
    case RevokeNew(fault) => RevokeNewKeepsInv(s, fault);
    case RevokeOld(fault) => RevokeOldKeepsInv(s, fault);
  }

  lemma {:induction false} RunKeepsInv(s: State, steps: seq<Step>)
    requires Inv(s) && IsRun(s, steps)
    ensures Inv(Run(s, steps))
    decreases |steps|
  {
    if steps != [] {
      StepKeepsInv(s, steps[0]);
      RunKeepsInv(Next(s, steps[0]), steps[1..]);
    }
  }

  /** Until the unlock call commits, the key stays this client's up to lockAtMostUntil; from a
      commit whose comparison holds, at every later point of every run, the key stays under the
      new lease up to lockAtLeastUntil, whether or not the old lease has been revoked. */
  lemma HandOverKeepsMinimum(start: State, steps: seq<Step>)
    requires StartsHolding(start) && IsRun(start, steps)
    ensures var s := Run(start, steps);
      && (s.phase.Holding? || s.phase.Computed? || s.phase.Granted? ==> KeptUntil(s, s.lease, LockAtMostUntil(s.config)))
      && (s.phase.HandedOver? ==> KeptUntil(s, s.phase.newLease, LockAtLeastUntil(s.config)))
      && (s.phase.Finished? && s.phase.handedTo.Some? ==> KeptUntil(s, s.phase.handedTo.value, LockAtLeastUntil(s.config)))
  {
    RunKeepsInv(start, steps);
  }

  /** The commit hands the key over exactly when the key is still attached to this lock's lease;
      otherwise no step of the unlock call touches the key another client has put there. */
  lemma OthersKeyIsUntouched(start: State, steps: seq<Step>, step: Step)
    requires StartsHolding(start) && IsRun(start, steps) && Enabled(Run(start, steps), step) && !step.Others?
    requires var s := Run(start, steps); s.server.key.Some? && s.server.key.value.lease !in Mine(s)
    ensures Next(Run(start, steps), step).server.key == Run(start, steps).server.key
    ensures !Next(Run(start, steps), step).phase.HandedOver?
  {
    RunKeepsInv(start, steps);
  }

  // ---- What an undisturbed unlock comes to

  /** No call fails and no lease runs out. */
  predicate Undisturbed(step: Step) {
    match step
    case Others(e) => !e.Expire?
    case Compute => true
    case GrantNew(fault) => !fault
    case Commit(fault) => !fault
    case RevokeNew(fault) => !fault
    case RevokeOld(fault) => !fault
  }

  /** Nothing has been lost: the key is where the phase says, and only a minimum that is over has
      not been handed on. `began` is when the unlock call began. */
  ghost predicate OnTrack(s: State, began: Millis) {
    var until := LockAtLeastUntil(s.config);
    && Sane(s.server) && began <= s.server.clock && s.config.createdAt <= began
    && (forall id <- Mine(s) :: id < s.server.nextLease)
    && match s.phase
       case Holding => s.server.key == Some(Key(ME, s.lease)) && s.lease in s.server.leases
       case Computed(ttl) =>
         && s.server.key == Some(Key(ME, s.lease)) && s.lease in s.server.leases
         && ttl as Millis * 1000.0 <= until - began + 1000.0
       case Granted(f) =>
         && s.server.key == Some(Key(ME, s.lease)) && s.lease in s.server.leases && f != s.lease
         && f in s.server.leases && s.server.leases[f] <= s.server.clock + (until - began) + 1000.0
       case HandedOver(f) =>
         && f != s.lease && s.server.key == Some(Key(ME, f))
         && f in s.server.leases && s.server.leases[f] <= s.server.clock + (until - began) + 1000.0
       case NothingToKeep => s.server.key == Some(Key(ME, s.lease)) && until <= s.server.clock
       case Finished(handedTo, threw) =>
         && !threw
         && (handedTo.None? ==> until <= s.server.clock && (s.server.key.Some? ==> s.server.key.value.lease != s.lease))
         && (handedTo.Some? ==>
               && handedTo.value != s.lease && s.server.key == Some(Key(ME, handedTo.value))
               && handedTo.value in s.server.leases
               && s.server.leases[handedTo.value] <= s.server.clock + (until - began) + 1000.0)
       case Missed(_) => false
       case Aborted(_) => false
  }

  /** Outside events that let no lease run out leave this client's leases, and its key, alone. */
  lemma HappenSpares(s: Server, mine: set<nat>, e: Event)
    requires Sane(s) && !e.Expire? && forall id <- mine :: id < s.nextLease
    ensures var s' := Happen(s, mine, e);
      && Sane(s') && s.clock <= s'.clock && s.nextLease <= s'.nextLease
      && (forall id <- mine :: id in s.leases ==> id in s'.leases && s'.leases[id] == s.leases[id])
      && (s.key.Some? && s.key.value.lease in mine ==> s'.key == s.key)
      && (s'.key.Some? && s'.key.value.lease in mine ==> s.key == s'.key)
  {
  }

  lemma OthersStayOnTrack(s: State, began: Millis, e: Event)
    requires OnTrack(s, began) && !e.Expire? && !s.phase.Finished?
    ensures OnTrack(Next(s, Others(e)), began)
  {
    HappenSpares(s.server, Mine(s), e);
    assert s.lease in Mine(s);
  }

  lemma OthersAfterwards(s: State, began: Millis, e: Event)
    requires OnTrack(s, began) && !e.Expire? && s.phase.Finished?
    ensures OnTrack(Next(s, Others(e)), began)
  {
    HappenSpares(s.server, Mine(s), e);
    assert s.lease in Mine(s);
  }

  lemma ComputeStaysOnTrack(s: State, began: Millis)
    requires OnTrack(s, began) && s.phase.Holding?
    ensures OnTrack(Next(s, Compute), began)
  {
  }

  lemma CallStaysOnTrack(s: State, began: Millis, step: Step)
    requires OnTrack(s, began) && Enabled(s, step) && Undisturbed(step) && !step.Others? && !step.Compute?
    ensures OnTrack(Next(s, step), began)
  {
    assert s.lease in Mine(s);
  }

  lemma {:induction false} RunStaysOnTrack(s: State, began: Millis, steps: seq<Step>)
    requires OnTrack(s, began) && IsRun(s, steps) && forall step <- steps :: Undisturbed(step)
    ensures OnTrack(Run(s, steps), began) && Run(s, steps).config == s.config && Run(s, steps).lease == s.lease
    decreases |steps|
  {
    if steps != [] {
      assert Undisturbed(steps[0]);
      match steps[0] {
        case Others(e) => if s.phase.Finished? { OthersAfterwards(s, began, e); } else { OthersStayOnTrack(s, began, e); }
        case Compute => ComputeStaysOnTrack(s, began);
        case _ => CallStaysOnTrack(s, began, steps[0]);
      }
      RunStaysOnTrack(Next(s, steps[0]), began, steps[1..]);
    }
  }

  /** With no failing call and no lease running out, an unlock that finishes does not throw. If it
      finishes before the minimum is over it has handed the key over, to a lease that ends no more
      than a second, and the time the call has taken, after the minimum; and if it hands nothing
      over, the minimum was over and the key is no longer under its lease. */
  lemma RemainingMinimumIsHandedOver(start: State, steps: seq<Step>)
    requires StartsHolding(start) && start.config.createdAt <= start.server.clock
    requires IsRun(start, steps) && (forall step <- steps :: Undisturbed(step)) && Run(start, steps).phase.Finished?
    ensures var s := Run(start, steps);
      var until := start.config.createdAt + start.config.lockAtLeastFor;
      && !s.phase.threw
      && (s.server.clock < until ==> s.phase.handedTo.Some?)
      && (s.phase.handedTo.Some? ==>
            && s.server.key == Some(Key(ME, s.phase.handedTo.value))
            && s.phase.handedTo.value in s.server.leases
            && s.server.leases[s.phase.handedTo.value] <= until + 1000.0 + (s.server.clock - start.server.clock))
      && (s.phase.handedTo.None? ==> until <= s.server.clock && (s.server.key.Some? ==> s.server.key.value.lease != start.lease))
  {
    RunStaysOnTrack(start, start.server.clock, steps);
  }
}

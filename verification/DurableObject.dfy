/** The token-fenced lease kept by a Durable Object: one record per lock, owned by whoever
    presents the token of the acquire that wrote it. */
module DurableObject {
  import opened LockConfigurations

  /** Records written by older versions may lack the token or the minimum. */
  datatype DoLockRecord = DoLockRecord(
    lockUntil: Millis,
    lockedAt: Millis,
    lockedBy: string,
    token: Option<string>,
    lockAtLeastUntil: Option<Millis>)

  datatype Kind = LOCK | UNLOCK | EXTEND

  datatype LockOp = LockOp(
    kind: Kind, name: string, lockAtMostFor: Millis, lockAtLeastFor: Millis, lockedBy: string, token: string)

  datatype Reason = HELD | NOT_OWNER | EXPIRED | MISSING

  datatype LockOpResult = Ok(acquired: bool, extended: bool, token: Option<string>) | Denied(reason: Reason)

  function StoredLeastUntil(existing: DoLockRecord, now: Millis): Millis {
    if existing.lockAtLeastUntil.Some? then existing.lockAtLeastUntil.value else now
  }

  function StrictFutureDeadline(now: Millis, duration: Millis): Option<Millis> {
    if now + duration <= now then None else Some(now + duration)
  }

  predicate Owns(existing: DoLockRecord, token: string) {
    |token| > 0 && existing.token == Some(token)
  }

  /** What an operation does to the record, and what it answers. */
  function Apply(existing: Option<DoLockRecord>, op: LockOp, now: Millis): (Option<DoLockRecord>, LockOpResult) {
    match op.kind
    case LOCK =>
      if |op.token| == 0 then (existing, Denied(NOT_OWNER))
      else if existing.Some? && existing.value.lockUntil > now then (existing, Denied(HELD))
      else (match StrictFutureDeadline(now, op.lockAtMostFor)
            case None => (existing, Ok(false, false, None))
            case Some(lockUntil) =>
              (Some(DoLockRecord(lockUntil, now, op.lockedBy, Some(op.token), Some(now + op.lockAtLeastFor))),
               Ok(true, false, Some(op.token))))
    case UNLOCK =>
      if existing.None? || !Owns(existing.value, op.token) then (existing, Ok(false, false, None))
      else (Some(existing.value.(lockUntil := Max(now, StoredLeastUntil(existing.value, now)))), Ok(false, false, None))
    case EXTEND =>
      if existing.None? then (existing, Denied(MISSING))
      else if !Owns(existing.value, op.token) then (existing, Denied(NOT_OWNER))
      else if existing.value.lockUntil <= now then (existing, Denied(EXPIRED))
      else (match StrictFutureDeadline(now, op.lockAtMostFor)
            case None => (existing, Ok(false, false, None))
            case Some(lockUntil) =>
              (Some(existing.value.(lockUntil := lockUntil,
                                    lockAtLeastUntil := Some(Max(Max(StoredLeastUntil(existing.value, now), now), now + op.lockAtLeastFor)))),
               Ok(false, true, None)))
  }

  /** Why a request is turned away, and that only a granted lock request or the owner changes the record. */
  lemma AnswersSayWhy(existing: Option<DoLockRecord>, op: LockOp, now: Millis)
    ensures var (after, answer) := Apply(existing, op, now);
      var owned := existing.Some? && |op.token| > 0 && existing.value.token == Some(op.token);
      var live := existing.Some? && now < existing.value.lockUntil;
      && (answer == Denied(HELD) <==> op.kind == LOCK && |op.token| > 0 && live)
      && (answer == Denied(MISSING) <==> op.kind == EXTEND && existing.None?)
      && (answer == Denied(EXPIRED) <==> op.kind == EXTEND && owned && !live)
      && (answer == Denied(NOT_OWNER) <==> (op.kind == LOCK && |op.token| == 0) || (op.kind == EXTEND && existing.Some? && !owned))
      && (answer == Ok(true, false, Some(op.token)) <==> op.kind == LOCK && |op.token| > 0 && !live && op.lockAtMostFor > 0.0)
      && (answer == Ok(false, true, None) <==> op.kind == EXTEND && owned && live && op.lockAtMostFor > 0.0)
      && (after != existing ==> answer == Ok(true, false, Some(op.token)) || (op.kind != LOCK && owned))
  {
  }

  function StorageKeyForLock(name: string): string {
    "lock:" + name
  }

  class DoLockStorage {
    var records: map<string, DoLockRecord>

    constructor ()
      ensures records == map[]
    {
      records := map[];
    }

    function Get(key: string): Option<DoLockRecord>
      reads this
    {
      if key in records then Some(records[key]) else None
    }

    method Put(key: string, record: DoLockRecord)
      modifies this
      ensures records == old(records)[key := record]
    {
      records := records[key := record];
    }

    /** One request, handled without interleaving, as the object's input gate ensures. */
    method ApplyLockOp(body: LockOp, now: Millis) returns (result: LockOpResult)
      modifies this
      ensures var key := StorageKeyForLock(body.name);
        var (record, answer) := Apply(old(Get(key)), body, now);
        && result == answer
        && Get(key) == record
        && forall k :: k != key ==> Get(k) == old(Get(k))
    {
      var key := StorageKeyForLock(body.name);
      if body.kind == LOCK {
        if |body.token| == 0 { return Denied(NOT_OWNER); }
        var existing := Get(key);
        if existing.Some? && existing.value.lockUntil > now { return Denied(HELD); }
        var lockUntil := StrictFutureDeadline(now, body.lockAtMostFor);
        if lockUntil.None? { return Ok(false, false, None); }
        Put(key, DoLockRecord(lockUntil.value, now, body.lockedBy, Some(body.token), Some(now + body.lockAtLeastFor)));
        return Ok(true, false, Some(body.token));
      }
      if body.kind == UNLOCK {
        var existing := Get(key);
        if existing.None? || !Owns(existing.value, body.token) { return Ok(false, false, None); }
        var next := DoLockRecord(Max(now, StoredLeastUntil(existing.value, now)), existing.value.lockedAt,
                                 existing.value.lockedBy, existing.value.token, None);
        if existing.value.lockAtLeastUntil.Some? { next := next.(lockAtLeastUntil := existing.value.lockAtLeastUntil); }
        Put(key, next);
        return Ok(false, false, None);
      }
      var existing := Get(key);
      if existing.None? { return Denied(MISSING); }
      if !Owns(existing.value, body.token) { return Denied(NOT_OWNER); }
      if existing.value.lockUntil <= now { return Denied(EXPIRED); }
      var lockUntil := StrictFutureDeadline(now, body.lockAtMostFor);
      var lockAtLeastUntil := Max(Max(StoredLeastUntil(existing.value, now), now), now + body.lockAtLeastFor);
      if lockUntil.None? { return Ok(false, false, None); }
      Put(key, DoLockRecord(lockUntil.value, existing.value.lockedAt, existing.value.lockedBy, existing.value.token, Some(lockAtLeastUntil)));
      return Ok(false, true, None);
    }
  }
}

/** Every run of requests for one lock on one object. */
module DurableObjectRuns {
  import opened LockConfigurations
  import opened DurableObject

  datatype Request = Request(op: LockOp, now: Millis)

  /** The record before request `k`; `RecordAt(first, requests, |requests|)` is the final one. */
  function RecordAt(first: Option<DoLockRecord>, requests: seq<Request>, k: nat): Option<DoLockRecord>
    requires k <= |requests|
  {
    if k == 0 then first
    else Apply(RecordAt(first, requests, k - 1), requests[k - 1].op, requests[k - 1].now).0
  }

  function ResultAt(first: Option<DoLockRecord>, requests: seq<Request>, k: nat): LockOpResult
    requires k < |requests|
  {
    Apply(RecordAt(first, requests, k), requests[k].op, requests[k].now).1
  }

  /** The clock does not run backwards, and a lock request carries a token nobody has used before. */
  ghost predicate Orderly(first: Option<DoLockRecord>, requests: seq<Request>) {
    && (forall i, j :: 0 <= i <= j < |requests| ==> requests[i].now <= requests[j].now)
    && (forall i, j :: 0 <= i < j < |requests| && requests[j].op.kind.LOCK? ==> requests[j].op.token != requests[i].op.token)
    && (forall j :: 0 <= j < |requests| && requests[j].op.kind.LOCK? && first.Some? ==> first.value.token != Some(requests[j].op.token))
  }

  predicate AcquiresAt(first: Option<DoLockRecord>, requests: seq<Request>, i: nat) {
    i < |requests| && requests[i].op.kind.LOCK? && ResultAt(first, requests, i) == Ok(true, false, Some(requests[i].op.token))
  }

  /** The tenure of the acquire at `i` is still the last one before request `k`. */
  predicate Lasts(first: Option<DoLockRecord>, requests: seq<Request>, i: nat, k: nat)
    requires k <= |requests|
  {
    i < k && AcquiresAt(first, requests, i) && forall j :: i < j < k ==> !AcquiresAt(first, requests, j)
  }

  /** Throughout its tenure the record carries the token of the acquire. */
  lemma {:induction false} TenureKeepsToken(first: Option<DoLockRecord>, requests: seq<Request>, i: nat, k: nat)
    requires k <= |requests| && Lasts(first, requests, i, k)
    ensures var r := RecordAt(first, requests, k); r.Some? && r.value.token == Some(requests[i].op.token) && r.value.lockedAt == requests[i].now
    decreases k
  {
    if i + 1 < k {
      TenureKeepsToken(first, requests, i, k - 1);
      assert !AcquiresAt(first, requests, k - 1);
    }
  }

  /** After a later token has acquired, no request with an earlier token changes the record. */
  lemma EarlierTokenIsPowerless(first: Option<DoLockRecord>, requests: seq<Request>, i: nat, j: nat, k: nat)
    requires Orderly(first, requests) && i < j < k < |requests|
    requires AcquiresAt(first, requests, i) && AcquiresAt(first, requests, j)
    requires requests[k].op.token == requests[i].op.token
    ensures RecordAt(first, requests, k + 1) == RecordAt(first, requests, k)
  {
    var last := LastAcquire(first, requests, j, k);
    TenureKeepsToken(first, requests, last, k);
  }

  /** The last acquire before `k`, no earlier than `j`. */
  lemma {:induction false} LastAcquire(first: Option<DoLockRecord>, requests: seq<Request>, j: nat, k: nat) returns (last: nat)
    requires j < k <= |requests| && AcquiresAt(first, requests, j)
    ensures j <= last && Lasts(first, requests, last, k)
    decreases k
  {
    if AcquiresAt(first, requests, k - 1) || k == j + 1 {
      last := k - 1;
    } else {
      last := LastAcquire(first, requests, j, k - 1);
    }
  }

  /** Tenures are disjoint and ordered: whatever deadline the record shows between an acquire and
      the next one, the deadline it shows last has passed when any later acquire succeeds. */
  lemma {:induction false} TenuresAreDisjoint(first: Option<DoLockRecord>, requests: seq<Request>, i: nat, end: nat, j: nat)
    requires Orderly(first, requests) && end < |requests| && Lasts(first, requests, i, end)
    requires AcquiresAt(first, requests, end) && end <= j && AcquiresAt(first, requests, j)
    ensures requests[i].now <= requests[j].now
    ensures RecordAt(first, requests, end).Some? && RecordAt(first, requests, end).value.lockUntil <= requests[j].now
  {
    TenureKeepsToken(first, requests, i, end);
  }

  /** A lock request acquires exactly if it has a token and a duration and finds no deadline ahead;
      and then the record is its own, to the millisecond. */
  lemma LockIsGrantedExactlyIf(first: Option<DoLockRecord>, requests: seq<Request>, k: nat)
    requires k < |requests| && requests[k].op.kind.LOCK?
    ensures var before, op, now := RecordAt(first, requests, k), requests[k].op, requests[k].now;
      && (AcquiresAt(first, requests, k) <==>
            |op.token| > 0 && op.lockAtMostFor > 0.0 && (before.None? || before.value.lockUntil <= now))
      && RecordAt(first, requests, k + 1) ==
           (if AcquiresAt(first, requests, k)
            then Some(DoLockRecord(now + op.lockAtMostFor, now, op.lockedBy, Some(op.token), Some(now + op.lockAtLeastFor)))
            else before)
  {
  }

  /** Within its tenure, and before its deadline, the owner's extension takes effect. */
  lemma OwnerCanExtend(first: Option<DoLockRecord>, requests: seq<Request>, i: nat, k: nat)
    requires k < |requests| && Lasts(first, requests, i, k)
    requires requests[k].op.kind.EXTEND? && requests[k].op.token == requests[i].op.token && requests[k].op.lockAtMostFor > 0.0
    ensures var before := RecordAt(first, requests, k);
      before.Some? && (ExtendsAt(first, requests, k) <==> requests[k].now < before.value.lockUntil)
    ensures ExtendsAt(first, requests, k) ==>
      var after := RecordAt(first, requests, k + 1);
      after.Some? && after.value.lockUntil == requests[k].now + requests[k].op.lockAtMostFor
  {
    TenureKeepsToken(first, requests, i, k);
  }

  // ---- The minimum hold

  /** Request `j` is an extension that takes effect. */
  predicate ExtendsAt(first: Option<DoLockRecord>, requests: seq<Request>, j: nat) {
    j < |requests| && requests[j].op.kind.EXTEND? && ResultAt(first, requests, j) == Ok(false, true, None)
  }

  /** The largest minimum asked for by the acquire at `i` and the extensions before `k`. */
  function LargestMinimum(first: Option<DoLockRecord>, requests: seq<Request>, i: nat, k: nat): Millis
    requires i < k <= |requests|
  {
    if k == i + 1 then requests[i].now + requests[i].op.lockAtLeastFor
    else
      var before := LargestMinimum(first, requests, i, k - 1);
      var r := requests[k - 1];
      if ExtendsAt(first, requests, k - 1) then Max(Max(before, r.now), r.now + r.op.lockAtLeastFor) else before
  }

  /** The stored minimum is the largest one asked for so far in the tenure, so it never falls. */
  lemma {:induction false} StoredMinimumIsLargest(first: Option<DoLockRecord>, requests: seq<Request>, i: nat, k: nat)
    requires Orderly(first, requests) && k <= |requests| && Lasts(first, requests, i, k)
    ensures RecordAt(first, requests, k).Some?
    ensures RecordAt(first, requests, k).value.lockAtLeastUntil == Some(LargestMinimum(first, requests, i, k))
    decreases k
  {
    if i + 1 < k {
      StoredMinimumIsLargest(first, requests, i, k - 1);
      TenureKeepsToken(first, requests, i, k - 1);
      assert !AcquiresAt(first, requests, k - 1);
      assert requests[i].now <= requests[k - 1].now;
      MinimumAfter(RecordAt(first, requests, k - 1).value, requests[k - 1], LargestMinimum(first, requests, i, k - 1));
    }
  }

  /** What one request that acquires nothing makes of the stored minimum. */
  lemma MinimumAfter(record: DoLockRecord, r: Request, before: Millis)
    requires record.lockAtLeastUntil == Some(before)
    requires r.op.kind.LOCK? ==> Apply(Some(record), r.op, r.now).1 != Ok(true, false, Some(r.op.token))
    ensures var (after, result) := Apply(Some(record), r.op, r.now);
      && after.Some?
      && after.value.lockAtLeastUntil ==
         Some(if r.op.kind.EXTEND? && result == Ok(false, true, None) then Max(Max(before, r.now), r.now + r.op.lockAtLeastFor) else before)
  {
  }

  lemma {:induction false} LargestMinimumGrows(first: Option<DoLockRecord>, requests: seq<Request>, i: nat, k: nat, k': nat)
    requires i < k <= k' <= |requests|
    ensures LargestMinimum(first, requests, i, k) <= LargestMinimum(first, requests, i, k')
    decreases k'
  {
    if k < k' { LargestMinimumGrows(first, requests, i, k, k' - 1); }
  }

  /** Within a tenure the stored minimum never falls. */
  lemma StoredMinimumNeverFalls(first: Option<DoLockRecord>, requests: seq<Request>, i: nat, k: nat, k': nat)
    requires Orderly(first, requests) && i < k <= k' <= |requests| && Lasts(first, requests, i, k')
    ensures var r, r' := RecordAt(first, requests, k), RecordAt(first, requests, k');
      && r.Some? && r.value.lockAtLeastUntil.Some?
      && r'.Some? && r'.value.lockAtLeastUntil.Some?
      && r.value.lockAtLeastUntil.value <= r'.value.lockAtLeastUntil.value
  {
    StoredMinimumIsLargest(first, requests, i, k);
    StoredMinimumIsLargest(first, requests, i, k');
    LargestMinimumGrows(first, requests, i, k, k');
  }

  /** If the tenure's last write is an unlock by its holder, nobody acquires before that minimum. */
  lemma UnlockedTenureIsHeld(first: Option<DoLockRecord>, requests: seq<Request>, i: nat, u: nat, end: nat)
    requires Orderly(first, requests) && i < u < end < |requests| && Lasts(first, requests, i, end) && AcquiresAt(first, requests, end)
    requires requests[u].op.kind.UNLOCK? && requests[u].op.token == requests[i].op.token
    requires forall j :: u < j < end ==> RecordAt(first, requests, j + 1) == RecordAt(first, requests, j)
    ensures requests[end].now >= LargestMinimum(first, requests, i, end)
  {
    TenureKeepsToken(first, requests, i, u);
    StoredMinimumIsLargest(first, requests, i, u);
    StoredMinimumIsLargest(first, requests, i, end);
    assert |requests[i].op.token| > 0;
    Unchanged(first, requests, u + 1, end);
  }

  /** In every orderly run, the owner's unlock releases the lock: the record ends at once, or when
      the largest minimum asked for is over. */
  lemma UnlockReleases(first: Option<DoLockRecord>, requests: seq<Request>, i: nat, u: nat)
    requires Orderly(first, requests) && u < |requests| && Lasts(first, requests, i, u)
    requires requests[u].op.kind.UNLOCK? && requests[u].op.token == requests[i].op.token
    ensures var after, least := RecordAt(first, requests, u + 1), LargestMinimum(first, requests, i, u);
      after.Some? && after.value.lockUntil == if requests[u].now < least then least else requests[u].now
  {
    TenureKeepsToken(first, requests, i, u);
    StoredMinimumIsLargest(first, requests, i, u);
    assert |requests[i].op.token| > 0;
  }

  /** And with no write in between, the next proper lock request acquires exactly from then on. */
  lemma ReleasedLockIsGrantedExactlyIf(first: Option<DoLockRecord>, requests: seq<Request>, i: nat, u: nat, k: nat)
    requires Orderly(first, requests) && i < u < k < |requests| && Lasts(first, requests, i, u)
    requires requests[u].op.kind.UNLOCK? && requests[u].op.token == requests[i].op.token
    requires forall j :: u < j < k ==> RecordAt(first, requests, j + 1) == RecordAt(first, requests, j)
    requires requests[k].op.kind.LOCK? && |requests[k].op.token| > 0 && requests[k].op.lockAtMostFor > 0.0
    ensures AcquiresAt(first, requests, k) <==>
      requests[k].now >= LargestMinimum(first, requests, i, u) && requests[k].now >= requests[u].now
  {
    UnlockReleases(first, requests, i, u);
    Unchanged(first, requests, u + 1, k);
    LockIsGrantedExactlyIf(first, requests, k);
  }

  lemma {:induction false} Unchanged(first: Option<DoLockRecord>, requests: seq<Request>, a: nat, b: nat)
    requires a <= b <= |requests|
    requires forall j :: a <= j < b ==> RecordAt(first, requests, j + 1) == RecordAt(first, requests, j)
    ensures RecordAt(first, requests, b) == RecordAt(first, requests, a)
    decreases b
  {
    if a < b { Unchanged(first, requests, a, b - 1); }
  }

  /** Request `j` is an unlock by the owner of the record. */
  predicate UnlocksAt(first: Option<DoLockRecord>, requests: seq<Request>, j: nat) {
    && j < |requests| && requests[j].op.kind.UNLOCK?
    && RecordAt(first, requests, j).Some? && Owns(RecordAt(first, requests, j).value, requests[j].op.token)
  }

  /** The deadline asked for by the acquire at `i` or by the last extension before `k` that takes effect. */
  function LastDeadline(first: Option<DoLockRecord>, requests: seq<Request>, i: nat, k: nat): Millis
    requires i < k <= |requests|
  {
    if k == i + 1 || ExtendsAt(first, requests, k - 1) then requests[k - 1].now + requests[k - 1].op.lockAtMostFor
    else LastDeadline(first, requests, i, k - 1)
  }

  /** Without an unlock the record shows that deadline. */
  lemma {:induction false} StoredDeadlineIsLast(first: Option<DoLockRecord>, requests: seq<Request>, i: nat, k: nat)
    requires k <= |requests| && Lasts(first, requests, i, k)
    requires forall j :: i < j < k ==> !UnlocksAt(first, requests, j)
    ensures RecordAt(first, requests, k).Some?
    ensures RecordAt(first, requests, k).value.lockUntil == LastDeadline(first, requests, i, k)
    decreases k
  {
    if i + 1 < k {
      StoredDeadlineIsLast(first, requests, i, k - 1);
      assert !AcquiresAt(first, requests, k - 1) && !UnlocksAt(first, requests, k - 1);
    }
  }

  /** A tenure keeps its promised minimum exactly when the stored deadline reaches it. For a holder
      that never unlocks, that is when the deadline of its acquire or of its last extension does,
      which a shrinking extension can prevent. */
  lemma AbandonedTenureIsHeldExactlyIf(first: Option<DoLockRecord>, requests: seq<Request>, i: nat, op: LockOp)
    requires Orderly(first, requests) && Lasts(first, requests, i, |requests|)
    requires op.kind.LOCK? && |op.token| > 0 && op.lockAtMostFor > 0.0
    ensures var r := RecordAt(first, requests, |requests|);
      r.Some? &&
      ((forall now :: Apply(r, op, now).1.Ok? ==> now >= LargestMinimum(first, requests, i, |requests|))
       <==> r.value.lockUntil >= LargestMinimum(first, requests, i, |requests|))
    ensures (forall j :: i < j < |requests| ==> !UnlocksAt(first, requests, j)) ==>
      ((forall now :: Apply(RecordAt(first, requests, |requests|), op, now).1.Ok? ==> now >= LargestMinimum(first, requests, i, |requests|))
       <==> LastDeadline(first, requests, i, |requests|) >= LargestMinimum(first, requests, i, |requests|))
  {
    StoredMinimumIsLargest(first, requests, i, |requests|);
    var r := RecordAt(first, requests, |requests|);
    assert Apply(r, op, r.value.lockUntil).1.Ok?;
    if forall j :: i < j < |requests| ==> !UnlocksAt(first, requests, j) {
      StoredDeadlineIsLast(first, requests, i, |requests|);
    }
  }

  lemma ShrinkingExtensionBreaksMinimum(name: string, host: string, token: string) returns (requests: seq<Request>)
    requires token != []
    ensures Orderly(None, requests) && Lasts(None, requests, 0, |requests|)
    ensures var r := RecordAt(None, requests, |requests|); r.Some? && r.value.lockUntil < LargestMinimum(None, requests, 0, |requests|)
  {
    requests := [Request(LockOp(LOCK, name, 1000.0, 800.0, host, token), 0.0),
                 Request(LockOp(EXTEND, name, 100.0, 0.0, host, token), 10.0)];
    assert RecordAt(None, requests, 0) == None;
    var r1 := RecordAt(None, requests, 1);
    assert r1 == Some(DoLockRecord(1000.0, 0.0, host, Some(token), Some(800.0)));
    assert RecordAt(None, requests, 2) == Some(DoLockRecord(110.0, 0.0, host, Some(token), Some(800.0)));
    assert LargestMinimum(None, requests, 0, 1) == 800.0;
  }
}

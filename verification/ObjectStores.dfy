/** The optimistic lease over one object of a bucket: Google Cloud Storage, which versions the
    object and its metadata, and S3, whose ETag only covers the body. */
module ObjectStores {
  import opened LockConfigurations
  import opened Lease

  datatype Scheme = Gcs | S3

  /** A save starts a new generation; a patch replaces the metadata of the current one. */
  datatype Event =
    | Save(generation: nat, metadata: Record, body: Option<Record>, mine: bool)
    | Patch(metadata: Record, mine: bool)

  /** What a conditional write is conditioned on. */
  datatype Token = Versions(generation: nat, metageneration: nat) | BodyHash(body: Option<Record>)

  function Current(log: seq<Event>): Option<Record> {
    if log == [] then None else Some(log[|log| - 1].metadata)
  }

  function Generation(log: seq<Event>): nat {
    if log == [] then 0
    else match log[|log| - 1]
      case Save(g, _, _, _) => g
      case Patch(_, _) => Generation(log[..|log| - 1])
  }

  function Metageneration(log: seq<Event>): nat {
    if log == [] then 0
    else match log[|log| - 1]
      case Save(_, _, _, _) => 1
      case Patch(_, _) => Metageneration(log[..|log| - 1]) + 1
  }

  /** Bodies with equal hashes are taken to be equal. */
  function Body(log: seq<Event>): Option<Record> {
    if log == [] then None
    else match log[|log| - 1]
      case Save(_, _, body, _) => body
      case Patch(_, _) => Body(log[..|log| - 1])
  }

  function TokenOf(scheme: Scheme, log: seq<Event>): Token {
    match scheme
    case Gcs => Versions(Generation(log), Metageneration(log))
    case S3 => BodyHash(Body(log))
  }

  /** Generations only grow, and an S3 object is always saved whole, with its record as body. */
  predicate Plausible(scheme: Scheme, log: seq<Event>) {
    log == [] ||
    (&& Plausible(scheme, log[..|log| - 1])
     && match log[|log| - 1]
        case Save(g, metadata, body, _) =>
          g > Generation(log[..|log| - 1]) && (scheme.S3? ==> body == Some(metadata))
        case Patch(_, _) => scheme.Gcs? && |log| > 1)
  }

  predicate Later(g: nat, m: nat, g': nat, m': nat) {
    g < g' || (g == g' && m < m')
  }

  /** Over any run of saves and patches the pair of generations strictly grows, so it never repeats. */
  lemma {:induction false} VersionsGrow(log: seq<Event>, i: nat)
    requires Plausible(Gcs, log) && i < |log|
    ensures Plausible(Gcs, log[..i])
    ensures Later(Generation(log[..i]), Metageneration(log[..i]), Generation(log), Metageneration(log))
    decreases |log|
  {
    var front := log[..|log| - 1];
    if i < |front| {
      assert front[..i] == log[..i];
      VersionsGrow(front, i);
    } else {
      assert log[..i] == front;
    }
  }

  /** An S3 object's metadata is what its ETag covers, because the body repeats it. */
  lemma BodyRepeatsRecord(log: seq<Event>)
    requires Plausible(S3, log)
    ensures Body(log) == Current(log)
  {
  }

  /** A token that still matches at the write proves that the write replaces the record that was
      read: on GCS nothing has happened in between, on S3 what happened has cancelled out. */
  lemma MatchingTokenMeansSameRecord(scheme: Scheme, atRead: seq<Event>, atWrite: seq<Event>)
    requires atRead <= atWrite && Plausible(scheme, atRead) && Plausible(scheme, atWrite)
    requires TokenOf(scheme, atRead) == TokenOf(scheme, atWrite)
    ensures Current(atRead) == Current(atWrite)
    ensures scheme.Gcs? ==> atRead == atWrite
  {
    match scheme
    case Gcs =>
      if |atRead| < |atWrite| {
        assert atWrite[..|atRead|] == atRead;
        VersionsGrow(atWrite, |atRead|);
      }
    case S3 =>
      BodyRepeatsRecord(atRead);
      BodyRepeatsRecord(atWrite);
  }

  /** Saving S3 objects with an empty body, as the GCS accessor does, would make the ETag blind:
      the token matches although the record has become somebody else's live lock. */
  lemma EmptyBodyWouldBeBlind() returns (atRead: seq<Event>, atWrite: seq<Event>)
    ensures atRead <= atWrite && TokenOf(S3, atRead) == TokenOf(S3, atWrite)
    ensures TryAcquire(Ownership(Current(atRead)), LockConfiguration("job", 10.0, 0.0, 0.0), "me", 0.0).Some?
    ensures TryAcquire(Ownership(Current(atWrite)), LockConfiguration("job", 10.0, 0.0, 0.0), "me", 0.0).None?
  {
    atRead := [Save(1, Record(0.0, 0.0, "me"), None, true)];
    atWrite := atRead + [Save(2, Record(5.0, 0.0, "other"), None, false)];
  }

  predicate OnlyOthers(log: seq<Event>, from: nat) {
    forall i :: from <= i < |log| ==> !log[i].mine
  }

  // ---- The object

  /** A write by another client; `skip` is how far the server's generation counter moves on. */
  datatype Change = Change(metadata: Record, patch: bool, skip: nat)

  datatype WriteOutcome = Written | PreconditionFailed | WriteFailed

  class StoredObject {
    const scheme: Scheme
    var log: seq<Event>

    ghost predicate Valid()
      reads this
    {
      Plausible(scheme, log)
    }

    constructor (scheme: Scheme)
      ensures this.scheme == scheme && log == [] && Valid()
    {
      this.scheme, log := scheme, [];
    }

    method Append(metadata: Record, patch: bool, skip: nat, mine: bool)
      requires Valid() && (patch ==> scheme.Gcs? && log != [])
      modifies this
      ensures Valid()
      ensures |log| == |old(log)| + 1 && log[..|old(log)|] == old(log)
      ensures log[|old(log)|].metadata == metadata && log[|old(log)|].mine == mine
    {
      var event :=
        if patch then Patch(metadata, mine)
        else Save(Generation(log) + 1 + skip, metadata, if scheme.S3? then Some(metadata) else None, mine);
      ghost var was := log;
      log := log + [event];
      assert log[..|log| - 1] == was;
    }

    method OthersWrite(changes: seq<Change>)
      requires Valid()
      modifies this
      ensures Valid() && old(log) <= log && OnlyOthers(log, |old(log)|)
      ensures |log| == |old(log)| + |changes|
    {
      for i := 0 to |changes|
        invariant Valid() && old(log) <= log && OnlyOthers(log, |old(log)|)
        invariant |log| == |old(log)| + i
      {
        var c := changes[i];
        Append(c.metadata, c.patch && scheme.Gcs? && log != [], c.skip, false);
      }
    }

    /** The record and its token, or nothing when the object does not exist. */
    method Head(fault: bool) returns (head: Result<Option<(Record, Token)>>)
      ensures head.Thrown? <==> fault
      ensures head.Returned? ==> (head.value.Some? <==> log != [])
      ensures head.Returned? && head.value.Some? ==>
        head.value.value.0 == Current(log).value && head.value.value.1 == TokenOf(scheme, log)
    {
      if fault { return Thrown("head failed"); }
      if log == [] { return Returned(None); }
      return Returned(Some((Current(log).value, TokenOf(scheme, log))));
    }

    /** A write under the condition that the token still matches, or that there is no object. */
    method ConditionalWrite(metadata: Record, patch: bool, condition: Option<Token>, fault: bool) returns (outcome: WriteOutcome)
      requires Valid() && (patch ==> scheme.Gcs? && condition.Some? && condition.value != TokenOf(Gcs, []))
      modifies this
      ensures Valid()
      ensures outcome.WriteFailed? <==> fault
      ensures outcome.Written? <==> !fault && (if condition.Some? then condition.value == TokenOf(scheme, old(log)) else old(log) == [])
      ensures !outcome.Written? ==> log == old(log)
      ensures outcome.Written? ==>
        && |log| == |old(log)| + 1 && log[..|old(log)|] == old(log)
        && log[|old(log)|].metadata == metadata && log[|old(log)|].mine
    {
      if fault { return WriteFailed; }
      if condition.None? && log != [] { return PreconditionFailed; }
      if condition.Some? && condition.value != TokenOf(scheme, log) { return PreconditionFailed; }
      Append(metadata, patch, 0, true);
      return Written;
    }
  }

  // ---- The accessor

  /** What happens around the two calls of an operation, and the clock it reads. */
  datatype Surroundings = Surroundings(
    beforeRead: seq<Change>, readFails: bool,
    beforeWrite: seq<Change>, writeFails: bool,
    now: Millis)
  {
    /** No call fails and nobody writes between the read and the write. */
    predicate Quiet() {
      !readFails && !writeFails && beforeWrite == []
    }
  }

  class ObjectStorageAccessor {
    const file: StoredObject
    const lockedBy: string

    constructor (file: StoredObject, lockedBy: string)
      ensures this.file == file && this.lockedBy == lockedBy
    {
      this.file, this.lockedBy := file, lockedBy;
    }

    /** Since `from`, this client has written exactly `metadata`, and nothing after it. */
    predicate WroteOnce(log: seq<Event>, from: nat, metadata: Record) {
      && from < |log|
      && log[|log| - 1].mine
      && log[|log| - 1].metadata == metadata
      && OnlyOthers(log[..|log| - 1], from)
    }

    /** That write is `row`, a lease step on the record it replaced, and keeps when the lock was taken. */
    predicate SteppedOnce(log: seq<Event>, from: nat, row: Option<Row>) {
      && from < |log|
      && row.Some?
      && Current(log[..|log| - 1]).Some?
      && WroteOnce(log, from, Record(row.value.lockUntil, Current(log[..|log| - 1]).value.lockedAt, row.value.lockedBy))
    }

    function Built(config: LockConfiguration): Record {
      Record(LockAtMostUntil(config), config.createdAt, lockedBy)
    }

    method InsertRecord(config: LockConfiguration, s: Surroundings) returns (r: Result<bool>)
      requires file.Valid()
      modifies file
      ensures file.Valid() && old(file.log) <= file.log
      ensures r == Returned(true) ==>
        && WroteOnce(file.log, |old(file.log)|, Built(config))
        && file.log[..|file.log| - 1] == []
      ensures r != Returned(true) ==> OnlyOthers(file.log, |old(file.log)|)
      ensures r == Returned(false) ==> file.log != []
      ensures r.Thrown? ==> s.readFails || s.writeFails
    {
      file.OthersWrite(s.beforeRead);
      var head := file.Head(s.readFails);
      if head.Thrown? { return Thrown(head.message); }
      if head.value.Some? { return Returned(false); }
      file.OthersWrite(s.beforeWrite);
      var outcome := file.ConditionalWrite(Built(config), false, None, s.writeFails);
      match outcome
      case Written => return Returned(true);
      case PreconditionFailed => return Returned(false);
      case WriteFailed => return Thrown("put failed");
    }

    method UpdateRecord(config: LockConfiguration, s: Surroundings) returns (r: Result<bool>)
      requires file.Valid()
      modifies file
      ensures file.Valid() && old(file.log) <= file.log
      ensures r == Returned(true) ==>
        && WroteOnce(file.log, |old(file.log)|, Built(config))
        && Current(file.log[..|file.log| - 1]).Some?
        && TryAcquire(Ownership(Current(file.log[..|file.log| - 1])), config, lockedBy, s.now) == Ownership(Some(Built(config)))
      ensures r != Returned(true) ==> OnlyOthers(file.log, |old(file.log)|)
      ensures r.Thrown? ==> s.readFails || s.writeFails || file.log == []
      ensures r == Returned(false) && s.Quiet() ==>
        && file.log != []
        && TryAcquire(Ownership(Current(file.log)), config, lockedBy, s.now).None?
    {
      file.OthersWrite(s.beforeRead);
      var head := file.Head(s.readFails);
      if head.Thrown? { return Thrown(head.message); }
      if head.value.None? { return Thrown("Lock record not found"); }
      var (current, token) := head.value.value;
      if current.lockUntil > s.now { return Returned(false); }
      r := Write(Built(config), false, token, s);
    }

    method Unlock(config: LockConfiguration, s: Surroundings) returns (r: Result<bool>)
      requires file.Valid()
      modifies file
      ensures file.Valid() && old(file.log) <= file.log
      ensures r == Returned(true) ==>
        && |file.log| > 0
        && SteppedOnce(file.log, |old(file.log)|,
             TryUnlock(Ownership(Current(file.log[..|file.log| - 1])), config, lockedBy, UnlockTime(config, s.now)))
      ensures r != Returned(true) ==> OnlyOthers(file.log, |old(file.log)|)
      ensures r.Thrown? ==> s.readFails || s.writeFails
      ensures r == Returned(false) && s.Quiet() ==> TryUnlock(Ownership(Current(file.log)), config, lockedBy, 0.0).None?
    {
      file.OthersWrite(s.beforeRead);
      var head := file.Head(s.readFails);
      if head.Thrown? { return Thrown(head.message); }
      if head.value.None? { return Returned(false); }
      var (current, token) := head.value.value;
      if current.lockedBy != lockedBy { return Returned(false); }
      if current.lockUntil != LockAtMostUntil(config) { return Returned(false); }
      r := Write(Record(UnlockTime(config, s.now), current.lockedAt, current.lockedBy), file.scheme.Gcs?, token, s);
    }

    method Extend(config: LockConfiguration, previous: Option<Millis>, s: Surroundings) returns (r: Result<bool>)
      requires file.Valid()
      modifies file
      ensures file.Valid() && old(file.log) <= file.log
      ensures r == Returned(true) ==>
        && |file.log| > 0
        && SteppedOnce(file.log, |old(file.log)|,
             TryExtend(Ownership(Current(file.log[..|file.log| - 1])), config, lockedBy, previous, s.now))
      ensures r != Returned(true) ==> OnlyOthers(file.log, |old(file.log)|)
      ensures r.Thrown? ==> s.readFails || s.writeFails
      ensures r == Returned(false) && s.Quiet() ==> TryExtend(Ownership(Current(file.log)), config, lockedBy, previous, s.now).None?
    {
      file.OthersWrite(s.beforeRead);
      var head := file.Head(s.readFails);
      if head.Thrown? { return Thrown(head.message); }
      if head.value.None? { return Returned(false); }
      var (current, token) := head.value.value;
      if current.lockedBy != lockedBy { return Returned(false); }
      if current.lockUntil <= s.now { return Returned(false); }
      if previous.Some? && current.lockUntil != previous.value { return Returned(false); }
      r := Write(Record(LockAtMostUntil(config), current.lockedAt, current.lockedBy), file.scheme.Gcs?, token, s);
    }

    /** The conditional write that ends each operation, with the interference before it. */
    method Write(metadata: Record, patch: bool, token: Token, s: Surroundings) returns (r: Result<bool>)
      requires file.Valid() && file.log != [] && token == TokenOf(file.scheme, file.log)
      requires patch ==> file.scheme.Gcs?
      modifies file
      ensures file.Valid() && old(file.log) <= file.log
      ensures r == Returned(true) ==>
        && WroteOnce(file.log, |old(file.log)|, metadata)
        && Current(file.log[..|file.log| - 1]) == Current(old(file.log))
      ensures r != Returned(true) ==> OnlyOthers(file.log, |old(file.log)|)
      ensures r.Thrown? <==> s.writeFails
      ensures !s.writeFails && s.beforeWrite == [] ==> r == Returned(true)
    {
      ghost var atRead := file.log;
      NonEmptyToken(atRead);
      file.OthersWrite(s.beforeWrite);
      ghost var atWrite := file.log;
      assert s.beforeWrite == [] ==> atRead == atWrite;
      var outcome := file.ConditionalWrite(metadata, patch, Some(token), s.writeFails);
      match outcome
      case Written =>
        MatchingTokenMeansSameRecord(file.scheme, atRead, atWrite);
        return Returned(true);
      case PreconditionFailed => return Returned(false);
      case WriteFailed => return Thrown("put failed");
    }
  }

  /** An existing object never has the version pair of a missing one. */
  lemma NonEmptyToken(log: seq<Event>)
    requires log != []
    ensures TokenOf(Gcs, log) != TokenOf(Gcs, [])
  {
  }
}

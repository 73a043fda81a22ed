/** The locking task executor: nested tasks, the ambient stacks of lock names and lock objects,
    extensions of the active lock, and exceptions. */
module Executor {
  import opened LockConfigurations

  /** A task, as far as locking is concerned. `Attempt` catches what its body throws. */
  datatype Task =
    | Done
    | Throw
    | ExtendActiveLock
    | Then(first: Task, second: Task)
    | Attempt(body: Task)
    | ExecuteWithLock(name: string, task: Task)

  datatype Completion = Normal | Threw

  /** How the provider answers a lock, extend or unlock call. */
  datatype Answer = Yes | No | Fails

  datatype Event =
    | LockAttempt(name: string)
    | LockAcquired(name: string, lock: nat)
    | LockNotAcquired(name: string)
    | TaskStarted(name: string)
    | TaskFinished(name: string)
    | Extended(previous: nat, next: nat)
    | Unlocked(lock: nat)
    | UnlockError(name: string)

  /** The ambient stacks, innermost first, the answers still to come, and the next lock object. */
  datatype Ambient = Ambient(names: seq<string>, locks: seq<nat>, answers: seq<Answer>, next: nat)

  predicate Distinct<T(==)>(s: seq<T>) {
    forall i, j :: 0 <= i < j < |s| ==> s[i] != s[j]
  }

  ghost predicate Valid(a: Ambient) {
    |a.names| == |a.locks| && Distinct(a.names) && forall l <- a.locks :: l < a.next
  }

  function Ask(a: Ambient): (Answer, Ambient) {
    if a.answers == [] then (Yes, a) else (a.answers[0], a.(answers := a.answers[1..]))
  }

  datatype Outcome = Outcome(ambient: Ambient, events: seq<Event>, completion: Completion)

  /** The meaning of a task: what it leaves in the ambient stacks, what it does, how it ends. Both
      stacks keep their depth and names; only the innermost lock object may have been replaced. */
  ghost function Meaning(task: Task, a: Ambient): (o: Outcome)
    requires Valid(a)
    ensures Valid(o.ambient) && o.ambient.names == a.names && a.next <= o.ambient.next
    ensures a.locks != [] ==> o.ambient.locks[1..] == a.locks[1..]
    decreases task, 0
  {
    match task
    case Done => Outcome(a, [], Normal)
    case Throw => Outcome(a, [], Threw)
    case ExtendActiveLock =>
      if a.locks == [] then Outcome(a, [], Threw)
      else
        var (answer, b) := Ask(a);
        assert forall l <- b.locks[1..] :: l in b.locks;
        if answer.Yes?
        then Outcome(b.(locks := [b.next] + b.locks[1..], next := b.next + 1), [Extended(b.locks[0], b.next)], Normal)
        else Outcome(b, [], Threw)
    case Then(first, second) =>
      var o := Meaning(first, a);
      if o.completion.Threw? then o
      else var p := Meaning(second, o.ambient); p.(events := o.events + p.events)
    case Attempt(body) => Meaning(body, a).(completion := Normal)
    case ExecuteWithLock(name, body) =>
      if name in a.names then
        var o := Meaning(body, a);
        o.(events := [TaskStarted(name)] + o.events + [TaskFinished(name)])
      else
        Locking(name, body, a)
  }

  /** A lock call for a name that is not yet locked here, and what follows from its answer. */
  ghost function Locking(name: string, task: Task, a: Ambient): (o: Outcome)
    requires Valid(a) && name !in a.names
    ensures Valid(o.ambient) && o.ambient.names == a.names && o.ambient.locks == a.locks && a.next <= o.ambient.next
    decreases task, 2, 1
  {
    var (answer, b) := Ask(a);
    match answer
    case Fails => Outcome(b, [LockAttempt(name)], Threw)
    case No => Outcome(b, [LockAttempt(name), LockNotAcquired(name)], Normal)
    case Yes =>
      var o := LockedTask(name, task, b);
      o.(events := [LockAttempt(name)] + o.events)
  }

  /** A lock has been granted: its number is used up, and the task runs under it. */
  ghost function LockedTask(name: string, task: Task, a: Ambient): (o: Outcome)
    requires Valid(a) && name !in a.names
    ensures Valid(o.ambient) && o.ambient.names == a.names && o.ambient.locks == a.locks && a.next <= o.ambient.next
    decreases task, 2, 0
  {
    var o := UnderLock(name, task, a.(next := a.next + 1), a.next);
    o.(events := [LockAcquired(name, a.next)] + o.events)
  }

  /** A task in a scope of its own, and the unlock of whatever lock is active at its end. */
  ghost function UnderLock(name: string, task: Task, a: Ambient, lock: nat): (o: Outcome)
    requires Valid(a) && name !in a.names && lock < a.next
    ensures Valid(o.ambient) && o.ambient.names == a.names && o.ambient.locks == a.locks && a.next <= o.ambient.next
    decreases task, 1
  {
    var inner := Ambient([name] + a.names, [lock] + a.locks, a.answers, a.next);
    assert Distinct(inner.names);
    var o := Meaning(task, inner);
    var (unlocked, after) := Ask(o.ambient);
    Outcome(Ambient(a.names, a.locks, after.answers, after.next),
            [TaskStarted(name)] + o.events + [TaskFinished(name)] + UnlockEvents(name, o.ambient.locks[0], unlocked),
            o.completion)
  }

  function UnlockEvents(name: string, lock: nat, answer: Answer): seq<Event> {
    [Unlocked(lock)] + (if answer.Fails? then [UnlockError(name)] else [])
  }

  lemma Regroup(a: seq<Event>, b: seq<Event>, c: seq<Event>)
    ensures a + b + c == a + (b + c)
  {
  }

  // ---- The executor itself

  /** Runs tasks on one asynchronous context; `names` and `locks` are its ambient stores. */
  class DefaultLockingTaskExecutor {
    var names: seq<string>
    var locks: seq<nat>
    var answers: seq<Answer>
    var next: nat
    var events: seq<Event>

    constructor (answers: seq<Answer>)
      ensures Now() == Ambient([], [], answers, 0) && events == [] && Valid(Now())
    {
      this.answers := answers;
      names, locks, next, events := [], [], 0, [];
    }

    function Now(): Ambient
      reads this
    {
      Ambient(names, locks, answers, next)
    }

    method Provider() returns (answer: Answer)
      modifies this`answers
      ensures (answer, Now()) == Ask(old(Now()))
    {
      if answers == [] { return Yes; }
      answer := answers[0];
      answers := answers[1..];
    }

    method Emit(event: Event)
      modifies this`events
      ensures events == old(events) + [event]
    {
      events := events + [event];
    }

    method Run(task: Task) returns (c: Completion)
      requires Valid(Now())
      modifies this
      ensures Outcome(Now(), events, c) ==
        var o := Meaning(task, old(Now())); o.(events := old(events) + o.events)
      decreases task, 3
    {
      match task
      case Done => c := Normal;
      case Throw => c := Threw;
      case ExtendActiveLock => c := Extend();
      case Then(first, second) =>
        c := Run(first);
        if c.Normal? { c := Run(second); }
      case Attempt(body) =>
        c := Run(body);
        c := Normal;
      case ExecuteWithLock(name, body) => c := Execute(name, body);
    }

    /** Replaces the innermost lock object in place. */
    method Extend() returns (c: Completion)
      requires Valid(Now())
      modifies this
      ensures Outcome(Now(), events, c) ==
        var o := Meaning(ExtendActiveLock, old(Now())); o.(events := old(events) + o.events)
    {
      if |locks| == 0 { return Threw; }
      var answer := Provider();
      if !answer.Yes? { return Threw; }
      Emit(Extended(locks[0], next));
      locks := locks[0 := next];
      next := next + 1;
      return Normal;
    }

    method Execute(name: string, task: Task) returns (c: Completion)
      requires Valid(Now())
      modifies this
      ensures Outcome(Now(), events, c) ==
        var o := Meaning(ExecuteWithLock(name, task), old(Now())); o.(events := old(events) + o.events)
      decreases task, 7
    {
      if name in names {
        c := ExecuteTask(name, task);
        return;
      }
      c := Lock(name, task);
    }

    method Lock(name: string, task: Task) returns (c: Completion)
      requires Valid(Now()) && name !in names
      modifies this
      ensures var o := Locking(name, task, old(Now()));
        Now() == o.ambient && c == o.completion && events == old(events) + o.events
      decreases task, 6
    {
      Emit(LockAttempt(name));
      var answer := Provider();
      match answer
      case Fails => c := Threw;
      case No =>
        Emit(LockNotAcquired(name));
        c := Normal;
        Regroup(old(events), [LockAttempt(name)], [LockNotAcquired(name)]);
      case Yes =>
        ghost var o := LockedTask(name, task, Now());
        c := RunAcquired(name, task);
        Regroup(old(events), [LockAttempt(name)], o.events);
    }

    method RunAcquired(name: string, task: Task) returns (c: Completion)
      requires Valid(Now()) && name !in names
      modifies this
      ensures var o := LockedTask(name, task, old(Now()));
        Now() == o.ambient && c == o.completion && events == old(events) + o.events
      decreases task, 5, 1
    {
      var lock := next;
      next := next + 1;
      Emit(LockAcquired(name, lock));
      assert Now() == old(Now()).(next := old(next) + 1);
      ghost var o := UnderLock(name, task, Now(), lock);
      c := RunUnderLock(name, task, lock);
      Regroup(old(events), [LockAcquired(name, lock)], o.events);
    }

    /** Runs the task in a scope of its own and unlocks whatever lock is active at its end,
        whether it returns or throws. */
    method RunUnderLock(name: string, task: Task, lock: nat) returns (c: Completion)
      requires Valid(Now()) && name !in names && lock < next
      modifies this
      ensures var o := UnderLock(name, task, old(Now()), lock);
        Now() == o.ambient && c == o.completion && events == old(events) + o.events
      decreases task, 5, 0
    {
      var outerNames, outerLocks := names, locks;
      names, locks := [name] + names, [lock] + locks;
      c := ExecuteTask(name, task);
      UnlockActive(name, lock);
      names, locks := outerNames, outerLocks;
    }

    method UnlockActive(name: string, lock: nat)
      modifies this`answers, this`events
      ensures var (unlocked, after) := Ask(old(Now()));
        && Now() == after
        && events == old(events) + UnlockEvents(name, if |locks| > 0 then locks[0] else lock, unlocked)
    {
      var active := if |locks| > 0 then locks[0] else lock;
      Emit(Unlocked(active));
      var answer := Provider();
      if answer.Fails? { Emit(UnlockError(name)); }
    }

    method ExecuteTask(name: string, task: Task) returns (c: Completion)
      requires Valid(Now())
      modifies this
      ensures Outcome(Now(), events, c) ==
        var o := Meaning(task, old(Now()));
        o.(events := old(events) + [TaskStarted(name)] + o.events + [TaskFinished(name)])
      decreases task, 4
    {
      Emit(TaskStarted(name));
      c := Run(task);
      Emit(TaskFinished(name));
    }
  }
}

/** What holds of the events of every task. */
module ExecutorSafety {
  import opened LockConfigurations
  import opened Executor

  /** An open lock: its name, the lock object first acquired, and its last successor. */
  datatype Frame = Frame(name: string, root: nat, current: nat)

  /** Replays events over the open locks, innermost first. Fails unless every extension and every
      unlock concerns the innermost lock's last successor, no name is open twice, and every
      task starts and ends while a lock of its name is open. */
  function Replay(open: seq<Frame>, events: seq<Event>): Option<seq<Frame>>
    decreases |events|
  {
    if events == [] then Some(open)
    else match Apply(open, events[0])
      case None => None
      case Some(after) => Replay(after, events[1..])
  }

  function Names(open: seq<Frame>): seq<string> {
    seq(|open|, i requires 0 <= i < |open| => open[i].name)
  }

  function Currents(open: seq<Frame>): seq<nat> {
    seq(|open|, i requires 0 <= i < |open| => open[i].current)
  }

  function Roots(open: seq<Frame>): seq<nat> {
    seq(|open|, i requires 0 <= i < |open| => open[i].root)
  }

  function Apply(open: seq<Frame>, event: Event): Option<seq<Frame>> {
    match event
    case LockAcquired(name, lock) =>
      if name in Names(open) then None else Some([Frame(name, lock, lock)] + open)
    case Extended(previous, next) =>
      if open != [] && open[0].current == previous then Some([open[0].(current := next)] + open[1..]) else None
    case Unlocked(lock) =>
      if open != [] && open[0].current == lock then Some(open[1..]) else None
    case TaskStarted(name) => if name in Names(open) then Some(open) else None
    case TaskFinished(name) => if name in Names(open) then Some(open) else None
    case _ => Some(open)
  }

  lemma {:induction false} ReplayConcat(open: seq<Frame>, a: seq<Event>, b: seq<Event>)
    ensures Replay(open, a + b) ==
      match Replay(open, a) case None => None case Some(middle) => Replay(middle, b)
    decreases |a|
  {
    if a == [] {
      assert a + b == b;
    } else {
      assert (a + b)[1..] == a[1..] + b;
      if Apply(open, a[0]).Some? { ReplayConcat(Apply(open, a[0]).value, a[1..], b); }
    }
  }

  lemma ReplayPair(open: seq<Frame>, first: Event, second: Event)
    requires Apply(open, first) == Some(open)
    ensures Replay(open, [first]) == Some(open)
    ensures Replay(open, [first, second]) == Apply(open, second)
  {
    assert [first, second][1..] == [second];
    assert [second][1..] == [];
    var after := Apply(open, second);
    assert Replay(open, [second]) == if after.None? then None else Replay(after.value, []);
  }

  /** The open locks are those on the ambient stacks. */
  predicate Mirrors(open: seq<Frame>, a: Ambient) {
    Names(open) == a.names && Currents(open) == a.locks
  }

  /** Whatever the provider answers and wherever a task throws, its events replay, and the locks open
      afterwards are those on the ambient stacks: the same ones, the innermost perhaps extended. */
  lemma {:induction false} EventsAreBracketed(task: Task, a: Ambient, open: seq<Frame>)
    requires Valid(a) && Mirrors(open, a)
    ensures var o := Meaning(task, a);
      && Replay(open, o.events).Some?
      && Mirrors(Replay(open, o.events).value, o.ambient)
      && Roots(Replay(open, o.events).value) == Roots(open)
      && (open != [] ==> Replay(open, o.events).value[1..] == open[1..])
    decreases task, 0
  {
    match task
    case Done =>
    case Throw =>
    case ExtendActiveLock =>
    case Then(first, second) =>
      var o := Meaning(first, a);
      EventsAreBracketed(first, a, open);
      if o.completion.Normal? {
        var middle := Replay(open, o.events).value;
        EventsAreBracketed(second, o.ambient, middle);
        ReplayConcat(open, o.events, Meaning(second, o.ambient).events);
      }
    case Attempt(body) => EventsAreBracketed(body, a, open);
    case ExecuteWithLock(name, body) =>
      if name in a.names {
        EventsAreBracketed(body, a, open);
        Wrapped(open, TaskStarted(name), Meaning(body, a).events, TaskFinished(name));
      } else {
        LockingIsBracketed(name, body, a, open);
      }
  }

  /** A lock call leaves every lock as it was open before. */
  lemma LockingIsBracketed(name: string, task: Task, a: Ambient, open: seq<Frame>)
    requires Valid(a) && Mirrors(open, a) && name !in a.names
    ensures Replay(open, Locking(name, task, a).events) == Some(open)
    decreases task, 2
  {
    var b := Ask(a).1;
    if Ask(a).0.Yes? {
      UnderLockIsBracketed(name, task, b.(next := b.next + 1), b.next, open);
      var o := UnderLock(name, task, b.(next := b.next + 1), b.next);
      var acquired := [LockAcquired(name, b.next)] + o.events;
      ReplayConcat(open, [LockAttempt(name)], acquired);
      ReplayConcat(open, [LockAcquired(name, b.next)], o.events);
      ReplayPair(open, LockAttempt(name), LockAcquired(name, b.next));
    } else {
      ReplayPair(open, LockAttempt(name), LockNotAcquired(name));
    }
  }

  /** Events between the start and the end of a task whose name is open. */
  lemma Wrapped(open: seq<Frame>, before: Event, events: seq<Event>, after: Event)
    requires Apply(open, before) == Some(open) && Replay(open, events).Some?
    requires Apply(Replay(open, events).value, after) == Replay(open, events)
    ensures Replay(open, [before] + events + [after]) == Replay(open, events)
  {
    ReplayConcat(open, [before] + events, [after]);
    ReplayConcat(open, [before], events);
  }

  /** The scope of an acquired lock closes exactly that lock, on its last successor. */
  lemma UnderLockIsBracketed(name: string, task: Task, a: Ambient, lock: nat, open: seq<Frame>)
    requires Valid(a) && Mirrors(open, a) && name !in a.names && lock < a.next
    ensures Replay([Frame(name, lock, lock)] + open, UnderLock(name, task, a, lock).events) == Some(open)
    decreases task, 1
  {
    var inner := Ambient([name] + a.names, [lock] + a.locks, a.answers, a.next);
    var framed := [Frame(name, lock, lock)] + open;
    assert Distinct(inner.names);
    assert Mirrors(framed, inner);
    EventsAreBracketed(task, inner, framed);
    var o := Meaning(task, inner);
    var closing := Replay(framed, o.events).value;
    Wrapped(framed, TaskStarted(name), o.events, TaskFinished(name));
    var body := [TaskStarted(name)] + o.events + [TaskFinished(name)];
    var unlock := UnlockEvents(name, o.ambient.locks[0], Ask(o.ambient).0);
    assert UnderLock(name, task, a, lock).events == body + unlock;
    ReplayConcat(framed, body, unlock);
    assert closing[0].current == o.ambient.locks[0];
    UnlockCloses(closing, name, Ask(o.ambient).0);
  }

  lemma UnlockCloses(closing: seq<Frame>, name: string, answer: Answer)
    requires closing != []
    ensures Replay(closing, UnlockEvents(name, closing[0].current, answer)) == Some(closing[1..])
  {
    var events := UnlockEvents(name, closing[0].current, answer);
    if answer.Fails? {
      assert events[1..] == [UnlockError(name)];
      ReplayPair(closing[1..], UnlockError(name), UnlockError(name));
    } else {
      assert events[1..] == [];
    }
  }

  // ---- What a listener hears

  /** The lock call that has not been answered yet, and the tasks that have started and not finished. */
  datatype Heard = Heard(pending: Option<string>, running: seq<string>)

  /** An answer follows its lock call, and a task finishes when all it has started have. */
  function Hear(h: Heard, event: Event): Option<Heard> {
    match event
    case LockAttempt(name) => Some(h.(pending := Some(name)))
    case LockAcquired(name, _) => if h.pending == Some(name) then Some(h.(pending := None)) else None
    case LockNotAcquired(name) => if h.pending == Some(name) then Some(h.(pending := None)) else None
    case TaskStarted(name) => Some(h.(running := [name] + h.running))
    case TaskFinished(name) => if h.running != [] && h.running[0] == name then Some(h.(running := h.running[1..])) else None
    case _ => Some(h)
  }

  function HearAll(h: Heard, events: seq<Event>): Option<Heard>
    decreases |events|
  {
    if events == [] then Some(h)
    else match Hear(h, events[0])
      case None => None
      case Some(after) => HearAll(after, events[1..])
  }

  lemma {:induction false} HearConcat(h: Heard, a: seq<Event>, b: seq<Event>)
    ensures HearAll(h, a + b) == match HearAll(h, a) case None => None case Some(middle) => HearAll(middle, b)
    decreases |a|
  {
    if a == [] {
      assert a + b == b;
    } else {
      assert (a + b)[1..] == a[1..] + b;
      if Hear(h, a[0]).Some? { HearConcat(Hear(h, a[0]).value, a[1..], b); }
    }
  }

  /** Everything that starts here also finishes here. */
  ghost predicate Closes(h: Heard, events: seq<Event>) {
    HearAll(h, events).Some? && HearAll(h, events).value.running == h.running
  }

  lemma ClosesConcat(h: Heard, a: seq<Event>, b: seq<Event>)
    requires Closes(h, a) && Closes(HearAll(h, a).value, b)
    ensures Closes(h, a + b)
  {
    HearConcat(h, a, b);
  }

  lemma TaskCloses(h: Heard, name: string, events: seq<Event>)
    requires Closes(h.(running := [name] + h.running), events)
    ensures Closes(h, [TaskStarted(name)] + events + [TaskFinished(name)])
  {
    var inner := h.(running := [name] + h.running);
    HearConcat(h, [TaskStarted(name)], events);
    HearConcat(h, [TaskStarted(name)] + events, [TaskFinished(name)]);
    OneHeard(h, TaskStarted(name));
    OneHeard(HearAll(inner, events).value, TaskFinished(name));
    assert ([name] + h.running)[1..] == h.running;
  }

  lemma OneHeard(h: Heard, event: Event)
    ensures HearAll(h, [event]) == Hear(h, event)
  {
    assert [event][1..] == [];
    if Hear(h, event).Some? { assert HearAll(Hear(h, event).value, []) == Hear(h, event); }
  }

  lemma UnlockIsHeard(h: Heard, name: string, lock: nat, answer: Answer)
    ensures Closes(h, UnlockEvents(name, lock, answer))
  {
    OneHeard(h, Unlocked(lock));
    OneHeard(h, UnlockError(name));
    HearConcat(h, [Unlocked(lock)], [UnlockError(name)]);
    assert [Unlocked(lock)] + [] == [Unlocked(lock)];
  }

  /** In every program, whatever throws and whatever is refused: every answer follows its own lock
      call, every task that starts finishes, and they nest. */
  lemma {:induction false} ListenerHearsNestedTasks(task: Task, a: Ambient, h: Heard)
    requires Valid(a)
    ensures Closes(h, Meaning(task, a).events)
    decreases task, 0
  {
    match task
    case Done =>
    case Throw =>
    case ExtendActiveLock =>
      if a.locks != [] && Ask(a).0.Yes? { OneHeard(h, Meaning(task, a).events[0]); }
    case Then(first, second) =>
      var o := Meaning(first, a);
      ListenerHearsNestedTasks(first, a, h);
      if o.completion.Normal? {
        ListenerHearsNestedTasks(second, o.ambient, HearAll(h, o.events).value);
        ClosesConcat(h, o.events, Meaning(second, o.ambient).events);
      }
    case Attempt(body) => ListenerHearsNestedTasks(body, a, h);
    case ExecuteWithLock(name, body) =>
      if name in a.names {
        ListenerHearsNestedTasks(body, a, h.(running := [name] + h.running));
        TaskCloses(h, name, Meaning(body, a).events);
      } else {
        LockingCloses(name, body, a, h);
      }
  }

  lemma LockingCloses(name: string, task: Task, a: Ambient, h: Heard)
    requires Valid(a) && name !in a.names
    ensures Closes(h, Locking(name, task, a).events)
    decreases task, 2
  {
    var (answer, b) := Ask(a);
    var asked := h.(pending := Some(name));
    OneHeard(h, LockAttempt(name));
    match answer
    case Fails =>
    case No =>
      OneHeard(asked, LockNotAcquired(name));
      ClosesConcat(h, [LockAttempt(name)], [LockNotAcquired(name)]);
      assert [LockAttempt(name)] + [LockNotAcquired(name)] == [LockAttempt(name), LockNotAcquired(name)];
    case Yes =>
      var events := UnderLock(name, task, b.(next := b.next + 1), b.next).events;
      OneHeard(asked, LockAcquired(name, b.next));
      ScopeCloses(name, task, b.(next := b.next + 1), b.next, h.(pending := None));
      ClosesConcat(asked, [LockAcquired(name, b.next)], events);
      ClosesConcat(h, [LockAttempt(name)], [LockAcquired(name, b.next)] + events);
  }

  lemma ScopeCloses(name: string, task: Task, a: Ambient, lock: nat, h: Heard)
    requires Valid(a) && name !in a.names && lock < a.next
    ensures Closes(h, UnderLock(name, task, a, lock).events)
    decreases task, 1
  {
    var inner := Ambient([name] + a.names, [lock] + a.locks, a.answers, a.next);
    assert Distinct(inner.names);
    var o := Meaning(task, inner);
    ListenerHearsNestedTasks(task, inner, h.(running := [name] + h.running));
    TaskCloses(h, name, o.events);
    var body := [TaskStarted(name)] + o.events + [TaskFinished(name)];
    UnlockIsHeard(HearAll(h, body).value, name, o.ambient.locks[0], Ask(o.ambient).0);
    ClosesConcat(h, body, UnlockEvents(name, o.ambient.locks[0], Ask(o.ambient).0));
  }

  // ---- How a program ends, and what it runs

  /** What a program does where every lock is granted: how it ends, and the tasks it starts. */
  function Unhindered(task: Task): (Completion, seq<string>) {
    match task
    case Done => (Normal, [])
    case Throw => (Threw, [])
    case ExtendActiveLock => (Normal, [])
    case Then(first, second) =>
      var (c, started) := Unhindered(first);
      if c.Threw? then (c, started)
      else var (d, more) := Unhindered(second); (d, started + more)
    case Attempt(body) => (Normal, Unhindered(body).1)
    case ExecuteWithLock(name, body) => (Unhindered(body).0, [name] + Unhindered(body).1)
  }

  /** Every extension runs under some lock. */
  predicate ExtensionsHaveLock(task: Task, locked: bool) {
    match task
    case ExtendActiveLock => locked
    case Then(first, second) => ExtensionsHaveLock(first, locked) && ExtensionsHaveLock(second, locked)
    case Attempt(body) => ExtensionsHaveLock(body, locked)
    case ExecuteWithLock(_, body) => ExtensionsHaveLock(body, true)
    case _ => true
  }

  function Started(events: seq<Event>): seq<string> {
    if events == [] then []
    else (if events[0].TaskStarted? then [events[0].name] else []) + Started(events[1..])
  }

  lemma {:induction false} StartedConcat(a: seq<Event>, b: seq<Event>)
    ensures Started(a + b) == Started(a) + Started(b)
    decreases |a|
  {
    if a == [] {
      assert a + b == b;
    } else {
      assert (a + b)[1..] == a[1..] + b;
      StartedConcat(a[1..], b);
    }
  }

  lemma {:induction false} NoneStarted(events: seq<Event>)
    requires forall e <- events :: !e.TaskStarted?
    ensures Started(events) == []
    decreases |events|
  {
    if events != [] { NoneStarted(events[1..]); }
  }

  /** A task's own start, its events, and whatever follows without starting another. */
  lemma StartedWithin(name: string, events: seq<Event>, after: seq<Event>)
    requires forall e <- after :: !e.TaskStarted?
    ensures Started([TaskStarted(name)] + events + after) == [name] + Started(events)
  {
    NoneStarted(after);
    StartedConcat([TaskStarted(name)] + events, after);
    assert ([TaskStarted(name)] + events)[1..] == events;
    assert [name] + Started(events) + [] == [name] + Started(events);
  }

  ghost predicate AllYes(a: Ambient) {
    forall x <- a.answers :: x.Yes?
  }

  lemma AskYes(a: Ambient)
    requires AllYes(a)
    ensures Ask(a).0.Yes? && AllYes(Ask(a).1)
  {
  }

  /** Where every call is answered with yes, locking is invisible: a program ends as it would
      without locks and starts the same tasks in the same order. */
  lemma {:induction false} LockingIsInvisible(task: Task, a: Ambient)
    requires Valid(a) && AllYes(a) && ExtensionsHaveLock(task, a.locks != [])
    ensures var o := Meaning(task, a);
      o.completion == Unhindered(task).0 && Started(o.events) == Unhindered(task).1 && AllYes(o.ambient)
    decreases task, 0
  {
    match task
    case Done =>
    case Throw =>
    case ExtendActiveLock => AskYes(a);
    case Then(first, second) =>
      LockingIsInvisible(first, a);
      var o := Meaning(first, a);
      if o.completion.Normal? {
        assert a.locks != [] ==> o.ambient.locks != [];
        LockingIsInvisible(second, o.ambient);
        StartedConcat(o.events, Meaning(second, o.ambient).events);
      }
    case Attempt(body) => LockingIsInvisible(body, a);
    case ExecuteWithLock(name, body) =>
      if name in a.names {
        LockingIsInvisible(body, a);
        StartedWithin(name, Meaning(body, a).events, [TaskFinished(name)]);
      } else {
        GrantedTaskIsInvisible(name, body, a);
      }
  }

  lemma GrantedTaskIsInvisible(name: string, task: Task, a: Ambient)
    requires Valid(a) && AllYes(a) && name !in a.names && ExtensionsHaveLock(task, true)
    ensures var o := Locking(name, task, a);
      o.completion == Unhindered(task).0 && Started(o.events) == [name] + Unhindered(task).1 && AllYes(o.ambient)
    decreases task, 2
  {
    AskYes(a);
    LockedTaskIsInvisible(name, task, Ask(a).1);
    NothingStartsBefore(LockAttempt(name), LockedTask(name, task, Ask(a).1).events);
  }

  lemma LockedTaskIsInvisible(name: string, task: Task, a: Ambient)
    requires Valid(a) && AllYes(a) && name !in a.names && ExtensionsHaveLock(task, true)
    ensures var o := LockedTask(name, task, a);
      o.completion == Unhindered(task).0 && Started(o.events) == [name] + Unhindered(task).1 && AllYes(o.ambient)
    decreases task, 1, 1
  {
    var granted := a.(next := a.next + 1);
    ScopedTaskIsInvisible(name, task, granted, a.next);
    NothingStartsBefore(LockAcquired(name, a.next), UnderLock(name, task, granted, a.next).events);
  }

  lemma NothingStartsBefore(first: Event, events: seq<Event>)
    requires !first.TaskStarted?
    ensures Started([first] + events) == Started(events)
  {
    assert ([first] + events)[1..] == events;
  }

  lemma ScopedTaskIsInvisible(name: string, task: Task, a: Ambient, lock: nat)
    requires Valid(a) && AllYes(a) && name !in a.names && lock < a.next && ExtensionsHaveLock(task, true)
    ensures var o := UnderLock(name, task, a, lock);
      o.completion == Unhindered(task).0 && Started(o.events) == [name] + Unhindered(task).1 && AllYes(o.ambient)
    decreases task, 1, 0
  {
    var inner := Ambient([name] + a.names, [lock] + a.locks, a.answers, a.next);
    assert Distinct(inner.names);
    LockingIsInvisible(task, inner);
    var o := Meaning(task, inner);
    AskYes(o.ambient);
    ScopeStarts(name, task, a, lock);
  }

  /** A scope starts its own task, and then what that starts. */
  lemma ScopeStarts(name: string, task: Task, a: Ambient, lock: nat)
    requires Valid(a) && name !in a.names && lock < a.next
    ensures var inner := Ambient([name] + a.names, [lock] + a.locks, a.answers, a.next);
      Valid(inner) && Started(UnderLock(name, task, a, lock).events) == [name] + Started(Meaning(task, inner).events)
  {
    var inner := Ambient([name] + a.names, [lock] + a.locks, a.answers, a.next);
    assert Distinct(inner.names);
    var o := Meaning(task, inner);
    var last := [TaskFinished(name)] + UnlockEvents(name, o.ambient.locks[0], Ask(o.ambient).0);
    assert UnderLock(name, task, a, lock).events == [TaskStarted(name)] + o.events + last;
    StartedWithin(name, o.events, last);
  }

  /** However the unlock is answered, a granted task ends as it does in its scope. */
  lemma UnlockNeverChangesTheEnd(name: string, task: Task, a: Ambient)
    requires Valid(a) && name !in a.names && Ask(a).0.Yes?
    ensures var b := Ask(a).1;
      var inner := Ambient([name] + b.names, [b.next] + b.locks, b.answers, b.next + 1);
      && Valid(inner)
      && Meaning(ExecuteWithLock(name, task), a).completion == Meaning(task, inner).completion
  {
    var b := Ask(a).1;
    assert Distinct([name] + b.names);
    assert Meaning(ExecuteWithLock(name, task), a) == Locking(name, task, a);
    assert Locking(name, task, a).completion == LockedTask(name, task, b).completion;
    assert LockedTask(name, task, b).completion == UnderLock(name, task, b.(next := b.next + 1), b.next).completion;
  }

  /** A scope ends with the unlock of the active lock, and with an error report exactly if that fails. */
  lemma UnlockErrorIsReported(name: string, task: Task, a: Ambient, lock: nat)
    requires Valid(a) && name !in a.names && lock < a.next
    ensures var inner := Ambient([name] + a.names, [lock] + a.locks, a.answers, a.next);
      Valid(inner) &&
      var o, events := Meaning(task, inner), UnderLock(name, task, a, lock).events;
      var unlocked := Ask(o.ambient).0;
      if unlocked.Fails? then |events| >= 2 && events[|events| - 2..] == [Unlocked(o.ambient.locks[0]), UnlockError(name)]
      else |events| >= 1 && events[|events| - 1] == Unlocked(o.ambient.locks[0])
  {
    var inner := Ambient([name] + a.names, [lock] + a.locks, a.answers, a.next);
    assert Distinct(inner.names);
  }

  /** A refused lock call ends normally and a failing one throws, and neither runs the task. */
  lemma RefusedLockSkipsTask(name: string, task: Task, a: Ambient)
    requires Valid(a) && name !in a.names && !Ask(a).0.Yes?
    ensures var o := Meaning(ExecuteWithLock(name, task), a);
      && o.completion == (if Ask(a).0.No? then Normal else Threw)
      && Started(o.events) == [] && o.ambient == Ask(a).1
      && o.events == (if Ask(a).0.No? then [LockAttempt(name), LockNotAcquired(name)] else [LockAttempt(name)])
  {
    assert Meaning(ExecuteWithLock(name, task), a) == Locking(name, task, a);
    NoneStarted([LockAttempt(name)]);
    NoneStarted([LockAttempt(name), LockNotAcquired(name)]);
  }

  /** Extending without an active lock throws, and so does a refused or failing extension, which
      leaves the active lock in place; a granted one puts a new lock object there. */
  lemma ExtensionReplacesOrThrows(a: Ambient)
    requires Valid(a)
    ensures var o := Meaning(ExtendActiveLock, a);
      && (o.completion.Normal? <==> a.locks != [] && Ask(a).0.Yes?)
      && (o.completion.Normal? ==> o.ambient.locks == a.locks[0 := a.next] && o.events == [Extended(a.locks[0], a.next)])
      && (o.completion.Threw? ==> o.ambient.locks == a.locks && o.events == [])
  {
  }

  // ---- Counting acquires and unlocks

  /** The lock objects acquired, in order. */
  function Acquired(events: seq<Event>): seq<nat> {
    if events == [] then [] else AcquiredBy(events[0]) + Acquired(events[1..])
  }

  function AcquiredBy(event: Event): seq<nat> {
    if event.LockAcquired? then [event.lock] else []
  }

  /** For each unlock, the lock object that its chain of extensions goes back to. */
  function Released(open: seq<Frame>, events: seq<Event>): seq<nat>
    requires Replay(open, events).Some?
    decreases |events|
  {
    if events == [] then [] else ReleasedBy(open, events[0]) + Released(Apply(open, events[0]).value, events[1..])
  }

  function ReleasedBy(open: seq<Frame>, event: Event): seq<nat>
    requires Apply(open, event).Some?
  {
    if event.Unlocked? then [open[0].root] else []
  }

  lemma OneEventBalances(open: seq<Frame>, event: Event)
    requires Apply(open, event).Some?
    ensures multiset(Roots(open)) + multiset(AcquiredBy(event)) ==
            multiset(ReleasedBy(open, event)) + multiset(Roots(Apply(open, event).value))
  {
    var after := Apply(open, event).value;
    match event
    case LockAcquired(name, lock) => assert Roots(after) == [lock] + Roots(open);
    case Extended(_, _) => assert Roots(after) == Roots(open);
    case Unlocked(_) => assert Roots(open) == [open[0].root] + Roots(after);
    case _ =>
  }

  lemma {:induction false} ChainsBalance(open: seq<Frame>, events: seq<Event>)
    requires Replay(open, events).Some?
    ensures multiset(Roots(open)) + multiset(Acquired(events)) ==
            multiset(Released(open, events)) + multiset(Roots(Replay(open, events).value))
    decreases |events|
  {
    if events != [] {
      var after := Apply(open, events[0]).value;
      var rest := events[1..];
      OneEventBalances(open, events[0]);
      ChainsBalance(after, rest);
      var a, b := multiset(AcquiredBy(events[0])), multiset(Acquired(rest));
      var c, d := multiset(ReleasedBy(open, events[0])), multiset(Released(after, rest));
      assert multiset(Acquired(events)) == a + b;
      assert multiset(Released(open, events)) == c + d;
      Chained(multiset(Roots(open)), a, b, c, d, multiset(Roots(after)), multiset(Roots(Replay(after, rest).value)));
    } else {
      assert Replay(open, events) == Some(open);
    }
  }

  lemma Chained(open: multiset<nat>, a: multiset<nat>, b: multiset<nat>, c: multiset<nat>, d: multiset<nat>,
                after: multiset<nat>, end: multiset<nat>)
    requires open + a == c + after && after + b == d + end
    ensures open + (a + b) == (c + d) + end
  {
    assert open + (a + b) == (open + a) + b == c + (after + b) == (c + d) + end;
  }

  /** Strictly increasing numbers from `low` to below `high`. */
  predicate Between(ids: seq<nat>, low: nat, high: nat) {
    && (forall i :: 0 <= i < |ids| ==> low <= ids[i] < high)
    && (forall i, j :: 0 <= i < j < |ids| ==> ids[i] < ids[j])
  }

  lemma BetweenConcat(a: seq<nat>, b: seq<nat>, low: nat, middle: nat, high: nat)
    requires low <= middle <= high && Between(a, low, middle) && Between(b, middle, high)
    ensures Between(a + b, low, high)
  {
  }

  lemma {:induction false} AcquiredConcat(a: seq<Event>, b: seq<Event>)
    ensures Acquired(a + b) == Acquired(a) + Acquired(b)
    decreases |a|
  {
    if a == [] {
      assert a + b == b;
    } else {
      assert (a + b)[1..] == a[1..] + b;
      AcquiredConcat(a[1..], b);
    }
  }

  /** Surrounding events that acquire nothing do not count. */
  lemma AcquiredInside(before: Event, events: seq<Event>, after: seq<Event>)
    requires forall e <- after :: !e.LockAcquired?
    ensures Acquired([before] + events + after) == AcquiredBy(before) + Acquired(events)
  {
    NoneAcquired(after);
    AcquiredConcat([before] + events, after);
    assert ([before] + events)[1..] == events;
  }

  lemma AcquiredAfter(first: Event, events: seq<Event>)
    ensures Acquired([first] + events) == AcquiredBy(first) + Acquired(events)
  {
    assert ([first] + events)[1..] == events;
  }

  lemma {:induction false} NoneAcquired(events: seq<Event>)
    requires forall e <- events :: !e.LockAcquired?
    ensures Acquired(events) == []
    decreases |events|
  {
    if events != [] { NoneAcquired(events[1..]); }
  }

  lemma AcquiredInTurn(o: Outcome, p: Outcome, low: nat)
    requires low <= o.ambient.next <= p.ambient.next
    requires Between(Acquired(o.events), low, o.ambient.next) && Between(Acquired(p.events), o.ambient.next, p.ambient.next)
    ensures Between(Acquired(o.events + p.events), low, p.ambient.next)
  {
    AcquiredConcat(o.events, p.events);
    BetweenConcat(Acquired(o.events), Acquired(p.events), low, o.ambient.next, p.ambient.next);
  }

  /** Every acquire yields a lock object of its own. */
  lemma {:induction false} AcquiredAreNew(task: Task, a: Ambient)
    requires Valid(a)
    ensures Between(Acquired(Meaning(task, a).events), a.next, Meaning(task, a).ambient.next)
    decreases task, 0
  {
    match task
    case Done =>
    case Throw =>
    case ExtendActiveLock =>
    case Then(first, second) =>
      var o := Meaning(first, a);
      AcquiredAreNew(first, a);
      if o.completion.Normal? {
        AcquiredAreNew(second, o.ambient);
        AcquiredInTurn(o, Meaning(second, o.ambient), a.next);
      }
    case Attempt(body) => AcquiredAreNew(body, a);
    case ExecuteWithLock(name, body) =>
      if name in a.names {
        AcquiredAreNew(body, a);
        AcquiredInside(TaskStarted(name), Meaning(body, a).events, [TaskFinished(name)]);
      } else {
        AcquiredByLockingAreNew(name, body, a);
      }
  }

  lemma AcquiredByLockingAreNew(name: string, task: Task, a: Ambient)
    requires Valid(a) && name !in a.names
    ensures var o := Locking(name, task, a); Between(Acquired(o.events), a.next, o.ambient.next)
    decreases task, 2
  {
    var b := Ask(a).1;
    if Ask(a).0.Yes? {
      AcquiredByLockedTaskAreNew(name, task, b);
      AcquiredAfter(LockAttempt(name), LockedTask(name, task, b).events);
    } else {
      NoneAcquired(Locking(name, task, a).events);
    }
  }

  lemma AcquiredByLockedTaskAreNew(name: string, task: Task, a: Ambient)
    requires Valid(a) && name !in a.names
    ensures var o := LockedTask(name, task, a); Between(Acquired(o.events), a.next, o.ambient.next)
    decreases task, 1, 1
  {
    var granted := a.(next := a.next + 1);
    AcquiredUnderLockAreNew(name, task, granted, a.next);
    AcquiredAfter(LockAcquired(name, a.next), UnderLock(name, task, granted, a.next).events);
  }

  lemma AcquiredUnderLockAreNew(name: string, task: Task, a: Ambient, lock: nat)
    requires Valid(a) && name !in a.names && lock < a.next
    ensures var o := UnderLock(name, task, a, lock); Between(Acquired(o.events), a.next, o.ambient.next)
    decreases task, 1, 0
  {
    var inner := Ambient([name] + a.names, [lock] + a.locks, a.answers, a.next);
    assert Distinct(inner.names);
    AcquiredAreNew(task, inner);
    var o := Meaning(task, inner);
    var last := [TaskFinished(name)] + UnlockEvents(name, o.ambient.locks[0], Ask(o.ambient).0);
    assert UnderLock(name, task, a, lock).events == [TaskStarted(name)] + o.events + last;
    AcquiredInside(TaskStarted(name), o.events, last);
  }

  /** Whatever a program does, and whether it ends normally or throws: the ambient stacks end
      empty again, and each acquired lock is unlocked exactly once, on its last successor. */
  lemma EachLockIsUnlockedOnce(task: Task, answers: seq<Answer>)
    ensures var o := Meaning(task, Ambient([], [], answers, 0));
      && o.ambient.names == [] && o.ambient.locks == []
      && Replay([], o.events) == Some([])
      && Distinct(Acquired(o.events))
      && multiset(Released([], o.events)) == multiset(Acquired(o.events))
  {
    var a := Ambient([], [], answers, 0);
    var o := Meaning(task, a);
    AcquiredAreNew(task, a);
    TopLevelIsBracketed(task, a);
    var none: seq<Frame> := [];
    ChainsBalance(none, o.events);
    assert Roots(none) == [];
    assert multiset(Roots(none)) == multiset{};
    assert multiset(Released(none, o.events)) + multiset{} == multiset(Released(none, o.events));
  }

  lemma TopLevelIsBracketed(task: Task, a: Ambient)
    requires Valid(a) && a.names == []
    ensures Replay([], Meaning(task, a).events) == Some([])
    ensures Meaning(task, a).ambient.locks == []
  {
    EventsAreBracketed(task, a, []);
    assert |Currents(Replay([], Meaning(task, a).events).value)| == 0;
  }
}

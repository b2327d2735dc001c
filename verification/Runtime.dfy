/**
 The async runtime as a state machine: the executor's loop, the keyboard stream's `poll_next`, the
 sleep logic, and interrupts that may arrive between any two steps while they are enabled.
 */
module Runtime {
  import opened Common

  type TaskId = nat
  type Scancode = nat

  const QUEUE_CAPACITY := 100

  /** The next step of the processor. */
  datatype Pc =
    | Boot            // tasks are being spawned
    | Pop             // run_ready_tasks: before popping the task queue
    | PollOther(id: TaskId)
    | First           // poll_next: before the first pop of the scancode queue
    | Register        // poll_next: before WAKER.register
    | Second          // poll_next: before the second pop
    | Take            // poll_next: before WAKER.take
    | Return          // poll_next has returned Pending
    | Sleep           // sleep_if_idle: before disabling interrupts
    | Check           // sleep_if_idle: interrupts are off, before testing the queue
    | Halted

  datatype State = State(
    pc: Pc,
    tasks: set<TaskId>,          // executor.tasks
    queue: seq<TaskId>,          // executor.task_queue
    cache: set<TaskId>,          // keys of executor.waker_cache
    nextId: TaskId,              // TaskId::NEXT_ID
    stream: Option<TaskId>,      // the task that reads the keyboard, once spawned
    started: bool,               // SCANCODE_QUEUE is initialised
    scancodes: seq<Scancode>,    // SCANCODE_QUEUE
    waker: Option<TaskId>,       // WAKER
    interrupts: bool,            // interrupts are enabled
    panicked: bool,              // the task queue overflowed
    accepted: seq<Scancode>,     // history: scancodes pushed by the interrupt handler
    delivered: seq<Scancode>,    // history: scancodes returned by poll_next
    completed: set<TaskId>,      // history: tasks whose poll returned Ready
    polls: seq<TaskId>,          // history: tasks polled, in order
    pushed: seq<TaskId>,         // history: ids pushed to the task queue
    popped: seq<TaskId>)         // history: ids popped from it

  const INIT := State(Boot, {}, [], {}, 0, None, false, [], None, true, false, [], [], {}, [], [], [])

  datatype Action =
    | Spawn(isStream: bool)
    | Start
    | PopTask
    | OtherReturns(ready: bool)
    | PollNext
    | Idle
    | KeyboardInterrupt(code: Scancode)
    | OtherInterrupt(woken: Option<TaskId>)

  predicate InStream(pc: Pc) {
    pc.First? || pc.Register? || pc.Second? || pc.Take? || pc.Return?
  }

  predicate Enabled(s: State, a: Action) {
    !s.panicked &&
    match a
    case Spawn(isStream) => s.pc.Boot? && (isStream ==> s.stream.None?)
    case Start => s.pc.Boot?
    case PopTask => s.pc.Pop?
    case OtherReturns(_) => s.pc.PollOther?
    case PollNext => InStream(s.pc)
    case Idle => s.pc.Sleep? || s.pc.Check?
    case KeyboardInterrupt(_) => s.interrupts
    case OtherInterrupt(_) => s.interrupts
  }

  /** `task_queue.push(..).expect(..)`. */
  function Push(s: State, id: TaskId): State {
    if |s.queue| < QUEUE_CAPACITY then s.(queue := s.queue + [id], pushed := s.pushed + [id]) else s.(panicked := true)
  }

  /** Taking the registered waker, if any, and waking its task. */
  function Wake(s: State): State {
    if s.waker.Some? then Push(s.(waker := None), s.waker.value) else s
  }

  /** An interrupt that arrives while the processor is halted lets it continue behind `hlt`. */
  function Resume(s: State): State {
    if s.pc.Halted? then s.(pc := Pop) else s
  }

  function SpawnTask(s: State, isStream: bool): State {
    var id := s.nextId;
    Push(s.(tasks := s.tasks + {id}, nextId := id + 1, stream := if isStream then Some(id) else s.stream), id)
  }

  function PopStep(s: State): State {
    if s.queue == [] then s.(pc := Sleep)
    else
      var id := s.queue[0];
      var s1 := s.(queue := s.queue[1..], popped := s.popped + [id]);
      if id !in s.tasks then s1
      else
        var s2 := s1.(cache := s.cache + {id}, polls := s.polls + [id]);
        if s.stream == Some(id) then s2.(pc := First, started := true) else s2.(pc := PollOther(id))
  }

  function Deliver(s: State, next: Pc): State
    requires s.scancodes != []
  {
    s.(pc := next, scancodes := s.scancodes[1..], delivered := s.delivered + [s.scancodes[0]])
  }

  /** One step of the stream task: `poll_next` in a loop until it returns Pending. */
  function StreamStep(s: State): State {
    match s.pc
    case First => if s.scancodes != [] then Deliver(s, First) else s.(pc := Register)
    case Register => s.(pc := Second, waker := s.stream)
    case Second => if s.scancodes != [] then Deliver(s, Take) else s.(pc := Return)
    case Take => s.(pc := First, waker := None)
    case _ => s.(pc := Pop)
  }

  function IdleStep(s: State): State {
    if s.pc.Sleep? then s.(pc := Check, interrupts := false)
    else if s.queue == [] then s.(pc := Halted, interrupts := true)
    else s.(pc := Pop, interrupts := true)
  }

  /** `add_scancode`, called from the keyboard interrupt handler. */
  function AddScancode(s: State, code: Scancode): State {
    if !s.started || |s.scancodes| >= QUEUE_CAPACITY then s
    else Wake(s.(scancodes := s.scancodes + [code], accepted := s.accepted + [code]))
  }

  function Apply(s: State, a: Action): State {
    match a
    case Spawn(isStream) => SpawnTask(s, isStream)
    case Start => s.(pc := Pop)
    case PopTask => PopStep(s)
    case OtherReturns(ready) =>
      if s.pc.PollOther? && ready
      then s.(pc := Pop, tasks := s.tasks - {s.pc.id}, cache := s.cache - {s.pc.id},
              completed := s.completed + {s.pc.id})
      else s.(pc := Pop)
    case PollNext => StreamStep(s)
    case Idle => IdleStep(s)
    case KeyboardInterrupt(code) => Resume(AddScancode(s, code))
    case OtherInterrupt(woken) => Resume(if woken.Some? then Push(s, woken.value) else s)
  }

  /** The state after a sequence of actions from boot. */
  function After(run: seq<Action>): State {
    if run == [] then INIT else Apply(After(run[..|run| - 1]), run[|run| - 1])
  }

  /** Every action of the run is possible where it happens. */
  predicate IsRun(run: seq<Action>) {
    run == [] || (IsRun(run[..|run| - 1]) && Enabled(After(run[..|run| - 1]), run[|run| - 1]))
  }

  // ---------- The invariant ----------

  /** Scancodes come out once each, in the order they went in. */
  predicate Fifo(s: State) { s.accepted == s.delivered + s.scancodes }

  /** The executor's tables agree: cached wakers and queued polls only concern known, unfinished tasks. */
  predicate Tables(s: State) {
    && s.cache <= s.tasks && s.tasks !! s.completed
    && (forall id :: id in s.tasks ==> id < s.nextId)
    && (forall id :: id in s.completed ==> id < s.nextId)
    && (s.pc.PollOther? ==> s.pc.id in s.tasks && s.stream != Some(s.pc.id))
    && (s.stream.Some? ==> s.stream.value in s.tasks)
  }

  /** Either the stream task will be polled again, or a waker for it is registered and nothing is waiting. */
  predicate WillWake(s: State)
    requires s.stream.Some?
  {
    s.stream.value in s.queue || (s.started && s.waker == s.stream && s.scancodes == [])
  }

  predicate Inv(s: State) {
    && Fifo(s) && Tables(s)
    && (s.interrupts <==> !s.pc.Check?)
    && (s.waker.Some? ==> s.waker == s.stream)
    && (!s.started ==> s.scancodes == [] && s.waker.None?)
    && (InStream(s.pc) ==> s.stream.Some? && s.started)
    && (s.pc.Boot? ==> !s.started)
    && (s.pc.Halted? ==> s.queue == [])
    && (s.pc.Second? ==> s.waker == s.stream || s.stream.value in s.queue)
    && (s.stream.Some? && (!InStream(s.pc) || s.pc.Return?) ==> WillWake(s))
  }

  lemma PushedIn(s: State, id: TaskId)
    ensures var s' := Push(s, id);
            !s'.panicked ==> id in s'.queue && forall x :: x in s.queue ==> x in s'.queue
  {
  }

  lemma PopKeeps(s: State)
    requires Inv(s) && s.pc.Pop?
    ensures Inv(PopStep(s))
  {
    if s.queue != [] {
      var id := s.queue[0];
      if id in s.tasks {
        PolledKeeps(s, id);
      } else {
        SkippedKeeps(s, id);
      }
    }
  }

  /** An id of no live task is dropped. */
  lemma SkippedKeeps(s: State, id: TaskId)
    requires Inv(s) && s.pc.Pop? && s.queue != [] && id == s.queue[0] && id !in s.tasks
    ensures Inv(PopStep(s))
  {
    assert s.queue == [id] + s.queue[1..];
  }

  /** A live task is polled. */
  lemma PolledKeeps(s: State, id: TaskId)
    requires Inv(s) && s.pc.Pop? && s.queue != [] && id == s.queue[0] && id in s.tasks
    ensures Inv(PopStep(s))
  {
    assert s.queue == [id] + s.queue[1..];
  }

  lemma StreamKeeps(s: State)
    requires Inv(s) && InStream(s.pc)
    ensures Inv(StreamStep(s))
  {
    if s.scancodes != [] {
      assert s.delivered + [s.scancodes[0]] + s.scancodes[1..] == s.delivered + s.scancodes;
    }
  }

  lemma KeyboardKeeps(s: State, code: Scancode)
    requires Inv(s) && s.interrupts
    ensures var s' := Resume(AddScancode(s, code)); s'.panicked || Inv(s')
  {
    assert s.delivered + s.scancodes + [code] == s.delivered + (s.scancodes + [code]);
    if s.waker.Some? {
      PushedIn(s.(waker := None, scancodes := s.scancodes + [code], accepted := s.accepted + [code]), s.waker.value);
    }
  }

  lemma ActionKeeps(s: State, a: Action)
    requires Inv(s) && Enabled(s, a)
    ensures Apply(s, a).panicked || Inv(Apply(s, a))
  {
    match a
    case Spawn(isStream) =>
      PushedIn(s, s.nextId);
    case PopTask => PopKeeps(s);
    case PollNext => StreamKeeps(s);
    case KeyboardInterrupt(code) => KeyboardKeeps(s, code);
    case OtherInterrupt(woken) =>
      if woken.Some? {
        PushedIn(s, woken.value);
      }
    case Start =>
    case OtherReturns(_) =>
    case Idle =>
  }

  /** The invariant holds in every state of every run, up to a panic on a full task queue. */
  lemma {:induction false} RunKeeps(run: seq<Action>)
    requires IsRun(run)
    ensures After(run).panicked || Inv(After(run))
  {
    if run != [] {
      var before := run[..|run| - 1];
      RunKeeps(before);
      ActionKeeps(After(before), run[|run| - 1]);
    }
  }

  // ---------- What every run guarantees ----------

  /**
   No lost wake-up: whenever the processor halts in a run that has not panicked, the stream task has
   been started, its waker is registered, and every accepted scancode has been delivered in order.
   */
  lemma NoLostWakeup(run: seq<Action>)
    requires IsRun(run)
    ensures var s := After(run);
            !s.panicked && s.pc.Halted? && s.stream.Some? ==>
              s.queue == [] && s.started && s.waker == s.stream && s.scancodes == [] && s.delivered == s.accepted
  {
    RunKeeps(run);
  }

  /** At all times what was delivered is what was accepted first, in order and without repetition. */
  lemma DeliveredInOrder(run: seq<Action>)
    requires IsRun(run)
    ensures var s := After(run);
            !s.panicked ==> s.accepted == s.delivered + s.scancodes
  {
    RunKeeps(run);
  }

  /** Cached wakers only ever belong to live tasks, and live tasks are never completed ones. */
  lemma CachedAreLive(run: seq<Action>)
    requires IsRun(run)
    ensures var s := After(run); !s.panicked ==> s.cache <= s.tasks && s.tasks !! s.completed
  {
    RunKeeps(run);
  }

  /** A key pressed while the processor is halted always queues the stream task and cannot overflow. */
  lemma KeyWakesStream(run: seq<Action>, code: Scancode)
    requires IsRun(run)
    requires var s := After(run); !s.panicked && s.pc.Halted? && s.stream.Some?
    ensures var s, s' := After(run), Apply(After(run), KeyboardInterrupt(code));
            && !s'.panicked && s'.pc.Pop? && s'.queue == [s.stream.value]
            && s'.scancodes == [code] && s'.accepted == s.accepted + [code]
  {
    RunKeeps(run);
    KeyWhileHalted(After(run), code);
  }

  lemma KeyWhileHalted(s: State, code: Scancode)
    requires Inv(s) && !s.panicked && s.pc.Halted? && s.stream.Some?
    ensures var s' := Apply(s, KeyboardInterrupt(code));
            && !s'.panicked && s'.pc.Pop? && s'.queue == [s.stream.value]
            && s'.scancodes == [code] && s'.accepted == s.accepted + [code]
  {
  }

  /** New tasks never collide with a known id, so `spawn` cannot panic on a duplicate. */
  lemma FreshId(run: seq<Action>)
    requires IsRun(run)
    ensures var s := After(run); !s.panicked ==> s.nextId !in s.tasks && s.nextId !in s.completed
  {
    RunKeeps(run);
  }

  /** One action never polls a completed task, and never forgets that it completed. */
  lemma PollsOnlyLive(s: State, a: Action, id: TaskId)
    requires Inv(s) && Enabled(s, a) && id in s.completed
    ensures var s' := Apply(s, a);
            id in s'.completed && multiset(s'.polls)[id] == multiset(s.polls)[id]
  {
    if a.PopTask? {
      if s.queue != [] && s.queue[0] in s.tasks {
        OtherPolled(s.polls, s.queue[0], id);
      }
    } else {
      OnlyPopPolls(s, a);
    }
  }

  lemma OnlyPopPolls(s: State, a: Action)
    requires !a.PopTask?
    ensures Apply(s, a).polls == s.polls && s.completed <= Apply(s, a).completed
  {
    match a
    case Spawn(isStream) => SpawnPollsNone(s, isStream);
    case PollNext => StreamPollsNone(s);
    case KeyboardInterrupt(code) => KeyPollsNone(s, code);
    case _ =>
  }

  lemma SpawnPollsNone(s: State, isStream: bool)
    ensures SpawnTask(s, isStream).polls == s.polls && SpawnTask(s, isStream).completed == s.completed
  {
  }

  lemma StreamPollsNone(s: State)
    ensures StreamStep(s).polls == s.polls && StreamStep(s).completed == s.completed
  {
  }

  lemma KeyPollsNone(s: State, code: Scancode)
    ensures var s' := Resume(AddScancode(s, code)); s'.polls == s.polls && s'.completed == s.completed
  {
  }

  lemma OtherPolled(polls: seq<TaskId>, other: TaskId, id: TaskId)
    requires other != id
    ensures multiset(polls + [other])[id] == multiset(polls)[id]
  {
  }

  /** Once a task has completed it is never polled again, even if its id is still queued. */
  lemma {:induction false} CompletedNeverPolled(run: seq<Action>, t: nat, id: TaskId)
    requires IsRun(run) && t <= |run| && id in After(run[..t]).completed
    ensures id in After(run).completed && multiset(After(run).polls)[id] == multiset(After(run[..t]).polls)[id]
  {
    if t < |run| {
      var before := run[..|run| - 1];
      assert before[..t] == run[..t];
      CompletedNeverPolled(before, t, id);
      RunKeeps(before);
      PollsOnlyLive(After(before), run[|run| - 1], id);
    } else {
      assert run[..t] == run;
    }
  }

  // ---------- What each step does, in every run ----------

  /**
   A keyboard interrupt accepts its scancode if and only if the stream has started and fewer than
   100 accepted scancodes wait. It then wakes the registered waker, if there is one, and only then.
   */
  lemma AcceptsIff(run: seq<Action>, code: Scancode)
    requires IsRun(run) && !After(run).panicked
    ensures var s, s' := After(run), Apply(After(run), KeyboardInterrupt(code));
            var accepts := s.started && |s.accepted| - |s.delivered| < 100;
            && s'.accepted == (if accepts then s.accepted + [code] else s.accepted)
            && s'.delivered == s.delivered
            && (!s'.panicked ==> s'.pushed == if accepts && s.waker.Some? then s.pushed + [s.waker.value] else s.pushed)
            && (s'.panicked <==> accepts && s.waker.Some? && |s.queue| >= 100)
            && (accepts && !s'.panicked ==> s'.waker.None?)
  {
    RunKeeps(run);
    AcceptStep(After(run), code);
  }

  lemma AcceptStep(s: State, code: Scancode)
    requires Inv(s) && !s.panicked
    ensures var s' := Apply(s, KeyboardInterrupt(code));
            var accepts := s.started && |s.accepted| - |s.delivered| < 100;
            && s'.accepted == (if accepts then s.accepted + [code] else s.accepted)
            && s'.delivered == s.delivered
            && (!s'.panicked ==> s'.pushed == if accepts && s.waker.Some? then s.pushed + [s.waker.value] else s.pushed)
            && (s'.panicked <==> accepts && s.waker.Some? && |s.queue| >= 100)
            && (accepts && !s'.panicked ==> s'.waker.None?)
  {
  }

  /** `poll_next` returns the oldest accepted scancode that was not delivered yet, if there is one. */
  lemma DeliversOldest(run: seq<Action>)
    requires IsRun(run) && !After(run).panicked && (After(run).pc.First? || After(run).pc.Second?)
    ensures var s, s' := After(run), Apply(After(run), PollNext);
            && |s.delivered| <= |s.accepted|
            && s'.delivered
            == s.delivered + if |s.delivered| < |s.accepted| then [s.accepted[|s.delivered|]] else []
  {
    RunKeeps(run);
  }

  /** Task ids leave the task queue in the order in which they entered it. */
  lemma {:induction false} PoppedInOrder(run: seq<Action>)
    requires IsRun(run)
    ensures var s := After(run); !s.panicked ==> s.pushed == s.popped + s.queue
  {
    if run != [] {
      var before := run[..|run| - 1];
      PoppedInOrder(before);
      OrderStep(After(before), run[|run| - 1]);
    }
  }

  lemma OrderStep(s: State, a: Action)
    requires Enabled(s, a) && s.pushed == s.popped + s.queue
    ensures var s' := Apply(s, a); !s'.panicked ==> s'.pushed == s'.popped + s'.queue
  {
    if a.PopTask? {
      if s.queue != [] {
        Associate(s.popped, [s.queue[0]], s.queue[1..]);
        assert s.queue == [s.queue[0]] + s.queue[1..];
      }
    } else {
      var ids := PushesOne(s, a);
      Associate(s.popped, s.queue, ids);
    }
  }

  /** Every other action pushes at most one id, behind all others, and pops none. */
  lemma PushesOne(s: State, a: Action) returns (ids: seq<TaskId>)
    requires Enabled(s, a) && !a.PopTask?
    ensures var s' := Apply(s, a);
            && |ids| <= 1 && s'.popped == s.popped
            && (!s'.panicked ==> s'.pushed == s.pushed + ids && s'.queue == s.queue + ids)
  {
    match a
    case Spawn(isStream) => ids := [s.nextId];
    case PollNext => ids := []; StreamPushesNone(s);
    case KeyboardInterrupt(code) => ids := KeyPushes(s, code);
    case OtherInterrupt(woken) => ids := if woken.Some? then [woken.value] else [];
    case _ => ids := [];
  }

  lemma StreamPushesNone(s: State)
    ensures var s' := StreamStep(s);
            s'.popped == s.popped && s'.pushed == s.pushed && s'.queue == s.queue && s'.panicked == s.panicked
  {
  }

  lemma KeyPushes(s: State, code: Scancode) returns (ids: seq<TaskId>)
    ensures var s' := Resume(AddScancode(s, code));
            && |ids| <= 1 && s'.popped == s.popped
            && (!s'.panicked ==> s'.pushed == s.pushed + ids && s'.queue == s.queue + ids)
  {
    var wakes := s.started && |s.scancodes| < QUEUE_CAPACITY && s.waker.Some?;
    ids := if wakes then [s.waker.value] else [];
  }

  /** The executor pops the oldest id not popped yet, and polls it if and only if its task is live. */
  lemma PollsOldest(run: seq<Action>)
    requires IsRun(run) && !After(run).panicked && After(run).pc.Pop?
    ensures var s, s' := After(run), Apply(After(run), PopTask);
            && |s.popped| <= |s.pushed|
            && if |s.popped| == |s.pushed| then s'.pc.Sleep? && s'.popped == s.popped && s'.polls == s.polls
               else
                 var id := s.pushed[|s.popped|];
                 s'.popped == s.popped + [id] && s'.polls == s.polls + if id in s.tasks then [id] else []
  {
    PoppedInOrder(run);
  }

  /** A new task is live and queued behind all others. */
  lemma SpawnQueues(run: seq<Action>, isStream: bool)
    requires IsRun(run) && Enabled(After(run), Spawn(isStream))
    ensures var s, s' := After(run), Apply(After(run), Spawn(isStream));
            && s.nextId in s'.tasks && s'.tasks == s.tasks + {s.nextId}
            && (s'.panicked <==> |s.queue| >= 100)
            && (!s'.panicked ==> s'.queue == s.queue + [s.nextId])
            && (s'.stream == if isStream then Some(s.nextId) else s.stream)
  {
  }

  /** The processor halts if and only if the task queue is empty; interrupts are off before and on again after. */
  lemma HaltsIff(run: seq<Action>)
    requires IsRun(run) && !After(run).panicked && After(run).pc.Check?
    ensures var s, s' := After(run), Apply(After(run), Idle);
            && !s.interrupts && s'.interrupts && s'.queue == s.queue
            && (s'.pc.Halted? <==> s.queue == []) && (s'.pc.Pop? <==> s.queue != [])
  {
    RunKeeps(run);
  }

  /** The scancode queue exists from the first poll of the stream task on. */
  lemma {:induction false} StartedIff(run: seq<Action>)
    requires IsRun(run)
    ensures var s := After(run); !s.panicked ==> (s.started <==> s.stream.Some? && s.stream.value in s.polls)
  {
    StartKnown(run);
  }

  predicate Known(s: State) {
    && (forall id :: id in s.polls ==> id < s.nextId)
    && (s.started <==> s.stream.Some? && s.stream.value in s.polls)
  }

  lemma {:induction false} StartKnown(run: seq<Action>)
    requires IsRun(run)
    ensures After(run).panicked || Known(After(run))
  {
    if run != [] {
      var before := run[..|run| - 1];
      StartKnown(before);
      RunKeeps(before);
      KnownStep(After(before), run[|run| - 1]);
    }
  }

  lemma KnownStep(s: State, a: Action)
    requires Inv(s) && Known(s) && Enabled(s, a)
    ensures var s' := Apply(s, a); s'.panicked || Known(s')
  {
    if a.PopTask? {
      KnownPop(s);
    } else if !a.Spawn? {
      KeepsStart(s, a);
      OnlyPopPolls(s, a);
    }
  }

  lemma KnownPop(s: State)
    requires Inv(s) && Known(s)
    ensures Known(PopStep(s))
  {
    if s.queue != [] && s.queue[0] in s.tasks {
      var polls := s.polls + [s.queue[0]];
      assert forall id :: id in polls <==> id in s.polls || id == s.queue[0];
    }
  }

  lemma KeepsStart(s: State, a: Action)
    requires !a.PopTask? && !a.Spawn?
    ensures var s' := Apply(s, a); s'.started == s.started && s'.stream == s.stream && s'.nextId == s.nextId
  {
    match a
    case PollNext => StreamKeepsStart(s);
    case _ =>
  }

  lemma StreamKeepsStart(s: State)
    ensures var s' := StreamStep(s); s'.started == s.started && s'.stream == s.stream && s'.nextId == s.nextId
  {
  }

  /**
   `poll_next` registers its task only when it found no scancode, before it looks again. It takes the
   waker back if it then finds one, and otherwise leaves it alone and returns to the executor.
   */
  lemma WakerSteps(run: seq<Action>)
    requires IsRun(run) && !After(run).panicked
    ensures var s, s' := After(run), Apply(After(run), PollNext);
            var waiting := |s.delivered| < |s.accepted|;
            && (s.pc.First? ==> s'.pc == (if waiting then First else Register) && s'.waker == s.waker)
            && (s.pc.Register? ==> s'.pc.Second? && s'.waker == s.stream && s.stream.Some?)
            && (s.pc.Second? ==> s'.pc == (if waiting then Take else Return) && s'.waker == s.waker)
            && (s.pc.Take? ==> s'.pc.First? && s'.waker.None?)
            && (s.pc.Return? ==> s'.pc.Pop? && s'.waker == s.waker)
  {
    RunKeeps(run);
  }

  /** Every interrupt lets a halted processor go on. */
  lemma InterruptResumes(run: seq<Action>, a: Action)
    requires IsRun(run) && Enabled(After(run), a) && After(run).pc.Halted?
    ensures a.KeyboardInterrupt? || a.OtherInterrupt?
    ensures Apply(After(run), a).pc.Pop?
  {
  }

  /** The tasks whose waker is cached are the live ones that have been polled. */
  lemma {:induction false} CacheExact(run: seq<Action>, id: TaskId)
    requires IsRun(run)
    ensures var s := After(run); !s.panicked ==> (id in s.cache <==> id in s.tasks && id in s.polls)
  {
    if run != [] {
      var before := run[..|run| - 1];
      CacheExact(before, id);
      RunKeeps(before);
      StartKnown(before);
      CacheStep(After(before), run[|run| - 1], id);
    }
  }

  lemma CacheStep(s: State, a: Action, id: TaskId)
    requires Inv(s) && Known(s) && Enabled(s, a) && (id in s.cache <==> id in s.tasks && id in s.polls)
    ensures var s' := Apply(s, a); !s'.panicked ==> (id in s'.cache <==> id in s'.tasks && id in s'.polls)
  {
    match a
    case PopTask => CachePop(s, id);
    case Spawn(isStream) =>
    case OtherReturns(ready) =>
    case _ =>
      OnlyPopPolls(s, a);
      KeepsTasks(s, a);
  }

  lemma CachePop(s: State, id: TaskId)
    requires id in s.cache <==> id in s.tasks && id in s.polls
    ensures var s' := PopStep(s); id in s'.cache <==> id in s'.tasks && id in s'.polls
  {
    if s.queue != [] && s.queue[0] in s.tasks {
      assert id in s.polls + [s.queue[0]] <==> id in s.polls || id == s.queue[0];
    }
  }

  lemma KeepsTasks(s: State, a: Action)
    requires !a.PopTask? && !a.Spawn? && !a.OtherReturns?
    ensures var s' := Apply(s, a); s'.tasks == s.tasks && s'.cache == s.cache
  {
    match a
    case PollNext => StreamKeepsTasks(s);
    case _ =>
  }

  lemma StreamKeepsTasks(s: State)
    ensures StreamStep(s).tasks == s.tasks && StreamStep(s).cache == s.cache
  {
  }
}

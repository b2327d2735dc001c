/** The round-robin executor that polls every task until it is ready. */
module SimpleExecutor {
  import opened Common

  /** A task that becomes ready at its `need`-th poll. */
  datatype Task = Task(id: nat, need: Positive)

  type Positive = n: nat | n >= 1 witness 1

  function Ids(q: seq<Task>): seq<nat> { seq(|q|, i requires 0 <= i < |q| => q[i].id) }

  /** The tasks still pending after each was polled once. */
  function Survivors(q: seq<Task>): seq<Task> {
    if q == [] then [] else Again(q[0]) + Survivors(q[1..])
  }

  /** What goes back into the queue after a task is polled. */
  function Again(t: Task): seq<Task> {
    if t.need > 1 then [Task(t.id, t.need - 1)] else []
  }

  /** How many polls the tasks need altogether. */
  function TotalNeed(q: seq<Task>): nat {
    if q == [] then 0 else q[0].need + TotalNeed(q[1..])
  }

  lemma {:induction false} SurvivorsNeed(q: seq<Task>)
    ensures TotalNeed(Survivors(q)) == TotalNeed(q) - |q|
  {
    if q != [] {
      SurvivorsNeed(q[1..]);
      NeedAppend(Again(q[0]), Survivors(q[1..]));
    }
  }

  lemma {:induction false} NeedAppend(xs: seq<Task>, ys: seq<Task>)
    ensures TotalNeed(xs + ys) == TotalNeed(xs) + TotalNeed(ys)
  {
    if xs == [] {
      assert xs + ys == ys;
    } else {
      NeedAppend(xs[1..], ys);
      assert (xs + ys)[1..] == xs[1..] + ys;
    }
  }

  /** The polls in rounds: each round polls every pending task once, in order. */
  function Rounds(q: seq<Task>): seq<nat>
    decreases TotalNeed(q)
  {
    if q == [] then []
    else
      SurvivorsNeed(q);
      Ids(q) + Rounds(Survivors(q))
  }

  /** The tasks that need at least `r` polls, in the order of the queue. */
  function Needing(q: seq<Task>, r: nat): seq<nat> {
    if q == [] then [] else (if q[0].need >= r then [q[0].id] else []) + Needing(q[1..], r)
  }

  /** One after the other for `r` up to `m`. */
  function AllNeeding(q: seq<Task>, r: nat, m: nat): seq<nat>
    decreases m - r
  {
    if r > m then [] else Needing(q, r) + AllNeeding(q, r + 1, m)
  }

  /** Round number `r` polls exactly the tasks that need at least `r` polls, in the order they were spawned. */
  lemma {:induction false} RoundsAre(q: seq<Task>, m: nat)
    requires forall t :: t in q ==> t.need <= m
    ensures Rounds(q) == AllNeeding(q, 1, m)
    decreases TotalNeed(q)
  {
    if q == [] {
      NothingNeeded(1, m);
    } else {
      assert q[0] in q;
      var rest := Survivors(q);
      SurvivorsNeed(q);
      SurvivorsBelow(q, m);
      RoundsAre(rest, m - 1);
      OneRound(q);
      FirstRound(q);
      LaterRounds(q, rest, 1, m);
      Unroll(q, 1, m);
    }
  }

  lemma Unroll(q: seq<Task>, r: nat, m: nat)
    requires r <= m
    ensures AllNeeding(q, r, m) == Needing(q, r) + AllNeeding(q, r + 1, m)
  {
  }

  lemma {:induction false} NothingNeeded(r: nat, m: nat)
    ensures AllNeeding([], r, m) == []
    decreases m - r
  {
    if r <= m {
      NothingNeeded(r + 1, m);
    }
  }

  lemma {:induction false} SurvivorsBelow(q: seq<Task>, m: nat)
    requires forall t :: t in q ==> t.need <= m
    ensures forall t :: t in Survivors(q) ==> t.need <= m - 1
  {
    if q != [] {
      assert q[0] in q;
      SurvivorsBelow(q[1..], m);
    }
  }

  lemma {:induction false} FirstRound(q: seq<Task>)
    ensures Needing(q, 1) == Ids(q)
  {
    if q != [] {
      FirstRound(q[1..]);
      assert Ids(q) == [q[0].id] + Ids(q[1..]);
    }
  }

  /** A survivor needs `r` more polls if and only if the task needed `r + 1`. */
  lemma {:induction false} NextNeeding(q: seq<Task>, r: nat)
    requires r >= 1
    ensures Needing(Survivors(q), r) == Needing(q, r + 1)
  {
    if q != [] {
      NextNeeding(q[1..], r);
      NeedingAppend(Again(q[0]), Survivors(q[1..]), r);
      NeedingAgain(q[0], r);
    }
  }

  lemma NeedingAgain(t: Task, r: nat)
    requires r >= 1
    ensures Needing(Again(t), r) == if t.need >= r + 1 then [t.id] else []
  {
    if t.need > 1 {
      assert Again(t)[1..] == [];
    }
  }

  lemma {:induction false} NeedingAppend(xs: seq<Task>, ys: seq<Task>, r: nat)
    ensures Needing(xs + ys, r) == Needing(xs, r) + Needing(ys, r)
  {
    if xs == [] {
      assert xs + ys == ys;
    } else {
      NeedingAppend(xs[1..], ys, r);
      CutOfSum(xs, ys, 1);
      Associate(if xs[0].need >= r then [xs[0].id] else [], Needing(xs[1..], r), Needing(ys, r));
    }
  }

  lemma {:induction false} LaterRounds(q: seq<Task>, rest: seq<Task>, r: nat, m: nat)
    requires r >= 1 && m >= 1 && rest == Survivors(q)
    ensures AllNeeding(rest, r, m - 1) == AllNeeding(q, r + 1, m)
    decreases m - r
  {
    if r <= m - 1 {
      NextNeeding(q, r);
      LaterRounds(q, rest, r + 1, m);
      Unroll(rest, r, m - 1);
      Unroll(q, r + 1, m);
    }
  }

  /** The number of polls is exactly what the tasks need together. */
  lemma {:induction false} RoundsLength(q: seq<Task>)
    ensures |Rounds(q)| == TotalNeed(q)
    decreases TotalNeed(q)
  {
    if q != [] {
      SurvivorsNeed(q);
      RoundsLength(Survivors(q));
    }
  }

  /** How many polls the tasks with this id need. */
  function NeedOf(q: seq<Task>, id: nat): nat {
    if q == [] then 0 else (if q[0].id == id then q[0].need else 0) + NeedOf(q[1..], id)
  }

  function Count(xs: seq<nat>, id: nat): nat {
    if xs == [] then 0 else (if xs[0] == id then 1 else 0) + Count(xs[1..], id)
  }

  lemma {:induction false} CountAppend(xs: seq<nat>, ys: seq<nat>, id: nat)
    ensures Count(xs + ys, id) == Count(xs, id) + Count(ys, id)
  {
    if xs == [] {
      assert xs + ys == ys;
    } else {
      CountAppend(xs[1..], ys, id);
      assert (xs + ys)[1..] == xs[1..] + ys;
    }
  }

  lemma {:induction false} NeedOfAppend(xs: seq<Task>, ys: seq<Task>, id: nat)
    ensures NeedOf(xs + ys, id) == NeedOf(xs, id) + NeedOf(ys, id)
  {
    if xs == [] {
      assert xs + ys == ys;
    } else {
      NeedOfAppend(xs[1..], ys, id);
      assert (xs + ys)[1..] == xs[1..] + ys;
    }
  }

  /** One round brings every task one poll closer. */
  lemma {:induction false} RoundCount(q: seq<Task>, id: nat)
    ensures Count(Ids(q), id) + NeedOf(Survivors(q), id) == NeedOf(q, id)
  {
    if q != [] {
      RoundCount(q[1..], id);
      NeedOfAppend(Again(q[0]), Survivors(q[1..]), id);
      assert Ids(q) == [q[0].id] + Ids(q[1..]);
      CountAppend([q[0].id], Ids(q[1..]), id);
    }
  }

  /** Every task is polled exactly as often as it needs. */
  lemma {:induction false} EachPolledAsNeeded(q: seq<Task>, id: nat)
    ensures Count(Rounds(q), id) == NeedOf(q, id)
    decreases TotalNeed(q)
  {
    if q != [] {
      SurvivorsNeed(q);
      EachPolledAsNeeded(Survivors(q), id);
      CountAppend(Ids(q), Rounds(Survivors(q)), id);
      RoundCount(q, id);
    }
  }

  lemma {:induction false} SurvivorsSnoc(q: seq<Task>, t: Task)
    ensures Survivors(q + [t]) == Survivors(q) + Again(t)
  {
    if q == [] {
      assert q + [t] == [t];
      assert Survivors([t][1..]) == [];
    } else {
      assert (q + [t])[1..] == q[1..] + [t];
      SurvivorsSnoc(q[1..], t);
    }
  }

  lemma PollNeed(q: seq<Task>)
    requires q != []
    ensures TotalNeed(q[1..] + Again(q[0])) == TotalNeed(q) - 1
  {
    NeedAppend(q[1..], Again(q[0]));
  }

  /** In the middle of a round: `polled` are done in this round, `rest` are not, `before` lists the earlier rounds. */
  ghost predicate MidRound(q0: seq<Task>, queue: seq<Task>, polls: seq<nat>,
                           before: seq<nat>, polled: seq<Task>, rest: seq<Task>)
  {
    && queue == rest + Survivors(polled)
    && polls == before + Ids(polled)
    && before + Rounds(polled + rest) == Rounds(q0)
  }

  lemma PollOne(q0: seq<Task>, queue: seq<Task>, polls: seq<nat>,
                before: seq<nat>, polled: seq<Task>, rest: seq<Task>)
    requires MidRound(q0, queue, polls, before, polled, rest) && rest != []
    ensures queue != []
    ensures MidRound(q0, queue[1..] + Again(queue[0]), polls + [queue[0].id], before, polled + [rest[0]], rest[1..])
  {
    QueueStep(queue, polled, rest, Survivors(polled));
    PollsStep(before, polled, rest[0]);
    SameRound(polled, rest);
  }

  lemma QueueStep(queue: seq<Task>, polled: seq<Task>, rest: seq<Task>, survivors: seq<Task>)
    requires rest != [] && survivors == Survivors(polled) && queue == rest + survivors
    ensures queue[0] == rest[0] && queue[1..] + Again(rest[0]) == rest[1..] + Survivors(polled + [rest[0]])
  {
    SurvivorsSnoc(polled, rest[0]);
    assert queue[1..] == rest[1..] + survivors;
    Associate(rest[1..], survivors, Again(rest[0]));
  }

  lemma SameRound(polled: seq<Task>, rest: seq<Task>)
    requires rest != []
    ensures polled + [rest[0]] + rest[1..] == polled + rest
  {
  }

  lemma PollsStep(before: seq<nat>, polled: seq<Task>, t: Task)
    ensures before + Ids(polled) + [t.id] == before + Ids(polled + [t])
  {
    assert Ids(polled + [t]) == Ids(polled) + [t.id];
  }

  lemma NextRound(q0: seq<Task>, queue: seq<Task>, polls: seq<nat>, before: seq<nat>, polled: seq<Task>)
    requires MidRound(q0, queue, polls, before, polled, [])
    ensures queue == Survivors(polled) && MidRound(q0, queue, polls, polls, [], queue)
  {
    assert polled + [] == polled && [] + queue == queue && [] + Survivors(polled) == queue;
    RoundSplit(before, polled);
    assert Ids([]) == [] && polls + [] == polls;
  }

  lemma RoundSplit(before: seq<nat>, q: seq<Task>)
    ensures before + Ids(q) + Rounds(Survivors(q)) == before + Rounds(q)
  {
    OneRound(q);
    Associate(before, Ids(q), Rounds(Survivors(q)));
  }

  lemma OneRound(q: seq<Task>)
    ensures Rounds(q) == Ids(q) + Rounds(Survivors(q))
  {
  }

  lemma Finished(q0: seq<Task>, polls: seq<nat>, before: seq<nat>, polled: seq<Task>, rest: seq<Task>)
    requires MidRound(q0, [], polls, before, polled, rest)
    ensures polls == Rounds(q0)
  {
    assert rest == [];
    NextRound(q0, [], polls, before, polled);
  }

  class SimpleExecutor {
    var taskQueue: seq<Task>

    constructor ()
      ensures taskQueue == []
    {
      taskQueue := [];
    }

    method Spawn(task: Task)
      modifies this
      ensures taskQueue == old(taskQueue) + [task]
    {
      taskQueue := taskQueue + [task];
    }

    /** Pops, polls and pushes back until the queue is empty; `polls` records the tasks polled. */
    method Run() returns (polls: seq<nat>)
      modifies this
      ensures taskQueue == [] && polls == Rounds(old(taskQueue)) && |polls| == TotalNeed(old(taskQueue))
    {
      polls := [];
      ghost var q0 := taskQueue;
      ghost var before, polled, rest := [], [], taskQueue;
      assert [] + q0 == q0 && Ids([]) == [];
      while taskQueue != []
        invariant MidRound(q0, taskQueue, polls, before, polled, rest)
        decreases TotalNeed(taskQueue)
      {
        if rest == [] {
          NextRound(q0, taskQueue, polls, before, polled);
          before, polled, rest := polls, [], taskQueue;
        }
        PollOne(q0, taskQueue, polls, before, polled, rest);
        PollNeed(taskQueue);
        var task := taskQueue[0];
        taskQueue := taskQueue[1..];
        polls := polls + [task.id];
        taskQueue := taskQueue + Again(task);
        polled, rest := polled + [rest[0]], rest[1..];
      }
      Finished(q0, polls, before, polled, rest);
      RoundsLength(q0);
    }
  }
}

/**
 Background work (`runInBackground` and `settleBackgroundWork` in `container.ts`): tasks that may
 start others and may fail, and calls that wait until none is left.
 */
module BackgroundTasks {
  import opened Basics

  type Task = nat
  type Waiter = nat

  /** A task runs, then has ended, and then is taken out of the set by its last callback. */
  datatype Status = Running | Ended(failed: bool) | Removed(failed: bool)

  /** A settle call waits for what it saw in the set, or has returned; `rounds` counts its waits. */
  datatype Settle = Waiting(seen: set<Task>, rounds: nat) | Returned(rounds: nat)

  /** `tasks` is the set of the code; `status` of every task ever started, in order of its start. */
  datatype State = State(tasks: set<Task>, status: seq<Status>, waiters: map<Waiter, Settle>, logged: nat)

  datatype Event =
    | Start
    | End(t: Task, failed: bool)
    | Remove(t: Task)
    | Settle(w: Waiter)
    | Resume(w: Waiter)

  function Empty(): State {
    State({}, [], map[], 0)
  }

  predicate Gone(s: State, seen: set<Task>) {
    forall t | t in seen :: t < |s.status| && s.status[t].Removed?
  }

  predicate Enabled(s: State, e: Event) {
    match e
    case Start => true
    case End(t, _) => t < |s.status| && s.status[t].Running?
    case Remove(t) => t < |s.status| && s.status[t].Ended?
    case Settle(w) => w !in s.waiters
    case Resume(w) => w in s.waiters && s.waiters[w].Waiting? && Gone(s, s.waiters[w].seen)
  }

  /** The loop test: return if the set is empty, otherwise wait for all tasks now in it. */
  function Test(s: State, w: Waiter, rounds: nat): State {
    s.(waiters := s.waiters[w := if s.tasks == {} then Returned(rounds) else Waiting(s.tasks, rounds + 1)])
  }

  function Apply(s: State, e: Event): State
    requires Enabled(s, e)
  {
    match e
    case Start => s.(tasks := s.tasks + {|s.status|}, status := s.status + [Running])
    case End(t, failed) => s.(status := s.status[t := Ended(failed)], logged := if failed then s.logged + 1 else s.logged)
    case Remove(t) => s.(tasks := s.tasks - {t}, status := s.status[t := Removed(s.status[t].failed)])
    case Settle(w) => Test(s, w, 0)
    case Resume(w) => Test(s, w, s.waiters[w].rounds)
  }

  // ---------------------------------------------------------------- the invariant

  function FailedCount(status: seq<Status>): nat {
    if status == [] then 0
    else FailedCount(status[..|status| - 1]) + (if !status[|status| - 1].Running? && status[|status| - 1].failed then 1 else 0)
  }

  /** What is no longer in the set. */
  function RemovedTasks(s: State): set<Task> {
    set t: Task | t < |s.status| && s.status[t].Removed?
  }

  /** A waiting call has waited once for at least one task that is gone, in every round but the last. */
  ghost predicate WaiterKept(s: State, w: Waiter)
    requires w in s.waiters
  {
    match s.waiters[w]
    case Waiting(seen, rounds) =>
      && seen != {} && (forall t | t in seen :: t < |s.status|)
      && exists before: set<Task> :: before <= RemovedTasks(s) && before !! seen && |before| + 1 >= rounds
    case Returned(rounds) => rounds <= |RemovedTasks(s)|
  }

  ghost predicate Inv(s: State) {
    && (forall t: Task :: t in s.tasks <==> t < |s.status| && !s.status[t].Removed?)
    && s.logged == FailedCount(s.status)
    && (forall w | w in s.waiters :: WaiterKept(s, w))
  }

  lemma {:induction false} FailedUpdate(status: seq<Status>, t: nat, x: Status)
    requires t < |status|
    ensures FailedCount(status[t := x]) + (if !status[t].Running? && status[t].failed then 1 else 0)
         == FailedCount(status) + (if !x.Running? && x.failed then 1 else 0)
  {
    var n := |status| - 1;
    var next := status[t := x];
    if t == n {
      assert next[..n] == status[..n];
    } else {
      assert next[..n] == status[..n][t := x];
      FailedUpdate(status[..n], t, x);
    }
  }

  lemma RemovedGrow(s: State, next: State)
    requires |s.status| <= |next.status| && forall t: Task | t < |s.status| && s.status[t].Removed? :: next.status[t].Removed?
    ensures RemovedTasks(s) <= RemovedTasks(next) && |RemovedTasks(s)| <= |RemovedTasks(next)|
  {
    Fewer(RemovedTasks(s), RemovedTasks(next));
  }

  lemma Fewer(a: set<Task>, b: set<Task>)
    requires a <= b
    ensures |a| <= |b|
  {
    assert b == a + (b - a);
  }

  lemma WaiterStays(s: State, next: State, w: Waiter)
    requires w in s.waiters && w in next.waiters && next.waiters[w] == s.waiters[w] && WaiterKept(s, w)
    requires |s.status| <= |next.status| && forall t: Task | t < |s.status| && s.status[t].Removed? :: next.status[t].Removed?
    ensures WaiterKept(next, w)
  {
    RemovedGrow(s, next);
    if s.waiters[w].Waiting? {
      var before: set<Task> :| before <= RemovedTasks(s) && before !! s.waiters[w].seen && |before| + 1 >= s.waiters[w].rounds;
      assert before <= RemovedTasks(next);
    }
  }

  lemma TestKeeps(s: State, w: Waiter, rounds: nat)
    requires Inv(s) && rounds <= |RemovedTasks(s)|
    ensures Inv(Test(s, w, rounds))
  {
  }

  /** When a waiting call goes on, all that its rounds waited for is gone, and nothing was waited for twice. */
  lemma ResumeCounts(s: State, w: Waiter)
    requires Inv(s) && Enabled(s, Resume(w))
    ensures s.waiters[w].rounds <= |RemovedTasks(s)|
  {
    assert WaiterKept(s, w);
    var seen, rounds := s.waiters[w].seen, s.waiters[w].rounds;
    var before: set<Task> :| before <= RemovedTasks(s) && before !! seen && |before| + 1 >= rounds;
    var t :| t in seen;
    assert |before + {t}| == |before| + 1;
    Fewer(before + {t}, RemovedTasks(s));
  }

  /** A step that starts, ends or removes a task leaves the settle calls as they are. */
  lemma WaitersStay(s: State, next: State)
    requires (forall w | w in s.waiters :: WaiterKept(s, w)) && next.waiters == s.waiters
    requires |s.status| <= |next.status| && forall t: Task | t < |s.status| && s.status[t].Removed? :: next.status[t].Removed?
    ensures forall w | w in next.waiters :: WaiterKept(next, w)
  {
    forall w | w in next.waiters ensures WaiterKept(next, w) {
      WaiterStays(s, next, w);
    }
  }

  lemma StartKeeps(s: State)
    requires Inv(s)
    ensures Inv(Apply(s, Start))
  {
    var next := Apply(s, Start);
    assert next.status[..|s.status|] == s.status;
    WaitersStay(s, next);
  }

  lemma EndKeeps(s: State, t: Task, failed: bool)
    requires Inv(s) && Enabled(s, End(t, failed))
    ensures Inv(Apply(s, End(t, failed)))
  {
    FailedUpdate(s.status, t, Ended(failed));
    WaitersStay(s, Apply(s, End(t, failed)));
  }

  lemma RemoveKeeps(s: State, t: Task)
    requires Inv(s) && Enabled(s, Remove(t))
    ensures Inv(Apply(s, Remove(t)))
  {
    FailedUpdate(s.status, t, Removed(s.status[t].failed));
    WaitersStay(s, Apply(s, Remove(t)));
  }

  lemma InvStep(s: State, e: Event)
    requires Inv(s) && Enabled(s, e)
    ensures Inv(Apply(s, e))
  {
    match e
    case Start => StartKeeps(s);
    case End(t, failed) => EndKeeps(s, t, failed);
    case Remove(t) => RemoveKeeps(s, t);
    case Settle(w) => TestKeeps(s, w, 0);
    case Resume(w) =>
      ResumeCounts(s, w);
      TestKeeps(s, w, s.waiters[w].rounds);
  }

  // ---------------------------------------------------------------- every run

  function Run(s: State, events: seq<Event>): Option<State> {
    if events == [] then Some(s)
    else
      var before := Run(s, events[..|events| - 1]);
      var e := events[|events| - 1];
      if before.Some? && Enabled(before.value, e) then Some(Apply(before.value, e)) else None
  }

  lemma {:induction false} RunKeepsInv(events: seq<Event>)
    requires Run(Empty(), events).Some?
    ensures Inv(Run(Empty(), events).value)
  {
    if events == [] {
      assert RemovedTasks(Empty()) == {};
    } else {
      RunKeepsInv(events[..|events| - 1]);
      InvStep(Run(Empty(), events[..|events| - 1]).value, events[|events| - 1]);
    }
  }

  /** At the moment a settle call returns, every task started so far has finished, whether it failed
      or not and whoever started it, and each failure has been logged once. */
  lemma SettledMeansFinished(events: seq<Event>, e: Event, w: Waiter)
    requires Run(Empty(), events).Some? && Enabled(Run(Empty(), events).value, e)
    requires var s := Run(Empty(), events).value;
             !(w in s.waiters && s.waiters[w].Returned?) && w in Apply(s, e).waiters && Apply(s, e).waiters[w].Returned?
    ensures var s := Apply(Run(Empty(), events).value, e);
            && s.tasks == {} && (forall t: Task | t < |s.status| :: s.status[t].Removed?)
            && s.logged == FailedCount(s.status)
  {
    RunKeepsInv(events);
    InvStep(Run(Empty(), events).value, e);
  }

  /** A settle call waits no more often than tasks were started: if only finitely many start, it ends. */
  lemma RoundsBounded(events: seq<Event>, w: Waiter)
    requires Run(Empty(), events).Some? && w in Run(Empty(), events).value.waiters
    ensures Run(Empty(), events).value.waiters[w].rounds <= |Run(Empty(), events).value.status|
  {
    RunKeepsInv(events);
    var s := Run(Empty(), events).value;
    assert WaiterKept(s, w);
    if s.waiters[w].Waiting? {
      var seen, rounds := s.waiters[w].seen, s.waiters[w].rounds;
      var before: set<Task> :| before <= RemovedTasks(s) && before !! seen && |before| + 1 >= rounds;
      var t :| t in seen;
      assert |before + {t}| == |before| + 1;
      FewTasks(before + {t}, |s.status|);
    } else {
      FewTasks(RemovedTasks(s), |s.status|);
    }
  }

  lemma {:induction false} FewTasks(a: set<Task>, n: nat)
    requires forall t | t in a :: t < n
    ensures |a| <= n
  {
    if n == 0 {
      assert a == {};
    } else {
      FewTasks(a - {n - 1}, n - 1);
    }
  }

  // ---------------------------------------------------------------- what a waiting call waits for

  /** The event is a loop test of this settle call. */
  predicate Tests(e: Event, w: Waiter) {
    e == Settle(w) || e == Resume(w)
  }

  /** Event `i` is the last loop test of the call. */
  predicate LastTest(events: seq<Event>, w: Waiter, i: nat) {
    i < |events| && Tests(events[i], w) && forall j | i < j < |events| :: !Tests(events[j], w)
  }

  /** The tasks that have been started and not taken out. */
  function Unfinished(s: State): set<Task> {
    set t: Task | t < |s.status| && !s.status[t].Removed?
  }

  /** How often the call has gone on after a wait. */
  function Resumes(events: seq<Event>, w: Waiter): nat {
    if events == [] then 0 else Resumes(events[..|events| - 1], w) + if events[|events| - 1] == Resume(w) then 1 else 0
  }

  ghost predicate WaitTold(events: seq<Event>, w: Waiter, now: Settle, i: nat) {
    && LastTest(events, w, i) && Run(Empty(), events[..i + 1]).Some?
    && now.rounds == Resumes(events, w) + (if now.Waiting? then 1 else 0)
    && var left := Unfinished(Run(Empty(), events[..i + 1]).value);
       (now.Returned? <==> left == {}) && (now.Waiting? ==> now.seen == left)
  }

  /** A settle call waits for every task that was unfinished at its last loop test and returns where there was
      none; it has waited once for each time it went on, and once more if it still waits. */
  lemma {:induction false} WaitTells(events: seq<Event>, w: Waiter) returns (i: nat)
    requires Run(Empty(), events).Some? && w in Run(Empty(), events).value.waiters
    ensures WaitTold(events, w, Run(Empty(), events).value.waiters[w], i)
  {
    var before, e := events[..|events| - 1], events[|events| - 1];
    var s, next := Run(Empty(), before).value, Run(Empty(), events).value;
    if Tests(e, w) {
      i := |events| - 1;
      assert events[..i + 1] == events;
      RunKeepsInv(before);
      RunKeepsInv(events);
      assert Unfinished(next) == next.tasks;
      if e == Settle(w) {
        NotResumed(before, w);
      } else {
        var j := WaitTells(before, w);
      }
    } else {
      i := WaitTells(before, w);
      assert events[..i + 1] == before[..i + 1];
    }
  }

  /** A call that has not begun has not gone on. */
  lemma {:induction false} NotResumed(events: seq<Event>, w: Waiter)
    requires Run(Empty(), events).Some? && w !in Run(Empty(), events).value.waiters
    ensures Resumes(events, w) == 0
  {
    if events != [] {
      NotResumed(events[..|events| - 1], w);
    }
  }

  // ---------------------------------------------------------------- the code

  class BackgroundWork {
    var tasks: set<Task>
    var status: seq<Status>
    var logged: nat
    ghost var events: seq<Event>

    function Current(): State
      reads this
    {
      State(tasks, status, map[], logged)
    }

    ghost predicate Valid()
      reads this
    {
      Run(Empty(), events) == Some(Current())
    }

    constructor ()
      ensures Valid() && events == [] && Current() == Empty()
    {
      tasks, status, logged, events := {}, [], 0, [];
    }

    lemma ValidInv()
      requires Valid()
      ensures Inv(Current())
    {
      RunKeepsInv(events);
    }

    ghost method Record(e: Event, before: State)
      requires Run(Empty(), events) == Some(before) && Enabled(before, e) && Apply(before, e) == Current()
      modifies this`events
      ensures Valid() && events == old(events) + [e]
    {
      events := events + [e];
      assert events[..|events| - 1] == old(events);
    }

    /** `runInBackground`: a new task starts and is in the set until its last callback. */
    method RunInBackground() returns (t: Task)
      requires Valid()
      modifies this
      ensures Valid() && t == |old(status)| && tasks == old(tasks) + {t} && status == old(status) + [Running]
    {
      t := |status|;
      status := status + [Running];
      tasks := tasks + {t};
      Record(Start, old(Current()));
    }

    /** Task `t` ends, and its `catch` and its `finally` callbacks run. */
    method Complete(t: Task, failed: bool)
      requires Valid() && t < |status|
      modifies this
      ensures Valid() && |status| == |old(status)| && status[t].Removed? && tasks == old(tasks) - {t}
      ensures forall o: Task | o < |status| && old(status)[o].Removed? :: status[o].Removed?
    {
      ValidInv();
      if status[t].Running? {
        ghost var before := Current();
        status := status[t := Ended(failed)];
        logged := if failed then logged + 1 else logged;
        Record(End(t, failed), before);
      }
      if status[t].Ended? {
        ghost var before := Current();
        status := status[t := Removed(status[t].failed)];
        tasks := tasks - {t};
        Record(Remove(t), before);
      }
    }

    /** `Promise.allSettled` on what was seen in the set; meanwhile any tasks end and up to `starts` begin. */
    method AllSettled(seen: set<Task>, starts: nat) returns (left: nat)
      requires Valid() && seen == tasks
      modifies this
      ensures Valid() && left <= starts && (forall t | t in seen :: t !in tasks)
      ensures left == starts ==> tasks == {}
    {
      left := starts;
      var turns: seq<Option<Task>> := *;
      ghost var first := |status|;
      ValidInv();
      for i := 0 to |turns|
        invariant Valid() && left <= starts && first <= |status|
        invariant left == starts ==> |status| == first
        invariant forall t | t in seen && t !in tasks :: t < |status| && status[t].Removed?
        invariant forall t | t in tasks :: t in seen || first <= t < |status|
      {
        ValidInv();
        if turns[i].None? && left > 0 {
          var _ := RunInBackground();
          left := left - 1;
        } else if turns[i].Some? && turns[i].value < |status| {
          var failed: bool := *;
          Complete(turns[i].value, failed);
        }
      }
      var rest := seen;
      while rest != {}
        invariant Valid() && left <= starts && first <= |status| && rest <= seen
        invariant left == starts ==> |status| == first
        invariant forall t | t in seen && t !in rest :: t !in tasks
        invariant forall t | t in tasks :: t in seen || first <= t < |status|
      {
        ValidInv();
        var t :| t in rest;
        rest := rest - {t};
        if t in tasks {
          var failed: bool := *;
          Complete(t, failed);
        }
      }
      ValidInv();
    }

    /** `settleBackgroundWork`; `starts` bounds how many further tasks begin, without which the loop
        need not end.  When it returns, every task has finished. */
    method SettleBackgroundWork(starts: nat)
      requires Valid()
      modifies this
      ensures Valid() && tasks == {} && forall t: Task | t < |status| :: status[t].Removed?
      ensures logged == FailedCount(status)
    {
      var left: nat := starts;
      while tasks != {}
        invariant Valid() && left <= starts
        decreases left, tasks
      {
        left := AllSettled(tasks, left);
      }
      ValidInv();
    }
  }
}

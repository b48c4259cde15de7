/**
 The limiter's own code (`acquire`, `release`, `note_rate_limited`, `cooldown_remaining_s`) over the
 module's variables, among other callers that do anything the steps of `ProviderPacing` allow.

 `Valid` says that what has happened so far is a run of `ProviderPacing`.  The methods assign the
 module's variables as the code does; `Record` asks for a proof that this was the step claimed, so
 everything proved there of runs holds of this code.
 */
module ProviderLimiter {
  import opened Basics
  import opened ProviderPacing

  datatype Outcome = Granted | Refused | Raised

  class Limiter {
    const c: Config
    ghost const start: State
    // the clock and the module's variables
    var now: int
    var free: int
    var resumeAt: int
    var nextStart: int
    // where the callers are, and what has happened
    var threads: map<Thread, Phase>
    var starts: seq<int>
    var notes: seq<Note>
    var returned: seq<Return>
    ghost var events: seq<Event>

    function Current(): State
      reads this
    {
      State(now, free, resumeAt, nextStart, threads, starts, notes, returned)
    }

    ghost predicate Valid()
      reads this
    {
      GoodConfig(c) && Initial(c, start) && Run(c, start, events) == Some(Current())
    }

    constructor (c: Config, now: nat)
      requires GoodConfig(c)
      ensures Valid() && this.c == c && this.now == now && free == c.cap && threads == map[] && events == []
    {
      this.c := c;
      this.now, free, resumeAt, nextStart := now, c.cap, 0, 0;
      threads, starts, notes, returned := map[], [], [], [];
      start := State(now, c.cap, 0, 0, map[], [], [], []);
      events := [];
    }

    /** Records the step that the code has just carried out. */
    ghost method Record(e: Event, before: State)
      requires GoodConfig(c) && Initial(c, start) && Run(c, start, events) == Some(before) && Enabled(c, before, e)
      requires Current() == Apply(c, before, e)
      modifies this`events
      ensures Valid() && events == old(events) + [e]
    {
      events := events + [e];
      assert events[..|events| - 1] == old(events);
    }

    lemma ValidSafe()
      requires Valid()
      ensures Safe(c, Current()) && AllInTime(Current())
    {
      RunsAreSafe(c, start, events);
      ReturnsByDeadline(c, start, events);
    }

    // -------------------------------------------------------------- the other callers and the clock

    method Step(e: Event)
      requires Valid() && Enabled(c, Current(), e)
      modifies this
      ensures Valid() && events == old(events) + [e] && Current() == Apply(c, old(Current()), e)
    {
      ghost var before := Current();
      var next := Apply(c, Current(), e);
      now, free, resumeAt, nextStart := next.now, next.free, next.resumeAt, next.nextStart;
      threads, starts, notes, returned := next.threads, next.starts, next.notes, next.returned;
      Record(e, before);
    }

    /** Until the clock shows `until` at least, the others take any steps; caller `t` only ages. */
    method Others(t: Thread, until: int)
      requires Valid()
      modifies this
      ensures Valid() && now >= until && now >= old(now) && old(events) <= events
      ensures (t in threads) == (t in old(threads)) && (t in threads ==> Unaged(threads[t]) == Unaged(old(threads)[t]))
      ensures forall i | |old(events)| <= i < |events| :: !Own(t, events[i])
    {
      var steps: seq<Event> := *;
      for i := 0 to |steps|
        invariant Valid() && now >= old(now) && old(events) <= events
        invariant (t in threads) == (t in old(threads)) && (t in threads ==> Unaged(threads[t]) == Unaged(old(threads)[t]))
        invariant forall i | |old(events)| <= i < |events| :: !Own(t, events[i])
      {
        if !Own(t, steps[i]) && Enabled(c, Current(), steps[i]) {
          Step(steps[i]);
        }
      }
      if now < until {
        Step(Tick(until - now));
      }
    }

    // -------------------------------------------------------------- `note_rate_limited`, `cooldown_remaining_s`

    /** A 429 answer: no start before the delay that the provider asks for, if that is between 0 and
        60 seconds; a longer wish counts as 60 seconds, none as the default; a cooldown that is
        already longer stays as it is. */
    method NoteRateLimited(retryAfter: Option<int>)
      requires Valid()
      modifies this
      ensures Valid() && events == old(events) + [RateLimited(retryAfter)]
      ensures now == old(now) && free == old(free) && nextStart == old(nextStart)
      ensures threads == old(threads) && starts == old(starts) && returned == old(returned)
      ensures old(resumeAt) <= resumeAt <= now + MaxCooldown(c)
      ensures retryAfter.Some? ==> now + Min(retryAfter.value, MaxCooldown(c)) <= resumeAt
      ensures retryAfter.None? ==> now + Min(c.defaultCooldown, MaxCooldown(c)) <= resumeAt
      ensures retryAfter.Some? && resumeAt != old(resumeAt) ==> resumeAt <= now + Max(0, retryAfter.value)
      ensures retryAfter.None? && resumeAt != old(resumeAt) ==> resumeAt <= now + c.defaultCooldown
    {
      ghost var before := Current();
      ValidSafe();
      var delay := if retryAfter.None? then c.defaultCooldown else retryAfter.value;
      delay := Max(0, Min(delay, MaxCooldown(c)));
      resumeAt := Max(resumeAt, now + delay);
      notes := notes + [Note(now, now + delay, |starts|)];
      Record(RateLimited(retryAfter), before);
    }

    /** What is left of the longest recorded cooldown, never over a minute. */
    method CooldownRemaining() returns (r: int)
      requires Valid()
      ensures 0 <= r <= MaxCooldown(c)
      ensures forall i | 0 <= i < |notes| :: notes[i].until <= now + r
      ensures r > 0 ==> exists i | 0 <= i < |notes| :: notes[i].until == now + r
    {
      r := Max(0, resumeAt - now);
      ValidSafe();
      assert CooldownsKept(c, Current()) && ResumeRecorded(Current());
    }

    // -------------------------------------------------------------- `release`

    /** A caller whose request has ended gives its permit back: the semaphore is below its bound
        before, and the permits of the others are as they were. */
    method Release(t: Thread)
      requires Valid() && t in threads && threads[t] == InFlight
      modifies this
      ensures Valid() && events == old(events) + [Finish(t)]
      ensures now == old(now) && resumeAt == old(resumeAt) && nextStart == old(nextStart)
      ensures starts == old(starts) && notes == old(notes) && returned == old(returned)
      ensures t !in threads && forall u :: u != t ==> (u in threads) == (u in old(threads)) && (u in threads ==> threads[u] == old(threads)[u])
      ensures 0 < free <= c.cap && free + |Holders(threads)| == c.cap
      ensures Holders(threads) == Holders(old(threads)) - {t}
    {
      ghost var before := Current();
      ValidSafe();
      free := free + 1;
      threads := threads - {t};
      Record(Finish(t), before);
      ValidSafe();
      assert before.threads.Keys - {t} == threads.Keys;
    }

    // -------------------------------------------------------------- `acquire`

    /** How a call of `acquire` ends: granted, it holds its permit and has its start now, after every
        cooldown, and has moved the next start; otherwise it holds nothing.  Unless an exception ends
        it, it is later than `deadline` by no more than it has lost to itself. */
    ghost predicate Over(t: Thread, deadline: int, outcome: Outcome)
      reads this
    {
      && (outcome == Granted <==> t in threads)
      && (outcome == Granted ==>
            && threads[t] == InFlight && starts != [] && starts[|starts| - 1] == now
            && (forall i | 0 <= i < |notes| :: notes[i].until <= now)
            && (c.gap > 0 ==> nextStart == now + c.gap))
      && (outcome != Raised ==>
            && returned != []
            && var last := returned[|returned| - 1];
            && last.thread == t && last.granted == (outcome == Granted)
            && last.wait.deadline == deadline && last.at == now <= deadline + last.wait.lag)
    }

    /** A permit, then the loop that waits for the cooldown and the spacing. */
    method Acquire(t: Thread, maxWait: int) returns (outcome: Outcome)
      requires Valid() && t !in threads
      modifies this
      ensures Valid() && old(events) <= events && Over(t, old(now) + Max(0, maxWait), outcome)
      ensures outcome == Refused ==>
              || (old(now) + Max(0, maxWait) <= now && free == 0)
              || WasHindered(c, start, events, t, |old(events)|, old(now) + Max(0, maxWait))
    {
      ghost var from := |events|;
      var deadline := Queue(t, maxWait);
      var taken := TakePermit(t, deadline);
      if !taken {
        return Refused;
      }
      outcome := WaitForStart(t, deadline, from);
    }

    /** The call begins: from here on its time runs. */
    method Queue(t: Thread, maxWait: int) returns (deadline: int)
      requires Valid() && t !in threads
      modifies this
      ensures Valid() && events == old(events) + [Call(t, maxWait)] && now == old(now) && deadline == now + Max(0, maxWait)
      ensures t in threads && threads[t].Queued? && threads[t].wait.deadline == deadline
    {
      ghost var before := Current();
      deadline := now + Max(0, maxWait);
      threads := threads[t := Queued(Wait(now, deadline, 0, 0))];
      Record(Call(t, maxWait), before);
    }

    /** `_slots.acquire(timeout=...)` */
    method TakePermit(t: Thread, deadline: int) returns (taken: bool)
      requires Valid() && t in threads && threads[t].Queued? && threads[t].wait.deadline == deadline
      modifies this
      ensures Valid() && old(events) <= events
      ensures !taken ==> Over(t, deadline, Refused) && deadline <= now && free == 0
      ensures taken ==> t in threads && threads[t].Checking? && threads[t].wait.deadline == deadline
    {
      Others(t, now);
      if free == 0 {
        Others(t, deadline);
      }
      ValidSafe();
      ghost var before := Current();
      taken := free > 0;
      if taken {
        free := free - 1;
        threads := threads[t := Checking(threads[t].wait)];
        Record(GetPermit(t), before);
      } else {
        returned := returned + [Return(t, false, threads[t].wait, now)];
        threads := threads - {t};
        Record(TimeOut(t), before);
      }
    }

    /** The waiting loop.  Every turn that does not end it has slept at least a tick before the
        deadline, whatever the other callers did to the cooldown and the next start.  An exception
        may end it before a check or before a sleep. */
    method WaitForStart(t: Thread, deadline: int, ghost from: nat) returns (outcome: Outcome)
      requires Valid() && t in threads && threads[t].Checking? && threads[t].wait.deadline == deadline && from <= |events|
      modifies this
      ensures Valid() && old(events) <= events && Over(t, deadline, outcome)
      ensures outcome == Refused ==> WasHindered(c, start, events, t, from, deadline)
    {
      while true
        invariant Valid() && old(events) <= events
        invariant t in threads && threads[t].Checking? && threads[t].wait.deadline == deadline
        decreases deadline - now
      {
        var interrupted: bool := *;
        if interrupted {
          GivePermitBack(t, Interrupt(t));
          return Raised;
        }
        var granted, checkedAt, startAt, k := CheckUnderLock(t, deadline);
        if granted {
          return Granted;
        }
        ghost var checked := events;
        Others(t, now);
        if startAt > deadline {
          GivePermitBack(t, GiveUp(t));
          HinderedLater(c, start, checked, events, t, from, k, deadline);
          return Refused;
        }
        interrupted := *;
        if interrupted {
          GivePermitBack(t, Interrupt(t));
          return Raised;
        }
        SleepAndWake(t, deadline, checkedAt, startAt);
      }
    }

    /** What the loop does under the lock; it may wait for the lock first. */
    method CheckUnderLock(t: Thread, deadline: int) returns (granted: bool, checkedAt: int, startAt: int, ghost k: nat)
      requires Valid() && t in threads && threads[t].Checking? && threads[t].wait.deadline == deadline
      modifies this
      ensures Valid() && old(events) <= events && now >= old(now)
      ensures granted ==> Over(t, deadline, Granted)
      ensures !granted ==> t in threads && threads[t].Deciding? && threads[t].wait.deadline == deadline
      ensures !granted ==> threads[t].at == checkedAt && threads[t].startAt == startAt && old(now) <= checkedAt < startAt
      ensures !granted && startAt > deadline ==> HinderedAt(c, start, events, t, |old(events)|, k, deadline)
    {
      Others(t, now);
      ghost var before := Current();
      ghost var past := events;
      granted, checkedAt, startAt := CheckNow(t, deadline);
      k := |past|;
      assert events[..k] == past;
      assert !granted && startAt > deadline ==> Hindered(c, before, deadline);
    }

    /** Granted exactly when nothing hinders it; otherwise the last hindrance is waited for. */
    method CheckNow(t: Thread, deadline: int) returns (granted: bool, checkedAt: int, startAt: int)
      requires Valid() && t in threads && threads[t].Checking? && threads[t].wait.deadline == deadline
      modifies this
      ensures Valid() && events == old(events) + [Check(t)] && now == old(now)
      ensures granted <==> forall at :: Hindrance(c, old(Current()), at) ==> at <= now
      ensures granted ==> Over(t, deadline, Granted)
      ensures !granted ==> t in threads && threads[t].Deciding? && threads[t].wait.deadline == deadline
      ensures !granted ==> threads[t].at == checkedAt && threads[t].startAt == startAt && now == checkedAt < startAt
      ensures !granted ==> Hindrance(c, old(Current()), startAt) && forall at :: Hindrance(c, old(Current()), at) ==> at <= startAt
    {
      ValidSafe();
      CheckTells(t);
      ghost var before := Current();
      checkedAt := now;
      startAt := Max(checkedAt, Max(resumeAt, if c.gap > 0 then nextStart else checkedAt));
      granted := startAt <= checkedAt;
      if granted {
        if c.gap > 0 {
          nextStart := checkedAt + c.gap;
        }
        starts := starts + [checkedAt];
        returned := returned + [Return(t, true, threads[t].wait, checkedAt)];
        threads := threads[t := InFlight];
      } else {
        threads := threads[t := Deciding(threads[t].wait, checkedAt, startAt)];
      }
      Record(Check(t), before);
    }

    /** What a check in this state does. */
    lemma CheckTells(t: Thread)
      requires Valid() && t in threads && threads[t].Checking?
      ensures var p := Apply(c, Current(), Check(t)).threads[t];
              && (p.InFlight? <==> forall at :: Hindrance(c, Current(), at) ==> at <= now)
              && (!p.InFlight? ==>
                    p.Deciding? && Hindrance(c, Current(), p.startAt) && forall at :: Hindrance(c, Current(), at) ==> at <= p.startAt)
    {
      ValidSafe();
      CheckGrants(c, Current(), t);
      HindranceEnds(c, Current());
      if !Apply(c, Current(), Check(t)).threads[t].InFlight? {
        LastHindrance(c, Current(), t);
      }
    }

    /** `_slots.release()` on the way out without a start: returning false, or with an exception. */
    method GivePermitBack(t: Thread, e: Event)
      requires Valid() && t in threads && Holds(threads[t]) && Enabled(c, Current(), e)
      requires e == GiveUp(t) || e == Interrupt(t)
      modifies this
      ensures Valid() && old(events) <= events && now == old(now)
      ensures Over(t, old(threads)[t].wait.deadline, if e.GiveUp? then Refused else Raised)
      ensures 0 < free <= c.cap
    {
      ghost var before := Current();
      ValidSafe();
      free := free + 1;
      if e.GiveUp? {
        returned := returned + [Return(t, false, threads[t].wait, now)];
      }
      threads := threads - {t};
      Record(e, before);
      ValidSafe();
    }

    /** `time.sleep(min(start_at - now, 1.0))` */
    method SleepAndWake(t: Thread, deadline: int, checkedAt: int, startAt: int)
      requires Valid() && t in threads && threads[t].Deciding? && threads[t].wait.deadline == deadline
      requires threads[t].at == checkedAt && threads[t].startAt == startAt <= deadline
      modifies this
      ensures Valid() && old(events) <= events
      ensures old(now) < now
      ensures t in threads && threads[t].Checking? && threads[t].wait.deadline == deadline
    {
      var until := FallAsleep(t, checkedAt, startAt);
      Others(t, until);
      WakeUp(t);
    }

    method FallAsleep(t: Thread, checkedAt: int, startAt: int) returns (until: int)
      requires Valid() && t in threads && Enabled(c, Current(), Sleep(t))
      requires threads[t].at == checkedAt && threads[t].startAt == startAt
      modifies this
      ensures Valid() && old(events) <= events && now == old(now)
      ensures now < until <= now + c.second && until <= now + startAt - checkedAt
      ensures until == now + c.second || until == now + startAt - checkedAt
      ensures t in threads && threads[t].Sleeping? && threads[t].until == until
      ensures threads[t].wait.deadline == old(threads)[t].wait.deadline
    {
      ghost var before := Current();
      StillToCome(t);
      until := now + Min(startAt - checkedAt, c.second);
      var w := threads[t].wait;
      threads := threads[t := Sleeping(w.(sleeps := w.sleeps + 1), checkedAt, until)];
      Record(Sleep(t), before);
    }

    lemma StillToCome(t: Thread)
      requires Valid() && t in threads && threads[t].Deciding?
      ensures threads[t].at < threads[t].startAt
    {
      ValidSafe();
      assert WaitKept(now, threads[t]);
    }

    method WakeUp(t: Thread)
      requires Valid() && t in threads && Enabled(c, Current(), Wake(t))
      modifies this
      ensures Valid() && old(events) <= events && now == old(now)
      ensures t in threads && threads[t] == Checking(old(threads)[t].wait)
    {
      ghost var before := Current();
      threads := threads[t := Checking(threads[t].wait)];
      Record(Wake(t), before);
    }
  }

  /** A hindrance lies behind the deadline. */
  ghost predicate Hindered(c: Config, s: State, deadline: int) {
    exists at :: Hindrance(c, s, at) && at > deadline
  }

  /** At event number `k`, not before `from`, the caller checked and a hindrance lay behind its deadline. */
  ghost predicate HinderedAt(c: Config, start: State, events: seq<Event>, t: Thread, from: nat, k: nat, deadline: int) {
    && from <= k < |events| && events[k] == Check(t)
    && Run(c, start, events[..k]).Some? && Hindered(c, Run(c, start, events[..k]).value, deadline)
  }

  ghost predicate WasHindered(c: Config, start: State, events: seq<Event>, t: Thread, from: nat, deadline: int) {
    exists k: nat :: HinderedAt(c, start, events, t, from, k, deadline)
  }

  lemma HinderedLater(c: Config, start: State, events: seq<Event>, later: seq<Event>, t: Thread, from: nat, k: nat, deadline: int)
    requires events <= later && exists from': nat :: from <= from' && HinderedAt(c, start, events, t, from', k, deadline)
    ensures HinderedAt(c, start, later, t, from, k, deadline)
  {
    assert later[..k] == events[..k];
  }

  /** The steps that only caller `t` itself takes. */
  predicate Own(t: Thread, e: Event) {
    !e.RateLimited? && !e.Tick? && e.t == t
  }

  /** Where a caller is, leaving aside what it has lost to itself. */
  function Unaged(p: Phase): Phase {
    if p.InFlight? then p else p.(wait := p.wait.(lag := 0))
  }
}

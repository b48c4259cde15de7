/**
 Pacing of provider calls (`provider_limiter.py`): a permit semaphore, an even spacer of request
 starts and a shared cooldown, used by concurrent callers.

 The state changes by steps of the callers, by recorded 429 answers and by the clock, in any order.
 Time is counted in ticks of the monotonic clock.
 */
module ProviderPacing {
  import opened Basics

  /** `second` is one second in ticks; `gap` is 60/RPM in ticks, 0 when the rate cap is off. */
  datatype Config = Config(cap: nat, gap: nat, second: nat, defaultCooldown: nat)

  predicate GoodConfig(c: Config) {
    c.cap >= 1 && c.second >= 1
  }

  function MaxCooldown(c: Config): nat {
    60 * c.second
  }

  type Thread = nat

  /** A call of `acquire`: when it was made, when it must end, how often it has slept, and the time
      it has lost to itself: between its own steps, or past the end of a timed wait. */
  datatype Wait = Wait(called: int, deadline: int, sleeps: nat, lag: nat)

  /** Where a caller is. All phases but `Queued` hold a permit. */
  datatype Phase =
    | Queued(wait: Wait)
    | Checking(wait: Wait)
    | Deciding(wait: Wait, at: int, startAt: int)
    | Sleeping(wait: Wait, at: int, until: int)
    | InFlight

  predicate Holds(p: Phase) {
    !p.Queued?
  }

  /** A recorded cooldown: when it was noted, when it ends, and how many starts there were before it. */
  datatype Note = Note(at: int, until: int, after: nat)

  datatype Return = Return(thread: Thread, granted: bool, wait: Wait, at: int)

  datatype State = State(
    now: int,
    free: int,
    resumeAt: int,
    nextStart: int,
    threads: map<Thread, Phase>,
    starts: seq<int>,
    notes: seq<Note>,
    returned: seq<Return>)

  datatype Event =
    | Call(t: Thread, maxWait: int)
    | GetPermit(t: Thread)
    | TimeOut(t: Thread)
    | Check(t: Thread)
    | GiveUp(t: Thread)
    | Sleep(t: Thread)
    | Wake(t: Thread)
    | Interrupt(t: Thread)
    | Finish(t: Thread)
    | RateLimited(retryAfter: Option<int>)
    | Tick(d: nat)

  predicate Initial(c: Config, s: State) {
    s.now >= 0 && s == State(s.now, c.cap, 0, 0, map[], [], [], [])
  }

  function Max(a: int, b: int): int {
    if a < b then b else a
  }

  function Min(a: int, b: int): int {
    if a < b then a else b
  }

  // ---------------------------------------------------------------- the steps

  /** `start_at`: the earliest start that the cooldown and the spacing allow. */
  function StartAt(c: Config, now: int, resumeAt: int, nextStart: int): int {
    Max(now, Max(resumeAt, if c.gap > 0 then nextStart else now))
  }

  /** The length of a cooldown: the provider's wish, or the default, between 0 and 60 seconds. */
  function Cooldown(c: Config, retryAfter: Option<int>): int {
    Max(0, Min(if retryAfter.None? then c.defaultCooldown else retryAfter.value, MaxCooldown(c)))
  }

  /** How much of the time from `now` to `now + d` runs past `end`. */
  function Past(now: int, d: nat, end: int): nat {
    Max(0, now + d - Max(now, end))
  }

  /** What a caller loses to itself while the clock goes on by `d`. */
  function Lost(now: int, d: nat, p: Phase): nat {
    match p
    case Queued(w) => Past(now, d, w.deadline)
    case Checking(_) => d
    case Deciding(_, _, _) => d
    case Sleeping(_, _, until) => Past(now, d, until)
    case InFlight => 0
  }

  function Aged(now: int, d: nat, p: Phase): Phase {
    if p.InFlight? then p else p.(wait := p.wait.(lag := p.wait.lag + Lost(now, d, p)))
  }

  function AllAged(now: int, d: nat, threads: map<Thread, Phase>): map<Thread, Phase> {
    map t | t in threads :: Aged(now, d, threads[t])
  }

  predicate Enabled(c: Config, s: State, e: Event) {
    match e
    case Call(t, _) => t !in s.threads
    case GetPermit(t) => t in s.threads && s.threads[t].Queued? && s.free > 0
    case TimeOut(t) => t in s.threads && s.threads[t].Queued? && s.threads[t].wait.deadline <= s.now
    case Check(t) => t in s.threads && s.threads[t].Checking?
    case GiveUp(t) => t in s.threads && s.threads[t].Deciding? && s.threads[t].startAt > s.threads[t].wait.deadline
    case Sleep(t) => t in s.threads && s.threads[t].Deciding? && s.threads[t].startAt <= s.threads[t].wait.deadline
    case Wake(t) => t in s.threads && s.threads[t].Sleeping? && s.threads[t].until <= s.now
    case Interrupt(t) => t in s.threads && !s.threads[t].InFlight?
    case Finish(t) => t in s.threads && s.threads[t].InFlight?
    case RateLimited(_) => true
    case Tick(_) => true
  }

  function Without(threads: map<Thread, Phase>, t: Thread): map<Thread, Phase> {
    threads - {t}
  }

  function Apply(c: Config, s: State, e: Event): State
    requires Enabled(c, s, e)
  {
    match e
    case Call(t, maxWait) =>
      s.(threads := s.threads[t := Queued(Wait(s.now, s.now + Max(0, maxWait), 0, 0))])
    case GetPermit(t) =>
      s.(free := s.free - 1, threads := s.threads[t := Checking(s.threads[t].wait)])
    case TimeOut(t) =>
      s.(threads := Without(s.threads, t), returned := s.returned + [Return(t, false, s.threads[t].wait, s.now)])
    case Check(t) =>
      var start := StartAt(c, s.now, s.resumeAt, s.nextStart);
      if start <= s.now then
        s.(nextStart := if c.gap > 0 then s.now + c.gap else s.nextStart,
           threads := s.threads[t := InFlight],
           starts := s.starts + [s.now],
           returned := s.returned + [Return(t, true, s.threads[t].wait, s.now)])
      else s.(threads := s.threads[t := Deciding(s.threads[t].wait, s.now, start)])
    case GiveUp(t) =>
      s.(free := s.free + 1, threads := Without(s.threads, t),
         returned := s.returned + [Return(t, false, s.threads[t].wait, s.now)])
    case Sleep(t) =>
      var p := s.threads[t];
      s.(threads := s.threads[t := Sleeping(p.wait.(sleeps := p.wait.sleeps + 1), p.at, s.now + Min(p.startAt - p.at, c.second))])
    case Wake(t) =>
      s.(threads := s.threads[t := Checking(s.threads[t].wait)])
    case Interrupt(t) =>
      s.(free := if Holds(s.threads[t]) then s.free + 1 else s.free, threads := Without(s.threads, t))
    case Finish(t) =>
      s.(free := s.free + 1, threads := Without(s.threads, t))
    case RateLimited(retryAfter) =>
      var until := s.now + Cooldown(c, retryAfter);
      s.(resumeAt := Max(s.resumeAt, until), notes := s.notes + [Note(s.now, until, |s.starts|)])
    case Tick(d) =>
      s.(now := s.now + d, threads := AllAged(s.now, d, s.threads))
  }

  /** The state after the events in turn, if each of them was possible. */
  function Run(c: Config, s: State, events: seq<Event>): Option<State> {
    if events == [] then Some(s)
    else
      var before := Run(c, s, events[..|events| - 1]);
      var e := events[|events| - 1];
      if before.Some? && Enabled(c, before.value, e) then Some(Apply(c, before.value, e)) else None
  }

  // ---------------------------------------------------------------- permits

  function Holders(threads: map<Thread, Phase>): set<Thread> {
    set t | t in threads && Holds(threads[t])
  }

  /** Free permits and callers that hold one add up to the cap. */
  ghost predicate PermitsConserved(c: Config, s: State) {
    s.free >= 0 && s.free + |Holders(s.threads)| == c.cap
  }

  lemma HoldersSame(before: map<Thread, Phase>, after: map<Thread, Phase>, t: Thread)
    requires forall u :: u != t ==> ((u in before) == (u in after) && (u in before ==> before[u] == after[u]))
    requires (t in before && Holds(before[t])) == (t in after && Holds(after[t]))
    ensures Holders(before) == Holders(after)
  {
  }

  lemma HoldersMore(before: map<Thread, Phase>, after: map<Thread, Phase>, t: Thread)
    requires forall u :: u != t ==> ((u in before) == (u in after) && (u in before ==> before[u] == after[u]))
    requires !(t in before && Holds(before[t])) && t in after && Holds(after[t])
    ensures |Holders(after)| == |Holders(before)| + 1
  {
    assert Holders(after) == Holders(before) + {t};
  }

  lemma HoldersAged(now: int, d: nat, threads: map<Thread, Phase>)
    ensures Holders(AllAged(now, d, threads)) == Holders(threads)
  {
  }

  lemma PermitsStep(c: Config, s: State, e: Event)
    requires Enabled(c, s, e) && PermitsConserved(c, s)
    ensures PermitsConserved(c, Apply(c, s, e))
  {
    var next := Apply(c, s, e);
    if e.Tick? {
      HoldersAged(s.now, e.d, s.threads);
    } else if !e.RateLimited? {
      var wasHolding := e.t in s.threads && Holds(s.threads[e.t]);
      var holds := e.t in next.threads && Holds(next.threads[e.t]);
      if holds == wasHolding {
        HoldersSame(s.threads, next.threads, e.t);
      } else if holds {
        HoldersMore(s.threads, next.threads, e.t);
      } else {
        HoldersMore(next.threads, s.threads, e.t);
      }
    }
  }

  // ---------------------------------------------------------------- starts and cooldowns

  /** Starts are in order, each at least `gap` after the one before, and none is in the future. */
  ghost predicate StartsSpaced(c: Config, s: State) {
    && (forall i | 0 < i < |s.starts| :: s.starts[i - 1] + c.gap <= s.starts[i])
    && (forall i | 0 <= i < |s.starts| :: s.starts[i] <= s.now)
    && (c.gap > 0 && s.starts != [] ==> s.nextStart == s.starts[|s.starts| - 1] + c.gap)
    && (s.starts == [] ==> s.nextStart == 0)
  }

  /** Every cooldown ends by the resume time, which is at most 60 seconds ahead; the starts made
      before it was noted lie at that moment at the latest, all others at its end at the earliest. */
  ghost predicate CooldownsKept(c: Config, s: State) {
    && 0 <= s.now && s.resumeAt <= s.now + MaxCooldown(c)
    && (forall i | 0 <= i < |s.notes| ::
          s.notes[i].at <= s.now && s.notes[i].until <= s.resumeAt && s.notes[i].after <= |s.starts|)
    && (forall i | 0 <= i < |s.starts| :: s.starts[i] <= s.now)
    && (forall i, j | 0 <= i < |s.notes| && 0 <= j < |s.starts| ::
          if j < s.notes[i].after then s.starts[j] <= s.notes[i].at else s.notes[i].until <= s.starts[j])
  }

  lemma StartsStep(c: Config, s: State, e: Event)
    requires Enabled(c, s, e) && StartsSpaced(c, s)
    ensures StartsSpaced(c, Apply(c, s, e))
  {
  }

  lemma CooldownsStep(c: Config, s: State, e: Event)
    requires Enabled(c, s, e) && CooldownsKept(c, s)
    ensures CooldownsKept(c, Apply(c, s, e)) && s.resumeAt <= Apply(c, s, e).resumeAt
  {
  }

  /** The resume time is the end of some recorded cooldown, or 0: nothing else moves it. */
  ghost predicate ResumeRecorded(s: State) {
    s.resumeAt == 0 || exists i | 0 <= i < |s.notes| :: s.notes[i].until == s.resumeAt
  }

  lemma ResumeStep(c: Config, s: State, e: Event)
    requires Enabled(c, s, e) && ResumeRecorded(s)
    ensures ResumeRecorded(Apply(c, s, e))
  {
    var next := Apply(c, s, e);
    assert forall i | 0 <= i < |s.notes| :: next.notes[i] == s.notes[i];
    assert e.RateLimited? ==> next.notes[|s.notes|].until == s.now + Cooldown(c, e.retryAfter);
  }

  // ---------------------------------------------------------------- waiting ends

  /** Every sleep has moved the clock by a tick at least, and a caller sleeps only before its
      deadline; so it sleeps no more often than its budget has ticks. */
  ghost predicate WaitKept(now: int, p: Phase) {
    match p
    case Queued(w) => w.sleeps == 0 && w.called <= now && w.called <= w.deadline
    case Checking(w) => w.called + w.sleeps <= now && w.called + w.sleeps <= w.deadline
    case Deciding(w, at, start) => w.called + w.sleeps <= at <= now && w.called + w.sleeps <= w.deadline && at < start
    case Sleeping(w, at, until) => w.called + w.sleeps <= until && w.called + w.sleeps <= w.deadline && at <= now
    case InFlight => true
  }

  ghost predicate WaitsKept(s: State) {
    && (forall t | t in s.threads :: WaitKept(s.now, s.threads[t]))
    && (forall i | 0 <= i < |s.returned| :: s.returned[i].wait.called + s.returned[i].wait.sleeps <= s.returned[i].wait.deadline)
  }

  lemma WaitsStep(c: Config, s: State, e: Event)
    requires GoodConfig(c) && Enabled(c, s, e) && WaitsKept(s)
    ensures WaitsKept(Apply(c, s, e))
  {
  }

  // ---------------------------------------------------------------- every run

  ghost predicate Safe(c: Config, s: State) {
    PermitsConserved(c, s) && StartsSpaced(c, s) && CooldownsKept(c, s) && ResumeRecorded(s) && WaitsKept(s)
  }

  lemma SafeStep(c: Config, s: State, e: Event)
    requires GoodConfig(c) && Enabled(c, s, e) && Safe(c, s)
    ensures Safe(c, Apply(c, s, e)) && s.resumeAt <= Apply(c, s, e).resumeAt && s.now <= Apply(c, s, e).now
  {
    PermitsStep(c, s, e);
    StartsStep(c, s, e);
    CooldownsStep(c, s, e);
    ResumeStep(c, s, e);
    WaitsStep(c, s, e);
  }

  /** In every run, whatever the interleaving. */
  lemma {:induction false} RunsAreSafe(c: Config, s: State, events: seq<Event>)
    requires GoodConfig(c) && Initial(c, s) && Run(c, s, events).Some?
    ensures Safe(c, Run(c, s, events).value)
  {
    if events == [] {
      assert Holders(s.threads) == {};
    } else {
      var before := events[..|events| - 1];
      RunsAreSafe(c, s, before);
      SafeStep(c, Run(c, s, before).value, events[|events| - 1]);
    }
  }

  /** The resume time never moves back. */
  lemma {:induction false} ResumeNeverBack(c: Config, s: State, events: seq<Event>, k: nat)
    requires GoodConfig(c) && Initial(c, s) && k <= |events| && Run(c, s, events).Some?
    ensures Run(c, s, events[..k]).Some? && Run(c, s, events[..k]).value.resumeAt <= Run(c, s, events).value.resumeAt
  {
    if k == |events| {
      assert events[..k] == events;
    } else {
      var before := events[..|events| - 1];
      assert before[..k] == events[..k];
      ResumeNeverBack(c, s, before, k);
      RunsAreSafe(c, s, before);
      SafeStep(c, Run(c, s, before).value, events[|events| - 1]);
    }
  }

  /** In every run: when a start is granted, every cooldown noted so far is over. */
  lemma GrantedAfterCooldowns(c: Config, s: State, events: seq<Event>, t: Thread)
    requires GoodConfig(c) && Initial(c, s) && Run(c, s, events).Some?
    requires var v := Run(c, s, events).value; Enabled(c, v, Check(t)) && Apply(c, v, Check(t)).threads[t].InFlight?
    ensures var v := Run(c, s, events).value; forall i | 0 <= i < |v.notes| :: v.notes[i].until <= v.now
  {
    RunsAreSafe(c, s, events);
  }

  // ---------------------------------------------------------------- when a start is granted

  /** The end of a noted cooldown, or the last start and the gap after it. */
  ghost predicate Hindrance(c: Config, s: State, at: int) {
    || (exists i | 0 <= i < |s.notes| :: s.notes[i].until == at)
    || (c.gap > 0 && s.starts != [] && s.starts[|s.starts| - 1] + c.gap == at)
  }

  /** A check grants a start exactly when the resume time is not ahead, nor, with the rate cap on, the
      next start. */
  lemma CheckGrants(c: Config, s: State, t: Thread)
    requires Enabled(c, s, Check(t))
    ensures Apply(c, s, Check(t)).threads[t].InFlight? <==> s.resumeAt <= s.now && (c.gap > 0 ==> s.nextStart <= s.now)
  {
  }

  /** That is, in every run, exactly when nothing hinders it any more: every noted cooldown is over, and
      the last start lies the gap back. */
  lemma GrantedIff(c: Config, s: State, events: seq<Event>, t: Thread)
    requires GoodConfig(c) && Initial(c, s) && Run(c, s, events).Some? && Enabled(c, Run(c, s, events).value, Check(t))
    ensures var v := Run(c, s, events).value;
            Apply(c, v, Check(t)).threads[t].InFlight? <==> forall at :: Hindrance(c, v, at) ==> at <= v.now
  {
    var v := Run(c, s, events).value;
    RunsAreSafe(c, s, events);
    CheckGrants(c, v, t);
    HindranceEnds(c, v);
  }

  lemma HindranceEnds(c: Config, v: State)
    requires Safe(c, v)
    ensures (forall at :: Hindrance(c, v, at) ==> at <= v.now) <==> v.resumeAt <= v.now && (c.gap > 0 ==> v.nextStart <= v.now)
  {
    if forall at :: Hindrance(c, v, at) ==> at <= v.now {
      assert v.resumeAt == 0 || Hindrance(c, v, v.resumeAt);
      assert c.gap > 0 && v.starts != [] ==> Hindrance(c, v, v.nextStart);
    }
  }

  /** A check that grants no start waits for the last hindrance to end, and gives up, sooner or later,
      exactly if that is after the caller's deadline. */
  lemma WaitsForLast(c: Config, s: State, events: seq<Event>, t: Thread)
    requires GoodConfig(c) && Initial(c, s) && Run(c, s, events).Some? && Enabled(c, Run(c, s, events).value, Check(t))
    requires !Apply(c, Run(c, s, events).value, Check(t)).threads[t].InFlight?
    ensures var v := Run(c, s, events).value; var next := Apply(c, v, Check(t));
            && next.threads[t].Deciding? && next.threads[t].startAt > v.now
            && Hindrance(c, v, next.threads[t].startAt) && (forall at :: Hindrance(c, v, at) ==> at <= next.threads[t].startAt)
            && (Enabled(c, next, GiveUp(t)) <==> exists at :: Hindrance(c, v, at) && at > v.threads[t].wait.deadline)
            && (Enabled(c, next, Sleep(t)) <==> forall at :: Hindrance(c, v, at) ==> at <= v.threads[t].wait.deadline)
  {
    RunsAreSafe(c, s, events);
    LastHindrance(c, Run(c, s, events).value, t);
  }

  lemma LastHindrance(c: Config, v: State, t: Thread)
    requires Safe(c, v) && Enabled(c, v, Check(t)) && !Apply(c, v, Check(t)).threads[t].InFlight?
    ensures var p := Apply(c, v, Check(t)).threads[t];
            && p.Deciding? && p.startAt > v.now && p.wait == v.threads[t].wait
            && Hindrance(c, v, p.startAt) && (forall at :: Hindrance(c, v, at) ==> at <= p.startAt)
  {
    var start := StartAt(c, v.now, v.resumeAt, v.nextStart);
    if start == v.resumeAt {
      assert Hindrance(c, v, start);
    } else {
      assert c.gap > 0 && start == v.nextStart && v.starts != [];
      assert Hindrance(c, v, start);
    }
  }

  // ---------------------------------------------------------------- how many starts fit in a window

  /** How many of the times lie in the window from `a` to `b`, both included. */
  function CountBetween(times: seq<int>, a: int, b: int): nat {
    if times == [] then 0 else (if a <= times[0] <= b then 1 else 0) + CountBetween(times[1..], a, b)
  }

  lemma {:induction false} CountLater(times: seq<int>, a: int, a': int, b: int)
    requires a <= a' && forall i | 0 <= i < |times| :: a' <= times[i]
    ensures CountBetween(times, a, b) == CountBetween(times, a', b)
  {
    if times != [] {
      CountLater(times[1..], a, a', b);
    }
  }

  lemma {:induction false} SpacedApart(times: seq<int>, gap: nat, i: nat)
    requires (forall k | 0 < k < |times| :: times[k - 1] + gap <= times[k]) && 0 < i < |times|
    ensures times[0] + gap <= times[i]
  {
    if i > 1 {
      SpacedApart(times, gap, i - 1);
    }
  }

  lemma OneMore(n: nat, gap: nat, rest: int, all: int)
    requires n > 0 ==> (n - 1) * gap <= rest
    requires rest + gap == all && (n == 0 ==> 0 <= all)
    ensures n * gap <= all
  {
  }

  lemma {:induction false} SpacedCount(times: seq<int>, gap: nat, a: int, b: int)
    requires forall k | 0 < k < |times| :: times[k - 1] + gap <= times[k]
    ensures CountBetween(times, a, b) > 0 ==> (CountBetween(times, a, b) - 1) * gap <= b - a
  {
    if times != [] {
      var rest := times[1..];
      if a <= times[0] <= b {
        var later := times[0] + gap;
        forall i | 0 <= i < |rest| ensures later <= rest[i] {
          SpacedApart(times, gap, i + 1);
        }
        SpacedCount(rest, gap, later, b);
        CountLater(rest, a, later, b);
        OneMore(CountBetween(rest, a, b), gap, b - later, b - times[0]);
      } else {
        SpacedCount(rest, gap, a, b);
      }
    }
  }

  lemma Quotient(n: nat, gap: nat, length: nat)
    requires gap > 0 && n * gap <= length
    ensures n <= length / gap
  {
    var q := length / gap;
    assert length == q * gap + length % gap;
    assert n >= q + 1 ==> n * gap >= (q + 1) * gap by { Times(n - (q + 1), gap, n, q + 1); }
    assert (q + 1) * gap == q * gap + gap;
  }

  lemma Times(d: int, gap: nat, a: int, b: int)
    requires d == a - b
    ensures d >= 0 ==> a * gap >= b * gap
  {
  }

  lemma SpacedFit(times: seq<int>, gap: nat, a: int, length: nat)
    requires gap > 0 && forall k | 0 < k < |times| :: times[k - 1] + gap <= times[k]
    ensures CountBetween(times, a, a + length) <= length / gap + 1
  {
    SpacedCount(times, gap, a, a + length);
    var n := CountBetween(times, a, a + length);
    if n > 0 {
      Quotient(n - 1, gap, length);
    }
  }

  /** With the rate cap on, a window of any length L holds at most L/gap + 1 starts, in every run. */
  lemma StartsInWindow(c: Config, s: State, events: seq<Event>, a: int, length: nat)
    requires GoodConfig(c) && c.gap > 0 && Initial(c, s) && Run(c, s, events).Some?
    ensures CountBetween(Run(c, s, events).value.starts, a, a + length) <= length / c.gap + 1
  {
    RunsAreSafe(c, s, events);
    SpacedFit(Run(c, s, events).value.starts, c.gap, a, length);
  }

  // ---------------------------------------------------------------- every call returns in time

  /** Only what a caller loses to itself takes it past its deadline. */
  ghost predicate InTime(now: int, p: Phase) {
    match p
    case Queued(w) => now <= w.deadline + w.lag
    case Checking(w) => now <= w.deadline + w.lag
    case Deciding(w, at, _) => now <= w.deadline + w.lag && now - at <= w.lag
    case Sleeping(w, _, until) => now <= w.deadline + w.lag && until <= w.deadline + w.lag
    case InFlight => true
  }

  ghost predicate AllInTime(s: State) {
    && (forall t | t in s.threads :: InTime(s.now, s.threads[t]))
    && (forall i | 0 <= i < |s.returned| :: s.returned[i].at <= s.returned[i].wait.deadline + s.returned[i].wait.lag)
  }

  lemma InTimeTick(now: int, d: nat, p: Phase)
    requires InTime(now, p)
    ensures InTime(now + d, Aged(now, d, p))
  {
  }

  lemma InTimeStep(c: Config, s: State, e: Event)
    requires Enabled(c, s, e) && AllInTime(s)
    ensures AllInTime(Apply(c, s, e))
  {
    if e.Tick? {
      forall t | t in s.threads ensures InTime(s.now + e.d, Aged(s.now, e.d, s.threads[t])) {
        InTimeTick(s.now, e.d, s.threads[t]);
      }
    }
  }

  /** In every run, whatever the other callers do to the cooldown and the next start, a call of
      `acquire` returns after its deadline by no more than it has lost to itself; one that has not
      returned is not later than that either. */
  lemma {:induction false} ReturnsByDeadline(c: Config, s: State, events: seq<Event>)
    requires Initial(c, s) && Run(c, s, events).Some?
    ensures AllInTime(Run(c, s, events).value)
  {
    if events != [] {
      var before := events[..|events| - 1];
      ReturnsByDeadline(c, s, before);
      InTimeStep(c, Run(c, s, before).value, events[|events| - 1]);
    }
  }

  /** The clock may go on without making anyone late. */
  predicate Timely(s: State, e: Event) {
    e.Tick? ==> forall t | t in s.threads :: Lost(s.now, e.d, s.threads[t]) == 0
  }

  ghost predicate TimelyRun(c: Config, s: State, events: seq<Event>)
    requires Run(c, s, events).Some?
  {
    events == [] ||
    var before := events[..|events| - 1];
    TimelyRun(c, s, before) && Timely(Run(c, s, before).value, events[|events| - 1])
  }

  ghost predicate NobodyLate(s: State) {
    && (forall t | t in s.threads :: s.threads[t].InFlight? || s.threads[t].wait.lag == 0)
    && (forall i | 0 <= i < |s.returned| :: s.returned[i].wait.lag == 0)
  }

  lemma PunctualStep(c: Config, s: State, e: Event)
    requires Enabled(c, s, e) && Timely(s, e) && NobodyLate(s)
    ensures NobodyLate(Apply(c, s, e))
  {
  }

  /** A run in which nobody is late: every call has returned by its deadline. */
  lemma {:induction false} PunctualReturns(c: Config, s: State, events: seq<Event>)
    requires Initial(c, s) && Run(c, s, events).Some? && TimelyRun(c, s, events)
    ensures NobodyLate(Run(c, s, events).value)
    ensures forall i | 0 <= i < |Run(c, s, events).value.returned| ::
              Run(c, s, events).value.returned[i].at <= Run(c, s, events).value.returned[i].wait.deadline
  {
    ReturnsByDeadline(c, s, events);
    if events != [] {
      var before := events[..|events| - 1];
      PunctualReturns(c, s, before);
      PunctualStep(c, Run(c, s, before).value, events[|events| - 1]);
    }
  }

  /** The next step of a caller that waits, or a tick of the clock it waits for. */
  function NextOf(s: State, t: Thread): Event
    requires t in s.threads
  {
    match s.threads[t]
    case Queued(w) => if s.now < w.deadline then Tick(1) else TimeOut(t)
    case Checking(_) => Check(t)
    case Deciding(w, _, start) => if start > w.deadline then GiveUp(t) else Sleep(t)
    case Sleeping(_, _, until) => if s.now < until then Tick(1) else Wake(t)
    case InFlight => Tick(1)
  }

  /** Nobody is stuck: in every state either some caller can take its next step, or time can go on
      without making anyone late. */
  lemma Progress(c: Config, s: State)
    ensures Timely(s, Tick(1)) || exists t | t in s.threads :: !NextOf(s, t).Tick? && Enabled(c, s, NextOf(s, t))
  {
  }

  /** When nobody is waiting or in flight, every permit is free again. */
  lemma AllReturned(c: Config, s: State, events: seq<Event>)
    requires GoodConfig(c) && Initial(c, s) && Run(c, s, events).Some?
    ensures Run(c, s, events).value.threads == map[] ==> Run(c, s, events).value.free == c.cap
  {
    RunsAreSafe(c, s, events);
  }
}

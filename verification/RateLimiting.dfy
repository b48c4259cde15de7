/**
 The sliding-window limiter of the public intake route (`sales.ts`): it keeps only what it may still
 need and answers like one that keeps everything.
 */
module RateLimiting {
  datatype Config = Config(window: nat, max: nat)

  datatype Event = Allow(key: string, now: int) | Sweep(now: int)

  /** `times.filter((t) => t > cutoff)` */
  function Alive(times: seq<int>, cutoff: int): (r: seq<int>)
    ensures |r| <= |times| && forall t :: t in r ==> t > cutoff
  {
    if times == [] then [] else (if times[0] > cutoff then [times[0]] else []) + Alive(times[1..], cutoff)
  }

  function Times(hits: map<string, seq<int>>, key: string): seq<int> {
    if key in hits then hits[key] else []
  }

  // ---------------------------------------------------------------- the limiter, and one that forgets nothing

  /** Whether the limiter lets a call pass, from what it kept. */
  predicate Passes(c: Config, hits: map<string, seq<int>>, key: string, now: int) {
    |Alive(Times(hits, key), now - c.window)| < c.max
  }

  function Swept(hits: map<string, seq<int>>, cutoff: int): map<string, seq<int>> {
    map k | k in hits && Alive(hits[k], cutoff) != [] :: Alive(hits[k], cutoff)
  }

  function Step(c: Config, hits: map<string, seq<int>>, e: Event): map<string, seq<int>> {
    match e
    case Allow(key, now) =>
      hits[key := Alive(Times(hits, key), now - c.window) + (if Passes(c, hits, key, now) then [now] else [])]
    case Sweep(now) => Swept(hits, now - c.window)
  }

  /** The reference: every call that was let pass stays recorded, and sweeps do nothing. */
  function FullStep(c: Config, history: map<string, seq<int>>, e: Event): map<string, seq<int>> {
    match e
    case Allow(key, now) => if Passes(c, history, key, now) then history[key := Times(history, key) + [now]] else history
    case Sweep(_) => history
  }

  function Answer(c: Config, hits: map<string, seq<int>>, e: Event): seq<bool> {
    if e.Allow? then [Passes(c, hits, e.key, e.now)] else []
  }

  function Answers(c: Config, hits: map<string, seq<int>>, events: seq<Event>): seq<bool>
    decreases |events|
  {
    if events == [] then [] else Answer(c, hits, events[0]) + Answers(c, Step(c, hits, events[0]), events[1..])
  }

  function FullAnswers(c: Config, history: map<string, seq<int>>, events: seq<Event>): seq<bool>
    decreases |events|
  {
    if events == [] then [] else Answer(c, history, events[0]) + FullAnswers(c, FullStep(c, history, events[0]), events[1..])
  }

  /** The clock does not go back. */
  predicate InOrder(from: int, events: seq<Event>)
    decreases |events|
  {
    events == [] || (from <= events[0].now && InOrder(events[0].now, events[1..]))
  }

  // ---------------------------------------------------------------- both agree

  /** What was dropped for this key is no longer needed from `cutoff` on. */
  predicate AgreeAt(hits: map<string, seq<int>>, history: map<string, seq<int>>, key: string, cutoff: int) {
    Alive(Times(hits, key), cutoff) == Alive(Times(history, key), cutoff)
  }

  ghost predicate Agree(hits: map<string, seq<int>>, history: map<string, seq<int>>, cutoff: int) {
    forall key: string :: AgreeAt(hits, history, key, cutoff)
  }

  lemma {:induction false} AliveCons(t: int, rest: seq<int>, cutoff: int)
    ensures Alive([t] + rest, cutoff) == (if t > cutoff then [t] else []) + Alive(rest, cutoff)
  {
    assert ([t] + rest)[1..] == rest;
  }

  lemma {:induction false} AliveAgain(times: seq<int>, earlier: int, later: int)
    requires earlier <= later
    ensures Alive(Alive(times, earlier), later) == Alive(times, later)
  {
    if times != [] {
      var rest := Alive(times[1..], earlier);
      AliveAgain(times[1..], earlier, later);
      if times[0] > earlier {
        AliveCons(times[0], rest, later);
      } else {
        assert [] + rest == rest && [] + Alive(times[1..], later) == Alive(times[1..], later);
      }
    }
  }

  lemma {:induction false} AliveConcat(a: seq<int>, b: seq<int>, cutoff: int)
    ensures Alive(a + b, cutoff) == Alive(a, cutoff) + Alive(b, cutoff)
  {
    if a == [] {
      assert a + b == b;
    } else {
      assert (a + b)[1..] == a[1..] + b;
      AliveConcat(a[1..], b, cutoff);
    }
  }

  lemma AgreeLater(hits: map<string, seq<int>>, history: map<string, seq<int>>, earlier: int, later: int)
    requires Agree(hits, history, earlier) && earlier <= later
    ensures Agree(hits, history, later)
  {
    forall key: string ensures AgreeAt(hits, history, key, later) {
      assert AgreeAt(hits, history, key, earlier);
      AliveAgain(Times(hits, key), earlier, later);
      AliveAgain(Times(history, key), earlier, later);
    }
  }

  lemma AliveMore(kept: seq<int>, times: seq<int>, more: seq<int>, cutoff: int)
    requires Alive(kept, cutoff) == Alive(times, cutoff)
    ensures Alive(kept + more, cutoff) == Alive(times + more, cutoff)
  {
    AliveConcat(kept, more, cutoff);
    AliveConcat(times, more, cutoff);
  }

  lemma AgreeAllowed(c: Config, hits: map<string, seq<int>>, history: map<string, seq<int>>, key: string, now: int)
    requires AgreeAt(hits, history, key, now - c.window)
    ensures Passes(c, hits, key, now) == Passes(c, history, key, now)
    ensures AgreeAt(Step(c, hits, Allow(key, now)), FullStep(c, history, Allow(key, now)), key, now - c.window)
  {
    var cutoff := now - c.window;
    var kept, times := Alive(Times(hits, key), cutoff), Times(history, key);
    AliveAgain(Times(hits, key), cutoff, cutoff);
    if Passes(c, hits, key, now) {
      AliveMore(kept, times, [now], cutoff);
    } else {
      assert kept + [] == kept;
    }
  }

  lemma AgreeAllow(c: Config, hits: map<string, seq<int>>, history: map<string, seq<int>>, key: string, now: int)
    requires Agree(hits, history, now - c.window)
    ensures Passes(c, hits, key, now) == Passes(c, history, key, now)
    ensures Agree(Step(c, hits, Allow(key, now)), FullStep(c, history, Allow(key, now)), now - c.window)
  {
    var cutoff := now - c.window;
    var next, full := Step(c, hits, Allow(key, now)), FullStep(c, history, Allow(key, now));
    assert AgreeAt(hits, history, key, cutoff);
    AgreeAllowed(c, hits, history, key, now);
    forall other: string ensures AgreeAt(next, full, other, cutoff) {
      if other != key {
        assert AgreeAt(hits, history, other, cutoff);
        assert Times(next, other) == Times(hits, other) && Times(full, other) == Times(history, other);
      }
    }
  }

  lemma AgreeSweep(hits: map<string, seq<int>>, history: map<string, seq<int>>, cutoff: int)
    requires Agree(hits, history, cutoff)
    ensures Agree(Swept(hits, cutoff), history, cutoff)
  {
    forall key: string ensures AgreeAt(Swept(hits, cutoff), history, key, cutoff) {
      AliveAgain(Times(hits, key), cutoff, cutoff);
      assert AgreeAt(hits, history, key, cutoff);
      assert Times(Swept(hits, cutoff), key) == Alive(Times(hits, key), cutoff);
    }
  }

  lemma AgreeStep(c: Config, hits: map<string, seq<int>>, history: map<string, seq<int>>, e: Event)
    requires Agree(hits, history, e.now - c.window)
    ensures Answer(c, hits, e) == Answer(c, history, e)
    ensures Agree(Step(c, hits, e), FullStep(c, history, e), e.now - c.window)
  {
    match e
    case Allow(key, now) => AgreeAllow(c, hits, history, key, now);
    case Sweep(now) => AgreeSweep(hits, history, now - c.window);
  }

  /** On every run under a clock that does not go back, wherever sweeps fall, the limiter gives the
      same answers as the one that keeps the full history. */
  lemma {:induction false} SameAnswers(c: Config, hits: map<string, seq<int>>, history: map<string, seq<int>>, from: int, events: seq<Event>)
    requires InOrder(from, events) && Agree(hits, history, from - c.window)
    ensures Answers(c, hits, events) == FullAnswers(c, history, events)
    decreases |events|
  {
    if events != [] {
      AgreeLater(hits, history, from - c.window, events[0].now - c.window);
      AgreeStep(c, hits, history, events[0]);
      SameAnswers(c, Step(c, hits, events[0]), FullStep(c, history, events[0]), events[0].now, events[1..]);
    }
  }

  lemma SameAnswersFromStart(c: Config, from: int, events: seq<Event>)
    requires InOrder(from, events)
    ensures Answers(c, map[], events) == FullAnswers(c, map[], events)
  {
    SameAnswers(c, map[], map[], from, events);
  }

  // ---------------------------------------------------------------- no window holds too many

  /** How many of the times lie after `a` and not after `b`. */
  function CountAfter(times: seq<int>, a: int, b: int): nat {
    if times == [] then 0 else (if a < times[0] <= b then 1 else 0) + CountAfter(times[1..], a, b)
  }

  function Full(c: Config, history: map<string, seq<int>>, events: seq<Event>): map<string, seq<int>>
    decreases |events|
  {
    if events == [] then history else Full(c, FullStep(c, history, events[0]), events[1..])
  }

  /** How many calls that were let pass lie in the window that starts after `a`. */
  function InWindow(c: Config, history: map<string, seq<int>>, key: string, a: int): nat {
    CountAfter(Times(history, key), a, a + c.window)
  }

  ghost predicate WithinLimit(c: Config, history: map<string, seq<int>>) {
    forall key: string, a: int :: InWindow(c, history, key, a) <= c.max
  }

  lemma {:induction false} CountConcat(x: seq<int>, y: seq<int>, a: int, b: int)
    ensures CountAfter(x + y, a, b) == CountAfter(x, a, b) + CountAfter(y, a, b)
  {
    if x == [] {
      assert x + y == y;
    } else {
      assert (x + y)[1..] == x[1..] + y;
      CountConcat(x[1..], y, a, b);
    }
  }

  lemma {:induction false} CountIsAlive(times: seq<int>, a: int, b: int, cutoff: int)
    requires cutoff <= a
    ensures CountAfter(times, a, b) <= |Alive(times, cutoff)|
  {
    if times != [] {
      CountIsAlive(times[1..], a, b, cutoff);
    }
  }

  lemma LimitStep(c: Config, history: map<string, seq<int>>, e: Event)
    requires WithinLimit(c, history)
    ensures WithinLimit(c, FullStep(c, history, e))
  {
    forall key: string, a: int ensures InWindow(c, FullStep(c, history, e), key, a) <= c.max {
      var times := Times(history, key);
      assert InWindow(c, history, key, a) <= c.max;
      CountConcat(times, [e.now], a, a + c.window);
      if a < e.now <= a + c.window {
        CountIsAlive(times, a, a + c.window, e.now - c.window);
      }
    }
  }

  /** No window of the configured length, open at its start, holds more than the maximum of calls that
      were let pass, for any key, in every run. */
  lemma {:induction false} WindowsWithinLimit(c: Config, history: map<string, seq<int>>, events: seq<Event>)
    requires WithinLimit(c, history)
    ensures WithinLimit(c, Full(c, history, events))
    decreases |events|
  {
    if events != [] {
      LimitStep(c, history, events[0]);
      WindowsWithinLimit(c, FullStep(c, history, events[0]), events[1..]);
    }
  }

  lemma WindowsFromStart(c: Config, events: seq<Event>)
    ensures WithinLimit(c, Full(c, map[], events))
  {
    WindowsWithinLimit(c, map[], events);
  }

  // ---------------------------------------------------------------- windows closed at both ends

  function CountAt(times: seq<int>, a: int): nat {
    if times == [] then 0 else (if times[0] == a then 1 else 0) + CountAt(times[1..], a)
  }

  /** How many of the times lie from `a` to `b`, both included. */
  function CountFrom(times: seq<int>, a: int, b: int): nat {
    if times == [] then 0 else (if a <= times[0] <= b then 1 else 0) + CountFrom(times[1..], a, b)
  }

  lemma {:induction false} CountFromSplit(times: seq<int>, a: int, b: int)
    requires a <= b
    ensures CountFrom(times, a, b) == CountAt(times, a) + CountAfter(times, a, b)
  {
    if times != [] {
      CountFromSplit(times[1..], a, b);
    }
  }

  lemma {:induction false} CountAtInside(times: seq<int>, a: int, from: int, b: int)
    requires from < a <= b
    ensures CountAt(times, a) <= CountAfter(times, from, b)
  {
    if times != [] {
      CountAtInside(times[1..], a, from, b);
    }
  }

  /** A window that includes its first instant holds at most the maximum and the calls of that instant,
      of which there are no more than the maximum either. */
  lemma ClosedWindows(c: Config, events: seq<Event>, key: string, a: int)
    ensures var times := Times(Full(c, map[], events), key);
            && CountFrom(times, a, a + c.window) <= c.max + CountAt(times, a)
            && (c.window > 0 ==> CountAt(times, a) <= c.max)
  {
    var history := Full(c, map[], events);
    WindowsFromStart(c, events);
    CountFromSplit(Times(history, key), a, a + c.window);
    assert InWindow(c, history, key, a) <= c.max && InWindow(c, history, key, a - 1) <= c.max;
    if c.window > 0 {
      CountAtInside(Times(history, key), a, a - 1, a - 1 + c.window);
    }
  }

  function Repeated<T>(x: T, n: nat): (r: seq<T>)
    ensures |r| == n && forall i | 0 <= i < n :: r[i] == x
  {
    if n == 0 then [] else [x] + Repeated(x, n - 1)
  }

  lemma {:induction false} FullConcat(c: Config, history: map<string, seq<int>>, a: seq<Event>, b: seq<Event>)
    ensures Full(c, history, a + b) == Full(c, Full(c, history, a), b)
    decreases |a|
  {
    if a == [] {
      assert a + b == b;
    } else {
      assert (a + b)[1..] == a[1..] + b;
      FullConcat(c, FullStep(c, history, a[0]), a[1..], b);
    }
  }

  /** As many calls at once as there is room for all pass. */
  lemma {:induction false} BurstPasses(c: Config, history: map<string, seq<int>>, key: string, now: int, n: nat)
    requires |Alive(Times(history, key), now - c.window)| + n <= c.max && c.window > 0
    ensures Times(Full(c, history, Repeated(Allow(key, now), n)), key) == Times(history, key) + Repeated(now, n)
    decreases n
  {
    if n > 0 {
      var next := FullStep(c, history, Allow(key, now));
      AliveConcat(Times(history, key), [now], now - c.window);
      assert Times(next, key) == Times(history, key) + [now];
      assert Repeated(Allow(key, now), n)[1..] == Repeated(Allow(key, now), n - 1);
      BurstPasses(c, next, key, now, n - 1);
      assert Times(history, key) + [now] + Repeated(now, n - 1) == Times(history, key) + ([now] + Repeated(now, n - 1));
    }
  }

  lemma {:induction false} AliveRepeated(x: int, n: nat, cutoff: int)
    ensures x <= cutoff ==> Alive(Repeated(x, n), cutoff) == []
  {
    if n > 0 {
      assert Repeated(x, n)[1..] == Repeated(x, n - 1);
      AliveRepeated(x, n - 1, cutoff);
    }
  }

  lemma {:induction false} CountFromAll(times: seq<int>, a: int, b: int)
    requires forall i | 0 <= i < |times| :: a <= times[i] <= b
    ensures CountFrom(times, a, b) == |times|
  {
    if times != [] {
      CountFromAll(times[1..], a, b);
    }
  }

  /** The maximum of calls at once, and again when the window has gone by. */
  function TwoBursts(c: Config, key: string): seq<Event> {
    Repeated(Allow(key, 0), c.max) + Repeated(Allow(key, c.window), c.max)
  }

  lemma {:induction false} BurstInOrder(from: int, key: string, now: int, n: nat, rest: seq<Event>)
    requires from <= now && InOrder(now, rest)
    ensures InOrder(from, Repeated(Allow(key, now), n) + rest)
    decreases n
  {
    if n == 0 {
      assert Repeated(Allow(key, now), n) + rest == rest;
    } else {
      BurstInOrder(now, key, now, n - 1, rest);
      assert (Repeated(Allow(key, now), n) + rest)[1..] == Repeated(Allow(key, now), n - 1) + rest;
    }
  }

  /** All of them pass: a closed window holds twice the maximum. */
  lemma ClosedWindowDoubled(c: Config, key: string)
    requires c.window > 0
    ensures InOrder(0, TwoBursts(c, key))
    ensures CountFrom(Times(Full(c, map[], TwoBursts(c, key)), key), 0, c.window) == 2 * c.max
  {
    var first, second := Repeated(Allow(key, 0), c.max), Repeated(Allow(key, c.window), c.max);
    assert second + [] == second;
    BurstInOrder(0, key, c.window, c.max, []);
    BurstInOrder(0, key, 0, c.max, second);
    FullConcat(c, map[], first, second);
    BurstPasses(c, map[], key, 0, c.max);
    assert [] + Repeated(0, c.max) == Repeated(0, c.max);
    AliveRepeated(0, c.max, 0);
    BurstPasses(c, Full(c, map[], first), key, c.window, c.max);
    CountFromAll(Repeated(0, c.max) + Repeated(c.window as int, c.max), 0, c.window);
  }

  // ---------------------------------------------------------------- exactly which calls pass

  function After(c: Config, events: seq<Event>): map<string, seq<int>> {
    if events == [] then map[] else Step(c, After(c, events[..|events| - 1]), events[|events| - 1])
  }

  predicate NowOrLater(events: seq<Event>, now: int) {
    forall i | 0 <= i < |events| :: events[i].now <= now
  }

  /** The clock does not go back. */
  predicate Ordered(events: seq<Event>) {
    forall i, j | 0 <= i < j < |events| :: events[i].now <= events[j].now
  }

  /** Event `i` is a call that was let pass. */
  predicate Passed(c: Config, events: seq<Event>, i: nat) {
    i < |events| && events[i].Allow? && Passes(c, After(c, events[..i]), events[i].key, events[i].now)
  }

  /** The calls with this key, later than `cutoff`, that were let pass. */
  function PassedSince(c: Config, events: seq<Event>, key: string, cutoff: int): set<nat> {
    set i: nat | i < |events| && Passed(c, events, i) && events[i].key == key && events[i].now > cutoff
  }

  lemma {:induction false} PassedBefore(c: Config, events: seq<Event>, e: Event, i: nat)
    requires i < |events|
    ensures Passed(c, events + [e], i) <==> Passed(c, events, i)
  {
    assert (events + [e])[..i] == events[..i];
  }

  lemma {:induction false} PassedSnoc(c: Config, events: seq<Event>, e: Event, key: string, cutoff: int)
    ensures var last: nat := |events|;
            PassedSince(c, events + [e], key, cutoff) ==
            PassedSince(c, events, key, cutoff)
            + if e.Allow? && Passes(c, After(c, events), e.key, e.now) && e.key == key && e.now > cutoff then {last} else {}
  {
    forall i: nat | i < |events| ensures Passed(c, events + [e], i) <==> Passed(c, events, i) {
      PassedBefore(c, events, e, i);
    }
    assert (events + [e])[..|events|] == events;
  }

  lemma {:induction false} AfterSnoc(c: Config, events: seq<Event>, e: Event)
    ensures After(c, events + [e]) == Step(c, After(c, events), e)
  {
    assert (events + [e])[..|events|] == events;
  }

  lemma {:induction false} KeptStep(c: Config, hits: map<string, seq<int>>, e: Event, key: string, cutoff: int)
    requires e.now - c.window <= cutoff
    ensures |Alive(Times(Step(c, hits, e), key), cutoff)| == |Alive(Times(hits, key), cutoff)|
            + if e.Allow? && Passes(c, hits, e.key, e.now) && e.key == key && e.now > cutoff then 1 else 0
  {
    var times := Times(hits, key);
    AliveAgain(times, e.now - c.window, cutoff);
    match e
    case Allow(k, now) =>
      if k == key {
        AliveConcat(Alive(times, now - c.window), if Passes(c, hits, key, now) then [now] else [], cutoff);
        assert [now][1..] == [];
      }
    case Sweep(now) =>
      assert key !in hits ==> times == [];
  }

  /** What is kept are the calls let pass since any cutoff that may still be asked for. */
  lemma {:induction false} KeptIsPassed(c: Config, events: seq<Event>, key: string, cutoff: int)
    requires NowOrLater(events, cutoff + c.window)
    ensures |Alive(Times(After(c, events), key), cutoff)| == |PassedSince(c, events, key, cutoff)|
  {
    if events == [] {
      assert PassedSince(c, events, key, cutoff) == {};
    } else {
      var before, e := events[..|events| - 1], events[|events| - 1];
      assert events == before + [e];
      KeptIsPassed(c, before, key, cutoff);
      PassedSnoc(c, before, e, key, cutoff);
      AfterSnoc(c, before, e);
      KeptStep(c, After(c, before), e, key, cutoff);
    }
  }

  /** A call passes exactly when fewer calls with its key than the maximum were let pass in the window up to it. */
  lemma {:induction false} PassedIff(c: Config, events: seq<Event>, i: nat)
    requires Ordered(events) && i < |events| && events[i].Allow?
    ensures Passed(c, events, i) <==> |PassedSince(c, events[..i], events[i].key, events[i].now - c.window)| < c.max
  {
    KeptIsPassed(c, events[..i], events[i].key, events[i].now - c.window);
  }

  /** What the limiter has kept is enough, and its history and its events are what happened. */
  ghost predicate Recorded(c: Config, hits: map<string, seq<int>>, history: map<string, seq<int>>, events: seq<Event>, last: int) {
    Agree(hits, history, last - c.window) && WithinLimit(c, history) && hits == After(c, events) && NowOrLater(events, last)
  }

  lemma {:induction false} RecordedStep(c: Config, hits: map<string, seq<int>>, history: map<string, seq<int>>, events: seq<Event>, last: int, e: Event)
    requires Recorded(c, hits, history, events, last) && last <= e.now
    ensures Recorded(c, Step(c, hits, e), FullStep(c, history, e), events + [e], e.now)
  {
    AgreeLater(hits, history, last - c.window, e.now - c.window);
    AgreeStep(c, hits, history, e);
    LimitStep(c, history, e);
    AfterSnoc(c, events, e);
  }

  lemma {:induction false} RecordedSweep(c: Config, hits: map<string, seq<int>>, history: map<string, seq<int>>, events: seq<Event>, last: int, now: int, next: map<string, seq<int>>)
    requires Recorded(c, hits, history, events, last) && last <= now && next == Swept(hits, now - c.window)
    ensures Recorded(c, next, history, events + [Event.Sweep(now)], now)
  {
    SweepStep(c, hits, history, now);
    RecordedStep(c, hits, history, events, last, Event.Sweep(now));
  }

  lemma SweepStep(c: Config, hits: map<string, seq<int>>, history: map<string, seq<int>>, now: int)
    ensures Step(c, hits, Event.Sweep(now)) == Swept(hits, now - c.window) && FullStep(c, history, Event.Sweep(now)) == history
  {
  }

  lemma {:induction false} RecordedPasses(c: Config, hits: map<string, seq<int>>, history: map<string, seq<int>>, events: seq<Event>, last: int, key: string, now: int)
    requires Recorded(c, hits, history, events, last) && last <= now
    ensures Passes(c, hits, key, now) == Passes(c, history, key, now)
    ensures Passes(c, hits, key, now) <==> |PassedSince(c, events, key, now - c.window)| < c.max
  {
    AgreeLater(hits, history, last - c.window, now - c.window);
    AgreePasses(c, hits, history, key, now);
    CountPasses(c, events, key, now);
  }

  lemma {:induction false} AgreePasses(c: Config, hits: map<string, seq<int>>, history: map<string, seq<int>>, key: string, now: int)
    requires Agree(hits, history, now - c.window)
    ensures Passes(c, hits, key, now) == Passes(c, history, key, now)
  {
    assert AgreeAt(hits, history, key, now - c.window);
  }

  lemma {:induction false} CountPasses(c: Config, events: seq<Event>, key: string, now: int)
    requires NowOrLater(events, now)
    ensures Passes(c, After(c, events), key, now) <==> |PassedSince(c, events, key, now - c.window)| < c.max
  {
    KeptIsPassed(c, events, key, now - c.window);
  }

  // ---------------------------------------------------------------- the class

  /** `IpRateLimiter`; `history` is the full record of the calls that were let pass, `events` what
      happened so far. */
  class IpRateLimiter {
    const c: Config
    var hits: map<string, seq<int>>
    ghost var history: map<string, seq<int>>
    ghost var last: int
    ghost var events: seq<Event>

    ghost predicate Valid()
      reads this
    {
      Recorded(c, hits, history, events, last)
    }

    constructor (c: Config)
      ensures Valid() && this.c == c && history == map[] && events == []
    {
      this.c, hits, history, events := c, map[], map[], [];
    }

    /** The answer is the one the full history gives: yes exactly when fewer calls than the maximum were
        let pass in the window up to now. */
    method Allow(key: string, now: int) returns (ok: bool)
      requires Valid() && last <= now
      modifies this
      ensures Valid() && last == now
      ensures ok == Passes(c, old(history), key, now) && history == FullStep(c, old(history), Event.Allow(key, now))
      ensures events == old(events) + [Event.Allow(key, now)]
      ensures ok <==> |PassedSince(c, old(events), key, now - c.window)| < c.max
    {
      RecordedPasses(c, hits, history, events, last, key, now);
      RecordedStep(c, hits, history, events, last, Event.Allow(key, now));
      history, events, last := FullStep(c, history, Event.Allow(key, now)), events + [Event.Allow(key, now)], now;
      ok := Decide(key, now);
    }

    method Decide(key: string, now: int) returns (ok: bool)
      modifies this`hits
      ensures ok == Passes(c, old(hits), key, now) && hits == Step(c, old(hits), Event.Allow(key, now))
    {
      var cutoff := now - c.window;
      var times := Alive(if key in hits then hits[key] else [], cutoff);
      if |times| >= c.max {
        hits := hits[key := times];
        assert times + [] == times;
        return false;
      }
      times := times + [now];
      hits := hits[key := times];
      return true;
    }

    /** The periodic sweep. */
    method Sweep(now: int)
      requires Valid() && last <= now
      modifies this
      ensures Valid() && last == now && history == old(history) && events == old(events) + [Event.Sweep(now)]
    {
      ghost var before := hits;
      DropOld(now - c.window);
      RecordedSweep(c, before, history, events, last, now, hits);
      events, last := events + [Event.Sweep(now)], now;
    }

    method DropOld(cutoff: int)
      modifies this`hits
      ensures hits == Swept(old(hits), cutoff)
    {
      ghost var before := hits;
      var todo := hits.Keys;
      while todo != {}
        invariant todo <= hits.Keys <= before.Keys
        invariant forall k | k in todo :: hits[k] == before[k]
        invariant forall k | k in before && k !in todo ::
          (k in hits <==> Alive(before[k], cutoff) != []) && (k in hits ==> hits[k] == Alive(before[k], cutoff))
      {
        var ip :| ip in todo;
        todo := todo - {ip};
        var alive := Alive(hits[ip], cutoff);
        if alive == [] {
          hits := hits - {ip};
        } else {
          hits := hits[ip := alive];
        }
      }
    }
  }
}

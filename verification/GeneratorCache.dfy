/**
 The per-tenant cache of report generators (`getReportDraftGenerator` in `container.ts`) among calls
 that overlap, configurations that change, and builds that finish late or fail.

 A call resolves its configuration over several asynchronous steps; from then on it runs without
 interruption to its return or to the promise it waits for, which is the step `Lookup`.  `Complete`
 is the `then` callback of a build, `Finish` the `finally` callback.
 */
module GeneratorCache {
  import opened Basics

  datatype Resolved = Resolved(fingerprint: string, ofTenant: bool, settings: string)

  type Config = Option<Resolved>

  datatype Generator = Generator(tenant: Option<string>, config: Config, build: nat, modelId: string, tenantProvider: bool)

  datatype Entry = Entry(key: string, generator: Generator)

  datatype Phase = Running | Built(generator: Generator) | Failed | Settled(result: Option<Generator>)

  datatype Build = Build(tenant: Option<string>, config: Config, phase: Phase)

  datatype Call =
    | Resolving(tenant: Option<string>)
    | Waiting(tenant: Option<string>, config: Config, build: nat)
    | Returned(tenant: Option<string>, config: Config, generator: Generator)
    | Thrown(tenant: Option<string>)

  type CallId = nat

  datatype State = State(cache: map<string, Entry>, promises: map<string, nat>, builds: seq<Build>, calls: map<CallId, Call>)

  datatype Event =
    | Begin(call: CallId, tenant: Option<string>)
    | Reject(call: CallId)
    | Lookup(call: CallId, config: Config)
    | Complete(build: nat, modelId: string)
    | Fail(build: nat)
    | Finish(build: nat)
    | Deliver(call: CallId)

  function Empty(): State {
    State(map[], map[], [], map[])
  }

  // ---------------------------------------------------------------- keys

  function TenantKey(tenant: Option<string>): string {
    if tenant.Some? then tenant.value else "default"
  }

  function Fingerprint(config: Config): string {
    if config.Some? then config.value.fingerprint else "env"
  }

  /** `worker` says whether the dedicated drafting worker is switched on for this process. */
  function KeyOf(worker: bool, config: Config): string {
    (if worker then "ai-reporter:" else "llm:") + Fingerprint(config)
  }

  function PromiseKey(worker: bool, tenant: Option<string>, config: Config): string {
    Pair(TenantKey(tenant), '|', KeyOf(worker, config))
  }

  /** The assumption on fingerprints: equal ones stand for equal configurations. */
  ghost predicate Faithful(world: set<Config>) {
    forall a, b | a in world && b in world :: Fingerprint(a) == Fingerprint(b) ==> a == b
  }

  lemma KeyTells(worker: bool, a: Config, b: Config)
    ensures KeyOf(worker, a) == KeyOf(worker, b) <==> Fingerprint(a) == Fingerprint(b)
  {
    var prefix := if worker then "ai-reporter:" else "llm:";
    TakeDrop(prefix, Fingerprint(a));
    TakeDrop(prefix, Fingerprint(b));
  }

  // ---------------------------------------------------------------- the steps

  predicate Enabled(s: State, e: Event) {
    match e
    case Begin(call, _) => call !in s.calls
    case Reject(call) => call in s.calls && s.calls[call].Resolving?
    case Lookup(call, _) => call in s.calls && s.calls[call].Resolving?
    case Complete(b, _) => b < |s.builds| && s.builds[b].phase.Running?
    case Fail(b) => b < |s.builds| && s.builds[b].phase.Running?
    case Finish(b) => b < |s.builds| && (s.builds[b].phase.Built? || s.builds[b].phase.Failed?)
    case Deliver(call) => call in s.calls && s.calls[call].Waiting? && s.calls[call].build < |s.builds| && s.builds[s.calls[call].build].phase.Settled?
  }

  /** The generator of a build; a tenant's own provider is marked, unless it is the stub. */
  function GeneratorOf(b: nat, build: Build, modelId: string): Generator {
    Generator(build.tenant, build.config, b, modelId, build.config.Some? && build.config.value.ofTenant && modelId != "stub")
  }

  predicate Hit(worker: bool, s: State, tenant: Option<string>, config: Config) {
    TenantKey(tenant) in s.cache && s.cache[TenantKey(tenant)].key == KeyOf(worker, config)
  }

  function AfterLookup(worker: bool, s: State, call: CallId, tenant: Option<string>, config: Config): State {
    var promiseKey := PromiseKey(worker, tenant, config);
    if Hit(worker, s, tenant, config) then
      s.(calls := s.calls[call := Returned(tenant, config, s.cache[TenantKey(tenant)].generator)])
    else if promiseKey in s.promises then
      s.(calls := s.calls[call := Waiting(tenant, config, s.promises[promiseKey])])
    else
      s.(builds := s.builds + [Build(tenant, config, Running)],
         promises := s.promises[promiseKey := |s.builds|],
         calls := s.calls[call := Waiting(tenant, config, |s.builds|)])
  }

  function Apply(worker: bool, s: State, e: Event): State
    requires Enabled(s, e)
  {
    match e
    case Begin(call, tenant) => s.(calls := s.calls[call := Resolving(tenant)])
    case Reject(call) => s.(calls := s.calls[call := Thrown(s.calls[call].tenant)])
    case Lookup(call, config) => AfterLookup(worker, s, call, s.calls[call].tenant, config)
    case Complete(b, modelId) =>
      var build := s.builds[b];
      var g := GeneratorOf(b, build, modelId);
      s.(builds := s.builds[b := build.(phase := Built(g))],
         cache := s.cache[TenantKey(build.tenant) := Entry(KeyOf(worker, build.config), g)])
    case Fail(b) => s.(builds := s.builds[b := s.builds[b].(phase := Failed)])
    case Finish(b) =>
      var build := s.builds[b];
      s.(builds := s.builds[b := build.(phase := Settled(if build.phase.Built? then Some(build.phase.generator) else None))],
         promises := s.promises - {PromiseKey(worker, build.tenant, build.config)})
    case Deliver(call) =>
      var w := s.calls[call];
      var result := s.builds[w.build].phase.result;
      s.(calls := s.calls[call := if result.Some? then Returned(w.tenant, w.config, result.value) else Thrown(w.tenant)])
  }

  // ---------------------------------------------------------------- the invariant

  /** The generator a build has made, if it has made one. */
  function Made(p: Phase): Option<Generator> {
    match p
    case Built(g) => Some(g)
    case Settled(r) => r
    case _ => None
  }

  /** A generator is what a build that did not fail made of its tenant and configuration. */
  predicate FromBuild(s: State, g: Generator) {
    g.build < |s.builds| && var build := s.builds[g.build]; Made(build.phase) == Some(g) && g == GeneratorOf(g.build, build, g.modelId)
  }

  predicate EntryKept(worker: bool, s: State, t: string)
    requires t in s.cache
  {
    var entry := s.cache[t];
    FromBuild(s, entry.generator) && TenantKey(entry.generator.tenant) == t && entry.key == KeyOf(worker, entry.generator.config)
  }

  predicate BuildKept(worker: bool, s: State, b: nat)
    requires b < |s.builds|
  {
    var build := s.builds[b];
    && (!build.phase.Settled? ==>
          var k := PromiseKey(worker, build.tenant, build.config); k in s.promises && s.promises[k] == b)
    && (Made(build.phase).Some? ==> FromBuild(s, Made(build.phase).value) && Made(build.phase).value.build == b)
  }

  predicate PromiseKept(worker: bool, s: State, k: string)
    requires k in s.promises
  {
    var b := s.promises[k];
    b < |s.builds| && !s.builds[b].phase.Settled? && PromiseKey(worker, s.builds[b].tenant, s.builds[b].config) == k
  }

  /** A call waits for, or has got, what its own tenant and its own key asked for. */
  predicate CallKept(worker: bool, s: State, c: Call) {
    match c
    case Waiting(tenant, config, b) =>
      b < |s.builds| && TenantKey(s.builds[b].tenant) == TenantKey(tenant) && KeyOf(worker, s.builds[b].config) == KeyOf(worker, config)
    case Returned(tenant, config, g) =>
      FromBuild(s, g) && TenantKey(g.tenant) == TenantKey(tenant) && KeyOf(worker, g.config) == KeyOf(worker, config)
    case _ => true
  }

  predicate PlainTenant(tenant: Option<string>) {
    '|' !in TenantKey(tenant)
  }

  predicate Known(world: set<Config>, s: State) {
    && (forall b | 0 <= b < |s.builds| :: PlainTenant(s.builds[b].tenant) && s.builds[b].config in world)
    && (forall c | c in s.calls :: PlainTenant(s.calls[c].tenant) &&
          (s.calls[c].Waiting? ==> s.calls[c].config in world) && (s.calls[c].Returned? ==> s.calls[c].config in world))
  }

  ghost predicate Inv(worker: bool, world: set<Config>, s: State) {
    && Known(world, s)
    && (forall t | t in s.cache :: EntryKept(worker, s, t))
    && (forall b: nat | b < |s.builds| :: BuildKept(worker, s, b))
    && (forall k | k in s.promises :: PromiseKept(worker, s, k))
    && (forall c | c in s.calls :: CallKept(worker, s, s.calls[c]))
  }

  /** Tenant ids contain no bar; `world` are the configurations that are ever resolved. */
  predicate Allowed(world: set<Config>, e: Event) {
    match e
    case Begin(_, tenant) => PlainTenant(tenant)
    case Lookup(_, config) => config in world
    case _ => true
  }

  // ---------------------------------------------------------------- every step keeps it

  /** Builds are added, and what a build is for and has made does not change. */
  ghost predicate Extends(s: State, next: State) {
    |s.builds| <= |next.builds| && forall b: nat | b < |s.builds| :: BuildStays(s.builds[b], next.builds[b])
  }

  predicate BuildStays(before: Build, after: Build) {
    before.tenant == after.tenant && before.config == after.config && (Made(before.phase).Some? ==> Made(after.phase) == Made(before.phase))
  }

  lemma FromBuildStays(s: State, next: State, g: Generator)
    requires Extends(s, next) && FromBuild(s, g)
    ensures FromBuild(next, g)
  {
    assert BuildStays(s.builds[g.build], next.builds[g.build]);
  }

  lemma CallStays(worker: bool, s: State, next: State, c: Call)
    requires Extends(s, next) && CallKept(worker, s, c)
    ensures CallKept(worker, next, c)
  {
    match c
    case Waiting(_, _, b) => assert BuildStays(s.builds[b], next.builds[b]);
    case Returned(_, _, g) => FromBuildStays(s, next, g);
    case _ =>
  }

  lemma EntriesStay(worker: bool, world: set<Config>, s: State, next: State)
    requires Inv(worker, world, s) && Extends(s, next) && next.cache == s.cache
    ensures forall t | t in next.cache :: EntryKept(worker, next, t)
  {
    forall t | t in next.cache ensures EntryKept(worker, next, t) {
      assert EntryKept(worker, s, t);
      FromBuildStays(s, next, s.cache[t].generator);
    }
  }

  lemma CallsStay(worker: bool, world: set<Config>, s: State, next: State, call: Option<CallId>)
    requires Inv(worker, world, s) && Extends(s, next)
    requires forall c | c in next.calls && Some(c) != call :: c in s.calls && next.calls[c] == s.calls[c]
    requires call.Some? && call.value in next.calls ==> CallKept(worker, next, next.calls[call.value])
    ensures forall c | c in next.calls :: CallKept(worker, next, next.calls[c])
  {
    forall c | c in next.calls ensures CallKept(worker, next, next.calls[c]) {
      if Some(c) != call {
        assert CallKept(worker, s, s.calls[c]);
        CallStays(worker, s, next, s.calls[c]);
      }
    }
  }

  lemma LookupKeeps(worker: bool, world: set<Config>, s: State, call: CallId, config: Config)
    requires Inv(worker, world, s) && call in s.calls && s.calls[call].Resolving? && config in world
    ensures Inv(worker, world, AfterLookup(worker, s, call, s.calls[call].tenant, config))
  {
    var tenant := s.calls[call].tenant;
    var next := AfterLookup(worker, s, call, tenant, config);
    var k := PromiseKey(worker, tenant, config);
    if Hit(worker, s, tenant, config) {
      assert EntryKept(worker, s, TenantKey(tenant));
      OnlyCalls(worker, world, s, next, call);
    } else if k in s.promises {
      assert PromiseKept(worker, s, k);
      var build := s.builds[s.promises[k]];
      PairInjective(TenantKey(build.tenant), '|', KeyOf(worker, build.config), TenantKey(tenant), KeyOf(worker, config));
      OnlyCalls(worker, world, s, next, call);
    } else {
      NewBuildKeeps(worker, world, s, call, config);
    }
  }

  lemma OnlyCalls(worker: bool, world: set<Config>, s: State, next: State, call: CallId)
    requires Inv(worker, world, s) && Known(world, next)
    requires next == s.(calls := next.calls) && call in next.calls && next.calls == s.calls[call := next.calls[call]]
    requires CallKept(worker, next, next.calls[call])
    ensures Inv(worker, world, next)
  {
    forall t | t in next.cache ensures EntryKept(worker, next, t) {
      assert EntryKept(worker, s, t);
    }
    forall b: nat | b < |next.builds| ensures BuildKept(worker, next, b) {
      assert BuildKept(worker, s, b);
    }
    forall k | k in next.promises ensures PromiseKept(worker, next, k) {
      assert PromiseKept(worker, s, k);
    }
    forall c | c in next.calls ensures CallKept(worker, next, next.calls[c]) {
      assert c != call ==> CallKept(worker, s, s.calls[c]);
    }
  }

  lemma NewBuildKeeps(worker: bool, world: set<Config>, s: State, call: CallId, config: Config)
    requires Inv(worker, world, s) && call in s.calls && s.calls[call].Resolving? && config in world
    requires !Hit(worker, s, s.calls[call].tenant, config) && PromiseKey(worker, s.calls[call].tenant, config) !in s.promises
    ensures Inv(worker, world, AfterLookup(worker, s, call, s.calls[call].tenant, config))
  {
    var next := AfterLookup(worker, s, call, s.calls[call].tenant, config);
    assert forall b: nat | b < |s.builds| :: next.builds[b] == s.builds[b];
    NewBuildKnown(world, s, next, call, config);
    EntriesStay(worker, world, s, next);
    CallsStay(worker, world, s, next, Some(call));
    NewBuildFound(worker, world, s, next, Build(s.calls[call].tenant, config, Running));
  }

  lemma NewBuildKnown(world: set<Config>, s: State, next: State, call: CallId, config: Config)
    requires Known(world, s) && call in s.calls && config in world
    requires var tenant := s.calls[call].tenant;
      next.builds == s.builds + [Build(tenant, config, Running)] && next.calls == s.calls[call := Waiting(tenant, config, |s.builds|)]
    ensures Known(world, next)
  {
  }

  lemma NewBuildFound(worker: bool, world: set<Config>, s: State, next: State, build: Build)
    requires Inv(worker, world, s) && Extends(s, next) && build.phase == Running
    requires next.builds == s.builds + [build]
    requires var k := PromiseKey(worker, build.tenant, build.config); k !in s.promises && next.promises == s.promises[k := |s.builds|]
    ensures forall b: nat | b < |next.builds| :: BuildKept(worker, next, b)
    ensures forall k | k in next.promises :: PromiseKept(worker, next, k)
  {
    forall b: nat | b < |next.builds| ensures BuildKept(worker, next, b) {
      if b < |s.builds| {
        OldBuildKept(worker, world, s, next, b);
      }
    }
    forall k | k in next.promises ensures PromiseKept(worker, next, k) {
      assert k in s.promises ==> PromiseKept(worker, s, k);
    }
  }

  lemma OldBuildKept(worker: bool, world: set<Config>, s: State, next: State, b: nat)
    requires Inv(worker, world, s) && Extends(s, next) && b < |s.builds| && next.builds[b] == s.builds[b]
    requires forall k | k in s.promises && s.promises[k] == b :: k in next.promises && next.promises[k] == b
    ensures BuildKept(worker, next, b)
  {
    assert BuildKept(worker, s, b);
    if Made(s.builds[b].phase).Some? {
      FromBuildStays(s, next, Made(s.builds[b].phase).value);
    }
  }

  /** A build that changes its phase leaves the other builds, and the promises of unsettled ones, alone. */
  lemma OthersKept(worker: bool, world: set<Config>, s: State, next: State, b: nat)
    requires Inv(worker, world, s) && Extends(s, next) && b < |s.builds| && next.builds == s.builds[b := next.builds[b]]
    requires next.promises == s.promises || next.promises == s.promises - {PromiseKey(worker, s.builds[b].tenant, s.builds[b].config)}
    requires !s.builds[b].phase.Settled? && BuildKept(worker, next, b)
    requires next.promises == s.promises ==> !next.builds[b].phase.Settled?
    ensures forall o: nat | o < |next.builds| :: BuildKept(worker, next, o)
    ensures forall k | k in next.promises :: PromiseKept(worker, next, k)
  {
    assert BuildKept(worker, s, b);
    forall o: nat | o < |next.builds| ensures BuildKept(worker, next, o) {
      if o != b {
        assert BuildKept(worker, s, o);
        forall k | k in s.promises && s.promises[k] == o ensures k in next.promises && next.promises[k] == o {
          assert PromiseKept(worker, s, k);
        }
        OldBuildKept(worker, world, s, next, o);
      }
    }
    forall k | k in next.promises ensures PromiseKept(worker, next, k) {
      assert PromiseKept(worker, s, k);
    }
  }

  lemma CompleteKeeps(worker: bool, world: set<Config>, s: State, b: nat, modelId: string)
    requires Inv(worker, world, s) && Enabled(s, Complete(b, modelId))
    ensures Inv(worker, world, Apply(worker, s, Complete(b, modelId)))
  {
    var next := Apply(worker, s, Complete(b, modelId));
    assert BuildKept(worker, s, b);
    OthersKept(worker, world, s, next, b);
    CallsStay(worker, world, s, next, None);
    forall t | t in next.cache ensures EntryKept(worker, next, t) {
      if t != TenantKey(s.builds[b].tenant) {
        assert EntryKept(worker, s, t);
        FromBuildStays(s, next, s.cache[t].generator);
      }
    }
  }

  lemma FailKeeps(worker: bool, world: set<Config>, s: State, b: nat)
    requires Inv(worker, world, s) && Enabled(s, Fail(b))
    ensures Inv(worker, world, Apply(worker, s, Fail(b)))
  {
    var next := Apply(worker, s, Fail(b));
    assert BuildKept(worker, s, b);
    OthersKept(worker, world, s, next, b);
    CallsStay(worker, world, s, next, None);
    EntriesStay(worker, world, s, next);
  }

  lemma FinishKeeps(worker: bool, world: set<Config>, s: State, b: nat)
    requires Inv(worker, world, s) && Enabled(s, Finish(b))
    ensures Inv(worker, world, Apply(worker, s, Finish(b)))
  {
    var next := Apply(worker, s, Finish(b));
    assert BuildKept(worker, s, b);
    OthersKept(worker, world, s, next, b);
    CallsStay(worker, world, s, next, None);
    EntriesStay(worker, world, s, next);
  }

  lemma InvStep(worker: bool, world: set<Config>, s: State, e: Event)
    requires Inv(worker, world, s) && Enabled(s, e) && Allowed(world, e)
    ensures Inv(worker, world, Apply(worker, s, e))
  {
    var next := Apply(worker, s, e);
    match e
    case Begin(call, _) => OnlyCalls(worker, world, s, next, call);
    case Reject(call) => OnlyCalls(worker, world, s, next, call);
    case Lookup(call, config) => LookupKeeps(worker, world, s, call, config);
    case Complete(b, modelId) => CompleteKeeps(worker, world, s, b, modelId);
    case Fail(b) => FailKeeps(worker, world, s, b);
    case Finish(b) => FinishKeeps(worker, world, s, b);
    case Deliver(call) =>
      assert CallKept(worker, s, s.calls[call]) && BuildKept(worker, s, s.calls[call].build);
      OnlyCalls(worker, world, s, next, call);
  }

  // ---------------------------------------------------------------- every run

  /** The state after the events in turn, if each of them was possible. */
  function Run(worker: bool, s: State, events: seq<Event>): Option<State>
    decreases |events|
  {
    if events == [] then Some(s)
    else if Enabled(s, events[0]) then Run(worker, Apply(worker, s, events[0]), events[1..])
    else None
  }

  predicate AllowedRun(world: set<Config>, events: seq<Event>) {
    forall i | 0 <= i < |events| :: Allowed(world, events[i])
  }

  lemma {:induction false} RunKeepsInv(worker: bool, world: set<Config>, s: State, events: seq<Event>)
    requires Inv(worker, world, s) && AllowedRun(world, events) && Run(worker, s, events).Some?
    ensures Inv(worker, world, Run(worker, s, events).value)
    decreases |events|
  {
    if events != [] {
      InvStep(worker, world, s, events[0]);
      assert forall i | 0 <= i < |events[1..]| :: events[1..][i] == events[i + 1];
      RunKeepsInv(worker, world, Apply(worker, s, events[0]), events[1..]);
    }
  }

  /** In every interleaving a caller gets a generator that was built, without failing, for its own
      tenant key and for a configuration with the fingerprint of the one resolved in its own call. */
  lemma OwnFingerprint(worker: bool, world: set<Config>, events: seq<Event>, call: CallId)
    requires AllowedRun(world, events) && Run(worker, Empty(), events).Some?
    ensures var s := Run(worker, Empty(), events).value;
            call in s.calls && s.calls[call].Returned? ==>
              var c := s.calls[call];
              && FromBuild(s, c.generator) && c.config in world && c.generator.config in world
              && Fingerprint(c.generator.config) == Fingerprint(c.config)
              && TenantKey(c.generator.tenant) == TenantKey(c.tenant)
  {
    RunKeepsInv(worker, world, Empty(), events);
    var s := Run(worker, Empty(), events).value;
    if call in s.calls && s.calls[call].Returned? {
      var c := s.calls[call];
      assert CallKept(worker, s, c);
      KeyTells(worker, c.generator.config, c.config);
    }
  }

  /** Whoever has returned holds a generator of the configuration resolved in its own call. */
  ghost predicate AllOwn(s: State) {
    forall c | c in s.calls && s.calls[c].Returned? :: s.calls[c].generator.config == s.calls[c].config
  }

  ghost predicate RunGivesOwn(worker: bool, world: set<Config>, events: seq<Event>) {
    AllowedRun(world, events) && Run(worker, Empty(), events).Some? ==> AllOwn(Run(worker, Empty(), events).value)
  }

  /** One caller's build with the first configuration ends; then another asks with the second. */
  function SharedEvents(tenant: Option<string>, first: Config, second: Config, modelId: string): seq<Event> {
    [Begin(0, tenant), Lookup(0, first), Complete(0, modelId), Finish(0), Begin(1, tenant), Lookup(1, second)]
  }

  /** The first caller waits for its build, which has got to the given phase. */
  function FirstWaits(tenant: Option<string>, first: Config, phase: Phase, promises: map<string, nat>, cache: map<string, Entry>): State {
    State(cache, promises, [Build(tenant, first, phase)], map[0 := Waiting(tenant, first, 0)])
  }

  function FirstGenerator(tenant: Option<string>, first: Config, modelId: string): Generator {
    GeneratorOf(0, Build(tenant, first, Running), modelId)
  }

  /** The state when that build is settled. */
  function FirstSettled(worker: bool, tenant: Option<string>, first: Config, modelId: string): State {
    var g := FirstGenerator(tenant, first, modelId);
    FirstWaits(tenant, first, Settled(Some(g)), map[], map[TenantKey(tenant) := Entry(KeyOf(worker, first), g)])
  }

  lemma RunOne(worker: bool, s: State, e: Event, next: State, events: seq<Event>, rest: seq<Event>)
    requires Enabled(s, e) && Apply(worker, s, e) == next && events == [e] + rest
    ensures Run(worker, s, events) == Run(worker, next, rest)
  {
    assert events[1..] == rest;
  }

  lemma FirstAsks(worker: bool, tenant: Option<string>, first: Config, rest: seq<Event>)
    ensures Run(worker, Empty(), [Begin(0, tenant)] + ([Lookup(0, first)] + rest))
         == Run(worker, FirstWaits(tenant, first, Running, map[PromiseKey(worker, tenant, first) := 0], map[]), rest)
  {
    var began := State(map[], map[], [], map[0 := Resolving(tenant)]);
    var asked := FirstWaits(tenant, first, Running, map[PromiseKey(worker, tenant, first) := 0], map[]);
    var next := AfterLookup(worker, began, 0, tenant, first);
    assert next.promises == asked.promises && next.calls == asked.calls && next.cache == asked.cache;
    assert next.builds == asked.builds;
    assert next == asked;
    RunOne(worker, Empty(), Begin(0, tenant), began, [Begin(0, tenant)] + ([Lookup(0, first)] + rest), [Lookup(0, first)] + rest);
    RunOne(worker, began, Lookup(0, first), asked, [Lookup(0, first)] + rest, rest);
  }

  lemma FirstGets(worker: bool, tenant: Option<string>, first: Config, modelId: string, rest: seq<Event>)
    ensures Run(worker, FirstWaits(tenant, first, Running, map[PromiseKey(worker, tenant, first) := 0], map[]),
                [Complete(0, modelId)] + ([Finish(0)] + rest))
         == Run(worker, FirstSettled(worker, tenant, first, modelId), rest)
  {
    var promises := map[PromiseKey(worker, tenant, first) := 0 as nat];
    var g := FirstGenerator(tenant, first, modelId);
    var asked := FirstWaits(tenant, first, Running, promises, map[]);
    var made := FirstWaits(tenant, first, Built(g), promises, map[TenantKey(tenant) := Entry(KeyOf(worker, first), g)]);
    RunOne(worker, asked, Complete(0, modelId), made, [Complete(0, modelId)] + ([Finish(0)] + rest), [Finish(0)] + rest);
    assert promises - {PromiseKey(worker, tenant, first)} == map[];
    RunOne(worker, made, Finish(0), FirstSettled(worker, tenant, first, modelId), [Finish(0)] + rest, rest);
  }

  lemma SecondAsks(worker: bool, tenant: Option<string>, first: Config, second: Config, modelId: string)
    requires Fingerprint(first) == Fingerprint(second)
    ensures var end := Run(worker, FirstSettled(worker, tenant, first, modelId), [Begin(1, tenant), Lookup(1, second)]);
            end.Some? && 1 in end.value.calls
            && end.value.calls[1] == Returned(tenant, second, FirstGenerator(tenant, first, modelId))
  {
    var settled := FirstSettled(worker, tenant, first, modelId);
    var asking := settled.(calls := settled.calls[1 := Resolving(tenant)]);
    RunOne(worker, settled, Begin(1, tenant), asking, [Begin(1, tenant), Lookup(1, second)], [Lookup(1, second)]);
    KeyTells(worker, first, second);
    RunOne(worker, asking, Lookup(1, second), AfterLookup(worker, asking, 1, tenant, second), [Lookup(1, second)], []);
  }

  /** With equal fingerprints the second caller gets the first one's generator from the cache. */
  lemma SharedGenerator(worker: bool, tenant: Option<string>, first: Config, second: Config, modelId: string)
    requires Fingerprint(first) == Fingerprint(second)
    ensures var end := Run(worker, Empty(), SharedEvents(tenant, first, second, modelId));
            end.Some? && 1 in end.value.calls && end.value.calls[1].Returned?
            && end.value.calls[1].config == second && end.value.calls[1].generator.config == first
  {
    var rest := [Begin(1, tenant), Lookup(1, second)];
    var more := [Complete(0, modelId)] + ([Finish(0)] + rest);
    assert SharedEvents(tenant, first, second, modelId) == [Begin(0, tenant)] + ([Lookup(0, first)] + more);
    FirstAsks(worker, tenant, first, more);
    FirstGets(worker, tenant, first, modelId, rest);
    SecondAsks(worker, tenant, first, second, modelId);
  }

  /** Callers get generators of their own configuration in every run exactly when no two
      configurations that are ever resolved share a fingerprint. */
  lemma OwnConfigurationIff(worker: bool, world: set<Config>)
    ensures Faithful(world) <==> forall events :: RunGivesOwn(worker, world, events)
  {
    if Faithful(world) {
      forall events ensures RunGivesOwn(worker, world, events) {
        FaithfulGivesOwn(worker, world, events);
      }
    } else {
      var a, b :| a in world && b in world && Fingerprint(a) == Fingerprint(b) && a != b;
      SharedGenerator(worker, None, a, b, "stub");
      SharedAllowed(world, a, b, "stub");
      assert !RunGivesOwn(worker, world, SharedEvents(None, a, b, "stub"));
    }
  }

  lemma SharedAllowed(world: set<Config>, a: Config, b: Config, modelId: string)
    requires a in world && b in world
    ensures AllowedRun(world, SharedEvents(None, a, b, modelId))
  {
  }

  lemma FaithfulGivesOwn(worker: bool, world: set<Config>, events: seq<Event>)
    requires Faithful(world)
    ensures RunGivesOwn(worker, world, events)
  {
    if AllowedRun(world, events) && Run(worker, Empty(), events).Some? {
      var s := Run(worker, Empty(), events).value;
      forall c | c in s.calls && s.calls[c].Returned? ensures s.calls[c].generator.config == s.calls[c].config {
        OwnFingerprint(worker, world, events, c);
      }
    }
  }

  /** At most one build per tenant and key is in flight. */
  lemma OneInFlight(worker: bool, world: set<Config>, events: seq<Event>, a: nat, b: nat)
    requires AllowedRun(world, events) && Run(worker, Empty(), events).Some?
    ensures var s := Run(worker, Empty(), events).value;
            a < |s.builds| && b < |s.builds| && !s.builds[a].phase.Settled? && !s.builds[b].phase.Settled?
            && TenantKey(s.builds[a].tenant) == TenantKey(s.builds[b].tenant)
            && KeyOf(worker, s.builds[a].config) == KeyOf(worker, s.builds[b].config)
            ==> a == b
  {
    RunKeepsInv(worker, world, Empty(), events);
    var s := Run(worker, Empty(), events).value;
    if a < |s.builds| && b < |s.builds| {
      assert BuildKept(worker, s, a) && BuildKept(worker, s, b);
    }
  }

  /** A failed build never enters the cache: what is cached is the generator of a build that made it. */
  lemma FailedNeverCached(worker: bool, world: set<Config>, events: seq<Event>, t: string)
    requires AllowedRun(world, events) && Run(worker, Empty(), events).Some?
    ensures var s := Run(worker, Empty(), events).value;
            t in s.cache ==> FromBuild(s, s.cache[t].generator) && s.builds[s.cache[t].generator.build].phase != Failed
  {
    RunKeepsInv(worker, world, Empty(), events);
    var s := Run(worker, Empty(), events).value;
    if t in s.cache {
      assert EntryKept(worker, s, t);
    }
  }

  // ---------------------------------------------------------------- the code

  /** The cache, the promises, and the callbacks over them. */
  class Cache {
    const worker: bool
    ghost const world: set<Config>
    var generatorCache: map<string, Entry>
    var generatorPromises: map<string, nat>
    var builds: seq<Build>
    var calls: map<CallId, Call>

    function Current(): State
      reads this
    {
      State(generatorCache, generatorPromises, builds, calls)
    }

    ghost predicate Valid()
      reads this
    {
      Inv(worker, world, Current())
    }

    constructor (worker: bool, ghost world: set<Config>)
      ensures Valid() && this.worker == worker && this.world == world && Current() == Empty()
    {
      this.worker, this.world := worker, world;
      generatorCache, generatorPromises, builds, calls := map[], map[], [], map[];
    }

    /** The part of a call after its configuration is resolved. */
    method Look(call: CallId, config: Config)
      requires Valid() && call in calls && calls[call].Resolving? && config in world
      modifies this
      ensures Valid() && Current() == Apply(worker, old(Current()), Lookup(call, config))
    {
      LookupKeeps(worker, world, Current(), call, config);
      var tenant := calls[call].tenant;
      var tenantKey := TenantKey(tenant);
      var key := KeyOf(worker, config);
      if tenantKey in generatorCache && generatorCache[tenantKey].key == key {
        calls := calls[call := Returned(tenant, config, generatorCache[tenantKey].generator)];
        return;
      }
      var promiseKey := Pair(tenantKey, '|', key);
      if promiseKey in generatorPromises {
        calls := calls[call := Waiting(tenant, config, generatorPromises[promiseKey])];
        return;
      }
      var build := |builds|;
      builds := builds + [Build(tenant, config, Running)];
      generatorPromises := generatorPromises[promiseKey := build];
      calls := calls[call := Waiting(tenant, config, build)];
    }

    /** The `then` callback of a build. */
    method OnBuilt(b: nat, modelId: string)
      requires Valid() && b < |builds| && builds[b].phase.Running?
      modifies this
      ensures Valid() && Current() == Apply(worker, old(Current()), Complete(b, modelId))
    {
      CompleteKeeps(worker, world, Current(), b, modelId);
      var build := builds[b];
      var generator := GeneratorOf(b, build, modelId);
      builds := builds[b := build.(phase := Built(generator))];
      generatorCache := generatorCache[TenantKey(build.tenant) := Entry(KeyOf(worker, build.config), generator)];
    }

    /** The `finally` callback of a build. */
    method OnFinally(b: nat)
      requires Valid() && b < |builds| && (builds[b].phase.Built? || builds[b].phase.Failed?)
      modifies this
      ensures Valid() && Current() == Apply(worker, old(Current()), Finish(b))
    {
      FinishKeeps(worker, world, Current(), b);
      var build := builds[b];
      builds := builds[b := build.(phase := Settled(if build.phase.Built? then Some(build.phase.generator) else None))];
      generatorPromises := generatorPromises - {Pair(TenantKey(build.tenant), '|', KeyOf(worker, build.config))};
    }
  }
}

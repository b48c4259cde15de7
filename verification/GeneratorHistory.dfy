/**
 What the generator cache holds and answers, told by the history: which builds completed and failed.
 */
module GeneratorHistory {
  import opened Basics
  import opened GeneratorCache

  // ---------------------------------------------------------------- what history says

  /** The generator that build `b` makes with this model; it is marked as the tenant's own provider
      exactly if the configuration is the tenant's and the model is not the stub. */
  predicate Makes(b: nat, build: Build, modelId: string, g: Generator) {
    && g.build == b && g.tenant == build.tenant && g.config == build.config && g.modelId == modelId
    && (g.tenantProvider <==> build.config.Some? && build.config.value.ofTenant && modelId != "stub")
  }

  /** A build's phase is what its callbacks so far say. */
  ghost predicate BuildTold(events: seq<Event>, b: nat, build: Build) {
    && (build.phase.Failed? || build.phase == Settled(None) <==> Fail(b) in events)
    && (Made(build.phase).Some? <==> exists m :: Complete(b, m) in events)
    && (Made(build.phase).Some? ==> var g := Made(build.phase).value; Complete(b, g.modelId) in events && Makes(b, build, g.modelId, g))
  }

  /** A build for this tenant completed. */
  predicate CompletesFor(s: State, e: Event, t: string) {
    e.Complete? && e.build < |s.builds| && TenantKey(s.builds[e.build].tenant) == t
  }

  /** Event `i` is the last completion for the tenant. */
  predicate LastCompletion(s: State, events: seq<Event>, t: string, i: nat) {
    && i < |events| && CompletesFor(s, events[i], t)
    && forall j | i < j < |events| :: !CompletesFor(s, events[j], t)
  }

  /** The cache entry is that of the completion. */
  predicate EntryOf(worker: bool, s: State, e: Event, entry: Entry)
    requires e.Complete? && e.build < |s.builds|
  {
    var build := s.builds[e.build];
    entry.key == KeyOf(worker, build.config) && Makes(e.build, build, e.modelId, entry.generator)
  }

  ghost predicate CacheTold(worker: bool, s: State, events: seq<Event>, t: string) {
    if t in s.cache
    then exists i: nat :: LastCompletion(s, events, t, i) && EntryOf(worker, s, events[i], s.cache[t])
    else forall j | 0 <= j < |events| :: !CompletesFor(s, events[j], t)
  }

  ghost predicate Told(worker: bool, s: State, events: seq<Event>) {
    && (forall e | e in events :: (e.Complete? ==> e.build < |s.builds|) && (e.Fail? ==> e.build < |s.builds|))
    && (forall b: nat | b < |s.builds| :: BuildTold(events, b, s.builds[b]))
    && (forall t :: CacheTold(worker, s, events, t))
  }

  // ---------------------------------------------------------------- every step keeps it

  lemma {:induction false} RunSnoc(worker: bool, s: State, events: seq<Event>, e: Event)
    ensures var before := Run(worker, s, events);
            Run(worker, s, events + [e]) ==
            if before.Some? && Enabled(before.value, e) then Some(Apply(worker, before.value, e)) else None
    decreases |events|
  {
    if events == [] {
      assert [] + [e] == [e];
      assert [e][1..] == [];
    } else {
      assert (events + [e])[1..] == events[1..] + [e];
      if Enabled(s, events[0]) {
        RunSnoc(worker, Apply(worker, s, events[0]), events[1..], e);
      }
    }
  }

  lemma StepExtends(worker: bool, s: State, e: Event)
    requires Enabled(s, e)
    ensures Extends(s, Apply(worker, s, e))
  {
  }

  lemma BuildStep(worker: bool, s: State, events: seq<Event>, e: Event, b: nat)
    requires Told(worker, s, events) && Enabled(s, e)
    ensures var next := Apply(worker, s, e); b < |next.builds| ==> BuildTold(events + [e], b, next.builds[b])
  {
    if b < |s.builds| {
      assert BuildTold(events, b, s.builds[b]);
      forall m ensures Complete(b, m) in events + [e] <==> Complete(b, m) in events || e == Complete(b, m) {
      }
    } else {
      assert Fail(b) !in events && forall m :: Complete(b, m) !in events;
    }
  }

  lemma SameCompletions(s: State, next: State, e: Event, t: string)
    requires Extends(s, next) && (e.Complete? ==> e.build < |s.builds|)
    ensures CompletesFor(next, e, t) <==> CompletesFor(s, e, t)
  {
    assert e.Complete? ==> BuildStays(s.builds[e.build], next.builds[e.build]);
  }

  lemma CacheStep(worker: bool, s: State, events: seq<Event>, e: Event, t: string)
    requires Told(worker, s, events) && Enabled(s, e)
    ensures CacheTold(worker, Apply(worker, s, e), events + [e], t)
  {
    var next, all := Apply(worker, s, e), events + [e];
    StepExtends(worker, s, e);
    forall j | 0 <= j < |events| ensures all[j] == events[j] && (CompletesFor(next, all[j], t) <==> CompletesFor(s, events[j], t)) {
      assert events[j] in events;
      SameCompletions(s, next, events[j], t);
    }
    assert all[|events|] == e;
    if CompletesFor(next, e, t) {
      NewEntry(worker, s, e, t);
      assert LastCompletion(next, all, t, |events|);
    } else {
      assert CacheTold(worker, s, events, t);
      SameEntry(worker, s, e, t);
      if t in s.cache {
        var i: nat :| LastCompletion(s, events, t, i) && EntryOf(worker, s, events[i], s.cache[t]);
        EntryStays(worker, s, next, events[i], s.cache[t]);
        assert LastCompletion(next, all, t, i);
      }
    }
  }

  lemma EntryStays(worker: bool, s: State, next: State, e: Event, entry: Entry)
    requires Extends(s, next) && e.Complete? && e.build < |s.builds| && EntryOf(worker, s, e, entry)
    ensures EntryOf(worker, next, e, entry)
  {
    assert BuildStays(s.builds[e.build], next.builds[e.build]);
  }

  lemma NewEntry(worker: bool, s: State, e: Event, t: string)
    requires Enabled(s, e) && CompletesFor(Apply(worker, s, e), e, t)
    ensures var next := Apply(worker, s, e); t in next.cache && EntryOf(worker, next, e, next.cache[t])
  {
  }

  lemma SameEntry(worker: bool, s: State, e: Event, t: string)
    requires Enabled(s, e) && !CompletesFor(Apply(worker, s, e), e, t)
    ensures var next := Apply(worker, s, e); (t in next.cache <==> t in s.cache) && (t in s.cache ==> next.cache[t] == s.cache[t])
  {
  }

  lemma {:induction false} RunTells(worker: bool, events: seq<Event>)
    requires Run(worker, Empty(), events).Some?
    ensures Told(worker, Run(worker, Empty(), events).value, events)
    decreases |events|
  {
    if events != [] {
      var before, e := events[..|events| - 1], events[|events| - 1];
      assert events == before + [e];
      RunSnoc(worker, Empty(), before, e);
      RunTells(worker, before);
      StepTells(worker, Run(worker, Empty(), before).value, before, e);
    }
  }

  lemma StepTells(worker: bool, s: State, events: seq<Event>, e: Event)
    requires Told(worker, s, events) && Enabled(s, e)
    ensures Told(worker, Apply(worker, s, e), events + [e])
  {
    var next := Apply(worker, s, e);
    StepExtends(worker, s, e);
    forall b: nat | b < |next.builds| ensures BuildTold(events + [e], b, next.builds[b]) {
      BuildStep(worker, s, events, e, b);
    }
    forall t ensures CacheTold(worker, next, events + [e], t) {
      CacheStep(worker, s, events, e, t);
    }
  }

  // ---------------------------------------------------------------- what callers get

  /** A build for this tenant and key is under way. */
  predicate UnderWay(worker: bool, s: State, tenant: Option<string>, config: Config, b: nat) {
    && b < |s.builds| && !s.builds[b].phase.Settled?
    && TenantKey(s.builds[b].tenant) == TenantKey(tenant) && KeyOf(worker, s.builds[b].config) == KeyOf(worker, config)
  }

  /** The last build completed for the tenant had the call's key. */
  ghost predicate LastHasKey(worker: bool, s: State, events: seq<Event>, tenant: Option<string>, config: Config) {
    exists i: nat :: LastCompletion(s, events, TenantKey(tenant), i) && KeyOf(worker, s.builds[events[i].build].config) == KeyOf(worker, config)
  }

  lemma LastOnce(s: State, events: seq<Event>, t: string, i: nat, j: nat)
    requires LastCompletion(s, events, t, i) && LastCompletion(s, events, t, j)
    ensures i == j
  {
  }

  lemma HitIff(worker: bool, s: State, events: seq<Event>, tenant: Option<string>, config: Config)
    requires Told(worker, s, events)
    ensures Hit(worker, s, tenant, config) <==> LastHasKey(worker, s, events, tenant, config)
  {
    var t := TenantKey(tenant);
    assert CacheTold(worker, s, events, t);
    if t in s.cache {
      var i: nat :| LastCompletion(s, events, t, i) && EntryOf(worker, s, events[i], s.cache[t]);
      if LastHasKey(worker, s, events, tenant, config) {
        var j: nat :| LastCompletion(s, events, t, j) && KeyOf(worker, s.builds[events[j].build].config) == KeyOf(worker, config);
        LastOnce(s, events, t, i, j);
      }
    }
  }

  lemma PendingIff(worker: bool, world: set<Config>, s: State, tenant: Option<string>, config: Config)
    requires Inv(worker, world, s) && PlainTenant(tenant)
    ensures var k := PromiseKey(worker, tenant, config);
            if k in s.promises then UnderWay(worker, s, tenant, config, s.promises[k])
            else forall b: nat :: !UnderWay(worker, s, tenant, config, b)
  {
    var k := PromiseKey(worker, tenant, config);
    if k in s.promises {
      assert PromiseKept(worker, s, k);
      var build := s.builds[s.promises[k]];
      PairInjective(TenantKey(build.tenant), '|', KeyOf(worker, build.config), TenantKey(tenant), KeyOf(worker, config));
    } else {
      forall b: nat ensures !UnderWay(worker, s, tenant, config, b) {
        assert b < |s.builds| ==> BuildKept(worker, s, b);
      }
    }
  }

  /** A call returns at once exactly when the last build completed for its tenant had its key; otherwise it
      waits for the build under way for its tenant and key, and starts one exactly when there is none. */
  lemma LookupTells(worker: bool, world: set<Config>, events: seq<Event>, call: CallId, config: Config)
    requires AllowedRun(world, events) && Run(worker, Empty(), events).Some?
    requires var s := Run(worker, Empty(), events).value; call in s.calls && s.calls[call].Resolving?
    ensures var s := Run(worker, Empty(), events).value;
            var tenant, next := s.calls[call].tenant, Apply(worker, s, Lookup(call, config));
            && call in next.calls
            && (next.calls[call].Returned? <==> LastHasKey(worker, s, events, tenant, config))
            && (!next.calls[call].Returned? ==> next.calls[call].Waiting? && UnderWay(worker, next, tenant, config, next.calls[call].build))
            && (|next.builds| > |s.builds| <==>
                !LastHasKey(worker, s, events, tenant, config) && forall b: nat :: !UnderWay(worker, s, tenant, config, b))
            && (!next.calls[call].Returned? ==> forall b: nat :: UnderWay(worker, s, tenant, config, b) ==> b == next.calls[call].build)
  {
    RunKeepsInv(worker, world, Empty(), events);
    RunTells(worker, events);
    var s := Run(worker, Empty(), events).value;
    var tenant := s.calls[call].tenant;
    HitIff(worker, s, events, tenant, config);
    PendingIff(worker, world, s, tenant, config);
    forall b: nat | UnderWay(worker, s, tenant, config, b) ensures s.promises[PromiseKey(worker, tenant, config)] == b {
      assert BuildKept(worker, s, b);
    }
  }

  /** A call that has waited gets the generator of its build, or throws exactly when that build failed. */
  lemma DeliverTells(worker: bool, events: seq<Event>, call: CallId)
    requires Run(worker, Empty(), events).Some? && Enabled(Run(worker, Empty(), events).value, Deliver(call))
    ensures var s := Run(worker, Empty(), events).value;
            var b, next := s.calls[call].build, Apply(worker, s, Deliver(call));
            && call in next.calls
            && (next.calls[call].Thrown? <==> Fail(b) in events)
            && (!next.calls[call].Thrown? ==>
                  var g := next.calls[call].generator; Complete(b, g.modelId) in events && Makes(b, s.builds[b], g.modelId, g))
  {
    RunTells(worker, events);
    var s := Run(worker, Empty(), events).value;
    var b := s.calls[call].build;
    assert BuildTold(events, b, s.builds[b]);
  }

  /** In every run a caller holds a generator that is marked as its tenant's own provider exactly if it is. */
  lemma MarkedIff(worker: bool, world: set<Config>, events: seq<Event>, call: CallId)
    requires AllowedRun(world, events) && Run(worker, Empty(), events).Some?
    ensures var s := Run(worker, Empty(), events).value;
            call in s.calls && s.calls[call].Returned? ==>
              var g := s.calls[call].generator;
              && g.build < |s.builds| && Makes(g.build, s.builds[g.build], g.modelId, g) && Complete(g.build, g.modelId) in events
  {
    OwnFingerprint(worker, world, events, call);
    RunTells(worker, events);
    var s := Run(worker, Empty(), events).value;
    if call in s.calls && s.calls[call].Returned? {
      var b := s.calls[call].generator.build;
      assert BuildTold(events, b, s.builds[b]);
    }
  }
}

/** The contract's copy of the policy: applying every action of each activated plan once, in any
    order, keeps it equal to the live policy. */
module ContractMirror {
  import opened Wrappers
  import opened Text
  import opened Ordering
  import opened FeedPolicies
  import opened CatalogValidation
  import opened OnChainPlans
  import opened CatalogGovernance
  import opened CatalogRuns
  import opened CatalogTheorems
  import opened CatalogRollback

  /** What the contract stores of a policy: trusted assets, registered provider addresses and one
      deviation threshold. */
  datatype Contract = Contract(trusted: set<string>, sources: set<string>, threshold: Option<int>)

  function Apply(c: Contract, a: Action): Contract {
    match a
    case SetTrustedAsset(asset, trusted) =>
      c.(trusted := if trusted then c.trusted + {asset} else c.trusted - {asset})
    case AddSource(source, _) => c.(sources := c.sources + {source})
    case RemoveSource(source) => c.(sources := c.sources - {source})
    case SetDeviationThreshold(t) => c.(threshold := Some(t))
  }

  function ApplyAll(c: Contract, actions: seq<Action>): Contract {
    if actions == [] then c else Apply(ApplyAll(c, actions[..|actions| - 1]), actions[|actions| - 1])
  }

  // ── Actions that do not contradict each other commute ─────────────────────

  ghost predicate Adds(actions: seq<Action>, source: string) {
    exists i :: 0 <= i < |actions| && actions[i].AddSource? && actions[i].source == source
  }

  lemma {:induction false} TrustedAfter(c: Contract, actions: seq<Action>, k: string)
    requires !(SetTrustedAsset(k, true) in actions && SetTrustedAsset(k, false) in actions)
    ensures k in ApplyAll(c, actions).trusted <==>
      SetTrustedAsset(k, true) in actions || (k in c.trusted && SetTrustedAsset(k, false) !in actions)
  {
    if actions != [] {
      var n := |actions| - 1;
      assert actions == actions[..n] + [actions[n]];
      TrustedAfter(c, actions[..n], k);
    }
  }

  lemma {:induction false} RegisteredAfter(c: Contract, actions: seq<Action>, x: string)
    requires !(Adds(actions, x) && RemoveSource(x) in actions)
    ensures x in ApplyAll(c, actions).sources <==>
      Adds(actions, x) || (x in c.sources && RemoveSource(x) !in actions)
  {
    if actions != [] {
      var n := |actions| - 1;
      assert actions == actions[..n] + [actions[n]];
      assert Adds(actions, x) <==> Adds(actions[..n], x) || (actions[n].AddSource? && actions[n].source == x);
      RegisteredAfter(c, actions[..n], x);
    }
  }

  lemma {:induction false} ThresholdAfter(c: Contract, actions: seq<Action>, t: int)
    requires forall u :: SetDeviationThreshold(u) in actions ==> t == u
    ensures ApplyAll(c, actions).threshold == if SetDeviationThreshold(t) in actions then Some(t) else c.threshold
  {
    if actions != [] {
      var n := |actions| - 1;
      assert actions == actions[..n] + [actions[n]];
      ThresholdAfter(c, actions[..n], t);
    }
  }

  // ── The mirror ────────────────────────────────────────────────────────────

  predicate Publishes(m: Catalog, k: string) {
    k in m && m[k].enabled
  }

  ghost predicate Registered(sources: set<string>, addresses: Addresses, x: string) {
    exists s :: s in sources && HasAddress(addresses, s) && addresses[s] == x
  }

  /** The contract state is the image of the feed list. */
  ghost predicate Mirrors(c: Contract, feeds: seq<FeedPolicy>, addresses: Addresses) {
    && (forall k :: k in c.trusted <==> Publishes(Index(feeds), k))
    && (forall s :: s in EnabledSources(feeds) ==> HasAddress(addresses, s))
    && (forall x :: x in c.sources <==> Registered(EnabledSources(feeds), addresses, x))
    && (forall t :: Shared(feeds, t) ==> c.threshold == Some(t))
  }

  ghost predicate Injective(addresses: Addresses) {
    forall s, u :: HasAddress(addresses, s) && HasAddress(addresses, u) && addresses[s] == addresses[u] ==> s == u
  }

  ghost predicate Agrees(given: Addresses, addresses: Addresses) {
    forall s :: HasAddress(given, s) ==> HasAddress(addresses, s) && addresses[s] == given[s]
  }

  lemma TrustMirrored(c: Contract, before: seq<FeedPolicy>, after: seq<FeedPolicy>, given: Addresses, actions: seq<Action>, k: string)
    requires k in c.trusted <==> Publishes(Index(before), k)
    requires SameElements(actions, Plan(before, after, given).actions)
    ensures k in ApplyAll(c, actions).trusted <==> Publishes(Index(after), k)
  {
    hide Plan, ApplyAll, Index;
    PlanExact(before, after, given, SetTrustedAsset(k, true));
    PlanExact(before, after, given, SetTrustedAsset(k, false));
    TrustedAfter(c, actions, k);
  }

  lemma PlannedSources(before: seq<FeedPolicy>, after: seq<FeedPolicy>, given: Addresses, actions: seq<Action>, x: string)
    requires SameElements(actions, Plan(before, after, given).actions)
    ensures Adds(actions, x) <==> Registered(EnabledSources(after) - EnabledSources(before), given, x)
    ensures RemoveSource(x) in actions <==> Registered(EnabledSources(before) - EnabledSources(after), given, x)
  {
    hide Plan, EnabledSources;
    var up := EnabledSources(after) - EnabledSources(before);
    PlanExact(before, after, given, RemoveSource(x));
    if Adds(actions, x) {
      var i :| 0 <= i < |actions| && actions[i].AddSource? && actions[i].source == x;
      assert actions[i] in actions;
      PlanExact(before, after, given, actions[i]);
    }
    if Registered(up, given, x) {
      var s :| s in up && HasAddress(given, s) && given[s] == x;
      PlanExact(before, after, given, AddSource(x, s));
      assert AddSource(x, s) in actions;
    }
  }

  /** Registering what is new and removing what is gone turns the image of `was` into that of `is`. */
  lemma SourcesMove(was: set<string>, now: set<string>, given: Addresses, addresses: Addresses, x: string)
    requires Injective(addresses) && Agrees(given, addresses)
    requires forall s :: s in was && s !in now ==> HasAddress(given, s)
    requires forall s :: s in now && s !in was ==> HasAddress(given, s)
    ensures !(Registered(now - was, given, x) && Registered(was - now, given, x))
    ensures Registered(now, addresses, x) <==>
      Registered(now - was, given, x) || (Registered(was, addresses, x) && !Registered(was - now, given, x))
  {
    if Registered(now, addresses, x) {
      var s :| s in now && HasAddress(addresses, s) && addresses[s] == x;
      NotDropped(was, now, given, addresses, s);
    }
    if Registered(was, addresses, x) && !Registered(was - now, given, x) {
      var s :| s in was && HasAddress(addresses, s) && addresses[s] == x;
      assert s in now;
    }
  }

  lemma NotDropped(was: set<string>, now: set<string>, given: Addresses, addresses: Addresses, s: string)
    requires Injective(addresses) && Agrees(given, addresses)
    requires s in now && HasAddress(addresses, s)
    ensures !Registered(was - now, given, addresses[s])
  {
  }

  lemma SourceMirrored(c: Contract, before: seq<FeedPolicy>, after: seq<FeedPolicy>, given: Addresses, addresses: Addresses,
                       actions: seq<Action>, x: string)
    requires x in c.sources <==> Registered(EnabledSources(before), addresses, x)
    requires SameElements(actions, Plan(before, after, given).actions)
    requires Plan(before, after, given).missingSourceAddresses == []
    requires Injective(addresses) && Agrees(given, addresses)
    ensures x in ApplyAll(c, actions).sources <==> Registered(EnabledSources(after), addresses, x)
  {
    hide Plan, ApplyAll, EnabledSources, Registered, Injective, Agrees, Adds;
    NoMissingExact(before, after, given);
    PlannedSources(before, after, given, actions, x);
    SourcesMove(EnabledSources(before), EnabledSources(after), given, addresses, x);
    RegisteredAfter(c, actions, x);
  }

  lemma ThresholdMirrored(c: Contract, before: seq<FeedPolicy>, after: seq<FeedPolicy>, given: Addresses, actions: seq<Action>, t: int)
    requires Shared(before, t) ==> c.threshold == Some(t)
    requires SameElements(actions, Plan(before, after, given).actions)
    requires Shared(after, t)
    ensures ApplyAll(c, actions).threshold == Some(t)
  {
    hide Plan, ApplyAll;
    forall u | SetDeviationThreshold(u) in actions ensures t == u {
      PlanExact(before, after, given, SetDeviationThreshold(u));
    }
    PlanExact(before, after, given, SetDeviationThreshold(t));
    ThresholdAfter(c, actions, t);
  }

  /** Executing a plan, in any order, moves the mirror from the old feed list to the new one. */
  lemma PlanMirrors(c: Contract, before: seq<FeedPolicy>, after: seq<FeedPolicy>, given: Addresses, addresses: Addresses,
                    actions: seq<Action>)
    requires Mirrors(c, before, addresses)
    requires SameElements(actions, Plan(before, after, given).actions)
    requires Plan(before, after, given).missingSourceAddresses == []
    requires Injective(addresses) && Agrees(given, addresses)
    ensures Mirrors(ApplyAll(c, actions), after, addresses)
  {
    hide Plan, ApplyAll, EnabledSources, Registered, Injective, Index, Shared, Publishes;
    var d := ApplyAll(c, actions);
    forall k ensures k in d.trusted <==> Publishes(Index(after), k) { TrustMirrored(c, before, after, given, actions, k); }
    NoMissingExact(before, after, given);
    forall s | s in EnabledSources(after) ensures HasAddress(addresses, s) { }
    forall x ensures x in d.sources <==> Registered(EnabledSources(after), addresses, x) {
      SourceMirrored(c, before, after, given, addresses, actions, x);
    }
    forall t | Shared(after, t) ensures d.threshold == Some(t) { ThresholdMirrored(c, before, after, given, actions, t); }
  }

  // ── Executions ────────────────────────────────────────────────────────────

  /** The actions in the order they were executed. */
  function Executed(actions: seq<Action>, executions: seq<Execution>): (r: seq<Action>)
    requires forall i :: 0 <= i < |executions| ==> 0 <= executions[i].actionIndex < |actions|
    ensures |r| == |executions|
  {
    seq(|executions|, i requires 0 <= i < |executions| => actions[executions[i].actionIndex])
  }

  function Below(n: nat): (r: set<int>)
    ensures |r| == n && forall x :: x in r <==> 0 <= x < n
  {
    if n == 0 then {} else Below(n - 1) + {n - 1}
  }

  function Named(executions: seq<Execution>): (r: set<int>)
    ensures forall x :: x in r <==> exists i :: 0 <= i < |executions| && executions[i].actionIndex == x
  {
    if executions == [] then {} else
      var n := |executions| - 1;
      Named(executions[..n]) + {executions[n].actionIndex}
  }

  ghost predicate OnceEach(executions: seq<Execution>) {
    forall i, j :: 0 <= i < j < |executions| ==> executions[i].actionIndex != executions[j].actionIndex
  }

  lemma {:induction false} NamedSize(executions: seq<Execution>)
    requires OnceEach(executions)
    ensures |Named(executions)| == |executions|
  {
    if executions != [] {
      var n := |executions| - 1;
      NamedSize(executions[..n]);
      assert executions[n].actionIndex !in Named(executions[..n]);
    }
  }

  lemma SubsetOfSameSize(a: set<int>, b: set<int>)
    requires a <= b && |a| == |b|
    ensures a == b
  {
    assert b == a + (b - a);
    assert |b| == |a| + |b - a|;
  }

  lemma NoBadExecutions(expected: nat, executions: seq<Execution>)
    requires ExecutionsError(expected, executions) == None
    ensures |executions| == expected && OnceEach(executions)
    ensures forall i :: 0 <= i < |executions| ==> 0 <= executions[i].actionIndex < expected
  {
    forall i | 0 <= i < |executions| ensures !BadExecution(expected, executions, i) { }
    forall i, j | 0 <= i < j < |executions| ensures executions[i].actionIndex != executions[j].actionIndex {
      assert !BadExecution(expected, executions, j);
    }
    forall i | 0 <= i < |executions| ensures 0 <= executions[i].actionIndex < expected {
      assert !BadExecution(expected, executions, i);
    }
  }

  /** Executions that activation accepts name every action of the plan, each once. */
  lemma ExecutionsCover(actions: seq<Action>, executions: seq<Execution>)
    requires ExecutionsError(|actions|, executions) == None
    ensures forall i :: 0 <= i < |executions| ==> 0 <= executions[i].actionIndex < |actions|
    ensures |Executed(actions, executions)| == |actions|
    ensures SameElements(Executed(actions, executions), actions)
  {
    hide ExecutionsError, Below, Named;
    NoBadExecutions(|actions|, executions);
    NamedSize(executions);
    SubsetOfSameSize(Named(executions), Below(|actions|));
    CoverElements(actions, executions);
  }

  lemma CoverElements(actions: seq<Action>, executions: seq<Execution>)
    requires forall i :: 0 <= i < |executions| ==> 0 <= executions[i].actionIndex < |actions|
    requires Named(executions) == Below(|actions|)
    ensures SameElements(Executed(actions, executions), actions)
  {
    hide Below, Named;
    var r := Executed(actions, executions);
    forall x | x in actions ensures x in r {
      var k :| 0 <= k < |actions| && actions[k] == x;
      assert k in Named(executions);
      var i :| 0 <= i < |executions| && executions[i].actionIndex == k;
      assert r[i] == x;
    }
  }

  // ── Whole runs ────────────────────────────────────────────────────────────

  /** The contract after an event: an accepted activation has executed its plan, in the order of
      its executions. */
  function ContractStep(s: State, c: Contract, e: Event): Contract {
    if e.Execute? && Activate(s, e.id, e.actor, e.executions, e.restrictions, e.now).result.Ok?
       && e.id in s.proposals
       && (forall i :: 0 <= i < |e.executions| ==> 0 <= e.executions[i].actionIndex < |s.proposals[e.id].plan.actions|)
    then ApplyAll(c, Executed(s.proposals[e.id].plan.actions, e.executions))
    else c
  }

  function ContractRun(s: State, c: Contract, events: seq<Event>): Contract {
    if events == [] then c else
      var n := |events| - 1;
      ContractStep(Run(s, events[..n]), ContractRun(s, c, events[..n]), events[n])
  }

  function Supplied(e: Event): Addresses {
    match e
    case Create(input, _) => input.sourceAddresses
    case CreateRollbackOf(input, _) => input.sourceAddresses
    case _ => map[]
  }

  ghost predicate AddressBook(s: State, addresses: Addresses) {
    forall id :: id in s.proposals ==> Agrees(s.proposals[id].sourceAddresses, addresses)
  }

  lemma StepAddressBook(s: State, e: Event, addresses: Addresses)
    requires AddressBook(s, addresses) && Agrees(Supplied(e), addresses)
    ensures AddressBook(Step(s, e), addresses)
  {
    hide Validate, Plan, NormalizeChange, Trim, Trimmed, SafetyGate, FindVersion, Project, Agrees, RollbackChange, RollbackDescription;
  }

  lemma {:induction false} RunAddressBook(feeds: seq<FeedPolicy>, events: seq<Event>, addresses: Addresses)
    requires forall i :: 0 <= i < |events| ==> Agrees(Supplied(events[i]), addresses)
    ensures AddressBook(Run(Genesis(feeds), events), addresses)
  {
    hide Step, AddressBook, Agrees, Supplied;
    if events == [] {
      NoProposals(feeds, addresses);
    } else {
      RunAddressBook(feeds, events[..|events| - 1], addresses);
      StepAddressBook(Run(Genesis(feeds), events[..|events| - 1]), events[|events| - 1], addresses);
    }
  }

  lemma NoProposals(feeds: seq<FeedPolicy>, addresses: Addresses)
    ensures AddressBook(Genesis(feeds), addresses)
  {
    hide Sort, NormalizeFeeds;
  }

  lemma QuietStep(s: State, e: Event)
    requires !(e.Execute? && Activate(s, e.id, e.actor, e.executions, e.restrictions, e.now).result.Ok?)
    ensures Step(s, e).versions == s.versions
  {
    hide Validate, Plan, NormalizeChange, Trim, Trimmed, SafetyGate, FindVersion, Project, RollbackProposal;
  }

  lemma AcceptedExecutions(s: State, id: int, actor: string, executions: seq<Execution>, r: Restrictions, now: int)
    requires Activate(s, id, actor, executions, r, now).result.Ok?
    ensures id in s.proposals && ExecutionsError(|s.proposals[id].plan.actions|, executions) == None
    ensures Validate(Current(s), s.proposals[id].change).errors == []
  {
    hide Validate, Plan, Trim, Trimmed, AnyFrozen, ExecutionsError, Project;
  }

  lemma StepMirrors(s: State, c: Contract, e: Event, addresses: Addresses)
    requires Inv(s) && AddressBook(s, addresses) && Injective(addresses)
    requires Mirrors(c, Current(s).feeds, addresses)
    ensures Mirrors(ContractStep(s, c, e), Current(Step(s, e)).feeds, addresses)
  {
    hide Inv, Mirrors, Injective, Agrees, Validate, Plan, Activate, Project, ApplyAll, Executed;
    if e.Execute? && Activate(s, e.id, e.actor, e.executions, e.restrictions, e.now).result.Ok? {
      AcceptedExecutions(s, e.id, e.actor, e.executions, e.restrictions, e.now);
      ActivationPublishes(s, e.id, e.actor, e.executions, e.restrictions, e.now);
      var p := s.proposals[e.id];
      ExecutionsCover(p.plan.actions, e.executions);
      DriftExact(s, e.id);
      PlanComplete(s, e.id);
      NextFeedsProject(Current(s), p.change);
      PlanMirrors(c, Current(s).feeds, Project(Current(s).feeds, p.change), p.sourceAddresses, addresses,
                  Executed(p.plan.actions, e.executions));
    } else {
      QuietStep(s, e);
    }
  }

  lemma PlanComplete(s: State, id: int)
    requires Inv(s) && id in s.proposals
    ensures s.proposals[id].plan.missingSourceAddresses == [] && NormalChange(s.proposals[id].change)
  {
    hide Inv, Validate, Plan, Published, Independent, StatusMeans, NormalChange;
    LedgerOk(s, id);
  }

  /** If the contract mirrors the genesis policy and all proposals use one injective address map,
      then after every event of every run the contract mirrors the live policy: trusted assets and
      registered providers always, the threshold whenever all enabled feeds share one. */
  lemma {:induction false} ContractMirrorsPolicy(feeds: seq<FeedPolicy>, c: Contract, events: seq<Event>, addresses: Addresses)
    requires Mirrors(c, Current(Genesis(feeds)).feeds, addresses) && Injective(addresses)
    requires forall i :: 0 <= i < |events| ==> Agrees(Supplied(events[i]), addresses)
    ensures Mirrors(ContractRun(Genesis(feeds), c, events), Current(Run(Genesis(feeds), events)).feeds, addresses)
  {
    hide Step, ContractStep, Mirrors, Injective, Agrees, Supplied, Genesis, Inv, AddressBook;
    if events != [] {
      var n := |events| - 1;
      ContractMirrorsPolicy(feeds, c, events[..n], addresses);
      GenesisInv(feeds);
      RunKeeps(Genesis(feeds), events[..n]);
      RunAddressBook(feeds, events[..n], addresses);
      StepMirrors(Run(Genesis(feeds), events[..n]), ContractRun(Genesis(feeds), c, events[..n]), events[n], addresses);
    }
  }
}

/**
 * Chain resolution (`config/chains.py`), the local-only projection (`proactive/watchers.py`) and the
 * name-list route (`delegate/internal_api.py`).
 */
module Chains {
  import opened Common

  datatype Candidate = Candidate(name: string, endpoint: string, local: bool, model: string)

  datatype Chain = Chain(taskType: string, candidates: seq<string>, explicitOrder: bool, staysHosted: bool)

  datatype ChainsConfig = ChainsConfig(chains: seq<Chain>, allowRemote: bool)

  type Registry = map<string, Candidate>

  const PROACTIVE_CHECK := "proactive_check"
  const PRE_RESOLVED := "__josu_internal_pre_resolved__"

  const IsLocal := (c: Candidate) => c.local
  const IsRemote := (c: Candidate) => !c.local

  /** Registries are built as `{c.name: c}`, so a key is always its candidate's name. */
  ghost predicate NamedByKey(registry: Registry) {
    forall n :: n in registry ==> registry[n].name == n
  }

  // ----- Resolution -----

  /** `sorted(candidates, key=lambda c: not c.local)`: insertion after every element with an equal or smaller key. */
  function DefaultChainOrder(cs: seq<Candidate>): seq<Candidate> {
    if cs == [] then [] else InsertStably(DefaultChainOrder(cs[..|cs| - 1]), cs[|cs| - 1])
  }

  function InsertStably(sorted: seq<Candidate>, c: Candidate): seq<Candidate> {
    if sorted != [] && c.local && !sorted[|sorted| - 1].local
    then InsertStably(sorted[..|sorted| - 1], c) + [sorted[|sorted| - 1]]
    else sorted + [c]
  }

  function FindChain(chains: seq<Chain>, taskType: string): Option<Chain> {
    if chains == [] then None
    else if chains[0].taskType == taskType then Some(chains[0])
    else FindChain(chains[1..], taskType)
  }

  function LookupCandidates(names: seq<string>, registry: Registry): seq<Candidate> {
    if names == [] then []
    else (if names[0] in registry then [registry[names[0]]] else []) + LookupCandidates(names[1..], registry)
  }

  function ResolveChain(taskType: string, config: ChainsConfig, registry: Registry): seq<Candidate> {
    match FindChain(config.chains, taskType)
    case None => []
    case Some(chain) =>
      if chain.staysHosted then []
      else
        var found := LookupCandidates(chain.candidates, registry);
        var ordered := if chain.explicitOrder then found else DefaultChainOrder(found);
        if config.allowRemote then ordered else Filter(ordered, IsLocal)
  }

  function ResolveProactiveCheckChain(config: ChainsConfig, registry: Registry): seq<Candidate> {
    match FindChain(config.chains, PROACTIVE_CHECK)
    case None => []
    case Some(chain) =>
      var local := Filter(LookupCandidates(chain.candidates, registry), IsLocal);
      if chain.explicitOrder then local else DefaultChainOrder(local)
  }

  /** Only the first entry for a task type is ever used. */
  lemma {:induction false} FirstMatchWins(chains: seq<Chain>, taskType: string)
    ensures match FindChain(chains, taskType)
            case None => forall i :: 0 <= i < |chains| ==> chains[i].taskType != taskType
            case Some(c) => exists i :: 0 <= i < |chains| && chains[i] == c && c.taskType == taskType
                              && forall j :: 0 <= j < i ==> chains[j].taskType != taskType
  {
    if chains != [] && chains[0].taskType != taskType {
      FirstMatchWins(chains[1..], taskType);
      assert forall j :: 0 <= j < |chains| - 1 ==> chains[1..][j] == chains[j + 1];
      if FindChain(chains, taskType).Some? {
        var i :| 0 <= i < |chains| - 1 && chains[1..][i] == FindChain(chains, taskType).value
                 && forall j :: 0 <= j < i ==> chains[1..][j].taskType != taskType;
        assert chains[i + 1] == FindChain(chains, taskType).value;
        assert forall j :: 0 <= j < i + 1 ==> chains[j].taskType != taskType by {
          assert forall j :: 1 <= j < i + 1 ==> chains[j] == chains[1..][j - 1];
        }
      }
    }
  }

  // ----- Projections -----

  function Names(cs: seq<Candidate>): seq<string> {
    seq(|cs|, i requires 0 <= i < |cs| => cs[i].name)
  }

  /** `{c.name: c for c in cs}`: a later duplicate name wins. */
  function ByName(cs: seq<Candidate>): Registry {
    if cs == [] then map[] else ByName(cs[..|cs| - 1])[cs[|cs| - 1].name := cs[|cs| - 1]]
  }

  function SingleChain(taskType: string, cs: seq<Candidate>): ChainsConfig {
    ChainsConfig([Chain(taskType, Names(cs), true, false)], false)
  }

  /** `_local_only_execution_inputs`: nothing at all when no local candidate is available. */
  function LocalOnlyInputs(config: ChainsConfig, registry: Registry): Option<(ChainsConfig, Registry)> {
    var cs := ResolveProactiveCheckChain(config, registry);
    if cs == [] then None else Some((SingleChain(PROACTIVE_CHECK, cs), ByName(cs)))
  }

  /** The `candidates` branch of the internal route: names in, throwaway chain and registry out. */
  function NameListInputs(names: seq<string>, registry: Registry): (ChainsConfig, Registry) {
    var cs := Filter(LookupCandidates(names, registry), IsLocal);
    (SingleChain(PRE_RESOLVED, cs), ByName(cs))
  }

  // ----- The default ordering is the stable sort -----

  ghost predicate LocalFirst(cs: seq<Candidate>) {
    forall i, j :: 0 <= i < j < |cs| && cs[j].local ==> cs[i].local
  }

  lemma {:induction false} InsertKeepsLocalFirst(sorted: seq<Candidate>, c: Candidate)
    requires LocalFirst(sorted)
    ensures LocalFirst(InsertStably(sorted, c))
    ensures multiset(InsertStably(sorted, c)) == multiset(sorted + [c])
  {
    if sorted != [] && c.local && !sorted[|sorted| - 1].local {
      var (init, last) := (sorted[..|sorted| - 1], sorted[|sorted| - 1]);
      InsertKeepsLocalFirst(init, c);
      var r := InsertStably(init, c);
      assert sorted + [c] == init + [last] + [c];
      assert InsertStably(sorted, c) == r + [last];
    }
  }

  function Group(local: bool): Candidate -> bool {
    if local then IsLocal else IsRemote
  }

  lemma {:induction false} FilterTwo(c: Candidate, last: Candidate, local: bool)
    requires c.local && !last.local
    ensures Filter([c], Group(local)) + Filter([last], Group(local))
            == Filter([last], Group(local)) + Filter([c], Group(local))
  {
    FilterAllOrNone([c], Group(local));
    FilterAllOrNone([last], Group(local));
  }

  /** Moving `c` left past remote candidates disturbs neither the locals nor the remotes. */
  lemma {:induction false} InsertKeepsGroup(sorted: seq<Candidate>, c: Candidate, local: bool)
    ensures Filter(InsertStably(sorted, c), Group(local)) == Filter(sorted, Group(local)) + Filter([c], Group(local))
  {
    if sorted != [] && c.local && !sorted[|sorted| - 1].local {
      var (init, last) := (sorted[..|sorted| - 1], sorted[|sorted| - 1]);
      InsertKeepsGroup(init, c, local);
      assert sorted == init + [last];
      FilterAppend(InsertStably(init, c), [last], Group(local));
      FilterAppend(init, [last], Group(local));
      FilterTwo(c, last, local);
    } else {
      FilterAppend(sorted, [c], Group(local));
    }
  }

  /** Local candidates first, each group in its authored order, nothing lost or repeated. */
  lemma {:induction false} DefaultOrderSorts(cs: seq<Candidate>)
    ensures LocalFirst(DefaultChainOrder(cs))
    ensures Filter(DefaultChainOrder(cs), IsLocal) == Filter(cs, IsLocal)
    ensures Filter(DefaultChainOrder(cs), IsRemote) == Filter(cs, IsRemote)
    ensures multiset(DefaultChainOrder(cs)) == multiset(cs)
  {
    if cs != [] {
      var (init, last) := (cs[..|cs| - 1], cs[|cs| - 1]);
      assert cs == init + [last];
      DefaultOrderSorts(init);
      InsertKeepsLocalFirst(DefaultChainOrder(init), last);
      InsertKeepsGroup(DefaultChainOrder(init), last, true);
      InsertKeepsGroup(DefaultChainOrder(init), last, false);
      FilterAppend(init, [last], IsLocal);
      FilterAppend(init, [last], IsRemote);
    }
  }

  lemma {:induction false} AfterARemote(cs: seq<Candidate>)
    requires LocalFirst(cs) && cs != [] && !cs[0].local
    ensures Filter(cs, IsLocal) == [] && Filter(cs, IsRemote) == cs
  {
    forall i | 0 <= i < |cs|
      ensures !cs[i].local
    {
    }
    FilterAllOrNone(cs, IsLocal);
    FilterAllOrNone(cs, IsRemote);
  }

  /** Those three conditions leave one list: the locals, then the remotes. */
  lemma {:induction false} LocalFirstSplits(cs: seq<Candidate>)
    requires LocalFirst(cs)
    ensures cs == Filter(cs, IsLocal) + Filter(cs, IsRemote)
  {
    if cs != [] && cs[0].local {
      LocalFirstSplits(cs[1..]);
      assert Filter(cs, IsLocal) == [cs[0]] + Filter(cs[1..], IsLocal);
      assert Filter(cs, IsRemote) == Filter(cs[1..], IsRemote);
    } else if cs != [] {
      AfterARemote(cs);
    }
  }

  lemma {:induction false} StableSortIsUnique(cs: seq<Candidate>, r: seq<Candidate>)
    ensures r == DefaultChainOrder(cs)
            <==> && LocalFirst(r)
                 && Filter(r, IsLocal) == Filter(cs, IsLocal) && Filter(r, IsRemote) == Filter(cs, IsRemote)
  {
    DefaultOrderSorts(cs);
    LocalFirstSplits(DefaultChainOrder(cs));
    if LocalFirst(r) {
      LocalFirstSplits(r);
    }
  }

  // ----- allow_remote -----

  /** Turning `allow_remote` off keeps exactly the local subsequence, a prefix under the default order. */
  lemma {:induction false} RemoteGateKeepsTheLocals(taskType: string, chains: seq<Chain>, registry: Registry)
    ensures var off := ResolveChain(taskType, ChainsConfig(chains, false), registry);
            var on := ResolveChain(taskType, ChainsConfig(chains, true), registry);
            && off == Filter(on, IsLocal)
            && (FindChain(chains, taskType).Some? && !FindChain(chains, taskType).value.explicitOrder ==> off <= on)
  {
    var on := ResolveChain(taskType, ChainsConfig(chains, true), registry);
    match FindChain(chains, taskType)
    case None =>
    case Some(chain) =>
      if !chain.staysHosted && !chain.explicitOrder {
        DefaultOrderSorts(LookupCandidates(chain.candidates, registry));
        LocalFirstSplits(on);
      }
  }

  /** The registry entries of the names that have one, in order. */
  function Registered(names: seq<string>, registry: Registry): seq<Candidate> {
    var known := Filter(names, (n: string) => n in registry);
    seq(|known|, i requires 0 <= i < |known| => assert known[i] in known; registry[known[i]])
  }

  lemma {:induction false} LookupIsTheRegistered(names: seq<string>, registry: Registry)
    ensures LookupCandidates(names, registry) == Registered(names, registry)
  {
    if names != [] {
      LookupIsTheRegistered(names[1..], registry);
    }
  }

  /**
   * What a chain resolves to: nothing when there is none for the task type or it stays hosted, and otherwise the
   * registered candidates it names, without the remote ones unless these are allowed; in authored order if the chain
   * asks for it, else local first with both groups in authored order.
   */
  lemma {:induction false} ResolvesExactly(taskType: string, config: ChainsConfig, registry: Registry)
    ensures match FindChain(config.chains, taskType)
            case None => ResolveChain(taskType, config, registry) == []
            case Some(chain) =>
              var (r, named) := (ResolveChain(taskType, config, registry), Registered(chain.candidates, registry));
              if chain.staysHosted then r == []
              else if chain.explicitOrder then
                r == if config.allowRemote then named else Filter(named, (c: Candidate) => c.local)
              else
                && LocalFirst(r) && (config.allowRemote ==> multiset(r) == multiset(named))
                && Filter(r, (c: Candidate) => c.local) == Filter(named, (c: Candidate) => c.local)
                && Filter(r, (c: Candidate) => !c.local)
                   == if config.allowRemote then Filter(named, (c: Candidate) => !c.local) else []
  {
    match FindChain(config.chains, taskType)
    case None =>
    case Some(chain) =>
      LookupIsTheRegistered(chain.candidates, registry);
      var named := Registered(chain.candidates, registry);
      DefaultOrderSorts(named);
      SameFilter(named);
      if !chain.staysHosted {
        SameFilter(ResolveChain(taskType, config, registry));
        if !config.allowRemote && !chain.explicitOrder {
          SortingAndGatingCommute(named);
          OnlyLocals(named);
        }
      }
  }

  lemma {:induction false} SameFilter(cs: seq<Candidate>)
    ensures Filter(cs, (c: Candidate) => c.local) == Filter(cs, IsLocal)
    ensures Filter(cs, (c: Candidate) => !c.local) == Filter(cs, IsRemote)
  {
    if cs != [] {
      SameFilter(cs[1..]);
    }
  }

  lemma {:induction false} OnlyLocals(cs: seq<Candidate>)
    ensures var r := DefaultChainOrder(Filter(cs, IsLocal));
            && r == Filter(cs, IsLocal) && LocalFirst(r)
            && Filter(r, IsLocal) == r && Filter(r, IsRemote) == []
  {
    var local := Filter(cs, IsLocal);
    assert forall c :: c in local ==> c.local;
    LocalsAreSorted(local);
    FilterAllOrNone(local, IsLocal);
    FilterAllOrNone(local, IsRemote);
    DefaultOrderSorts(local);
  }

  /** The proactive chain is the registered local candidates the first such chain names, in order, hosted or not. */
  lemma {:induction false} ProactiveResolvesExactly(config: ChainsConfig, registry: Registry)
    ensures ResolveProactiveCheckChain(config, registry)
            == match FindChain(config.chains, "proactive_check")
               case None => []
               case Some(chain) => Filter(Registered(chain.candidates, registry), (c: Candidate) => c.local)
  {
    match FindChain(config.chains, PROACTIVE_CHECK)
    case None =>
    case Some(chain) =>
      LookupIsTheRegistered(chain.candidates, registry);
      SameFilter(Registered(chain.candidates, registry));
      OnlyLocals(Registered(chain.candidates, registry));
  }

  /** One remote candidate, allowed: it is what the chain resolves to. */
  lemma {:induction false} RemoteCandidateIsUsed(taskType: string, c: Candidate)
    requires !c.local
    ensures var chain := Chain(taskType, [c.name], false, false);
            ResolveChain(taskType, ChainsConfig([chain], true), map[c.name := c]) == [c]
  {
    var chain := Chain(taskType, [c.name], false, false);
    assert FindChain([chain], taskType) == Some(chain);
    LookupOne(c);
    StableSortIsUnique([c], [c]);
  }

  lemma {:induction false} LookupOne(c: Candidate)
    ensures LookupCandidates([c.name], map[c.name := c]) == [c]
  {
    assert [c.name][1..] == [];
  }

  lemma {:induction false} SortingAndGatingCommute(found: seq<Candidate>)
    ensures Filter(DefaultChainOrder(found), IsLocal) == DefaultChainOrder(Filter(found, IsLocal))
  {
    DefaultOrderSorts(found);
    LocalsAreSorted(Filter(found, IsLocal));
  }

  lemma {:induction false} LocalsAreSorted(local: seq<Candidate>)
    requires forall c :: c in local ==> c.local
    ensures DefaultChainOrder(local) == local
  {
    assert forall i :: 0 <= i < |local| ==> local[i] in local;
    StableSortIsUnique(local, local);
  }

  lemma {:induction false} LookupMembers(names: seq<string>, registry: Registry)
    ensures forall c :: c in LookupCandidates(names, registry)
                        <==> exists n :: n in names && n in registry && registry[n] == c
  {
    if names != [] {
      LookupMembers(names[1..], registry);
      assert names == [names[0]] + names[1..];
    }
  }

  /** Some candidate of the chain is registered and local. */
  predicate HasLocal(chain: Chain, registry: Registry) {
    exists n :: n in chain.candidates && n in registry && registry[n].local
  }

  lemma {:induction false} ProactiveIsEmptyIff(chain: Chain, registry: Registry)
    ensures Filter(LookupCandidates(chain.candidates, registry), IsLocal) == [] <==> !HasLocal(chain, registry)
  {
    var found := LookupCandidates(chain.candidates, registry);
    LookupMembers(chain.candidates, registry);
    if HasLocal(chain, registry) {
      var n :| n in chain.candidates && n in registry && registry[n].local;
      assert registry[n] in found;
      assert registry[n] in Filter(found, IsLocal);
    } else {
      FilterAllOrNone(found, IsLocal);
    }
  }

  /**
   * The proactive resolver is the general one with the remote gate shut, except that it does not
   * consult `stays_hosted`: they differ exactly on a hosted chain that has a local candidate.
   */
  lemma {:induction false} ProactiveIsTheGatedResolverIff(config: ChainsConfig, registry: Registry)
    ensures var chain := FindChain(config.chains, PROACTIVE_CHECK);
            ResolveChain(PROACTIVE_CHECK, ChainsConfig(config.chains, false), registry)
            == ResolveProactiveCheckChain(config, registry)
            <==> !(chain.Some? && chain.value.staysHosted && HasLocal(chain.value, registry))
  {
    match FindChain(config.chains, PROACTIVE_CHECK)
    case None =>
    case Some(chain) =>
      var found := LookupCandidates(chain.candidates, registry);
      SortingAndGatingCommute(found);
      ProactiveIsEmptyIff(chain, registry);
      LocalsAreSorted(Filter(found, IsLocal));
  }

  /** A hosted chain with one local candidate: delegation gets nothing, the proactive check gets the candidate. */
  lemma {:induction false} HostedChainStillChecks(c: Candidate)
    requires c.local
    ensures var config := ChainsConfig([Chain(PROACTIVE_CHECK, [c.name], false, true)], false);
            && ResolveChain(PROACTIVE_CHECK, config, map[c.name := c]) == []
            && ResolveProactiveCheckChain(config, map[c.name := c]) == [c]
  {
    var (registry, chain) := (map[c.name := c], Chain(PROACTIVE_CHECK, [c.name], false, true));
    assert FindChain([chain], PROACTIVE_CHECK) == Some(chain);
    LookupOne(c);
    FilterAllOrNone([c], IsLocal);
    LocalsAreSorted([c]);
  }

  // ----- The projections preserve meaning -----

  /** A name stands for one candidate of the list. */
  ghost predicate NamesIdentify(cs: seq<Candidate>) {
    forall i, j :: 0 <= i < |cs| && 0 <= j < |cs| && cs[i].name == cs[j].name ==> cs[i] == cs[j]
  }

  lemma {:induction false} ByNameKeepsTheLast(cs: seq<Candidate>)
    ensures forall i :: 0 <= i < |cs| ==> cs[i].name in ByName(cs)
    ensures forall n :: n in ByName(cs) ==> ByName(cs)[n] in cs && ByName(cs)[n].name == n
  {
    if cs != [] {
      ByNameKeepsTheLast(cs[..|cs| - 1]);
    }
  }

  /** Of two candidates by one name the later one is kept. */
  lemma {:induction false} LaterNameWins(cs: seq<Candidate>, i: nat)
    requires i < |cs| && forall j :: i < j < |cs| ==> cs[j].name != cs[i].name
    ensures cs[i].name in ByName(cs) && ByName(cs)[cs[i].name] == cs[i]
  {
    if i < |cs| - 1 {
      LaterNameWins(cs[..|cs| - 1], i);
      assert cs[|cs| - 1].name != cs[i].name;
    }
  }

  lemma {:induction false} LookupAt(names: seq<string>, registry: Registry)
    requires forall n :: n in names ==> n in registry
    ensures LookupCandidates(names, registry) == seq(|names|, i requires 0 <= i < |names| => registry[names[i]])
  {
    if names != [] {
      LookupAt(names[1..], registry);
    }
  }

  lemma {:induction false} SingleChainLooksUp(taskType: string, cs: seq<Candidate>)
    requires forall c :: c in cs ==> c.local
    ensures ResolveChain(taskType, SingleChain(taskType, cs), ByName(cs)) == Relookup(cs)
    ensures |Relookup(cs)| == |cs|
    ensures forall i :: 0 <= i < |cs| ==> cs[i].name in ByName(cs) && Relookup(cs)[i] == ByName(cs)[cs[i].name]
  {
    ByNameKeepsTheLast(cs);
    LookupAt(Names(cs), ByName(cs));
    FilterAllOrNone(Relookup(cs), IsLocal);
  }

  /** What the names of `cs` mean in the registry built from `cs`. */
  function Relookup(cs: seq<Candidate>): seq<Candidate> {
    LookupCandidates(Names(cs), ByName(cs))
  }

  /** The throwaway chain resolves to the list it was built from, exactly when names identify candidates. */
  lemma {:induction false} SingleChainResolvesIff(taskType: string, cs: seq<Candidate>)
    requires forall c :: c in cs ==> c.local
    ensures ResolveChain(taskType, SingleChain(taskType, cs), ByName(cs)) == cs <==> NamesIdentify(cs)
  {
    ByNameKeepsTheLast(cs);
    SingleChainLooksUp(taskType, cs);
    if Relookup(cs) == cs {
      assert forall i :: 0 <= i < |cs| ==> cs[i].name in ByName(cs) && cs[i] == ByName(cs)[cs[i].name];
    }
    if NamesIdentify(cs) {
      forall i | 0 <= i < |cs|
        ensures Relookup(cs)[i] == cs[i]
      {
        assert cs[i].name in ByName(cs);
      }
      assert Relookup(cs) == cs;
    }
  }

  lemma {:induction false} LookupKeepsNames(names: seq<string>, registry: Registry)
    requires NamedByKey(registry)
    ensures forall c :: c in LookupCandidates(names, registry) ==> c.name in registry && registry[c.name] == c
  {
    if names != [] {
      LookupKeepsNames(names[1..], registry);
    }
  }

  lemma {:induction false} ProactiveChainIsLocal(config: ChainsConfig, registry: Registry)
    requires NamedByKey(registry)
    ensures forall c :: c in ResolveProactiveCheckChain(config, registry) ==>
                          c.local && c.name in registry && registry[c.name] == c
  {
    match FindChain(config.chains, PROACTIVE_CHECK)
    case None =>
    case Some(chain) =>
      LookupKeepsNames(chain.candidates, registry);
      var local := Filter(LookupCandidates(chain.candidates, registry), IsLocal);
      assert forall c :: c in local ==> c.local;
      LocalsAreSorted(local);
  }

  /** Running the projection through the general resolver gives the proactive chain itself, remote opt-in or not. */
  lemma {:induction false} ProjectionPreservesTheChain(config: ChainsConfig, registry: Registry)
    requires NamedByKey(registry)
    ensures match LocalOnlyInputs(config, registry)
            case None => ResolveProactiveCheckChain(config, registry) == []
            case Some((c, r)) => ResolveChain(PROACTIVE_CHECK, c, r) == ResolveProactiveCheckChain(config, registry)
  {
    ProactiveChainIsLocal(config, registry);
    SingleChainResolvesIff(PROACTIVE_CHECK, ResolveProactiveCheckChain(config, registry));
  }

  /** The name list is resolved in order against the trusted registry, dropping unknown and remote names. */
  lemma {:induction false} NameListResolves(names: seq<string>, registry: Registry)
    requires NamedByKey(registry)
    ensures var (c, r) := NameListInputs(names, registry);
            ResolveChain(PRE_RESOLVED, c, r) == Filter(LookupCandidates(names, registry), IsLocal)
  {
    LookupKeepsNames(names, registry);
    SingleChainResolvesIff(PRE_RESOLVED, Filter(LookupCandidates(names, registry), IsLocal));
  }

  /** End to end: sending the names of the proactive chain to the route runs exactly that chain. */
  lemma {:induction false} ProactiveNamesRoundTrip(config: ChainsConfig, registry: Registry)
    requires NamedByKey(registry)
    ensures var cs := ResolveProactiveCheckChain(config, registry);
            var (c, r) := NameListInputs(Names(cs), registry);
            ResolveChain(PRE_RESOLVED, c, r) == cs
  {
    var cs := ResolveProactiveCheckChain(config, registry);
    ProactiveChainIsLocal(config, registry);
    LookupAt(Names(cs), registry);
    assert LookupCandidates(Names(cs), registry) == cs;
    FilterAllOrNone(cs, IsLocal);
    NameListResolves(Names(cs), registry);
  }
}

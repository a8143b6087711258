/** `chainAdapters(config, predicate, adapter)` (`src/adapters/helpers/chainAdapters.ts`
    and its CommonJS copy): the configuration's adapter is replaced by one
    that runs `adapter` when the predicate holds of the configuration it is
    called with, and otherwise whatever adapter was there before (the
    library's default when there was none). Each call wraps the previous
    adapter, so the installed links form a stack. */
module AdapterChain {
  import opened Wrappers
  import Js

  /** An adapter as the chain sees it: one that is not a chain, or a link
      guarding an adapter with a predicate in front of the previous one. */
  datatype Dispatcher<P, A> = Base(adapter: A) | Guarded(guard: P, adapter: A, next: Dispatcher<P, A>)

  /** A configuration object: its `adapter` (absent, or a dispatcher) and
      every other option. */
  class ChainConfig<P, A> {
    var adapter: Option<Dispatcher<P, A>>
    var others: Js.Fields

    constructor(adapter: Option<Dispatcher<P, A>>, others: Js.Fields)
      ensures this.adapter == adapter && this.others == others
    {
      this.adapter := adapter;
      this.others := others;
    }
  }

  /** The links of a dispatcher in the order they were installed. */
  function Links<P, A>(d: Dispatcher<P, A>): seq<(P, A)> {
    match d
    case Base(_) => []
    case Guarded(p, a, next) => Links(next) + [(p, a)]
  }

  /** The adapter under every link. */
  function Bottom<P, A>(d: Dispatcher<P, A>): A {
    match d
    case Base(a) => a
    case Guarded(_, _, next) => Bottom(next)
  }

  /** The adapter a call runs, `holds` saying whether a predicate accepts the
      configuration the call is made with. */
  function Dispatch<P, A, C>(d: Dispatcher<P, A>, config: C, holds: (P, C) -> bool): A {
    match d
    case Base(a) => a
    case Guarded(p, a, next) => if holds(p, config) then a else Dispatch(next, config, holds)
  }

  /** `chainAdapters`: the same object comes back with one more link on top
      of its adapter, and nothing else about it changes. */
  method ChainAdapters<P, A>(config: ChainConfig<P, A>, guard: P, adapter: A, defaultAdapter: A)
      returns (r: ChainConfig<P, A>)
    modifies config
    ensures r == config
    ensures config.adapter.Some?
    ensures Links(config.adapter.value) == Links(old(config.adapter).GetOr(Base(defaultAdapter))) + [(guard, adapter)]
    ensures Bottom(config.adapter.value) == Bottom(old(config.adapter).GetOr(Base(defaultAdapter)))
    ensures config.others == old(config.others)
  {
    var nextAdapter := config.adapter.GetOr(Base(defaultAdapter));
    config.adapter := Some(Guarded(guard, adapter, nextAdapter));
    r := config;
  }

  /** Link `i` accepts the configuration and no later link does. */
  predicate NewestAccepting<P, A, C>(links: seq<(P, A)>, i: nat, config: C, holds: (P, C) -> bool)
    requires i < |links|
  {
    holds(links[i].0, config) && forall j :: i < j < |links| ==> !holds(links[j].0, config)
  }

  /** Last in, first asked: a call runs the adapter of the most recently
      installed link whose predicate accepts the configuration, and the
      adapter underneath when none does. */
  lemma {:induction false} DispatchIsNewestMatch<P, A, C>(d: Dispatcher<P, A>, config: C, holds: (P, C) -> bool)
    ensures (forall i :: 0 <= i < |Links(d)| ==> !holds(Links(d)[i].0, config)) ==> Dispatch(d, config, holds) == Bottom(d)
    ensures forall i :: 0 <= i < |Links(d)| && NewestAccepting(Links(d), i, config, holds) ==>
      Dispatch(d, config, holds) == Links(d)[i].1
  {
    match d
    case Base(_) =>
    case Guarded(p, a, next) =>
      DispatchIsNewestMatch(next, config, holds);
      var ls := Links(d);
      var n := |ls| - 1;
      assert ls[n] == (p, a);
      assert forall i :: 0 <= i < n ==> ls[i] == Links(next)[i];
  }

  /** Installing a link on a configuration without an adapter calls neither
      adapter, and a call whose predicate fails reaches the library default. */
  lemma FailingPredicateReachesDefault<P, A, C>(guard: P, adapter: A, defaultAdapter: A, config: C, holds: (P, C) -> bool)
    requires !holds(guard, config)
    ensures Dispatch(Guarded(guard, adapter, Base(defaultAdapter)), config, holds) == defaultAdapter
  {
  }
}

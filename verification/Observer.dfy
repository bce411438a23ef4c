// Observers and observables that hold each other in lists.
module Observing {

  // std::list::remove takes out every occurrence.
  function Removed<T(==)>(list: seq<T>, x: T): seq<T> {
    if |list| == 0 then []
    else
      Removed(list[..|list| - 1], x) + if list[|list| - 1] == x then [] else [list[|list| - 1]]
  }

  lemma {:induction false} RemovedElements<T>(list: seq<T>, x: T)
    ensures x !in Removed(list, x) && (x !in list ==> Removed(list, x) == list)
    ensures forall y | y in Removed(list, x) :: y in list
  {
    if |list| > 0 {
      RemovedElements(list[..|list| - 1], x);
      assert list == list[..|list| - 1] + [list[|list| - 1]];
    }
  }

  lemma RemovedAgain<T>(list: seq<T>, x: T)
    ensures Removed(Removed(list, x), x) == Removed(list, x)
  {
    RemovedElements(list, x);
    RemovedElements(Removed(list, x), x);
  }

  lemma {:induction false} RemovedCounts<T>(list: seq<T>, x: T, y: T)
    ensures multiset(Removed(list, x))[y] == if y == x then 0 else multiset(list)[y]
  {
    if |list| > 0 {
      RemovedCounts(list[..|list| - 1], x, y);
      assert list == list[..|list| - 1] + [list[|list| - 1]];
    }
  }

  lemma RemovedAtEnd<T>(list: seq<T>, y: T, x: T)
    ensures Removed(list + [y], x) == Removed(list, x) + if y == x then [] else [y]
  {
    assert (list + [y])[..|list|] == list;
  }

  lemma RemovedFromLonger<T>(a: seq<T>, b: seq<T>, y: T, x: T)
    requires Removed(a + b, x) == Removed(a, x) + Removed(b, x)
    ensures Removed(a + (b + [y]), x) == Removed(a, x) + Removed(b + [y], x)
  {
    RemovedAtEnd(a + b, y, x);
    RemovedAtEnd(b, y, x);
    assert a + (b + [y]) == (a + b) + [y];
  }

  // The rest keeps its order: parts are removed from one by one.
  lemma {:induction false} RemovedInParts<T>(a: seq<T>, b: seq<T>, x: T)
    ensures Removed(a + b, x) == Removed(a, x) + Removed(b, x)
  {
    if b == [] {
      assert a + b == a;
    } else {
      RemovedInParts(a, b[..|b| - 1], x);
      RemovedFromLonger(a, b[..|b| - 1], b[|b| - 1], x);
      assert b == b[..|b| - 1] + [b[|b| - 1]];
    }
  }

  lemma RemovedFromOne<T>(y: T, x: T)
    ensures Removed([y], x) == if y == x then [] else [y]
  {
    RemovedAtEnd([], y, x);
    assert [] + [y] == [y];
  }

  class Observer {
    var observables: seq<Observable>

    constructor ()
      ensures observables == []
    {
      observables := [];
    }

    method Observe(o: Observable, ghost run: seq<Operation>, ghost world: World)
      requires this in world.observers && o in world.observables && Mirrors(run, world)
      modifies this, o
      ensures observables == old(observables) + [o] && o.observers == old(o.observers) + [this]
      ensures Mirrors(run + [Watch(this, o)], world)
    {
      observables := observables + [o];
      o.AddObserver(this);
      assert (run + [Watch(this, o)])[..|run|] == run;
    }

    method Unobserve(o: Observable, ghost run: seq<Operation>, ghost world: World)
      requires this in world.observers && o in world.observables && Mirrors(run, world)
      modifies this, o
      ensures observables == Removed(old(observables), o) && o.observers == Removed(old(o.observers), this)
      ensures Mirrors(run + [Unwatch(this, o)], world)
    {
      RemovedElements(observables, o);
      o.RemoveObserver(this);
      observables := Removed(observables, o);
      assert (run + [Unwatch(this, o)])[..|run|] == run;
    }

    // The destructor's loop over its own list, in which an observable may stand more than once.
    method Detach(ghost world: set<Observable>)
      requires forall o | o in observables :: o in world
      modifies observables
      ensures forall o | o in world ::
                o.observers == if o in observables then Removed(old(o.observers), this) else old(o.observers)
    {
      for i := 0 to |observables|
        invariant forall o | o in world ::
                    o.observers == if o in observables[..i] then Removed(old(o.observers), this) else old(o.observers)
      {
        assert observables[..i + 1] == observables[..i] + [observables[i]];
        RemovedAgain(old(observables[i].observers), this);
        observables[i].RemoveObserver(this);
      }
      assert observables[..|observables|] == observables;
    }

    // The destructor.
    method Destroy(ghost run: seq<Operation>, ghost world: World)
      requires this in world.observers && Mirrors(run, world)
      modifies this, observables
      ensures observables == []
      ensures forall o | o in world.observables && o in old(observables) ::
                o.observers == Removed(old(o.observers), this)
      ensures Mirrors(run + [Destroyed(this)], world)
    {
      Detach(world.observables);
      observables := [];
      assert (run + [Destroyed(this)])[..|run|] == run;
    }
  }

  class Observable {
    var observers: seq<Observer>

    constructor ()
      ensures observers == []
    {
      observers := [];
    }

    method AddObserver(o: Observer)
      modifies this
      ensures observers == old(observers) + [o]
    {
      observers := observers + [o];
    }

    method RemoveObserver(o: Observer)
      modifies this
      ensures observers == Removed(old(observers), o)
    {
      observers := Removed(observers, o);
    }

    // The callbacks leave the lists unchanged; answer(n) is what the n-th call returns.
    method NotifyObservers(answer: nat -> int) returns (result: int, called: seq<Observer>)
      ensures called <= observers
      ensures forall n | 0 <= n < |called| - 1 :: answer(n) == 0
      ensures result == if called == [] then 0 else answer(|called| - 1)
      ensures result == 0 ==> called == observers
    {
      result, called := 0, [];
      for n := 0 to |observers|
        invariant called == observers[..n] && result == 0
        invariant forall k | 0 <= k < n :: answer(k) == 0
      {
        called := called + [observers[n]];
        result := answer(n);
        if result != 0 {
          assert called == observers[..n + 1];
          return;
        }
      }
    }
  }

  datatype World = World(observers: set<Observer>, observables: set<Observable>)

  datatype Operation =
    | Watch(observer: Observer, observable: Observable)
    | Unwatch(observer: Observer, observable: Observable)
    | Destroyed(observer: Observer)

  function Watched(run: seq<Operation>, x: Observer): seq<Observable> {
    if |run| == 0 then []
    else
      var before := Watched(run[..|run| - 1], x);
      match run[|run| - 1]
      case Watch(y, o) => if y == x then before + [o] else before
      case Unwatch(y, o) => if y == x then Removed(before, o) else before
      case Destroyed(y) => if y == x then [] else before
  }

  function Watchers(run: seq<Operation>, o: Observable): seq<Observer> {
    if |run| == 0 then []
    else
      var before := Watchers(run[..|run| - 1], o);
      match run[|run| - 1]
      case Watch(x, p) => if p == o then before + [x] else before
      case Unwatch(x, p) => if p == o then Removed(before, x) else before
      case Destroyed(x) => if o in Watched(run[..|run| - 1], x) then Removed(before, x) else before
  }

  ghost predicate Mirrors(run: seq<Operation>, world: World)
    reads world.observers, world.observables
  {
    && (forall x | x in world.observers :: x.observables == Watched(run, x))
    && (forall o | o in world.observables :: o.observers == Watchers(run, o))
    && (forall x, o | x in world.observers && o in Watched(run, x) :: o in world.observables)
  }

  // Objects as their constructors leave them.
  lemma FreshWorldMirrors(world: World)
    requires forall x | x in world.observers :: x.observables == []
    requires forall o | o in world.observables :: o.observers == []
    ensures Mirrors([], world)
  {
  }

  // ---- Duality ----------------------------------------------------------------------------------

  // How often x has begun to watch o since it last stopped.
  function Registrations(run: seq<Operation>, x: Observer, o: Observable): nat {
    if |run| == 0 then 0
    else
      var before := Registrations(run[..|run| - 1], x, o);
      match run[|run| - 1]
      case Watch(y, p) => if y == x && p == o then before + 1 else before
      case Unwatch(y, p) => if y == x && p == o then 0 else before
      case Destroyed(y) => if y == x then 0 else before
  }

  lemma {:induction false} WatchedCountsRegistrations(run: seq<Operation>, x: Observer, o: Observable)
    ensures multiset(Watched(run, x))[o] == Registrations(run, x, o)
  {
    if |run| > 0 {
      var earlier := run[..|run| - 1];
      WatchedCountsRegistrations(earlier, x, o);
      if run[|run| - 1].Unwatch? {
        RemovedCounts(Watched(earlier, x), run[|run| - 1].observable, o);
      }
    }
  }

  lemma {:induction false} WatchersCountRegistrations(run: seq<Operation>, x: Observer, o: Observable)
    ensures multiset(Watchers(run, o))[x] == Registrations(run, x, o)
  {
    if |run| > 0 {
      var earlier, last := run[..|run| - 1], run[|run| - 1];
      WatchersCountRegistrations(earlier, x, o);
      if !last.Watch? {
        RemovedCounts(Watchers(earlier, o), last.observer, x);
        WatchedCountsRegistrations(earlier, x, o);
      }
    }
  }

  // In every world that a run has produced, the two lists agree pair by pair.
  lemma ListsAreDual(run: seq<Operation>, world: World, x: Observer, o: Observable)
    requires Mirrors(run, world) && x in world.observers && o in world.observables
    ensures multiset(x.observables)[o] == multiset(o.observers)[x]
  {
    WatchedCountsRegistrations(run, x, o);
    WatchersCountRegistrations(run, x, o);
  }
}

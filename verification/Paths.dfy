// Paths through any transition system.
module Paths {

  ghost predicate Leads<S, E>(enabled: (S, E) -> bool, next: (S, E) -> S, s: S, events: seq<E>, t: S)
    decreases |events|
  {
    if events == [] then s == t
    else enabled(s, events[0]) && Leads(enabled, next, next(s, events[0]), events[1..], t)
  }

  // The states that a path goes through.
  ghost predicate Visits<S, E>(enabled: (S, E) -> bool, next: (S, E) -> S, states: seq<S>, events: seq<E>) {
    && |states| == |events| + 1
    && forall i :: 0 <= i < |events| ==> enabled(states[i], events[i]) && states[i + 1] == next(states[i], events[i])
  }

  lemma LeadsInOne<S, E>(enabled: (S, E) -> bool, next: (S, E) -> S, s: S, e: E)
    requires enabled(s, e)
    ensures Leads(enabled, next, s, [e], next(s, e))
  {
    assert Leads(enabled, next, next(s, e), [], next(s, e));
  }

  lemma {:induction false} LeadsOn<S, E>(enabled: (S, E) -> bool, next: (S, E) -> S, s: S, first: seq<E>, t: S,
                                         second: seq<E>, u: S)
    requires Leads(enabled, next, s, first, t) && Leads(enabled, next, t, second, u)
    ensures Leads(enabled, next, s, first + second, u)
    decreases |first|
  {
    if first == [] {
      assert first + second == second;
    } else {
      LeadsOn(enabled, next, next(s, first[0]), first[1..], t, second, u);
      assert (first + second)[1..] == first[1..] + second;
    }
  }

  lemma LeadsByOneMore<S, E>(enabled: (S, E) -> bool, next: (S, E) -> S, s: S, events: seq<E>, t: S, e: E)
    requires Leads(enabled, next, s, events, t) && enabled(t, e)
    ensures Leads(enabled, next, s, events + [e], next(t, e))
  {
    LeadsInOne(enabled, next, t, e);
    LeadsOn(enabled, next, s, events, t, [e], next(t, e));
  }

  lemma VisitsOneMore<S, E>(enabled: (S, E) -> bool, next: (S, E) -> S, states: seq<S>, events: seq<E>, e: E)
    requires Visits(enabled, next, states, events) && enabled(states[|events|], e)
    ensures Visits(enabled, next, states + [next(states[|events|], e)], events + [e])
  {
  }

  lemma {:induction false} LeadsVisiting<S, E>(enabled: (S, E) -> bool, next: (S, E) -> S, s: S, events: seq<E>, t: S)
    returns (states: seq<S>)
    requires Leads(enabled, next, s, events, t)
    ensures Visits(enabled, next, states, events) && states[0] == s && states[|events|] == t
    decreases |events|
  {
    if events == [] {
      states := [s];
    } else {
      var rest := LeadsVisiting(enabled, next, next(s, events[0]), events[1..], t);
      states := [s] + rest;
      forall i | 0 <= i < |events|
        ensures enabled(states[i], events[i]) && states[i + 1] == next(states[i], events[i])
      {
        if i > 0 {
          assert events[i] == events[1..][i - 1] && states[i] == rest[i - 1] && states[i + 1] == rest[i];
        }
      }
    }
  }

  ghost predicate CanReach<S, E(!new)>(enabled: (S, E) -> bool, next: (S, E) -> S, s: S, t: S) {
    exists events :: Leads(enabled, next, s, events, t)
  }

  lemma CanReachItself<S, E(!new)>(enabled: (S, E) -> bool, next: (S, E) -> S, s: S)
    ensures CanReach(enabled, next, s, s)
  {
    assert Leads(enabled, next, s, [], s);
  }

  lemma CanReachNext<S, E(!new)>(enabled: (S, E) -> bool, next: (S, E) -> S, s: S, t: S, e: E)
    requires CanReach(enabled, next, s, t) && enabled(t, e)
    ensures CanReach(enabled, next, s, next(t, e))
  {
    var events :| Leads(enabled, next, s, events, t);
    LeadsByOneMore(enabled, next, s, events, t, e);
  }

  lemma CanReachOn<S, E(!new)>(enabled: (S, E) -> bool, next: (S, E) -> S, s: S, t: S, u: S)
    requires CanReach(enabled, next, s, t) && CanReach(enabled, next, t, u)
    ensures CanReach(enabled, next, s, u)
  {
    var first :| Leads(enabled, next, s, first, t);
    var second :| Leads(enabled, next, t, second, u);
    LeadsOn(enabled, next, s, first, t, second, u);
  }
}

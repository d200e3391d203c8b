/** The lifecycle manager (pkg/app/lifecycle.go): components are started in the order they were
    registered and stopped in the reverse order. `calls` is the history of Start and Stop calls;
    whether a Start fails is a parameter, and a Stop that fails or times out is only logged. */
module Lifecycle {

  datatype Call<C> = StartCall(c: C) | StopCall(c: C)

  function Starts<C>(cs: seq<C>): (r: seq<Call<C>>)
    ensures |r| == |cs| && forall i | 0 <= i < |cs| :: r[i] == StartCall(cs[i])
  {
    seq(|cs|, i requires 0 <= i < |cs| => StartCall(cs[i]))
  }

  /** Every component stopped, the last registered first. */
  function StopsReversed<C>(cs: seq<C>): (r: seq<Call<C>>)
    ensures |r| == |cs| && forall i | 0 <= i < |cs| :: r[i] == StopCall(cs[|cs| - 1 - i])
  {
    if cs == [] then [] else [StopCall(cs[|cs| - 1])] + StopsReversed(cs[..|cs| - 1])
  }

  /** Registering one more component puts its stop in front and leaves the order of the others. */
  lemma LastRegisteredStopsFirst<C>(cs: seq<C>, c: C)
    ensures StopsReversed(cs + [c]) == [StopCall(c)] + StopsReversed(cs)
  {
    assert (cs + [c])[..|cs|] == cs;
  }

  /** Stopping two groups registered one after the other: the later group first. */
  lemma {:induction false} StopsOfGroups<C>(a: seq<C>, b: seq<C>)
    ensures StopsReversed(a + b) == StopsReversed(b) + StopsReversed(a)
  {
    if b == [] {
      assert a + b == a;
    } else {
      var front, last := b[..|b| - 1], b[|b| - 1];
      StopsOfGroups(a, front);
      assert a + b == (a + front) + [last] && b == front + [last];
      LastRegisteredStopsFirst(a + front, last);
    }
  }

  /** A component registered after another is stopped before it, however many lie between. */
  lemma LaterRegisteredStopsEarlier<C>(cs: seq<C>, i: nat, j: nat)
    requires i < j < |cs|
    ensures exists a, b :: && 0 <= a < b < |cs| && StopsReversed(cs)[a] == StopCall(cs[j])
                           && StopsReversed(cs)[b] == StopCall(cs[i])
  {
    hide StopsReversed;
    var a, b := |cs| - 1 - j, |cs| - 1 - i;
    assert StopsReversed(cs)[a] == StopCall(cs[j]) && StopsReversed(cs)[b] == StopCall(cs[i]);
  }

  class LifecycleManager<C(==)> {
    var components: seq<C>
    var cancelled: bool
    ghost var calls: seq<Call<C>>

    constructor ()
      ensures components == [] && !cancelled && calls == []
    {
      components, cancelled, calls := [], false, [];
    }

    method Register(component: C)
      modifies `components
      ensures components == old(components) + [component]
      ensures StopsReversed(components) == [StopCall(component)] + StopsReversed(old(components))
    {
      LastRegisteredStopsFirst(components, component);
      components := components + [component];
    }

    /** One `component.Stop(timeout)`; its outcome changes nothing here. */
    method StopOne(component: C)
      modifies `calls
      ensures calls == old(calls) + [StopCall(component)]
    {
      calls := calls + [StopCall(component)];
    }

    method StopAll()
      modifies `calls
      ensures calls == old(calls) + StopsReversed(components)
    {
      var copy := components;
      var i := |copy| - 1;
      while i >= 0
        invariant -1 <= i < |copy|
        invariant calls + StopsReversed(copy[..i + 1]) == old(calls) + StopsReversed(copy)
      {
        assert copy[..i + 1][..i] == copy[..i];
        ghost var before := calls;
        StopOne(copy[i]);
        assert before + ([StopCall(copy[i])] + StopsReversed(copy[..i])) == calls + StopsReversed(copy[..i]);
        i := i - 1;
      }
      assert copy[..0] == [];
    }

    /** The first failing Start stops everything registered, started or not. */
    method StartAll(fails: C -> bool) returns (ok: bool)
      modifies `calls
      ensures ok <==> forall c | c in components :: !fails(c)
      ensures ok ==> calls == old(calls) + Starts(components)
      ensures !ok ==> exists i :: && 0 <= i < |components| && fails(components[i])
                                  && (forall j | 0 <= j < i :: !fails(components[j]))
                                  && calls == old(calls) + Starts(components[..i + 1]) + StopsReversed(components)
    {
      for i := 0 to |components|
        invariant calls == old(calls) + Starts(components[..i])
        invariant forall j | 0 <= j < i :: !fails(components[j])
      {
        assert Starts(components[..i + 1]) == Starts(components[..i]) + [StartCall(components[i])];
        calls := calls + [StartCall(components[i])];
        if fails(components[i]) {
          assert calls == old(calls) + Starts(components[..i + 1]);
          StopAll();
          return false;
        }
      }
      assert components[..|components|] == components;
      ok := true;
    }

    /** The shutdown of the program: the context is cancelled before anything is stopped. */
    method Shutdown()
      modifies `calls, `cancelled
      ensures cancelled && calls == old(calls) + StopsReversed(components)
    {
      cancelled := true;
      StopAll();
    }
  }
}

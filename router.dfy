/**
  The condition router. For a call whose consumer URL and invocation satisfy
  the When side of its rule, it keeps, in their original order, the
  invokers whose URL satisfies the Then side, with the consumer's URL as
  the source of `$key` placeholders. An empty outcome is returned only when
  the router is forcing; otherwise the call keeps every invoker.
 */
module Routing {
  import opened Wrappers
  import opened Urls
  import opened Rules
  import opened Matching

  /** Whether a rule applies to one service or to a whole application. */
  datatype Scope = ServiceScope | ApplicationScope

  /** A remote endpoint the client could call, identified by id. */
  datatype Invoker = Invoker(id: nat, url: Url)

  /** The call being routed; only its method name is consulted. */
  datatype Invocation = Invocation(methodName: string)

  datatype ConditionRouter = ConditionRouter(rule: Rule, priority: int, force: bool, enabled: bool, scope: Scope)

  /** The When side evaluated on the consumer's URL and the invoked method. */
  predicate MatchWhen(r: ConditionRouter, consumer: Url, inv: Invocation) {
    Holds(r.rule.whenSide, consumer, Some(inv.methodName), None)
  }

  /** The Then side evaluated on a provider's URL, placeholders filled from
      the consumer's. */
  predicate MatchThen(r: ConditionRouter, provider: Url, consumer: Url) {
    Holds(r.rule.thenSide, provider, None, Some(consumer))
  }

  /** The invokers that satisfy the Then side, in order. */
  function Filter(r: ConditionRouter, invokers: seq<Invoker>, consumer: Url): seq<Invoker> {
    if invokers == [] then []
    else
      var last := invokers[|invokers| - 1];
      Filter(r, invokers[..|invokers| - 1], consumer) + (if MatchThen(r, last.url, consumer) then [last] else [])
  }

  /** What routing a call returns. */
  function RouteSpec(r: ConditionRouter, invokers: seq<Invoker>, consumer: Url, inv: Invocation): seq<Invoker> {
    if !r.enabled || invokers == [] || !MatchWhen(r, consumer, inv) then invokers
    else
      var kept := Filter(r, invokers, consumer);
      if kept != [] || r.force then kept else invokers
  }

  /** Routes one call: collects the invokers the Then side keeps, then falls
      back to the full list when that is empty and the router is not forcing. */
  method Route(r: ConditionRouter, invokers: seq<Invoker>, consumer: Url, inv: Invocation) returns (result: seq<Invoker>)
    ensures result == RouteSpec(r, invokers, consumer, inv)
  {
    if !r.enabled || |invokers| == 0 {
      return invokers;
    }
    if !MatchWhen(r, consumer, inv) {
      return invokers;
    }
    result := [];
    var i := 0;
    while i < |invokers|
      invariant 0 <= i <= |invokers|
      invariant result == Filter(r, invokers[..i], consumer)
    {
      assert invokers[..i + 1][..i] == invokers[..i];
      if MatchThen(r, invokers[i].url, consumer) {
        result := result + [invokers[i]];
      }
      i := i + 1;
    }
    assert invokers[..i] == invokers;
    if |result| == 0 && !r.force {
      result := invokers;
    }
  }

  // ---- Lemmas ----

  /** Filtering is stable: it works on consecutive pieces independently. */
  lemma {:induction false} FilterAppend(r: ConditionRouter, a: seq<Invoker>, b: seq<Invoker>, consumer: Url)
    ensures Filter(r, a + b, consumer) == Filter(r, a, consumer) + Filter(r, b, consumer)
    decreases |b|
  {
    if b == [] {
      assert a + b == a;
    } else {
      var b' := b[..|b| - 1];
      assert (a + b)[..|a + b| - 1] == a + b';
      assert (a + b)[|a + b| - 1] == b[|b| - 1];
      FilterAppend(r, a, b', consumer);
    }
  }

  /** An invoker is kept exactly when it is offered and satisfies the Then side. */
  lemma {:induction false} FilterMember(r: ConditionRouter, invokers: seq<Invoker>, consumer: Url, x: Invoker)
    ensures x in Filter(r, invokers, consumer) <==> x in invokers && MatchThen(r, x.url, consumer)
  {
    if invokers != [] {
      var init := invokers[..|invokers| - 1];
      FilterMember(r, init, consumer, x);
      assert invokers == init + [invokers[|invokers| - 1]];
    }
  }

  /** The filter keeps everything exactly when every invoker satisfies the
      Then side. */
  lemma {:induction false} FilterAll(r: ConditionRouter, invokers: seq<Invoker>, consumer: Url)
    ensures Filter(r, invokers, consumer) == invokers <==>
      forall i | 0 <= i < |invokers| :: MatchThen(r, invokers[i].url, consumer)
  {
    if invokers != [] {
      var init := invokers[..|invokers| - 1];
      var last := invokers[|invokers| - 1];
      FilterAll(r, init, consumer);
      assert invokers == init + [last];
      assert forall i | 0 <= i < |init| :: init[i] == invokers[i];
      if MatchThen(r, last.url, consumer) {
        assert Filter(r, invokers, consumer) == Filter(r, init, consumer) + [last];
      } else {
        FilterLength(r, init, consumer);
        assert |Filter(r, invokers, consumer)| < |invokers|;
      }
    }
  }

  lemma {:induction false} FilterLength(r: ConditionRouter, invokers: seq<Invoker>, consumer: Url)
    ensures |Filter(r, invokers, consumer)| <= |invokers|
  {
    if invokers != [] {
      FilterLength(r, invokers[..|invokers| - 1], consumer);
    }
  }

  /** The filter keeps nothing exactly when no invoker satisfies the Then side. */
  lemma FilterNone(r: ConditionRouter, invokers: seq<Invoker>, consumer: Url)
    ensures Filter(r, invokers, consumer) == [] <==>
      forall i | 0 <= i < |invokers| :: !MatchThen(r, invokers[i].url, consumer)
  {
    var kept := Filter(r, invokers, consumer);
    forall i | 0 <= i < |invokers| ensures invokers[i] in kept <==> MatchThen(r, invokers[i].url, consumer) {
      FilterMember(r, invokers, consumer, invokers[i]);
    }
    if kept != [] {
      FilterMember(r, invokers, consumer, kept[0]);
      var j :| 0 <= j < |invokers| && invokers[j] == kept[0];
    }
  }

  /** A false or empty Then side filters out every invoker. */
  lemma FilterRejectAll(r: ConditionRouter, invokers: seq<Invoker>, consumer: Url)
    requires r.rule.thenSide == FalseLiteral || r.rule.thenSide == EmptyThen
    ensures Filter(r, invokers, consumer) == []
  {
    FilterNone(r, invokers, consumer);
  }

  /** A call the When side does not select keeps every invoker. */
  lemma RouteUnmatched(r: ConditionRouter, invokers: seq<Invoker>, consumer: Url, inv: Invocation)
    requires !MatchWhen(r, consumer, inv)
    ensures RouteSpec(r, invokers, consumer, inv) == invokers
  {
  }

  /** Routing only ever drops invokers: every one it returns was offered. */
  lemma RouteSubset(r: ConditionRouter, invokers: seq<Invoker>, consumer: Url, inv: Invocation, x: Invoker)
    requires x in RouteSpec(r, invokers, consumer, inv)
    ensures x in invokers
  {
    FilterMember(r, invokers, consumer, x);
  }

  /** A router that is not forcing never leaves a call without an invoker. */
  lemma RouteNeverStrands(r: ConditionRouter, invokers: seq<Invoker>, consumer: Url, inv: Invocation)
    requires !r.force && invokers != []
    ensures RouteSpec(r, invokers, consumer, inv) != []
  {
  }

  /** A non-forcing router that would keep nothing keeps everything. */
  lemma RouteFallback(r: ConditionRouter, invokers: seq<Invoker>, consumer: Url, inv: Invocation)
    requires !r.force
    requires forall i | 0 <= i < |invokers| :: !MatchThen(r, invokers[i].url, consumer)
    ensures RouteSpec(r, invokers, consumer, inv) == invokers
  {
    FilterNone(r, invokers, consumer);
  }

  /** For a selected call, a forcing router returns exactly the invokers
      that satisfy the Then side, even when there are none. */
  lemma RouteForced(r: ConditionRouter, invokers: seq<Invoker>, consumer: Url, inv: Invocation)
    requires r.enabled && r.force && invokers != [] && MatchWhen(r, consumer, inv)
    ensures RouteSpec(r, invokers, consumer, inv) == Filter(r, invokers, consumer)
  {
  }

  /** A forcing router with a false or empty Then side returns nothing for
      a selected call. */
  lemma RouteForcedEmpty(r: ConditionRouter, invokers: seq<Invoker>, consumer: Url, inv: Invocation)
    requires r.enabled && r.force && MatchWhen(r, consumer, inv)
    requires r.rule.thenSide == FalseLiteral || r.rule.thenSide == EmptyThen
    ensures RouteSpec(r, invokers, consumer, inv) == []
  {
    FilterRejectAll(r, invokers, consumer);
  }

  /** When every invoker satisfies the Then side the call keeps them all. */
  lemma RouteAll(r: ConditionRouter, invokers: seq<Invoker>, consumer: Url, inv: Invocation)
    requires forall i | 0 <= i < |invokers| :: MatchThen(r, invokers[i].url, consumer)
    ensures RouteSpec(r, invokers, consumer, inv) == invokers
  {
    FilterAll(r, invokers, consumer);
  }
}

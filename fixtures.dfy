/**
  The URLs the router tests are built from: the rule URL every router is
  made from (`condition://0.0.0.0/com.foo.BarService` with the rule text and,
  in most tests, `force=true`), and the consumer and provider URLs the tests
  route with.
 */
module Fixtures {
  import opened Wrappers
  import opened Urls
  import opened Rules
  import opened Matching
  import opened Routing
  import opened Factory

  /** The address every rule URL is made from. */
  const AnyUrl: Url := Url("0.0.0.0", "", map[])

  /** A rule URL that forces. */
  function RouteUrl(rule: string): (u: Url)
    ensures u.params == map["rule" := rule, "force" := "true"]
  {
    AnyUrl.(params := map["rule" := rule, "force" := "true"])
  }

  /** A rule URL with the given text for `force`. */
  function RouteUrlWithForce(rule: string, force: string): (u: Url)
    ensures u.params == map["rule" := rule, "force" := force]
  {
    AnyUrl.(params := map["rule" := rule, "force" := force])
  }

  /** A rule URL without a `force` parameter. */
  function RouteUrlWithNoForce(rule: string): (u: Url)
    ensures u.params == map["rule" := rule]
  {
    AnyUrl.(params := map["rule" := rule])
  }

  /** A consumer URL: only its host is set. */
  function Consumer(host: string): (u: Url)
    ensures u.host == host && u.params == map[]
  {
    Url(host, "", map[])
  }

  /** A provider URL on port 20880. */
  function Provider(host: string): (u: Url)
    ensures u.host == host && u.port == "20880" && u.params == map[]
  {
    Url(host, "20880", map[])
  }

  /** A router built from RouteUrl(rule) is a forcing, enabled service
      router with priority 0 holding the parsed rule. */
  lemma BuildForcing(rule: string, r: Rule)
    requires ParseRule(rule) == Success(r)
    ensures NewPriorityRouter(ConditionRouterFactory, RouteUrl(rule)) == Success(ConditionRouter(r, 0, true, true, ServiceScope))
  {
    var url := RouteUrl(rule);
    ForceParams(url, rule, "true");
  }

  /** MatchWhen of the router built from RouteUrl(rule) is the When side of
      the parsed rule, evaluated with the invoked method's name. */
  lemma BuildForcingWhen(rule: string, r: Rule, consumer: Url, inv: Invocation)
    requires ParseRule(rule) == Success(r)
    ensures NewPriorityRouter(ConditionRouterFactory, RouteUrl(rule)).Success?
    ensures MatchWhen(NewPriorityRouter(ConditionRouterFactory, RouteUrl(rule)).value, consumer, inv) ==
      Holds(r.whenSide, consumer, Some(inv.methodName), None)
  {
    BuildForcing(rule, r);
  }

  /** A router built from RouteUrl(rule) selects exactly the calls its When
      side holds for. */
  lemma Selected(rule: string, r: Rule, consumer: Url, inv: Invocation)
    requires ParseRule(rule) == Success(r)
    requires Holds(r.whenSide, consumer, Some(inv.methodName), None)
    ensures NewPriorityRouter(ConditionRouterFactory, RouteUrl(rule)).Success?
    ensures MatchWhen(NewPriorityRouter(ConditionRouterFactory, RouteUrl(rule)).value, consumer, inv)
  {
    BuildForcingWhen(rule, r, consumer, inv);
  }

  lemma NotSelected(rule: string, r: Rule, consumer: Url, inv: Invocation)
    requires ParseRule(rule) == Success(r)
    requires !Holds(r.whenSide, consumer, Some(inv.methodName), None)
    ensures NewPriorityRouter(ConditionRouterFactory, RouteUrl(rule)).Success?
    ensures !MatchWhen(NewPriorityRouter(ConditionRouterFactory, RouteUrl(rule)).value, consumer, inv)
  {
    BuildForcingWhen(rule, r, consumer, inv);
  }

  /** With an explicit `force` text the router forces exactly when that
      text reads as true. */
  lemma BuildWithForce(rule: string, force: string, r: Rule)
    requires ParseRule(rule) == Success(r)
    ensures NewPriorityRouter(ConditionRouterFactory, RouteUrlWithForce(rule, force)) ==
      Success(ConditionRouter(r, 0, TrueText(force), true, ServiceScope))
  {
    var url := RouteUrlWithForce(rule, force);
    ForceParams(url, rule, force);
  }

  lemma ForceParams(url: Url, rule: string, force: string)
    requires url.params == map["rule" := rule, "force" := force]
    ensures "rule" in url.params && url.params["rule"] == rule
    ensures "priority" !in url.params && "enabled" !in url.params
    ensures "force" in url.params && url.params["force"] == force
  {
  }

  /** Without a `force` parameter the router does not force. */
  lemma BuildNoForce(rule: string, r: Rule)
    requires ParseRule(rule) == Success(r)
    ensures NewPriorityRouter(ConditionRouterFactory, RouteUrlWithNoForce(rule)) ==
      Success(ConditionRouter(r, 0, false, true, ServiceScope))
  {
    var url := RouteUrlWithNoForce(rule);
    NoForceParams(url, rule);
  }

  lemma NoForceParams(url: Url, rule: string)
    requires url.params == map["rule" := rule]
    ensures "rule" in url.params && url.params["rule"] == rule
    ensures "priority" !in url.params && "enabled" !in url.params && "force" !in url.params
  {
  }

  // ---- Routing through a built router ----

  /** A router built from RouteUrl(rule) routes a call its When side selects
      to exactly the invokers its Then side keeps, even none. */
  lemma RoutedForcing(rule: string, r: Rule, invokers: seq<Invoker>, consumer: Url, inv: Invocation, kept: seq<Invoker>)
    requires ParseRule(rule) == Success(r) && invokers != []
    requires Holds(r.whenSide, consumer, Some(inv.methodName), None)
    requires Filter(ConditionRouter(r, 0, true, true, ServiceScope), invokers, consumer) == kept
    ensures NewPriorityRouter(ConditionRouterFactory, RouteUrl(rule)).Success?
    ensures RouteSpec(NewPriorityRouter(ConditionRouterFactory, RouteUrl(rule)).value, invokers, consumer, inv) == kept
  {
    BuildForcing(rule, r);
    RouteForced(ConditionRouter(r, 0, true, true, ServiceScope), invokers, consumer, inv);
  }

  /** The same with an explicit `force` text that reads as true. */
  lemma RoutedWithForce(rule: string, force: string, r: Rule, invokers: seq<Invoker>, consumer: Url, inv: Invocation, kept: seq<Invoker>)
    requires ParseRule(rule) == Success(r) && invokers != [] && TrueText(force)
    requires Holds(r.whenSide, consumer, Some(inv.methodName), None)
    requires Filter(ConditionRouter(r, 0, true, true, ServiceScope), invokers, consumer) == kept
    ensures NewPriorityRouter(ConditionRouterFactory, RouteUrlWithForce(rule, force)).Success?
    ensures RouteSpec(NewPriorityRouter(ConditionRouterFactory, RouteUrlWithForce(rule, force)).value, invokers, consumer, inv) == kept
  {
    BuildWithForce(rule, force, r);
    RouteForced(ConditionRouter(r, 0, true, true, ServiceScope), invokers, consumer, inv);
  }

  /** A router built without a `force` parameter whose Then side keeps
      nothing returns every invoker, whether or not the call is selected. */
  lemma RoutedNoForce(rule: string, r: Rule, invokers: seq<Invoker>, consumer: Url, inv: Invocation)
    requires ParseRule(rule) == Success(r)
    requires Filter(ConditionRouter(r, 0, false, true, ServiceScope), invokers, consumer) == []
    ensures NewPriorityRouter(ConditionRouterFactory, RouteUrlWithNoForce(rule)).Success?
    ensures RouteSpec(NewPriorityRouter(ConditionRouterFactory, RouteUrlWithNoForce(rule)).value, invokers, consumer, inv) == invokers
  {
    BuildNoForce(rule, r);
    var rt := ConditionRouter(r, 0, false, true, ServiceScope);
    FilterNone(rt, invokers, consumer);
    RouteFallback(rt, invokers, consumer, inv);
  }
}

/**
  The router factories. Each builds a condition router from the URL a rule
  arrives on: the rule text from its `rule` parameter, the force flag from
  `force` (false unless set), the enabled flag from `enabled` (true unless
  set), the priority from `priority` (0 unless set). The service factory
  and the application factory differ only in the scope of the routers they
  build.
 */
module Factory {
  import opened Wrappers
  import opened Text
  import opened Urls
  import opened Rules
  import opened Routing

  datatype RouterFactory = ConditionRouterFactory | AppRouterFactory

  datatype FactoryError = MissingRule | BadRule(cause: ParseError)

  /** The texts read as true and as false, as in Go's strconv.ParseBool. */
  predicate TrueText(s: string) {
    s == "1" || s == "t" || s == "T" || s == "true" || s == "TRUE" || s == "True"
  }

  predicate FalseText(s: string) {
    s == "0" || s == "f" || s == "F" || s == "false" || s == "FALSE" || s == "False"
  }

  /** The boolean parameter key of url, or dflt when it is absent or unreadable. */
  function BoolParam(url: Url, key: string, dflt: bool): (b: bool)
    ensures key in url.params && TrueText(url.params[key]) ==> b
    ensures key in url.params && FalseText(url.params[key]) ==> !b
    ensures key !in url.params ==> b == dflt
    ensures key in url.params && !TrueText(url.params[key]) && !FalseText(url.params[key]) ==> b == dflt
  {
    if key !in url.params then dflt
    else if TrueText(url.params[key]) then true
    else if FalseText(url.params[key]) then false
    else dflt
  }

  predicate IsDigit(c: char) {
    '0' <= c <= '9'
  }

  /** The value of a non-empty string of decimal digits. */
  function DigitsValue(s: string): (n: nat)
    requires forall i | 0 <= i < |s| :: IsDigit(s[i])
  {
    if s == [] then 0
    else
      var last := s[|s| - 1];
      assert IsDigit(last);
      10 * DigitsValue(s[..|s| - 1]) + (last as int - '0' as int)
  }

  predicate AllDigits(s: string) {
    s != [] && forall i | 0 <= i < |s| :: IsDigit(s[i])
  }

  /** An optionally signed decimal number. */
  function ParseInt(s: string): (r: Option<int>)
    ensures AllDigits(s) ==> r == Some(DigitsValue(s))
    ensures |s| > 1 && s[0] == '-' && AllDigits(s[1..]) ==> r == Some(-(DigitsValue(s[1..]) as int))
    ensures |s| > 1 && s[0] == '+' && AllDigits(s[1..]) ==> r == Some(DigitsValue(s[1..]))
    ensures r.None? <==> !AllDigits(s) && !(|s| > 1 && (s[0] == '-' || s[0] == '+') && AllDigits(s[1..]))
  {
    if AllDigits(s) then Some(DigitsValue(s))
    else if |s| > 1 && (s[0] == '-' || s[0] == '+') && AllDigits(s[1..]) then
      var n: int := DigitsValue(s[1..]);
      Some(if s[0] == '-' then -n else n)
    else None
  }

  /** The integer parameter key of url, or dflt when it is absent or unreadable. */
  function IntParam(url: Url, key: string, dflt: int): (n: int)
    ensures key in url.params && ParseInt(url.params[key]).Some? ==> n == ParseInt(url.params[key]).value
    ensures key !in url.params || ParseInt(url.params[key]).None? ==> n == dflt
  {
    if key in url.params && ParseInt(url.params[key]).Some? then ParseInt(url.params[key]).value else dflt
  }

  function ScopeOf(f: RouterFactory): Scope {
    if f == ConditionRouterFactory then ServiceScope else ApplicationScope
  }

  /** Builds the router a rule URL describes, or reports why there is none:
      no rule text, or a rule text that does not parse. */
  function NewPriorityRouter(f: RouterFactory, url: Url): (r: Result<ConditionRouter, FactoryError>)
    ensures r == Failure(MissingRule) <==> "rule" !in url.params
    ensures "rule" in url.params && ParseRule(url.params["rule"]).Failure? ==>
      r == Failure(BadRule(ParseRule(url.params["rule"]).error))
    ensures "rule" in url.params && ParseRule(url.params["rule"]).Success? ==> r.Success?
    ensures r.Success? ==> "rule" in url.params && ParseRule(url.params["rule"]) == Success(r.value.rule)
    ensures r.Success? ==> r.value.priority == IntParam(url, "priority", 0)
    ensures r.Success? ==> r.value.force == BoolParam(url, "force", false)
    ensures r.Success? ==> r.value.enabled == BoolParam(url, "enabled", true)
    ensures r.Success? ==> r.value.scope == ScopeOf(f)
  {
    if "rule" !in url.params then Failure(MissingRule)
    else
      match ParseRule(url.params["rule"])
      case Failure(e) => Failure(BadRule(e))
      case Success(rule) =>
        Success(ConditionRouter(rule, IntParam(url, "priority", 0), BoolParam(url, "force", false),
                                BoolParam(url, "enabled", true), ScopeOf(f)))
  }

  /** Rendering a number in decimal digits and reading it back gives it back. */
  function Digits(n: nat): (s: string)
    ensures AllDigits(s)
    ensures DigitsValue(s) == n
  {
    var d := [('0' as int + n % 10) as char];
    if n < 10 then d
    else
      var s := Digits(n / 10) + d;
      assert s[..|s| - 1] == Digits(n / 10);
      s
  }

  // ---- Lemmas ----

  /** A rule URL without a `force` parameter builds a router that is not forcing. */
  lemma NoForceParam(f: RouterFactory, url: Url)
    requires "force" !in url.params
    requires NewPriorityRouter(f, url).Success?
    ensures !NewPriorityRouter(f, url).value.force
  {
  }

  /** A rule URL with `force=true` builds a forcing router. */
  lemma ForceParam(f: RouterFactory, url: Url)
    requires "force" in url.params && url.params["force"] == "true"
    requires NewPriorityRouter(f, url).Success?
    ensures NewPriorityRouter(f, url).value.force
  {
  }

  /** A rule whose Then side has no operator is reported as a bad rule and
      no router is built. */
  lemma OperatorlessRule(f: RouterFactory, url: Url, w: string, t: string)
    requires "rule" in url.params && url.params["rule"] == w + "=>" + t
    requires '>' !in w && ParseWhen(Trim(w)).Success?
    requires '=' !in t && '&' !in t
    requires !Blank(t) && Trim(t) != "true" && !EqualsIgnoreCase(Trim(t), "false")
    ensures NewPriorityRouter(f, url) == Failure(BadRule(MissingOperator(Trim(t))))
  {
    OperatorlessThen(w, t);
  }

  /** The priority parameter is read as a decimal number. */
  lemma PriorityParam(f: RouterFactory, url: Url, n: nat)
    requires "priority" in url.params && url.params["priority"] == Digits(n)
    requires NewPriorityRouter(f, url).Success?
    ensures NewPriorityRouter(f, url).value.priority == n
  {
  }
}

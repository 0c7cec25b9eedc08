# Condition router (dubbo-go) in Dafny

This project models the condition router of dubbo-go's RPC client, as its
test file `cluster/router/condition/factory_test.go` pins it down. A
condition rule has the form `when => then`. A call whose consumer URL and
invoked method satisfy the When side is routed to the providers whose URL
satisfies the Then side.

The model has these parts:

- **Rule parsing** (`rule.dfy`, module `Rules`).
  - The rule is cut at its first `=>` and each side is trimmed.
  - A side is split on `&` into parts of the form `key = v1,...,vn` or `key != v1,...,vn`, and the values are trimmed.
  - Parts on the same key are gathered into one clause that holds the included and the excluded values.
  - A blank or `true` When side is the true literal.
  - A blank Then side is `EmptyThen`, and `false` in any letter case is the false literal.
  - A rule without `=>`, a part without `=` and a part with an empty key are errors.
- **Matching** (`matching.dfy`, module `Matching`).
  - Clauses are AND-combined.
  - A clause holds when its value matches one of its `=` patterns (if it has any) and none of its `!=` patterns.
  - A key without a value resolves to the empty string, which matches only an explicitly empty pattern (`k = ` with nothing after it).
  - A pattern may hold one `*` wildcard: the text before it must start the value and the text after it must end the value.
  - On the Then side, `$key` is replaced by the consumer's value for `key`.
- **Key resolution** (`url.dfy`, module `Urls`). URLs are records of host, port and parameters.
  - `host` and `port` read the authority.
  - `method`/`methods` read the invoked method's name on the When side.
  - Any other key reads the parameter of that name, falling back to the `default.`-prefixed parameter.
- **Routing** (`router.dfy`, module `Routing`).
  - `Route` is a method with a loop, proved equal to the specification function `RouteSpec`.
  - A disabled router, an empty invoker list or a call the When side does not select gets the input back unchanged.
  - Otherwise the invokers satisfying the Then side are kept in their original order.
  - An empty outcome is returned only when the router forces; otherwise the full list comes back.
- **Factory** (`factory.dfy`, module `Factory`). `NewPriorityRouter` builds the router from the route URL's parameters:
  - `rule` is required;
  - `force` defaults to false;
  - `enabled` defaults to true;
  - `priority` defaults to 0;
  - the factory kind gives the scope.
- **Test fixtures** (`fixtures.dfy`, module `Fixtures`): `getRouteUrl`, `getRouteUrlWithForce` and `getRouteUrlWithNoForce` as URL records, and lemmas that build routers from them.
- **Test scenarios**:
  - `match_when_tests.dfy` (module `MatchWhenTests`) restates every assertion of `TestRouteMatchWhen` and `TestRouteMethodRoute` as a lemma;
  - `route_tests.dfy` (module `RouteTests`) does the same for every routing test.

  Each scenario lemma takes the rule text exactly as the test spells it. It proves that the router is built, and then either whether the call is selected or exactly which invokers are returned, in order. The routing scenarios and the When scenarios of `TestRouteMatchWhen` are stated for any invocation. The two `methods=getFoo` scenarios fix an invocation of `getFoo`, as the test does at line 190.
- `text.dfy` (module `Text`) holds the string helpers (trim, split, join, search) and their lemmas. `wrappers.dfy` holds `Option` and `Result`.

The local address `gxnet.GetLocalIP()` returns is a parameter `ip` of the routing scenarios. The scenarios require `RouteTests.LocalAddress(ip)`: digits and dots only, not on the providers' 10.20.3.* network, and not 1.2.3.4, which is what the tests take for granted about the machine's address. `RouteTests.LocalIPIsLocal` shows that the fixed address 192.168.1.7 qualifies, so every scenario applies to it.

An absent `force` parameter means the router does not force. `TestRouteNoForce` (factory_test.go:328-343) builds a router without a `force` parameter and expects the unfiltered list back, which a forcing default would not give.

## Model

| member | source | states |
|---|---|---|
| Urls.Param | cluster/router/condition/factory_test.go:157-157 | A parameter reads its value when present and the empty string when absent. |
| Urls.ResolveMethod | cluster/router/condition/factory_test.go:190-208 | With an invoked method given, `method` and `methods` both resolve to its name, whatever the URL's own `methods` parameter says. |
| Urls.ResolveOwn | cluster/router/condition/factory_test.go:166-166 | An ordinary key whose own parameter is set and non-empty resolves to that parameter. |
| Urls.ResolveDefault | cluster/router/condition/factory_test.go:157-166 | An ordinary key without a parameter of its own resolves to the `default.`-prefixed parameter (`serialization` reads `default.serialization=fastjson`). |
| Urls.ResolveAbsent | cluster/router/condition/factory_test.go:157-166 | An ordinary key with neither parameter resolves to the empty string. |
| Urls.ResolveLocal | cluster/router/condition/factory_test.go:157-159 | Setting any parameter other than a key's own or its default leaves what the key resolves to unchanged. |
| Urls.Resolve | cluster/router/condition/factory_test.go:157-208 | The value a condition key stands for: the invoked method's name for `method`/`methods` on the When side, the authority for `host` and `port`, otherwise the parameter or its `default.` fallback. Its cases are stated by Urls.ResolveMethod, ResolveOwn, ResolveDefault, ResolveAbsent and ResolveLocal. |
| Urls.RawParam | cluster/router/condition/factory_test.go:319-319 | The consumer's value a `$key` placeholder stands for: the authority for `host` and `port`, the parameter itself otherwise. Its use is stated by Matching.Placeholder. |
| Rules.ParsePart | cluster/router/condition/factory_test.go:132-132 | A part fails with MissingOperator exactly when it has no `=`, and otherwise fails only with EmptyKey. On success its key is non-empty and unpadded, and its values are a non-empty list with no `,` in any of them. |
| Rules.ParsePieces | cluster/router/condition/factory_test.go:132-132 | Parsing the `&`-pieces yields one part per piece, and never a MissingArrow error. |
| Rules.ParsePiecesOk | cluster/router/condition/factory_test.go:132-132 | Pieces that each parse to the corresponding part parse to exactly that list of parts. |
| Rules.ParsePiecesFirstFailure | cluster/router/condition/factory_test.go:132-132 | When pieces 0..k-1 parse and piece k does not, the whole side fails with piece k's error. |
| Rules.ParseParts | cluster/router/condition/factory_test.go:132-132 | A side split on `&`, each piece parsed as a part. Stated by Rules.PartsText, PartsOne, PartsTwo and PartsRoundTrip. |
| Rules.PartsText | cluster/router/condition/factory_test.go:162-163 | Parts joined with `&` parse to the list of those parts. |
| Rules.PartsOne | cluster/router/condition/factory_test.go:161-161 | A text without `&` that parses as a part is a list of that one part. |
| Rules.PartsTwo | cluster/router/condition/factory_test.go:162-163 | Two texts without `&`, joined by one, parse to the list of their two parts. |
| Rules.PartsOneFails | cluster/router/condition/factory_test.go:132-132 | A text without `&` that does not parse as a part fails with that part's error. |
| Rules.Lookup | cluster/router/condition/factory_test.go:162-163 | The clause looked up for a key is for that key. It is empty when no clause has the key, and one of the clauses when the keys are distinct. |
| Rules.Accumulate | cluster/router/condition/factory_test.go:162-163 | Adding a part adds exactly its key to the clauses' keys. |
| Rules.AccumulateDistinct | cluster/router/condition/factory_test.go:162-163 | Adding a part to clauses with distinct keys keeps the keys distinct. |
| Rules.AccumulateLookup | cluster/router/condition/factory_test.go:162-163 | Adding a part changes only the clause of its own key, merging the part's values into it. |
| Rules.Merge | cluster/router/condition/factory_test.go:163-163 | A part's values added to the `=` or the `!=` list of its key's clause. Its effect is stated by Rules.AccumulateLookup and Rules.CollectTwo. |
| Rules.Collect | cluster/router/condition/factory_test.go:162-163 | The parts of a side gathered into one clause per key. Its meaning is stated by Rules.CollectSpec against the independent per-key gathering ValuesFor. |
| Rules.CollectSpec | cluster/router/condition/factory_test.go:162-163 | The clauses of a side have exactly the keys its parts name, one clause per key. The clause for a key holds every `=` value and every `!=` value given for that key, in order. |
| Rules.CollectOne | cluster/router/condition/factory_test.go:161-161 | A single part gives a single clause. |
| Rules.CollectTwo | cluster/router/condition/factory_test.go:163-163 | Two parts on the same key give one merged clause; on different keys they give two clauses in order. |
| Rules.ParseClauses | cluster/router/condition/factory_test.go:132-132 | Reading a side as clauses fails exactly when reading its parts does, with the same error (never MissingArrow), and otherwise yields clauses. What it yields is stated by Rules.ClausesOf and Rules.CollectSpec. |
| Rules.ParseWhen | cluster/router/condition/factory_test.go:281-300 | Reading a When side never fails with MissingArrow. Its literal case is stated by Rules.BlankSide and Rules.TrueSide, and its clause case by Rules.ClausesOf. |
| Rules.ParseThen | cluster/router/condition/factory_test.go:217-229 | Reading a Then side never fails with MissingArrow. Its literal cases are stated by Rules.BlankSide and Rules.FalseSide, and its clause case by Rules.ClausesOf. |
| Rules.ParseRule | cluster/router/condition/factory_test.go:123-123 | A rule fails with MissingArrow exactly when it has no `=>` anywhere. How a side's error becomes the rule's is stated by Rules.WhenFails and Rules.ThenFails. |
| Rules.EmptyRule | cluster/router/condition/factory_test.go:123-123 | The empty rule text has no arrow and fails with MissingArrow. |
| Rules.WhenFails | cluster/router/condition/factory_test.go:161-166 | A rule `w => t` whose trimmed When side does not parse fails with that side's error, whatever t is. |
| Rules.ThenFails | cluster/router/condition/factory_test.go:161-166 | A rule `w => t` whose When side parses and whose Then side does not fails with the Then side's error. |
| Rules.OperatorlessWhen | cluster/router/condition/factory_test.go:161-166 | A rule whose When side is neither blank nor `true` and has no `=` fails with MissingOperator on the trimmed side. |
| Rules.OperatorlessThen | cluster/router/condition/factory_test.go:161-166 | A rule whose When side parses and whose Then side is neither blank nor a literal and has no `=` fails with MissingOperator on the trimmed side. |
| Rules.ArrowSplit | cluster/router/condition/factory_test.go:161-166 | A rule `w => t` with no `>` in w has its first arrow right after w, and is cut into w and t. |
| Rules.RuleText | cluster/router/condition/factory_test.go:161-166 | A rule `w => t` with no `>` in w parses to the When condition of trimmed w and the Then condition of trimmed t. |
| Rules.IncludeAt | cluster/router/condition/factory_test.go:161-161 | `head=body` with no `=` in head and no `!` at its end parses to an inclusion part: the trimmed key and the trimmed comma-separated values. |
| Rules.ExcludeAt | cluster/router/condition/factory_test.go:165-165 | `head!=body` with no `=` in head parses to an exclusion part: the trimmed key and the trimmed comma-separated values. |
| Rules.EmptyKeyAt | cluster/router/condition/factory_test.go:132-132 | A part whose key text is blank, such as ` = x` or ` != x`, fails with EmptyKey. |
| Rules.PartText | cluster/router/condition/factory_test.go:161-166 | `key = v1,...,vn` or `key != v1,...,vn`, with spaces around the key and the list, parses to that key, operator and value list. |
| Rules.PartOne | cluster/router/condition/factory_test.go:161-161 | A padded single-value part parses to its key, operator and value. |
| Rules.PartThree | cluster/router/condition/factory_test.go:164-164 | A padded three-value part parses to its key, operator and the three values. |
| Rules.SideText | cluster/router/condition/factory_test.go:161-166 | A side made of parseable `&`-separated parts, with spaces around it, parses on either side of a rule to the clauses of its parts. |
| Rules.NotLiteral | cluster/router/condition/factory_test.go:161-166 | A side with `=` in it is not blank, not `true` and not `false` in any letter case. |
| Rules.ClausesOf | cluster/router/condition/factory_test.go:161-166 | A side with an operator in it reads as the clauses of its parts, on either side of a rule. |
| Rules.SideOne | cluster/router/condition/factory_test.go:161-161 | A padded one-part side is the single clause of that part. |
| Rules.SideTwo | cluster/router/condition/factory_test.go:162-163 | A padded two-part side is the clauses of both parts. |
| Rules.BlankSide | cluster/router/condition/factory_test.go:224-234 | A blank side is the true literal as a When side and EmptyThen as a Then side. |
| Rules.TrueSide | cluster/router/condition/factory_test.go:300-300 | `true` with spaces around it is the true literal on the When side. |
| Rules.FalseSide | cluster/router/condition/factory_test.go:217-217 | `false` in any letter case, with spaces around it, is the false literal on the Then side. |
| Rules.RenderPieces | cluster/router/condition/factory_test.go:161-166 | Rendering gives one text per part, each that part's `key=values` or `key!=values`. |
| Rules.PartRoundTrip | cluster/router/condition/factory_test.go:161-166 | A renderable part, written out and parsed back, gives the same part, and its text has no `&`. |
| Rules.PartsRoundTrip | cluster/router/condition/factory_test.go:161-166 | Renderable parts joined with `&` and parsed back give the same parts. |
| Matching.Expand | cluster/router/condition/factory_test.go:319-319 | Without a consumer, or for a pattern not starting with `$`, the pattern is left as it is. With a consumer, `$key` becomes the consumer's raw value for `key` (Urls.RawParam). |
| Matching.Wildcard | cluster/router/condition/factory_test.go:140-151 | Single-wildcard matching. Stated by Matching.WildcardStar, WildcardLiteral, WildcardSplit, WildcardSound, WildcardComplete and WildcardOverlap. |
| Matching.PatternMatches | cluster/router/condition/factory_test.go:140-151 | A pattern, with any placeholder filled, matched as a wildcard against a value. Stated through Matching.Expand and the wildcard lemmas. |
| Matching.AnyMatch | cluster/router/condition/factory_test.go:128-131 | Whether a value matches one pattern of a list. Stated by Matching.AnyMatchExists. |
| Matching.ClauseHolds | cluster/router/condition/factory_test.go:132-135 | A clause holds when the key's value matches one of its `=` patterns, if it has any, and none of its `!=` patterns; a key without a value matches only an explicitly empty pattern. Stated by Matching.PresentValue, AbsentValue, EmptyPattern, ExclusionWins and Contradiction. |
| Matching.AllHold | cluster/router/condition/factory_test.go:132-139 | Whether every clause holds. Stated by Matching.AllHoldForall. |
| Matching.Holds | cluster/router/condition/factory_test.go:121-152 | A condition holds: the true literal always, the false literal and an empty Then side never, clauses when they all hold. Stated by Matching.HoldsOne, HoldsTwo and AllHoldForall. |
| Matching.WildcardStar | cluster/router/condition/factory_test.go:140-143 | `*` alone matches every value. |
| Matching.WildcardLiteral | cluster/router/condition/factory_test.go:128-131 | A pattern without `*` matches exactly the value equal to it. |
| Matching.WildcardSplit | cluster/router/condition/factory_test.go:144-151 | `pre*suf` matches exactly the values that start with `pre` and end with `suf`. |
| Matching.WildcardSound | cluster/router/condition/factory_test.go:148-151 | Every value `pre + mid + suf` matches `pre*suf` (1.1.1.1 matches 1.1.1.*). |
| Matching.WildcardComplete | cluster/router/condition/factory_test.go:140-143 | A value long enough for both ends matches `pre*suf` only when it is `pre + mid + suf` (1.1.1.1 does not match 4.4.4.*). |
| Matching.WildcardOverlap | cluster/router/condition/factory_test.go:140-151 | The two ends are tested separately and may overlap: `ab*b` matches `ab`. |
| Matching.AnyMatchExists | cluster/router/condition/factory_test.go:128-131 | A value list is an OR: it matches exactly when one of its patterns does. |
| Matching.AllHoldForall | cluster/router/condition/factory_test.go:132-139 | The clauses of a side are AND-combined: they all hold exactly when each one does. |
| Matching.PresentValue | cluster/router/condition/factory_test.go:132-135 | For a key with a value, the clause holds exactly when some `=` pattern matches it (or there is none) and no `!=` pattern does. |
| Matching.AbsentValue | cluster/router/condition/factory_test.go:157-166 | For a key without a value and patterns that are not empty, the clause holds exactly when it has no `=` pattern: `serialization = *` fails on a provider without `serialization`. |
| Matching.EmptyPattern | cluster/router/condition/factory_test.go:157-166 | `k = ` (an empty pattern) holds exactly on the URLs without a value for `k`, and `k != ` exactly on those with one. |
| Matching.ExclusionWins | cluster/router/condition/factory_test.go:132-135 | For a key with a value, a value matching any `!=` pattern makes the clause fail, whatever its `=` patterns say. |
| Matching.Contradiction | cluster/router/condition/factory_test.go:163-163 | A clause whose every `=` pattern is also a `!=` pattern never holds. |
| Matching.Placeholder | cluster/router/condition/factory_test.go:319-319 | On the Then side, `k = $k` holds for a provider URL exactly when the provider has a value for `k` and it equals the consumer's raw value for `k` (for a consumer value without `*`); it fails when neither has a value. |
| Matching.PlaceholderHost | cluster/router/condition/factory_test.go:309-326 | `host = $host` holds for a provider exactly when its host is non-empty and is the consumer's (for a consumer host without `*`). |
| Matching.AnyMatchOne | cluster/router/condition/factory_test.go:161-161 | A one-pattern list matches exactly when that pattern does. |
| Matching.AnyMatchThree | cluster/router/condition/factory_test.go:164-164 | A three-pattern list matches exactly when one of the three does. |
| Matching.HoldsOne | cluster/router/condition/factory_test.go:161-161 | A one-clause condition holds exactly when its clause does. |
| Matching.HoldsTwo | cluster/router/condition/factory_test.go:132-132 | A two-clause condition holds exactly when both clauses do. |
| Routing.Route | cluster/router/condition/factory_test.go:174-179 | The loop returns RouteSpec: the input unchanged when the router is disabled, there are no invokers or the When side does not select the call. Otherwise the invokers the Then side keeps, in order, or the full list when nothing is kept and the router is not forcing. |
| Routing.MatchWhen | cluster/router/condition/factory_test.go:126-126 | The When side evaluated on the consumer URL with the invoked method's name. Its value for the tests' rules is stated by Fixtures.BuildForcingWhen and the MatchWhenTests scenarios. |
| Routing.MatchThen | cluster/router/condition/factory_test.go:174-179 | The Then side evaluated on a provider URL, with placeholders filled from the consumer URL. Stated through Routing.FilterMember. |
| Routing.Filter | cluster/router/condition/factory_test.go:174-179 | The invokers the Then side keeps. Stated by Routing.FilterMember, FilterAppend, FilterAll, FilterNone and FilterLength. |
| Routing.RouteSpec | cluster/router/condition/factory_test.go:174-185 | What routing returns. Stated by Routing.RouteUnmatched, RouteSubset, RouteNeverStrands, RouteFallback, RouteForced, RouteForcedEmpty and RouteAll. |
| Routing.FilterAppend | cluster/router/condition/factory_test.go:266-268 | Filtering is stable: filtering a concatenation is the concatenation of the filtered pieces. |
| Routing.FilterMember | cluster/router/condition/factory_test.go:252-269 | An invoker is kept exactly when it is offered and its URL satisfies the Then side. |
| Routing.FilterAll | cluster/router/condition/factory_test.go:236-250 | The filter keeps the whole list exactly when every invoker satisfies the Then side. |
| Routing.FilterLength | cluster/router/condition/factory_test.go:180-185 | The filter never keeps more invokers than it is given. |
| Routing.FilterNone | cluster/router/condition/factory_test.go:181-182 | The filter keeps nothing exactly when no invoker satisfies the Then side. |
| Routing.FilterRejectAll | cluster/router/condition/factory_test.go:212-234 | A false or empty Then side keeps no invoker. |
| Routing.RouteUnmatched | cluster/router/condition/factory_test.go:132-135 | A call the When side does not select keeps every invoker. |
| Routing.RouteSubset | cluster/router/condition/factory_test.go:174-185 | Every invoker routing returns was offered. |
| Routing.RouteNeverStrands | cluster/router/condition/factory_test.go:328-343 | A router that does not force never returns an empty list for a non-empty input. |
| Routing.RouteFallback | cluster/router/condition/factory_test.go:328-343 | A router that does not force, and whose Then side no invoker satisfies, returns the input list unchanged. |
| Routing.RouteForced | cluster/router/condition/factory_test.go:345-360 | For a selected call, an enabled forcing router returns exactly the invokers the Then side keeps, even none. |
| Routing.RouteForcedEmpty | cluster/router/condition/factory_test.go:212-234 | For a selected call, an enabled forcing router with a false or empty Then side returns nothing. |
| Routing.RouteAll | cluster/router/condition/factory_test.go:236-250 | When every invoker satisfies the Then side, routing returns the input list. |
| Factory.BoolParam | cluster/router/condition/factory_test.go:63-81 | A flag parameter reads true for a true text and false for a false text, and takes the default when absent or when its text is neither. |
| Factory.TrueText | cluster/router/condition/factory_test.go:66-66 | The texts read as true, among them `true` as getRouteUrl sets it. Used by Factory.BoolParam and Fixtures.BuildWithForce. |
| Factory.FalseText | cluster/router/condition/factory_test.go:73-73 | The texts read as false. Used by Factory.BoolParam. |
| Factory.ParseInt | cluster/router/condition/factory_test.go:63-81 | A string of decimal digits reads as its value, and one with a leading `-` or `+` as its negation or its value; every other string is unreadable. |
| Factory.IntParam | cluster/router/condition/factory_test.go:63-81 | An integer parameter reads as its value when it is a decimal number and takes the default when absent or unreadable. |
| Factory.NewPriorityRouter | cluster/router/condition/factory_test.go:63-81 | It fails with MissingRule exactly when there is no `rule` parameter, fails with the parse error when the rule does not parse, and builds a router when the rule is present and parses. A router it builds holds the parsed rule, `priority` read with default 0, `force` read with default false, `enabled` read with default true, and the factory's scope. |
| Factory.NoForceParam | cluster/router/condition/factory_test.go:77-81 | A route URL without `force` builds a router that does not force. |
| Factory.ForceParam | cluster/router/condition/factory_test.go:63-68 | A route URL with `force=true` builds a forcing router. |
| Factory.OperatorlessRule | cluster/router/condition/factory_test.go:63-81 | A rule URL whose Then side has no operator builds no router and reports BadRule with MissingOperator on the trimmed side. |
| Factory.PriorityParam | cluster/router/condition/factory_test.go:63-81 | A `priority` parameter written in decimal digits becomes the router's priority. |
| Fixtures.RouteUrl | cluster/router/condition/factory_test.go:63-68 | getRouteUrl: the rule URL's parameters are exactly `rule` and `force=true`. |
| Fixtures.RouteUrlWithForce | cluster/router/condition/factory_test.go:70-75 | getRouteUrlWithForce: the parameters are exactly `rule` and the given `force`. |
| Fixtures.RouteUrlWithNoForce | cluster/router/condition/factory_test.go:77-81 | getRouteUrlWithNoForce: the only parameter is `rule`. |
| Fixtures.BuildForcing | cluster/router/condition/factory_test.go:63-68 | A parseable rule on getRouteUrl builds an enabled, forcing, service-scoped router with priority 0 holding the parsed rule. |
| Fixtures.BuildForcingWhen | cluster/router/condition/factory_test.go:124-126 | MatchWhen of such a router is the parsed When side, evaluated on the consumer URL with the invoked method's name. |
| Fixtures.Selected | cluster/router/condition/factory_test.go:124-127 | Such a router selects a call its parsed When side holds for. |
| Fixtures.NotSelected | cluster/router/condition/factory_test.go:132-135 | Such a router does not select a call its parsed When side fails for. |
| Fixtures.BuildWithForce | cluster/router/condition/factory_test.go:70-75 | A parseable rule with an explicit `force` text builds a router that forces exactly when the text reads as true. |
| Fixtures.BuildNoForce | cluster/router/condition/factory_test.go:77-81 | A parseable rule with no `force` parameter builds a router that does not force. |
| Fixtures.RoutedForcing | cluster/router/condition/factory_test.go:174-185 | A router from getRouteUrl returns, for a selected call, exactly the invokers its Then side keeps. |
| Fixtures.RoutedWithForce | cluster/router/condition/factory_test.go:357-359 | A router with an explicit true `force` text does the same. |
| Fixtures.RoutedNoForce | cluster/router/condition/factory_test.go:340-342 | A router with no `force` parameter, whose Then side keeps nothing, returns every invoker. |
| MatchWhenTests.BlankWhenMatches | cluster/router/condition/factory_test.go:122-127 | `=> host = 1.2.3.4` builds a router that selects every call, from any consumer. |
| MatchWhenTests.OrListMatches | cluster/router/condition/factory_test.go:128-131 | `host = 2.2.2.2,1.1.1.1,3.3.3.3 => host = 1.2.3.4` selects a call from 1.1.1.1. |
| MatchWhenTests.ExcludedHostDoesNotMatch | cluster/router/condition/factory_test.go:132-135 | Adding `& host !=1.1.1.1` makes the rule reject a call from 1.1.1.1. |
| MatchWhenTests.OtherHostExcludedMatches | cluster/router/condition/factory_test.go:136-139 | `host !=4.4.4.4 & host = 2.2.2.2,1.1.1.1,3.3.3.3` selects a call from 1.1.1.1. |
| MatchWhenTests.WildcardExcludedMatches | cluster/router/condition/factory_test.go:140-143 | `host !=4.4.4.* & host = 2.2.2.2,1.1.1.1,3.3.3.3` selects a call from 1.1.1.1, whatever its `methods` parameter and invoked method (also lines 189-198). |
| MatchWhenTests.ExcludedOverWildcard | cluster/router/condition/factory_test.go:144-147 | `host = 2.2.2.2,1.1.1.*,3.3.3.3 & host != 1.1.1.1` rejects a call from 1.1.1.1: the exclusion wins over the wildcard inclusion. |
| MatchWhenTests.WildcardIncludedMatches | cluster/router/condition/factory_test.go:148-151 | `host = 2.2.2.2,1.1.1.*,3.3.3.3 & host != 1.1.1.2` selects a call from 1.1.1.1. |
| MatchWhenTests.MethodExcludedHost | cluster/router/condition/factory_test.go:199-203 | `methods=getFoo & host!=1.1.1.1` rejects a call of getFoo from 1.1.1.1. |
| MatchWhenTests.MethodIncludedHost | cluster/router/condition/factory_test.go:204-208 | `methods=getFoo & host=1.1.1.1` selects a call of getFoo from 1.1.1.1. |
| RouteTests.LocalIPIsLocal | cluster/router/condition/factory_test.go:155-155 | The fixed address 192.168.1.7 meets what the tests assume of the local address. |
| RouteTests.LocalChars | cluster/router/condition/factory_test.go:155-159 | A local address has no character of the rule syntax in it and is none of the providers on 10.20.3.*. |
| RouteTests.FilterExactHost | cluster/router/condition/factory_test.go:161-180 | `host = <ip> =>  host = 10.20.3.3` routes the three providers to exactly the one on 10.20.3.3. |
| RouteTests.FilterNetworkExcluded | cluster/router/condition/factory_test.go:162-181 | `host = 10.20.3.* & host != 10.20.3.3` routes them to nothing. |
| RouteTests.FilterContradiction | cluster/router/condition/factory_test.go:163-182 | `host = 10.20.3.3  & host != 10.20.3.3` routes them to nothing. |
| RouteTests.FilterNetworkList | cluster/router/condition/factory_test.go:164-183 | `host = 10.20.3.2,10.20.3.3,10.20.3.4` routes them to exactly the one on 10.20.3.3. |
| RouteTests.FilterOtherHost | cluster/router/condition/factory_test.go:165-184 | `host != 10.20.3.3` routes them to exactly the two local ones, in order. |
| RouteTests.FilterDefaultParam | cluster/router/condition/factory_test.go:166-185 | `serialization = fastjson` routes them to exactly the one carrying `default.serialization=fastjson`. |
| RouteTests.ReturnFalse | cluster/router/condition/factory_test.go:212-222 | `host = <ip> => false` routes three invokers to nothing. |
| RouteTests.ReturnEmpty | cluster/router/condition/factory_test.go:224-234 | `host = <ip> => ` routes three invokers to nothing. |
| RouteTests.ReturnAll | cluster/router/condition/factory_test.go:236-250 | `host = <ip> =>  host = <ip>` routes three local invokers to all three, the same list. |
| RouteTests.HostFilter | cluster/router/condition/factory_test.go:252-269 | `host = <ip> =>  host = <ip>` routes the three providers to exactly invoker2 and invoker3, in that order. |
| RouteTests.EmptyHostFilter | cluster/router/condition/factory_test.go:271-288 | ` =>  host = <ip>` routes them to exactly invoker2 and invoker3, in that order. |
| RouteTests.FalseHostFilter | cluster/router/condition/factory_test.go:290-307 | `true =>  host = <ip>` routes them to exactly invoker2 and invoker3, in that order. |
| RouteTests.PlaceholderFilter | cluster/router/condition/factory_test.go:309-326 | `host = <ip> =>  host = $host` routes them to exactly invoker2 and invoker3, in that order. |
| RouteTests.NoForce | cluster/router/condition/factory_test.go:328-343 | Without `force`, `host = <ip> =>  host = 1.2.3.4` returns the three providers unchanged. |
| RouteTests.Force | cluster/router/condition/factory_test.go:345-360 | With `force=true`, the same rule returns nothing. |

## Left out

- Base64 decoding of the `rule` parameter (factory_test.go:123 and the other rule texts): the model takes the decoded rule text, because the codec is a foreign library.
- `gxnet.GetLocalIP()` (factory_test.go:155): host and network I/O. The routing scenarios take the address as a parameter under `RouteTests.LocalAddress` instead.
- `common.NewURL` and `AddParam` (factory_test.go:63-81): URL text parsing belongs to a library that is not part of this model. URLs are built directly as host, port and parameter records. The scheme and the service path are not kept, because no rule in the tests reads them.
- `MockInvoker` (factory_test.go:43-119): the `available`/`destroyed` flags, `Invoke` with the package-global `count`, and `Destroy` with its logging are test doubles the router never calls. An invoker is an id and a URL. `assert.Equal` compares the mocks by deep equality, so what tells mocks on the same URL apart is their `successCount` (lines 160, 215, 227, 257-259), and the model's ids mirror those counts: 1, 2 and 3, or 1 for all three invokers of `TestRouteReturnAll` (lines 240-242).
- The invocation's parameter types and arguments (factory_test.go:190): only the method name is consulted.
- `TestNewConditionRouterFactory` and `TestNewAppRouterFactory` (factory_test.go:362-370) only check that a factory exists. Both factory kinds are modelled, and they differ only in scope.
- Priority ordering across a router chain: the priority is only read into an integer field.
- The `runtime` and `category` parameters: no test sets or reads them.
- Factory.NewPriorityRouter: `force` defaults to false when absent, following `TestRouteNoForce`; a default of true would contradict that test. An unreadable `force` or `enabled` text also takes the default.
- Rules.ParseRule: the handling of a rule without `=>`, a part without an operator and an empty key is not exercised by the tests. The model reports each as an error. `true` as a Then side is the true literal, and `false` as a When side is read as clauses (and so fails). The tests pin only `false` and blank on the Then side, and blank and `true` on the When side.
- Urls.Resolve: two choices the tests do not exercise. `method` (singular) is treated like `methods` and reads the invoked method's name on the When side. On the Then side, where no invocation is given, `methods` reads the provider URL's parameter as one plain string and is not matched against a declared method list.
- Factory.IntParam: integers are unbounded, so a `priority` text outside the 64-bit range is read as its value rather than rejected and replaced by the default. Priority is only read, never used, in the tests.
- Text.Trim and Text.Lower: trimming removes spaces only, so a tab or a line break around a side stays part of it (`\tfalse` is read as clauses, not as the false literal), and case folding covers ASCII letters only.
- Matching.ClauseHolds: the tests reach a key without a value only through `serialization = fastjson` on providers that lack `serialization` (lines 157-166), which fails under any reading. The model follows the documented rule that such a key resolves to the empty string and matches only an explicitly empty pattern, so `k = *` fails there, `k != x` holds, and `k = $k` fails when neither side has `k`.
- Matching: the wildcard split at the last `*` follows the single-wildcard rule, and a pattern with several `*` is not exercised.

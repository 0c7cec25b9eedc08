/**
  Evaluation of a parsed condition against a URL. A value pattern is a
  literal, a literal with one `*` wildcard, or a `$key` placeholder filled
  from the consumer's URL when one is given (the Then side of a rule). A
  clause holds when the resolved value matches one of its `=` patterns (if
  it has any) and none of its `!=` patterns; a condition holds when all of
  its clauses do.
 */
module Matching {
  import opened Wrappers
  import opened Text
  import opened Urls
  import opened Rules

  /** The pattern with a leading `$key` replaced by the consumer's value for
      key; unchanged when there is no consumer or no '$'. */
  function Expand(pattern: string, consumer: Option<Url>): (r: string)
    ensures consumer.None? || !StartsWith(pattern, "$") ==> r == pattern
    ensures consumer.Some? && StartsWith(pattern, "$") ==> r == RawParam(consumer.value, pattern[1..])
  {
    if consumer.Some? && StartsWith(pattern, "$") then RawParam(consumer.value, pattern[1..])
    else pattern
  }

  /** Single-wildcard comparison: `*` alone matches everything; otherwise the
      part before the last `*` must start the value and the part after it
      must end it; without `*` the value must equal the pattern. */
  predicate Wildcard(pattern: string, value: string) {
    if pattern == "*" then true
    else
      match LastIndexOf(pattern, '*')
      case None => value == pattern
      case Some(i) => StartsWith(value, pattern[..i]) && EndsWith(value, pattern[i + 1..])
  }

  predicate PatternMatches(pattern: string, value: string, consumer: Option<Url>) {
    Wildcard(Expand(pattern, consumer), value)
  }

  /** Whether value matches one of the patterns. */
  function AnyMatch(patterns: seq<string>, value: string, consumer: Option<Url>): (b: bool)
  {
    if patterns == [] then false
    else PatternMatches(patterns[0], value, consumer) || AnyMatch(patterns[1..], value, consumer)
  }

  /** The clause holds for the value its key resolves to in url. A key
      without a value resolves to the empty string, which matches only an
      explicitly empty pattern: not `*`, and not a placeholder that the
      consumer leaves empty. */
  predicate ClauseHolds(c: Clause, url: Url, methodName: Option<string>, consumer: Option<Url>) {
    var value := Resolve(c.key, url, methodName);
    if value == "" then (c.matches == [] || "" in c.matches) && "" !in c.mismatches
    else (c.matches == [] || AnyMatch(c.matches, value, consumer)) && !AnyMatch(c.mismatches, value, consumer)
  }

  function AllHold(cs: seq<Clause>, url: Url, methodName: Option<string>, consumer: Option<Url>): bool
  {
    if cs == [] then true
    else ClauseHolds(cs[0], url, methodName, consumer) && AllHold(cs[1..], url, methodName, consumer)
  }

  /** The condition holds for url. The true literal always holds; the false
      literal and an empty Then side never do. */
  predicate Holds(cond: Condition, url: Url, methodName: Option<string>, consumer: Option<Url>) {
    match cond
    case TrueLiteral => true
    case FalseLiteral => false
    case EmptyThen => false
    case Clauses(cs) => AllHold(cs, url, methodName, consumer)
  }

  // ---- Wildcards ----

  lemma WildcardStar(value: string)
    ensures Wildcard("*", value)
  {
  }

  /** Without `*` a pattern matches exactly itself. */
  lemma WildcardLiteral(pattern: string, value: string)
    requires '*' !in pattern
    ensures Wildcard(pattern, value) <==> value == pattern
  {
  }

  /** A pattern `pre*suf` (any other `*` in pre) matches exactly the values
      that start with pre and end with suf. */
  lemma WildcardSplit(pre: string, suf: string, value: string)
    requires '*' !in suf
    ensures Wildcard(pre + "*" + suf, value) <==> StartsWith(value, pre) && EndsWith(value, suf)
  {
    LastIndexOfBefore(pre, suf, '*');
    var p := pre + "*" + suf;
    assert p[..|pre|] == pre;
    assert p[|pre| + 1..] == suf;
    if p == "*" {
      assert pre == [] && suf == [];
    }
  }

  /** Every value of the form pre + mid + suf matches `pre*suf`. */
  lemma WildcardSound(pre: string, mid: string, suf: string)
    requires '*' !in suf
    ensures Wildcard(pre + "*" + suf, pre + mid + suf)
  {
    WildcardSplit(pre, suf, pre + mid + suf);
    var v := pre + mid + suf;
    assert v[..|pre|] == pre;
    assert v[|v| - |suf|..] == suf;
  }

  /** A value long enough to hold both ends matches `pre*suf` only when it
      is pre + mid + suf for some mid. */
  lemma WildcardComplete(pre: string, suf: string, value: string)
    requires '*' !in suf
    requires |value| >= |pre| + |suf|
    requires Wildcard(pre + "*" + suf, value)
    ensures value == pre + value[|pre|..|value| - |suf|] + suf
  {
    WildcardSplit(pre, suf, value);
    assert value == value[..|pre|] + value[|pre|..|value| - |suf|] + value[|value| - |suf|..];
  }

  /** The two ends are tested independently, so they may overlap: `ab*b`
      matches "ab". */
  lemma WildcardOverlap()
    ensures Wildcard("ab*b", "ab")
  {
    WildcardSplit("ab", "b", "ab");
    assert "ab" + "*" + "b" == "ab*b";
  }

  // ---- Lists of patterns and clauses ----

  /** An OR-list matches exactly when one of its patterns does. */
  lemma {:induction false} AnyMatchExists(patterns: seq<string>, value: string, consumer: Option<Url>)
    ensures AnyMatch(patterns, value, consumer) <==>
      exists i | 0 <= i < |patterns| :: PatternMatches(patterns[i], value, consumer)
  {
    if patterns != [] {
      AnyMatchExists(patterns[1..], value, consumer);
      if AnyMatch(patterns[1..], value, consumer) {
        var i :| 0 <= i < |patterns[1..]| && PatternMatches(patterns[1..][i], value, consumer);
        assert patterns[i + 1] == patterns[1..][i];
      }
      if exists i | 0 <= i < |patterns| :: PatternMatches(patterns[i], value, consumer) {
        var i :| 0 <= i < |patterns| && PatternMatches(patterns[i], value, consumer);
        if i > 0 { assert patterns[1..][i - 1] == patterns[i]; }
      }
    }
  }

  /** The clauses of a condition are AND-combined. */
  lemma {:induction false} AllHoldForall(cs: seq<Clause>, url: Url, methodName: Option<string>, consumer: Option<Url>)
    ensures AllHold(cs, url, methodName, consumer) <==>
      forall i | 0 <= i < |cs| :: ClauseHolds(cs[i], url, methodName, consumer)
  {
    if cs != [] {
      AllHoldForall(cs[1..], url, methodName, consumer);
      assert forall i | 1 <= i < |cs| :: cs[i] == cs[1..][i - 1];
    }
  }

  /** A key with no value satisfies a clause of non-empty patterns exactly
      when the clause has no `=` pattern: `serialization = *` fails and
      `serialization != fastjson` holds on a URL without serialization. */
  lemma AbsentValue(c: Clause, url: Url, methodName: Option<string>, consumer: Option<Url>)
    requires Resolve(c.key, url, methodName) == ""
    requires forall i | 0 <= i < |c.matches| :: c.matches[i] != ""
    requires forall i | 0 <= i < |c.mismatches| :: c.mismatches[i] != ""
    ensures ClauseHolds(c, url, methodName, consumer) <==> c.matches == []
  {
  }

  /** The explicitly empty pattern matches exactly the URLs without a value
      for the key: `k = ` keeps them and `k != ` drops them. */
  lemma EmptyPattern(k: string, url: Url, methodName: Option<string>, consumer: Option<Url>)
    ensures ClauseHolds(Clause(k, [""], []), url, methodName, consumer) <==> Resolve(k, url, methodName) == ""
    ensures ClauseHolds(Clause(k, [], [""]), url, methodName, consumer) <==> Resolve(k, url, methodName) != ""
  {
    var value := Resolve(k, url, methodName);
    AnyMatchOne("", value, consumer);
    WildcardLiteral("", value);
  }

  /** A present value satisfies a clause exactly when it matches one of its
      `=` patterns (if it has any) and none of its `!=` patterns. */
  lemma PresentValue(c: Clause, url: Url, methodName: Option<string>, consumer: Option<Url>)
    requires Resolve(c.key, url, methodName) != ""
    ensures ClauseHolds(c, url, methodName, consumer) <==>
      (c.matches == [] || exists i | 0 <= i < |c.matches| :: PatternMatches(c.matches[i], Resolve(c.key, url, methodName), consumer)) &&
      forall i | 0 <= i < |c.mismatches| :: !PatternMatches(c.mismatches[i], Resolve(c.key, url, methodName), consumer)
  {
    AnyMatchExists(c.matches, Resolve(c.key, url, methodName), consumer);
    AnyMatchExists(c.mismatches, Resolve(c.key, url, methodName), consumer);
  }

  /** An excluded value wins over any included one. */
  lemma ExclusionWins(c: Clause, url: Url, methodName: Option<string>, consumer: Option<Url>, i: nat)
    requires Resolve(c.key, url, methodName) != ""
    requires i < |c.mismatches|
    requires PatternMatches(c.mismatches[i], Resolve(c.key, url, methodName), consumer)
    ensures !ClauseHolds(c, url, methodName, consumer)
  {
    AnyMatchExists(c.mismatches, Resolve(c.key, url, methodName), consumer);
  }

  /** A clause whose every `=` pattern is also a `!=` pattern never holds. */
  lemma Contradiction(c: Clause, url: Url, methodName: Option<string>, consumer: Option<Url>)
    requires c.matches != []
    requires forall p | p in c.matches :: p in c.mismatches
    ensures !ClauseHolds(c, url, methodName, consumer)
  {
    var value := Resolve(c.key, url, methodName);
    AnyMatchExists(c.matches, value, consumer);
    AnyMatchExists(c.mismatches, value, consumer);
    if AnyMatch(c.matches, value, consumer) {
      var i :| 0 <= i < |c.matches| && PatternMatches(c.matches[i], value, consumer);
      assert c.matches[i] in c.mismatches;
      var j :| 0 <= j < |c.mismatches| && c.mismatches[j] == c.matches[i];
    }
  }

  /** `k = $k` on the Then side keeps exactly the URLs that have a value for
      k and whose value is the consumer's, provided that value has no
      wildcard in it. When neither has a value the clause fails. */
  lemma Placeholder(k: string, url: Url, consumer: Url)
    requires '*' !in RawParam(consumer, k)
    ensures ClauseHolds(Clause(k, ["$" + k], []), url, None, Some(consumer)) <==>
      Resolve(k, url, None) != "" && Resolve(k, url, None) == RawParam(consumer, k)
  {
    var p: string := "$" + k;
    var want := RawParam(consumer, k);
    var value := Resolve(k, url, None);
    assert StartsWith(p, "$");
    assert p[1..] == k;
    assert Expand(p, Some(consumer)) == want;
    assert [p][1..] == [];
    assert AnyMatch([p], value, Some(consumer)) == Wildcard(want, value);
    WildcardLiteral(want, value);
  }

  /** `host = $host` keeps exactly the URLs on the consumer's host. */
  lemma PlaceholderHost(url: Url, consumer: Url)
    requires '*' !in consumer.host
    ensures ClauseHolds(Clause("host", ["$host"], []), url, None, Some(consumer)) <==> url.host != "" && url.host == consumer.host
  {
    assert "$" + "host" == "$host";
    Placeholder("host", url, consumer);
  }

  // ---- Short lists ----

  lemma AnyMatchOne(p: string, value: string, consumer: Option<Url>)
    ensures AnyMatch([p], value, consumer) == PatternMatches(p, value, consumer)
  {
    assert [p][1..] == [];
  }

  lemma AnyMatchThree(a: string, b: string, c: string, value: string, consumer: Option<Url>)
    ensures AnyMatch([a] + [b] + [c], value, consumer) ==
      (PatternMatches(a, value, consumer) || PatternMatches(b, value, consumer) || PatternMatches(c, value, consumer))
  {
    var ps := [a] + [b] + [c];
    assert ps[0] == a && ps[1..] == [b] + [c];
    assert ([b] + [c])[0] == b && ([b] + [c])[1..] == [c];
    AnyMatchOne(c, value, consumer);
  }

  /** A condition of one clause holds exactly when that clause does. */
  lemma HoldsOne(c: Clause, url: Url, methodName: Option<string>, consumer: Option<Url>)
    ensures Holds(Clauses([c]), url, methodName, consumer) == ClauseHolds(c, url, methodName, consumer)
  {
    assert [c][1..] == [];
    assert AllHold([c][1..], url, methodName, consumer);
  }

  /** A condition of two clauses holds exactly when both do. */
  lemma HoldsTwo(c: Clause, d: Clause, url: Url, methodName: Option<string>, consumer: Option<Url>)
    ensures Holds(Clauses([c, d]), url, methodName, consumer) ==
      (ClauseHolds(c, url, methodName, consumer) && ClauseHolds(d, url, methodName, consumer))
  {
    assert [c, d][1..] == [d];
    HoldsOne(d, url, methodName, consumer);
  }
}

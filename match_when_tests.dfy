/**
  The When-side scenarios: TestRouteMatchWhen and TestRouteMethodRoute.
  Every rule is built into a forcing router through RouteUrl, and MatchWhen
  is evaluated for a consumer on host 1.1.1.1. Each scenario states, for
  the rule text exactly as the test writes it, that the router is built
  and whether the call is selected.
 */
module MatchWhenTests {
  import opened Wrappers
  import opened Text
  import opened Urls
  import opened Rules
  import opened Matching
  import opened Routing
  import opened Factory
  import opened Fixtures

  // ---- Rule shapes ----

  /** A rule whose When side is one clause followed by a space. */
  lemma OneClauseRule(rule: string, core: string, t: string, part: Part, thenSide: Condition)
    requires '&' !in core && '>' !in core && Unpadded(core) && ParsePart(core) == Success(part)
    requires ParseThen(Trim(t)) == Success(thenSide)
    requires rule == core + " " + "=>" + t
    ensures ParseRule(rule) == Success(Rule(Clauses([Single(part)]), thenSide))
  {
    var w := core + " ";
    var pad, rest := "", " ";
    OneClauseText(rule, w, core, t, pad, rest);
    OneClauseWhen(w, pad, core, rest, part);
    RuleText(rule, w, t, Clauses([Single(part)]), thenSide);
  }

  lemma OneClauseWhen(w: string, pad: string, core: string, rest: string, part: Part)
    requires '&' !in core && Unpadded(core) && ParsePart(core) == Success(part)
    requires pad == "" && rest == " " && w == pad + core + rest
    ensures ParseWhen(Trim(w)) == Success(Clauses([Single(part)]))
  {
    Spaces(pad, rest);
    SideOne(w, pad, core, part, rest);
  }

  /** A rule whose When side is two clauses joined by '&', followed by a space. */
  lemma TwoClauseRule(rule: string, c1: string, c2: string, t: string, part1: Part, part2: Part, thenSide: Condition)
    requires '&' !in c1 && '&' !in c2 && '>' !in c1 && '>' !in c2
    requires c1 != [] && c1[0] != ' ' && c2 != [] && c2[|c2| - 1] != ' '
    requires ParsePart(c1) == Success(part1) && ParsePart(c2) == Success(part2)
    requires ParseThen(Trim(t)) == Success(thenSide)
    requires rule == c1 + "&" + c2 + " " + "=>" + t
    ensures ParseRule(rule) == Success(Rule(Clauses(Collect([part1] + [part2])), thenSide))
  {
    var w := c1 + "&" + c2 + " ";
    TwoClauseText(rule, w, c1, c2, t);
    var pad, rest := "", " ";
    TwoClauseWhen(w, pad, c1, c2, rest, part1, part2);
    RuleText(rule, w, t, Clauses(Collect([part1] + [part2])), thenSide);
  }

  lemma TwoClauseWhen(w: string, pad: string, c1: string, c2: string, rest: string, part1: Part, part2: Part)
    requires '&' !in c1 && '&' !in c2
    requires c1 != [] && c1[0] != ' ' && c2 != [] && c2[|c2| - 1] != ' '
    requires ParsePart(c1) == Success(part1) && ParsePart(c2) == Success(part2)
    requires pad == "" && rest == " " && w == pad + c1 + "&" + c2 + rest
    ensures ParseWhen(Trim(w)) == Success(Clauses(Collect([part1] + [part2])))
  {
    Spaces(pad, rest);
    SideTwo(w, pad, c1, c2, rest, part1, part2);
  }

  lemma Spaces(pad: string, rest: string)
    requires pad == "" && rest == " "
    ensures Blank(pad) && Blank(rest)
  {
  }

  // ---- Pieces ----

  lemma HostKey(h: string)
    requires h == "host"
    ensures h != [] && Unpadded(h) && '=' !in h && h[|h| - 1] != '!'
  {
  }

  /** A `host` clause with one value. */
  lemma HostPart(text: string, kp: string, kq: string, op: Op, vp: string, v: string, vq: string, h: string)
    requires h == "host"
    requires Blank(kp) && Blank(kq) && Blank(vp) && Blank(vq) && ',' !in v && Unpadded(v)
    requires text == kp + h + kq + OpText(op) + vp + v + vq
    ensures ParsePart(text) == Success(Part(h, op, [v]))
  {
    HostKey(h);
    PartOne(text, kp, h, kq, op, vp, v, vq);
  }

  /** `host = a,b,c` with the given padding around it. */
  lemma HostList(text: string, kp: string, vq: string, h: string, a: string, b: string, c: string)
    requires h == "host"
    requires Blank(kp) && Blank(vq)
    requires ',' !in a && Unpadded(a) && ',' !in b && Unpadded(b) && ',' !in c && Unpadded(c)
    requires text == kp + h + " = " + a + "," + b + "," + c + vq
    ensures ParsePart(text) == Success(Part(h, Include, [a] + [b] + [c]))
  {
    var sp := " ";
    assert text == kp + h + sp + OpText(Include) + sp + (a + "," + b + "," + c) + vq;
    HostKey(h);
    PartThree(text, kp, h, sp, Include, sp, a, b, c, vq);
  }

  lemma ClauseKey(key: string)
    requires key == "host" || key == "methods"
    ensures key != [] && Unpadded(key) && '=' !in key && key[|key| - 1] != '!'
    ensures '&' !in key && '>' !in key
  {
  }

  /** The concrete values the When-side tests compare against. */
  lemma Address(v: string)
    requires v == "1.1.1.1" || v == "1.1.1.2" || v == "4.4.4.4" || v == "4.4.4.*" || v == "getFoo"
    ensures v != [] && ',' !in v && Unpadded(v) && '&' !in v && '>' !in v
  {
  }

  /** The characters of a one-value clause, by where the padding is. */
  lemma PieceChars(piece: string, kp: string, key: string, kq: string, op: Op, vp: string, v: string, vq: string)
    requires Blank(kp) && Blank(kq) && Blank(vp) && Blank(vq)
    requires key != [] && '&' !in key && '>' !in key && v != [] && '&' !in v && '>' !in v
    requires piece == kp + key + kq + OpText(op) + vp + v + vq
    ensures '&' !in piece && '>' !in piece && piece != []
    ensures kp == "" ==> piece[0] == key[0]
    ensures vq == "" ==> piece[|piece| - 1] == v[|v| - 1]
  {
    NotInBlank(kp, '&');
    NotInBlank(kq, '&');
    NotInBlank(vp, '&');
    NotInBlank(vq, '&');
    NotInBlank(kp, '>');
    NotInBlank(kq, '>');
    NotInBlank(vp, '>');
    NotInBlank(vq, '>');
    if kp == "" {
      assert piece == key + (kq + OpText(op) + vp + v + vq);
    }
    if vq == "" {
      assert piece == (kp + key + kq + OpText(op) + vp) + v;
    }
  }

  /** A one-value clause on `host` or `methods`. */
  lemma OnePiece(piece: string, kp: string, key: string, kq: string, op: Op, vp: string, v: string, vq: string)
    requires key == "host" || key == "methods"
    requires Blank(kp) && Blank(kq) && Blank(vp) && Blank(vq)
    requires v != [] && ',' !in v && Unpadded(v) && '&' !in v && '>' !in v
    requires piece == kp + key + kq + OpText(op) + vp + v + vq
    ensures ParsePart(piece) == Success(Part(key, op, [v]))
    ensures '&' !in piece && '>' !in piece && piece != []
    ensures kp == "" ==> piece[0] == key[0]
    ensures vq == "" ==> piece[|piece| - 1] == v[|v| - 1]
  {
    ClauseKey(key);
    PieceChars(piece, kp, key, kq, op, vp, v, vq);
    PartOne(piece, kp, key, kq, op, vp, v, vq);
  }

  /** The characters at the ends of a padded clause. */
  lemma PadChars(piece: string, kp: string, core: string, vq: string)
    requires Blank(kp) && Blank(vq) && core != [] && '&' !in core && '>' !in core
    requires piece == kp + core + vq
    ensures '&' !in piece && '>' !in piece && piece != []
    ensures kp == "" ==> piece[0] == core[0]
    ensures vq == "" ==> piece[|piece| - 1] == core[|core| - 1]
  {
    NotInBlank(kp, '&');
    NotInBlank(vq, '&');
    NotInBlank(kp, '>');
    NotInBlank(vq, '>');
    if kp == "" {
      assert piece == core + vq;
    }
    if vq == "" {
      assert piece == kp + core;
    }
  }

  /** The OR-list clause `host = 2.2.2.2,b,3.3.3.3`, with padding around it. */
  lemma ListPiece(piece: string, kp: string, core: string, vq: string, h: string, a: string, b: string, c: string)
    requires h == "host" && a == "2.2.2.2" && (b == "1.1.1.1" || b == "1.1.1.*") && c == "3.3.3.3"
    requires core == "host = 2.2.2.2," + b + ",3.3.3.3"
    requires Blank(kp) && Blank(vq) && piece == kp + core + vq
    ensures ParsePart(piece) == Success(Part(h, Include, [a] + [b] + [c]))
    ensures '&' !in piece && '>' !in piece && piece != []
    ensures kp == "" ==> piece[0] == 'h'
    ensures vq == "" ==> piece[|piece| - 1] == '3'
  {
    ListText(core, h, a, b, c);
    PadChars(piece, kp, core, vq);
    ListPad(piece, kp, core, vq, h, a, b, c);
    Hosts(a, b, c);
    HostList(piece, kp, vq, h, a, b, c);
  }

  lemma ListPad(piece: string, kp: string, core: string, vq: string, h: string, a: string, b: string, c: string)
    requires core == "" + h + " = " + a + "," + b + "," + c + ""
    requires piece == kp + core + vq
    ensures piece == kp + h + " = " + a + "," + b + "," + c + vq
  {
  }

  /** The three addresses of the test's OR-list, the middle one given. */
  lemma Hosts(a: string, b: string, c: string)
    requires a == "2.2.2.2" && (b == "1.1.1.1" || b == "1.1.1.*") && c == "3.3.3.3"
    ensures ',' !in a && Unpadded(a) && ',' !in b && Unpadded(b) && ',' !in c && Unpadded(c)
  {
  }

  /** The Then side every rule here shares, ` host = 1.2.3.4`. */
  lemma Then1234(t: string, h: string, v: string)
    requires t == " host = 1.2.3.4" && h == "host" && v == "1.2.3.4"
    ensures ParseThen(Trim(t)) == Success(Clauses([Single(Part(h, Include, [v]))]))
  {
    var sp, core, empty := " ", "host = 1.2.3.4", "";
    Then1234Text(t, core, h, v, sp);
    HostPart(core, empty, sp, Include, sp, v, empty, h);
    SideOne(t, sp, core, Part(h, Include, [v]), empty);
  }

  lemma ListPieces(core: string, h: string, a: string, b: string, c: string)
    requires h == "host" && a == "2.2.2.2" && c == "3.3.3.3"
    requires core == "host = 2.2.2.2," + b + ",3.3.3.3"
    ensures core == "" + h + " = " + a + "," + b + "," + c + ""
  {
    assert "host = 2.2.2.2," == "" + h + " = " + a + ",";
    assert ",3.3.3.3" == "," + c + "";
  }

  lemma ListChars(b: string)
    requires b == "1.1.1.1" || b == "1.1.1.*"
    ensures '&' !in "host = 2.2.2.2," + b + ",3.3.3.3"
    ensures '>' !in "host = 2.2.2.2," + b + ",3.3.3.3"
    ensures Unpadded("host = 2.2.2.2," + b + ",3.3.3.3")
    ensures ("host = 2.2.2.2," + b + ",3.3.3.3")[0] == 'h'
    ensures ("host = 2.2.2.2," + b + ",3.3.3.3")[|"host = 2.2.2.2," + b + ",3.3.3.3"| - 1] == '3'
  {
    var s := "host = 2.2.2.2," + b + ",3.3.3.3";
    assert s[0] == 'h' && s[|s| - 1] == '3';
  }

  // ---- Evaluating the When sides on host 1.1.1.1 ----

  /** Both 1.1.1.1 and 1.1.1.* match host 1.1.1.1. */
  lemma StarHost(b: string, host: string)
    requires (b == "1.1.1.1" || b == "1.1.1.*") && host == "1.1.1.1"
    ensures PatternMatches(b, host, None)
  {
    if b == "1.1.1.1" {
      WildcardLiteral(b, host);
    } else {
      var pre, mid, suf := "1.1.1.", "1", "";
      assert b == pre + "*" + suf && host == pre + mid + suf;
      WildcardSound(pre, mid, suf);
    }
  }

  /** None of 4.4.4.4, 4.4.4.* and 1.1.1.2 matches host 1.1.1.1. */
  lemma OtherHost(e: string, host: string)
    requires (e == "4.4.4.4" || e == "4.4.4.*" || e == "1.1.1.2") && host == "1.1.1.1"
    ensures !PatternMatches(e, host, None)
  {
    if e == "4.4.4.*" {
      var pre, suf := "4.4.4.", "";
      assert e == pre + "*" + suf;
      WildcardSplit(pre, suf, host);
      assert host[..|pre|] != pre by { assert host[0] != pre[0]; }
    } else {
      WildcardLiteral(e, host);
    }
  }

  /** host 1.1.1.1 satisfies the OR-list 2.2.2.2,b,3.3.3.3 when b is
      1.1.1.1 or 1.1.1.*, and no exclusion e that misses it spoils that. */
  lemma ListExceptHolds(consumer: Url, m: string, h: string, a: string, b: string, c: string, es: seq<string>)
    requires consumer.host == "1.1.1.1" && h == "host"
    requires a == "2.2.2.2" && (b == "1.1.1.1" || b == "1.1.1.*") && c == "3.3.3.3"
    requires es == [] || (|es| == 1 && (es[0] == "4.4.4.4" || es[0] == "4.4.4.*" || es[0] == "1.1.1.2"))
    ensures ClauseHolds(Clause(h, [a] + [b] + [c], es), consumer, Some(m), None)
  {
    assert Resolve(h, consumer, Some(m)) == consumer.host;
    AnyMatchThree(a, b, c, consumer.host, None);
    StarHost(b, consumer.host);
    if es != [] {
      assert es == [es[0]];
      AnyMatchOne(es[0], consumer.host, None);
      OtherHost(es[0], consumer.host);
    }
  }

  /** host 1.1.1.1 satisfies `host = 2.2.2.2,1.1.1.1,3.3.3.3`. */
  lemma ListHolds(consumer: Url, m: string, h: string, a: string, b: string, c: string)
    requires consumer.host == "1.1.1.1" && h == "host"
    requires a == "2.2.2.2" && b == "1.1.1.1" && c == "3.3.3.3"
    ensures Holds(Clauses([Single(Part(h, Include, [a] + [b] + [c]))]), consumer, Some(m), None)
  {
    var cl := Single(Part(h, Include, [a] + [b] + [c]));
    var none: seq<string> := [];
    assert cl == Clause(h, [a] + [b] + [c], none);
    ListExceptHolds(consumer, m, h, a, b, c, none);
    HoldsOne(cl, consumer, Some(m), None);
  }

  /** An exclusion that misses the host leaves the wildcard OR-list holding. */
  lemma WildcardListHolds(consumer: Url, m: string, h: string, a: string, b: string, c: string, d: string)
    requires consumer.host == "1.1.1.1" && h == "host"
    requires a == "2.2.2.2" && b == "1.1.1.*" && c == "3.3.3.3" && d == "1.1.1.2"
    ensures Holds(Clauses(Collect([Part(h, Include, [a] + [b] + [c])] + [Part(h, Exclude, [d])])), consumer, Some(m), None)
  {
    var p, q := Part(h, Include, [a] + [b] + [c]), Part(h, Exclude, [d]);
    CollectTwo(p, q);
    var cl := Merge(Single(p), q);
    assert cl == Clause(h, [a] + [b] + [c], [d]);
    ListExceptHolds(consumer, m, h, a, b, c, [d]);
    HoldsOne(cl, consumer, Some(m), None);
  }

  /** A rule whose When side excludes host d does not hold for host d. */
  lemma ExcludedWhen(rule: string, consumer: Url, m: string, h: string, a: string, b: string, c: string, d: string, v: string)
    requires consumer.host == "1.1.1.1" && d == "1.1.1.1" && h == "host"
    requires ParseRule(rule) == Success(Rule(Clauses(Collect([Part(h, Include, [a] + [b] + [c])] + [Part(h, Exclude, [d])])),
                                             Clauses([Single(Part(h, Include, [v]))])))
    ensures ParseRule(rule).Success? && !Holds(ParseRule(rule).value.whenSide, consumer, Some(m), None)
  {
    NoStar(d);
    ExcludedHolds(consumer, m, h, a, b, c, d);
  }

  /** A clause whose exclusions include the host d fails for host d. */
  lemma ExcludedHolds(consumer: Url, m: string, h: string, a: string, b: string, c: string, d: string)
    requires consumer.host == d && d != "" && '*' !in d && h == "host"
    ensures !Holds(Clauses(Collect([Part(h, Include, [a] + [b] + [c])] + [Part(h, Exclude, [d])])), consumer, Some(m), None)
  {
    var p, q := Part(h, Include, [a] + [b] + [c]), Part(h, Exclude, [d]);
    CollectTwo(p, q);
    var cl := Merge(Single(p), q);
    assert cl.mismatches == [d];
    assert Resolve(h, consumer, Some(m)) == consumer.host;
    WildcardLiteral(d, consumer.host);
    ExclusionWins(cl, consumer, Some(m), None, 0);
    HoldsOne(cl, consumer, Some(m), None);
  }

  // ---- TestRouteMatchWhen (factory_test.go:121-152) ----

  lemma BlankWhenParse(rule: string, arrow: string, t: string, h: string, v: string)
    requires arrow == "=>" && t == " host = 1.2.3.4" && rule == arrow + t && h == "host" && v == "1.2.3.4"
    ensures ParseRule(rule) == Success(Rule(TrueLiteral, Clauses([Single(Part(h, Include, [v]))])))
  {
    var w := "";
    assert rule == w + "=>" + t;
    BlankSide(w);
    Then1234(t, h, v);
    RuleText(rule, w, t, TrueLiteral, Clauses([Single(Part(h, Include, [v]))]));
  }

  /** `=> host = 1.2.3.4`: a blank When side selects every call
      (factory_test.go:123-127). */
  lemma BlankWhenMatches(rule: string, consumer: Url, m: string)
    requires rule == "=>" + " host = 1.2.3.4"
    ensures NewPriorityRouter(ConditionRouterFactory, RouteUrl(rule)).Success?
    ensures MatchWhen(NewPriorityRouter(ConditionRouterFactory, RouteUrl(rule)).value, consumer, Invocation(m))
  {
    var arrow, t, h, v := "=>", " host = 1.2.3.4", "host", "1.2.3.4";
    BlankWhenParse(rule, arrow, t, h, v);
    Selected(rule, Rule(TrueLiteral, Clauses([Single(Part(h, Include, [v]))])), consumer, Invocation(m));
  }

  lemma Rule1Parse(rule: string, core: string, t: string, h: string, a: string, b: string, c: string, v: string)
    requires core == "host = 2.2.2.2,1.1.1.1,3.3.3.3" && t == " host = 1.2.3.4"
    requires rule == core + " " + "=>" + t
    requires h == "host" && a == "2.2.2.2" && b == "1.1.1.1" && c == "3.3.3.3" && v == "1.2.3.4"
    ensures ParseRule(rule) == Success(Rule(Clauses([Single(Part(h, Include, [a] + [b] + [c]))]), Clauses([Single(Part(h, Include, [v]))])))
  {
    var empty := "";
    ListText(core, h, a, b, c);
    Hosts(a, b, c);
    HostList(core, empty, empty, h, a, b, c);
    Then1234(t, h, v);
    OneClauseRule(rule, core, t, Part(h, Include, [a] + [b] + [c]), Clauses([Single(Part(h, Include, [v]))]));
  }

  /** `host = 2.2.2.2,1.1.1.1,3.3.3.3 => ...`: the host is one of the OR-list,
      so the call is selected (factory_test.go:128-131). */
  lemma OrListMatches(rule: string, consumer: Url, m: string)
    requires rule == "host = 2.2.2.2,1.1.1.1,3.3.3.3" + " " + "=>" + " host = 1.2.3.4"
    requires consumer.host == "1.1.1.1"
    ensures NewPriorityRouter(ConditionRouterFactory, RouteUrl(rule)).Success?
    ensures MatchWhen(NewPriorityRouter(ConditionRouterFactory, RouteUrl(rule)).value, consumer, Invocation(m))
  {
    var core, t := "host = 2.2.2.2,1.1.1.1,3.3.3.3", " host = 1.2.3.4";
    var h, a, b, c, v := "host", "2.2.2.2", "1.1.1.1", "3.3.3.3", "1.2.3.4";
    Rule1Parse(rule, core, t, h, a, b, c, v);
    var cl := Single(Part(h, Include, [a] + [b] + [c]));
    ListHolds(consumer, m, h, a, b, c);
    Selected(rule, Rule(Clauses([cl]), Clauses([Single(Part(h, Include, [v]))])), consumer, Invocation(m));
  }

  lemma ListFirstParse(rule: string, c1: string, c2: string, t: string, sep: string, h: string, a: string, b: string, c: string, d: string, v: string)
    requires h == "host" && a == "2.2.2.2" && (b == "1.1.1.1" || b == "1.1.1.*") && c == "3.3.3.3" && v == "1.2.3.4"
    requires d == "1.1.1.1" || d == "1.1.1.2"
    requires sep == " !=" || sep == " != "
    requires c1 == "host = 2.2.2.2," + b + ",3.3.3.3 " && c2 == " host" + sep + d && t == " host = 1.2.3.4"
    requires rule == c1 + "&" + c2 + " " + "=>" + t
    ensures ParseRule(rule) == Success(Rule(Clauses(Collect([Part(h, Include, [a] + [b] + [c])] + [Part(h, Exclude, [d])])),
                                            Clauses([Single(Part(h, Include, [v]))])))
  {
    var sp, empty := " ", "";
    var core := "host = 2.2.2.2," + b + ",3.3.3.3";
    var vp := if sep == " !=" then "" else " ";
    ListFirstText(core, c1, c2, sep, sp, h, b, d, Exclude, vp);
    ListPiece(c1, empty, core, sp, h, a, b, c);
    Address(d);
    OnePiece(c2, sp, h, sp, Exclude, vp, d, empty);
    Then1234(t, h, v);
    TwoClauseRule(rule, c1, c2, t, Part(h, Include, [a] + [b] + [c]), Part(h, Exclude, [d]), Clauses([Single(Part(h, Include, [v]))]));
  }

  /** `host = 2.2.2.2,1.1.1.1,3.3.3.3 & host !=1.1.1.1 => ...`: an exclusion
      of the consumer's host wins over its inclusion in the OR-list, so the
      call is not selected (factory_test.go:132-135). */
  lemma ExcludedHostDoesNotMatch(rule: string, consumer: Url, m: string)
    requires rule == "host = 2.2.2.2,1.1.1.1,3.3.3.3 " + "&" + " host !=1.1.1.1" + " " + "=>" + " host = 1.2.3.4"
    requires consumer.host == "1.1.1.1"
    ensures NewPriorityRouter(ConditionRouterFactory, RouteUrl(rule)).Success?
    ensures !MatchWhen(NewPriorityRouter(ConditionRouterFactory, RouteUrl(rule)).value, consumer, Invocation(m))
  {
    ExcludedHostWhen(rule, consumer, m);
    NotSelected(rule, ParseRule(rule).value, consumer, Invocation(m));
  }

  /** The rule parses, and its When side fails for host 1.1.1.1. */
  lemma ExcludedHostWhen(rule: string, consumer: Url, m: string)
    requires rule == "host = 2.2.2.2,1.1.1.1,3.3.3.3 " + "&" + " host !=1.1.1.1" + " " + "=>" + " host = 1.2.3.4"
    requires consumer.host == "1.1.1.1"
    ensures ParseRule(rule).Success? && !Holds(ParseRule(rule).value.whenSide, consumer, Some(m), None)
  {
    var h, a, b, c, d, v := "host", "2.2.2.2", "1.1.1.1", "3.3.3.3", "1.1.1.1", "1.2.3.4";
    ExcludedHostParse(rule, h, a, b, c, d, v);
    ExcludedWhen(rule, consumer, m, h, a, b, c, d, v);
  }

  lemma ExcludedHostParse(rule: string, h: string, a: string, b: string, c: string, d: string, v: string)
    requires rule == "host = 2.2.2.2,1.1.1.1,3.3.3.3 " + "&" + " host !=1.1.1.1" + " " + "=>" + " host = 1.2.3.4"
    requires h == "host" && a == "2.2.2.2" && b == "1.1.1.1" && c == "3.3.3.3" && d == "1.1.1.1" && v == "1.2.3.4"
    ensures ParseRule(rule) == Success(Rule(Clauses(Collect([Part(h, Include, [a] + [b] + [c])] + [Part(h, Exclude, [d])])),
                                            Clauses([Single(Part(h, Include, [v]))])))
  {
    var t, sep := " host = 1.2.3.4", " !=";
    var c1, c2 := "host = 2.2.2.2," + b + ",3.3.3.3 ", " host" + sep + d;
    ExcludedHostText(rule, c1, c2, t, sep, b, d);
    ListFirstParse(rule, c1, c2, t, sep, h, a, b, c, d, v);
  }

  lemma PaddedCore(core: string, c2: string, sp: string)
    requires sp == " " && core == "host = 2.2.2.2," + "1.1.1.1" + ",3.3.3.3" && c2 == " host = 2.2.2.2,1.1.1.1,3.3.3.3"
    ensures c2 == sp + core + ""
  {
  }

  lemma ListSecondParse(rule: string, c1: string, c2: string, t: string, h: string, e: string, a: string, b: string, c: string, v: string)
    requires h == "host" && a == "2.2.2.2" && b == "1.1.1.1" && c == "3.3.3.3" && v == "1.2.3.4"
    requires e == "4.4.4.4" || e == "4.4.4.*"
    requires c1 == "host !=" + e + " " && c2 == " host = 2.2.2.2,1.1.1.1,3.3.3.3" && t == " host = 1.2.3.4"
    requires rule == c1 + "&" + c2 + " " + "=>" + t
    ensures ParseRule(rule) == Success(Rule(Clauses(Collect([Part(h, Exclude, [e])] + [Part(h, Include, [a] + [b] + [c])])),
                                            Clauses([Single(Part(h, Include, [v]))])))
  {
    var sp, empty := " ", "";
    var core := "host = 2.2.2.2," + b + ",3.3.3.3";
    ListSecondText(core, c1, c2, sp, h, e);
    Address(e);
    OnePiece(c1, empty, h, sp, Exclude, empty, e, sp);
    ListPiece(c2, sp, core, empty, h, a, b, c);
    Then1234(t, h, v);
    TwoClauseRule(rule, c1, c2, t, Part(h, Exclude, [e]), Part(h, Include, [a] + [b] + [c]), Clauses([Single(Part(h, Include, [v]))]));
  }

  /** The exclusion comes first and misses the host; the OR-list holds. */
  lemma ListSecondHolds(consumer: Url, m: string, h: string, e: string, a: string, b: string, c: string)
    requires consumer.host == "1.1.1.1" && h == "host" && (e == "4.4.4.4" || e == "4.4.4.*")
    requires a == "2.2.2.2" && b == "1.1.1.1" && c == "3.3.3.3"
    ensures Holds(Clauses(Collect([Part(h, Exclude, [e])] + [Part(h, Include, [a] + [b] + [c])])), consumer, Some(m), None)
  {
    var p, q := Part(h, Exclude, [e]), Part(h, Include, [a] + [b] + [c]);
    CollectTwo(p, q);
    var cl := Merge(Single(p), q);
    assert cl == Clause(h, [a] + [b] + [c], [e]);
    ListExceptHolds(consumer, m, h, a, b, c, [e]);
    HoldsOne(cl, consumer, Some(m), None);
  }

  /** `host !=4.4.4.4 & host = 2.2.2.2,1.1.1.1,3.3.3.3 => ...`: the exclusion
      misses, so the call is selected (factory_test.go:136-139). */
  lemma OtherHostExcludedMatches(rule: string, consumer: Url, m: string)
    requires rule == "host !=4.4.4.4 " + "&" + " host = 2.2.2.2,1.1.1.1,3.3.3.3" + " " + "=>" + " host = 1.2.3.4"
    requires consumer.host == "1.1.1.1"
    ensures NewPriorityRouter(ConditionRouterFactory, RouteUrl(rule)).Success?
    ensures MatchWhen(NewPriorityRouter(ConditionRouterFactory, RouteUrl(rule)).value, consumer, Invocation(m))
  {
    var h, e, a, b, c, v := "host", "4.4.4.4", "2.2.2.2", "1.1.1.1", "3.3.3.3", "1.2.3.4";
    var c1, c2, t := "host !=4.4.4.4 ", " host = 2.2.2.2,1.1.1.1,3.3.3.3", " host = 1.2.3.4";
    ListSecondParse(rule, c1, c2, t, h, e, a, b, c, v);
    ListSecondHolds(consumer, m, h, e, a, b, c);
    var p, q := Part(h, Exclude, [e]), Part(h, Include, [a] + [b] + [c]);
    Selected(rule, Rule(Clauses(Collect([p] + [q])), Clauses([Single(Part(h, Include, [v]))])), consumer, Invocation(m));
  }

  /** `host !=4.4.4.* & host = 2.2.2.2,1.1.1.1,3.3.3.3 => ...`: the wildcard
      exclusion misses 1.1.1.1, so the call is selected, whatever method is
      invoked (factory_test.go:140-143 and, for `getFoo`, 189-199). */
  lemma WildcardExcludedMatches(rule: string, consumer: Url, m: string)
    requires rule == "host !=4.4.4.* " + "&" + " host = 2.2.2.2,1.1.1.1,3.3.3.3" + " " + "=>" + " host = 1.2.3.4"
    requires consumer.host == "1.1.1.1"
    ensures NewPriorityRouter(ConditionRouterFactory, RouteUrl(rule)).Success?
    ensures MatchWhen(NewPriorityRouter(ConditionRouterFactory, RouteUrl(rule)).value, consumer, Invocation(m))
  {
    var h, e, a, b, c, v := "host", "4.4.4.*", "2.2.2.2", "1.1.1.1", "3.3.3.3", "1.2.3.4";
    var c1, c2, t := "host !=4.4.4.* ", " host = 2.2.2.2,1.1.1.1,3.3.3.3", " host = 1.2.3.4";
    ListSecondParse(rule, c1, c2, t, h, e, a, b, c, v);
    ListSecondHolds(consumer, m, h, e, a, b, c);
    var p, q := Part(h, Exclude, [e]), Part(h, Include, [a] + [b] + [c]);
    Selected(rule, Rule(Clauses(Collect([p] + [q])), Clauses([Single(Part(h, Include, [v]))])), consumer, Invocation(m));
  }

  /** `host = 2.2.2.2,1.1.1.*,3.3.3.3 & host != 1.1.1.1 => ...`: the exclusion
      wins over the wildcard inclusion (factory_test.go:144-147). */
  lemma ExcludedOverWildcard(rule: string, consumer: Url, m: string)
    requires rule == "host = 2.2.2.2,1.1.1.*,3.3.3.3 " + "&" + " host != 1.1.1.1" + " " + "=>" + " host = 1.2.3.4"
    requires consumer.host == "1.1.1.1"
    ensures NewPriorityRouter(ConditionRouterFactory, RouteUrl(rule)).Success?
    ensures !MatchWhen(NewPriorityRouter(ConditionRouterFactory, RouteUrl(rule)).value, consumer, Invocation(m))
  {
    OverWildcardWhen(rule, consumer, m);
    NotSelected(rule, ParseRule(rule).value, consumer, Invocation(m));
  }

  /** The rule parses, and its When side fails for host 1.1.1.1. */
  lemma OverWildcardWhen(rule: string, consumer: Url, m: string)
    requires rule == "host = 2.2.2.2,1.1.1.*,3.3.3.3 " + "&" + " host != 1.1.1.1" + " " + "=>" + " host = 1.2.3.4"
    requires consumer.host == "1.1.1.1"
    ensures ParseRule(rule).Success? && !Holds(ParseRule(rule).value.whenSide, consumer, Some(m), None)
  {
    var h, a, b, c, d, v := "host", "2.2.2.2", "1.1.1.*", "3.3.3.3", "1.1.1.1", "1.2.3.4";
    OverWildcardParse(rule, h, a, b, c, d, v);
    ExcludedWhen(rule, consumer, m, h, a, b, c, d, v);
  }

  lemma OverWildcardParse(rule: string, h: string, a: string, b: string, c: string, d: string, v: string)
    requires rule == "host = 2.2.2.2,1.1.1.*,3.3.3.3 " + "&" + " host != 1.1.1.1" + " " + "=>" + " host = 1.2.3.4"
    requires h == "host" && a == "2.2.2.2" && b == "1.1.1.*" && c == "3.3.3.3" && d == "1.1.1.1" && v == "1.2.3.4"
    ensures ParseRule(rule) == Success(Rule(Clauses(Collect([Part(h, Include, [a] + [b] + [c])] + [Part(h, Exclude, [d])])),
                                            Clauses([Single(Part(h, Include, [v]))])))
  {
    var t, sep := " host = 1.2.3.4", " != ";
    var c1, c2 := "host = 2.2.2.2," + b + ",3.3.3.3 ", " host" + sep + d;
    OverWildcardText(rule, c1, c2, t, sep, b, d);
    ListFirstParse(rule, c1, c2, t, sep, h, a, b, c, d, v);
  }

  /** `host = 2.2.2.2,1.1.1.*,3.3.3.3 & host != 1.1.1.2 => ...`: 1.1.1.* takes
      in 1.1.1.1 and the exclusion misses it (factory_test.go:148-151). */
  lemma WildcardIncludedMatches(rule: string, consumer: Url, m: string)
    requires rule == "host = 2.2.2.2,1.1.1.*,3.3.3.3 " + "&" + " host != 1.1.1.2" + " " + "=>" + " host = 1.2.3.4"
    requires consumer.host == "1.1.1.1"
    ensures NewPriorityRouter(ConditionRouterFactory, RouteUrl(rule)).Success?
    ensures MatchWhen(NewPriorityRouter(ConditionRouterFactory, RouteUrl(rule)).value, consumer, Invocation(m))
  {
    var h, a, b, c, d, v := "host", "2.2.2.2", "1.1.1.*", "3.3.3.3", "1.1.1.2", "1.2.3.4";
    var c1, c2, t, sep := "host = 2.2.2.2,1.1.1.*,3.3.3.3 ", " host != 1.1.1.2", " host = 1.2.3.4", " != ";
    ListFirstParse(rule, c1, c2, t, sep, h, a, b, c, d, v);
    WildcardListHolds(consumer, m, h, a, b, c, d);
    var p, q := Part(h, Include, [a] + [b] + [c]), Part(h, Exclude, [d]);
    Selected(rule, Rule(Clauses(Collect([p] + [q])), Clauses([Single(Part(h, Include, [v]))])), consumer, Invocation(m));
  }

  // ---- TestRouteMethodRoute (factory_test.go:189-210) ----

  lemma MethodParse(rule: string, c1: string, c2: string, t: string, sep: string, op: Op, k: string, g: string, h: string, d: string, v: string)
    requires k == "methods" && g == "getFoo" && h == "host" && d == "1.1.1.1" && v == "1.2.3.4"
    requires (sep == "!=" && op == Exclude) || (sep == "=" && op == Include)
    requires c1 == "methods=getFoo " && c2 == " host" + sep + d && t == " host = 1.2.3.4"
    requires rule == c1 + "&" + c2 + " " + "=>" + t
    ensures ParseRule(rule) == Success(Rule(Clauses(Collect([Part(k, Include, [g])] + [Part(h, op, [d])])),
                                            Clauses([Single(Part(h, Include, [v]))])))
  {
    var sp, empty := " ", "";
    MethodText(c1, c2, sep, sp, k, g, h, d, op);
    Address(g);
    Address(d);
    OnePiece(c1, empty, k, empty, Include, empty, g, sp);
    OnePiece(c2, sp, h, empty, op, empty, d, empty);
    Then1234(t, h, v);
    TwoClauseRule(rule, c1, c2, t, Part(k, Include, [g]), Part(h, op, [d]), Clauses([Single(Part(h, Include, [v]))]));
  }

  /** `methods=getFoo & host OP 1.1.1.1` for a call of getFoo from host
      1.1.1.1 holds exactly when OP is `=`. */
  lemma MethodHolds(consumer: Url, k: string, g: string, h: string, d: string, op: Op)
    requires consumer.host == "1.1.1.1" && k == "methods" && g == "getFoo" && h == "host" && d == "1.1.1.1"
    ensures Holds(Clauses(Collect([Part(k, Include, [g])] + [Part(h, op, [d])])), consumer, Some(g), None) <==> op == Include
  {
    var p, q := Part(k, Include, [g]), Part(h, op, [d]);
    CollectTwo(p, q);
    assert p.key != q.key;
    HoldsTwo(Single(p), Single(q), consumer, Some(g), None);
    MethodClause(consumer, k, g);
    NoStar(d);
    HostClause(consumer, h, g, d, op);
  }

  /** `methods=getFoo` holds for a call of getFoo. */
  lemma MethodClause(consumer: Url, k: string, g: string)
    requires k == "methods" && g == "getFoo"
    ensures ClauseHolds(Single(Part(k, Include, [g])), consumer, Some(g), None)
  {
    var cl := Single(Part(k, Include, [g]));
    assert cl.key == k && cl.matches == [g] && cl.mismatches == [];
    ResolveMethod(k, consumer, g);
    AnyMatchOne(g, g, None);
    NoStar(g);
    WildcardLiteral(g, g);
  }

  lemma NoStar(g: string)
    requires g == "getFoo" || g == "1.1.1.1"
    ensures '*' !in g
  {
  }

  /** `host OP d` holds for host d exactly when OP is `=`. */
  lemma HostClause(consumer: Url, h: string, g: string, d: string, op: Op)
    requires consumer.host == d && h == "host" && d != "" && '*' !in d
    ensures ClauseHolds(Single(Part(h, op, [d])), consumer, Some(g), None) <==> op == Include
  {
    var cl := Single(Part(h, op, [d]));
    if op == Include {
      assert cl.matches == [d] && cl.mismatches == [];
    } else {
      assert cl.matches == [] && cl.mismatches == [d];
    }
    assert Resolve(h, consumer, Some(g)) == d;
    AnyMatchOne(d, d, None);
    WildcardLiteral(d, d);
  }

  /** `methods=getFoo & host!=1.1.1.1 => ...` does not select a call of
      getFoo from 1.1.1.1 (factory_test.go:200-204). */
  lemma MethodExcludedHost(rule: string, consumer: Url)
    requires rule == "methods=getFoo " + "&" + " host!=1.1.1.1" + " " + "=>" + " host = 1.2.3.4"
    requires consumer.host == "1.1.1.1"
    ensures NewPriorityRouter(ConditionRouterFactory, RouteUrl(rule)).Success?
    ensures !MatchWhen(NewPriorityRouter(ConditionRouterFactory, RouteUrl(rule)).value, consumer, Invocation("getFoo"))
  {
    var k, g, h, d, v := "methods", "getFoo", "host", "1.1.1.1", "1.2.3.4";
    var c1, c2, t, sep := "methods=getFoo ", " host!=1.1.1.1", " host = 1.2.3.4", "!=";
    MethodParse(rule, c1, c2, t, sep, Exclude, k, g, h, d, v);
    MethodHolds(consumer, k, g, h, d, Exclude);
    var p, q := Part(k, Include, [g]), Part(h, Exclude, [d]);
    NotSelected(rule, Rule(Clauses(Collect([p] + [q])), Clauses([Single(Part(h, Include, [v]))])), consumer, Invocation(g));
  }

  /** `methods=getFoo & host=1.1.1.1 => ...` selects a call of getFoo from
      1.1.1.1 (factory_test.go:205-208). */
  lemma MethodIncludedHost(rule: string, consumer: Url)
    requires rule == "methods=getFoo " + "&" + " host=1.1.1.1" + " " + "=>" + " host = 1.2.3.4"
    requires consumer.host == "1.1.1.1"
    ensures NewPriorityRouter(ConditionRouterFactory, RouteUrl(rule)).Success?
    ensures MatchWhen(NewPriorityRouter(ConditionRouterFactory, RouteUrl(rule)).value, consumer, Invocation("getFoo"))
  {
    var k, g, h, d, v := "methods", "getFoo", "host", "1.1.1.1", "1.2.3.4";
    var c1, c2, t, sep := "methods=getFoo ", " host=1.1.1.1", " host = 1.2.3.4", "=";
    MethodParse(rule, c1, c2, t, sep, Include, k, g, h, d, v);
    MethodHolds(consumer, k, g, h, d, Include);
    var p, q := Part(k, Include, [g]), Part(h, Include, [d]);
    Selected(rule, Rule(Clauses(Collect([p] + [q])), Clauses([Single(Part(h, Include, [v]))])), consumer, Invocation(g));
  }

  // ---- String identities ----

  // Proof scaffolding: each lemma below only regroups the literal rule text
  // of a scenario into the pieces the parsing lemmas take. They are kept apart
  // from the parsing so that no proof has to reason about both at once.

  lemma OneClauseText(rule: string, w: string, core: string, t: string, pad: string, rest: string)
    requires '>' !in core && w == core + " " && rule == core + " " + "=>" + t && pad == "" && rest == " "
    ensures w == pad + core + rest && rule == w + "=>" + t && '>' !in w
  {
  }

  lemma TwoClauseText(rule: string, w: string, c1: string, c2: string, t: string)
    requires '>' !in c1 && '>' !in c2 && w == c1 + "&" + c2 + " " && rule == c1 + "&" + c2 + " " + "=>" + t
    ensures w == "" + c1 + "&" + c2 + " " && rule == w + "=>" + t && '>' !in w
  {
  }

  lemma Then1234Text(t: string, core: string, h: string, v: string, sp: string)
    requires t == " host = 1.2.3.4" && core == "host = 1.2.3.4" && h == "host" && v == "1.2.3.4" && sp == " "
    ensures t == sp + core + "" && core == "" + h + sp + OpText(Include) + sp + v + ""
    ensures '&' !in core && Unpadded(core) && Blank(sp) && Blank("") && ',' !in v && Unpadded(v)
  {
  }

  /** The OR-list `host = 2.2.2.2,b,3.3.3.3`, without padding. */
  lemma ListText(core: string, h: string, a: string, b: string, c: string)
    requires h == "host" && a == "2.2.2.2" && (b == "1.1.1.1" || b == "1.1.1.*") && c == "3.3.3.3"
    requires core == "host = 2.2.2.2," + b + ",3.3.3.3"
    ensures core == "" + h + " = " + a + "," + b + "," + c + ""
    ensures '&' !in core && '>' !in core && Unpadded(core)
    ensures core != [] && core[0] == 'h' && core[|core| - 1] == '3'
  {
    ListPieces(core, h, a, b, c);
    ListChars(b);
  }

  /** The pieces of `host = 2.2.2.2,b,3.3.3.3 & host SEP d`, the list first. */
  lemma ListFirstText(core: string, c1: string, c2: string, sep: string, sp: string, h: string, b: string, d: string, op: Op, vp: string)
    requires (b == "1.1.1.1" || b == "1.1.1.*") && sp == " " && h == "host"
    requires core == "host = 2.2.2.2," + b + ",3.3.3.3" && c1 == core + " "
    requires (sep == " !=" && op == Exclude && vp == "") || (sep == " != " && op == Exclude && vp == " ")
    requires c2 == " host" + sep + d
    ensures c1 == "" + core + sp && c2 == sp + h + sp + OpText(op) + vp + d + ""
    ensures Blank(sp) && Blank("") && Blank(vp)
  {
  }

  lemma ExcludedHostText(rule: string, c1: string, c2: string, t: string, sep: string, b: string, d: string)
    requires rule == "host = 2.2.2.2,1.1.1.1,3.3.3.3 " + "&" + " host !=1.1.1.1" + " " + "=>" + " host = 1.2.3.4"
    requires t == " host = 1.2.3.4" && sep == " !=" && b == "1.1.1.1" && d == "1.1.1.1"
    requires c1 == "host = 2.2.2.2," + b + ",3.3.3.3 " && c2 == " host" + sep + d
    ensures rule == c1 + "&" + c2 + " " + "=>" + t
  {
  }

  /** The pieces of `host !=e & host = 2.2.2.2,1.1.1.1,3.3.3.3`, the exclusion first. */
  lemma ListSecondText(core: string, c1: string, c2: string, sp: string, h: string, e: string)
    requires sp == " " && h == "host" && (e == "4.4.4.4" || e == "4.4.4.*")
    requires core == "host = 2.2.2.2," + "1.1.1.1" + ",3.3.3.3" && c2 == " host = 2.2.2.2,1.1.1.1,3.3.3.3"
    requires c1 == "host !=" + e + " "
    ensures c1 == "" + h + sp + OpText(Exclude) + "" + e + sp && c2 == sp + core + ""
    ensures Blank(sp) && Blank("")
  {
    ExclusionText(c1, sp, h, e);
    PaddedCore(core, c2, sp);
  }

  lemma ExclusionText(c1: string, sp: string, h: string, e: string)
    requires sp == " " && h == "host" && c1 == "host !=" + e + " "
    ensures c1 == "" + h + sp + OpText(Exclude) + "" + e + sp
  {
    assert "host !=" == h + sp + OpText(Exclude);
  }

  lemma OverWildcardText(rule: string, c1: string, c2: string, t: string, sep: string, b: string, d: string)
    requires rule == "host = 2.2.2.2,1.1.1.*,3.3.3.3 " + "&" + " host != 1.1.1.1" + " " + "=>" + " host = 1.2.3.4"
    requires t == " host = 1.2.3.4" && sep == " != " && b == "1.1.1.*" && d == "1.1.1.1"
    requires c1 == "host = 2.2.2.2," + b + ",3.3.3.3 " && c2 == " host" + sep + d
    ensures rule == c1 + "&" + c2 + " " + "=>" + t
  {
  }

  /** The pieces of `methods=getFoo & host OP 1.1.1.1`. */
  lemma MethodText(c1: string, c2: string, sep: string, sp: string, k: string, g: string, h: string, d: string, op: Op)
    requires sp == " " && k == "methods" && g == "getFoo" && h == "host" && d == "1.1.1.1"
    requires (sep == "!=" && op == Exclude) || (sep == "=" && op == Include)
    requires c1 == "methods=getFoo " && c2 == " host" + sep + d
    ensures c1 == "" + k + "" + OpText(Include) + "" + g + sp && c2 == sp + h + "" + OpText(op) + "" + d + ""
    ensures Blank(sp) && Blank("")
  {
  }
}

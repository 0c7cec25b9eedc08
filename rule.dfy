/**
  The rule parser. A rule `when => then` is cut at the first "=>"; each side
  is cut on '&' into parts `key = v1,v2,...` (values the key must match, any
  of them) or `key != v1,v2,...` (values it must not match). Parts with the
  same key are gathered into one clause. A blank or `true` When side is the
  true literal; on the Then side a blank text is EmptyThen and `false`
  (in any letter case) is the false literal.
 */
module Rules {
  import opened Wrappers
  import opened Text

  /** `=` or `!=`. */
  datatype Op = Include | Exclude

  /** One textual clause: a key, its operator and its comma-separated values. */
  datatype Part = Part(key: string, op: Op, values: seq<string>)

  /** Every value given for one key: it must match one of `matches` (when there
      are any) and none of `mismatches`. */
  datatype Clause = Clause(key: string, matches: seq<string>, mismatches: seq<string>)

  /** A parsed side of a rule: one of the reserved literals or clauses that
      must all hold. */
  datatype Condition = TrueLiteral | FalseLiteral | EmptyThen | Clauses(clauses: seq<Clause>)

  datatype Rule = Rule(whenSide: Condition, thenSide: Condition)

  datatype ParseError = MissingArrow | MissingOperator(text: string) | EmptyKey(text: string)

  function OpText(op: Op): string {
    if op == Include then "=" else "!="
  }

  /** One part: the key is the text before the first '=' (less a '!' right
      before it, which makes the part an exclusion), the values are the
      comma-separated pieces after it, each trimmed. */
  function ParsePart(text: string): (r: Result<Part, ParseError>)
    ensures r == Failure(MissingOperator(text)) <==> '=' !in text
    ensures r.Failure? ==> r.error == MissingOperator(text) || r.error == EmptyKey(text)
    ensures r.Success? ==> r.value.key != [] && Unpadded(r.value.key) && |r.value.values| > 0
    ensures r.Success? ==> forall i | 0 <= i < |r.value.values| :: ',' !in r.value.values[i]
  {
    match IndexOf(text, '=')
    case None => Failure(MissingOperator(text))
    case Some(i) =>
      var exclude := i > 0 && text[i - 1] == '!';
      var key := Trim(if exclude then text[..i - 1] else text[..i]);
      if key == [] then Failure(EmptyKey(text))
      else
        var values := Split(text[i + 1..], ',');
        TrimAllComma(values);
        Success(Part(key, if exclude then Exclude else Include, TrimAll(values)))
  }

  /** Parses every piece; fails with the first piece that fails. */
  function ParsePieces(pieces: seq<string>): (r: Result<seq<Part>, ParseError>)
    ensures r.Success? ==> |r.value| == |pieces|
    ensures r.Failure? ==> !r.error.MissingArrow?
  {
    if pieces == [] then Success([])
    else
      match ParsePart(pieces[0])
      case Failure(e) => Failure(e)
      case Success(first) =>
        match ParsePieces(pieces[1..])
        case Failure(e) => Failure(e)
        case Success(rest) => Success([first] + rest)
  }

  function ParseParts(text: string): Result<seq<Part>, ParseError> {
    ParsePieces(Split(text, '&'))
  }

  // ---- Gathering parts into clauses ----

  function KeysOf(cs: seq<Clause>): set<string> {
    set c | c in cs :: c.key
  }

  predicate DistinctKeys(cs: seq<Clause>) {
    forall i, j | 0 <= i < j < |cs| :: cs[i].key != cs[j].key
  }

  /** The clause for key k, or an empty one when there is none. */
  function Lookup(cs: seq<Clause>, k: string): (c: Clause)
    ensures c.key == k
    ensures k !in KeysOf(cs) ==> c == Clause(k, [], [])
    ensures k in KeysOf(cs) && DistinctKeys(cs) ==> c in cs
  {
    if cs == [] then Clause(k, [], [])
    else if cs[0].key == k then cs[0]
    else
      assert KeysOf(cs) == {cs[0].key} + KeysOf(cs[1..]) by {
        assert cs == [cs[0]] + cs[1..];
      }
      Lookup(cs[1..], k)
  }

  /** The clause c with the values of p added on the side p's operator names. */
  function Merge(c: Clause, p: Part): Clause {
    if p.op == Include then c.(matches := c.matches + p.values)
    else c.(mismatches := c.mismatches + p.values)
  }

  /** Adds part p to the clause of its key, or appends a new clause for it. */
  function Accumulate(cs: seq<Clause>, p: Part): (r: seq<Clause>)
    ensures KeysOf(r) == KeysOf(cs) + {p.key}
  {
    if cs == [] then [Merge(Clause(p.key, [], []), p)]
    else if cs[0].key == p.key then
      assert cs == [cs[0]] + cs[1..];
      [Merge(cs[0], p)] + cs[1..]
    else
      var rest := Accumulate(cs[1..], p);
      assert cs == [cs[0]] + cs[1..];
      assert KeysOf([cs[0]] + rest) == {cs[0].key} + KeysOf(rest);
      assert ([cs[0]] + rest)[1..] == rest;
      [cs[0]] + rest
  }

  /** Accumulating keeps the keys distinct. */
  lemma {:induction false} AccumulateDistinct(cs: seq<Clause>, p: Part)
    requires DistinctKeys(cs)
    ensures DistinctKeys(Accumulate(cs, p))
  {
    if cs != [] && cs[0].key != p.key {
      AccumulateDistinct(cs[1..], p);
      HeadKeyFresh(cs);
      ConsDistinct(cs[0], Accumulate(cs[1..], p));
    } else if cs != [] {
      ConsDistinct(Merge(cs[0], p), cs[1..]);
    }
  }

  lemma HeadKeyFresh(cs: seq<Clause>)
    requires cs != [] && DistinctKeys(cs)
    ensures cs[0].key !in KeysOf(cs[1..])
  {
    forall c | c in cs[1..] ensures c.key != cs[0].key {
      var j :| 0 <= j < |cs[1..]| && cs[1..][j] == c;
      assert cs[j + 1] == c;
    }
  }

  lemma ConsDistinct(c: Clause, rest: seq<Clause>)
    requires DistinctKeys(rest) && c.key !in KeysOf(rest)
    ensures DistinctKeys([c] + rest)
  {
    var r := [c] + rest;
    forall i, j | 0 <= i < j < |r| ensures r[i].key != r[j].key {
      if i == 0 {
        assert r[j] == rest[j - 1];
        assert r[j].key in KeysOf(rest);
      } else {
        assert r[i] == rest[i - 1] && r[j] == rest[j - 1];
      }
    }
  }

  /** Accumulating p changes the clause of p's key only, by merging p in. */
  lemma {:induction false} AccumulateLookup(cs: seq<Clause>, p: Part, k: string)
    ensures Lookup(Accumulate(cs, p), k) == if k == p.key then Merge(Lookup(cs, k), p) else Lookup(cs, k)
  {
    if cs != [] && cs[0].key != p.key {
      AccumulateLookup(cs[1..], p, k);
      var rest := Accumulate(cs[1..], p);
      assert ([cs[0]] + rest)[0] == cs[0];
      assert ([cs[0]] + rest)[1..] == rest;
    }
  }

  /** The clauses of a list of parts, in the order their keys first appear. */
  function Collect(parts: seq<Part>): seq<Clause> {
    if parts == [] then [] else Accumulate(Collect(parts[..|parts| - 1]), parts[|parts| - 1])
  }

  /** The keys the parts name. */
  function PartKeys(parts: seq<Part>): set<string> {
    if parts == [] then {} else PartKeys(parts[..|parts| - 1]) + {parts[|parts| - 1].key}
  }

  /** All values the parts give for key k with operator op, in order. */
  function ValuesFor(parts: seq<Part>, k: string, op: Op): seq<string> {
    if parts == [] then []
    else
      var last := parts[|parts| - 1];
      ValuesFor(parts[..|parts| - 1], k, op) + (if last.key == k && last.op == op then last.values else [])
  }

  /** Clauses fail exactly when one of the `&`-separated parts does, and
      with that part's error. */
  function ParseClauses(text: string): (r: Result<Condition, ParseError>)
    ensures r.Failure? <==> ParseParts(text).Failure?
    ensures r.Failure? ==> r.error == ParseParts(text).error
    ensures r.Failure? ==> !r.error.MissingArrow?
    ensures r.Success? ==> r.value.Clauses?
  {
    var parts :- ParseParts(text);
    Success(Clauses(Collect(parts)))
  }

  function ParseWhen(text: string): (r: Result<Condition, ParseError>)
    ensures r.Failure? ==> !r.error.MissingArrow?
  {
    if text == "" || text == "true" then Success(TrueLiteral) else ParseClauses(text)
  }

  function ParseThen(text: string): (r: Result<Condition, ParseError>)
    ensures r.Failure? ==> !r.error.MissingArrow?
  {
    if text == "" then Success(EmptyThen)
    else if EqualsIgnoreCase(text, "false") then Success(FalseLiteral)
    else if text == "true" then Success(TrueLiteral)
    else ParseClauses(text)
  }

  /** The rule `when => then`: both sides are trimmed and parsed. */
  function ParseRule(rule: string): (r: Result<Rule, ParseError>)
    ensures r == Failure(MissingArrow) <==> forall j: nat :: !ArrowAt(rule, j)
  {
    match FindArrow(rule)
    case None => Failure(MissingArrow)
    case Some(i) =>
      var whenSide :- ParseWhen(Trim(rule[..i]));
      var thenSide :- ParseThen(Trim(rule[i + 2..]));
      Success(Rule(whenSide, thenSide))
  }

  // ---- Lemmas ----

  lemma {:induction false} TrimAllComma(values: seq<string>)
    requires forall i | 0 <= i < |values| :: ',' !in values[i]
    ensures |TrimAll(values)| == |values|
    ensures forall i | 0 <= i < |values| :: ',' !in TrimAll(values)[i]
  {
    if values != [] {
      TrimAllComma(values[1..]);
      assert TrimAll(values) == [Trim(values[0])] + TrimAll(values[1..]);
    }
  }

  /** An inclusion part cut at its first '=': the key text before it and
      the value text after it. */
  lemma {:induction false} IncludeAt(head: string, body: string)
    requires '=' !in head && Trim(head) != []
    requires head[|head| - 1] != '!'
    ensures ParsePart(head + "=" + body) == Success(Part(Trim(head), Include, TrimAll(Split(body, ','))))
  {
    var text := head + "=" + body;
    IndexOfAfter(head, body, '=');
    assert text[..|head|] == head;
    assert text[|head| - 1] == head[|head| - 1];
    assert text[|head| + 1..] == body;
  }

  /** An exclusion part cut at its "!=": the key text before it and the
      value text after it. */
  lemma {:induction false} ExcludeAt(head: string, body: string)
    requires '=' !in head && Trim(head) != []
    ensures ParsePart(head + "!=" + body) == Success(Part(Trim(head), Exclude, TrimAll(Split(body, ','))))
  {
    var pre := head + "!";
    var text := pre + "=" + body;
    assert head + "!=" + body == text;
    assert '=' !in pre;
    IndexOfAfter(pre, body, '=');
    var i := |pre|;
    assert text[i - 1] == '!';
    assert text[..i - 1] == head;
    assert text[i + 1..] == body;
  }

  /** A part whose key is blank, such as ` = x` or ` != x`, fails with
      EmptyKey. */
  lemma EmptyKeyAt(head: string, op: Op, body: string)
    requires Blank(head)
    ensures ParsePart(head + OpText(op) + body) == Failure(EmptyKey(head + OpText(op) + body))
  {
    NotInBlank(head, '=');
    if op == Include {
      var text := head + "=" + body;
      IndexOfAfter(head, body, '=');
      assert text[..|head|] == head;
      assert |head| > 0 ==> text[|head| - 1] == head[|head| - 1];
    } else {
      var pre := head + "!";
      var text := pre + "=" + body;
      assert head + "!=" + body == text;
      assert '=' !in pre;
      IndexOfAfter(pre, body, '=');
      assert text[|pre| - 1] == '!';
      assert text[..|pre| - 1] == head;
    }
  }

  /** A part written as `key = v1,...,vn` or `key != v1,...,vn`, with any
      spaces around the key and around the value list, parses back to the
      key, the operator and the values. */
  lemma PartText(text: string, kp: string, key: string, kq: string, op: Op, vp: string, vals: seq<string>, vq: string)
    requires Blank(kp) && Blank(kq) && Blank(vp) && Blank(vq)
    requires key != [] && Unpadded(key) && '=' !in key && key[|key| - 1] != '!'
    requires |vals| > 0
    requires forall i | 0 <= i < |vals| :: ',' !in vals[i] && Unpadded(vals[i])
    requires text == kp + key + kq + OpText(op) + vp + Join(vals, ',') + vq
    ensures ParsePart(text) == Success(Part(key, op, vals))
  {
    PartCat(kp, key, kq, op, vp, vals, vq);
  }

  lemma PartCat(kp: string, key: string, kq: string, op: Op, vp: string, vals: seq<string>, vq: string)
    requires Blank(kp) && Blank(kq) && Blank(vp) && Blank(vq)
    requires key != [] && Unpadded(key) && '=' !in key && key[|key| - 1] != '!'
    requires |vals| > 0
    requires forall i | 0 <= i < |vals| :: ',' !in vals[i] && Unpadded(vals[i])
    ensures ParsePart(kp + key + kq + OpText(op) + vp + Join(vals, ',') + vq) == Success(Part(key, op, vals))
  {
    var head := kp + key + kq;
    var body := vp + Join(vals, ',') + vq;
    PaddedKey(kp, key, kq);
    Cat3(head + OpText(op), vp, Join(vals, ','), vq);
    SplitTrimJoin(vp, vals, vq, ',');
    if op == Include {
      IncludeAt(head, body);
    } else {
      ExcludeAt(head, body);
    }
  }

  /** A key with spaces around it: no '=' in it, no '!' at its end, and
      trimming gives the key back. */
  lemma PaddedKey(kp: string, key: string, kq: string)
    requires Blank(kp) && Blank(kq)
    requires key != [] && Unpadded(key) && '=' !in key && key[|key| - 1] != '!'
    ensures '=' !in kp + key + kq
    ensures (kp + key + kq)[|kp + key + kq| - 1] != '!'
    ensures Trim(kp + key + kq) == key
  {
    var head := kp + key + kq;
    NotInBlank(kp, '=');
    NotInBlank(kq, '=');
    if kq == [] {
      assert head == kp + key;
    } else {
      assert head[|head| - 1] == kq[|kq| - 1];
    }
    TrimPadded(kp, key, kq);
  }

  /** Pieces that each parse to the corresponding part parse to the list
      of parts. */
  lemma {:induction false} ParsePiecesOk(pieces: seq<string>, parts: seq<Part>)
    requires |pieces| == |parts|
    requires forall i | 0 <= i < |pieces| :: ParsePart(pieces[i]) == Success(parts[i])
    ensures ParsePieces(pieces) == Success(parts)
  {
    if pieces != [] {
      PiecesTail(pieces, parts);
      ParsePiecesOk(pieces[1..], parts[1..]);
      PiecesStep(pieces, parts);
      ConsSplit(parts);
    }
  }

  lemma PiecesStep(pieces: seq<string>, parts: seq<Part>)
    requires 0 < |pieces| == |parts|
    requires ParsePart(pieces[0]) == Success(parts[0])
    requires ParsePieces(pieces[1..]) == Success(parts[1..])
    ensures ParsePieces(pieces) == Success([parts[0]] + parts[1..])
  {
  }

  lemma PiecesTail(pieces: seq<string>, parts: seq<Part>)
    requires 0 < |pieces| == |parts|
    requires forall i | 0 <= i < |pieces| :: ParsePart(pieces[i]) == Success(parts[i])
    ensures forall i | 0 <= i < |pieces| - 1 :: ParsePart(pieces[1..][i]) == Success(parts[1..][i])
  {
    forall i | 0 <= i < |pieces| - 1 ensures ParsePart(pieces[1..][i]) == Success(parts[1..][i]) {
      assert pieces[1..][i] == pieces[i + 1];
    }
  }

  /** Parsing stops at the first piece that fails and reports its error. */
  lemma {:induction false} ParsePiecesFirstFailure(pieces: seq<string>, k: nat)
    requires k < |pieces|
    requires forall i | 0 <= i < k :: ParsePart(pieces[i]).Success?
    requires ParsePart(pieces[k]).Failure?
    ensures ParsePieces(pieces) == Failure(ParsePart(pieces[k]).error)
  {
    if k > 0 {
      assert ParsePart(pieces[0]).Success?;
      forall i | 0 <= i < k - 1 ensures ParsePart(pieces[1..][i]).Success? {
        assert pieces[1..][i] == pieces[i + 1];
      }
      assert pieces[1..][k - 1] == pieces[k];
      ParsePiecesFirstFailure(pieces[1..], k - 1);
    }
  }

  /** Parts written between '&' separators parse to the list of parts. */
  lemma PartsText(pieces: seq<string>, parts: seq<Part>)
    requires |pieces| > 0 && |pieces| == |parts|
    requires forall i | 0 <= i < |pieces| :: '&' !in pieces[i] && ParsePart(pieces[i]) == Success(parts[i])
    ensures ParseParts(Join(pieces, '&')) == Success(parts)
  {
    SplitJoin(pieces, '&');
    ParsePiecesOk(pieces, parts);
  }

  /** Collect gathers exactly the values the parts give per key, one clause
      per key. */
  lemma {:induction false} CollectSpec(parts: seq<Part>)
    ensures KeysOf(Collect(parts)) == PartKeys(parts)
    ensures DistinctKeys(Collect(parts))
    ensures forall k :: Lookup(Collect(parts), k) == Clause(k, ValuesFor(parts, k, Include), ValuesFor(parts, k, Exclude))
  {
    if parts != [] {
      CollectSpec(parts[..|parts| - 1]);
      AccumulateDistinct(Collect(parts[..|parts| - 1]), parts[|parts| - 1]);
      forall k ensures Lookup(Collect(parts), k) == Clause(k, ValuesFor(parts, k, Include), ValuesFor(parts, k, Exclude)) {
        AccumulateLookup(Collect(parts[..|parts| - 1]), parts[|parts| - 1], k);
      }
    }
  }

  /** The clause one part makes on its own. */
  function Single(p: Part): Clause {
    Merge(Clause(p.key, [], []), p)
  }

  lemma CollectOne(p: Part)
    ensures Collect([p]) == [Single(p)]
  {
    assert [p][..0] == [];
  }

  /** Two parts on the same key make one clause; on different keys, two. */
  lemma CollectTwo(p: Part, q: Part)
    ensures Collect([p] + [q]) == if p.key == q.key then [Merge(Single(p), q)] else [Single(p), Single(q)]
  {
    var ps := [p] + [q];
    assert ps[..1] == [p];
    CollectOne(p);
    var c := Single(p);
    assert Collect(ps) == Accumulate([c], q);
    assert [c][1..] == [];
    if p.key == q.key {
      assert Accumulate([c], q) == [Merge(c, q)] + [c][1..];
    } else {
      assert Accumulate([c], q) == [c] + Accumulate([c][1..], q);
    }
  }

  /** A side made of parseable parts is neither literal: it parses to the
      clauses of its parts on either side of a rule. */
  lemma SideText(side: string, pad: string, pieces: seq<string>, parts: seq<Part>, rest: string)
    requires Blank(pad) && Blank(rest) && |pieces| > 0 && |pieces| == |parts|
    requires forall i | 0 <= i < |pieces| :: '&' !in pieces[i] && ParsePart(pieces[i]) == Success(parts[i])
    requires Unpadded(Join(pieces, '&'))
    requires side == pad + Join(pieces, '&') + rest
    ensures ParseWhen(Trim(side)) == Success(Clauses(Collect(parts)))
    ensures ParseThen(Trim(side)) == Success(Clauses(Collect(parts)))
  {
    var body := Join(pieces, '&');
    TrimPadded(pad, body, rest);
    PartsText(pieces, parts);
    PartHasOperator(pieces[0]);
    JoinHasFirst(pieces, '&', '=');
    NotLiteral(body);
  }

  lemma PartHasOperator(text: string)
    requires ParsePart(text).Success?
    ensures '=' in text
  {
  }

  /** A text with '=' in it is none of the literal sides. */
  lemma NotLiteral(body: string)
    requires '=' in body
    ensures body != "" && body != "true" && !EqualsIgnoreCase(body, "false")
  {
    var k :| 0 <= k < |body| && body[k] == '=';
    assert body != "true" by { assert '=' !in "true"; }
    if |body| == 5 {
      assert Lower(body[k]) == '=';
      assert Lower("false"[k]) != '=';
    }
  }

  /** A part with a single value, with any spaces around the key, the
      operator and the value. */
  lemma PartOne(text: string, kp: string, key: string, kq: string, op: Op, vp: string, v: string, vq: string)
    requires Blank(kp) && Blank(kq) && Blank(vp) && Blank(vq)
    requires key != [] && Unpadded(key) && '=' !in key && key[|key| - 1] != '!'
    requires ',' !in v && Unpadded(v)
    requires text == kp + key + kq + OpText(op) + vp + v + vq
    ensures ParsePart(text) == Success(Part(key, op, [v]))
  {
    assert Join([v], ',') == v;
    PartText(text, kp, key, kq, op, vp, [v], vq);
  }

  /** A part with three values. */
  lemma PartThree(text: string, kp: string, key: string, kq: string, op: Op, vp: string, a: string, b: string, c: string, vq: string)
    requires Blank(kp) && Blank(kq) && Blank(vp) && Blank(vq)
    requires key != [] && Unpadded(key) && '=' !in key && key[|key| - 1] != '!'
    requires ',' !in a && Unpadded(a) && ',' !in b && Unpadded(b) && ',' !in c && Unpadded(c)
    requires text == kp + key + kq + OpText(op) + vp + (a + "," + b + "," + c) + vq
    ensures ParsePart(text) == Success(Part(key, op, [a] + [b] + [c]))
  {
    JoinThree(a, b, c, ',');
    var vals := [a] + [b] + [c];
    assert forall i | 0 <= i < |vals| :: ',' !in vals[i] && Unpadded(vals[i]);
    PartText(text, kp, key, kq, op, vp, vals, vq);
  }

  lemma PiecesCons(p: string, rest: seq<string>, part: Part, parts: seq<Part>)
    requires ParsePart(p) == Success(part) && ParsePieces(rest) == Success(parts)
    ensures ParsePieces([p] + rest) == Success([part] + parts)
  {
    var ps := [p] + rest;
    assert ps[0] == p && ps[1..] == rest;
  }

  lemma PiecesOne(p: string, part: Part)
    requires ParsePart(p) == Success(part)
    ensures ParsePieces([p]) == Success([part])
  {
    assert [p][0] == p && [p][1..] == [];
    assert [part] + [] == [part];
  }

  lemma NoPieces(ps: seq<string>, qs: seq<Part>)
    requires ps == [] && qs == []
    ensures ParsePieces(ps) == Success(qs)
  {
  }

  lemma PiecesTwo(p1: string, p2: string, part1: Part, part2: Part)
    requires ParsePart(p1) == Success(part1) && ParsePart(p2) == Success(part2)
    ensures ParsePieces([p1] + [p2]) == Success([part1] + [part2])
  {
    PiecesOne(p2, part2);
    PiecesCons(p1, [p2], part1, [part2]);
  }

  /** A text without '&' is a single part. */
  lemma PartsOne(text: string, part: Part)
    requires '&' !in text && ParsePart(text) == Success(part)
    ensures ParseParts(text) == Success([part])
  {
    SplitFree(text, '&');
    PiecesOne(text, part);
  }

  /** Two texts without '&' joined by one are two parts. */
  lemma PartsTwo(p1: string, p2: string, part1: Part, part2: Part)
    requires '&' !in p1 && '&' !in p2
    requires ParsePart(p1) == Success(part1) && ParsePart(p2) == Success(part2)
    ensures ParseParts(p1 + "&" + p2) == Success([part1] + [part2])
  {
    assert p1 + "&" + p2 == p1 + ['&'] + p2;
    SplitCons(p1, p2, '&');
    SplitFree(p2, '&');
    PiecesTwo(p1, p2, part1, part2);
  }

  /** A text with an operator in it is read as clauses on either side. */
  lemma ClausesOf(text: string, parts: seq<Part>)
    requires ParseParts(text) == Success(parts)
    requires '=' in text
    ensures ParseWhen(text) == Success(Clauses(Collect(parts)))
    ensures ParseThen(text) == Success(Clauses(Collect(parts)))
  {
    NotLiteral(text);
  }

  /** A side that is one part, with spaces around it. */
  lemma SideOne(side: string, pad: string, piece: string, part: Part, rest: string)
    requires Blank(pad) && Blank(rest) && '&' !in piece && Unpadded(piece)
    requires ParsePart(piece) == Success(part)
    requires side == pad + piece + rest
    ensures ParseWhen(Trim(side)) == Success(Clauses([Single(part)]))
    ensures ParseThen(Trim(side)) == Success(Clauses([Single(part)]))
  {
    TrimPadded(pad, piece, rest);
    PartsOne(piece, part);
    PartHasOperator(piece);
    CollectOne(part);
    ClausesOf(piece, [part]);
  }

  /** Two parts joined by '&' are read as the clauses of both. */
  lemma TwoParts(body: string, p1: string, p2: string, part1: Part, part2: Part)
    requires '&' !in p1 && '&' !in p2
    requires ParsePart(p1) == Success(part1) && ParsePart(p2) == Success(part2)
    requires body == p1 + "&" + p2
    ensures ParseWhen(body) == Success(Clauses(Collect([part1] + [part2])))
    ensures ParseThen(body) == Success(Clauses(Collect([part1] + [part2])))
  {
    PartsTwo(p1, p2, part1, part2);
    PartHasOperator(p1);
    OperatorBefore(p1, p2);
    ClausesOf(body, [part1] + [part2]);
  }

  lemma OperatorBefore(p1: string, p2: string)
    requires '=' in p1
    ensures '=' in p1 + "&" + p2
  {
    var k :| 0 <= k < |p1| && p1[k] == '=';
    assert (p1 + "&" + p2)[k] == '=';
  }

  /** Spaces around a side do not change how it is read. */
  lemma PaddedSide(side: string, pad: string, body: string, rest: string, w: Result<Condition, ParseError>, t: Result<Condition, ParseError>)
    requires Blank(pad) && Blank(rest) && Unpadded(body)
    requires ParseWhen(body) == w && ParseThen(body) == t
    requires side == pad + body + rest
    ensures ParseWhen(Trim(side)) == w && ParseThen(Trim(side)) == t
  {
    TrimPadded(pad, body, rest);
  }

  lemma UnpaddedJoin(p1: string, p2: string)
    requires p1 != [] && p1[0] != ' ' && p2 != [] && p2[|p2| - 1] != ' '
    ensures Unpadded(p1 + "&" + p2)
  {
    var body := p1 + "&" + p2;
    assert body[0] == p1[0];
    assert body[|body| - 1] == p2[|p2| - 1];
  }

  /** A side that is two parts joined by '&', with spaces around it. */
  lemma SideTwo(side: string, pad: string, p1: string, p2: string, rest: string, part1: Part, part2: Part)
    requires Blank(pad) && Blank(rest) && '&' !in p1 && '&' !in p2
    requires p1 != [] && p1[0] != ' ' && p2 != [] && p2[|p2| - 1] != ' '
    requires ParsePart(p1) == Success(part1) && ParsePart(p2) == Success(part2)
    requires side == pad + p1 + "&" + p2 + rest
    ensures ParseWhen(Trim(side)) == Success(Clauses(Collect([part1] + [part2])))
    ensures ParseThen(Trim(side)) == Success(Clauses(Collect([part1] + [part2])))
  {
    var body := p1 + "&" + p2;
    Assoc4(pad, p1, "&", p2, rest);
    UnpaddedJoin(p1, p2);
    TwoParts(body, p1, p2, part1, part2);
    var c := Success(Clauses(Collect([part1] + [part2])));
    PaddedSide(side, pad, body, rest, c, c);
  }

  /** A blank When side is the true literal; a blank Then side is empty. */
  lemma BlankSide(side: string)
    requires Blank(side)
    ensures ParseWhen(Trim(side)) == Success(TrueLiteral)
    ensures ParseThen(Trim(side)) == Success(EmptyThen)
  {
  }

  /** `true`, with spaces around it, is the true literal on the When side. */
  lemma TrueSide(side: string, pad: string, rest: string)
    requires Blank(pad) && Blank(rest) && side == pad + "true" + rest
    ensures ParseWhen(Trim(side)) == Success(TrueLiteral)
  {
    TrimPadded(pad, "true", rest);
  }

  /** `false` in any letter case, with spaces around it, is the false
      literal on the Then side. */
  lemma FalseSide(side: string, pad: string, word: string, rest: string)
    requires Blank(pad) && Blank(rest) && Unpadded(word) && EqualsIgnoreCase(word, "false")
    requires side == pad + word + rest
    ensures ParseThen(Trim(side)) == Success(FalseLiteral)
  {
    TrimPadded(pad, word, rest);
    assert word != "" by { assert |word| == 5; }
  }

  /** A rule with no '>' before its first "=>" is cut there, and each side is
      trimmed and parsed. */
  lemma RuleText(rule: string, w: string, t: string, whenSide: Condition, thenSide: Condition)
    requires '>' !in w
    requires ParseWhen(Trim(w)) == Success(whenSide)
    requires ParseThen(Trim(t)) == Success(thenSide)
    requires rule == w + "=>" + t
    ensures ParseRule(rule) == Success(Rule(whenSide, thenSide))
  {
    RuleCat(w, t, whenSide, thenSide);
  }

  lemma RuleCat(w: string, t: string, whenSide: Condition, thenSide: Condition)
    requires '>' !in w
    requires ParseWhen(Trim(w)) == Success(whenSide)
    requires ParseThen(Trim(t)) == Success(thenSide)
    ensures ParseRule(w + "=>" + t) == Success(Rule(whenSide, thenSide))
  {
    ArrowSplit(w, t);
  }

  /** The first arrow of `w => t` cuts it into w and t. */
  lemma ArrowSplit(w: string, t: string)
    requires '>' !in w
    ensures FindArrow(w + "=>" + t) == Some(|w|)
    ensures (w + "=>" + t)[..|w|] == w
    ensures (w + "=>" + t)[|w| + 2..] == t
  {
    var rule := w + "=>" + t;
    FindArrowAfter(w, t);
    assert rule[..|w|] == w;
    assert rule[|w| + 2..] == t;
  }

  /** A rule whose When side does not parse fails with that side's error,
      whatever its Then side is. */
  lemma WhenFails(w: string, t: string)
    requires '>' !in w
    requires ParseWhen(Trim(w)).Failure?
    ensures ParseRule(w + "=>" + t) == Failure(ParseWhen(Trim(w)).error)
  {
    ArrowSplit(w, t);
  }

  /** A rule whose When side parses and whose Then side does not fails with
      the Then side's error. */
  lemma ThenFails(w: string, t: string)
    requires '>' !in w
    requires ParseWhen(Trim(w)).Success?
    requires ParseThen(Trim(t)).Failure?
    ensures ParseRule(w + "=>" + t) == Failure(ParseThen(Trim(t)).error)
  {
    ArrowSplit(w, t);
  }

  /** One part that does not parse makes a text without '&' fail with that
      part's error. */
  lemma PartsOneFails(text: string)
    requires '&' !in text && ParsePart(text).Failure?
    ensures ParseParts(text) == Failure(ParsePart(text).error)
  {
    SplitFree(text, '&');
  }

  /** A When side that is neither blank nor `true` and has no operator makes
      the rule fail with MissingOperator on the trimmed side. */
  lemma OperatorlessWhen(w: string, t: string)
    requires '>' !in w && '=' !in w && '&' !in w
    requires !Blank(w) && Trim(w) != "true"
    ensures ParseRule(w + "=>" + t) == Failure(MissingOperator(Trim(w)))
  {
    var side := Trim(w);
    assert '=' !in side && '&' !in side;
    PartsOneFails(side);
    WhenFails(w, t);
  }

  /** A Then side that is neither blank nor a literal and has no operator
      makes the rule fail with MissingOperator on the trimmed side. */
  lemma OperatorlessThen(w: string, t: string)
    requires '>' !in w && ParseWhen(Trim(w)).Success?
    requires '=' !in t && '&' !in t
    requires !Blank(t) && Trim(t) != "true" && !EqualsIgnoreCase(Trim(t), "false")
    ensures ParseRule(w + "=>" + t) == Failure(MissingOperator(Trim(t)))
  {
    var side := Trim(t);
    assert '=' !in side && '&' !in side;
    PartsOneFails(side);
    ThenFails(w, t);
  }

  /** The empty rule text has no arrow. */
  lemma EmptyRule()
    ensures ParseRule("") == Failure(MissingArrow)
  {
  }

  // ---- Rendering parts back to text ----

  /** A part its own rendering parses back to: a non-empty unpadded key
      without '=' or '&' that does not end in '!', and a non-empty list of
      unpadded values without ',' or '&'. */
  predicate Renderable(p: Part) {
    && p.key != [] && Unpadded(p.key) && '=' !in p.key && '&' !in p.key && p.key[|p.key| - 1] != '!'
    && |p.values| > 0
    && forall i | 0 <= i < |p.values| :: ',' !in p.values[i] && '&' !in p.values[i] && Unpadded(p.values[i])
  }

  /** `key=v1,...,vn` or `key!=v1,...,vn`. */
  function RenderPart(p: Part): string
    requires |p.values| > 0
  {
    p.key + OpText(p.op) + Join(p.values, ',')
  }

  function RenderPieces(parts: seq<Part>): (r: seq<string>)
    requires forall i | 0 <= i < |parts| :: |parts[i].values| > 0
    ensures |r| == |parts|
    ensures forall i | 0 <= i < |parts| :: r[i] == RenderPart(parts[i])
  {
    if parts == [] then [] else [RenderPart(parts[0])] + RenderPieces(parts[1..])
  }

  /** The parts rendered and joined with '&'. */
  function RenderParts(parts: seq<Part>): string
    requires |parts| > 0
    requires forall i | 0 <= i < |parts| :: |parts[i].values| > 0
  {
    Join(RenderPieces(parts), '&')
  }

  /** Rendering a renderable part and parsing it gives the part back. */
  lemma PartRoundTrip(p: Part)
    requires Renderable(p)
    ensures ParsePart(RenderPart(p)) == Success(p)
    ensures '&' !in RenderPart(p)
  {
    if p.op == Include {
      IncludeRoundTrip(p.key, p.values);
    } else {
      ExcludeRoundTrip(p.key, p.values);
    }
    JoinFree(p.values, ',', '&');
  }

  lemma IncludeRoundTrip(key: string, vals: seq<string>)
    requires Renderable(Part(key, Include, vals))
    ensures ParsePart(key + "=" + Join(vals, ',')) == Success(Part(key, Include, vals))
  {
    BareKey(key);
    BareValues(vals);
    IncludeAt(key, Join(vals, ','));
  }

  lemma ExcludeRoundTrip(key: string, vals: seq<string>)
    requires Renderable(Part(key, Exclude, vals))
    ensures ParsePart(key + "!=" + Join(vals, ',')) == Success(Part(key, Exclude, vals))
  {
    BareKey(key);
    BareValues(vals);
    ExcludeAt(key, Join(vals, ','));
  }

  lemma BareKey(key: string)
    requires Unpadded(key)
    ensures Trim(key) == key
  {
    var e: string := [];
    TrimPadded(e, key, e);
    assert e + key + e == key;
  }

  lemma BareValues(vals: seq<string>)
    requires |vals| > 0
    requires forall i | 0 <= i < |vals| :: ',' !in vals[i] && Unpadded(vals[i])
    ensures TrimAll(Split(Join(vals, ','), ',')) == vals
  {
    var e: string := [];
    SplitTrimJoin(e, vals, e, ',');
    assert e + Join(vals, ',') + e == Join(vals, ',');
  }

  /** Rendering renderable parts and parsing the text gives the parts back. */
  lemma PartsRoundTrip(parts: seq<Part>)
    requires |parts| > 0
    requires forall i | 0 <= i < |parts| :: Renderable(parts[i])
    ensures forall i | 0 <= i < |parts| :: |parts[i].values| > 0
    ensures ParseParts(RenderParts(parts)) == Success(parts)
  {
    var pieces := RenderPieces(parts);
    forall i | 0 <= i < |parts| ensures '&' !in pieces[i] && ParsePart(pieces[i]) == Success(parts[i]) {
      PartRoundTrip(parts[i]);
    }
    PartsText(pieces, parts);
  }

  // ---- String identities ----

  // Proof scaffolding: regroupings of concatenations the parsing lemmas need.

  lemma Assoc4(a: string, b: string, c: string, d: string, e: string)
    ensures a + b + c + d + e == a + (b + c + d) + e
  {
  }

  lemma Cat3(a: string, b: string, c: string, d: string)
    ensures a + (b + c + d) == a + b + c + d
  {
  }
}

/**
  The string operations the rule parser is built from: splitting on a
  separator character, trimming spaces, finding the "=>" arrow and the
  wildcard marker, and prefix/suffix tests.
 */
module Text {
  import opened Wrappers

  /** Every character of s is a space. */
  predicate Blank(s: string) {
    forall i | 0 <= i < |s| :: s[i] == ' '
  }

  /** s neither starts nor ends with a space. */
  predicate Unpadded(s: string) {
    s == [] || (s[0] != ' ' && s[|s| - 1] != ' ')
  }

  predicate StartsWith(s: string, prefix: string) {
    |prefix| <= |s| && s[..|prefix|] == prefix
  }

  predicate EndsWith(s: string, suffix: string) {
    |suffix| <= |s| && s[|s| - |suffix|..] == suffix
  }

  /** The first position of c in s. */
  function IndexOf(s: string, c: char): (r: Option<nat>)
    ensures r.None? <==> c !in s
    ensures r.Some? ==> r.value < |s| && s[r.value] == c && c !in s[..r.value]
  {
    if |s| == 0 then None
    else if s[0] == c then Some(0)
    else
      match IndexOf(s[1..], c)
      case None => None
      case Some(i) =>
        assert s[..i + 1] == [s[0]] + s[1..][..i];
        Some(i + 1)
  }

  /** The last position of c in s. */
  function LastIndexOf(s: string, c: char): (r: Option<nat>)
    ensures r.None? <==> c !in s
    ensures r.Some? ==> r.value < |s| && s[r.value] == c && c !in s[r.value + 1..]
    decreases |s|
  {
    match IndexOf(s, c)
    case None => None
    case Some(i) =>
      match LastIndexOf(s[i + 1..], c)
      case None => Some(i)
      case Some(j) =>
        SliceSlice(s, i + 1, j + 1);
        Some(i + 1 + j)
  }

  /** The two characters "=>" start at position i of s. */
  predicate ArrowAt(s: string, i: nat) {
    i + 1 < |s| && s[i] == '=' && s[i + 1] == '>'
  }

  /** The first position where "=>" occurs in s. */
  function FindArrow(s: string): (r: Option<nat>)
    ensures r.None? <==> forall j: nat :: !ArrowAt(s, j)
    ensures r.Some? ==> ArrowAt(s, r.value) && forall j: nat | j < r.value :: !ArrowAt(s, j)
  {
    if |s| < 2 then None
    else if s[0] == '=' && s[1] == '>' then
      assert ArrowAt(s, 0);
      Some(0)
    else
      match FindArrow(s[1..])
      case None =>
        assert forall j: nat :: ArrowAt(s, j) ==> j == 0 || ArrowAt(s[1..], j - 1);
        None
      case Some(i) =>
        assert forall j: nat :: ArrowAt(s, j) && j > 0 ==> ArrowAt(s[1..], j - 1);
        assert ArrowAt(s, i + 1);
        Some(i + 1)
  }

  /** The parts joined back together with c between them. */
  function Join(parts: seq<string>, c: char): string
    requires |parts| > 0
  {
    if |parts| == 1 then parts[0] else parts[0] + [c] + Join(parts[1..], c)
  }

  /** s cut at every occurrence of c; there is always at least one part. */
  function Split(s: string, c: char): (parts: seq<string>)
    ensures |parts| > 0
    ensures forall i | 0 <= i < |parts| :: c !in parts[i]
    decreases |s|
  {
    match IndexOf(s, c)
    case None => [s]
    case Some(i) => [s[..i]] + Split(s[i + 1..], c)
  }

  /** Number of spaces s starts with. */
  function LeadingSpaces(s: string): (k: nat)
    ensures k <= |s| && Blank(s[..k]) && (k < |s| ==> s[k] != ' ')
  {
    if |s| > 0 && s[0] == ' ' then
      var k := LeadingSpaces(s[1..]);
      assert s[..k + 1] == [s[0]] + s[1..][..k];
      k + 1
    else 0
  }

  /** Number of spaces s ends with. */
  function TrailingSpaces(s: string): (k: nat)
    ensures k <= |s| && Blank(s[|s| - k..]) && (k < |s| ==> s[|s| - 1 - k] != ' ')
  {
    if |s| > 0 && s[|s| - 1] == ' ' then
      var k := TrailingSpaces(s[..|s| - 1]);
      SuffixBlank(s, k);
      k + 1
    else 0
  }

  /** A blank suffix of s without its last character, extended by that
      character when it is a space, is a blank suffix of s. */
  lemma SuffixBlank(s: string, k: nat)
    requires k < |s| && s[|s| - 1] == ' '
    requires Blank(s[..|s| - 1][|s| - 1 - k..])
    ensures Blank(s[|s| - (k + 1)..])
  {
    var t := s[|s| - (k + 1)..];
    forall i | 0 <= i < k + 1 ensures t[i] == ' ' {
      if i < k {
        assert t[i] == s[..|s| - 1][|s| - 1 - k..][i];
      }
    }
  }

  lemma SliceSlice(s: string, a: nat, b: nat)
    requires a <= |s| && b <= |s| - a
    ensures s[a..][b..] == s[a + b..]
  {
  }

  /** s without its leading and trailing spaces. */
  function Trim(s: string): (r: string)
    ensures Unpadded(r)
    ensures r == [] <==> Blank(s)
    ensures |r| <= |s| && forall c | c in r :: c in s
  {
    var a := LeadingSpaces(s);
    var rest := s[a..];
    var b := TrailingSpaces(rest);
    var r := rest[..|rest| - b];
    assert r == [] ==> Blank(s) by {
      if r == [] {
        assert rest == rest[|rest| - b..];
        assert s == s[..a] + rest;
        BlankConcat(s[..a], rest);
      }
    }
    r
  }

  /** Every string of xs trimmed. */
  function TrimAll(xs: seq<string>): seq<string> {
    if xs == [] then [] else [Trim(xs[0])] + TrimAll(xs[1..])
  }

  function Lower(c: char): char {
    if 'A' <= c <= 'Z' then (c as int - 'A' as int + 'a' as int) as char else c
  }

  /** Equality of a and b up to the case of ASCII letters. */
  predicate EqualsIgnoreCase(a: string, b: string) {
    |a| == |b| && forall i | 0 <= i < |a| :: Lower(a[i]) == Lower(b[i])
  }

  lemma BlankConcat(a: string, b: string)
    requires Blank(a) && Blank(b)
    ensures Blank(a + b)
  {
    forall i | 0 <= i < |a + b| ensures (a + b)[i] == ' ' {
      if i >= |a| { assert (a + b)[i] == b[i - |a|]; }
    }
  }

  lemma NotInBlank(p: string, c: char)
    requires Blank(p) && c != ' '
    ensures c !in p
  {
  }

  // ---- Lemmas that let the parser be evaluated piece by piece ----

  /** Cutting at the first c: the part before it, then the cuts of the rest. */
  lemma {:induction false} SplitCons(a: string, b: string, c: char)
    requires c !in a
    ensures Split(a + [c] + b, c) == [a] + Split(b, c)
  {
    var s := a + [c] + b;
    assert s[|a|] == c;
    assert s[..|a|] == a;
    assert s[|a| + 1..] == b;
  }

  /** Joining the parts of a split with the same separator gives the string back. */
  lemma {:induction false} JoinSplit(s: string, c: char)
    ensures Join(Split(s, c), c) == s
    decreases |s|
  {
    match IndexOf(s, c)
    case None =>
    case Some(i) =>
      JoinSplit(s[i + 1..], c);
      assert s == s[..i] + [c] + s[i + 1..];
  }

  /** Split undoes Join when no part contains the separator. */
  lemma {:induction false} SplitJoin(parts: seq<string>, c: char)
    requires |parts| > 0
    requires forall i | 0 <= i < |parts| :: c !in parts[i]
    ensures Split(Join(parts, c), c) == parts
    decreases |parts|
  {
    if |parts| == 1 {
      assert c !in Join(parts, c);
    } else {
      SplitJoin(parts[1..], c);
      SplitCons(parts[0], Join(parts[1..], c), c);
    }
  }

  lemma {:induction false} LeadingBlank(p: string, y: string)
    requires Blank(p) && (y == [] || y[0] != ' ')
    ensures LeadingSpaces(p + y) == |p|
    decreases |p|
  {
    if p == [] {
      assert p + y == y;
    } else {
      assert (p + y)[1..] == p[1..] + y;
      LeadingBlank(p[1..], y);
    }
  }

  lemma {:induction false} TrailingBlank(y: string, q: string)
    requires Blank(q) && (y == [] || y[|y| - 1] != ' ')
    ensures TrailingSpaces(y + q) == |q|
    decreases |q|
  {
    if q == [] {
      assert y + q == y;
    } else {
      assert (y + q)[..|y + q| - 1] == y + q[..|q| - 1];
      TrailingBlank(y, q[..|q| - 1]);
    }
  }

  /** Trim removes exactly the blank padding around an unpadded string. */
  lemma {:induction false} TrimPadded(p: string, x: string, q: string)
    requires Blank(p) && Blank(q) && Unpadded(x)
    ensures Trim(p + x + q) == x
  {
    var s := p + x + q;
    if x == [] {
      assert s == p + q;
    } else {
      assert s == p + (x + q);
      LeadingBlank(p, x + q);
      var rest := s[|p|..];
      assert rest == x + q;
      TrailingBlank(x, q);
      assert rest[..|rest| - |q|] == x;
    }
  }

  /** vals with p in front of the first element and q after the last. */
  function Pad(vals: seq<string>, p: string, q: string): (r: seq<string>)
    requires |vals| > 0
    ensures |r| == |vals|
  {
    if |vals| == 1 then [p + vals[0] + q] else [p + vals[0]] + Pad(vals[1..], "", q)
  }

  lemma {:induction false} JoinPad(vals: seq<string>, p: string, q: string, c: char)
    requires |vals| > 0
    ensures Join(Pad(vals, p, q), c) == p + Join(vals, c) + q
    decreases |vals|
  {
    if |vals| > 1 {
      JoinPad(vals[1..], "", q, c);
      var tail := Join(vals[1..], c);
      assert Join(vals, c) == vals[0] + [c] + tail;
      assert Pad(vals, p, q)[1..] == Pad(vals[1..], "", q);
      assert "" + tail + q == tail + q;
      ConcatAssoc(p, vals[0], [c], tail, q);
    }
  }

  lemma {:induction false} PadFree(vals: seq<string>, p: string, q: string, c: char)
    requires |vals| > 0 && Blank(p) && Blank(q) && c != ' '
    requires forall i | 0 <= i < |vals| :: c !in vals[i]
    ensures forall i | 0 <= i < |vals| :: c !in Pad(vals, p, q)[i]
    decreases |vals|
  {
    NotInBlank(p, c);
    NotInBlank(q, c);
    if |vals| > 1 {
      PadFree(vals[1..], "", q, c);
      forall i | 1 <= i < |vals| ensures Pad(vals, p, q)[i] == Pad(vals[1..], "", q)[i - 1] {
      }
    }
  }

  lemma {:induction false} TrimAllPad(vals: seq<string>, p: string, q: string)
    requires |vals| > 0 && Blank(p) && Blank(q)
    requires forall i | 0 <= i < |vals| :: Unpadded(vals[i])
    ensures TrimAll(Pad(vals, p, q)) == vals
    decreases |vals|
  {
    if |vals| == 1 {
      TrimPadded(p, vals[0], q);
    } else {
      var rest := Pad(vals[1..], "", q);
      assert Pad(vals, p, q) == [p + vals[0]] + rest;
      TrimAllPad(vals[1..], "", q);
      TrimFront(p, vals[0]);
      TrimAllCons(p + vals[0], rest);
      ConsSplit(vals);
    }
  }

  lemma TrimFront(p: string, x: string)
    requires Blank(p) && Unpadded(x)
    ensures Trim(p + x) == x
  {
    var e: string := [];
    TrimPadded(p, x, e);
    assert p + x + e == p + x;
  }

  lemma ConsSplit<T>(xs: seq<T>)
    requires xs != []
    ensures [xs[0]] + xs[1..] == xs
  {
  }

  lemma TrimAllCons(x: string, xs: seq<string>)
    ensures TrimAll([x] + xs) == [Trim(x)] + TrimAll(xs)
  {
    assert ([x] + xs)[1..] == xs;
  }

  /** Trimming each part of a padded, separator-joined list gives the list back. */
  lemma SplitTrimJoin(p: string, vals: seq<string>, q: string, c: char)
    requires Blank(p) && Blank(q) && c != ' '
    requires |vals| > 0
    requires forall i | 0 <= i < |vals| :: c !in vals[i] && Unpadded(vals[i])
    ensures TrimAll(Split(p + Join(vals, c) + q, c)) == vals
  {
    JoinPad(vals, p, q, c);
    PadFree(vals, p, q, c);
    SplitJoin(Pad(vals, p, q), c);
    TrimAllPad(vals, p, q);
  }

  /** Proof scaffolding: a regrouping of a concatenation that the parsing
      lemmas need and the verifier does not find by itself. */
  lemma ConcatAssoc(a: string, b: string, c: string, d: string, e: string)
    ensures a + (b + c + d) + e == a + b + c + (d + e)
  {
  }

  /** Without a '>' on the left, the first arrow is the one that follows it. */
  lemma {:induction false} FindArrowAfter(w: string, t: string)
    requires '>' !in w
    ensures FindArrow(w + "=>" + t) == Some(|w|)
  {
    var s := w + "=>" + t;
    assert ArrowAt(s, |w|);
    forall j: nat | j < |w| ensures !ArrowAt(s, j) {
      if j + 1 < |w| { assert s[j + 1] == w[j + 1]; } else { assert s[j + 1] == '='; }
    }
  }

  /** The last c of a string whose tail has none is the one before the tail. */
  lemma {:induction false} LastIndexOfBefore(pre: string, suf: string, c: char)
    requires c !in suf
    ensures LastIndexOf(pre + [c] + suf, c) == Some(|pre|)
  {
    var s := pre + [c] + suf;
    var r := LastIndexOf(s, c);
    assert s[|pre|] == c;
    assert r.Some?;
    assert s[|pre| + 1..] == suf;
  }

  /** The first c of a string whose head has none is the one after the head. */
  lemma {:induction false} IndexOfAfter(pre: string, suf: string, c: char)
    requires c !in pre
    ensures IndexOf(pre + [c] + suf, c) == Some(|pre|)
  {
    var s := pre + [c] + suf;
    assert s[|pre|] == c;
    assert s[..|pre|] == pre;
  }

  /** A character that is neither the separator nor in any part is not in the join. */
  lemma {:induction false} JoinFree(parts: seq<string>, sep: char, c: char)
    requires |parts| > 0 && c != sep
    requires forall i | 0 <= i < |parts| :: c !in parts[i]
    ensures c !in Join(parts, sep)
    decreases |parts|
  {
    if |parts| > 1 {
      JoinFree(parts[1..], sep, c);
      assert parts[1..][0] == parts[1];
    }
  }

  /** What the first part contains, the join contains. */
  lemma JoinHasFirst(parts: seq<string>, sep: char, c: char)
    requires |parts| > 0 && c in parts[0]
    ensures c in Join(parts, sep)
  {
    if |parts| > 1 {
      assert Join(parts, sep) == parts[0] + ([sep] + Join(parts[1..], sep));
    }
  }

  /** A text without the separator is a single part. */
  lemma SplitFree(s: string, c: char)
    requires c !in s
    ensures Split(s, c) == [s]
  {
  }

  lemma JoinThree(a: string, b: string, c: string, sep: char)
    ensures Join([a] + [b] + [c], sep) == a + [sep] + b + [sep] + c
  {
    var xs := [a] + [b] + [c];
    var ys := [b] + [c];
    assert xs[0] == a && xs[1..] == ys;
    assert ys[0] == b && ys[1..] == [c];
    assert Join(ys, sep) == b + [sep] + c;
    assert Join(xs, sep) == a + [sep] + (b + [sep] + c);
  }
}

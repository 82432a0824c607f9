/**
 What a search filter matches, said without the matcher's own steps: which groups the expression
 finds, what is left of each, and what whole filters amount to.
 */
module FilterTheorems {
  import opened Go
  import opened Matching

  // ---------- the groups ----------

  /** A match of \((.*?)\): a '(' and the first ')' after it, with no line break between. */
  predicate IsMatch(s: string, g: (nat, nat)) {
    IsGroup(s, g) && forall k :: g.0 < k < g.1 - 1 ==> s[k] != ')' && s[k] != '\n'
  }

  ghost predicate NoMatch(s: string, start: nat) {
    forall g: (nat, nat) :: IsMatch(s, g) ==> g.0 < start
  }

  ghost predicate Leftmost(s: string, start: nat, g: (nat, nat)) {
    start <= g.0 && IsMatch(s, g) && forall h: (nat, nat) :: IsMatch(s, h) ==> h.0 < start || g.0 <= h.0
  }

  /** The matches from `start` on: the leftmost, then those after its end. */
  ghost predicate FoundAll(s: string, start: nat, spans: seq<(nat, nat)>)
    decreases |spans|
  {
    if spans == [] then NoMatch(s, start)
    else Leftmost(s, start, spans[0]) && FoundAll(s, spans[0].1, spans[1..])
  }

  function Text(s: string, g: (nat, nat)): string {
    if g.0 <= g.1 <= |s| then s[g.0..g.1] else ""
  }

  function Texts(s: string, spans: seq<(nat, nat)>): seq<string> {
    seq(|spans|, k requires 0 <= k < |spans| => Text(s, spans[k]))
  }

  /** What NextGroup finds is a match. */
  lemma {:induction false} NextIsMatch(s: string, start: nat)
    requires start <= |s| && NextGroup(s, start).Some?
    ensures IsMatch(s, NextGroup(s, start).value)
    decreases |s| - start
  {
    if s[start] == '(' && GroupEnd(s, start + 1).Some? {
      GroupEndIs(s, start + 1, GroupEnd(s, start + 1).value);
    } else {
      NextIsMatch(s, start + 1);
    }
  }

  /** If there is a match, NextGroup finds one that starts no later. */
  lemma {:induction false} NextIsFirst(s: string, start: nat, g: (nat, nat))
    requires IsMatch(s, g) && start <= g.0
    ensures NextGroup(s, start).Some? && NextGroup(s, start).value.0 <= g.0
    decreases |s| - start
  {
    if start == g.0 {
      GroupEndIs(s, start + 1, g.1);
    } else {
      NextIsFirst(s, start + 1, g);
    }
  }

  lemma SameStart(s: string, g: (nat, nat), h: (nat, nat))
    requires IsMatch(s, g) && IsMatch(s, h) && g.0 == h.0
    ensures g == h
  {
    GroupEndIs(s, g.0 + 1, g.1);
    GroupEndIs(s, h.0 + 1, h.1);
  }

  lemma NextIsLeftmost(s: string, start: nat, g: (nat, nat))
    requires start <= |s| && Leftmost(s, start, g)
    ensures NextGroup(s, start) == Some(g)
  {
    NextIsFirst(s, start, g);
    NextIsMatch(s, start);
    SameStart(s, g, NextGroup(s, start).value);
  }

  lemma NextIsNone(s: string, start: nat)
    requires start <= |s| && NoMatch(s, start)
    ensures NextGroup(s, start) == None
  {
    if NextGroup(s, start).Some? {
      NextIsMatch(s, start);
    }
  }

  lemma NextFound(s: string, start: nat)
    requires start <= |s|
    ensures var next := NextGroup(s, start);
            if next.None? then NoMatch(s, start) else Leftmost(s, start, next.value)
  {
    forall g: (nat, nat) | IsMatch(s, g) && start <= g.0
      ensures NextGroup(s, start).Some? && NextGroup(s, start).value.0 <= g.0
    {
      NextIsFirst(s, start, g);
    }
    if NextGroup(s, start).Some? {
      NextIsMatch(s, start);
    }
  }

  lemma {:induction false} GroupsAre(s: string, start: nat, spans: seq<(nat, nat)>)
    requires start <= |s| && FoundAll(s, start, spans)
    ensures GroupsFrom(s, start) == Texts(s, spans)
    decreases |spans|
  {
    if spans == [] {
      NextIsNone(s, start);
    } else {
      NextIsLeftmost(s, start, spans[0]);
      GroupsAre(s, spans[0].1, spans[1..]);
      assert Texts(s, spans) == [Text(s, spans[0])] + Texts(s, spans[1..]);
    }
  }

  lemma {:induction false} FindAll(s: string, start: nat) returns (spans: seq<(nat, nat)>)
    requires start <= |s|
    ensures FoundAll(s, start, spans)
    decreases |s| - start
  {
    var next := NextGroup(s, start);
    NextFound(s, start);
    if next.None? {
      spans := [];
    } else {
      var rest := FindAll(s, next.value.1);
      spans := [next.value] + rest;
    }
  }

  /** The groups of a filter are the texts of all its matches, leftmost first and none overlapping; there is one such list. */
  lemma GroupsAreAllMatches(s: string) returns (spans: seq<(nat, nat)>)
    ensures FoundAll(s, 0, spans) && Groups(s) == Texts(s, spans)
    ensures forall other :: FoundAll(s, 0, other) ==> Texts(s, other) == Groups(s)
  {
    spans := FindAll(s, 0);
    forall other | FoundAll(s, 0, other) ensures Groups(s) == Texts(s, other) {
      GroupsAre(s, 0, other);
    }
  }

  // ---------- text in front does not matter ----------

  /** `t` is what `s` holds from `d` on. */
  predicate Ends(s: string, d: nat, t: string) {
    |s| == d + |t| && forall i :: 0 <= i < |t| ==> t[i] == s[d + i]
  }

  lemma {:induction false} GroupEndShift(s: string, d: nat, t: string, j: nat)
    requires Ends(s, d, t) && j <= |t|
    ensures GroupEnd(s, d + j) == if GroupEnd(t, j).None? then None else Some(d + GroupEnd(t, j).value)
    decreases |t| - j
  {
    if j < |t| {
      assert t[j] == s[d + j];
      GroupEndShift(s, d, t, j + 1);
    }
  }

  function Shifted(next: Option<(nat, nat)>, d: nat): Option<(nat, nat)> {
    if next.None? then None else Some((next.value.0 + d, next.value.1 + d))
  }

  lemma {:induction false} NextShift(s: string, d: nat, t: string, i: nat)
    requires Ends(s, d, t) && i <= |t|
    ensures NextGroup(s, d + i) == Shifted(NextGroup(t, i), d)
    decreases |t| - i
  {
    if i < |t| {
      assert t[i] == s[d + i];
      GroupEndShift(s, d, t, i + 1);
      NextShift(s, d, t, i + 1);
    }
  }

  lemma SliceShift(s: string, d: nat, t: string, i: nat, j: nat)
    requires Ends(s, d, t) && i <= j <= |t|
    ensures s[i + d..j + d] == t[i..j]
  {
  }

  lemma GroupsOne(s: string, i: nat, g: (nat, nat), rest: seq<string>)
    requires i <= |s| && NextGroup(s, i) == Some(g) && GroupsFrom(s, g.1) == rest
    ensures GroupsFrom(s, i) == [s[g.0..g.1]] + rest
  {
  }

  lemma {:induction false} GroupsShift(s: string, d: nat, t: string, start: nat)
    requires Ends(s, d, t) && start <= |t|
    ensures GroupsFrom(s, d + start) == GroupsFrom(t, start)
    decreases |t| - start
  {
    NextShift(s, d, t, start);
    var next := NextGroup(t, start);
    if next.Some? {
      var (i, j) := next.value;
      SliceShift(s, d, t, i, j);
      GroupsShift(s, d, t, j);
      var rest := GroupsFrom(t, j);
      GroupsOne(s, d + start, (i + d, j + d), rest);
      GroupsOne(t, start, (i, j), rest);
    }
  }

  // ---------- whole filters ----------

  lemma FirstGroup(x: string, tail: string)
    requires Free(x, ')') && Free(x, '\n')
    ensures NextGroup(Parens(x) + tail, 0) == Some((0, |x| + 2))
  {
    var s := Parens(x) + tail;
    assert forall j :: 1 <= j <= |x| ==> s[j] == x[j - 1];
    assert s[|x| + 1] == ')';
    GroupEndIs(s, 1, |x| + 2);
  }

  /** A closed group at the front is the first group found. */
  lemma GroupsAppend(x: string, tail: string)
    requires Free(x, ')') && Free(x, '\n')
    ensures Groups(Parens(x) + tail) == [Parens(x)] + Groups(tail)
  {
    var s, n := Parens(x) + tail, |Parens(x)|;
    FirstGroup(x, tail);
    assert s[0..n] == Parens(x);
    GroupsShift(s, n, tail, 0);
  }

  lemma MatchesCons(filter: string, group: string, tail: string, attr: string)
    requires Groups(filter) == [group] + Groups(tail)
    ensures Matches(filter, attr) <==> Contains(attr, Clean(group)) || Matches(tail, attr)
  {
    var gs, rest := Groups(filter), Groups(tail);
    if Matches(filter, attr) {
      var k :| 0 <= k < |gs| && Contains(attr, Clean(gs[k]));
      assert k > 0 ==> gs[k] == rest[k - 1];
    }
    if Matches(tail, attr) {
      var k :| 0 <= k < |rest| && Contains(attr, Clean(rest[k]));
      assert gs[k + 1] == rest[k];
    }
    assert gs[0] == group;
  }

  /** A filter that starts with a closed group matches what that group matches and what the rest does. */
  lemma MatchesAppend(x: string, tail: string, attr: string)
    requires Free(x, ')') && Free(x, '\n')
    ensures Matches(Parens(x) + tail, attr) <==> Matches(Parens(x), attr) || Matches(tail, attr)
  {
    GroupsAppend(x, tail);
    WholeGroup(x);
    MatchesCons(Parens(x) + tail, Parens(x), tail, attr);
    OneGroup(Parens(x), Parens(x), attr);
  }

  /** Alternatives side by side, each in parentheses. */
  function Alternatives(xs: seq<string>): string {
    if xs == [] then "" else Parens(xs[0]) + Alternatives(xs[1..])
  }

  predicate AllOrdinary(xs: seq<string>) {
    forall i :: 0 <= i < |xs| ==> Ordinary(xs[i])
  }

  predicate AnyIn(attr: string, xs: seq<string>) {
    exists i :: 0 <= i < |xs| && Contains(attr, xs[i])
  }

  lemma AnyInCons(attr: string, xs: seq<string>)
    requires xs != []
    ensures AnyIn(attr, xs) <==> Contains(attr, xs[0]) || AnyIn(attr, xs[1..])
  {
    if AnyIn(attr, xs[1..]) {
      var i :| 0 <= i < |xs[1..]| && Contains(attr, xs[1..][i]);
      assert xs[i + 1] == xs[1..][i];
    }
    if AnyIn(attr, xs) {
      var i :| 0 <= i < |xs| && Contains(attr, xs[i]);
      assert i > 0 ==> xs[1..][i - 1] == xs[i];
    }
  }

  lemma {:induction false} AlternativesMatch(xs: seq<string>, tail: string, attr: string)
    requires AllOrdinary(xs)
    ensures Matches(Alternatives(xs) + tail, attr) <==> AnyIn(attr, xs) || Matches(tail, attr)
  {
    if xs == [] {
      assert "" + tail == tail;
    } else {
      var rest := Alternatives(xs[1..]) + tail;
      assert Alternatives(xs) + tail == Parens(xs[0]) + rest;
      MatchesAppend(xs[0], rest, attr);
      OrdinaryDNMatches(xs[0], attr);
      AlternativesMatch(xs[1..], tail, attr);
      AnyInCons(attr, xs);
    }
  }

  lemma ClosingMatchesNothing(attr: string)
    ensures !Matches(")", attr)
  {
    assert NextGroup(")", 0) == None;
  }

  lemma FirstAlternative(op: char, x: string, rest: string)
    requires op != ')' && op != '\n' && Ordinary(x)
    ensures "(" + [op] + (Parens(x) + rest) + ")" == Parens([op] + "(" + x) + (rest + ")")
    ensures Free([op] + "(" + x, ')') && Free([op] + "(" + x, '\n')
  {
    var first := [op] + "(" + x;
    assert forall i :: 0 <= i < |first| ==> first[i] == op || first[i] == '(' || first[i] == x[i - 2];
  }

  /** The parts of a filter "(" + op + "(x)(y)...)": the operator and the first alternative make one group. */
  lemma OperatorFilter(op: char, xs: seq<string>, attr: string)
    requires xs != [] && AllOrdinary(xs) && op != ')' && op != '\n'
    ensures Matches("(" + [op] + Alternatives(xs) + ")", attr)
            <==> Contains(attr, Clean(Parens([op] + "(" + xs[0]))) || AnyIn(attr, xs[1..])
  {
    var first, rest := [op] + "(" + xs[0], Alternatives(xs[1..]) + ")";
    assert Ordinary(xs[0]);
    FirstAlternative(op, xs[0], Alternatives(xs[1..]));
    MatchesAppend(first, rest, attr);
    WholeGroup(first);
    OneGroup(Parens(first), Parens(first), attr);
    AlternativesMatch(xs[1..], ")", attr);
    ClosingMatchesNothing(attr);
  }

  /** Where the cut characters in front end at `b`, and the last is none of them. */
  lemma TrimTo(p: string, a: nat, b: nat, cut: set<char>)
    requires a <= b < |p| && p[b] !in cut && p[|p| - 1] !in cut
    requires forall i :: a <= i < b ==> p[i] in cut
    ensures Trim(p[a..|p|], cut) == p[b..|p|]
  {
    var l, r := TrimSlice(p, a, |p|, cut);
    assert l == b && r == |p|;
  }

  /** Leading bars and parentheses are cut off together with the closing parenthesis. */
  lemma CleanBarred(mid: string)
    requires Trimmed(mid) && Free(mid, '*')
    ensures Clean(Parens("|(" + mid)) == mid
  {
    var p := Parens("|(" + mid);
    assert forall i :: 0 <= i < |p| ==> p[i] in {'(', '|', ')'} || p[i] == mid[i - 3];
    RemoveNoStars(p);
    assert p[0..|p|] == p;
    assert p[3] == mid[0] && p[|p| - 1] == ')' && p[|p| - 2] == mid[|mid| - 1];
    TrimTo(p, 0, 3, {'|', '('});
    TrimTo(p, 3, 3, {'('});
    var a, b := TrimSlice(p, 3, |p|, {')'});
    assert a == 3 && b == |p| - 1;
    assert p[3..|p| - 1] == mid;
  }

  /** "(|(x)(y)...)" matches exactly the texts that one of its alternatives is a part of. */
  lemma OrFilter(xs: seq<string>, attr: string)
    requires xs != [] && AllOrdinary(xs)
    ensures Matches("(|" + Alternatives(xs) + ")", attr) <==> AnyIn(attr, xs)
  {
    OperatorFilter('|', xs, attr);
    assert "(" + ['|'] == "(|" && ['|'] + "(" + xs[0] == "|(" + xs[0];
    CleanBarred(xs[0]);
    AnyInCons(attr, xs);
  }

  /** "(&(x)(y)...)" is no conjunction: it matches on any alternative after the first, or on "&(x" as text. */
  lemma AndFilter(xs: seq<string>, attr: string)
    requires xs != [] && AllOrdinary(xs)
    ensures Matches("(&" + Alternatives(xs) + ")", attr) <==> Contains(attr, "&(" + xs[0]) || AnyIn(attr, xs[1..])
  {
    OperatorFilter('&', xs, attr);
    var mid := "&(" + xs[0];
    assert "(" + ['&'] == "(&" && ['&'] + "(" + xs[0] == mid;
    CleanAnd(xs[0]);
  }

  lemma CleanAnd(x: string)
    requires Ordinary(x)
    ensures Clean(Parens("&(" + x)) == "&(" + x
  {
    var mid := "&(" + x;
    AndTrimmed(x);
    assert forall i :: 0 <= i < |mid| ==> mid[i] in {'&', '('} || mid[i] == x[i - 2];
    RemoveNoStars(Parens(mid));
    CleanTrimmed(Parens(mid), mid);
  }

  lemma AndTrimmed(x: string)
    requires Trimmed(x)
    ensures Trimmed("&(" + x)
  {
    var mid := "&(" + x;
    assert mid[|mid| - 1] == x[|x| - 1];
    assert |x| > 1 ==> mid[|mid| - 2] == x[|x| - 2];
    assert |x| > 2 ==> mid[|mid| - 3] == x[|x| - 3];
  }

  // ---------- stars and spaces ----------

  /** Removing stars works character by character. */
  lemma {:induction false} RemoveStarsJoin(x: string, y: string)
    ensures RemoveStars(x + y) == RemoveStars(x) + RemoveStars(y)
    ensures RemoveStars("*") == "" && forall c :: c != '*' ==> RemoveStars([c]) == [c]
  {
    if x == "" {
      assert x + y == y && "" + RemoveStars(y) == RemoveStars(y);
    } else {
      assert (x + y)[1..] == x[1..] + y;
      RemoveStarsJoin(x[1..], y);
    }
  }

  lemma FreeCons(a: char, t: string, c: char)
    ensures Free([a] + t, c) <==> a != c && Free(t, c)
  {
    var s := [a] + t;
    assert s[0] == a && forall i :: 0 <= i < |t| ==> t[i] == s[i + 1];
    if a != c && Free(t, c) {
      assert forall i :: 0 < i < |s| ==> s[i] == t[i - 1];
    }
  }

  lemma {:induction false} StarsKeepFree(s: string, c: char)
    requires c != '*'
    ensures Free(RemoveStars(s), c) <==> Free(s, c)
  {
    if s != "" {
      StarsKeepFree(s[1..], c);
      assert s == [s[0]] + s[1..];
      FreeCons(s[0], s[1..], c);
      FreeCons(s[0], RemoveStars(s[1..]), c);
    }
  }

  /** Stars anywhere in a filter's text are as good as not there: it matches wherever the text without them is a part. */
  lemma StarsIgnored(s: string, attr: string)
    requires Ordinary(RemoveStars(s))
    ensures Matches(Parens(s), attr) <==> Contains(attr, RemoveStars(s))
  {
    StarsKeepFree(s, ')');
    StarsKeepFree(s, '\n');
    WholeGroup(s);
    RemoveStarsJoin("(" + s, ")");
    RemoveStarsJoin("(", s);
    CleanTrimmed(Parens(s), RemoveStars(s));
    OneGroup(Parens(s), Parens(s), attr);
  }

  /** White space from end to end. */
  predicate Blank(s: string) {
    s == "" || (LeadingSpace(s) > 0 && Blank(s[LeadingSpace(s)..]))
  }

  lemma {:induction false} BlankAppend(s: string, w: string)
    requires Blank(s) && LeadingSpace(w) == |w| > 0
    ensures Blank(s + w)
  {
    if s == "" {
      assert s + w == w && w[|w|..] == "";
    } else {
      var n := LeadingSpace(s);
      assert LeadingSpace(s + w) == n && (s + w)[n..] == s[n..] + w;
      BlankAppend(s[n..], w);
    }
  }

  lemma {:induction false} TrimSpaceLeftMeans(s: string) returns (a: nat)
    ensures a <= |s| && TrimSpaceLeft(s) == s[a..] && Blank(s[..a]) && LeadingSpace(s[a..]) == 0
  {
    var n := LeadingSpace(s);
    if n == 0 {
      a := 0;
      assert s[0..] == s;
    } else {
      var t := s[n..];
      var b := TrimSpaceLeftMeans(t);
      a := n + b;
      assert t[b..] == s[a..];
      assert LeadingSpace(s[..a]) == n && s[..a][n..] == t[..b];
    }
  }

  lemma TrailingIsSpace(s: string)
    requires TrailingSpace(s) > 0
    ensures LeadingSpace(s[|s| - TrailingSpace(s)..]) == TrailingSpace(s)
  {
  }

  lemma NoSpaceInFront(s: string, k: nat)
    requires k <= |s| && LeadingSpace(s) == 0
    ensures LeadingSpace(s[..k]) == 0
  {
  }

  lemma SliceOfFront(s: string, n: nat, b: nat)
    requires b <= n <= |s|
    ensures s[..n][..b] == s[..b] && s[b..] == s[..n][b..] + s[n..]
  {
  }

  lemma {:induction false} TrimSpaceRightMeans(s: string) returns (b: nat)
    ensures b <= |s| && TrimSpaceRight(s) == s[..b] && Blank(s[b..]) && TrailingSpace(s[..b]) == 0
  {
    var n := TrailingSpace(s);
    if n == 0 {
      b := |s|;
      assert s[..|s|] == s;
    } else {
      b := TrimSpaceRightMeans(s[..|s| - n]);
      SliceOfFront(s, |s| - n, b);
      TrailingIsSpace(s);
      BlankAppend(s[..|s| - n][b..], s[|s| - n..]);
    }
  }

  lemma SliceOfRest(s: string, a: nat, b: nat)
    requires a <= b <= |s|
    ensures s[a..][..b - a] == s[a..b] && s[a..][b - a..] == s[b..]
  {
  }

  /** strings.TrimSpace cuts white space off both ends, and all of it. */
  lemma TrimSpaceMeans(s: string) returns (a: nat, b: nat)
    ensures a <= b <= |s| && TrimSpace(s) == s[a..b] && Blank(s[..a]) && Blank(s[b..])
    ensures LeadingSpace(s[a..b]) == 0 && TrailingSpace(s[a..b]) == 0
  {
    a := TrimSpaceLeftMeans(s);
    var k := TrimSpaceRightMeans(s[a..]);
    NoSpaceInFront(s[a..], k);
    b := a + k;
    SliceOfRest(s, a, b);
  }

  /** White space of one byte each, on one line. */
  predicate Spaces(s: string) {
    forall i :: 0 <= i < |s| ==> IsSpace1(s[i]) && s[i] != '\n'
  }

  lemma {:induction false} TrimSpaceLeftOf(l: string, x: string)
    requires Spaces(l) && LeadingSpace(x) == 0
    ensures TrimSpaceLeft(l + x) == x
  {
    if l == "" {
      assert l + x == x;
    } else {
      assert (l + x)[1..] == l[1..] + x;
      TrimSpaceLeftOf(l[1..], x);
    }
  }

  lemma {:induction false} TrimSpaceRightOf(x: string, r: string)
    requires Spaces(r) && TrailingSpace(x) == 0
    ensures TrimSpaceRight(x + r) == x
  {
    if r == "" {
      assert x + r == x;
    } else {
      assert (x + r)[..|x + r| - 1] == x + r[..|r| - 1];
      TrimSpaceRightOf(x, r[..|r| - 1]);
    }
  }

  lemma NoSpaceBefore(x: string, r: string)
    requires x != "" && LeadingSpace(x) == 0 && Spaces(r)
    ensures LeadingSpace(x + r) == 0
  {
    assert forall i :: 0 <= i < |r| ==> (x + r)[|x| + i] == r[i];
  }

  lemma CleanPadded(l: string, x: string, r: string)
    requires Spaces(l) && Spaces(r) && Ordinary(x)
    ensures Clean(Parens(l + x + r)) == x
  {
    var mid := l + x + r;
    var p := Parens(mid);
    assert forall i :: 0 <= i < |mid| ==> mid[i] == if i < |l| then l[i] else if i < |l| + |x| then x[i - |l|] else r[i - |l| - |x|];
    PaddedEnds(l, x, r);
    RemoveNoStars(p);
    assert p[0..|p|] == p && p[1] == mid[0] && p[|p| - 2] == mid[|mid| - 1];
    TrimTo(p, 0, 1, {'|', '('});
    TrimTo(p, 1, 1, {'('});
    var a, b := TrimSlice(p, 1, |p|, {')'});
    assert a == 1 && b == |p| - 1;
    assert p[1..|p| - 1] == mid;
    assert mid == l + (x + r);
    NoSpaceBefore(x, r);
    TrimSpaceLeftOf(l, x + r);
    TrimSpaceRightOf(x, r);
  }

  lemma PaddedEnds(l: string, x: string, r: string)
    requires Spaces(l) && Spaces(r) && Ordinary(x)
    ensures var mid := l + x + r;
            mid != "" && mid[0] !in {'|', '(', ')'} && mid[|mid| - 1] !in {'|', '(', ')'}
            && Free(mid, '*') && Free(mid, ')') && Free(mid, '\n')
  {
    var mid := l + x + r;
    assert mid[0] == if l != "" then l[0] else x[0];
    assert mid[|mid| - 1] == if r != "" then r[|r| - 1] else x[|x| - 1];
    assert forall i :: 0 <= i < |mid| ==> mid[i] == if i < |l| then l[i] else if i < |l| + |x| then x[i - |l|] else r[i - |l| - |x|];
  }

  /** Spaces around a filter's text are as good as not there. */
  lemma SpacesIgnored(l: string, x: string, r: string, attr: string)
    requires Spaces(l) && Spaces(r) && Ordinary(x)
    ensures Matches(Parens(l + x + r), attr) <==> Contains(attr, x)
  {
    PaddedEnds(l, x, r);
    WholeGroup(l + x + r);
    CleanPadded(l, x, r);
    OneGroup(Parens(l + x + r), Parens(l + x + r), attr);
  }
}

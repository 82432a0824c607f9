/**
 How the test directory matches a filter against a DN or an attribute: every parenthesised
 group of the filter is stripped of stars, parentheses and spaces, and looked for as text.
 */
module Matching {
  import opened Go

  predicate IsGroup(s: string, g: (nat, nat)) {
    g.0 + 2 <= g.1 <= |s| && s[g.0] == '(' && s[g.1 - 1] == ')'
  }

  /** Where a group whose text goes on at `j` ends, if it closes on its line. */
  function GroupEnd(s: string, j: nat): (r: Option<nat>)
    requires j <= |s|
    ensures r.Some? ==> j < r.value <= |s| && s[r.value - 1] == ')'
    decreases |s| - j
  {
    if j == |s| || s[j] == '\n' then None
    else if s[j] == ')' then Some(j + 1)
    else GroupEnd(s, j + 1)
  }

  /** The leftmost match of the expression \((.*?)\) from `i` on: from a '(' to the next ')', on one line. */
  function NextGroup(s: string, i: nat): (r: Option<(nat, nat)>)
    requires i <= |s|
    ensures r.Some? ==> i <= r.value.0 && IsGroup(s, r.value)
    decreases |s| - i
  {
    if i == |s| then None
    else if s[i] == '(' && GroupEnd(s, i + 1).Some? then Some((i, GroupEnd(s, i + 1).value))
    else NextGroup(s, i + 1)
  }

  /** The first closing parenthesis is where the group ends, if no line break comes before it. */
  lemma {:induction false} GroupEndIs(s: string, j: nat, end: nat)
    requires j <= |s|
    ensures GroupEnd(s, j) == Some(end)
            <==> j < end <= |s| && s[end - 1] == ')' && forall k :: j <= k < end - 1 ==> s[k] != ')' && s[k] != '\n'
    decreases |s| - j
  {
    if j < |s| && s[j] != '\n' && s[j] != ')' {
      GroupEndIs(s, j + 1, end);
    }
  }

  /** All its matches from `start` on, each found after the end of the one before. */
  function GroupsFrom(s: string, start: nat): seq<string>
    requires start <= |s|
    decreases |s| - start
  {
    var next := NextGroup(s, start);
    if next.None? then [] else [s[next.value.0..next.value.1]] + GroupsFrom(s, next.value.1)
  }

  function Groups(s: string): seq<string> {
    GroupsFrom(s, 0)
  }

  /** strings.ReplaceAll(s, "*", ""). */
  function RemoveStars(s: string): string {
    if s == "" then ""
    else if s[0] == '*' then RemoveStars(s[1..])
    else [s[0]] + RemoveStars(s[1..])
  }

  function TrimLeft(s: string, cut: set<char>): string {
    if s != "" && s[0] in cut then TrimLeft(s[1..], cut) else s
  }

  function TrimRight(s: string, cut: set<char>): string {
    if s != "" && s[|s| - 1] in cut then TrimRight(s[..|s| - 1], cut) else s
  }

  /** strings.Trim. */
  function Trim(s: string, cut: set<char>): string {
    TrimRight(TrimLeft(s, cut), cut)
  }

  /** White space of one, two and three bytes, as UTF-8 encodes the characters of unicode.IsSpace. */
  predicate IsSpace1(a: char) {
    a in {'\t', '\n', '\U{0B}', '\U{0C}', '\r', ' '}
  }

  predicate IsSpace2(a: char, b: char) {
    a == '\U{C2}' && (b == '\U{85}' || b == '\U{A0}')
  }

  predicate IsSpace3(a: char, b: char, c: char) {
    || (a == '\U{E1}' && b == '\U{9A}' && c == '\U{80}')
    || (a == '\U{E2}' && b == '\U{80}' && ('\U{80}' <= c <= '\U{8A}' || c in {'\U{A8}', '\U{A9}', '\U{AF}'}))
    || (a == '\U{E2}' && b == '\U{81}' && c == '\U{9F}')
    || (a == '\U{E3}' && b == '\U{80}' && c == '\U{80}')
  }

  /** The length of the white-space character at the front of `s`, or 0. */
  function LeadingSpace(s: string): (n: nat)
    ensures n <= |s|
  {
    if |s| >= 1 && IsSpace1(s[0]) then 1
    else if |s| >= 2 && IsSpace2(s[0], s[1]) then 2
    else if |s| >= 3 && IsSpace3(s[0], s[1], s[2]) then 3
    else 0
  }

  /** The length of the white-space character at the end of `s`, or 0. */
  function TrailingSpace(s: string): (n: nat)
    ensures n <= |s|
  {
    var k := |s|;
    if k >= 1 && IsSpace1(s[k - 1]) then 1
    else if k >= 2 && IsSpace2(s[k - 2], s[k - 1]) then 2
    else if k >= 3 && IsSpace3(s[k - 3], s[k - 2], s[k - 1]) then 3
    else 0
  }

  function TrimSpaceLeft(s: string): string {
    if LeadingSpace(s) > 0 then TrimSpaceLeft(s[LeadingSpace(s)..]) else s
  }

  function TrimSpaceRight(s: string): string {
    if TrailingSpace(s) > 0 then TrimSpaceRight(s[..|s| - TrailingSpace(s)]) else s
  }

  /** strings.TrimSpace. */
  function TrimSpace(s: string): string {
    TrimSpaceRight(TrimSpaceLeft(s))
  }

  function Clean(group: string): string {
    TrimSpace(Trim(Trim(Trim(RemoveStars(group), {'|', '('}), {'('}), {')'}))
  }

  predicate OccursAt(s: string, t: string, i: nat) {
    i + |t| <= |s| && s[i..i + |t|] == t
  }

  /** strings.Contains. */
  predicate Contains(s: string, t: string) {
    exists i :: 0 <= i <= |s| && OccursAt(s, t, i)
  }

  predicate Matches(filter: string, attr: string) {
    exists k :: 0 <= k < |Groups(filter)| && Contains(attr, Clean(Groups(filter)[k]))
  }

  method Match(filter: string, attr: string) returns (ok: bool)
    ensures ok <==> Matches(filter, attr)
  {
    var submatchall := Groups(filter);
    var k := 0;
    while k < |submatchall|
      invariant 0 <= k <= |submatchall|
      invariant forall j :: 0 <= j < k ==> !Contains(attr, Clean(submatchall[j]))
    {
      var element := submatchall[k];
      element := RemoveStars(element);
      element := Trim(element, {'|', '('});
      element := Trim(element, {'('});
      element := Trim(element, {')'});
      element := TrimSpace(element);
      if Contains(attr, element) {
        return true;
      }
      k := k + 1;
    }
    return false;
  }

  // ---------- a parenthesised DN matches itself ----------

  predicate Free(s: string, c: char) {
    forall i :: 0 <= i < |s| ==> s[i] != c
  }

  function Parens(s: string): string {
    "(" + s + ")"
  }

  lemma {:induction false} RemoveNoStars(s: string)
    requires Free(s, '*')
    ensures RemoveStars(s) == s
  {
    if s != "" {
      RemoveNoStars(s[1..]);
    }
  }

  lemma {:induction false} TrimLeftCut(s: string, cut: set<char>) returns (a: nat)
    ensures a <= |s| && TrimLeft(s, cut) == s[a..] && (a < |s| ==> s[a] !in cut)
    ensures forall i :: 0 <= i < a ==> s[i] in cut
  {
    if s != "" && s[0] in cut {
      a := TrimLeftCut(s[1..], cut);
      a := a + 1;
    } else {
      a := 0;
    }
  }

  lemma {:induction false} TrimRightCut(s: string, cut: set<char>) returns (b: nat)
    ensures b <= |s| && TrimRight(s, cut) == s[..b] && (b > 0 ==> s[b - 1] !in cut)
    ensures forall i :: b <= i < |s| ==> s[i] in cut
  {
    if s != "" && s[|s| - 1] in cut {
      b := TrimRightCut(s[..|s| - 1], cut);
    } else {
      b := |s|;
    }
  }

  /** Trimming a slice takes cut characters, and only those, off both its ends. */
  lemma TrimSlice(e: string, a: nat, b: nat, cut: set<char>) returns (a': nat, b': nat)
    requires a <= b <= |e|
    ensures a <= a' <= b' <= b && Trim(e[a..b], cut) == e[a'..b']
    ensures a' < b' ==> e[a'] !in cut && e[b' - 1] !in cut
    ensures forall i :: a <= i < a' || b' <= i < b ==> e[i] in cut
  {
    var left := TrimLeftCut(e[a..b], cut);
    var s := e[a..b][left..];
    var right := TrimRightCut(s, cut);
    a', b' := a + left, a + left + right;
    assert s[..right] == e[a'..b'];
    forall i | a <= i < a' ensures e[i] in cut {
      assert e[a..b][i - a] == e[i];
    }
    forall i | b' <= i < b ensures e[i] in cut {
      assert s[i - a'] == e[i];
    }
    assert left < b - a ==> e[a..b][left] == e[a'];
    assert right > 0 ==> s[right - 1] == e[b' - 1];
  }

  lemma {:induction false} TrimSpaceLeftCut(s: string) returns (a: nat)
    ensures a <= |s| && TrimSpaceLeft(s) == s[a..]
  {
    a := 0;
    if LeadingSpace(s) > 0 {
      a := TrimSpaceLeftCut(s[LeadingSpace(s)..]);
      a := a + LeadingSpace(s);
    }
  }

  lemma {:induction false} TrimSpaceRightCut(s: string) returns (b: nat)
    ensures b <= |s| && TrimSpaceRight(s) == s[..b]
  {
    b := |s|;
    if TrailingSpace(s) > 0 {
      b := TrimSpaceRightCut(s[..|s| - TrailingSpace(s)]);
    }
  }

  /** Trimming white space off a slice leaves a slice of it. */
  lemma TrimSpaceSlice(e: string, a: nat, b: nat) returns (a': nat, b': nat)
    requires a <= b <= |e|
    ensures a <= a' <= b' <= b && TrimSpace(e[a..b]) == e[a'..b']
  {
    var left := TrimSpaceLeftCut(e[a..b]);
    var s := e[a..b][left..];
    var right := TrimSpaceRightCut(s);
    a', b' := a + left, a + left + right;
    assert s[..right] == e[a'..b'];
  }

  lemma Inside(mid: string, a: nat, b: nat)
    requires 1 <= a <= b <= |mid| + 1
    ensures Contains(mid, Parens(mid)[a..b])
  {
    assert Parens(mid)[a..b] == mid[a - 1..b - 1];
    assert OccursAt(mid, mid[a - 1..b - 1], a - 1);
  }

  /** A star-free group loses at least its two parentheses. */
  lemma CleanInside(mid: string)
    requires Free(mid, '*')
    ensures Contains(mid, Clean(Parens(mid)))
  {
    var e := Parens(mid);
    RemoveNoStars(e);
    assert e[0] == '(' && e[|e| - 1] == ')' && e[0..|e|] == e;
    var a1, b1 := TrimSlice(e, 0, |e|, {'|', '('});
    var a2, b2 := TrimSlice(e, a1, b1, {'('});
    var a3, b3 := TrimSlice(e, a2, b2, {')'});
    var a4, b4 := TrimSpaceSlice(e, a3, b3);
    if a4 < b4 {
      assert a1 < b1 && a3 < b3;
      assert 1 <= a1 && b3 < |e|;
      Inside(mid, a4, b4);
    } else {
      assert e[a4..b4] == "" && OccursAt(mid, "", 0);
    }
  }

  lemma ContainsSlice(s: string, a: nat, b: nat, t: string)
    requires a <= b <= |s| && Contains(s[a..b], t)
    ensures Contains(s, t)
  {
    var i :| 0 <= i <= b - a && OccursAt(s[a..b], t, i);
    assert forall k :: 0 <= k < |t| ==> t[k] == s[a..b][i..i + |t|][k] == s[a + i + k];
    assert s[a + i..a + i + |t|] == t;
    assert OccursAt(s, t, a + i);
  }

  lemma SliceOfParens(dn: string, a: nat, b: nat)
    requires IsGroup(Parens(dn), (a, b))
    ensures Parens(dn[a..b - 2]) == Parens(dn)[a..b]
  {
    assert forall i :: 0 <= i < |dn| ==> Parens(dn)[i + 1] == dn[i];
  }

  /** A star-free DN in parentheses matches itself exactly when the expression finds a group in it. */
  lemma SelfMatch(dn: string)
    requires Free(dn, '*')
    ensures Matches(Parens(dn), dn) <==> NextGroup(Parens(dn), 0).Some?
  {
    var s := Parens(dn);
    if NextGroup(s, 0).Some? {
      var (a, b) := NextGroup(s, 0).value;
      var mid := dn[a..b - 2];
      SliceOfParens(dn, a, b);
      CleanInside(mid);
      ContainsSlice(dn, a, b - 2, Clean(s[a..b]));
      assert Groups(s)[0] == s[a..b];
    }
  }

  lemma {:induction false} ClosesWithoutBreak(s: string, j: nat)
    requires j < |s| && s[|s| - 1] == ')' && forall k :: j <= k < |s| ==> s[k] != '\n'
    ensures GroupEnd(s, j).Some?
    decreases |s| - j
  {
    if s[j] != ')' {
      ClosesWithoutBreak(s, j + 1);
    }
  }

  /** Without a line break, the group from the first parenthesis is always found. */
  lemma PlainDNMatchesItself(dn: string)
    requires Free(dn, '*') && Free(dn, '\n')
    ensures Matches(Parens(dn), dn)
  {
    var s := Parens(dn);
    assert forall j :: 0 <= j < |dn| ==> s[j + 1] == dn[j];
    assert s[|dn| + 1] == ')';
    ClosesWithoutBreak(s, 1);
    SelfMatch(dn);
  }

  // ---------- a starred DN does not ----------

  lemma {:induction false} RemoveOneStar(x: string, y: string)
    requires Free(x, '*') && Free(y, '*')
    ensures RemoveStars(x + "*" + y) == x + y
  {
    if x == "" {
      RemoveNoStars(y);
      assert ("" + "*" + y)[1..] == y;
    } else {
      RemoveOneStar(x[1..], y);
      assert (x + "*" + y)[1..] == x[1..] + "*" + y;
    }
  }

  /** Text whose ends survive trimming. */
  predicate Trimmed(s: string) {
    && |s| > 0 && s[0] !in {'|', '(', ')'} && s[|s| - 1] !in {'|', '(', ')'}
    && LeadingSpace(s) == 0 && TrailingSpace(s) == 0
  }

  /** Text that matching looks for as it stands. */
  predicate Ordinary(s: string) {
    Trimmed(s) && Free(s, '*') && Free(s, ')') && Free(s, '\n')
  }

  lemma CleanTrimmed(e: string, mid: string)
    requires Trimmed(mid) && RemoveStars(e) == Parens(mid)
    ensures Clean(e) == mid
  {
    var p := Parens(mid);
    assert p[0..|p|] == p;
    var a1, b1 := TrimSlice(p, 0, |p|, {'|', '('});
    assert p[1] == mid[0] && p[|p| - 1] == ')';
    assert a1 == 1 && b1 == |p|;
    var a2, b2 := TrimSlice(p, a1, b1, {'('});
    assert a2 == 1 && b2 == |p|;
    var a3, b3 := TrimSlice(p, a2, b2, {')'});
    assert p[|p| - 2] == mid[|mid| - 1];
    assert a3 == 1 && b3 == |p| - 1;
    assert p[1..|p| - 1] == mid;
  }

  /** An ordinary DN in parentheses matches exactly the texts it is a part of. */
  lemma OrdinaryDNMatches(dn: string, attr: string)
    requires Ordinary(dn)
    ensures Matches(Parens(dn), attr) <==> Contains(attr, dn)
  {
    WholeGroup(dn);
    RemoveNoStars(Parens(dn));
    CleanTrimmed(Parens(dn), dn);
    OneGroup(Parens(dn), Parens(dn), attr);
  }

  lemma OneGroup(filter: string, group: string, attr: string)
    requires Groups(filter) == [group]
    ensures Matches(filter, attr) <==> Contains(attr, Clean(group))
  {
    assert Groups(filter)[0] == group;
  }

  lemma StarSplitsText(x: string, y: string)
    requires x != "" && y != "" && Free(x + y, '*')
    ensures !Contains(x + "*" + y, x + y)
  {
    var dn, t := x + "*" + y, x + y;
    forall i | 0 <= i <= |dn| ensures !OccursAt(dn, t, i) {
      if i == 0 {
        assert dn[0..|t|][|x|] == '*' && t[|x|] != '*';
      } else if i == 1 {
        assert dn[1..1 + |t|][|x| - 1] == '*' && t[|x| - 1] != '*';
      }
    }
  }

  lemma WholeGroup(dn: string)
    requires Free(dn, ')') && Free(dn, '\n')
    ensures Groups(Parens(dn)) == [Parens(dn)]
  {
    var s := Parens(dn);
    assert forall j :: 1 <= j <= |dn| ==> s[j] == dn[j - 1];
    assert s[|dn| + 1] == ')';
    GroupEndIs(s, 1, |s|);
    assert NextGroup(s, 0) == Some((0, |s|)) && NextGroup(s, |s|) == None;
    assert s[0..|s|] == s && GroupsFrom(s, |s|) == [];
  }

  /** With a star inside it, ordinary text in parentheses no longer matches itself. */
  lemma StarredDNDoesNotMatchItself(x: string, y: string)
    requires x != "" && y != "" && Ordinary(x + y)
    ensures !Matches(Parens(x + "*" + y), x + "*" + y)
  {
    var dn := x + "*" + y;
    FreeParts(x, y, '*');
    FreeParts(x, y, ')');
    FreeParts(x, y, '\n');
    WholeGroup(dn);
    StarredClean(x, y);
    StarSplitsText(x, y);
    OneGroup(Parens(dn), Parens(dn), dn);
  }

  lemma FreeParts(x: string, y: string, c: char)
    requires Free(x + y, c)
    ensures Free(x, c) && Free(y, c) && (c != '*' ==> Free(x + "*" + y, c))
  {
    var t := x + y;
    assert forall i :: 0 <= i < |x| ==> x[i] == t[i];
    forall i | 0 <= i < |y| ensures y[i] != c {
      assert t[|x| + i] == y[i];
    }
  }

  lemma StarredClean(x: string, y: string)
    requires Free(x, '*') && Free(y, '*') && Trimmed(x + y)
    ensures Clean(Parens(x + "*" + y)) == x + y
  {
    var s := Parens(x + "*" + y);
    assert s == ("(" + x) + "*" + (y + ")") && Parens(x + y) == ("(" + x) + (y + ")");
    RemoveOneStar("(" + x, y + ")");
    CleanTrimmed(s, x + y);
  }
}

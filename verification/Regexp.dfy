/** grep's backtracking matcher against the language its patterns denote. A C string is the
    sequence of its characters before the NUL, and a `char*` is an index into it. */
module Regexp {

  /** One pattern element: a literal or `.`, possibly starred. */
  datatype Item = One(c: char) | Star(c: char)

  /** A pattern: elements, and whether it ends in the `$` anchor. */
  datatype Pattern = Pattern(items: seq<Item>, atEnd: bool)

  ghost predicate Accepts(c: char, x: char) {
    c == '.' || c == x
  }

  ghost predicate InItem(item: Item, w: string) {
    match item
    case One(c) => |w| == 1 && Accepts(c, w[0])
    case Star(c) => forall i :: 0 <= i < |w| ==> Accepts(c, w[i])
  }

  /** The language of a list of elements: concatenations of words of the elements. */
  ghost predicate InLanguage(items: seq<Item>, w: string) {
    if items == [] then w == []
    else exists k :: 0 <= k <= |w| && InItem(items[0], w[..k]) && InLanguage(items[1..], w[k..])
  }

  /** How the pattern text reads: a `*` stars the character before it, a final `$` is the anchor,
      every other character (also a leading `*`, an inner `$` or `^`) stands for itself. */
  ghost function Parse(re: string): Pattern {
    if re == [] then Pattern([], false)
    else if |re| >= 2 && re[1] == '*' then
      var p := Parse(re[2..]);
      Pattern([Star(re[0])] + p.items, p.atEnd)
    else if re == ['$'] then Pattern([], true)
    else
      var p := Parse(re[1..]);
      Pattern([One(re[0])] + p.items, p.atEnd)
  }

  /** Some prefix of `t` (the whole of it when the pattern is anchored at the end) is in the language. */
  ghost predicate MatchesPrefix(p: Pattern, t: string) {
    exists k :: 0 <= k <= |t| && InLanguage(p.items, t[..k]) && (p.atEnd ==> k == |t|)
  }

  /** What grep promises: some substring is in the language, a prefix when the pattern starts with `^`. */
  ghost predicate Matches(re: string, t: string) {
    if |re| > 0 && re[0] == '^' then MatchesPrefix(Parse(re[1..]), t)
    else exists i :: 0 <= i <= |t| && MatchesPrefix(Parse(re), t[i..])
  }

  lemma {:induction false} EmptyMatches(p: Pattern, t: string)
    requires p.items == []
    ensures MatchesPrefix(p, t) <==> (p.atEnd ==> t == [])
  {
    if p.atEnd ==> t == [] {
      assert InLanguage(p.items, t[..0]);
    }
  }

  lemma {:induction false} OneMatches(c: char, p: Pattern, t: string)
    ensures MatchesPrefix(Pattern([One(c)] + p.items, p.atEnd), t)
       <==> (t != [] && Accepts(c, t[0]) && MatchesPrefix(p, t[1..]))
  {
    var q := Pattern([One(c)] + p.items, p.atEnd);
    assert q.items[1..] == p.items;
    if MatchesPrefix(q, t) {
      var k :| 0 <= k <= |t| && InLanguage(q.items, t[..k]) && (q.atEnd ==> k == |t|);
      var j :| 0 <= j <= k && InItem(One(c), t[..k][..j]) && InLanguage(p.items, t[..k][j..]);
      assert t[..k][1..] == t[1..][..k - 1];
    }
    if t != [] && Accepts(c, t[0]) && MatchesPrefix(p, t[1..]) {
      var k :| 0 <= k <= |t| - 1 && InLanguage(p.items, t[1..][..k]) && (p.atEnd ==> k == |t| - 1);
      assert t[..k + 1][1..] == t[1..][..k];
      assert InItem(q.items[0], t[..k + 1][..1]);
      assert InLanguage(q.items, t[..k + 1]);
    }
  }

  lemma {:induction false} StarMatches(c: char, p: Pattern, t: string)
    ensures MatchesPrefix(Pattern([Star(c)] + p.items, p.atEnd), t)
       <==> exists k :: 0 <= k <= |t| && InItem(Star(c), t[..k]) && MatchesPrefix(p, t[k..])
  {
    var q := Pattern([Star(c)] + p.items, p.atEnd);
    assert q.items[1..] == p.items;
    if MatchesPrefix(q, t) {
      var m :| 0 <= m <= |t| && InLanguage(q.items, t[..m]) && (q.atEnd ==> m == |t|);
      var k :| 0 <= k <= m && InItem(Star(c), t[..m][..k]) && InLanguage(p.items, t[..m][k..]);
      assert t[..m][..k] == t[..k] && t[..m][k..] == t[k..][..m - k];
    }
    if exists k :: 0 <= k <= |t| && InItem(Star(c), t[..k]) && MatchesPrefix(p, t[k..]) {
      var k :| 0 <= k <= |t| && InItem(Star(c), t[..k]) && MatchesPrefix(p, t[k..]);
      var n :| 0 <= n <= |t| - k && InLanguage(p.items, t[k..][..n]) && (p.atEnd ==> n == |t| - k);
      assert t[..k + n][..k] == t[..k] && t[..k + n][k..] == t[k..][..n];
      assert InLanguage(q.items, t[..k + n]);
    }
  }

  /** Reading through a `char*`: the NUL sits just past the last character. */
  function At(s: string, i: nat): char
    requires i <= |s|
  {
    if i < |s| then s[i] else '\0'
  }

  ghost predicate CString(s: string) {
    '\0' !in s
  }

  /** matchhere: is some prefix of the text at `ti` in the language of the pattern at `ri`? */
  method MatchHere(re: string, ri: nat, text: string, ti: nat) returns (r: bool)
    requires CString(re) && CString(text) && ri <= |re| && ti <= |text|
    ensures r <==> MatchesPrefix(Parse(re[ri..]), text[ti..])
    decreases |re| - ri, 0
  {
    ghost var p, t := re[ri..], text[ti..];
    if At(re, ri) == '\0' {
      EmptyMatches(Parse(p), t);
      return true;
    }
    if At(re, ri + 1) == '*' {
      assert p[2..] == re[ri + 2..];
      StarMatches(p[0], Parse(p[2..]), t);
      r := MatchStar(At(re, ri), re, ri + 2, text, ti);
      return;
    }
    if At(re, ri) == '$' && At(re, ri + 1) == '\0' {
      assert p == ['$'];
      EmptyMatches(Parse(p), t);
      return At(text, ti) == '\0';
    }
    assert p[1..] == re[ri + 1..];
    OneMatches(p[0], Parse(p[1..]), t);
    if At(text, ti) != '\0' && (At(re, ri) == '.' || At(re, ri) == At(text, ti)) {
      assert t[1..] == text[ti + 1..];
      r := MatchHere(re, ri + 1, text, ti + 1);
      return;
    }
    return false;
  }

  /** matchstar: can a run of `c` at `ti` be followed by a match of the pattern at `ri`? */
  method MatchStar(c: char, re: string, ri: nat, text: string, ti: nat) returns (r: bool)
    requires CString(re) && CString(text) && ri <= |re| && ti <= |text|
    ensures r <==> exists k :: 0 <= k <= |text[ti..]| && InItem(Star(c), text[ti..][..k])
                              && MatchesPrefix(Parse(re[ri..]), text[ti..][k..])
    decreases |re| - ri, 1
  {
    ghost var t := text[ti..];
    var i := ti;
    while true
      invariant ti <= i <= |text|
      invariant InItem(Star(c), t[..i - ti])
      invariant forall k :: 0 <= k < i - ti ==> !MatchesPrefix(Parse(re[ri..]), t[k..])
      decreases |text| - i
    {
      assert t[i - ti..] == text[i..];
      var here := MatchHere(re, ri, text, i);
      if here {
        return true;
      }
      if At(text, i) == '\0' {
        break;
      }
      i := i + 1;
      if !(At(text, i - 1) == c || c == '.') {
        assert forall k :: i - ti <= k <= |t| ==> !Accepts(c, t[..k][i - 1 - ti]);
        break;
      }
      assert t[..i - ti] == t[..i - 1 - ti] + [t[i - 1 - ti]];
    }
    return false;
  }

  /** match: sound and complete search of the whole text. */
  method Match(re: string, text: string) returns (r: bool)
    requires CString(re) && CString(text)
    ensures r <==> Matches(re, text)
  {
    if At(re, 0) == '^' {
      assert text[0..] == text;
      r := MatchHere(re, 1, text, 0);
      return;
    }
    assert re[0..] == re;
    var i := 0;
    while true
      invariant 0 <= i <= |text|
      invariant forall k :: 0 <= k < i ==> !MatchesPrefix(Parse(re), text[k..])
      decreases |text| - i
    {
      var here := MatchHere(re, 0, text, i);
      if here {
        return true;
      }
      if At(text, i) == '\0' {
        break;
      }
      i := i + 1;
    }
    return false;
  }
}

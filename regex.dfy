/**
 * The part of the `regex` crate the core relies on, for patterns that are
 * literal strings: leftmost search (`is_match`, `captures`), case-insensitive
 * search (`RegexBuilder::case_insensitive`), `replace_all`, and the `$name` /
 * `${name}` / `$$` expansion of replacement templates (`Captures::expand`).
 * A literal pattern has one capture group, group 0, the matched text.
 */
module Regex {
  import opened Wrappers
  import opened Strings

  /** `pat` occurs in `s` starting at position `i`. */
  predicate OccursAt(pat: string, s: string, i: nat) {
    i + |pat| <= |s| && s[i..i + |pat|] == pat
  }

  /** Leftmost occurrence of `pat` in `s`. */
  function Find(pat: string, s: string): (r: Option<nat>)
    ensures r.Some? ==> OccursAt(pat, s, r.value)
    ensures r.Some? ==> forall j :: 0 <= j < r.value ==> !OccursAt(pat, s, j)
    ensures r.None? ==> forall j :: 0 <= j <= |s| ==> !OccursAt(pat, s, j)
    decreases |s|
  {
    if |pat| > |s| then None
    else if s[..|pat|] == pat then Some(0)
    else
      var r := Find(pat, s[1..]);
      forall j | 1 <= j <= |s| ensures OccursAt(pat, s[1..], j - 1) <==> OccursAt(pat, s, j) {
        OccursShift(pat, s, j - 1);
      }
      assert !OccursAt(pat, s, 0) by { assert s[0..|pat|] == s[..|pat|]; }
      match r
      case None => None
      case Some(i) => Some(i + 1)
  }

  /** Occurrences in `s[1..]` are those in `s` one position further on. */
  lemma OccursShift(pat: string, s: string, j: nat)
    requires j < |s|
    ensures OccursAt(pat, s[1..], j) <==> OccursAt(pat, s, j + 1)
  {
    if j + 1 + |pat| <= |s| {
      assert s[1..][j..j + |pat|] == s[j + 1..j + 1 + |pat|];
    }
  }

  /** `Regex::new(pat).is_match(s)`: exact-case matching. */
  predicate IsMatch(pat: string, s: string) {
    Find(pat, s).Some?
  }

  /** Leftmost occurrence of `pat` in `s`, ignoring the case of letters. */
  function FindIgnoreCase(pat: string, s: string): Option<nat> {
    Find(Lower(pat), Lower(s))
  }

  /** `RegexBuilder::new(pat).case_insensitive(true).build().is_match(s)`. */
  predicate IsMatchIgnoreCase(pat: string, s: string) {
    FindIgnoreCase(pat, s).Some?
  }

  /** An exact-case match is also a case-insensitive match. */
  lemma {:induction false} MatchImpliesMatchIgnoreCase(pat: string, s: string)
    requires IsMatch(pat, s)
    ensures IsMatchIgnoreCase(pat, s)
  {
    var i := Find(pat, s).value;
    assert Lower(s)[i..i + |pat|] == Lower(pat) by {
      forall k | 0 <= k < |pat| ensures Lower(s)[i..i + |pat|][k] == Lower(pat)[k] {
        assert s[i..i + |pat|][k] == pat[k];
      }
    }
    assert OccursAt(Lower(pat), Lower(s), i);
  }

  /** The text that group 0 captures: the matched part of `s`. */
  function MatchedText(pat: string, s: string): (m: string)
    requires IsMatchIgnoreCase(pat, s)
    ensures |m| == |pat| && Lower(m) == Lower(pat)
    ensures exists i: nat ::
      && OccursAt(Lower(pat), Lower(s), i)
      && (forall j :: 0 <= j < i ==> !OccursAt(Lower(pat), Lower(s), j))
      && i + |pat| <= |s| && m == s[i..i + |pat|]
  {
    var i := FindIgnoreCase(pat, s).value;
    assert OccursAt(Lower(pat), Lower(s), i);
    var m := s[i..i + |pat|];
    assert Lower(m) == Lower(pat) by {
      forall k | 0 <= k < |pat| ensures Lower(m)[k] == Lower(pat)[k] {
        assert Lower(s)[i..i + |pat|][k] == Lower(pat)[k];
      }
    }
    m
  }

  /** A character that may appear in an unbraced `$name`. */
  predicate IsNameChar(c: char) {
    'a' <= c <= 'z' || 'A' <= c <= 'Z' || '0' <= c <= '9' || c == '_'
  }

  /** Length of the longest prefix of `s` made of name characters. */
  function NameLength(s: string): (n: nat)
    ensures n <= |s|
    ensures forall k :: 0 <= k < n ==> IsNameChar(s[k])
    ensures n < |s| ==> !IsNameChar(s[n])
  {
    if s != [] && IsNameChar(s[0]) then 1 + NameLength(s[1..]) else 0
  }

  /** Position of the first `c` in `s`. */
  function IndexOf(s: string, c: char): (r: Option<nat>)
    ensures r.Some? ==> r.value < |s| && s[r.value] == c && c !in s[..r.value]
    ensures r.None? ==> c !in s
  {
    if s == [] then None
    else if s[0] == c then Some(0)
    else match IndexOf(s[1..], c)
      case None => None
      case Some(i) => assert s[..i + 1] == [s[0]] + s[1..][..i]; Some(i + 1)
  }

  /**
   * A group name denotes group 0 when it parses as the number 0: an optional
   * `+` followed by one or more `0` digits.
   */
  predicate NamesGroupZero(name: string) {
    var digits := if name != [] && name[0] == '+' then name[1..] else name;
    digits != [] && forall k :: 0 <= k < |digits| ==> digits[k] == '0'
  }

  /** The text a group reference expands to; a literal pattern has no group but 0. */
  function Group(name: string, whole: string): string {
    if NamesGroupZero(name) then whole else ""
  }

  /** `Captures::expand(template)` where group 0 captured `whole`. */
  function Expand(t: string, whole: string): string
    decreases |t|
  {
    if t == [] then []
    else if t[0] != '$' then [t[0]] + Expand(t[1..], whole)
    else if |t| >= 2 && t[1] == '$' then "$" + Expand(t[2..], whole)
    else if |t| >= 2 && t[1] == '{' then
      match IndexOf(t[2..], '}')
      case Some(j) => Group(t[2..2 + j], whole) + Expand(t[2 + j + 1..], whole)
      case None => "$" + Expand(t[1..], whole)
    else
      var n := NameLength(t[1..]);
      if n == 0 then "$" + Expand(t[1..], whole)
      else Group(t[1..1 + n], whole) + Expand(t[1 + n..], whole)
  }

  /** A template without `$` expands to itself, whatever was captured. */
  lemma {:induction false} ExpandLiteral(t: string, whole: string)
    requires '$' !in t
    ensures Expand(t, whole) == t
  {
    if t != [] {
      ExpandLiteral(t[1..], whole);
      assert [t[0]] + t[1..] == t;
    }
  }

  /** Literal text before the first `$` is copied through unchanged. */
  lemma {:induction false} ExpandLiteralPrefix(p: string, t: string, whole: string)
    requires '$' !in p
    ensures Expand(p + t, whole) == p + Expand(t, whole)
  {
    if p != [] {
      assert p[0] in p;
      assert (p + t)[0] == p[0] && (p + t)[1..] == p[1..] + t;
      assert Expand(p + t, whole) == [p[0]] + Expand(p[1..] + t, whole);
      ExpandLiteralPrefix(p[1..], t, whole);
      assert [p[0]] + (p[1..] + Expand(t, whole)) == p + Expand(t, whole);
    } else {
      assert p + t == t;
    }
  }

  /** `$0` and `${0}` expand to the matched text. */
  lemma ExpandGroupZero(whole: string)
    ensures Expand("$0", whole) == whole
    ensures Expand("${0}", whole) == whole
  {
    assert NameLength("0") == 1;
    assert "$0"[1..1 + 1] == "0";
    assert IndexOf("0}", '}') == Some(1);
    assert "${0}"[2..2 + 1] == "0";
  }

  /** Every match of an empty pattern: before each character and at the end. */
  function ReplaceEmpty(e: string, s: string): (r: string)
    ensures |r| == |s| + (|s| + 1) * |e|
  {
    if s == [] then e else e + [s[0]] + ReplaceEmpty(e, s[1..])
  }

  /**
   * Every leftmost non-overlapping occurrence of a non-empty literal `pat`
   * replaced by `e`.
   */
  function ReplaceWith(pat: string, e: string, s: string): (r: string)
    requires pat != []
    decreases |s|
  {
    match Find(pat, s)
    case None => s
    case Some(i) => s[..i] + e + ReplaceWith(pat, e, s[i + |pat|..])
  }

  /** Where a non-empty pattern does not occur, nothing is replaced. */
  lemma ReplaceWithNoMatch(pat: string, e: string, s: string)
    requires pat != [] && !IsMatch(pat, s)
    ensures ReplaceWith(pat, e, s) == s
  {
  }

  /**
   * `Regex::new(pat).replace_all(s, rep)`: every leftmost non-overlapping
   * match replaced by the template expanded with it; a literal pattern
   * always captures itself, so the expansion is the same at every match.
   */
  function ReplaceAll(pat: string, rep: string, s: string): (r: string)
    ensures !IsMatch(pat, s) ==> r == s
  {
    if pat == [] then ReplaceEmpty(Expand(rep, ""), s)
    else ReplaceWith(pat, Expand(rep, pat), s)
  }

  /**
   * On a match, `replace_all` keeps the text before the leftmost occurrence,
   * puts the expanded replacement in its place, and goes on replacing in
   * the text after it.
   */
  lemma {:induction false} ReplaceAllAtFirstMatch(pat: string, rep: string, s: string, i: nat)
    requires pat != [] && Find(pat, s) == Some(i)
    ensures OccursAt(pat, s, i)
    ensures var r := ReplaceAll(pat, rep, s);
      var e := Expand(rep, pat);
      && i + |e| <= |r|
      && r[..i] == s[..i]
      && r[i..i + |e|] == e
      && r[i + |e|..] == ReplaceAll(pat, rep, s[i + |pat|..])
  {
    var e := Expand(rep, pat);
    var rest := ReplaceWith(pat, e, s[i + |pat|..]);
    assert ReplaceAll(pat, rep, s[i + |pat|..]) == rest;
    ReplaceWithAt(pat, e, s, i);
    ConcatParts(s[..i], e, rest);
  }

  /** One step of `ReplaceWith` at the leftmost occurrence. */
  lemma {:induction false} ReplaceWithAt(pat: string, e: string, s: string, i: nat)
    requires pat != [] && Find(pat, s) == Some(i)
    ensures i + |pat| <= |s|
    ensures ReplaceWith(pat, e, s) == s[..i] + e + ReplaceWith(pat, e, s[i + |pat|..])
  {
    var f := Find(pat, s);
    assert f.Some? && f.value == i;
    var rest := ReplaceWith(pat, e, s[i + |pat|..]);
    assert ReplaceWith(pat, e, s) == s[..i] + e + rest;
  }

  lemma ConcatParts(a: string, b: string, c: string)
    ensures |a + b + c| == |a| + |b| + |c|
    ensures (a + b + c)[..|a|] == a
    ensures (a + b + c)[|a|..|a| + |b|] == b
    ensures (a + b + c)[|a| + |b|..] == c
  {
  }
}

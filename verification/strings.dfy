/**
 * String operations the services rely on: substring search (`includes`,
 * `startsWith`, `endsWith`), global replacement of a literal pattern
 * (`String.prototype.replace` with a `/…/g` pattern that has no
 * metacharacters), ASCII `toLowerCase`, `trim` and decimal rendering of
 * a natural number.
 */
module Strings {

  predicate StartsWith(s: string, p: string) {
    |p| <= |s| && s[..|p|] == p
  }

  predicate EndsWith(s: string, p: string) {
    |p| <= |s| && s[|s| - |p|..] == p
  }

  /** `p` occurs in `s` starting at index `i`. */
  predicate OccursAt(s: string, p: string, i: int) {
    0 <= i && i + |p| <= |s| && s[i..i + |p|] == p
  }

  /** `s.includes(p)` */
  predicate Contains(s: string, p: string) {
    exists i | 0 <= i <= |s| :: OccursAt(s, p, i)
  }

  /**
   * `s.replace(/p/g, r)` for a pattern made of literal characters: the
   * leftmost occurrence is replaced, and the search resumes after it.
   */
  function ReplaceAll(s: string, p: string, r: string): string
    requires p != []
    decreases |s|
  {
    if |s| < |p| then s
    else if s[..|p|] == p then r + ReplaceAll(s[|p|..], p, r)
    else [s[0]] + ReplaceAll(s[1..], p, r)
  }

  /** Every string contains the empty string (so an empty needle always matches). */
  lemma ContainsEmpty(s: string)
    ensures Contains(s, "")
  {
    assert OccursAt(s, "", 0);
  }

  /** An occurrence of `p` inside an occurrence of `a + p + b` is an occurrence of `p`. */
  lemma ContainsInfix(s: string, a: string, p: string, b: string)
    requires Contains(s, a + p + b)
    ensures Contains(s, p)
  {
    var w := a + p + b;
    var i :| 0 <= i <= |s| && OccursAt(s, w, i);
    assert s[i..i + |w|] == w;
    forall k | 0 <= k < |p|
      ensures s[i + |a| + k] == p[k]
    {
      assert s[i + |a| + k] == s[i..i + |w|][|a| + k];
      assert w[|a| + k] == p[k];
    }
    assert s[i + |a|..i + |a| + |p|] == p;
    assert OccursAt(s, p, i + |a|);
  }

  lemma ContainsMiddle(a: string, p: string, b: string)
    ensures Contains(a + p + b, p)
  {
    var s := a + p + b;
    assert s[|a|..|a| + |p|] == p;
    assert OccursAt(s, p, |a|);
  }

  /** A pattern longer than the text does not occur in it. */
  lemma TooLongAbsent(s: string, p: string)
    requires |s| < |p|
    ensures !Contains(s, p)
  {
    forall i | 0 <= i <= |s|
      ensures !OccursAt(s, p, i)
    {
    }
  }

  /** If `p` does not occur in `s`, it does not occur in the tail of `s` either. */
  lemma AbsentFromTail(s: string, p: string)
    requires s != [] && !Contains(s, p)
    ensures !Contains(s[1..], p)
  {
    forall i | 0 <= i <= |s| - 1
      ensures !OccursAt(s[1..], p, i)
    {
      assert !OccursAt(s, p, i + 1);
      if i + |p| <= |s| - 1 {
        assert s[1..][i..i + |p|] == s[i + 1..i + 1 + |p|];
      }
    }
  }

  /** A string in which the pattern does not occur comes back unchanged. */
  lemma {:induction false} ReplaceAllAbsent(s: string, p: string, r: string)
    requires p != []
    requires !Contains(s, p)
    ensures ReplaceAll(s, p, r) == s
    decreases |s|
  {
    if |s| >= |p| {
      assert !OccursAt(s, p, 0);
      AbsentFromTail(s, p);
      ReplaceAllAbsent(s[1..], p, r);
    }
  }

  /** A prefix none of whose characters starts the pattern is copied through. */
  lemma {:induction false} ReplaceAllKeepsPrefix(a: string, x: string, p: string, r: string)
    requires p != []
    requires forall i :: 0 <= i < |a| ==> a[i] != p[0]
    ensures ReplaceAll(a + x, p, r) == a + ReplaceAll(x, p, r)
    decreases |a|
  {
    if a != [] {
      var t := a[1..] + x;
      assert a + x == [a[0]] + t;
      assert !StartsWith([a[0]] + t, p) by {
        if |p| <= |[a[0]] + t| {
          assert ([a[0]] + t)[..|p|][0] == a[0];
        }
      }
      ReplaceAllNoMatchHere(a[0], t, p, r);
      ReplaceAllKeepsPrefix(a[1..], x, p, r);
      calc {
        ReplaceAll(a + x, p, r);
        [a[0]] + ReplaceAll(t, p, r);
        [a[0]] + (a[1..] + ReplaceAll(x, p, r));
        { assert [a[0]] + a[1..] == a; }
        a + ReplaceAll(x, p, r);
      }
    } else {
      assert a + x == x;
    }
  }

  /** A character that does not begin an occurrence is copied through. */
  lemma ReplaceAllNoMatchHere(c: char, x: string, p: string, r: string)
    requires p != []
    requires !StartsWith([c] + x, p)
    ensures ReplaceAll([c] + x, p, r) == [c] + ReplaceAll(x, p, r)
  {
    var s := [c] + x;
    assert s[1..] == x;
    if |s| < |p| {
      assert ReplaceAll(x, p, r) == x;
    }
  }

  /** An occurrence at the very start is replaced. */
  lemma ReplaceAllMatchHere(x: string, p: string, r: string)
    requires p != []
    ensures ReplaceAll(p + x, p, r) == r + ReplaceAll(x, p, r)
  {
    var s := p + x;
    assert s[..|p|] == p;
    assert s[|p|..] == x;
  }

  /** Index of the first character at or after `i` that is in `stops`, or `|s|` when there is none. */
  function FirstOf(s: string, stops: set<char>, i: nat): (k: nat)
    requires i <= |s|
    ensures i <= k <= |s|
    ensures k < |s| ==> s[k] in stops
    decreases |s| - i
  {
    if i == |s| || s[i] in stops then i else FirstOf(s, stops, i + 1)
  }

  /** No character before the one `FirstOf` stops at is in `stops`. */
  lemma {:induction false} FirstOfMeaning(s: string, stops: set<char>, i: nat)
    requires i <= |s|
    ensures forall j :: i <= j < FirstOf(s, stops, i) ==> s[j] !in stops
    decreases |s| - i
  {
    if i < |s| && s[i] !in stops {
      FirstOfMeaning(s, stops, i + 1);
    }
  }

  /** `FirstOf` stops at `k` when `s[k]` is in `stops` and nothing before it from `i` on is. */
  lemma FirstOfIs(s: string, stops: set<char>, i: nat, k: nat)
    requires i <= k < |s| && s[k] in stops
    requires forall j :: i <= j < k ==> s[j] !in stops
    ensures FirstOf(s, stops, i) == k
  {
    FirstOfMeaning(s, stops, i);
  }

  // ---------------------------------------------------------------------
  // ASCII lower-casing (`toLowerCase` restricted to ASCII letters)

  function LowerChar(c: char): (d: char)
    ensures 'A' <= c <= 'Z' ==> 'a' <= d <= 'z' && d as int == c as int + 32
    ensures !('A' <= c <= 'Z') ==> d == c
  {
    if 'A' <= c <= 'Z' then (c as int + 32) as char else c
  }

  function Lower(s: string): (r: string)
    ensures |r| == |s|
    ensures forall i :: 0 <= i < |s| ==> r[i] == LowerChar(s[i])
  {
    seq(|s|, i requires 0 <= i < |s| => LowerChar(s[i]))
  }

  // ---------------------------------------------------------------------
  // `trim`: removes leading and trailing white space and line terminators

  predicate IsJsWhitespace(c: char) {
    c == ' ' || c == '\t' || c == '\n' || c == '\r' || c == '\U{000B}' || c == '\U{000C}'
    || c == '\U{00A0}' || c == '\U{1680}' || ('\U{2000}' <= c <= '\U{200A}')
    || c == '\U{2028}' || c == '\U{2029}' || c == '\U{202F}' || c == '\U{205F}'
    || c == '\U{3000}' || c == '\U{FEFF}'
  }

  function TrimStart(s: string): (r: string)
    ensures |r| <= |s| && r == s[|s| - |r|..]
    ensures forall i :: 0 <= i < |s| - |r| ==> IsJsWhitespace(s[i])
    ensures r != [] ==> !IsJsWhitespace(r[0])
  {
    if s != [] && IsJsWhitespace(s[0]) then TrimStart(s[1..]) else s
  }

  function TrimEnd(s: string): (r: string)
    ensures |r| <= |s| && r == s[..|r|]
    ensures forall i :: |r| <= i < |s| ==> IsJsWhitespace(s[i])
    ensures r != [] ==> !IsJsWhitespace(r[|r| - 1])
  {
    if s != [] && IsJsWhitespace(s[|s| - 1]) then TrimEnd(s[..|s| - 1]) else s
  }

  /** `s.trim()` */
  function Trim(s: string): (r: string)
    ensures |r| <= |s|
    ensures r != [] ==> !IsJsWhitespace(r[0]) && !IsJsWhitespace(r[|r| - 1])
  {
    TrimEnd(TrimStart(s))
  }

  /** `trim` keeps an infix of `s`: it starts where `TrimStart` stops. */
  lemma TrimIsInfix(s: string)
    ensures var a := |s| - |TrimStart(s)|;
            a + |Trim(s)| <= |s| && Trim(s) == s[a..a + |Trim(s)|]
  {
  }

  /** What `trim` cuts off at the end is white space (`TrimStart` states it for the start). */
  lemma TrimDropsWhitespace(s: string)
    ensures var b := |s| - |TrimStart(s)| + |Trim(s)|;
            forall i :: b <= i < |s| ==> IsJsWhitespace(s[i])
  {
    var t := TrimStart(s);
    var r := TrimEnd(t);
    var a := |s| - |t|;
    assert Trim(s) == r;
    assert t == s[a..];
    forall i | a + |r| <= i < |s|
      ensures IsJsWhitespace(s[i])
    {
      assert s[i] == t[i - a];
    }
  }

  // ---------------------------------------------------------------------
  // Decimal rendering of a natural number (template literal `${n}`)

  function DigitChar(d: nat): (c: char)
    requires d < 10
    ensures '0' <= c <= '9'
  {
    ('0' as int + d) as char
  }

  /** The number a string of decimal digits denotes, read left to right. */
  function DecimalValue(s: string): nat {
    if s == [] then 0
    else
      var c := s[|s| - 1];
      10 * DecimalValue(s[..|s| - 1]) + (if '0' <= c <= '9' then c as int - '0' as int else 0)
  }

  /** The shortest decimal numeral of `n`: digits only, no leading zero, denoting `n`. */
  function NatToString(n: nat): (r: string)
    ensures r != []
    ensures forall i :: 0 <= i < |r| ==> '0' <= r[i] <= '9'
    ensures n > 0 ==> r[0] != '0'
    ensures DecimalValue(r) == n
  {
    if n < 10 then [DigitChar(n)]
    else
      var p := NatToString(n / 10);
      assert (p + [DigitChar(n % 10)])[..|p|] == p;
      p + [DigitChar(n % 10)]
  }
}

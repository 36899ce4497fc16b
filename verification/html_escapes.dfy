/**
 * The escape normaliser of the template service: `decodeHTMLEntities`
 * (entity decoding followed by a fixed chain of backslash un-escapes) and
 * `preprocessJsonData`, which applies it to every string leaf of a data
 * object.
 */
module HtmlEscapes {
  import opened Wrappers
  import opened Strings
  import opened JsonData

  // ---------------------------------------------------------------------
  // Entity decoding (what assigning to a textarea's innerHTML and reading
  // its value does), restricted to a fixed table of character references.

  /** The character references decoded: name (with `&` and `;`) and character. */
  const EntityTable: seq<(string, char)> := [
    ("&amp;", '&'), ("&lt;", '<'), ("&gt;", '>'), ("&quot;", '"'),
    ("&apos;", '\''), ("&#39;", '\''), ("&nbsp;", '\U{00A0}')
  ]

  /** The first table entry that `s` starts with: its length and its character. */
  function MatchEntity(s: string, j: nat): (r: Option<(nat, char)>)
    requires j <= |EntityTable|
    ensures r.Some? ==> |s| >= r.value.0 >= 1 && s[0] == '&'
    decreases |EntityTable| - j
  {
    if j == |EntityTable| then None
    else if StartsWith(s, EntityTable[j].0) then Some((|EntityTable[j].0|, EntityTable[j].1))
    else MatchEntity(s, j + 1)
  }

  function DecodeEntities(s: string): (r: string)
    ensures (forall i :: 0 <= i < |s| ==> s[i] != '&') ==> r == s
    decreases |s|
  {
    if s == [] then []
    else match MatchEntity(s, 0)
      case Some(e) => [e.1] + DecodeEntities(s[e.0..])
      case None => [s[0]] + DecodeEntities(s[1..])
  }

  /** A character other than `&` is copied and decoding goes on after it. */
  lemma DecodeEntitiesPlainHead(s: string)
    requires s != [] && s[0] != '&'
    ensures DecodeEntities(s) == [s[0]] + DecodeEntities(s[1..])
  {
    assert MatchEntity(s, 0).None?;
  }

  /** Text without `&` passes entity decoding unchanged, whatever follows it. */
  lemma {:induction false} DecodeEntitiesKeepsPrefix(a: string, b: string)
    requires forall i :: 0 <= i < |a| ==> a[i] != '&'
    ensures DecodeEntities(a + b) == a + DecodeEntities(b)
    decreases |a|
  {
    if a != [] {
      var s := a + b;
      assert s[0] == a[0];
      assert s[1..] == a[1..] + b;
      calc {
        DecodeEntities(s);
        { DecodeEntitiesPlainHead(s); }
        [a[0]] + DecodeEntities(a[1..] + b);
        { DecodeEntitiesKeepsPrefix(a[1..], b); }
        [a[0]] + (a[1..] + DecodeEntities(b));
        { assert [a[0]] + a[1..] == a; }
        a + DecodeEntities(b);
      }
    } else {
      assert a + b == b;
    }
  }

  lemma DecodeQuotEntity(b: string)
    ensures DecodeEntities("&quot;" + b) == "\"" + DecodeEntities(b)
  {
    var s := "&quot;" + b;
    assert s[1] == 'q';
    assert !StartsWith(s, "&amp;") by { assert s[..5][1] == 'q'; }
    assert !StartsWith(s, "&lt;") by { assert s[..4][1] == 'q'; }
    assert !StartsWith(s, "&gt;") by { assert s[..4][1] == 'q'; }
    assert s[..6] == "&quot;";
    assert MatchEntity(s, 0) == Some((6, '"'));
    assert s[6..] == b;
  }

  // ---------------------------------------------------------------------
  // The un-escape chain, in the order the service applies it.

  const DoubleBackslashPlaceholder: string := "___DOUBLE_BACKSLASH___"

  /** `\\` becomes the placeholder, so that the next steps leave it alone. */
  function ProtectDoubleBackslash(t: string): string {
    ReplaceAll(t, "\\\\", DoubleBackslashPlaceholder)
  }

  function UnescapeDoubleQuote(t: string): string {
    ReplaceAll(t, "\\\"", "\"")
  }

  function UnescapeSingleQuote(t: string): string {
    ReplaceAll(t, "\\'", "'")
  }

  function UnescapeOpenBrace(t: string): string {
    ReplaceAll(t, "\\{", "{")
  }

  function UnescapeCloseBrace(t: string): string {
    ReplaceAll(t, "\\}", "}")
  }

  function RestoreBackslash(t: string): string {
    ReplaceAll(t, DoubleBackslashPlaceholder, "\\")
  }

  /** The four quote and brace un-escapes, in source order. */
  function UnescapeQuotesAndBraces(t: string): string {
    UnescapeCloseBrace(UnescapeOpenBrace(UnescapeSingleQuote(UnescapeDoubleQuote(t))))
  }

  /** The six replacements applied after entity decoding. */
  function UnescapeChain(t: string): string {
    RestoreBackslash(UnescapeQuotesAndBraces(ProtectDoubleBackslash(t)))
  }

  /** `decodeHTMLEntities`. */
  function DecodeHTMLEntities(html: string): string {
    UnescapeChain(DecodeEntities(html))
  }

  // ---------------------------------------------------------------------
  // Reference definitions: one left-to-right pass over the decoded text.

  predicate IsEscapable(c: char) {
    c == '"' || c == '\'' || c == '{' || c == '}'
  }

  /**
   * What the chain is meant to do: a double backslash becomes one backslash,
   * and a backslash before a quote or a brace is dropped.
   */
  function Unescape(t: string): string
    decreases |t|
  {
    if t == [] then []
    else if |t| >= 2 && t[0] == '\\' && t[1] == '\\' then "\\" + Unescape(t[2..])
    else if |t| >= 2 && t[0] == '\\' && IsEscapable(t[1]) then [t[1]] + Unescape(t[2..])
    else [t[0]] + Unescape(t[1..])
  }

  /** The same pass, but producing the placeholder for a double backslash. */
  function Protected(t: string): string
    decreases |t|
  {
    if t == [] then []
    else if |t| >= 2 && t[0] == '\\' && t[1] == '\\' then DoubleBackslashPlaceholder + Protected(t[2..])
    else if |t| >= 2 && t[0] == '\\' && IsEscapable(t[1]) then [t[1]] + Protected(t[2..])
    else [t[0]] + Protected(t[1..])
  }

  predicate HasDoubleUnderscore(t: string) {
    exists i :: 0 <= i < |t| - 1 && t[i] == '_' && t[i + 1] == '_'
  }

  // ---------------------------------------------------------------------
  // Proof that the chain is the one-pass un-escape

  lemma KeepChar(c: char, y: string, p: string, r: string)
    requires p != [] && c != p[0]
    ensures ReplaceAll([c] + y, p, r) == [c] + ReplaceAll(y, p, r)
  {
    ReplaceAllKeepsPrefix([c], y, p, r);
  }

  /** A backslash followed by `c` is not the two-character pattern `p`. */
  lemma KeepPair(c: char, y: string, p: string, r: string)
    requires |p| == 2 && p[0] == '\\' && p[1] != c && c != '\\'
    ensures ReplaceAll(['\\', c] + y, p, r) == ['\\', c] + ReplaceAll(y, p, r)
  {
    assert ['\\', c] + y == ['\\'] + ([c] + y);
    assert !StartsWith(['\\'] + ([c] + y), p) by {
      if |p| <= |['\\', c] + y| {
        assert (['\\', c] + y)[..|p|][1] == c;
      }
    }
    ReplaceAllNoMatchHere('\\', [c] + y, p, r);
    KeepChar(c, y, p, r);
  }

  lemma MatchPair(c: char, y: string, r: string)
    ensures ReplaceAll(['\\', c] + y, ['\\', c], r) == r + ReplaceAll(y, ['\\', c], r)
  {
    ReplaceAllMatchHere(y, ['\\', c], r);
  }

  lemma PlaceholderHasNoBackslash()
    ensures forall i :: 0 <= i < |DoubleBackslashPlaceholder| ==> DoubleBackslashPlaceholder[i] != '\\'
  {
  }

  /** The quote and brace steps copy text without backslashes. */
  lemma {:induction false} QuotesAndBracesKeepPrefix(a: string, y: string)
    requires forall i :: 0 <= i < |a| ==> a[i] != '\\'
    ensures UnescapeQuotesAndBraces(a + y) == a + UnescapeQuotesAndBraces(y)
  {
    ReplaceAllKeepsPrefix(a, y, "\\\"", "\"");
    var y2 := UnescapeDoubleQuote(y);
    ReplaceAllKeepsPrefix(a, y2, "\\'", "'");
    var y3 := UnescapeSingleQuote(y2);
    ReplaceAllKeepsPrefix(a, y3, "\\{", "{");
    var y4 := UnescapeOpenBrace(y3);
    ReplaceAllKeepsPrefix(a, y4, "\\}", "}");
  }

  /** The quote and brace steps drop the backslash of an escaped quote or brace. */
  lemma QuotesAndBracesOnEscape(c: char, y: string)
    requires IsEscapable(c)
    ensures UnescapeQuotesAndBraces(['\\', c] + y) == [c] + UnescapeQuotesAndBraces(y)
  {
    var y2 := UnescapeDoubleQuote(y);
    var y3 := UnescapeSingleQuote(y2);
    var y4 := UnescapeOpenBrace(y3);
    if c == '"' {
      MatchPair('"', y, "\"");
      KeepChar(c, y2, "\\'", "'");
      KeepChar(c, y3, "\\{", "{");
      KeepChar(c, y4, "\\}", "}");
    } else if c == '\'' {
      KeepPair(c, y, "\\\"", "\"");
      MatchPair('\'', y2, "'");
      KeepChar(c, y3, "\\{", "{");
      KeepChar(c, y4, "\\}", "}");
    } else if c == '{' {
      KeepPair(c, y, "\\\"", "\"");
      KeepPair(c, y2, "\\'", "'");
      MatchPair('{', y3, "{");
      KeepChar(c, y4, "\\}", "}");
    } else {
      KeepPair(c, y, "\\\"", "\"");
      KeepPair(c, y2, "\\'", "'");
      KeepPair(c, y3, "\\{", "{");
      MatchPair('}', y4, "}");
    }
  }

  /** The quote and brace steps keep a backslash before any other character. */
  lemma QuotesAndBracesOnOtherPair(c: char, y: string)
    requires !IsEscapable(c) && c != '\\'
    ensures UnescapeQuotesAndBraces(['\\', c] + y) == ['\\', c] + UnescapeQuotesAndBraces(y)
  {
    KeepPair(c, y, "\\\"", "\"");
    var y2 := UnescapeDoubleQuote(y);
    KeepPair(c, y2, "\\'", "'");
    var y3 := UnescapeSingleQuote(y2);
    KeepPair(c, y3, "\\{", "{");
    var y4 := UnescapeOpenBrace(y3);
    KeepPair(c, y4, "\\}", "}");
  }

  /** The first five steps of the chain agree with the one pass on `t`. */
  ghost predicate OnePassOn(t: string) {
    UnescapeQuotesAndBraces(ProtectDoubleBackslash(t)) == Protected(t)
  }

  /** A double backslash in front: both write the placeholder. */
  lemma OnePassDouble(rest: string)
    requires OnePassOn(rest)
    ensures OnePassOn("\\\\" + rest)
  {
    var t := "\\\\" + rest;
    assert t[2..] == rest;
    ReplaceAllMatchHere(rest, "\\\\", DoubleBackslashPlaceholder);
    PlaceholderHasNoBackslash();
    QuotesAndBracesKeepPrefix(DoubleBackslashPlaceholder, ProtectDoubleBackslash(rest));
  }

  /** An escaped quote or brace in front: both drop the backslash. */
  lemma OnePassEscape(c: char, rest: string)
    requires IsEscapable(c) && OnePassOn(rest)
    ensures OnePassOn(['\\', c] + rest)
  {
    var t := ['\\', c] + rest;
    assert t[2..] == rest;
    KeepPair(c, rest, "\\\\", DoubleBackslashPlaceholder);
    QuotesAndBracesOnEscape(c, ProtectDoubleBackslash(rest));
  }

  /** A backslash before any other character: both keep the pair. */
  lemma OnePassOther(c: char, rest: string)
    requires !IsEscapable(c) && c != '\\' && OnePassOn(rest)
    ensures OnePassOn(['\\', c] + rest)
  {
    var t := ['\\', c] + rest;
    assert t[2..] == rest;
    KeepPair(c, rest, "\\\\", DoubleBackslashPlaceholder);
    QuotesAndBracesOnOtherPair(c, ProtectDoubleBackslash(rest));
    var tail := t[1..];
    assert tail == [c] + rest;
    assert tail[1..] == rest;
    assert Protected(tail) == [c] + Protected(rest);
  }

  /** Any other character in front: both copy it. */
  lemma OnePassPlain(c: char, rest: string)
    requires c != '\\' && OnePassOn(rest)
    ensures OnePassOn([c] + rest)
  {
    var t := [c] + rest;
    assert t[1..] == rest;
    KeepChar(c, rest, "\\\\", DoubleBackslashPlaceholder);
    QuotesAndBracesKeepPrefix([c], ProtectDoubleBackslash(rest));
  }

  /**
   * The first five steps of the chain are the one pass that writes the
   * placeholder for each double backslash, on every input.
   */
  lemma {:induction false} ProtectThenUnescapeIsOnePass(t: string)
    ensures UnescapeQuotesAndBraces(ProtectDoubleBackslash(t)) == Protected(t)
    decreases |t|
  {
    if t == [] {
    } else if |t| >= 2 && t[0] == '\\' && t[1] == '\\' {
      ProtectThenUnescapeIsOnePass(t[2..]);
      assert t == "\\\\" + t[2..];
      OnePassDouble(t[2..]);
    } else if |t| >= 2 && t[0] == '\\' {
      ProtectThenUnescapeIsOnePass(t[2..]);
      assert t == ['\\', t[1]] + t[2..];
      if IsEscapable(t[1]) {
        OnePassEscape(t[1], t[2..]);
      } else {
        OnePassOther(t[1], t[2..]);
      }
    } else if t[0] == '\\' {
      assert t == "\\";
    } else {
      ProtectThenUnescapeIsOnePass(t[1..]);
      assert t == [t[0]] + t[1..];
      OnePassPlain(t[0], t[1..]);
    }
  }

  /** A pass that does not start at an underscore does not start with `__D`. */
  lemma ProtectedHead(t: string)
    requires t != [] ==> t[0] != '_'
    ensures !StartsWith("_" + Protected(t), DoubleBackslashPlaceholder)
  {
    var s := "_" + Protected(t);
    var S := DoubleBackslashPlaceholder;
    if |s| >= |S| {
      var k: nat;
      if |t| >= 2 && t[0] == '\\' && t[1] == '\\' {
        assert s[3] == S[2];
        k := 3;
      } else if |t| >= 2 && t[0] == '\\' && IsEscapable(t[1]) {
        assert s[1] == t[1];
        k := 1;
      } else {
        assert s[1] == t[0];
        k := 1;
      }
      assert s[..|S|][k] != S[k];
    }
  }

  /**
   * Restoring the placeholder after the one pass gives the reference
   * un-escape, as long as the text never has two underscores in a row
   * (otherwise text next to a placeholder could be mistaken for one).
   */
  lemma {:induction false} RestoreAfterOnePass(t: string)
    requires !HasDoubleUnderscore(t)
    ensures RestoreBackslash(Protected(t)) == Unescape(t)
    decreases |t|
  {
    var S := DoubleBackslashPlaceholder;
    if t == [] {
    } else if |t| >= 2 && t[0] == '\\' && t[1] == '\\' {
      assert !HasDoubleUnderscore(t[2..]) by {
        forall i | 0 <= i < |t[2..]| - 1 ensures !(t[2..][i] == '_' && t[2..][i + 1] == '_') {
          assert t[2..][i] == t[i + 2] && t[2..][i + 1] == t[i + 3];
        }
      }
      RestoreAfterOnePass(t[2..]);
      ReplaceAllMatchHere(Protected(t[2..]), S, "\\");
    } else if |t| >= 2 && t[0] == '\\' && IsEscapable(t[1]) {
      assert !HasDoubleUnderscore(t[2..]) by {
        forall i | 0 <= i < |t[2..]| - 1 ensures !(t[2..][i] == '_' && t[2..][i + 1] == '_') {
          assert t[2..][i] == t[i + 2] && t[2..][i + 1] == t[i + 3];
        }
      }
      RestoreAfterOnePass(t[2..]);
      KeepChar(t[1], Protected(t[2..]), S, "\\");
    } else {
      var rest := t[1..];
      assert !HasDoubleUnderscore(rest) by {
        forall i | 0 <= i < |rest| - 1 ensures !(rest[i] == '_' && rest[i + 1] == '_') {
          assert rest[i] == t[i + 1] && rest[i + 1] == t[i + 2];
        }
      }
      RestoreAfterOnePass(rest);
      if t[0] == '_' {
        assert rest != [] ==> rest[0] != '_' by {
          if rest != [] {
            assert t[1] == rest[0];
          }
        }
        ProtectedHead(rest);
        ReplaceAllNoMatchHere('_', Protected(rest), S, "\\");
      } else {
        KeepChar(t[0], Protected(rest), S, "\\");
      }
    }
  }

  /**
   * After entity decoding, the chain turns a double backslash into one
   * backslash and drops the backslash before a quote or a brace, in one
   * left-to-right pass, for all text without two underscores in a row.
   */
  lemma DecodeIsEntityDecodingThenUnescape(html: string)
    requires !HasDoubleUnderscore(DecodeEntities(html))
    ensures DecodeHTMLEntities(html) == Unescape(DecodeEntities(html))
  {
    ProtectThenUnescapeIsOnePass(DecodeEntities(html));
    RestoreAfterOnePass(DecodeEntities(html));
  }

  /**
   * Text without `&` and without a backslash is left alone, except that a
   * literal placeholder in it turns into a backslash.
   */
  lemma DecodePlainText(s: string)
    requires forall i :: 0 <= i < |s| ==> s[i] != '&' && s[i] != '\\'
    ensures DecodeHTMLEntities(s) == ReplaceAll(s, DoubleBackslashPlaceholder, "\\")
  {
    assert s + [] == s;
    assert DecodeEntities(s) == s;
    assert ProtectDoubleBackslash(s) == s by {
      ReplaceAllKeepsPrefix(s, [], "\\\\", DoubleBackslashPlaceholder);
    }
    assert UnescapeQuotesAndBraces(s) == s by {
      QuotesAndBracesKeepPrefix(s, []);
      assert UnescapeQuotesAndBraces([]) == [];
    }
  }

  /** Text without `&`, backslash or placeholder comes back unchanged. */
  lemma DecodeUnchanged(s: string)
    requires forall i :: 0 <= i < |s| ==> s[i] != '&' && s[i] != '\\'
    requires !Contains(s, DoubleBackslashPlaceholder)
    ensures DecodeHTMLEntities(s) == s
  {
    DecodePlainText(s);
    ReplaceAllAbsent(s, DoubleBackslashPlaceholder, "\\");
  }

  /** A literal placeholder in the input turns into a backslash. */
  lemma DecodeLiteralPlaceholder()
    ensures DecodeHTMLEntities(DoubleBackslashPlaceholder) == "\\"
  {
    DecodePlainText(DoubleBackslashPlaceholder);
    ReplaceAllMatchHere([], DoubleBackslashPlaceholder, "\\");
    assert DoubleBackslashPlaceholder + [] == DoubleBackslashPlaceholder;
  }

  // ---------------------------------------------------------------------
  // Decoding piece by piece, and the escaping scenarios of the controller tests

  /** Text without `&`, backslash or underscore is copied by decoding. */
  lemma DecodeKeepsPrefix(a: string, b: string)
    requires forall i :: 0 <= i < |a| ==> a[i] != '&' && a[i] != '\\' && a[i] != '_'
    ensures DecodeHTMLEntities(a + b) == a + DecodeHTMLEntities(b)
  {
    DecodeEntitiesKeepsPrefix(a, b);
    var t := DecodeEntities(b);
    ReplaceAllKeepsPrefix(a, t, "\\\\", DoubleBackslashPlaceholder);
    QuotesAndBracesKeepPrefix(a, ProtectDoubleBackslash(t));
    ReplaceAllKeepsPrefix(a, UnescapeQuotesAndBraces(ProtectDoubleBackslash(t)), DoubleBackslashPlaceholder, "\\");
  }

  /** An underscore followed by a character other than an underscore is not the placeholder. */
  lemma UnderscorePairNotPlaceholder(c: char, w: string)
    requires c != '_'
    ensures ReplaceAll(['_', c] + w, DoubleBackslashPlaceholder, "\\") == ['_', c] + ReplaceAll(w, DoubleBackslashPlaceholder, "\\")
  {
    var S := DoubleBackslashPlaceholder;
    assert ['_', c] + w == ['_'] + ([c] + w);
    assert !StartsWith(['_'] + ([c] + w), S) by {
      if |S| <= |['_'] + ([c] + w)| {
        assert (['_'] + ([c] + w))[..|S|][1] == c;
      }
    }
    ReplaceAllNoMatchHere('_', [c] + w, S, "\\");
    KeepChar(c, w, S, "\\");
  }

  /** A single underscore followed by another plain character is copied. */
  lemma DecodeUnderscore(c: char, b: string)
    requires c != '&' && c != '\\' && c != '_'
    ensures DecodeHTMLEntities(['_', c] + b) == ['_', c] + DecodeHTMLEntities(b)
  {
    var a := ['_', c];
    DecodeEntitiesKeepsPrefix(a, b);
    var t := DecodeEntities(b);
    ReplaceAllKeepsPrefix(a, t, "\\\\", DoubleBackslashPlaceholder);
    QuotesAndBracesKeepPrefix(a, ProtectDoubleBackslash(t));
    UnderscorePairNotPlaceholder(c, UnescapeQuotesAndBraces(ProtectDoubleBackslash(t)));
  }

  /** A backslash before a quote or a brace is dropped. */
  lemma DecodeEscaped(c: char, b: string)
    requires IsEscapable(c)
    ensures DecodeHTMLEntities(['\\', c] + b) == [c] + DecodeHTMLEntities(b)
  {
    DecodeEntitiesKeepsPrefix(['\\', c], b);
    var t := DecodeEntities(b);
    KeepPair(c, t, "\\\\", DoubleBackslashPlaceholder);
    QuotesAndBracesOnEscape(c, ProtectDoubleBackslash(t));
    KeepChar(c, UnescapeQuotesAndBraces(ProtectDoubleBackslash(t)), DoubleBackslashPlaceholder, "\\");
  }

  /** `&quot;` becomes a double quote. */
  lemma DecodeQuot(b: string)
    ensures DecodeHTMLEntities("&quot;" + b) == "\"" + DecodeHTMLEntities(b)
  {
    DecodeQuotEntity(b);
    var t := DecodeEntities(b);
    KeepChar('"', t, "\\\\", DoubleBackslashPlaceholder);
    QuotesAndBracesKeepPrefix("\"", ProtectDoubleBackslash(t));
    KeepChar('"', UnescapeQuotesAndBraces(ProtectDoubleBackslash(t)), DoubleBackslashPlaceholder, "\\");
  }

  /** Text that decoding copies character for character. */
  predicate PlainText(s: string) {
    forall i :: 0 <= i < |s| ==> s[i] != '&' && s[i] != '\\' && s[i] != '_'
  }

  lemma DecodePlainTail(tail: string)
    requires PlainText(tail)
    ensures DecodeHTMLEntities(tail) == tail
  {
    DecodeKeepsPrefix(tail, []);
    assert tail + [] == tail;
  }

  /**
   * Text without `&` and backslashes in which every underscore is followed
   * by a character other than an underscore: single underscores between
   * words, as in `article_title`, but never `__` and never a trailing one.
   */
  ghost predicate PlainName(s: string) {
    && (forall i :: 0 <= i < |s| ==> s[i] != '&' && s[i] != '\\')
    && (forall i, j :: 0 <= i < j < |s| && j == i + 1 && s[i] == '_' ==> s[j] != '_')
    && (s != [] ==> s[|s| - 1] != '_')
  }

  lemma PlainNameSuffix(n: string, k: nat)
    requires PlainName(n) && k <= |n|
    ensures PlainName(n[k..])
  {
    var m := n[k..];
    forall i, j | 0 <= i < j < |m| && j == i + 1 && m[i] == '_'
      ensures m[j] != '_'
    {
      assert n[i + k] == '_' && m[j] == n[j + k];
    }
    if m != [] {
      assert m[|m| - 1] == n[|n| - 1];
    }
  }

  lemma PlainTextIsPlainName(s: string)
    requires PlainText(s)
    ensures PlainName(s)
  {
  }

  /** The first unit of such text: one character, or an underscore and the character after it. */
  function NameHead(n: string): (k: nat)
    requires PlainName(n) && n != []
    ensures 0 < k <= |n|
  {
    if n[0] == '_' then 2 else 1
  }

  lemma DecodeNameHead(n: string, b: string)
    requires PlainName(n) && n != []
    ensures DecodeHTMLEntities(n + b) == n[..NameHead(n)] + DecodeHTMLEntities(n[NameHead(n)..] + b)
  {
    var k := NameHead(n);
    assert n + b == n[..k] + (n[k..] + b);
    if n[0] == '_' {
      assert n[..k] == ['_', n[1]];
      DecodeUnderscore(n[1], n[k..] + b);
    } else {
      assert n[..k] == [n[0]];
      DecodeKeepsPrefix(n[..k], n[k..] + b);
    }
  }

  /** One unit of such text is copied in front of the decoding of the rest. */
  lemma DecodeNameStep(n: string, b: string)
    requires PlainName(n) && n != []
    requires DecodeHTMLEntities(n[NameHead(n)..] + b) == n[NameHead(n)..] + DecodeHTMLEntities(b)
    ensures DecodeHTMLEntities(n + b) == n + DecodeHTMLEntities(b)
  {
    DecodeNameHead(n, b);
    SplitConcat(n, NameHead(n), DecodeHTMLEntities(b));
  }

  lemma SplitConcat(n: string, k: nat, x: string)
    requires k <= |n|
    ensures n[..k] + (n[k..] + x) == n + x
  {
    assert n == n[..k] + n[k..];
  }

  /** Decoding copies such text and goes on with what follows it. */
  lemma {:induction false} DecodeKeepsName(n: string, b: string)
    requires PlainName(n)
    ensures DecodeHTMLEntities(n + b) == n + DecodeHTMLEntities(b)
    decreases |n|
  {
    if n == [] {
      assert n + b == b;
    } else {
      PlainNameSuffix(n, NameHead(n));
      DecodeKeepsName(n[NameHead(n)..], b);
      DecodeNameStep(n, b);
    }
  }

  /**
   * Escaped placeholder braces around a name come out as a plain
   * placeholder (the escaped-curly-brackets scenario of
   * html-template.controller.spec.ts).
   */
  lemma {:induction false} DecodeEscapedPlaceholder(head: string, name: string, tail: string)
    requires PlainName(head) && PlainName(name) && PlainName(tail)
    ensures DecodeHTMLEntities(head + "\\{\\{" + name + "\\}\\}" + tail)
         == head + "{{" + name + "}}" + tail
  {
    var t0 := "\\}" + tail;
    var t1 := "\\}" + t0;
    var t4 := name + t1;
    var t5 := "\\{" + t4;
    var t6 := "\\{" + t5;
    assert head + "\\{\\{" + name + "\\}\\}" + tail == head + t6;
    calc {
      DecodeHTMLEntities(head + t6);
      { DecodeKeepsName(head, t6); }
      head + DecodeHTMLEntities(t6);
      { DecodeEscaped('{', t5); }
      head + ("{" + DecodeHTMLEntities(t5));
      { DecodeEscaped('{', t4); }
      head + ("{" + ("{" + DecodeHTMLEntities(t4)));
      { DecodeKeepsName(name, t1); }
      head + ("{" + ("{" + (name + DecodeHTMLEntities(t1))));
      { DecodeEscaped('}', t0); }
      head + ("{" + ("{" + (name + ("}" + DecodeHTMLEntities(t0)))));
      { DecodeEscaped('}', tail); }
      head + ("{" + ("{" + (name + ("}" + ("}" + DecodeHTMLEntities(tail))))));
      { DecodeKeepsName(tail, []); assert tail + [] == tail; }
      head + ("{" + ("{" + (name + ("}" + ("}" + tail)))));
      head + "{{" + name + "}}" + tail;
    }
  }

  lemma EscapedBracesExample()
    ensures DecodeHTMLEntities("<h1 style=\"text-align: center;\">" + "\\{\\{" + "article_title" + "\\}\\}" + "</h1>")
         == "<h1 style=\"text-align: center;\">" + "{{" + "article_title" + "}}" + "</h1>"
  {
    var head, tail := "<h1 style=\"text-align: center;\">", "</h1>";
    PlainTextIsPlainName(head);
    PlainTextIsPlainName(tail);
    assert PlainName("article_title");
    DecodeEscapedPlaceholder(head, "article_title", tail);
  }

  /**
   * `&quot;` around an attribute value comes out as real quotes (the HTML
   * entities scenario of html-template.controller.spec.ts).
   */
  lemma {:induction false} DecodeQuotedAttribute(head: string, value: string, tail: string)
    requires PlainText(head) && PlainText(value) && PlainText(tail)
    ensures DecodeHTMLEntities(head + "&quot;" + value + "&quot;" + tail)
         == head + "\"" + value + "\"" + tail
  {
    var t1 := "&quot;" + tail;
    var t2 := value + t1;
    var t3 := "&quot;" + t2;
    assert head + "&quot;" + value + "&quot;" + tail == head + t3;
    calc {
      DecodeHTMLEntities(head + t3);
      { DecodeKeepsPrefix(head, t3); }
      head + DecodeHTMLEntities(t3);
      { DecodeQuot(t2); }
      head + ("\"" + DecodeHTMLEntities(t2));
      { DecodeKeepsPrefix(value, t1); }
      head + ("\"" + (value + DecodeHTMLEntities(t1)));
      { DecodeQuot(tail); }
      head + ("\"" + (value + ("\"" + DecodeHTMLEntities(tail))));
      { DecodePlainTail(tail); }
      head + ("\"" + (value + ("\"" + tail)));
      head + "\"" + value + "\"" + tail;
    }
  }

  lemma QuotedStyleExample()
    ensures DecodeHTMLEntities("<h1 class=\"new-title\" style=" + "&quot;" + "text-align: center; font-size: 14px;" + "&quot;" + ">{{title}}</h1>")
         == "<h1 class=\"new-title\" style=" + "\"" + "text-align: center; font-size: 14px;" + "\"" + ">{{title}}</h1>"
  {
    DecodeQuotedAttribute("<h1 class=\"new-title\" style=", "text-align: center; font-size: 14px;", ">{{title}}</h1>");
  }

  // ---------------------------------------------------------------------
  // preprocessJsonData

  /** Decodes every string leaf; objects are copied with the same keys. */
  function PreprocessValue(v: Value): (w: Value)
    ensures v.Str? <==> w.Str?
    ensures v.Obj? <==> w.Obj?
    ensures v.Obj? ==> (|w.fields| == |v.fields|
      && forall i :: 0 <= i < |v.fields| ==> w.fields[i].key == v.fields[i].key)
    ensures v.Str? ==> w == Str(DecodeHTMLEntities(v.s))
    ensures !v.Str? && !v.Obj? ==> w == v
    decreases v, 1
  {
    match v
    case Str(s) => Str(DecodeHTMLEntities(s))
    case Obj(fs) => Obj(PreprocessJsonData(fs))
    case _ => v
  }

  /** `preprocessJsonData`: same keys in the same order, every value preprocessed. */
  function PreprocessJsonData(fs: seq<Field>): (r: seq<Field>)
    ensures |r| == |fs|
    ensures forall i :: 0 <= i < |fs| ==> r[i].key == fs[i].key
    decreases Obj(fs), 0
  {
    seq(|fs|, i requires 0 <= i < |fs| => Field(fs[i].key, PreprocessValue(fs[i].value)))
  }

  /**
   * `w` is `v` with every string leaf decoded: a string becomes its
   * decoding, an object keeps its keys in order and holds the decoded
   * copies of its values, anything else is kept as it is.
   */
  predicate DecodedCopy(v: Value, w: Value)
    decreases v
  {
    match v
    case Str(s) => w == Str(DecodeHTMLEntities(s))
    case Obj(fs) =>
      && w.Obj? && |w.fields| == |fs|
      && forall i :: 0 <= i < |fs| ==>
           w.fields[i].key == fs[i].key && DecodedCopy(fs[i].value, w.fields[i].value)
    case _ => w == v
  }

  /** Preprocessing decodes every string leaf, at every depth, and nothing else. */
  lemma {:induction false} PreprocessDecodesLeaves(v: Value)
    ensures DecodedCopy(v, PreprocessValue(v))
    decreases v
  {
    match v
    case Str(_) =>
    case Obj(fs) =>
      var w := PreprocessValue(v);
      assert w == Obj(PreprocessJsonData(fs));
      forall i | 0 <= i < |fs|
        ensures DecodedCopy(fs[i].value, w.fields[i].value)
      {
        assert w.fields[i].value == PreprocessValue(fs[i].value);
        PreprocessDecodesLeaves(fs[i].value);
      }
    case _ =>
  }

  /** Every string leaf is free of `&`, backslashes and the placeholder. */
  predicate PlainValue(v: Value)
    decreases v, 1
  {
    match v
    case Str(s) => (forall i :: 0 <= i < |s| ==> s[i] != '&' && s[i] != '\\')
                   && !Contains(s, DoubleBackslashPlaceholder)
    case Obj(fs) => PlainFields(fs)
    case _ => true
  }

  predicate PlainFields(fs: seq<Field>)
    decreases Obj(fs), 0
  {
    forall i :: 0 <= i < |fs| ==> PlainValue(fs[i].value)
  }

  /** Data that needs no decoding comes through preprocessing unchanged. */
  lemma {:induction false} PreprocessPlainIsIdentity(v: Value)
    requires PlainValue(v)
    ensures PreprocessValue(v) == v
    decreases v
  {
    match v
    case Str(s) => DecodeUnchanged(s);
    case Obj(fs) =>
      forall i | 0 <= i < |fs|
        ensures PreprocessJsonData(fs)[i] == fs[i]
      {
        PreprocessPlainIsIdentity(fs[i].value);
      }
    case _ =>
  }
}

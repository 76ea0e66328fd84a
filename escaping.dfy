/** The HTML escaper `escape` of myapp/models.py: five chained
    `str.replace` calls, `&` first. */
module Escaping {

  /** Python `s.replace(c, rep)` for a one-character pattern: every
      occurrence of `c`, left to right, is replaced by `rep`. */
  function ReplaceChar(s: string, c: char, rep: string): (r: string)
    ensures |rep| >= 1 ==> |r| >= |s|
  {
    if s == [] then []
    else (if s[0] == c then rep else [s[0]]) + ReplaceChar(s[1..], c, rep)
  }

  /** `escape(s)` exactly as written: `&`, then `<`, `>`, `'`, `"`. */
  function Escape(s: string): (r: string)
    ensures |r| >= |s|
  {
    var s1 := ReplaceChar(s, '&', "&amp;");
    var s2 := ReplaceChar(s1, '<', "&lt;");
    var s3 := ReplaceChar(s2, '>', "&gt;");
    var s4 := ReplaceChar(s3, '\'', "&#39;");
    ReplaceChar(s4, '"', "&quot;")
  }

  /** The five characters the escaper neutralises. */
  predicate IsSpecial(c: char) {
    c == '&' || c == '<' || c == '>' || c == '\'' || c == '"'
  }

  /** The characters that must not reach an HTML or script context unescaped. */
  predicate IsMarkup(c: char) {
    c == '<' || c == '>' || c == '\'' || c == '"'
  }

  /** The entity each character stands for after escaping. */
  function EscapeChar(c: char): (r: string)
  {
    match c
    case '&' => "&amp;"
    case '<' => "&lt;"
    case '>' => "&gt;"
    case '\'' => "&#39;"
    case '"' => "&quot;"
    case _ => [c]
  }

  /** Reference definition: one left-to-right pass that replaces each input
      character by its entity, never looking at what it has produced. */
  function EscapeEachChar(s: string): (r: string)
  {
    if s == [] then [] else EscapeChar(s[0]) + EscapeEachChar(s[1..])
  }

  lemma {:induction false} ReplaceCharConcat(a: string, b: string, c: char, rep: string)
    ensures ReplaceChar(a + b, c, rep) == ReplaceChar(a, c, rep) + ReplaceChar(b, c, rep)
  {
    if a == [] {
      assert a + b == b;
    } else {
      assert (a + b)[0] == a[0];
      assert (a + b)[1..] == a[1..] + b;
      ReplaceCharConcat(a[1..], b, c, rep);
    }
  }

  /** The chained replacements distribute over concatenation. */
  lemma EscapeConcat(a: string, b: string)
    ensures Escape(a + b) == Escape(a) + Escape(b)
  {
    var a1, b1 := ReplaceChar(a, '&', "&amp;"), ReplaceChar(b, '&', "&amp;");
    ReplaceCharConcat(a, b, '&', "&amp;");
    var a2, b2 := ReplaceChar(a1, '<', "&lt;"), ReplaceChar(b1, '<', "&lt;");
    ReplaceCharConcat(a1, b1, '<', "&lt;");
    var a3, b3 := ReplaceChar(a2, '>', "&gt;"), ReplaceChar(b2, '>', "&gt;");
    ReplaceCharConcat(a2, b2, '>', "&gt;");
    var a4, b4 := ReplaceChar(a3, '\'', "&#39;"), ReplaceChar(b3, '\'', "&#39;");
    ReplaceCharConcat(a3, b3, '\'', "&#39;");
    ReplaceCharConcat(a4, b4, '"', "&quot;");
  }

  lemma {:induction false} ReplaceCharAbsent(s: string, c: char, rep: string)
    requires c !in s
    ensures ReplaceChar(s, c, rep) == s
  {
    if s != [] {
      assert s[0] != c;
      assert c !in s[1..] by { assert forall x :: x in s[1..] ==> x in s; }
      ReplaceCharAbsent(s[1..], c, rep);
    }
  }

  lemma ReplaceCharSingle(c: char, x: char, rep: string)
    ensures ReplaceChar([c], x, rep) == if c == x then rep else [c]
  {
    assert [c][0] == c && [c][1..] == [];
  }

  lemma EscapePlainChar(c: char)
    requires !IsSpecial(c)
    ensures Escape([c]) == [c]
  {
    ReplaceCharAbsent([c], '&', "&amp;");
    ReplaceCharAbsent([c], '<', "&lt;");
    ReplaceCharAbsent([c], '>', "&gt;");
    ReplaceCharAbsent([c], '\'', "&#39;");
    ReplaceCharAbsent([c], '"', "&quot;");
  }

  // The replacements still to come after the k-th one, applied to a string
  // that holds none of their characters, leave it unchanged.

  lemma AbsentAfterAmpersand(e: string)
    requires '<' !in e && '>' !in e && '\'' !in e && '"' !in e
    ensures ReplaceChar(ReplaceChar(ReplaceChar(ReplaceChar(e, '<', "&lt;"), '>', "&gt;"), '\'', "&#39;"), '"', "&quot;") == e
  {
    ReplaceCharAbsent(e, '<', "&lt;");
    AbsentAfterLess(e);
  }

  lemma AbsentAfterLess(e: string)
    requires '>' !in e && '\'' !in e && '"' !in e
    ensures ReplaceChar(ReplaceChar(ReplaceChar(e, '>', "&gt;"), '\'', "&#39;"), '"', "&quot;") == e
  {
    ReplaceCharAbsent(e, '>', "&gt;");
    AbsentAfterGreater(e);
  }

  lemma AbsentAfterGreater(e: string)
    requires '\'' !in e && '"' !in e
    ensures ReplaceChar(ReplaceChar(e, '\'', "&#39;"), '"', "&quot;") == e
  {
    ReplaceCharAbsent(e, '\'', "&#39;");
    ReplaceCharAbsent(e, '"', "&quot;");
  }

  lemma EscapeAmpersand(c: char)
    requires c == '&'
    ensures Escape([c]) == "&amp;"
  {
    ReplaceCharSingle(c, '&', "&amp;");
    AbsentAfterAmpersand("&amp;");
  }

  lemma EscapeLess(c: char)
    requires c == '<'
    ensures Escape([c]) == "&lt;"
  {
    ReplaceCharSingle(c, '&', "&amp;");
    ReplaceCharSingle(c, '<', "&lt;");
    AbsentAfterLess("&lt;");
  }

  lemma EscapeGreater(c: char)
    requires c == '>'
    ensures Escape([c]) == "&gt;"
  {
    ReplaceCharSingle(c, '&', "&amp;");
    ReplaceCharSingle(c, '<', "&lt;");
    ReplaceCharSingle(c, '>', "&gt;");
    AbsentAfterGreater("&gt;");
  }

  lemma EscapeApostrophe(c: char)
    requires c == '\''
    ensures Escape([c]) == "&#39;"
  {
    ReplaceCharSingle(c, '&', "&amp;");
    ReplaceCharSingle(c, '<', "&lt;");
    ReplaceCharSingle(c, '>', "&gt;");
    ReplaceCharSingle(c, '\'', "&#39;");
    ReplaceCharAbsent("&#39;", '"', "&quot;");
  }

  lemma EscapeQuote(c: char)
    requires c == '"'
    ensures Escape([c]) == "&quot;"
  {
    ReplaceCharSingle(c, '&', "&amp;");
    ReplaceCharSingle(c, '<', "&lt;");
    ReplaceCharSingle(c, '>', "&gt;");
    ReplaceCharSingle(c, '\'', "&#39;");
    ReplaceCharSingle(c, '"', "&quot;");
  }

  lemma EscapeOneChar(c: char)
    ensures Escape([c]) == EscapeChar(c)
  {
    if c == '&' {
      EscapeAmpersand(c);
    } else if c == '<' {
      EscapeLess(c);
    } else if c == '>' {
      EscapeGreater(c);
    } else if c == '\'' {
      EscapeApostrophe(c);
    } else if c == '"' {
      EscapeQuote(c);
    } else {
      EscapePlainChar(c);
    }
  }

  /** No double escaping: because `&` is replaced first, the `&` introduced
      by the later replacements is never escaped again, and the chain equals
      the one-pass per-character escape. */
  lemma {:induction false} EscapeIsSinglePass(s: string)
    ensures Escape(s) == EscapeEachChar(s)
  {
    if s == [] {
    } else {
      assert s == [s[0]] + s[1..];
      EscapeConcat([s[0]], s[1..]);
      EscapeOneChar(s[0]);
      EscapeIsSinglePass(s[1..]);
    }
  }

  lemma {:induction false} EscapeEachCharHasNoMarkup(s: string)
    ensures forall i :: 0 <= i < |EscapeEachChar(s)| ==> !IsMarkup(EscapeEachChar(s)[i])
  {
    if s != [] {
      EscapeEachCharHasNoMarkup(s[1..]);
      var h, t := EscapeChar(s[0]), EscapeEachChar(s[1..]);
      forall i | 0 <= i < |h + t| ensures !IsMarkup((h + t)[i]) {
        if i >= |h| { assert (h + t)[i] == t[i - |h|]; }
      }
    }
  }

  /** The output alphabet: an escaped string contains no `<`, `>`, `'` or `"`. */
  lemma EscapeHasNoMarkup(s: string)
    ensures forall i :: 0 <= i < |Escape(s)| ==> !IsMarkup(Escape(s)[i])
  {
    EscapeIsSinglePass(s);
    EscapeEachCharHasNoMarkup(s);
  }

  lemma {:induction false} EscapeEachCharKeepsPlain(s: string)
    requires forall i :: 0 <= i < |s| ==> !IsSpecial(s[i])
    ensures EscapeEachChar(s) == s
  {
    if s != [] {
      assert !IsSpecial(s[0]);
      EscapeEachCharKeepsPlain(s[1..]);
    }
  }

  lemma {:induction false} EscapeEachCharLength(s: string)
    ensures |EscapeEachChar(s)| >= |s|
  {
    if s != [] { EscapeEachCharLength(s[1..]); }
  }

  lemma {:induction false} EscapeEachCharGrows(s: string, i: nat)
    requires i < |s| && IsSpecial(s[i])
    ensures |EscapeEachChar(s)| > |s|
  {
    if i == 0 {
      EscapeEachCharLength(s[1..]);
    } else {
      EscapeEachCharGrows(s[1..], i - 1);
    }
  }

  /** Escaping changes a string exactly when it holds one of the five
      special characters. */
  lemma EscapeIdentity(s: string)
    ensures Escape(s) == s <==> forall i :: 0 <= i < |s| ==> !IsSpecial(s[i])
  {
    EscapeIsSinglePass(s);
    if forall i :: 0 <= i < |s| ==> !IsSpecial(s[i]) {
      EscapeEachCharKeepsPlain(s);
    } else {
      var i :| 0 <= i < |s| && IsSpecial(s[i]);
      EscapeEachCharGrows(s, i);
    }
  }

  // ----- the inverse: escaping loses no information -----

  predicate StartsWith(s: string, p: string) {
    |s| >= |p| && s[..|p|] == p
  }

  /** Decodes the five entities `escape` produces; every other character,
      including a stray `&`, is kept. */
  function Unescape(s: string): (r: string)
    decreases |s|
  {
    if s == [] then []
    else if s[0] != '&' then [s[0]] + Unescape(s[1..])
    else if StartsWith(s, "&amp;") then "&" + Unescape(s[5..])
    else if StartsWith(s, "&lt;") then "<" + Unescape(s[4..])
    else if StartsWith(s, "&gt;") then ">" + Unescape(s[4..])
    else if StartsWith(s, "&#39;") then "'" + Unescape(s[5..])
    else if StartsWith(s, "&quot;") then "\"" + Unescape(s[6..])
    else "&" + Unescape(s[1..])
  }

  lemma UnescapeStep(c: char, rest: string)
    ensures Unescape(EscapeChar(c) + rest) == [c] + Unescape(rest)
  {
    var e := EscapeChar(c) + rest;
    var n := |EscapeChar(c)|;
    assert e[..n] == EscapeChar(c) && e[n..] == rest;
    if c == '&' {
    } else if c == '<' {
      assert e[1] == 'l';
    } else if c == '>' {
      assert e[1] == 'g';
    } else if c == '\'' {
      assert e[1] == '#';
    } else if c == '"' {
      assert e[1] == 'q';
    } else {
      assert e[0] == c;
    }
  }

  /** Round trip: `Unescape(Escape(s)) == s`, so escaping is injective. */
  lemma {:induction false} EscapeRoundTrip(s: string)
    ensures Unescape(Escape(s)) == s
  {
    EscapeIsSinglePass(s);
    EachCharRoundTrip(s);
  }

  lemma {:induction false} EachCharRoundTrip(s: string)
    ensures Unescape(EscapeEachChar(s)) == s
  {
    if s != [] {
      UnescapeStep(s[0], EscapeEachChar(s[1..]));
      EachCharRoundTrip(s[1..]);
    }
  }
}

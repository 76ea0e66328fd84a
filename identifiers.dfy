/** The identifier sanitiser `clean` of myapp/models.py and the two ASCII
    case conversions the loader applies to its result (`capitalize` for the
    class name, `lower` for the registry key). */
module Identifiers {

  /** The character class `[a-zA-Z0-9_]`: everything else is deleted by `clean`. */
  predicate IsIdentChar(c: char) {
    ('a' <= c <= 'z') || ('A' <= c <= 'Z') || ('0' <= c <= '9') || c == '_'
  }

  predicate IsIdentifier(s: string) {
    forall i :: 0 <= i < |s| ==> IsIdentChar(s[i])
  }

  /** The characters Python's `str.isspace` accepts, i.e. what `str.strip()` trims. */
  predicate IsSpace(c: char) {
    c == ' ' || ('\U{9}' <= c <= '\U{d}') || ('\U{1c}' <= c <= '\U{1f}')
    || c == '\U{85}' || c == '\U{a0}' || c == '\U{1680}'
    || ('\U{2000}' <= c <= '\U{200a}') || c == '\U{2028}' || c == '\U{2029}'
    || c == '\U{202f}' || c == '\U{205f}' || c == '\U{3000}'
  }

  /** `re.compile("[^a-zA-Z0-9_]").sub("", s)`: delete every character outside the class. */
  function DropNonIdent(s: string): (r: string)
    ensures IsIdentifier(r)
    ensures |r| <= |s|
  {
    if s == [] then []
    else (if IsIdentChar(s[0]) then [s[0]] else []) + DropNonIdent(s[1..])
  }

  function TrimLeft(s: string): string {
    if s != [] && IsSpace(s[0]) then TrimLeft(s[1..]) else s
  }

  function TrimRight(s: string): string {
    if s != [] && IsSpace(s[|s| - 1]) then TrimRight(s[..|s| - 1]) else s
  }

  /** Python `str.strip()` with no argument. */
  function Strip(s: string): string {
    TrimRight(TrimLeft(s))
  }

  /** `clean(s)`: the character-class substitution followed by `strip()`. */
  function Clean(s: string): (r: string)
    ensures IsIdentifier(r)
    ensures |r| <= |s|
  {
    StripKeepsIdentifiers(DropNonIdent(s));
    Strip(DropNonIdent(s))
  }

  /** No identifier character is whitespace, so the `strip()` in `clean` never removes anything. */
  lemma StripKeepsIdentifiers(s: string)
    requires IsIdentifier(s)
    ensures Strip(s) == s
  {
    if s != [] {
      assert IsIdentChar(s[0]) && IsIdentChar(s[|s| - 1]);
    }
  }

  /** `clean` deletes exactly the characters outside the class: it is the
      character filter, and on its own output the `strip` step does nothing. */
  lemma CleanIsFilter(s: string)
    ensures Clean(s) == DropNonIdent(s)
  {
    StripKeepsIdentifiers(DropNonIdent(s));
  }

  lemma {:induction false} DropNonIdentConcat(a: string, b: string)
    ensures DropNonIdent(a + b) == DropNonIdent(a) + DropNonIdent(b)
  {
    if a != [] {
      assert (a + b)[0] == a[0];
      assert (a + b)[1..] == a[1..] + b;
      DropNonIdentConcat(a[1..], b);
    } else {
      assert a + b == b;
    }
  }

  /** `clean` distributes over concatenation. */
  lemma CleanConcat(a: string, b: string)
    ensures Clean(a + b) == Clean(a) + Clean(b)
  {
    CleanIsFilter(a + b);
    CleanIsFilter(a);
    CleanIsFilter(b);
    DropNonIdentConcat(a, b);
  }

  lemma {:induction false} DropNonIdentFixes(s: string)
    ensures DropNonIdent(s) == s <==> IsIdentifier(s)
  {
    if s != [] {
      DropNonIdentFixes(s[1..]);
      if !IsIdentChar(s[0]) {
        // the output is shorter than the input
        assert |DropNonIdent(s)| == |DropNonIdent(s[1..])| <= |s| - 1;
      } else {
        assert IsIdentifier(s) <==> IsIdentifier(s[1..]) by {
          if IsIdentifier(s[1..]) {
            forall i | 0 <= i < |s| ensures IsIdentChar(s[i]) {
              if i > 0 { assert s[i] == s[1..][i - 1]; }
            }
          }
          if IsIdentifier(s) {
            forall i | 0 <= i < |s[1..]| ensures IsIdentChar(s[1..][i]) {
              assert s[1..][i] == s[i + 1];
            }
          }
        }
      }
    }
  }

  /** `clean` is the identity exactly on strings already in the class
      (both directions). */
  lemma CleanFixesExactlyIdentifiers(s: string)
    ensures Clean(s) == s <==> IsIdentifier(s)
  {
    CleanIsFilter(s);
    DropNonIdentFixes(s);
  }

  /** `clean` is idempotent. */
  lemma CleanIdempotent(s: string)
    ensures Clean(Clean(s)) == Clean(s)
  {
    CleanFixesExactlyIdentifiers(Clean(s));
  }

  lemma {:induction false} DropNonIdentCounts(s: string, c: char)
    ensures multiset(DropNonIdent(s))[c] == if IsIdentChar(c) then multiset(s)[c] else 0
  {
    if s != [] {
      DropNonIdentCounts(s[1..], c);
      assert s == [s[0]] + s[1..];
      assert multiset(s) == multiset([s[0]]) + multiset(s[1..]);
      var head := if IsIdentChar(s[0]) then [s[0]] else [];
      assert multiset(DropNonIdent(s)) == multiset(head) + multiset(DropNonIdent(s[1..]));
    }
  }

  /** `clean(s)` keeps every occurrence of every class character of `s` and
      nothing else; together with `CleanConcat` this pins it down as the
      subsequence of `s` made of those characters. */
  lemma CleanCounts(s: string, c: char)
    ensures multiset(Clean(s))[c] == if IsIdentChar(c) then multiset(s)[c] else 0
  {
    CleanIsFilter(s);
    DropNonIdentCounts(s, c);
  }

  // ----- ASCII case conversion (exact on identifier strings) -----

  function UpperChar(c: char): (u: char) {
    if 'a' <= c <= 'z' then (c as int - 32) as char else c
  }

  function LowerChar(c: char): (l: char) {
    if 'A' <= c <= 'Z' then (c as int + 32) as char else c
  }

  /** Python `str.lower()` restricted to ASCII letters. */
  function Lower(s: string): (r: string)
    ensures |r| == |s|
    ensures forall i :: 0 <= i < |s| ==> r[i] == LowerChar(s[i])
  {
    if s == [] then [] else [LowerChar(s[0])] + Lower(s[1..])
  }

  /** Python `str.capitalize()` restricted to ASCII letters: upper-case the
      first character and lower-case all the others. */
  function Capitalize(s: string): (r: string)
    ensures |r| == |s|
    ensures |s| > 0 ==> r[0] == UpperChar(s[0])
    ensures forall i :: 1 <= i < |s| ==> r[i] == LowerChar(s[i])
  {
    if s == [] then [] else [UpperChar(s[0])] + Lower(s[1..])
  }

  /** Lower-casing twice is lower-casing once. */
  lemma LowerIdempotent(s: string)
    ensures Lower(Lower(s)) == Lower(s)
  {
    forall i | 0 <= i < |s| ensures Lower(Lower(s))[i] == Lower(s)[i] {
      assert Lower(s)[i] == LowerChar(s[i]);
    }
  }

  /** Capitalising does not change the lower-case form, so the registry key
      `model_name.lower()` is the lower-case of the cleaned entity name. */
  lemma LowerOfCapitalize(s: string)
    ensures Lower(Capitalize(s)) == Lower(s)
  {
    if s != [] {
      var r := Capitalize(s);
      assert Lower(r)[0] == LowerChar(UpperChar(s[0])) == LowerChar(s[0]);
      forall i | 1 <= i < |s| ensures Lower(r)[i] == Lower(s)[i] {
        assert r[i] == Lower(s[1..])[i - 1] == LowerChar(s[i]);
      }
    }
  }

  /** Capitalising keeps a cleaned name inside the class `[a-zA-Z0-9_]`, and
      only its first letter can be upper case. */
  lemma CapitalizeKeepsIdentifier(s: string)
    requires IsIdentifier(s)
    ensures IsIdentifier(Capitalize(s))
    ensures forall i :: 1 <= i < |s| ==> !('A' <= Capitalize(s)[i] <= 'Z')
  {
    if s != [] {
      var r := Capitalize(s);
      assert IsIdentChar(s[0]);
      forall i | 1 <= i < |s| ensures IsIdentChar(r[i]) && !('A' <= r[i] <= 'Z') {
        assert IsIdentChar(s[i]);
        assert r[i] == Lower(s[1..])[i - 1] == LowerChar(s[i]);
      }
    }
  }
}

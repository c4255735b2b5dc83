/** The few Python string operations the configurator relies on: `str.strip()`
    (with and without a character argument), `str.lower()`, `str.startswith`
    and the substring test `needle in haystack`. */
module Text {

  /** The characters Python's `str.isspace()` accepts; `str.strip()` with no
      argument removes exactly these from both ends. */
  const Whitespace: set<char> := {
    '\t', '\n', '\U{B}', '\U{C}', '\r', '\U{1C}', '\U{1D}', '\U{1E}', '\U{1F}', ' ',
    '\U{85}', '\U{A0}', '\U{1680}',
    '\U{2000}', '\U{2001}', '\U{2002}', '\U{2003}', '\U{2004}', '\U{2005}',
    '\U{2006}', '\U{2007}', '\U{2008}', '\U{2009}', '\U{200A}',
    '\U{2028}', '\U{2029}', '\U{202F}', '\U{205F}', '\U{3000}'
  }

  /** Python's `s.strip(chars)`: drop every leading and trailing character
      that is in `cs`. What that leaves is stated by `StripCharsSpec`. */
  function StripChars(s: string, cs: set<char>): string
    decreases |s|
  {
    if s != [] && s[0] in cs then StripChars(s[1..], cs)
    else if s != [] && s[|s| - 1] in cs then StripChars(s[..|s| - 1], cs)
    else s
  }

  /** The slice `s[i..j]` is what is left once everything before `i` and
      from `j` on, all of it in `cs`, is cut away. */
  predicate CutAtEnds(s: string, cs: set<char>, i: int, j: int) {
    && 0 <= i <= j <= |s|
    && (forall k :: 0 <= k < i ==> s[k] in cs)
    && (forall k :: j <= k < |s| ==> s[k] in cs)
  }

  /** What stripping leaves is a slice of `s` cut at both ends. */
  lemma {:induction false} StripCharsCut(s: string, cs: set<char>)
    decreases |s|
    ensures exists i, j :: CutAtEnds(s, cs, i, j) && StripChars(s, cs) == s[i..j]
  {
    if s != [] && s[0] in cs {
      var t := s[1..];
      StripCharsCut(t, cs);
      var i, j :| CutAtEnds(t, cs, i, j) && StripChars(t, cs) == t[i..j];
      assert t[i..j] == s[i + 1..j + 1];
      assert forall k :: 1 <= k < |s| ==> s[k] == t[k - 1];
      assert CutAtEnds(s, cs, i + 1, j + 1);
    } else if s != [] && s[|s| - 1] in cs {
      var t := s[..|s| - 1];
      StripCharsCut(t, cs);
      var i, j :| CutAtEnds(t, cs, i, j) && StripChars(t, cs) == t[i..j];
      assert t[i..j] == s[i..j];
      assert CutAtEnds(s, cs, i, j);
    } else {
      assert s[0..|s|] == s;
      assert CutAtEnds(s, cs, 0, |s|);
    }
  }

  /** Stripping cuts a run of `cs` characters off each end and nothing
      else: the result is a slice of `s` whose cut-away prefix and suffix are
      all in `cs` and whose own ends are not; it is empty exactly when every
      character is in `cs`. */
  lemma {:induction false} StripCharsSpec(s: string, cs: set<char>)
    decreases |s|
    ensures var r := StripChars(s, cs);
      && |r| <= |s|
      && (exists i, j :: CutAtEnds(s, cs, i, j) && r == s[i..j])
      && (r == [] <==> forall k :: 0 <= k < |s| ==> s[k] in cs)
      && (r != [] ==> r[0] !in cs && r[|r| - 1] !in cs)
      && (forall k :: 0 <= k < |s| && s[k] !in cs ==> s[k] in r)
      && (forall c :: c in r ==> c in s)
  {
    StripCharsCut(s, cs);
    if s != [] && s[0] in cs {
      StripCharsSpec(s[1..], cs);
      assert forall k :: 1 <= k < |s| ==> s[k] == s[1..][k - 1];
    } else if s != [] && s[|s| - 1] in cs {
      StripCharsSpec(s[..|s| - 1], cs);
      assert forall k :: 0 <= k < |s| - 1 ==> s[k] == s[..|s| - 1][k];
    }
  }

  /** Python's `s.strip()`. */
  function Strip(s: string): string {
    StripChars(s, Whitespace)
  }

  /** A string with neither end in `cs` is left as it is. */
  lemma StripCharsKeepsTrimmed(s: string, cs: set<char>)
    requires s == [] || (s[0] !in cs && s[|s| - 1] !in cs)
    ensures StripChars(s, cs) == s
  {
  }

  function LowerChar(c: char): char {
    if 'A' <= c <= 'Z' then (c as int + 32) as char else c
  }

  /** Python's `s.lower()`, on ASCII letters; every other character is kept. */
  function Lower(s: string): string {
    seq(|s|, k requires 0 <= k < |s| => LowerChar(s[k]))
  }

  /** Python's `s.startswith(prefix)`. */
  predicate StartsWith(s: string, prefix: string) {
    |prefix| <= |s| && s[..|prefix|] == prefix
  }

  /** `needle` appears in `hay` starting at position `i`. */
  predicate Occurs(needle: string, hay: string, i: int) {
    0 <= i && i + |needle| <= |hay| && hay[i..i + |needle|] == needle
  }

  /** Python's `needle in hay` for two strings. */
  function Contains(hay: string, needle: string): (b: bool)
    decreases |hay|
    ensures b <==> exists i :: Occurs(needle, hay, i)
  {
    if |needle| > |hay| then
      false
    else if hay[..|needle|] == needle then
      assert Occurs(needle, hay, 0);
      true
    else
      var b := Contains(hay[1..], needle);
      if b then
        var i :| Occurs(needle, hay[1..], i);
        assert Occurs(needle, hay, i + 1);
        b
      else
        assert forall i :: Occurs(needle, hay, i) ==> i >= 1 && Occurs(needle, hay[1..], i - 1);
        b
  }

  /** Every character of a contained string is a character of the string
      containing it. */
  lemma ContainsKeepsChars(hay: string, needle: string)
    ensures Contains(hay, needle) ==> forall c :: c in needle ==> c in hay
  {
    if Contains(hay, needle) {
      var i :| Occurs(needle, hay, i);
      forall c | c in needle
        ensures c in hay
      {
        var j :| 0 <= j < |needle| && needle[j] == c;
        assert hay[i + j] == hay[i..i + |needle|][j];
      }
    }
  }

  /** Index of the first occurrence of `c` in `s`. */
  function IndexOf(s: string, c: char): (i: nat)
    requires c in s
    ensures i < |s| && s[i] == c
    ensures c !in s[..i]
  {
    if s[0] == c then 0 else 1 + IndexOf(s[1..], c)
  }
}

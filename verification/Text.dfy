/** Text operations of the host language that several modules need. */
module Text {
  /** What `str.isspace`, `str.strip` and `\s` call whitespace. */
  predicate IsSpace(c: char) {
    '\t' <= c <= '\r' || '\U{1c}' <= c <= ' ' || c == '\U{85}' || c == '\U{a0}' || c == '\U{1680}' ||
    '\U{2000}' <= c <= '\U{200a}' || c == '\U{2028}' || c == '\U{2029}' || c == '\U{202f}' || c == '\U{205f}' ||
        c == '\U{3000}'
  }

  predicate StartsWith(s: string, prefix: string) {
    |prefix| <= |s| && s[..|prefix|] == prefix
  }

  lemma ShorterPrefix(s: string, prefix: string, longer: string)
    requires prefix <= longer
    ensures StartsWith(s, longer) ==> StartsWith(s, prefix)
  {
  }

  predicate Contains(s: string, part: string) {
    exists i {:trigger s[i..]} | 0 <= i <= |s| :: StartsWith(s[i..], part)
  }

  predicate NoSpace(s: string) {
    forall c :: c in s ==> !IsSpace(c)
  }

  /** The length of the longest prefix of s made of whitespace. */
  function SpaceRun(s: string): (n: nat)
    ensures n <= |s|
  {
    if s == [] || !IsSpace(s[0]) then 0 else 1 + SpaceRun(s[1..])
  }

  /** The length of the longest prefix of s free of whitespace. */
  function WordRun(s: string): (n: nat)
    ensures n <= |s|
  {
    if s == [] || IsSpace(s[0]) then 0 else 1 + WordRun(s[1..])
  }

  lemma {:induction false} WordRunIs(s: string)
    ensures var n := WordRun(s);
            (forall i :: 0 <= i < n ==> !IsSpace(s[i])) && (n < |s| ==> IsSpace(s[n]))
    decreases |s|
  {
    hide IsSpace;
    if s != [] && !IsSpace(s[0]) { WordRunIs(s[1..]); }
  }

  function TrimEnd(s: string): string {
    if s == [] || !IsSpace(s[|s| - 1]) then s else TrimEnd(s[..|s| - 1])
  }

  /** `str.strip()` */
  function Strip(s: string): string { TrimEnd(s[SpaceRun(s)..]) }

  /** `s.split(c)[0]` */
  function Before(s: string, c: char): string {
    if s == [] || s[0] == c then [] else [s[0]] + Before(s[1..], c)
  }

  lemma StripWord(s: string)
    requires NoSpace(s)
    ensures Strip(s) == s
  {
  }

  lemma {:induction false} BeforeAbsent(s: string, c: char)
    requires c !in s
    ensures Before(s, c) == s
    decreases |s|
  {
    if s != [] { BeforeAbsent(s[1..], c); }
  }

  /** A word followed by whitespace, or by nothing, is found whole. */
  lemma {:induction false} WordRunOf(word: string, rest: string)
    requires NoSpace(word) && (rest == [] || IsSpace(rest[0]))
    ensures WordRun(word + rest) == |word|
    decreases |word|
  {
    if word != [] {
      assert word[0] in word && (word + rest)[1..] == word[1..] + rest;
      WordRunOf(word[1..], rest);
    } else {
      assert word + rest == rest;
    }
  }

  lemma SpaceRunOne(rest: string)
    requires rest != [] && !IsSpace(rest[0])
    ensures SpaceRun(" " + rest) == 1
  {
  }
}

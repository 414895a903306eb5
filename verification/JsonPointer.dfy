/** JSON Pointer text for error paths, and reading it back (RFC 6901). */
module JsonPointer {

  /** `s.replace(c, to)` for one character. */
  function Replace(s: string, c: char, to: string): string {
    if s == [] then [] else (if s[0] == c then to else [s[0]]) + Replace(s[1..], c, to)
  }

  /** `s.replace(ab, by)` for a two-character pattern, left to right. */
  function ReplacePair(s: string, a: char, b: char, to: char): string {
    if |s| < 2 then s
    else if s[0] == a && s[1] == b then [to] + ReplacePair(s[2..], a, b, to)
    else [s[0]] + ReplacePair(s[1..], a, b, to)
  }

  function Join(parts: seq<string>, sep: string): string {
    if parts == [] then [] else if |parts| == 1 then parts[0] else parts[0] + (sep + Join(parts[1..], sep))
  }

  function Split(s: string, c: char): (parts: seq<string>)
    ensures parts != []
  {
    if s == [] then [[]]
    else
      var rest := Split(s[1..], c);
      if s[0] == c then [[]] + rest else [[s[0]] + rest[0]] + rest[1..]
  }

  /** The two replacements, one after the other. */
  function Escape(token: string): string { Replace(Replace(token, '~', "~0"), '/', "~1") }

  function EscapeAll(path: seq<string>): seq<string> {
    seq(|path|, i requires 0 <= i < |path| => Escape(path[i]))
  }

  function Print(path: seq<string>): string { "/" + Join(EscapeAll(path), "/") }

  /** Section 4: first every "~1", then every "~0". */
  function Unescape(token: string): string { ReplacePair(ReplacePair(token, '~', '1', '/'), '~', '0', '~') }

  function Parse(pointer: string): seq<string> {
    var parts := Split(pointer, '/');
    seq(|parts| - 1, i requires 0 <= i < |parts| - 1 => Unescape(parts[i + 1]))
  }

  // ----- The two replacements are one character map

  function EscapeChar(c: char): string { if c == '~' then "~0" else if c == '/' then "~1" else [c] }

  function EscapeOnce(token: string): string {
    if token == [] then [] else EscapeChar(token[0]) + EscapeOnce(token[1..])
  }

  lemma ReplaceCons(head: char, tail: string, c: char, to: string)
    ensures Replace([head] + tail, c, to) == (if head == c then to else [head]) + Replace(tail, c, to)
  {
  }

  lemma {:induction false} EscapeIsOneMap(token: string)
    ensures Escape(token) == EscapeOnce(token)
    ensures '/' !in Escape(token)
    decreases |token|
  {
    if token != [] {
      EscapeIsOneMap(token[1..]);
      assert token == [token[0]] + token[1..];
      var rest := Replace(token[1..], '~', "~0");
      ReplaceCons(token[0], token[1..], '~', "~0");
      hide Replace;
      if token[0] == '~' {
        assert Replace(token, '~', "~0") == ['~'] + (['0'] + rest);
        ReplaceCons('~', ['0'] + rest, '/', "~1");
        ReplaceCons('0', rest, '/', "~1");
        assert Escape(token) == ['~'] + (['0'] + Replace(rest, '/', "~1"));
      } else {
        ReplaceCons(token[0], rest, '/', "~1");
      }
    }
  }

  lemma PairSkips(c: char, s: string, a: char, b: char, to: char)
    requires c != a || (s != [] && s[0] != b)
    ensures ReplacePair([c] + s, a, b, to) == [c] + ReplacePair(s, a, b, to)
  {
  }

  lemma PairHits(s: string, a: char, b: char, to: char)
    ensures ReplacePair([a] + ([b] + s), a, b, to) == [to] + ReplacePair(s, a, b, to)
  {
    assert ([a] + ([b] + s))[2..] == s;
  }

  /** The first pass of section 4 undoes the second replacement. */
  lemma {:induction false} FirstPass(token: string)
    ensures ReplacePair(EscapeOnce(token), '~', '1', '/') == Replace(token, '~', "~0")
    decreases |token|
  {
    hide ReplacePair;
    hide Replace;
    if token == [] {
      PairNone('~', '1', '/');
      ReplaceNone('~', "~0");
    } else {
      FirstPass(token[1..]);
      assert token == [token[0]] + token[1..];
      ReplaceCons(token[0], token[1..], '~', "~0");
      var rest := EscapeOnce(token[1..]);
      if token[0] == '~' {
        assert EscapeOnce(token) == ['~'] + (['0'] + rest);
        PairSkips('0', rest, '~', '1', '/');
        PairSkips('~', ['0'] + rest, '~', '1', '/');
        assert "~0" == ['~'] + ['0'];
      } else if token[0] == '/' {
        assert EscapeOnce(token) == ['~'] + (['1'] + rest);
        PairHits(rest, '~', '1', '/');
      } else {
        PairSkips(token[0], rest, '~', '1', '/');
      }
    }
  }

  lemma ReplaceNone(c: char, to: string)
    ensures Replace([], c, to) == []
  {
  }

  lemma PairNone(a: char, b: char, to: char)
    ensures ReplacePair([], a, b, to) == []
  {
  }

  /** The second pass undoes the first replacement. */
  lemma {:induction false} SecondPass(token: string)
    ensures ReplacePair(Replace(token, '~', "~0"), '~', '0', '~') == token
    decreases |token|
  {
    hide ReplacePair;
    if token == [] {
      PairNone('~', '0', '~');
    } else {
      SecondPass(token[1..]);
      var rest := Replace(token[1..], '~', "~0");
      if token[0] == '~' {
        assert Replace(token, '~', "~0") == ['~'] + (['0'] + rest);
        PairHits(rest, '~', '0', '~');
      } else {
        PairSkips(token[0], rest, '~', '0', '~');
      }
    }
  }

  lemma UnescapeEscape(token: string)
    ensures Unescape(Escape(token)) == token
  {
    EscapeIsOneMap(token);
    FirstPass(token);
    SecondPass(token);
  }

  // ----- Paths

  lemma {:induction false} SplitWord(word: string, c: char)
    requires c !in word
    ensures Split(word, c) == [word]
    decreases |word|
  {
    if word != [] {
      SplitWord(word[1..], c);
      assert [word[0]] + word[1..] == word;
    }
  }

  lemma {:induction false} SplitCons(word: string, c: char, rest: string)
    requires c !in word
    ensures Split(word + ([c] + rest), c) == [word] + Split(rest, c)
    decreases |word|
  {
    var s := word + ([c] + rest);
    if word == [] {
      assert s == [c] + rest && s[1..] == rest;
    } else {
      assert s[1..] == word[1..] + ([c] + rest);
      SplitCons(word[1..], c, rest);
      assert [word[0]] + word[1..] == word;
    }
  }

  lemma {:induction false} SplitJoin(parts: seq<string>)
    requires parts != [] && forall p :: p in parts ==> '/' !in p
    ensures Split(Join(parts, "/"), '/') == parts
    decreases |parts|
  {
    assert parts[0] in parts;
    if |parts| == 1 {
      SplitWord(parts[0], '/');
    } else {
      SplitJoin(parts[1..]);
      SplitCons(parts[0], '/', Join(parts[1..], "/"));
      assert [parts[0]] + parts[1..] == parts;
    }
  }

  /** The pointer of a non-empty path, split and decoded, is the path. */
  lemma PointerRoundTrip(path: seq<string>)
    requires path != []
    ensures Parse(Print(path)) == path
  {
    var parts := EscapeAll(path);
    forall p | p in parts ensures '/' !in p {
      var i :| 0 <= i < |parts| && parts[i] == p;
      EscapeIsOneMap(path[i]);
    }
    SplitJoin(parts);
    SplitCons("", '/', Join(parts, "/"));
    assert "" + ("/" + Join(parts, "/")) == Print(path);
    assert Split(Print(path), '/')[1..] == parts;
    forall i | 0 <= i < |path| ensures Unescape(parts[i]) == path[i] {
      UnescapeEscape(path[i]);
    }
  }

  /** The printer tells all paths apart except the empty one and the one with a
      single empty token, which both print as "/". */
  lemma PrintIsInjective(p: seq<string>, q: seq<string>)
    ensures Print(p) == Print(q) <==> p == q || (p in [[], [""]] && q in [[], [""]])
  {
    assert EscapeAll([]) == [] && EscapeAll([""]) == [""];
    if p != [] { PointerRoundTrip(p); }
    if q != [] { PointerRoundTrip(q); }
    PointerRoundTrip([""]);
  }
}

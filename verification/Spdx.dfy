/** The risk of a licence expression, read by splitting its text. */
module Spdx {
  import opened Text

  // ----- Risk levels

  /** "none", "low", "medium", "high" as positions in the risk order. */
  type Risk = r: int | 0 <= r <= 3

  const NONE: Risk := 0
  const LOW: Risk := 1
  const MEDIUM: Risk := 2
  const HIGH: Risk := 3

  function LowerChar(c: char): char { if 'A' <= c <= 'Z' then c + 32 as char else c }

  function Lower(s: string): string { seq(|s|, i requires 0 <= i < |s| => LowerChar(s[i])) }

  const WEAK: seq<string> := ["lgpl", "mpl", "epl", "cddl"]
  const STRONG: seq<string> := ["agpl", "gpl", "sspl", "eupl", "osl"]
  const HINTS: seq<string> := ["unknown", "proprietary", "see license"]

  predicate AnyIn(words: seq<string>, s: string) { exists k | k in words :: Contains(s, k) }

  /** The bucket of one identifier. */
  function SingleRisk(token: string): Risk {
    var lic := Lower(token);
    if AnyIn(WEAK, lic) then MEDIUM else if AnyIn(STRONG, lic) then HIGH else if AnyIn(HINTS, lic) then MEDIUM else NONE
  }

  // ----- Splitting on a word

  predicate SameWord(s: string, word: string) { Lower(s) == Lower(word) }

  /** The length of a match of whitespace, word, whitespace at the front of s;
      0 when there is none. */
  function MatchLen(s: string, word: string): (n: nat)
    ensures n <= |s|
  {
    var a := SpaceRun(s);
    if a == 0 || a + |word| > |s| || !SameWord(s[a..a + |word|], word) then 0
    else
      var b := SpaceRun(s[a + |word|..]);
      if b == 0 then 0 else a + |word| + b
  }

  /** `re.split` on whitespace, word, whitespace, in either case. */
  function SplitOn(s: string, word: string): (parts: seq<string>)
    ensures parts != []
    decreases |s|, s, word
  {
    if s == [] then [[]]
    else if MatchLen(s, word) > 0 then [[]] + SplitOn(s[MatchLen(s, word)..], word)
    else Prepend([s[0]], SplitOn(s[1..], word))
  }

  /** Text put in front of the first part. */
  function Prepend(s: string, parts: seq<string>): (r: seq<string>)
    requires parts != []
    ensures r != []
  {
    [s + parts[0]] + parts[1..]
  }

  // ----- The evaluator

  function WithoutParens(s: string): string {
    seq(|s|, i requires 0 <= i < |s| => if s[i] == '(' || s[i] == ')' then ' ' else s[i])
  }

  predicate Blank(s: string) { forall c :: c in s ==> IsSpace(c) }

  function Max(a: Risk, b: Risk): Risk { if a < b then b else a }

  function Min(a: Risk, b: Risk): Risk { if a < b then a else b }

  /** The greatest risk among the parts that are not blank. */
  function BranchRisk(parts: seq<string>): Risk {
    if parts == [] then NONE
    else Max(if Blank(parts[0]) then NONE else SingleRisk(parts[0]), BranchRisk(parts[1..]))
  }

  function LeastRisk(branches: seq<string>): Risk
    requires branches != []
  {
    var first := BranchRisk(SplitOn(branches[0], "AND"));
    if |branches| == 1 then first else Min(first, LeastRisk(branches[1..]))
  }

  /** What the evaluator returns. */
  function LicenseRiskOf(license: string): Risk {
    if license == "" then LOW else LeastRisk(SplitOn(WithoutParens(license), "OR"))
  }

  /** The loop over branches; `orRisks` is the list it builds. */
  method LicenseRisk(license: string) returns (risk: Risk)
    ensures risk == LicenseRiskOf(license)
  {
    if license == "" { return LOW; }
    var branches := SplitOn(WithoutParens(license), "OR");
    var orRisks: seq<Risk> := [];
    for i := 0 to |branches|
      invariant |orRisks| == i
      invariant forall j :: 0 <= j < i ==> orRisks[j] == BranchRisk(SplitOn(branches[j], "AND"))
    {
      orRisks := orRisks + [BranchRisk(SplitOn(branches[i], "AND"))];
    }
    var i := |orRisks| - 1;
    risk := orRisks[i];
    while i > 0
      invariant 0 <= i < |orRisks|
      invariant risk == LeastRisk(branches[i..])
    {
      i := i - 1;
      assert branches[i..][1..] == branches[i + 1..];
      risk := Min(orRisks[i], risk);
    }
    assert branches[0..] == branches;
  }

  // ----- Expressions

  /** An alternative: identifiers that all bind, printed bare or in parentheses. */
  datatype Group = Group(ids: seq<string>, parens: bool)

  /** Words between single spaces, none of them AND or OR. */
  predicate Phrase(s: string)
    decreases |s|
  {
    var n := WordRun(s);
    && n > 0 && !SameWord(s[..n], "OR") && !SameWord(s[..n], "AND")
    && (n == |s| || (s[n] == ' ' && Phrase(s[n + 1..])))
  }

  /** An identifier, with an exception perhaps: "GPL-2.0 WITH Classpath-exception-2.0". */
  predicate GoodId(id: string) {
    Phrase(id) && '(' !in id && ')' !in id
  }

  function Body(ids: seq<string>): string
    requires ids != []
  {
    if |ids| == 1 then ids[0] else ids[0] + (" AND " + Body(ids[1..]))
  }

  function GroupText(g: Group): string
    requires g.ids != []
  {
    if g.parens then "(" + Body(g.ids) + ")" else Body(g.ids)
  }

  function Render(groups: seq<Group>): string
    requires groups != [] && forall g :: g in groups ==> g.ids != []
  {
    if |groups| == 1 then GroupText(groups[0]) else GroupText(groups[0]) + (" OR " + Render(groups[1..]))
  }

  /** r is the greatest risk of the identifiers. */
  predicate IsGreatest(ids: seq<string>, r: Risk) {
    (exists id | id in ids :: SingleRisk(id) == r) && forall id | id in ids :: SingleRisk(id) <= r
  }

  // ----- Padding does not change an identifier's risk

  predicate Pad(s: string) { s == "" || s == " " }

  predicate Solid(word: string) { word != "" && !IsSpace(word[0]) && !IsSpace(word[|word| - 1]) }

  lemma LowerSpace(c: char)
    ensures IsSpace(LowerChar(c)) <==> IsSpace(c)
  {
  }

  lemma FoundAt(s: string, k: string, i: nat)
    requires i + |k| <= |s|
    ensures StartsWith(s[i..], k) <==> s[i..i + |k|] == k
  {
  }

  lemma Inside(a: string, s: string, b: string, i: nat, n: nat)
    requires i + n <= |s|
    ensures (a + s + b)[i + |a|..i + |a| + n] == s[i..i + n]
  {
  }

  lemma PadKeepsFind(a: string, s: string, b: string, k: string)
    requires Pad(a) && Pad(b) && Solid(k)
    ensures Contains(a + s + b, k) <==> Contains(s, k)
  {
    hide Solid;
    hide Pad;
    var t := a + s + b;
    if i :| 0 <= i <= |s| && StartsWith(s[i..], k) {
      FoundAt(s, k, i);
      Inside(a, s, b, i, |k|);
      FoundAt(t, k, i + |a|);
    }
    if i :| 0 <= i <= |t| && StartsWith(t[i..], k) {
      FoundAt(t, k, i);
      SolidInside(a, s, b, k, i);
      Inside(a, s, b, i - |a|, |k|);
      FoundAt(s, k, i - |a|);
      assert StartsWith(s[i - |a|..], k);
    }
  }

  lemma SolidInside(a: string, s: string, b: string, k: string, i: nat)
    requires Pad(a) && Pad(b) && Solid(k) && i + |k| <= |a + s + b|
    requires (a + s + b)[i..i + |k|] == k
    ensures |a| <= i && i + |k| <= |a| + |s|
  {
  }

  lemma PadKeepsRisk(a: string, s: string, b: string)
    requires Pad(a) && Pad(b)
    ensures SingleRisk(a + s + b) == SingleRisk(s)
  {
    assert Lower(a + s + b) == a + Lower(s) + b;
    forall k | k in WEAK || k in STRONG || k in HINTS ensures Contains(Lower(a + s + b), k) <==> Contains(Lower(s), k) {
      assert Solid(k);
      PadKeepsFind(a, Lower(s), b, k);
    }
  }

  // ----- How the splitter reads a rendered text

  lemma SplitChar(c: char, s: string, word: string)
    requires MatchLen([c] + s, word) == 0
    ensures SplitOn([c] + s, word) == Prepend([c], SplitOn(s, word))
  {
  }

  lemma PrependNone(parts: seq<string>)
    requires parts != []
    ensures Prepend("", parts) == parts
  {
    assert "" + parts[0] == parts[0];
  }

  lemma PrependTwice(a: string, b: string, parts: seq<string>)
    requires parts != []
    ensures Prepend(a, Prepend(b, parts)) == Prepend(a + b, parts)
  {
    assert a + (b + parts[0]) == a + b + parts[0];
  }

  /** No match starts inside a word. */
  lemma {:induction false} SkipWord(w: string, word: string, tail: string)
    requires NoSpace(w)
    ensures SplitOn(w + tail, word) == Prepend(w, SplitOn(tail, word))
    decreases |w|
  {
    hide SplitOn;
    hide Prepend;
    if w == [] {
      assert w + tail == tail;
      PrependNone(SplitOn(tail, word));
    } else {
      assert w[0] in w && w + tail == [w[0]] + (w[1..] + tail);
      SplitChar(w[0], w[1..] + tail, word);
      SkipWord(w[1..], word, tail);
      PrependTwice([w[0]], w[1..], SplitOn(tail, word));
      assert [w[0]] + w[1..] == w;
    }
  }

  predicate Ends(tail: string) { tail == "" || IsSpace(tail[0]) }

  lemma WordRunUnique(w: string, tail: string, word: string)
    requires NoSpace(w) && w != "" && Ends(tail) && NoSpace(word) && word != "" && !SameWord(w, word)
    ensures MatchLen(" " + (w + tail), word) == 0
  {
    var s := " " + (w + tail);
    assert w[0] in w;
    SpaceRunOne(w + tail);
    if 1 + |word| <= |s| && SameWord(s[1..1 + |word|], word) {
      OtherLength(w, tail, word);
      assert s[1..1 + |word|] == (w + tail)[..|word|];
      assert s[1 + |word|..] == (w + tail)[|word|..];
    }
  }

  /** A word of the text that begins with the split word goes on after it. */
  lemma OtherLength(w: string, tail: string, word: string)
    requires NoSpace(w) && w != "" && Ends(tail) && NoSpace(word) && !SameWord(w, word)
    requires |word| <= |w + tail| && SameWord((w + tail)[..|word|], word)
    ensures SpaceRun((w + tail)[|word|..]) == 0
  {
    var found := (w + tail)[..|word|];
    LowerKeepsSpace(found, word);
    assert forall i :: 0 <= i < |word| ==> found[i] in found && (w + tail)[i] == found[i];
    assert tail != "" ==> IsSpace((w + tail)[|w|]);
    assert |word| <= |w|;
    assert (w + tail)[|word|] == w[|word|] && w[|word|] in w;
  }

  lemma LowerKeepsSpace(s: string, word: string)
    requires SameWord(s, word) && NoSpace(word)
    ensures NoSpace(s) && |s| == |word|
  {
    assert |Lower(s)| == |s| && |Lower(word)| == |word|;
    forall c | c in s ensures !IsSpace(c) {
      var i :| 0 <= i < |s| && s[i] == c;
      assert Lower(s)[i] == Lower(word)[i] && word[i] in word;
      LowerSpace(s[i]);
      LowerSpace(word[i]);
    }
  }

  /** A gap before another word is no match. */
  lemma SkipGap(w: string, word: string, tail: string)
    requires NoSpace(w) && w != "" && Ends(tail) && NoSpace(word) && word != "" && !SameWord(w, word)
    ensures SplitOn(" " + (w + tail), word) == Prepend(" " + w, SplitOn(tail, word))
  {
    WordRunUnique(w, tail, word);
    hide SplitOn;
    hide Prepend;
    hide MatchLen;
    SplitChar(' ', w + tail, word);
    SkipWord(w, word, tail);
    PrependTwice(" ", w, SplitOn(tail, word));
  }

  lemma SkipLastSpace(word: string)
    requires word != ""
    ensures SplitOn(" ", word) == [" "]
  {
    assert " " == [' '] + "" && " "[1..] == "";
    assert MatchLen(" ", word) == 0;
    SplitChar(' ', "", word);
  }

  lemma SplitMatch(s: string, word: string)
    requires MatchLen(s, word) > 0
    ensures SplitOn(s, word) == [""] + SplitOn(s[MatchLen(s, word)..], word)
  {
  }

  lemma HitLength(a: string, word: string, b: string, tail: string)
    requires a != "" && b != "" && Blank(a) && Blank(b) && NoSpace(word) && word != "" && tail != "" &&
        !IsSpace(tail[0])
    ensures MatchLen(a + (word + (b + tail)), word) == |a| + |word| + |b|
  {
    var s := a + (word + (b + tail));
    assert word[0] in word;
    SpaceRunOf(a, word + (b + tail));
    SpaceRunOf(b, tail);
    hide SpaceRun;
    hide Blank;
    hide NoSpace;
    hide Lower;
    Slices(a, word, b + tail);
  }

  lemma Slices(a: string, word: string, rest: string)
    ensures (a + (word + rest))[|a|..|a| + |word|] == word
    ensures (a + (word + rest))[|a| + |word|..] == rest
  {
  }

  /** A gap, the word, a gap: one split, and both gaps are consumed. */
  lemma HitGap(a: string, word: string, b: string, tail: string)
    requires a != "" && b != "" && Blank(a) && Blank(b) && NoSpace(word) && word != "" && tail != "" &&
        !IsSpace(tail[0])
    ensures SplitOn(a + (word + (b + tail)), word) == [""] + SplitOn(tail, word)
  {
    var s := a + (word + (b + tail));
    HitLength(a, word, b, tail);
    hide MatchLen;
    assert s == a + word + b + tail;
    assert s[|a| + |word| + |b|..] == tail;
    SplitMatch(s, word);
  }

  lemma {:induction false} SpaceRunOf(a: string, tail: string)
    requires Blank(a) && tail != "" && !IsSpace(tail[0])
    ensures SpaceRun(a + tail) == |a|
    decreases |a|
  {
    if a == "" {
      assert a + tail == tail;
    } else {
      assert a[0] in a && (a + tail)[1..] == a[1..] + tail;
      SpaceRunOf(a[1..], tail);
    }
  }

  lemma SplitEmpty(word: string)
    ensures SplitOn("", word) == [""]
  {
  }

  /** A single space in front of a word that is not the split word. */
  lemma SkipSpace(w: string, word: string, tail: string)
    requires NoSpace(w) && w != "" && Ends(tail) && NoSpace(word) && word != "" && !SameWord(w, word)
    ensures SplitOn(" " + (w + tail), word) == Prepend(" ", SplitOn(w + tail, word))
  {
    WordRunUnique(w, tail, word);
    SplitChar(' ', w + tail, word);
  }

  predicate Reserved(word: string) { word == "AND" || word == "OR" }

  /** The first word of a phrase, and what follows it. */
  lemma FirstWord(s: string, tail: string)
    requires Phrase(s) && Ends(tail)
    ensures var n := WordRun(s);
            && s[..n] != "" && NoSpace(s[..n]) && Ends(s[n..] + tail) && s[..n] + (s[n..] + tail) == s + tail
            && forall word :: Reserved(word) ==> !SameWord(s[..n], word)
  {
    var n := WordRun(s);
    WordRunIs(s);
    hide WordRun;
    hide SameWord;
    var first, rest := s[..n], s[n..];
    forall c | c in first ensures !IsSpace(c) {
      var i :| 0 <= i < n && first[i] == c;
      assert s[i] == c;
    }
    hide IsSpace;
    assert first + (rest + tail) == s + tail by { assert first + rest == s; }
    if n < |s| { assert (rest + tail)[0] == s[n]; } else { assert rest + tail == tail; }
  }

  /** A space in front of a phrase starts no match. */
  lemma SkipPhraseSpace(s: string, word: string, tail: string)
    requires Phrase(s) && Ends(tail) && Reserved(word)
    ensures SplitOn(" " + (s + tail), word) == Prepend(" ", SplitOn(s + tail, word))
  {
    FirstWord(s, tail);
    var n := WordRun(s);
    ReservedWords();
    hide SameWord;
    hide Phrase;
    SkipSpace(s[..n], word, s[n..] + tail);
  }

  /** No match starts inside a phrase. */
  lemma {:induction false} SkipPhrase(s: string, word: string, tail: string)
    requires Phrase(s) && Ends(tail) && Reserved(word)
    ensures SplitOn(s + tail, word) == Prepend(s, SplitOn(tail, word))
    decreases |s|
  {
    hide SplitOn;
    hide Prepend;
    hide SameWord;
    FirstWord(s, tail);
    var n := WordRun(s);
    var first := s[..n];
    if n < |s| {
      var rest := s[n + 1..];
      SkipPhraseSpace(rest, word, tail);
      SkipPhrase(rest, word, tail);
      hide *;
      Cut(s, n, tail);
      SkipWord(first, word, " " + (rest + tail));
      PrependTwice(" ", rest, SplitOn(tail, word));
      PrependTwice(first, " " + rest, SplitOn(tail, word));
    } else {
      assert first == s;
      SkipWord(s, word, tail);
    }
  }

  lemma Cut(s: string, n: nat, tail: string)
    requires n < |s| && s[n] == ' '
    ensures s[..n] + (" " + s[n + 1..]) == s
    ensures s + tail == s[..n] + (" " + (s[n + 1..] + tail))
  {
  }

  /** A trailing pad stays with the last part. */
  lemma SkipPad(pad: string, word: string)
    requires Pad(pad) && word != ""
    ensures SplitOn(pad, word) == [pad]
  {
    if pad == "" { SplitEmpty(word); } else { SkipLastSpace(word); }
  }

  lemma ReservedWords()
    ensures NoSpace("AND") && NoSpace("OR") && !SameWord("AND", "OR")
  {
  }

  predicate GoodIds(ids: seq<string>) { ids != [] && forall id :: id in ids ==> GoodId(id) }

  lemma GoodTail(ids: seq<string>)
    requires GoodIds(ids)
    ensures GoodId(ids[0]) && (|ids| > 1 ==> GoodIds(ids[1..]))
  {
  }

  /** A body starts with its first identifier, which ends there. */
  function AfterFirst(ids: seq<string>, tail: string): string
    requires ids != []
  {
    if |ids| == 1 then tail else " " + ("AND" + (" " + (Body(ids[1..]) + tail)))
  }

  lemma BodyStarts(ids: seq<string>, tail: string)
    requires GoodIds(ids) && Ends(tail)
    ensures Body(ids) + tail == ids[0] + AfterFirst(ids, tail) && Ends(AfterFirst(ids, tail))
    ensures Body(ids) + tail != "" && !IsSpace((Body(ids) + tail)[0])
  {
    hide SameWord;
    GoodTail(ids);
    assert ids[0][0] in ids[0];
    hide NoSpace;
    if |ids| == 1 {
      assert Body(ids) == ids[0];
    } else {
      var rest := Body(ids[1..]);
      hide Body;
      assert Body(ids) == ids[0] + (" AND " + rest) by { BodyCons(ids); }
      Assoc(ids[0], " AND " + rest, tail);
      Assoc(" AND ", rest, tail);
      AndGap(rest + tail);
    }
    assert (Body(ids) + tail)[0] == ids[0][0];
  }

  lemma Assoc(x: string, y: string, z: string)
    ensures (x + y) + z == x + (y + z)
  {
  }

  lemma AndGap(r: string)
    ensures " AND " + r == " " + ("AND" + (" " + r))
  {
    assert " AND " == " " + "AND" + " ";
    Assoc(" " + "AND", " ", r);
    Assoc(" ", "AND", " " + r);
  }

  lemma BodyCons(ids: seq<string>)
    requires |ids| > 1
    ensures Body(ids) == ids[0] + (" AND " + Body(ids[1..]))
  {
  }

  /** No OR is found inside a body. */
  lemma {:induction false} BodyHasNoOr(ids: seq<string>, tail: string)
    requires GoodIds(ids) && Ends(tail)
    ensures SplitOn(Body(ids) + tail, "OR") == Prepend(Body(ids), SplitOn(tail, "OR"))
    decreases |ids|
  {
    hide Lower;
    hide GoodId;
    hide SplitOn;
    hide Prepend;
    hide SameWord;
    GoodTail(ids);
    BodyStarts(ids, tail);
    SkipPhrase(ids[0], "OR", AfterFirst(ids, tail));
    if |ids| > 1 {
      var rest := Body(ids[1..]) + tail;
      ReservedWords();
      GoodTail(ids[1..]);
      SkipGap("AND", "OR", " " + rest);
      BodyStarts(ids[1..], tail);
      SkipPhraseSpace(ids[1], "OR", AfterFirst(ids[1..], tail));
      BodyHasNoOr(ids[1..], tail);
      var parts := SplitOn(tail, "OR");
      PrependChain(ids[0], Body(ids[1..]), parts);
    }
  }

  lemma PrependChain(first: string, body: string, parts: seq<string>)
    requires parts != []
    ensures Prepend(first, Prepend(" " + "AND", Prepend(" ", Prepend(body, parts)))) ==
        Prepend(first + (" AND " + body), parts)
  {
    hide Prepend;
    PrependTwice(" ", body, parts);
    PrependTwice(" " + "AND", " " + body, parts);
    PrependTwice(first, " " + "AND" + (" " + body), parts);
    assert " " + "AND" + (" " + body) == " AND " + body;
  }

  /** The parts of one alternative, split at AND; `pad` trails the last one. */
  function AndParts(ids: seq<string>, pad: string): (parts: seq<string>)
    requires ids != []
    ensures parts != []
  {
    if |ids| == 1 then [ids[0] + pad] else [ids[0]] + AndParts(ids[1..], pad)
  }

  lemma {:induction false} BodySplits(ids: seq<string>, pad: string)
    requires GoodIds(ids) && Pad(pad)
    ensures SplitOn(Body(ids) + pad, "AND") == AndParts(ids, pad)
    decreases |ids|
  {
    hide SplitOn;
    hide SameWord;
    GoodTail(ids);
    BodyStarts(ids, pad);
    SkipPhrase(ids[0], "AND", AfterFirst(ids, pad));
    if |ids| == 1 {
      SkipPad(pad, "AND");
    } else {
      var rest := Body(ids[1..]) + pad;
      BodySplits(ids[1..], pad);
      BodyStarts(ids[1..], pad);
      ReservedWords();
      HitGap(" ", "AND", " ", rest);
      assert ids[0] + "" == ids[0];
    }
  }

  // ----- Risks of the parts

  function GreatestRisk(ids: seq<string>): Risk {
    if ids == [] then NONE else Max(SingleRisk(ids[0]), GreatestRisk(ids[1..]))
  }

  lemma NotBlank(a: string, id: string, b: string)
    requires GoodId(id)
    ensures !Blank(a + id + b)
  {
    assert id[0] in id && id[0] in a + id + b;
  }

  lemma {:induction false} PartsRisk(lead: string, ids: seq<string>, pad: string)
    requires GoodIds(ids) && Pad(lead) && Pad(pad)
    ensures BranchRisk(Prepend(lead, AndParts(ids, pad))) == GreatestRisk(ids)
    decreases |ids|
  {
    hide SingleRisk;
    hide Blank;
    hide GoodId;
    GoodTail(ids);
    var trail := if |ids| == 1 then pad else "";
    var parts := Prepend(lead, AndParts(ids, pad));
    assert parts[0] == lead + ids[0] + trail;
    PadKeepsRisk(lead, ids[0], trail);
    NotBlank(lead, ids[0], trail);
    if |ids| == 1 {
      assert parts[1..] == [] && ids[1..] == [];
    } else {
      PartsRisk("", ids[1..], pad);
      PrependNone(AndParts(ids[1..], pad));
      assert parts[1..] == AndParts(ids[1..], pad);
    }
  }

  /** An alternative's text, padded or not, has the greatest risk of its identifiers. */
  lemma AlternativeRisk(lead: string, ids: seq<string>, pad: string)
    requires GoodIds(ids) && Pad(lead) && Pad(pad)
    ensures BranchRisk(SplitOn(lead + (Body(ids) + pad), "AND")) == GreatestRisk(ids)
  {
    hide SplitOn;
    hide Prepend;
    hide BranchRisk;
    BodySplits(ids, pad);
    PartsRisk(lead, ids, pad);
    if lead == "" {
      PrependNone(AndParts(ids, pad));
      assert lead + (Body(ids) + pad) == Body(ids) + pad;
    } else {
      GoodTail(ids);
      ReservedWords();
      BodyStarts(ids, pad);
      SkipPhraseSpace(ids[0], "AND", AfterFirst(ids, pad));
    }
  }

  // ----- The whole text

  function PadOf(g: Group): string { if g.parens then " " else "" }

  predicate GoodGroups(groups: seq<Group>) { groups != [] && forall g :: g in groups ==> GoodIds(g.ids) }

  /** The text the splitter sees, from the first body on. */
  function FromBody(groups: seq<Group>): string
    requires groups != [] && forall g :: g in groups ==> g.ids != []
    decreases |groups|, 1
  {
    Body(groups[0].ids) + AfterBody(groups)
  }

  function AfterBody(groups: seq<Group>): string
    requires groups != [] && forall g :: g in groups ==> g.ids != []
    decreases |groups|, 0
  {
    if |groups| == 1 then PadOf(groups[0])
    else PadOf(groups[0]) + " " + ("OR" + ((" " + PadOf(groups[1])) + FromBody(groups[1..])))
  }

  lemma WithoutParensConcat(s: string, t: string)
    ensures WithoutParens(s + t) == WithoutParens(s) + WithoutParens(t)
  {
  }

  lemma {:induction false} BodyWithoutParens(ids: seq<string>)
    requires GoodIds(ids)
    ensures WithoutParens(Body(ids)) == Body(ids)
    decreases |ids|
  {
    GoodTail(ids);
    forall i | 0 <= i < |ids[0]| ensures ids[0][i] != '(' && ids[0][i] != ')' { assert ids[0][i] in ids[0]; }
    assert WithoutParens(ids[0]) == ids[0];
    if |ids| > 1 {
      BodyWithoutParens(ids[1..]);
      WithoutParensConcat(" AND ", Body(ids[1..]));
      WithoutParensConcat(ids[0], " AND " + Body(ids[1..]));
      assert WithoutParens(" AND ") == " AND ";
    }
  }

  lemma GroupWithoutParens(g: Group)
    requires GoodIds(g.ids)
    ensures WithoutParens(GroupText(g)) == PadOf(g) + (Body(g.ids) + PadOf(g))
  {
    BodyWithoutParens(g.ids);
    if g.parens {
      WithoutParensConcat("(" + Body(g.ids), ")");
      WithoutParensConcat("(", Body(g.ids));
      assert WithoutParens("(") == " " && WithoutParens(")") == " ";
    } else {
      assert "" + (Body(g.ids) + "") == Body(g.ids);
    }
  }

  lemma OrWithoutParens()
    ensures WithoutParens(" OR ") == " OR "
  {
  }

  lemma Regroup(pad: string, body: string, next: string, rest: string)
    ensures pad + (body + pad) + (" OR " + (next + rest)) == pad + (body + (pad + " " + ("OR" + ((" " + next) + rest))))
  {
  }

  lemma {:induction false} RenderWithoutParens(groups: seq<Group>)
    requires GoodGroups(groups)
    ensures WithoutParens(Render(groups)) == PadOf(groups[0]) + FromBody(groups)
    decreases |groups|
  {
    hide WithoutParens;
    hide Body;
    hide GroupText;
    var g := groups[0];
    assert g in groups;
    GroupWithoutParens(g);
    if |groups| > 1 {
      RenderWithoutParens(groups[1..]);
      WithoutParensConcat(" OR ", Render(groups[1..]));
      WithoutParensConcat(GroupText(g), " OR " + Render(groups[1..]));
      OrWithoutParens();
      Regroup(PadOf(g), Body(g.ids), PadOf(groups[1]), FromBody(groups[1..]));
    }
  }

  /** The alternatives the splitter finds; `lead` stands before the first. */
  function Pieces(groups: seq<Group>, lead: string): (pieces: seq<string>)
    requires groups != [] && forall g :: g in groups ==> g.ids != []
    ensures pieces != []
  {
    if |groups| == 1 then [lead + (Body(groups[0].ids) + PadOf(groups[0]))]
    else [lead + (Body(groups[0].ids) + "")] + Pieces(groups[1..], "")
  }

  lemma PrependPieces(groups: seq<Group>, lead: string)
    requires groups != [] && forall g :: g in groups ==> g.ids != []
    ensures Prepend(lead, Pieces(groups, "")) == Pieces(groups, lead)
  {
    var text := Body(groups[0].ids) + if |groups| == 1 then PadOf(groups[0]) else "";
    assert "" + text == text;
  }

  lemma {:induction false} OrSplits(groups: seq<Group>)
    requires GoodGroups(groups)
    ensures SplitOn(FromBody(groups), "OR") == Pieces(groups, "")
    ensures FromBody(groups) != "" && !IsSpace(FromBody(groups)[0])
    decreases |groups|
  {
    hide SplitOn;
    var g := groups[0];
    assert g in groups;
    BodyHasNoOr(g.ids, AfterBody(groups));
    BodyStarts(g.ids, AfterBody(groups));
    if |groups| == 1 {
      SkipPad(PadOf(g), "OR");
      assert "" + (Body(g.ids) + PadOf(g)) == Body(g.ids) + PadOf(g);
    } else {
      OrSplits(groups[1..]);
      ReservedWords();
      HitGap(PadOf(g) + " ", "OR", " " + PadOf(groups[1]), FromBody(groups[1..]));
      assert "" + (Body(g.ids) + "") == Body(g.ids) + "";
    }
  }

  /** The least over the alternatives of the greatest over their identifiers. */
  function LeastOf(groups: seq<Group>): Risk
    requires groups != []
  {
    if |groups| == 1 then GreatestRisk(groups[0].ids) else Min(GreatestRisk(groups[0].ids), LeastOf(groups[1..]))
  }

  lemma {:induction false} PiecesRisk(groups: seq<Group>, lead: string)
    requires GoodGroups(groups) && Pad(lead)
    ensures LeastRisk(Pieces(groups, lead)) == LeastOf(groups)
    decreases |groups|
  {
    hide SplitOn;
    hide BranchRisk;
    var g := groups[0];
    assert g in groups;
    AlternativeRisk(lead, g.ids, if |groups| == 1 then PadOf(g) else "");
    if |groups| > 1 {
      PiecesRisk(groups[1..], "");
      assert Pieces(groups, lead)[1..] == Pieces(groups[1..], "");
    }
  }

  lemma TextRisk(groups: seq<Group>)
    requires GoodGroups(groups)
    ensures LicenseRiskOf(Render(groups)) == LeastOf(groups)
  {
    hide SplitOn;
    hide LeastRisk;
    hide Pieces;
    hide Prepend;
    RenderWithoutParens(groups);
    OrSplits(groups);
    var g := groups[0];
    assert g in groups;
    PiecesRisk(groups, PadOf(g));
    PrependPieces(groups, PadOf(g));
    if g.parens {
      GoodTail(g.ids);
      ReservedWords();
      BodyStarts(g.ids, AfterBody(groups));
      SkipPhraseSpace(g.ids[0], "OR", AfterFirst(g.ids, AfterBody(groups)));
    } else {
      PrependNone(Pieces(groups, ""));
      assert "" + FromBody(groups) == FromBody(groups);
    }
    assert |Render(groups)| == |WithoutParens(Render(groups))|;
  }

  lemma {:induction false} GreatestIsGreatest(ids: seq<string>)
    requires ids != []
    ensures IsGreatest(ids, GreatestRisk(ids))
    decreases |ids|
  {
    hide SingleRisk;
    assert ids == [ids[0]] + ids[1..];
    if |ids| > 1 {
      GreatestIsGreatest(ids[1..]);
    } else {
      assert ids[1..] == [];
    }
  }

  lemma {:induction false} LeastIsLeast(groups: seq<Group>)
    requires GoodGroups(groups)
    ensures exists g | g in groups :: GreatestRisk(g.ids) == LeastOf(groups)
    ensures forall g | g in groups :: LeastOf(groups) <= GreatestRisk(g.ids)
    decreases |groups|
  {
    hide GreatestRisk;
    assert groups == [groups[0]] + groups[1..];
    if |groups| > 1 { LeastIsLeast(groups[1..]); }
  }

  /** For every OR of ANDs of identifiers, each alternative printed bare or in
      parentheses, the evaluator returns the greatest risk of some alternative,
      and no alternative's greatest risk is less. */
  lemma LeastOfGreatest(groups: seq<Group>)
    requires GoodGroups(groups)
    ensures var r := LicenseRiskOf(Render(groups));
            && (exists g | g in groups :: IsGreatest(g.ids, r))
            && (forall g, q: Risk | g in groups && IsGreatest(g.ids, q) :: r <= q)
  {
    hide LicenseRiskOf;
    TextRisk(groups);
    LeastIsLeast(groups);
    forall g | g in groups ensures IsGreatest(g.ids, GreatestRisk(g.ids)) { GreatestIsGreatest(g.ids); }
    hide GreatestRisk;
    hide SingleRisk;
  }
}

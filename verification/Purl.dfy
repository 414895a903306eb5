/** Package URLs as the identity of a component. */
module Purl {
  /** Names and versions as UTF-8 bytes. */
  type Byte = b: int | 0 <= b < 256
  type Bytes = seq<Byte>

  const AT: Byte := 64
  const SLASH: Byte := 47

  datatype Ecosystem = PyPI | Npm | Cargo

  // ----- Percent-encoding (section 2.1 of RFC 3986)

  predicate Unreserved(b: Byte) {
    48 <= b <= 57 || 65 <= b <= 90 || 97 <= b <= 122 || b == 45 || b == 46 || b == 95 || b == 126
  }

  function HexDigit(n: int): char
    requires 0 <= n < 16
  {
    if n < 10 then '0' + n as char else 'A' + (n - 10) as char
  }

  function HexValue(c: char): int {
    if '0' <= c <= '9' then (c - '0') as int else if 'A' <= c <= 'F' then (c - 'A') as int + 10 else 0
  }

  function QuoteByte(b: Byte, keepAt: bool): string {
    if Unreserved(b) || (keepAt && b == AT) then [b as char] else ['%', HexDigit(b / 16), HexDigit(b % 16)]
  }

  /** `urllib.parse.quote` with safe="" or safe="@". */
  function Quote(bs: Bytes, keepAt: bool): string {
    if bs == [] then [] else QuoteByte(bs[0], keepAt) + Quote(bs[1..], keepAt)
  }

  function Unquote(s: string): Bytes {
    if s == [] then []
    else if s[0] == '%' && |s| >= 3 then
      [if HexValue(s[1]) * 16 + HexValue(s[2]) < 256 then HexValue(s[1]) * 16 + HexValue(s[2]) else 0] + Unquote(s[3..])
    else if s[0] as int < 256 then [s[0] as int] + Unquote(s[1..])
    else Unquote(s[1..])
  }

  lemma UnquoteByte(b: Byte, keepAt: bool, rest: string)
    ensures Unquote(QuoteByte(b, keepAt) + rest) == [b] + Unquote(rest)
  {
    var q := QuoteByte(b, keepAt);
    if |q| == 1 {
      assert (q + rest)[1..] == rest;
    } else {
      assert (q + rest)[3..] == rest;
      assert b / 16 * 16 + b % 16 == b;
    }
  }

  lemma {:induction false} QuoteRoundTrip(bs: Bytes, keepAt: bool)
    ensures Unquote(Quote(bs, keepAt)) == bs
    decreases |bs|
  {
    if bs != [] {
      QuoteRoundTrip(bs[1..], keepAt);
      UnquoteByte(bs[0], keepAt, Quote(bs[1..], keepAt));
    }
  }

  lemma {:induction false} QuoteAvoids(bs: Bytes, keepAt: bool)
    ensures '/' !in Quote(bs, keepAt)
    ensures !keepAt ==> '@' !in Quote(bs, keepAt)
    decreases |bs|
  {
    if bs != [] { QuoteAvoids(bs[1..], keepAt); }
  }

  // ----- The package URLs

  function Lower(bs: Bytes): Bytes {
    seq(|bs|, i requires 0 <= i < |bs| => if 65 <= bs[i] <= 90 then bs[i] + 32 else bs[i])
  }

  function IndexOf(bs: Bytes, b: Byte): (i: nat)
    ensures i <= |bs| && (i < |bs| ==> bs[i] == b) && (b in bs ==> i < |bs|)
  {
    if bs == [] || bs[0] == b then 0 else 1 + IndexOf(bs[1..], b)
  }

  predicate Scoped(name: Bytes) { name != [] && name[0] == AT && SLASH in name }

  function EncodedName(eco: Ecosystem, name: Bytes): string {
    match eco
    case PyPI => Quote(Lower(name), false)
    case Cargo => Quote(name, false)
    case Npm =>
      if Scoped(name) then
        var i := IndexOf(name, SLASH);
        Quote(name[..i], true) + "/" + Quote(name[i + 1..], false)
      else Quote(name, false)
  }

  function Prefix(eco: Ecosystem): string {
    match eco
    case PyPI => "pkg:pypi/"
    case Npm => "pkg:npm/"
    case Cargo => "pkg:cargo/"
  }

  function VersionTail(version: Bytes): string {
    if version != [] then "@" + Quote(version, false) else ""
  }

  function Purl(eco: Ecosystem, name: Bytes, version: Bytes): string {
    Prefix(eco) + (EncodedName(eco, name) + VersionTail(version))
  }

  /** The identity a package URL stands for: PyPI names ignore case. */
  function Canonical(eco: Ecosystem, name: Bytes): Bytes { if eco.PyPI? then Lower(name) else name }

  // ----- Reading one back

  function Cut(s: string, c: char): (string, string) {
    if s == [] then ([], [])
    else if s[0] == c then ([], s[1..])
    else var (a, b) := Cut(s[1..], c); ([s[0]] + a, b)
  }

  lemma {:induction false} CutAt(a: string, c: char, b: string)
    requires c !in a
    ensures Cut(a + ([c] + b), c) == (a, b)
    decreases |a|
  {
    if a == [] {
      assert a + ([c] + b) == [c] + b;
      assert ([c] + b)[1..] == b;
    } else {
      assert (a + ([c] + b))[1..] == a[1..] + ([c] + b);
      CutAt(a[1..], c, b);
      assert [a[0]] + a[1..] == a;
    }
  }

  lemma {:induction false} CutNone(a: string, c: char)
    requires c !in a
    ensures Cut(a, c) == (a, "")
    decreases |a|
  {
    if a != [] {
      CutNone(a[1..], c);
      assert [a[0]] + a[1..] == a;
    }
  }

  function Parse(eco: Ecosystem, purl: string): (Bytes, Bytes)
    requires |Prefix(eco)| <= |purl|
  {
    var s := purl[|Prefix(eco)|..];
    if eco.Npm? && '/' in s then
      var (scope, rest) := Cut(s, '/');
      var (pkg, version) := Cut(rest, '@');
      (Unquote(scope) + [SLASH] + Unquote(pkg), Unquote(version))
    else
      var (name, version) := Cut(s, '@');
      (Unquote(name), Unquote(version))
  }

  lemma TailSplits(n: string, version: Bytes)
    requires '@' !in n
    ensures Cut(n + VersionTail(version), '@') == (n, Quote(version, false))
    ensures '/' in n + VersionTail(version) <==> '/' in n
  {
    hide Cut;
    QuoteAvoids(version, false);
    if version == [] {
      CutNone(n, '@');
      assert n + "" == n;
    } else {
      CutAt(n, '@', Quote(version, false));
    }
  }

  lemma ParsePlain(name: Bytes, version: Bytes)
    ensures var s := Quote(name, false) + VersionTail(version);
            && '/' !in s && Cut(s, '@') == (Quote(name, false), Quote(version, false))
            && Unquote(Quote(name, false)) == name && Unquote(Quote(version, false)) == version
  {
    hide Cut;
    hide Quote;
    hide Unquote;
    hide VersionTail;
    QuoteAvoids(name, false);
    QuoteRoundTrip(name, false);
    QuoteRoundTrip(version, false);
    TailSplits(Quote(name, false), version);
  }

  lemma ParseScoped(name: Bytes, version: Bytes)
    requires Scoped(name)
    ensures var s := EncodedName(Npm, name) + VersionTail(version);
            && '/' in s
            && var (scope, rest) := Cut(s, '/');
            && var (pkg, v) := Cut(rest, '@');
            && Unquote(scope) + [SLASH] + Unquote(pkg) == name && Unquote(v) == version
  {
    hide Cut;
    hide Quote;
    hide Unquote;
    hide VersionTail;
    var i := IndexOf(name, SLASH);
    var scope, pkg := name[..i], name[i + 1..];
    var rest := Quote(pkg, false) + VersionTail(version);
    assert EncodedName(Npm, name) + VersionTail(version) == Quote(scope, true) + (['/'] + rest);
    QuoteAvoids(scope, true);
    CutAt(Quote(scope, true), '/', rest);
    ParsePlain(pkg, version);
    QuoteRoundTrip(scope, true);
    assert name == scope + [SLASH] + pkg;
  }

  /** A package URL can be read back: canonical name and version, scoped npm
      names and empty versions included. */
  lemma PurlRoundTrip(eco: Ecosystem, name: Bytes, version: Bytes)
    ensures |Prefix(eco)| <= |Purl(eco, name, version)|
    ensures Parse(eco, Purl(eco, name, version)) == (Canonical(eco, name), version)
  {
    hide Cut;
    hide Quote;
    hide Unquote;
    hide VersionTail;
    hide Lower;
    var s := EncodedName(eco, name) + VersionTail(version);
    assert Purl(eco, name, version)[|Prefix(eco)|..] == s;
    hide Prefix;
    if eco.Npm? && Scoped(name) {
      ParseScoped(name, version);
    } else {
      ParsePlain(Canonical(eco, name), version);
    }
  }

  /** Within an ecosystem two components share a package URL exactly when their
      canonical names and versions agree. */
  lemma PurlIsIdentity(eco: Ecosystem, n1: Bytes, v1: Bytes, n2: Bytes, v2: Bytes)
    ensures Purl(eco, n1, v1) == Purl(eco, n2, v2) <==> Canonical(eco, n1) == Canonical(eco, n2) && v1 == v2
  {
    hide Quote;
    hide Parse;
    hide Prefix;
    PurlRoundTrip(eco, n1, v1);
    PurlRoundTrip(eco, n2, v2);
    if eco.PyPI? && Lower(n1) == Lower(n2) && v1 == v2 {
      assert EncodedName(eco, n1) == EncodedName(eco, n2);
    }
  }

  /** No package URL belongs to two ecosystems. */
  lemma EcosystemsApart(e1: Ecosystem, n1: Bytes, v1: Bytes, e2: Ecosystem, n2: Bytes, v2: Bytes)
    requires Purl(e1, n1, v1) == Purl(e2, n2, v2)
    ensures e1 == e2
  {
    hide EncodedName;
    hide VersionTail;
    assert Purl(e1, n1, v1)[4] == Prefix(e1)[4] && Purl(e2, n2, v2)[4] == Prefix(e2)[4];
  }

  // ----- Dropping duplicates

  datatype Component = Component(name: Bytes, version: Bytes, purl: string)

  datatype Duplicate = Duplicate(purl: string, name: Bytes)

  function Build(eco: Ecosystem, name: Bytes, version: Bytes): Component {
    Component(name, version, Purl(eco, name, version))
  }

  /** The component at i is the first one with its package URL. */
  predicate IsFirst(cs: seq<Component>, i: nat)
    requires i < |cs|
  {
    forall j | 0 <= j < i :: cs[j].purl != cs[i].purl
  }

  /** The first occurrences among the first n, in order. */
  function Firsts(cs: seq<Component>, n: nat): seq<Component>
    requires n <= |cs|
  {
    if n == 0 then [] else Firsts(cs, n - 1) + if IsFirst(cs, n - 1) then [cs[n - 1]] else []
  }

  /** The others, in order. */
  function Repeats(cs: seq<Component>, n: nat): seq<Duplicate>
    requires n <= |cs|
  {
    if n == 0 then []
    else Repeats(cs, n - 1) + if IsFirst(cs, n - 1) then [] else [Duplicate(cs[n - 1].purl, cs[n - 1].name)]
  }

  method DedupComponents(cs: seq<Component>) returns (deduped: seq<Component>, warnings: seq<Duplicate>)
    ensures deduped == Firsts(cs, |cs|) && warnings == Repeats(cs, |cs|)
    ensures |deduped| + |warnings| == |cs|
  {
    var seen: set<string> := {};
    deduped, warnings := [], [];
    for i := 0 to |cs|
      invariant forall p :: p in seen <==> exists j :: 0 <= j < i && cs[j].purl == p
      invariant deduped == Firsts(cs, i) && warnings == Repeats(cs, i)
      invariant |deduped| + |warnings| == i
    {
      var purl := cs[i].purl;
      if purl in seen {
        warnings := warnings + [Duplicate(purl, cs[i].name)];
      } else {
        seen := seen + {purl};
        deduped := deduped + [cs[i]];
      }
    }
  }

  /** For components built in one ecosystem, being kept means that no earlier
      component has the same canonical name and version. */
  lemma KeptExactly(eco: Ecosystem, cs: seq<Component>, i: nat)
    requires i < |cs| && forall c :: c in cs ==> c == Build(eco, c.name, c.version)
    ensures IsFirst(cs, i) <==>
            forall j | 0 <= j < i ::
              !(Canonical(eco, cs[j].name) == Canonical(eco, cs[i].name) && cs[j].version == cs[i].version)
  {
    forall j | 0 <= j < i
      ensures cs[j].purl == cs[i].purl <==>
              Canonical(eco, cs[j].name) == Canonical(eco, cs[i].name) && cs[j].version == cs[i].version
    {
      assert cs[j] in cs && cs[i] in cs;
      PurlIsIdentity(eco, cs[j].name, cs[j].version, cs[i].name, cs[i].version);
    }
  }

  /** Nothing is lost: every component has a kept one with its identity. */
  lemma {:induction false} NothingLost(eco: Ecosystem, cs: seq<Component>, n: nat, i: nat)
    requires i < n <= |cs| && forall c :: c in cs ==> c == Build(eco, c.name, c.version)
    ensures exists k ::
              && k in Firsts(cs, n) && Canonical(eco, k.name) == Canonical(eco, cs[i].name)
              && k.version == cs[i].version
    decreases n, i
  {
    hide Purl;
    hide Lower;
    if i < n - 1 {
      NothingLost(eco, cs, n - 1, i);
      var k :| k in Firsts(cs, n - 1) && Canonical(eco, k.name) == Canonical(eco, cs[i].name) &&
          k.version == cs[i].version;
      assert k in Firsts(cs, n);
    } else if IsFirst(cs, i) {
      assert cs[i] in Firsts(cs, n);
    } else {
      var j :| 0 <= j < i && cs[j].purl == cs[i].purl;
      assert cs[j] in cs && cs[i] in cs;
      PurlIsIdentity(eco, cs[j].name, cs[j].version, cs[i].name, cs[i].version);
      NothingLost(eco, cs, n, j);
    }
  }
}

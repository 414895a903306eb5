/** The bounded same-origin crawl: what its visited set is, for every site. */
module Crawler {

  type Url = string

  /** An entry of the page queue. */
  datatype Entry = Entry(url: Url, depth: nat)

  /** The web as this crawl sees it; it may be infinite. `hrefs` are the
      absolute links of the fetched page, none when the fetch fails or the body
      is not HTML. `sameOrigin` is with the seed, `disallowed` is the robots
      gate, `outboundOk` is the URL policy for link checks. */
  datatype Site = Site(
    normalize: Url -> Url,
    hrefs: Url -> seq<Url>,
    sameOrigin: Url -> bool,
    disallowed: Url -> bool,
    outboundOk: Url -> bool)

  function Links(site: Site, u: Url): seq<Url> {
    var hrefs := site.hrefs(u);
    seq(|hrefs|, i requires 0 <= i < |hrefs| => site.normalize(hrefs[i]))
  }

  // ----- Distance: the reference definition

  /** A same-origin link on a page that robots.txt allows. */
  predicate Link(site: Site, v: Url, l: Url) {
    !site.disallowed(v) && l in Links(site, v) && site.sameOrigin(l)
  }

  /** Such a link leads from v to u: a link is normalised once more when it is
      followed, and normalising twice may differ from once. */
  predicate Step(site: Site, v: Url, u: Url) {
    exists l | l in Links(site, v) :: Link(site, v, l) && site.normalize(l) == u
  }

  /** u is reached from the start page over exactly k such links. */
  ghost predicate ReachIn(site: Site, start: Url, u: Url, k: nat)
    decreases k
  {
    if k == 0 then u == start else exists v :: ReachIn(site, start, v, k - 1) && Step(site, v, u)
  }

  /** d is the length of the shortest such chain. */
  ghost predicate Distance(site: Site, start: Url, u: Url, d: nat) {
    ReachIn(site, start, u, d) && forall k: nat | k < d :: !ReachIn(site, start, u, k)
  }

  /** A link spelled like a page that is reached no later than the link's own
      page leads to that very page. The crawl skips such a link. */
  ghost predicate NamesSettle(site: Site, start: Url, maxDepth: nat) {
    forall v, l, k: nat, j: nat ::
      j <= k < maxDepth && ReachIn(site, start, v, k) && Link(site, v, l) && ReachIn(site, start, l, j) ==>
          site.normalize(l) == l
  }

  /** Idempotent normalisation is enough. */
  lemma IdempotentSettles(site: Site, start: Url, maxDepth: nat)
    requires forall u :: site.normalize(site.normalize(u)) == site.normalize(u)
    ensures NamesSettle(site, start, maxDepth)
  {
  }

  /** Every recorded depth is a distance. */
  ghost predicate AllNearest(site: Site, start: Url, depths: map<Url, nat>) {
    forall u :: u in depths ==> Distance(site, start, u, depths[u])
  }

  // ----- The invariant of the search, on values

  ghost predicate QueueOk(site: Site, start: Url, maxDepth: nat, queue: seq<Entry>) {
    && (forall e :: e in queue ==> e.depth <= maxDepth && ReachIn(site, start, site.normalize(e.url), e.depth))
    && (forall i, j :: 0 <= i < j < |queue| ==> queue[i].depth <= queue[j].depth <= queue[0].depth + 1)
  }

  ghost predicate DepthsOk(site: Site, start: Url, maxDepth: nat, queue: seq<Entry>, depths: map<Url, nat>) {
    && (forall u :: u in depths ==> depths[u] <= maxDepth && ReachIn(site, start, u, depths[u]))
    && (queue != [] ==> forall u :: u in depths ==> depths[u] <= queue[0].depth)
  }

  /** u is visited, or waits in the queue, at depth d or less. */
  ghost predicate Covered(site: Site, queue: seq<Entry>, depths: map<Url, nat>, u: Url, d: nat) {
    (u in depths && depths[u] <= d) || exists e :: e in queue && site.normalize(e.url) == u && e.depth <= d
  }

  /** Nothing is visited or queued that is not reached at the depth recorded, and
      the start page is visited or waits. */
  ghost predicate Sound(site: Site, start: Url, maxDepth: nat, queue: seq<Entry>, depths: map<Url, nat>) {
    && QueueOk(site, start, maxDepth, queue) && DepthsOk(site, start, maxDepth, queue, depths)
    && Covered(site, queue, depths, start, 0)
  }

  ghost predicate Closed(site: Site, start: Url, maxDepth: nat, queue: seq<Entry>, depths: map<Url, nat>) {
    forall v, l :: v in depths && depths[v] < maxDepth && Link(site, v, l) ==>
      Covered(site, queue, depths, site.normalize(l), depths[v] + 1)
  }

  /** Nothing reached is missed: every link of an expanded page is accounted
      for, and every recorded depth is a distance. */
  ghost predicate Complete(site: Site, start: Url, maxDepth: nat, queue: seq<Entry>, depths: map<Url, nat>) {
    Closed(site, start, maxDepth, queue, depths) && AllNearest(site, start, depths)
  }

  lemma LastLink(site: Site, start: Url, u: Url, k: nat) returns (v: Url, l: Url)
    requires k > 0 && ReachIn(site, start, u, k)
    ensures ReachIn(site, start, v, k - 1) && Link(site, v, l) && site.normalize(l) == u
  {
    v :| ReachIn(site, start, v, k - 1) && Step(site, v, u);
    l :| l in Links(site, v) && Link(site, v, l) && site.normalize(l) == u;
  }

  lemma CoveredMeans(site: Site, start: Url, maxDepth: nat, queue: seq<Entry>, depths: map<Url, nat>, u: Url, d: nat)
    requires QueueOk(site, start, maxDepth, queue) && Covered(site, queue, depths, u, d)
    ensures (u in depths && depths[u] <= d) || (queue != [] && queue[0].depth <= d)
  {
    hide ReachIn;
  }

  /** Everything reachable over k links is visited, unless the queue still
      holds something at depth k or less. */
  lemma {:induction false} Frontier(site: Site, start: Url, maxDepth: nat, queue: seq<Entry>,
                                    depths: map<Url, nat>, u: Url, k: nat)
    requires Sound(site, start, maxDepth, queue, depths) && Closed(site, start, maxDepth, queue, depths)
    requires k <= maxDepth && ReachIn(site, start, u, k)
    ensures (u in depths && depths[u] <= k) || (queue != [] && queue[0].depth <= k)
    decreases k
  {
    if k == 0 {
      assert u == start;
    }
    hide ReachIn;
    hide Link;
    hide QueueOk;
    hide DepthsOk;
    hide Covered;
    if k > 0 {
      var v, l := LastLink(site, start, u, k);
      Frontier(site, start, maxDepth, queue, depths, v, k - 1);
      if v in depths && depths[v] <= k - 1 {
        CoveredMeans(site, start, maxDepth, queue, depths, u, depths[v] + 1);
      }
    } else {
      CoveredMeans(site, start, maxDepth, queue, depths, start, 0);
    }
  }

  /** The head of the queue, when its page is new, is at its distance. */
  lemma HeadIsNearest(site: Site, start: Url, maxDepth: nat, queue: seq<Entry>, depths: map<Url, nat>)
    requires Sound(site, start, maxDepth, queue, depths) && Closed(site, start, maxDepth, queue, depths) && queue != []
    requires site.normalize(queue[0].url) !in depths
    ensures Distance(site, start, site.normalize(queue[0].url), queue[0].depth)
  {
    var u := site.normalize(queue[0].url);
    forall k: nat | k < queue[0].depth ensures !ReachIn(site, start, u, k) {
      if ReachIn(site, start, u, k) { Frontier(site, start, maxDepth, queue, depths, u, k); }
    }
  }

  /** Popping a page that is already visited. */
  lemma PopKeeps(site: Site, start: Url, maxDepth: nat, queue: seq<Entry>, depths: map<Url, nat>)
    requires Sound(site, start, maxDepth, queue, depths) && queue != []
    requires site.normalize(queue[0].url) in depths
    ensures Sound(site, start, maxDepth, queue[1..], depths)
    ensures Complete(site, start, maxDepth, queue, depths) ==> Complete(site, start, maxDepth, queue[1..], depths)
  {
  }

  /** The entries that a visit to u at depth d appends: links not spelled like a
      visited page, one level deeper; all of them below the depth cap. */
  ghost predicate Appends(site: Site, maxDepth: nat, visited: set<Url>, u: Url, d: nat, more: seq<Entry>) {
    && (forall e :: e in more ==> e.depth == d + 1 <= maxDepth && Link(site, u, e.url) && e.url !in visited)
    && (d < maxDepth ==> forall l :: Link(site, u, l) && l !in visited ==> Entry(l, d + 1) in more)
  }

  lemma StepBy(site: Site, start: Url, v: Url, l: Url, k: nat)
    requires ReachIn(site, start, v, k) && Link(site, v, l)
    ensures ReachIn(site, start, site.normalize(l), k + 1)
  {
    assert Step(site, v, site.normalize(l));
  }

  lemma CoveredKept(site: Site, queue: seq<Entry>, depths: map<Url, nat>, u: Url, more: seq<Entry>, w: Url, k: nat)
    requires queue != [] && u == site.normalize(queue[0].url) && u !in depths && Covered(site, queue, depths, w, k)
    ensures Covered(site, queue[1..] + more, depths[u := queue[0].depth], w, k)
  {
  }

  lemma VisitKeepsQueue(site: Site, start: Url, maxDepth: nat, queue: seq<Entry>, u: Url, visited: set<Url>,
      more: seq<Entry>)
    requires QueueOk(site, start, maxDepth, queue) && queue != []
    requires u == site.normalize(queue[0].url) && Appends(site, maxDepth, visited, u, queue[0].depth, more)
    ensures QueueOk(site, start, maxDepth, queue[1..] + more)
    ensures forall e :: e in queue[1..] + more ==> queue[0].depth <= e.depth
  {
    assert queue[0] in queue;
    forall e | e in more ensures ReachIn(site, start, site.normalize(e.url), e.depth) {
      StepBy(site, start, u, e.url, queue[0].depth);
    }
    hide Link;
    hide ReachIn;
  }

  lemma VisitKeepsDepths(site: Site, start: Url, maxDepth: nat, queue: seq<Entry>, depths: map<Url, nat>, u: Url,
      rest: seq<Entry>)
    requires DepthsOk(site, start, maxDepth, queue, depths) && queue != [] && u !in depths
    requires queue[0].depth <= maxDepth && ReachIn(site, start, u, queue[0].depth)
    requires forall e :: e in rest ==> queue[0].depth <= e.depth
    ensures DepthsOk(site, start, maxDepth, rest, depths[u := queue[0].depth])
  {
    hide ReachIn;
    HeadIn(rest);
  }

  lemma HeadIn(queue: seq<Entry>)
    ensures queue == [] || queue[0] in queue
  {
  }

  lemma VisitIsSound(site: Site, start: Url, maxDepth: nat, queue: seq<Entry>, depths: map<Url, nat>, u: Url,
      more: seq<Entry>)
    requires Sound(site, start, maxDepth, queue, depths) && queue != [] && u !in depths
    requires u == site.normalize(queue[0].url) && Appends(site, maxDepth, depths.Keys + {u}, u, queue[0].depth, more)
    ensures Sound(site, start, maxDepth, queue[1..] + more, depths[u := queue[0].depth])
  {
    VisitKeepsQueue(site, start, maxDepth, queue, u, depths.Keys + {u}, more);
    CoveredKept(site, queue, depths, u, more, start, 0);
    HeadIn(queue);
    hide Covered;
    hide Appends;
    hide ReachIn;
    hide DepthsOk;
    VisitKeepsDepths(site, start, maxDepth, queue, depths, u, queue[1..] + more);
    hide QueueOk;
  }

  lemma NewPageIsClosed(site: Site, start: Url, maxDepth: nat, queue: seq<Entry>, depths: map<Url, nat>,
                        u: Url, more: seq<Entry>, l: Url)
    requires NamesSettle(site, start, maxDepth) && Sound(site, start, maxDepth, queue, depths) && queue != []
    requires u == site.normalize(queue[0].url) && Appends(site, maxDepth, depths.Keys + {u}, u, queue[0].depth, more)
    requires queue[0].depth < maxDepth && Link(site, u, l)
    ensures Covered(site, queue[1..] + more, depths[u := queue[0].depth], site.normalize(l), queue[0].depth + 1)
  {
    var d := queue[0].depth;
    assert queue[0] in queue;
    hide ReachIn;
    hide Link;
    if l in depths.Keys + {u} {
      assert ReachIn(site, start, u, d);
      assert ReachIn(site, start, l, if l == u then d else depths[l]);
    } else {
      assert Entry(l, d + 1) in queue[1..] + more;
    }
  }

  lemma VisitKeepsClosed(site: Site, start: Url, maxDepth: nat, queue: seq<Entry>, depths: map<Url, nat>,
                         u: Url, more: seq<Entry>)
    requires NamesSettle(site, start, maxDepth) && Sound(site, start, maxDepth, queue, depths)
    requires Closed(site, start, maxDepth, queue, depths) && queue != []
    requires u == site.normalize(queue[0].url) && u !in depths
    requires Appends(site, maxDepth, depths.Keys + {u}, u, queue[0].depth, more)
    ensures Closed(site, start, maxDepth, queue[1..] + more, depths[u := queue[0].depth])
  {
    hide Covered;
    hide Appends;
    hide NamesSettle;
    hide Sound;
    hide Link;
    forall v, l | v in depths && depths[v] < maxDepth && Link(site, v, l)
      ensures Covered(site, queue[1..] + more, depths[u := queue[0].depth], site.normalize(l), depths[v] + 1)
    {
      CoveredKept(site, queue, depths, u, more, site.normalize(l), depths[v] + 1);
    }
    forall l | queue[0].depth < maxDepth && Link(site, u, l)
      ensures Covered(site, queue[1..] + more, depths[u := queue[0].depth], site.normalize(l), queue[0].depth + 1)
    {
      NewPageIsClosed(site, start, maxDepth, queue, depths, u, more, l);
    }
  }

  /** Visiting a new page. */
  lemma VisitKeeps(site: Site, start: Url, maxDepth: nat, queue: seq<Entry>, depths: map<Url, nat>, u: Url,
      more: seq<Entry>)
    requires Sound(site, start, maxDepth, queue, depths) && queue != []
    requires u == site.normalize(queue[0].url) && u !in depths
    requires Appends(site, maxDepth, depths.Keys + {u}, u, queue[0].depth, more)
    ensures Sound(site, start, maxDepth, queue[1..] + more, depths[u := queue[0].depth])
    ensures NamesSettle(site, start, maxDepth) && Complete(site, start, maxDepth, queue, depths) ==>
              Complete(site, start, maxDepth, queue[1..] + more, depths[u := queue[0].depth])
  {
    hide Sound;
    hide Closed;
    hide Appends;
    hide NamesSettle;
    hide Distance;
    VisitIsSound(site, start, maxDepth, queue, depths, u, more);
    if NamesSettle(site, start, maxDepth) && Complete(site, start, maxDepth, queue, depths) {
      HeadIsNearest(site, start, maxDepth, queue, depths);
      VisitKeepsClosed(site, start, maxDepth, queue, depths, u, more);
    }
  }

  lemma RefuseKeeps(site: Site, start: Url, maxDepth: nat, queue: seq<Entry>, depths: map<Url, nat>, u: Url)
    requires Sound(site, start, maxDepth, queue, depths) && queue != []
    requires u == site.normalize(queue[0].url) && u !in depths && site.disallowed(u)
    ensures Sound(site, start, maxDepth, queue[1..], depths[u := queue[0].depth])
    ensures NamesSettle(site, start, maxDepth) && Complete(site, start, maxDepth, queue, depths) ==>
              Complete(site, start, maxDepth, queue[1..], depths[u := queue[0].depth])
  {
    VisitKeeps(site, start, maxDepth, queue, depths, u, []);
    assert queue[1..] + [] == queue[1..];
  }

  // ----- The crawl state and its loop

  predicate Distinct<T(==)>(s: seq<T>) {
    forall i, j :: 0 <= i < j < |s| ==> s[i] != s[j]
  }

  lemma DistinctConcat<T>(s: seq<T>, t: seq<T>)
    requires Distinct(s) && Distinct(t) && forall x :: x in s ==> x !in t
    ensures Distinct(s + t)
  {
    var u := s + t;
    forall i, j | 0 <= i < j < |u| ensures u[i] != u[j] {
      if i < |s| <= j { assert u[i] in s && u[j] in t; }
    }
  }

  /** Links worth a HEAD request. */
  predicate Qualifies(site: Site, includeExternal: bool, l: Url) {
    (site.sameOrigin(l) || includeExternal) && site.outboundOk(l)
  }

  /** Every visited page was either fetched or refused by robots.txt, once. */
  ghost predicate Pages(site: Site, depths: map<Url, nat>, fetched: seq<Url>, robotsHits: seq<Entry>) {
    && |depths| == |fetched| + |robotsHits| && Distinct(fetched)
    && (forall u :: u in fetched <==> u in depths && !site.disallowed(u))
    && (forall e :: e in robotsHits <==> e.url in depths && site.disallowed(e.url) && e.depth == depths[e.url])
  }

  /** Every qualifying link of a fetched page is checked, once. */
  ghost predicate Checks(site: Site, includeExternal: bool, linksChecked: set<Url>, targets: seq<Url>,
      fetched: seq<Url>) {
    && Distinct(targets)
    && (forall l :: l in linksChecked <==> l in targets)
    && (forall l :: l in linksChecked <==> Qualifies(site, includeExternal, l) && LinkedFrom(site, fetched, l))
  }

  predicate LinkedFrom(site: Site, pages: seq<Url>, l: Url) {
    exists p :: p in pages && l in Links(site, p)
  }

  lemma PagesGrow(site: Site, depths: map<Url, nat>, fetched: seq<Url>, robotsHits: seq<Entry>, u: Url, d: nat)
    requires Pages(site, depths, fetched, robotsHits) && u !in depths
    ensures if site.disallowed(u) then Pages(site, depths[u := d], fetched, robotsHits + [Entry(u, d)])
            else Pages(site, depths[u := d], fetched + [u], robotsHits)
  {
  }

  lemma ChecksGrow(site: Site, includeExternal: bool, linksChecked: set<Url>, fetched: seq<Url>, u: Url, l: Url)
    requires l in linksChecked <==> Qualifies(site, includeExternal, l) && LinkedFrom(site, fetched, l)
    ensures (l in linksChecked || (l in Links(site, u) && Qualifies(site, includeExternal, l)))
            <==> Qualifies(site, includeExternal, l) && LinkedFrom(site, fetched + [u], l)
  {
  }

  // ----- What the visited set is

  /** The visited set is exactly what the depth cap lets be reached. */
  ghost predicate ReachesExactly(site: Site, start: Url, visited: set<Url>, maxDepth: nat) {
    forall u :: u in visited <==> exists k: nat :: k <= maxDepth && ReachIn(site, start, u, k)
  }

  /** Every page nearer than d is visited. */
  ghost predicate ReachesBelow(site: Site, start: Url, visited: set<Url>, d: nat) {
    forall u, k: nat :: k < d && ReachIn(site, start, u, k) ==> u in visited
  }

  /** Every link of a visited page above the cap leads to a visited page, at most
      one level deeper. */
  ghost predicate LinksAreFollowed(site: Site, maxDepth: nat, depths: map<Url, nat>) {
    forall v, l :: v in depths && depths[v] < maxDepth && Link(site, v, l) ==>
      site.normalize(l) in depths && depths[site.normalize(l)] <= depths[v] + 1
  }

  /** A crawl that has emptied its queue carries its own certificate, on every
      site: it found exactly the reachable pages, each at its distance, exactly
      when the links of what it visited are followed. */
  lemma Certificate(site: Site, start: Url, maxDepth: nat, depths: map<Url, nat>)
    requires Sound(site, start, maxDepth, [], depths)
    ensures AllNearest(site, start, depths) && ReachesExactly(site, start, depths.Keys, maxDepth) <==>
            LinksAreFollowed(site, maxDepth, depths)
  {
    if LinksAreFollowed(site, maxDepth, depths) {
      assert Closed(site, start, maxDepth, [], depths);
      forall u, k: nat | k <= maxDepth && ReachIn(site, start, u, k) ensures u in depths && depths[u] <= k {
        Frontier(site, start, maxDepth, [], depths, u, k);
      }
    }
    if AllNearest(site, start, depths) && ReachesExactly(site, start, depths.Keys, maxDepth) {
      forall v, l | v in depths && depths[v] < maxDepth && Link(site, v, l)
        ensures site.normalize(l) in depths && depths[site.normalize(l)] <= depths[v] + 1
      {
        StepBy(site, start, v, l, depths[v]);
      }
    }
  }

  class Crawl {
    const site: Site
    const seed: Url
    const maxPages: nat
    const maxDepth: nat
    const includeExternal: bool

    var queue: seq<Entry>
    var visited: set<Url>
    var pagesCrawled: nat
    var robotsHits: seq<Entry>
    var linksChecked: set<Url>
    // The requests made: pages fetched, links handed to the HEAD checker.
    var fetched: seq<Url>
    var targets: seq<Url>
    // The depth each visited page was popped at.
    ghost var depths: map<Url, nat>

    constructor (site: Site, seed: Url, maxPages: nat, maxDepth: nat, includeExternal: bool)
      ensures Valid() && queue == [Entry(seed, 0)] && visited == {} && fetched == []
      ensures this.site == site && this.seed == seed && this.maxPages == maxPages
      ensures this.maxDepth == maxDepth && this.includeExternal == includeExternal
    {
      this.site, this.seed, this.maxPages, this.maxDepth, this.includeExternal :=
          site, seed, maxPages, maxDepth, includeExternal;
      queue, visited, pagesCrawled, robotsHits, linksChecked := [Entry(seed, 0)], {}, 0, [], {};
      fetched, targets, depths := [], [], map[];
      new;
      assert Entry(seed, 0) in queue;
    }

    ghost function Start(): Url { site.normalize(seed) }

    ghost predicate Valid()
      reads this
    {
      && Sound(site, Start(), maxDepth, queue, depths)
      && (NamesSettle(site, Start(), maxDepth) ==> Complete(site, Start(), maxDepth, queue, depths))
      && visited == depths.Keys && pagesCrawled == |fetched| <= maxPages
      && Pages(site, depths, fetched, robotsHits)
      && Checks(site, includeExternal, linksChecked, targets, fetched)
    }

    method CandidateLinkTargets(pageLinks: seq<Url>) returns (picked: seq<Url>)
      modifies this`linksChecked
      ensures Distinct(picked)
      ensures forall l :: l in picked <==>
          l in pageLinks && l !in old(linksChecked) && Qualifies(site, includeExternal, l)
      ensures linksChecked == old(linksChecked) + set l | l in picked
    {
      picked := [];
      for i := 0 to |pageLinks|
        invariant Distinct(picked)
        invariant forall l :: l in picked <==>
                      l in pageLinks[..i] && l !in old(linksChecked) && Qualifies(site, includeExternal, l)
        invariant linksChecked == old(linksChecked) + set l | l in picked
      {
        var link := pageLinks[i];
        assert pageLinks[..i + 1] == pageLinks[..i] + [link];
        if link !in linksChecked && (site.sameOrigin(link) || includeExternal) && site.outboundOk(link) {
          linksChecked := linksChecked + {link};
          picked := picked + [link];
        }
      }
    }

    /** Fetch one page, queue its unvisited same-origin links one level deeper
        when the depth cap allows, and hand its links to the checker. */
    method ProcessPage(url: Url, depth: nat) returns (ghost more: seq<Entry>)
      requires !site.disallowed(url) && Checks(site, includeExternal, linksChecked, targets, fetched)
      modifies this`queue, this`linksChecked, this`fetched, this`targets
      ensures fetched == old(fetched) + [url]
      ensures queue == old(queue) + more && Appends(site, maxDepth, visited, url, depth, more)
      ensures Checks(site, includeExternal, linksChecked, targets, fetched)
    {
      fetched := fetched + [url];
      var pageLinks := Links(site, url);
      more := [];
      if depth < maxDepth {
        for i := 0 to |pageLinks|
          modifies this`queue
          invariant queue == old(queue) + more
          invariant forall e :: e in more ==> e.depth == depth + 1 && Link(site, url, e.url) && e.url !in visited
          invariant forall l :: l in pageLinks[..i] && Link(site, url, l) && l !in visited ==>
              Entry(l, depth + 1) in more
        {
          var child := pageLinks[i];
          assert pageLinks[..i + 1] == pageLinks[..i] + [child];
          if site.sameOrigin(child) && child !in visited {
            queue := queue + [Entry(child, depth + 1)];
            more := more + [Entry(child, depth + 1)];
          }
        }
        assert pageLinks[..|pageLinks|] == pageLinks;
      }
      CheckLinks(url);
    }

    /** The links of the page just fetched go to the checker. */
    method CheckLinks(url: Url)
      requires fetched != [] && url == fetched[|fetched| - 1]
      requires Checks(site, includeExternal, linksChecked, targets, fetched[..|fetched| - 1])
      modifies this`linksChecked, this`targets
      ensures Checks(site, includeExternal, linksChecked, targets, fetched)
    {
      var picked := CandidateLinkTargets(Links(site, url));
      DistinctConcat(targets, picked);
      targets := targets + picked;
      ghost var before := fetched[..|fetched| - 1];
      assert before + [url] == fetched;
      forall l ensures l in linksChecked <==> Qualifies(site, includeExternal, l) && LinkedFrom(site, fetched, l) {
        ChecksGrow(site, includeExternal, old(linksChecked), before, url, l);
      }
    }

    /** A new page that robots.txt refuses is recorded and not fetched. */
    method Refuse(url: Url)
      requires Valid() && queue != [] && url == site.normalize(queue[0].url) && url !in visited && site.disallowed(url)
      modifies this`queue, this`visited, this`robotsHits, this`depths
      ensures Valid() && queue == old(queue)[1..]
    {
      hide Sound;
      hide Complete;
      hide NamesSettle;
      hide Pages;
      var depth := queue[0].depth;
      RefuseKeeps(site, Start(), maxDepth, queue, depths, url);
      PagesGrow(site, depths, fetched, robotsHits, url, depth);
      queue, visited, robotsHits := queue[1..], visited + {url}, robotsHits + [Entry(url, depth)];
      depths := depths[url := depth];
    }

    /** A new page that may be crawled is counted and processed. */
    method Visit(url: Url) returns (ghost more: seq<Entry>)
      requires Valid() && queue != [] && url == site.normalize(queue[0].url) && url !in visited && !site.disallowed(url)
      requires pagesCrawled < maxPages
      modifies this
      ensures Valid() && pagesCrawled == old(pagesCrawled) + 1
      ensures visited == old(visited) + {url} && fetched == old(fetched) + [url]
      ensures queue == old(queue)[1..] + more && Appends(site, maxDepth, visited, url, old(queue)[0].depth, more)
    {
      hide Sound;
      hide Complete;
      hide NamesSettle;
      hide Pages;
      var depth := queue[0].depth;
      PagesGrow(site, depths, fetched, robotsHits, url, depth);
      queue, visited, pagesCrawled := queue[1..], visited + {url}, pagesCrawled + 1;
      depths := depths[url := depth];
      more := ProcessPage(url, depth);
      VisitKeeps(site, Start(), maxDepth, old(queue), old(depths), url, more);
    }

    /** The loop: until the queue is empty, the page cap is hit, or the clock
        passes the deadline (any iteration may find it has). */
    method Loop()
      requires Valid()
      modifies this
      ensures Valid()
      ensures NamesSettle(site, Start(), maxDepth) ==>
                if queue == [] then ReachesExactly(site, Start(), visited, maxDepth)
                else ReachesBelow(site, Start(), visited, queue[0].depth)
    {
      hide Pages;
      hide Checks;
      hide NamesSettle;
      hide Link;
      hide Covered;
      while queue != [] && pagesCrawled < maxPages
        invariant Valid()
        decreases maxPages - pagesCrawled, |queue|
      {
        if * { break; }
        var url := site.normalize(queue[0].url);
        if url in visited {
          PopKeeps(site, Start(), maxDepth, queue, depths);
          queue := queue[1..];
        } else if site.disallowed(url) {
          Refuse(url);
        } else {
          var _ := Visit(url);
        }
      }
      forall u, k: nat | NamesSettle(site, Start(), maxDepth) && k <= maxDepth && ReachIn(site, Start(), u, k)
        ensures (u in depths && depths[u] <= k) || (queue != [] && queue[0].depth <= k)
      {
        Frontier(site, Start(), maxDepth, queue, depths, u, k);
      }
    }
  }

  // ----- A page that is lost

  /** The host and page that `http://x/a #f` names: the first normalisation drops
      the fragment and leaves a trailing space, the second drops the space. */
  function Trailing(): Site {
    Site(u => if u == "http://x/a #f" then "http://x/a " else if u == "http://x/a " then "http://x/a" else u,
         u => if u == "http://x/a " then ["http://x/a #f"] else [],
         _ => true, _ => false, _ => true)
  }

  lemma TrailingLinks(page: Url, maxDepth: nat)
    requires page == "http://x/a " && maxDepth > 0
    ensures Trailing().normalize("http://x/a #f") == page && Trailing().normalize(page) == "http://x/a" != page
    ensures Links(Trailing(), page) == [page] && !Trailing().disallowed(page)
    ensures ReachIn(Trailing(), page, "http://x/a", 1) && !NamesSettle(Trailing(), page, maxDepth)
  {
    assert |page| == 11 && |"http://x/a #f"| == 13 && |"http://x/a"| == 10;
    assert Links(Trailing(), page) == [page];
    assert Link(Trailing(), page, page);
    assert ReachIn(Trailing(), page, page, 0);
    StepBy(Trailing(), page, page, page, 0);
  }

  /** NamesSettle is needed. The page `http://x/a ` links to itself by the
      spelling it was found under; followed, that link would lead to
      `http://x/a`. The crawl skips it and ends, with pages and depth to spare,
      without the page one link away. */
  method LostPage() returns (c: Crawl)
    ensures c.queue == [] && c.pagesCrawled == 1 < c.maxPages && c.maxDepth > 0
    ensures ReachIn(c.site, c.Start(), "http://x/a", 1) && "http://x/a" !in c.visited
    ensures !NamesSettle(c.site, c.Start(), c.maxDepth)
  {
    hide ReachIn;
    hide Sound;
    hide Complete;
    hide Pages;
    hide Checks;
    hide NamesSettle;
    hide Trailing;
    hide Links;
    c := new Crawl(Trailing(), "http://x/a #f", 2, 1, false);
    var page := "http://x/a ";
    TrailingLinks(page, 1);
    var more := c.Visit(page);
    HeadIn(more);
  }

  // ----- One crawl, as its caller sees it

  /** `pending` is what the queue still holds when the crawl stops. */
  datatype Result = Result(
    visited: set<Url>, fetched: seq<Url>, robotsHits: seq<Entry>, targets: seq<Url>, pending: seq<Entry>,
    billingUnits: nat)

  /** `_crawl`, on any site, finite or not, whenever the clock stops it. */
  method RunCrawl(site: Site, seed: Url, maxPages: nat, maxDepth: nat, includeExternal: bool)
    returns (r: Result, ghost depths: map<Url, nat>)
    ensures depths.Keys == r.visited
    ensures NamesSettle(site, site.normalize(seed), maxDepth) ==>
              if r.pending == [] then ReachesExactly(site, site.normalize(seed), r.visited, maxDepth)
              else ReachesBelow(site, site.normalize(seed), r.visited, r.pending[0].depth)
    ensures r.pending == [] ==>
              (AllNearest(site, site.normalize(seed), depths)
               && ReachesExactly(site, site.normalize(seed), r.visited, maxDepth)
               <==> LinksAreFollowed(site, maxDepth, depths))
    ensures forall u :: u in r.visited ==> depths[u] <= maxDepth && ReachIn(site, site.normalize(seed), u, depths[u])
    ensures NamesSettle(site, site.normalize(seed), maxDepth) ==> AllNearest(site, site.normalize(seed), depths)
    ensures Pages(site, depths, r.fetched, r.robotsHits) && |r.fetched| <= maxPages
    ensures Distinct(r.targets)
    ensures forall l :: l in r.targets <==> Qualifies(site, includeExternal, l) && LinkedFrom(site, r.fetched, l)
    ensures r.billingUnits == if r.fetched == [] then 1 else |r.fetched|
  {
    var c := new Crawl(site, seed, maxPages, maxDepth, includeExternal);
    c.Loop();
    var billingUnits := if c.pagesCrawled < 1 then 1 else c.pagesCrawled;
    r := Result(c.visited, c.fetched, c.robotsHits, c.targets, c.queue, billingUnits);
    depths := c.depths;
    if r.pending == [] { Certificate(site, site.normalize(seed), maxDepth, depths); }
    hide LinksAreFollowed;
    hide Pages;
    hide Distance;
    hide Closed;
    hide NamesSettle;
  }
}

/** CVE-id lookups through the in-process cache. The cache hands out the stored
    record itself, and each call then normalises and stamps it in place, under
    the KEV catalogue it finds at that moment. */
module CveCache {
  import opened Wrappers

  const TTL: int := 3600
  const MAX_ENTRIES: nat := 1024

  /** The fields a source fills in; `body` stands for the ones nothing here reads. */
  datatype Detail = Detail(cveId: string, description: string, published: string, lastModified: string, body: string)

  /** A row of package mode, before and after a lookup has been merged into it. */
  datatype Advisory = Advisory(
    cve: string, description: string, published: string, lastModified: string, fixedIn: string, body: string)

  function Either(s: string, t: string): string { if s != "" then s else t }

  function Upto(s: string, n: nat): string { if |s| <= n then s else s[..n] }

  /** The lookup's own fields, cut to length; what is empty comes from the row. */
  function Merged(id: string, d: Detail, row: Advisory): Advisory {
    Advisory(
      Either(d.cveId, id),
      Upto(Either(d.description, row.description), 400),
      Upto(Either(d.published, row.published), 10),
      Upto(Either(d.lastModified, row.lastModified), 10),
      row.fixedIn,
      d.body)
  }

  datatype Answer = Found(detail: Detail) | Failed(error: string)

  datatype Source = Unset | CisaKev | KeywordHeuristic | NoSource

  datatype Kev = KevUnset | Listed(dateAdded: string) | NotListed

  /** The contents of one record; `cve` and the last three are keys that may
      still be missing. */
  datatype Data =
    | Hit(detail: Detail, cve: Option<string>, exploit: Option<bool>, source: Source, kev: Kev)
    | Miss(cveId: string, error: string, cve: Option<string>)

  /** What a lookup depends on besides cache and catalogue: the two databases
      and three text tests. */
  datatype World = World(
    nvd: string -> Answer,
    osv: string -> Answer,
    transient: string -> bool,
    marker: string -> bool,
    upper: string -> string)

  /** The KEV catalogue, None while unavailable. */
  type Catalog = Option<map<string, string>>

  /** One call of CVE-id mode: `clock` gives its clock readings, two for each id. */
  datatype Request = Request(ids: seq<string>, catalog: Catalog, clock: nat -> int)

  function Fresh(d: Detail): Data { Hit(d, None, None, Unset, KevUnset) }

  function IdOf(d: Data): string { if d.Hit? then d.detail.cveId else d.cveId }

  /** Mirror the id under the `cve` key. */
  function Normalize(d: Data): Data {
    if d.cve == None && IdOf(d) != "" then d.(cve := Some(IdOf(d))) else d
  }

  predicate InCatalog(w: World, k: Catalog, d: Data) {
    k.Some? && IdOf(d) != "" && w.upper(IdOf(d)) in k.value
  }

  /** The exploit fields; `exploit` is read back before it is written. */
  function Stamp(w: World, k: Catalog, d: Data): Data {
    if d.Miss? then d
    else if InCatalog(w, k, d)
        then d.(exploit := Some(true), source := CisaKev, kev := Listed(k.value[w.upper(IdOf(d))]))
    else
      var keyword := d.exploit == Some(true) || w.marker(d.detail.description);
      d.(exploit := Some(keyword), source := if keyword then KeywordHeuristic else NoSource, kev := NotListed)
  }

  function Settle(w: World, k: Catalog, d: Data): Data { Stamp(w, k, Normalize(d)) }

  /** A lookup with no cache: NVD, and OSV when NVD failed in passing. */
  function Looked(w: World, id: string): Data {
    match w.nvd(id)
    case Found(d) => Fresh(d)
    case Failed(error) =>
      if w.transient(error) && w.osv(id).Found? then Fresh(w.osv(id).detail) else Miss(id, error, None)
  }

  /** The record an uncached call reports for this id. */
  function Final(w: World, k: Catalog, id: string): Data { Settle(w, k, Looked(w, id)) }

  lemma SettleIsIdempotent(w: World, k: Catalog, d: Data)
    ensures Settle(w, k, Settle(w, k, d)) == Settle(w, k, d)
    ensures Settle(w, k, Normalize(d)) == Settle(w, k, d)
    ensures Settle(w, k, d).Hit? <==> d.Hit?
    ensures d.Hit? ==> Settle(w, k, d).detail == d.detail
  {
  }

  /** What a reported record says, whichever database it came from: the catalogue
      decides the source and the date, a keyword alone counts as a heuristic hit,
      and both id keys agree. */
  lemma FinalSays(w: World, k: Catalog, id: string)
    requires Looked(w, id).Hit?
    ensures var d, r := Looked(w, id).detail, Final(w, k, id);
            var listed := k.Some? && d.cveId != "" && w.upper(d.cveId) in k.value;
            && r.Hit? && r.detail == d
            && (r.exploit == Some(true) <==> listed || w.marker(d.description))
            && (r.source == CisaKev <==> listed) &&
                (r.source == KeywordHeuristic <==> !listed && w.marker(d.description))
            && (r.kev.Listed? <==> listed) && (listed ==> r.kev.dateAdded == k.value[w.upper(d.cveId)])
            && (d.cveId != "" ==> r.cve == Some(d.cveId))
  {
  }

  // ----- A record that is stamped again and again

  /** A record after one call under each of these catalogues. */
  function Aged(w: World, d: Data, past: seq<Catalog>): Data {
    if past == [] then d else Settle(w, past[|past| - 1], Aged(w, d, past[..|past| - 1]))
  }

  lemma AgedSnoc(w: World, d: Data, past: seq<Catalog>, k: Catalog)
    ensures Aged(w, d, past + [k]) == Settle(w, k, Aged(w, d, past))
  {
  }

  predicate Ever(w: World, past: seq<Catalog>, d: Data) { exists k | k in past :: InCatalog(w, k, d) }

  lemma EverSnoc(w: World, past: seq<Catalog>, k: Catalog, d: Data)
    ensures Ever(w, past + [k], d) <==> Ever(w, past, d) || InCatalog(w, k, d)
  {
    hide InCatalog;
    assert k in past + [k];
    assert forall x :: x in past + [k] <==> x in past || x == k;
    if Ever(w, past, d) {
      var x :| x in past && InCatalog(w, x, d);
      assert x in past + [k];
    }
  }

  lemma SettleOnce(w: World, k: Catalog, d: Data)
    ensures Settle(w, k, d).Hit? <==> d.Hit?
    ensures IdOf(Settle(w, k, d)) == IdOf(d) && Normalize(Settle(w, k, d)).cve == Normalize(d).cve
    ensures d.Hit? ==> Settle(w, k, d).detail == d.detail
    ensures d.Hit? ==> (Settle(w, k, d).exploit == Some(true) <==>
                          InCatalog(w, k, d) || d.exploit == Some(true) || w.marker(d.detail.description))
    ensures d.Miss? ==> Settle(w, k, d) == Normalize(d)
  {
  }

  /** Of a record's past only this much is left: whether some catalogue listed it. */
  lemma {:induction false} AgedKeeps(w: World, d: Data, past: seq<Catalog>)
    requires d.Miss? || d == Fresh(d.detail)
    ensures Aged(w, d, past).Hit? <==> d.Hit?
    ensures IdOf(Aged(w, d, past)) == IdOf(d) && Normalize(Aged(w, d, past)).cve == Normalize(d).cve
    ensures d.Hit? ==> Aged(w, d, past).detail == d.detail
    ensures d.Hit? ==> (Aged(w, d, past).exploit == Some(true) <==>
        past != [] && (Ever(w, past, d) || w.marker(d.detail.description)))
    ensures d.Miss? ==> Normalize(Aged(w, d, past)) == Normalize(d)
    decreases |past|
  {
    hide Ever;
    hide Settle;
    if past == [] {
      NeverListed(w, d);
    } else {
      var n := |past| - 1;
      var before := Aged(w, d, past[..n]);
      AgedKeeps(w, d, past[..n]);
      SettleOnce(w, past[n], before);
      hide Aged;
      assert past == past[..n] + [past[n]];
      EverSnoc(w, past[..n], past[n], d);
      if past[..n] == [] { NeverListed(w, d); }
    }
  }

  lemma NeverListed(w: World, d: Data)
    ensures !Ever(w, [], d)
  {
  }

  /** After any number of calls, a record reported under the catalogue `now`
      differs from one that was just fetched exactly when an earlier catalogue
      listed it, the present one does not (or is unavailable), and no keyword
      speaks for it. */
  lemma CatalogueDrift(w: World, d: Detail, past: seq<Catalog>, now: Catalog)
    ensures Settle(w, now, Aged(w, Fresh(d), past)) == Settle(w, now, Fresh(d)) <==>
            !(Ever(w, past, Fresh(d)) && !InCatalog(w, now, Fresh(d)) && !w.marker(d.description))
  {
    AgedKeeps(w, Fresh(d), past);
    if past == [] { NeverListed(w, Fresh(d)); }
    hide Aged;
    hide Ever;
  }

  // ----- The calls that concern one id

  function Catalogs(asks: seq<Request>, id: string): seq<Catalog> {
    if asks == [] then []
    else
      var last := asks[|asks| - 1];
      Catalogs(asks[..|asks| - 1], id) + (if id in last.ids then [last.catalog] else [])
  }

  lemma CatalogsSnoc(asks: seq<Request>, q: Request, id: string)
    ensures Catalogs(asks + [q], id) == Catalogs(asks, id) + (if id in q.ids then [q.catalog] else [])
  {
  }

  /** A call among those from `since` up to `until` asked for the id under a
      catalogue that lists it. */
  predicate ListedSince(w: World, asks: seq<Request>, since: nat, until: nat, id: string)
    requires until <= |asks|
  {
    exists j | since <= j < until :: id in asks[j].ids && InCatalog(w, asks[j].catalog, Looked(w, id))
  }

  /** The reply of call `now` about this id, on a record fetched in call `since`,
      is not what an uncached lookup would say. */
  predicate Drifted(w: World, asks: seq<Request>, since: nat, now: nat, id: string)
    requires now < |asks|
  {
    && Looked(w, id).Hit? && ListedSince(w, asks, since, now, id)
    && !InCatalog(w, asks[now].catalog, Looked(w, id)) && !w.marker(Looked(w, id).detail.description)
  }

  lemma {:induction false} EverIsListed(w: World, asks: seq<Request>, since: nat, until: nat, id: string)
    requires since <= until <= |asks|
    ensures Ever(w, Catalogs(asks[since..until], id), Looked(w, id)) <==> ListedSince(w, asks, since, until, id)
    decreases until - since
  {
    hide InCatalog;
    hide Looked;
    if since < until {
      EverIsListed(w, asks, since, until - 1, id);
      assert asks[since..until] == asks[since..until - 1] + [asks[until - 1]];
      CatalogsSnoc(asks[since..until - 1], asks[until - 1], id);
      EverSnoc(w, Catalogs(asks[since..until - 1], id), asks[until - 1].catalog, Looked(w, id));
    }
  }

  /** With one catalogue throughout nothing drifts. */
  lemma OneCatalogue(w: World, asks: seq<Request>, since: nat, now: nat, id: string)
    requires now < |asks| && forall j :: since <= j < now ==> asks[j].catalog == asks[now].catalog
    ensures !Drifted(w, asks, since, now, id)
  {
  }

  class Record {
    var data: Data
    constructor (d: Data)
      ensures data == d
    {
      data := d;
    }
  }

  datatype Entry = Entry(expires: int, record: Record)

  /** Where a record came from: the id looked up, its contents when new, and the
      number of the call that fetched it. */
  datatype Origin = Origin(key: string, first: Data, since: nat)

  /** The contents of a record between calls, or halfway through one. */
  predicate Shows(w: World, asks: seq<Request>, o: Origin, d: Data) {
    && o.since <= |asks|
    && var aged := Aged(w, o.first, Catalogs(asks[o.since..], o.key));
    (d == aged || d == Normalize(aged))
  }

  // ----- Insertion order

  /** The keys of a dictionary, each once. */
  ghost predicate Orders(order: seq<string>, keys: set<string>) {
    && (forall k :: k in order <==> k in keys)
    && (forall i, j :: 0 <= i < j < |order| ==> order[i] != order[j])
  }

  function Without(order: seq<string>, id: string): seq<string> {
    if order == [] then [] else if order[0] == id then order[1..] else [order[0]] + Without(order[1..], id)
  }

  lemma TailOrders(order: seq<string>, keys: set<string>)
    requires Orders(order, keys) && order != []
    ensures Orders(order[1..], keys - {order[0]})
  {
  }

  lemma AppendOrders(order: seq<string>, keys: set<string>, id: string)
    requires Orders(order, keys) && id !in keys
    ensures Orders(order + [id], keys + {id})
  {
  }

  lemma PrependOrders(order: seq<string>, keys: set<string>, id: string)
    requires Orders(order, keys) && id !in keys
    ensures Orders([id] + order, keys + {id})
  {
  }

  lemma {:induction false} WithoutOrders(order: seq<string>, keys: set<string>, id: string)
    requires Orders(order, keys) && id in keys
    ensures Orders(Without(order, id), keys - {id}) && |Without(order, id)| == |order| - 1
    decreases |order|
  {
    assert id in order;
    TailOrders(order, keys);
    if order[0] != id {
      WithoutOrders(order[1..], keys - {order[0]}, id);
      PrependOrders(Without(order[1..], id), keys - {order[0]} - {id}, order[0]);
      assert keys - {order[0]} - {id} + {order[0]} == keys - {id};
    }
  }

  // ----- The cache as a history: what is in it after a sequence of calls

  /** A cached id: when the entry expires, and the number of the call that
      fetched it. */
  datatype Slot = Slot(expires: int, since: nat)

  datatype Cache = Cache(order: seq<string>, slots: map<string, Slot>)

  const EMPTY: Cache := Cache([], map[])

  function Drop(c: Cache, id: string): Cache { Cache(Without(c.order, id), c.slots - {id}) }

  /** An entry is gone once its time has come and it is asked for. */
  function Expire(c: Cache, id: string, now: int): Cache {
    if id in c.slots && now >= c.slots[id].expires then Drop(c, id) else c
  }

  /** First in, first out when full; an id that is still there keeps its place. */
  function Put(c: Cache, id: string, s: Slot): Cache {
    var kept := if |c.order| >= MAX_ENTRIES then Cache(c.order[1..], c.slots - {c.order[0]}) else c;
    Cache(if id in kept.slots then kept.order else kept.order + [id], kept.slots[id := s])
  }

  /** The cache after call n looked up one id, with its readings of the clock
      before and after the fetch. */
  function LookUp(w: World, c: Cache, id: string, now: int, later: int, n: nat): Cache {
    var kept := Expire(c, id, now);
    if id in kept.slots || w.nvd(id).Failed? then kept else Put(kept, id, Slot(later + TTL, n))
  }

  /** The call whose fetch answers that lookup. */
  function FetchedBy(c: Cache, id: string, now: int, n: nat): nat {
    if id in c.slots && now < c.slots[id].expires then c.slots[id].since else n
  }

  /** The cache after the first i ids of call n. */
  function Within(w: World, c: Cache, q: Request, n: nat, i: nat): Cache
    requires i <= |q.ids|
    decreases i, q
  {
    if i == 0 then c
    else LookUp(w, Within(w, c, q, n, i - 1), q.ids[i - 1], q.clock(2 * (i - 1)), q.clock(2 * (i - 1) + 1), n)
  }

  function FetchedAt(w: World, c: Cache, q: Request, n: nat, i: nat): nat
    requires i < |q.ids|
  {
    FetchedBy(Within(w, c, q, n, i), q.ids[i], q.clock(2 * i), n)
  }

  /** The cache after a sequence of calls, from an empty one. */
  function After(w: World, calls: seq<Request>): Cache
    decreases |calls|, calls
  {
    if calls == [] then EMPTY
    else
      var n := |calls| - 1;
      Within(w, After(w, calls[..n]), calls[n], n, |calls[n].ids|)
  }

  /** The call that fetched what call k reports for its i-th id: determined by
      the ids and the clock readings of the calls up to then. */
  function Since(w: World, calls: seq<Request>, k: nat, i: nat): nat
    requires k < |calls| && i < |calls[k].ids|
  {
    FetchedAt(w, After(w, calls[..k]), calls[k], k, i)
  }

  lemma WithinStep(w: World, c: Cache, q: Request, n: nat, i: nat)
    requires i < |q.ids|
    ensures Within(w, c, q, n, i + 1) ==
        LookUp(w, Within(w, c, q, n, i), q.ids[i], q.clock(2 * i), q.clock(2 * i + 1), n)
    ensures FetchedAt(w, c, q, n, i) == FetchedBy(Within(w, c, q, n, i), q.ids[i], q.clock(2 * i), n)
  {
  }

  lemma AfterSnoc(w: World, calls: seq<Request>, q: Request)
    ensures After(w, calls + [q]) == Within(w, After(w, calls), q, |calls|, |q.ids|)
  {
  }

  /** A slot comes from a position of an earlier call, and lasts for TTL from the
      reading after that fetch. */
  predicate SlotOk(calls: seq<Request>, id: string, s: Slot) {
    && s.since < |calls|
    && exists m | 0 <= m < |calls[s.since].ids| ::
         calls[s.since].ids[m] == id && s.expires == calls[s.since].clock(2 * m + 1) + TTL
  }

  ghost predicate SlotsOk(calls: seq<Request>, c: Cache) {
    forall id :: id in c.slots ==> SlotOk(calls, id, c.slots[id])
  }

  lemma {:induction false} WithinOk(w: World, calls: seq<Request>, c: Cache, n: nat, i: nat)
    requires n < |calls| && i <= |calls[n].ids| && SlotsOk(calls, c)
    ensures SlotsOk(calls, Within(w, c, calls[n], n, i))
    decreases i
  {
    if i > 0 {
      WithinOk(w, calls, c, n, i - 1);
      var q := calls[n];
      var before := Within(w, c, q, n, i - 1);
      var now, later := q.clock(2 * (i - 1)), q.clock(2 * (i - 1) + 1);
      assert SlotOk(calls, q.ids[i - 1], Slot(later + TTL, n));
      var after := Within(w, c, q, n, i);
      assert after == LookUp(w, before, q.ids[i - 1], now, later, n);
      hide SlotOk;
      hide LookUp;
      hide Within;
      forall id | id in after.slots ensures SlotOk(calls, id, after.slots[id]) {
        LookUpSlots(w, before, q.ids[i - 1], now, later, n, id);
      }
    }
  }

  lemma LookUpSlots(w: World, c: Cache, id: string, now: int, later: int, n: nat, other: string)
    requires other in LookUp(w, c, id, now, later, n).slots
    ensures var s := LookUp(w, c, id, now, later, n).slots[other];
            (other in c.slots && s == c.slots[other]) || (other == id && s == Slot(later + TTL, n))
  {
    hide Without;
  }

  lemma MoreCalls(calls: seq<Request>, k: nat, c: Cache)
    requires k <= |calls| && SlotsOk(calls[..k], c)
    ensures SlotsOk(calls, c)
  {
    forall id | id in c.slots ensures SlotOk(calls, id, c.slots[id]) {
      assert SlotOk(calls[..k], id, c.slots[id]);
      assert calls[..k][c.slots[id].since] == calls[c.slots[id].since];
    }
  }

  lemma {:induction false} AfterOk(w: World, calls: seq<Request>)
    ensures SlotsOk(calls, After(w, calls))
    decreases |calls|
  {
    if calls != [] {
      var n := |calls| - 1;
      AfterOk(w, calls[..n]);
      MoreCalls(calls, n, After(w, calls[..n]));
      WithinOk(w, calls, After(w, calls[..n]), n, |calls[n].ids|);
    }
  }

  /** A reply on a record of an earlier call was looked up less than TTL after
      the clock reading that followed the fetch; so no drift lasts longer. */
  lemma SinceIsRecent(w: World, calls: seq<Request>, k: nat, i: nat)
    requires k < |calls| && i < |calls[k].ids|
    ensures Since(w, calls, k, i) <= k
    ensures var f := Since(w, calls, k, i);
            f < k ==> exists m | 0 <= m < |calls[f].ids| ::
                        calls[f].ids[m] == calls[k].ids[i] && calls[k].clock(2 * i) < calls[f].clock(2 * m + 1) + TTL
  {
    var all := calls[..k + 1];
    assert all[..k] == calls[..k] && all[k] == calls[k];
    AfterOk(w, all[..k]);
    MoreCalls(all, k, After(w, all[..k]));
    WithinOk(w, all, After(w, all[..k]), k, i);
    var c, id := Within(w, After(w, calls[..k]), calls[k], k, i), calls[k].ids[i];
    hide After;
    hide Within;
    if id in c.slots {
      assert SlotOk(all, id, c.slots[id]);
      assert all[c.slots[id].since] == calls[c.slots[id].since];
    }
  }

  lemma ShowsNew(w: World, asks: seq<Request>, key: string, d: Data)
    ensures Shows(w, asks, Origin(key, d, |asks|), d)
  {
    assert asks[|asks|..] == [];
  }

  lemma ShowsNormalized(w: World, asks: seq<Request>, o: Origin, d: Data)
    requires Shows(w, asks, o, d)
    ensures Shows(w, asks, o, Normalize(d))
  {
  }

  lemma ShowsHit(w: World, asks: seq<Request>, o: Origin, d: Data)
    requires Shows(w, asks, o, d) && (o.first.Miss? || o.first == Fresh(o.first.detail))
    ensures d.Hit? <==> o.first.Hit?
    ensures IdOf(d) == IdOf(o.first) && (d.Hit? ==> d.detail == o.first.detail)
  {
    AgedKeeps(w, o.first, Catalogs(asks[o.since..], o.key));
    hide Aged;
  }

  /** A call that asks for the record and settles it. */
  lemma ShowsNext(w: World, asks: seq<Request>, q: Request, o: Origin, d: Data)
    requires Shows(w, asks, o, d) && o.key in q.ids
    ensures Settle(w, q.catalog, d) == Aged(w, o.first, Catalogs((asks + [q])[o.since..], o.key))
  {
    var past := Catalogs(asks[o.since..], o.key);
    assert (asks + [q])[o.since..] == asks[o.since..] + [q];
    CatalogsSnoc(asks[o.since..], q, o.key);
    AgedSnoc(w, o.first, past, q.catalog);
    SettleIsIdempotent(w, q.catalog, Aged(w, o.first, past));
    hide Aged;
    hide Settle;
  }

  /** A call that does not. */
  lemma ShowsSame(w: World, asks: seq<Request>, q: Request, o: Origin, d: Data)
    requires Shows(w, asks, o, d) && o.key !in q.ids
    ensures Shows(w, asks + [q], o, d)
  {
    assert (asks + [q])[o.since..] == asks[o.since..] + [q];
    CatalogsSnoc(asks[o.since..], q, o.key);
    var past := Catalogs(asks[o.since..], o.key);
    assert past + [] == past;
    hide Aged;
  }

  /** What the last call reports of a record, against an uncached lookup. */
  lemma ReplyDrift(w: World, asks: seq<Request>, q: Request, since: nat, id: string)
    requires since <= |asks| && id in q.ids
    ensures Aged(w, Looked(w, id), Catalogs((asks + [q])[since..], id)) == Final(w, q.catalog, id) <==>
            !Drifted(w, asks + [q], since, |asks|, id)
  {
    var all, d := asks + [q], Looked(w, id);
    var past := Catalogs(asks[since..], id);
    assert all[since..] == asks[since..] + [q];
    CatalogsSnoc(asks[since..], q, id);
    AgedSnoc(w, d, past, q.catalog);
    assert asks[since..] == all[since..|asks|];
    EverIsListed(w, all, since, |asks|, id);
    if d.Hit? {
      CatalogueDrift(w, d.detail, past, q.catalog);
    } else {
      AgedKeeps(w, d, past);
    }
    hide Aged;
    hide ListedSince;
    hide Ever;
  }

  /** The history says what the dictionary holds, in its order and within its bound. */
  ghost predicate Mirrors(h: Cache, order: seq<string>, entries: map<string, Entry>, made: map<Record, Origin>) {
    && Orders(order, entries.Keys) && |order| <= MAX_ENTRIES
    && h.order == order && h.slots.Keys == entries.Keys
    && (forall k :: k in entries ==>
         entries[k].record in made && h.slots[k] == Slot(entries[k].expires, made[entries[k].record].since))
  }

  lemma MirrorsSays(h: Cache, order: seq<string>, entries: map<string, Entry>, made: map<Record, Origin>, id: string)
    requires Mirrors(h, order, entries, made)
    ensures h.order == order && |order| <= MAX_ENTRIES && (id in entries <==> id in h.slots)
    ensures id in entries ==> h.slots[id].expires == entries[id].expires && entries[id].record in made
                              && h.slots[id].since == made[entries[id].record].since
  {
    hide Orders;
  }

  lemma MirrorsDrop(h: Cache, order: seq<string>, entries: map<string, Entry>, made: map<Record, Origin>, id: string)
    requires Mirrors(h, order, entries, made) && id in entries
    ensures Mirrors(Drop(h, id), Without(order, id), entries - {id}, made)
  {
    WithoutOrders(order, entries.Keys, id);
    hide Orders;
    hide Without;
    assert (entries - {id}).Keys == entries.Keys - {id};
  }

  lemma MirrorsEvict(h: Cache, order: seq<string>, entries: map<string, Entry>, made: map<Record, Origin>)
    requires Mirrors(h, order, entries, made) && order != []
    ensures Mirrors(Cache(h.order[1..], h.slots - {h.order[0]}), order[1..], entries - {order[0]}, made)
  {
    TailOrders(order, entries.Keys);
    hide Orders;
    assert (entries - {order[0]}).Keys == entries.Keys - {order[0]};
  }

  lemma MirrorsInsert(h: Cache, order: seq<string>, entries: map<string, Entry>, made: map<Record, Origin>,
      id: string, e: Entry)
    requires Mirrors(h, order, entries, made) && |order| < MAX_ENTRIES && e.record in made
    ensures var now := if id in entries then order else order + [id];
            Mirrors(Cache(now, h.slots[id := Slot(e.expires, made[e.record].since)]), now, entries[id := e], made)
  {
    if id !in entries { AppendOrders(order, entries.Keys, id); }
    hide Orders;
    assert entries[id := e].Keys == entries.Keys + {id};
  }

  lemma MirrorsMore(h: Cache, order: seq<string>, entries: map<string, Entry>, made: map<Record, Origin>, r: Record,
      o: Origin)
    requires Mirrors(h, order, entries, made) && r !in made
    ensures Mirrors(h, order, entries, made[r := o])
  {
    hide Orders;
  }

  /** The calls that fetched the first results. */
  ghost predicate Dated(w: World, made: map<Record, Origin>, results: seq<Record>, q: Request, before: Cache, n: nat) {
    && |results| <= |q.ids|
    && forall i :: 0 <= i < |results| ==> results[i] in made && made[results[i]].since == FetchedAt(w, before, q, n, i)
  }

  lemma DatedMore(w: World, made: map<Record, Origin>, more: map<Record, Origin>,
                  results: seq<Record>, q: Request, before: Cache, n: nat, r: Record)
    requires Dated(w, made, results, q, before, n) && |results| < |q.ids|
    requires forall x :: x in made ==> x in more && more[x] == made[x]
    requires r in more && more[r].since == FetchedAt(w, before, q, n, |results|)
    ensures Dated(w, more, results + [r], q, before, n)
  {
    hide FetchedAt;
  }

  class Lookup {
    const w: World
    // The dictionary, with its keys in insertion order.
    var order: seq<string>
    var entries: map<string, Entry>
    // Every record made so far, the calls that have ended, and what the cache
    // holds as a history tells it.
    ghost var made: map<Record, Origin>
    ghost var asks: seq<Request>
    ghost var history: Cache

    /** A record that answers for `id` and has been through all calls for `id`
        since it was fetched. */
    ghost predicate Good(r: Record, id: string)
      reads this`made, this`asks, r
    {
      r in made && made[r].key == id && made[r].first == Looked(w, id) && Shows(w, asks, made[r], r.data)
    }

    ghost predicate Valid()
      reads this, made.Keys
    {
      && Mirrors(history, order, entries, made)
      && (forall k :: k in entries ==> w.nvd(k).Found? && entries[k].record in made && Good(entries[k].record, k))
    }

    constructor (w: World)
      ensures Valid() && this.w == w && history == EMPTY && made == map[] && asks == []
    {
      this.w, order, entries, made, asks, history := w, [], map[], map[], [], EMPTY;
    }

    /** An expired entry is dropped. */
    method CacheGet(id: string, now: int) returns (r: Option<Record>)
      requires Valid()
      modifies this`order, this`entries, this`history
      ensures Valid()
      ensures r == if id in old(entries) && now < old(entries)[id].expires then Some(old(entries)[id].record) else None
      ensures entries == if r == None then old(entries) - {id} else old(entries)
      ensures history == Expire(old(history), id, now)
    {
      hide Good;
      hide Mirrors;
      MirrorsSays(history, order, entries, made, id);
      if id !in entries {
        assert entries == entries - {id};
        return None;
      }
      if now >= entries[id].expires {
        MirrorsDrop(history, order, entries, made, id);
        history := Drop(history, id);
        order, entries := Without(order, id), entries - {id};
        return None;
      }
      r := Some(entries[id].record);
    }

    /** The entry inserted first is dropped. */
    method Evict()
      requires Valid() && order != []
      modifies this`order, this`entries, this`history
      ensures Valid() && order == old(order)[1..] && entries == old(entries) - {old(order)[0]}
      ensures history == Cache(old(history).order[1..], old(history).slots - {old(history).order[0]})
    {
      hide Good;
      hide Mirrors;
      MirrorsSays(history, order, entries, made, order[0]);
      MirrorsEvict(history, order, entries, made);
      history := Cache(order[1..], history.slots - {order[0]});
      order, entries := order[1..], entries - {order[0]};
    }

    /** First in, first out when full; an id that is still there keeps its place. */
    method CachePut(id: string, record: Record, now: int)
      requires Valid() && record in made && Good(record, id) && w.nvd(id).Found?
      modifies this`order, this`entries, this`history
      ensures Valid()
      ensures history == Put(old(history), id, Slot(now + TTL, made[record].since))
      ensures id in entries && entries[id] == Entry(now + TTL, record)
      ensures forall k :: k in entries && k != id ==> k in old(entries) && entries[k] == old(entries)[k]
    {
      hide Good;
      hide Mirrors;
      MirrorsSays(history, order, entries, made, id);
      if |order| >= MAX_ENTRIES { Evict(); }
      Insert(id, Entry(now + TTL, record));
    }

    method Insert(id: string, e: Entry)
      requires Valid() && |order| < MAX_ENTRIES && e.record in made && Good(e.record, id) && w.nvd(id).Found?
      modifies this`order, this`entries, this`history
      ensures Valid() && entries == old(entries)[id := e]
      ensures history == Cache(if id in old(history).slots then old(history).order else old(history).order + [id],
                               old(history).slots[id := Slot(e.expires, made[e.record].since)])
    {
      hide Good;
      hide Mirrors;
      MirrorsSays(history, order, entries, made, id);
      MirrorsInsert(history, order, entries, made, id, e);
      if id !in entries {
        order := order + [id];
      }
      entries := entries[id := e];
      history := Cache(order, history.slots[id := Slot(e.expires, made[e.record].since)]);
    }

    /** Records already made stay what they were, new ones are new. */
    twostate predicate Grown()
      reads this
    {
      && (forall r :: r in old(made) ==> r in made && made[r] == old(made)[r])
      && fresh(made.Keys - old(made).Keys)
    }

    ghost method Note(r: Record, id: string)
      requires Valid() && r !in made && r.data == Looked(w, id)
      modifies this`made
      ensures Valid() && made == old(made)[r := Origin(id, Looked(w, id), |asks|)] && Good(r, id)
    {
      hide Mirrors;
      hide Shows;
      hide Looked;
      ShowsNew(w, asks, id, r.data);
      MirrorsMore(history, order, entries, made, r, Origin(id, r.data, |asks|));
      made := made[r := Origin(id, r.data, |asks|)];
    }

    /** `_fetch_cve`: the stored object, or a new one that is stored when NVD
        has the record. */
    method FetchCve(id: string, now: int, later: int) returns (r: Record)
      requires Valid()
      modifies this`order, this`entries, this`made, this`history
      ensures Valid() && Grown()
      ensures forall k :: k in entries && k != id ==> k in old(entries) && entries[k] == old(entries)[k]
      ensures history == LookUp(w, old(history), id, now, later, |asks|)
      ensures w.nvd(id).Found? ==>
                && r in made && Good(r, id) && id in entries && entries[id].record == r
                && made[r].since == FetchedBy(old(history), id, now, |asks|)
      ensures if id in old(entries) && now < old(entries)[id].expires then r == old(entries)[id].record
              else fresh(r) && (w.nvd(id).Found? ==> made[r].since == |asks| && entries[id].expires == later + TTL)
      ensures w.nvd(id).Failed? ==> r !in made && r.data == Miss(id, w.nvd(id).error, None)
    {
      hide Mirrors;
      hide Shows;
      hide Put;
      MirrorsSays(history, order, entries, made, id);
      var cached := CacheGet(id, now);
      if cached.Some? { return cached.value; }
      var answer := w.nvd(id);
      match answer
      case Failed(error) =>
        r := new Record(Miss(id, error, None));
      case Found(d) =>
        r := new Record(Fresh(d));
        Note(r, id);
        CachePut(id, r, later);
    }

    /** `_fetch_cve_with_fallback`; an OSV answer is never cached. */
    method FetchWithFallback(id: string, now: int, later: int) returns (r: Record)
      requires Valid()
      modifies this`order, this`entries, this`made, this`history
      ensures Valid() && Grown()
      ensures forall k :: k in entries && k != id ==> k in old(entries) && entries[k] == old(entries)[k]
      ensures r in made && Good(r, id) && (w.nvd(id).Failed? ==> made[r].since == |asks|)
      ensures history == LookUp(w, old(history), id, now, later, |asks|)
      ensures made[r].since == FetchedBy(old(history), id, now, |asks|)
      ensures id in entries ==> entries[id].record == r
      ensures if id in old(entries) && now < old(entries)[id].expires then r == old(entries)[id].record else fresh(r)
    {
      hide Mirrors;
      MirrorsSays(history, order, entries, made, id);
      r := FetchCve(id, now, later);
      if w.nvd(id).Found? { FoundIsHit(r, id); }
      hide Good;
      if r.data.Miss? && w.transient(r.data.error) {
        var fallback := w.osv(id);
        if fallback.Found? {
          r := new Record(Fresh(fallback.detail));
        }
        Note(r, id);
      } else if r.data.Miss? {
        Note(r, id);
      }
    }

    lemma FoundIsHit(r: Record, id: string)
      requires Good(r, id) && w.nvd(id).Found?
      ensures r.data.Hit? && r.data.detail == w.nvd(id).detail
    {
      ShowsHit(w, asks, made[r], r.data);
    }

    /** `_hydrate_cve_details`: package mode shares the cached records and reads
        only what the source filled in, whatever was stamped on them since. */
    method Hydrate(id: string, fallback: Advisory, now: int, later: int) returns (row: Advisory)
      requires Valid()
      modifies this`order, this`entries, this`made, this`history
      ensures Valid() && Grown() && history == LookUp(w, old(history), id, now, later, |asks|)
      ensures row == match w.nvd(id) case Found(d) => Merged(id, d, fallback) case Failed(_) => fallback
    {
      var r := FetchCve(id, now, later);
      if w.nvd(id).Found? { FoundIsHit(r, id); }
      hide Mirrors;
      hide Good;
      row := if r.data.Hit? then Merged(id, r.data.detail, fallback) else fallback;
    }

    /** The results answer for the ids, one by one. */
    ghost predicate Served(results: seq<Record>, ids: seq<string>)
      reads this`made, this`asks, results
    {
      && |results| == |ids|
      && forall i :: 0 <= i < |ids| ==>
           results[i] in made && Good(results[i], ids[i]) &&
               (w.nvd(ids[i]).Failed? ==> made[results[i]].since == |asks|)
    }

    /** The results answer for the ids, and what is cached for these is among them. */
    ghost predicate Covers(results: seq<Record>, ids: seq<string>)
      reads this`made, this`asks, this`entries, results
    {
      Served(results, ids) && forall k :: k in entries && k in ids ==> entries[k].record in results
    }

    /** One more id. */
    method LookUpOne(results: seq<Record>, ghost ids: seq<string>, id: string, now: int, later: int) returns (r: Record)
      requires Valid() && Covers(results, ids)
      modifies this`order, this`entries, this`made, this`history
      ensures Valid() && Grown() && Covers(results + [r], ids + [id])
      ensures history == LookUp(w, old(history), id, now, later, |asks|)
      ensures r in made && made[r].since == FetchedBy(old(history), id, now, |asks|)
    {
      hide Mirrors;
      hide Shows;
      hide Looked;
      hide LookUp;
      hide FetchedBy;
      r := FetchWithFallback(id, now, later);
      assert Served(results, ids);
    }

    /** What holds when the first ids of a call, begun on the cache `before`, have
        been looked up. */
    ghost predicate Halfway(results: seq<Record>, q: Request, before: Cache)
      reads this`made, this`asks, this`entries, this`history, results
    {
      && |results| <= |q.ids| && Covers(results, q.ids[..|results|])
      && history == Within(w, before, q, |asks|, |results|) && Dated(w, made, results, q, before, |asks|)
    }

    method LookUpNext(results: seq<Record>, q: Request, ghost before: Cache) returns (r: Record)
      requires Valid() && Halfway(results, q, before) && |results| < |q.ids|
      modifies this`order, this`entries, this`made, this`history
      ensures Valid() && Grown() && Halfway(results + [r], q, before)
    {
      hide Valid;
      hide Within;
      hide FetchedAt;
      hide LookUp;
      hide FetchedBy;
      hide Covers;
      hide Dated;
      var i, id := |results|, q.ids[|results|];
      var now, later := q.clock(2 * i), q.clock(2 * i + 1);
      ghost var was, ids := made, q.ids[..i];
      WithinStep(w, before, q, |asks|, i);
      assert q.ids[..i + 1] == ids + [id];
      r := LookUpOne(results, ids, id, now, later);
      DatedMore(w, was, made, results, q, before, |asks|, r);
    }

    method LookUpAll(q: Request) returns (results: seq<Record>)
      requires Valid()
      modifies this`order, this`entries, this`made, this`history
      ensures Valid() && Grown() && |results| == |q.ids| && Halfway(results, q, old(history)) && Covers(results, q.ids)
    {
      results := [];
      for i := 0 to |q.ids|
        invariant |results| == i && Valid() && Grown() && Halfway(results, q, old(history))
      {
        hide Valid;
        hide Halfway;
        var r := LookUpNext(results, q, old(history));
        results := results + [r];
      }
      assert q.ids[..|q.ids|] == q.ids;
    }

    /** `_normalize_cve_id_keys_inplace` */
    method NormalizeInPlace(results: seq<Record>)
      modifies set r | r in results
      ensures forall r :: r in results ==> r.data == Normalize(old(r.data))
    {
      hide Normalize;
      for i := 0 to |results|
        invariant forall r :: r in results ==> r.data == old(r.data) || r.data == Normalize(old(r.data))
        invariant forall j :: 0 <= j < i ==> results[j].data == Normalize(old(results[j].data))
      {
        NormalizeTwice(old(results[i].data));
        results[i].data := Normalize(results[i].data);
      }
    }

    /** `_apply_exploit_intel` on the records without an error. */
    method ApplyExploitIntel(rows: seq<Record>, catalog: Catalog) returns (degraded: bool)
      requires forall r :: r in rows ==> Normalize(r.data) == r.data
      modifies set r | r in rows
      ensures forall r :: r in rows ==> r.data == Settle(w, catalog, old(r.data))
      ensures degraded <==> catalog == None && exists r :: r in rows && IdOf(old(r.data)) != ""
    {
      degraded := catalog == None && exists r :: r in rows && IdOf(r.data) != "";
      hide Normalize;
      hide Stamp;
      for i := 0 to |rows|
        invariant forall r :: r in rows ==> r.data == old(r.data) || r.data == Stamp(w, catalog, old(r.data))
        invariant forall j :: 0 <= j < i ==> rows[j].data == Stamp(w, catalog, old(rows[j].data))
      {
        StampTwice(w, catalog, old(rows[i].data));
        rows[i].data := Stamp(w, catalog, rows[i].data);
      }
    }

    method Successful(results: seq<Record>, ghost ids: seq<string>) returns (rows: seq<Record>)
      requires |results| == |ids|
      requires forall i :: 0 <= i < |ids| ==> (results[i].data.Hit? <==> Looked(w, ids[i]).Hit?)
      ensures |rows| == |Hits(w, ids)|
      ensures forall r :: r in rows <==> r in results && r.data.Hit?
      ensures rows != [] ==> exists m :: FirstHit(w, ids, m) && rows[0] == results[m]
    {
      hide Looked;
      rows := [];
      for i := 0 to |results|
        invariant |rows| == |Hits(w, ids[..i])|
        invariant forall r :: r in rows <==> r in results[..i] && r.data.Hit?
        invariant rows == [] ==> forall j :: 0 <= j < i ==> Looked(w, ids[j]).Miss?
        invariant rows != [] ==> exists m :: FirstHit(w, ids, m) && rows[0] == results[m]
      {
        assert results[..i + 1] == results[..i] + [results[i]];
        HitsSnoc(w, ids[..i], ids[i]);
        assert ids[..i + 1] == ids[..i] + [ids[i]];
        if !results[i].data.Miss? {
          assert rows == [] ==> FirstHit(w, ids, i);
          rows := rows + [results[i]];
        }
      }
      assert ids[..|ids|] == ids && results[..|results|] == results;
    }

    /** Normalising changes nothing that counts. */
    method Tidy(results: seq<Record>, ghost ids: seq<string>)
      requires Valid() && Served(results, ids)
      modifies set r | r in results
      ensures Valid() && Served(results, ids)
      ensures forall r :: r in results ==> Normalize(r.data) == r.data
    {
      NormalizeInPlace(results);
      hide Mirrors;
      hide Shows;
      hide Looked;
      hide Normalize;
      forall r | r in made && Shows(w, asks, made[r], old(r.data)) ensures Shows(w, asks, made[r], r.data) {
        ShowsNormalized(w, asks, made[r], old(r.data));
      }
      forall r | r in results ensures Normalize(r.data) == r.data { NormalizeTwice(old(r.data)); }
    }

    /** The reply about one id after the last call: the record as all calls since
        its fetch left it. It differs from what an uncached lookup would say
        exactly when it has drifted. */
    ghost predicate Answers(r: Record, id: string)
      reads this`made, this`asks, r
    {
      && r in made && made[r].key == id && made[r].since < |asks| && id in asks[|asks| - 1].ids
      && (w.nvd(id).Failed? ==> made[r].since == |asks| - 1)
      && r.data == Aged(w, Looked(w, id), Catalogs(asks[made[r].since..], id))
      && (r.data == Final(w, asks[|asks| - 1].catalog, id) <==> !Drifted(w, asks, made[r].since, |asks| - 1, id))
    }

    /** What the two outcomes say of the ids. */
    ghost predicate Reports(out: Outcome, q: Request, single: bool)
      reads this`made, this`asks, if out.Answered? then set r | r in out.results else {}
    {
      match out
      case NotFound => q.ids != [] && Hits(w, q.ids) == []
      case Answered(results, billing, degraded, mirror) =>
        && (q.ids == [] || Hits(w, q.ids) != [])
        && |results| == |q.ids| && (forall i :: 0 <= i < |q.ids| ==> Answers(results[i], q.ids[i]))
        && billing == |Hits(w, q.ids)|
        && (degraded <==> q.catalog == None && exists id :: id in Hits(w, q.ids) && IdOf(Looked(w, id)) != "")
        && (mirror.Some? <==> single && Hits(w, q.ids) != [])
        && (mirror.Some? ==> exists m :: FirstHit(w, q.ids, m) && mirror.value == results[m].data)
    }

    /** A record of the results, once it is settled and the call is over. */
    lemma Settled(before: seq<Request>, q: Request, r: Record, id: string, was: Data)
      requires asks == before + [q] && id in q.ids && r in made && made[r].key == id && made[r].first == Looked(w, id)
      requires Shows(w, before, made[r], was) && r.data == Settle(w, q.catalog, was)
      requires w.nvd(id).Failed? ==> made[r].since == |before|
      ensures Answers(r, id) && Good(r, id)
    {
      ShowsNext(w, before, q, made[r], was);
      ReplyDrift(w, before, q, made[r].since, id);
    }

    lemma HitOrMiss(results: seq<Record>, ids: seq<string>)
      requires Served(results, ids)
      ensures forall i :: 0 <= i < |ids| ==> (results[i].data.Hit? <==> Looked(w, ids[i]).Hit?)
      ensures forall i :: 0 <= i < |ids| ==> IdOf(results[i].data) == IdOf(Looked(w, ids[i]))
    {
      forall i | 0 <= i < |ids|
        ensures (results[i].data.Hit? <==> Looked(w, ids[i]).Hit?) && IdOf(results[i].data) == IdOf(Looked(w, ids[i]))
      {
        ShowsHit(w, asks, made[results[i]], results[i].data);
      }
    }

    /** The call ends; records of other ids are as they were. */
    lemma OthersGood(before: seq<Request>, q: Request, r: Record, id: string)
      requires asks == before + [q] && id !in q.ids && r in made && made[r].key == id && made[r].first == Looked(w, id)
      requires Shows(w, before, made[r], r.data)
      ensures Good(r, id)
    {
      ShowsSame(w, before, q, made[r], r.data);
    }

    /** No record was found: the call leaves no trace on what is cached. */
    method GiveUp(results: seq<Record>, ghost q: Request)
      requires Valid() && Served(results, q.ids) && Hits(w, q.ids) == []
      requires forall k :: k in entries && k in q.ids ==> entries[k].record in results
      modifies this`asks
      ensures Valid() && asks == old(asks) + [q]
    {
      HitsMembers(w, q.ids);
      asks := asks + [q];
      hide Mirrors;
      hide Shows;
      forall k | k in entries ensures Good(entries[k].record, k) {
        OthersGood(old(asks), q, entries[k].record, k);
      }
    }

    /** Every result is settled under the catalogue of this call. */
    method StampAll(results: seq<Record>, successful: seq<Record>, q: Request) returns (degraded: bool)
      requires Valid() && Served(results, q.ids)
      requires forall r :: r in results ==> Normalize(r.data) == r.data
      requires forall r :: r in successful <==> r in results && r.data.Hit?
      requires forall k :: k in entries && k in q.ids ==> entries[k].record in results
      modifies this`asks, set r | r in results
      ensures Valid() && asks == old(asks) + [q]
      ensures forall i :: 0 <= i < |q.ids| ==> Answers(results[i], q.ids[i])
      ensures degraded <==> q.catalog == None && exists r :: r in successful && IdOf(old(r.data)) != ""
    {
      degraded := ApplyExploitIntel(successful, q.catalog);
      asks := asks + [q];
      hide Mirrors;
      hide Shows;
      hide Looked;
      hide Normalize;
      forall r | r in results ensures r.data == Settle(w, q.catalog, old(r.data)) {
        if old(r.data.Miss?) { MissSettles(w, q.catalog, old(r.data)); }
      }
      hide Settle;
      hide InCatalog;
      hide Answers;
      forall i | 0 <= i < |q.ids| ensures Answers(results[i], q.ids[i]) && Good(results[i], q.ids[i]) {
        Settled(old(asks), q, results[i], q.ids[i], old(results[i].data));
      }
      forall k | k in entries ensures Good(entries[k].record, k) {
        var r := entries[k].record;
        if k in q.ids {
          var i :| 0 <= i < |results| && results[i] == r;
        } else {
          OthersGood(old(asks), q, r, k);
        }
      }
    }

    /** Asking the catalogue about the records is asking it about the ids. */
    lemma Asked(results: seq<Record>, ids: seq<string>, rows: seq<Record>)
      requires Served(results, ids)
      requires forall r :: r in rows <==> r in results && r.data.Hit?
      ensures (exists r :: r in rows && IdOf(r.data) != "") <==>
          (exists id :: id in Hits(w, ids) && IdOf(Looked(w, id)) != "")
    {
      HitsMembers(w, ids);
      HitOrMiss(results, ids);
      hide Good;
      hide Looked;
      if r :| r in rows && IdOf(r.data) != "" {
        var i :| 0 <= i < |results| && results[i] == r;
        assert ids[i] in Hits(w, ids);
      }
      if id :| id in Hits(w, ids) && IdOf(Looked(w, id)) != "" {
        var i :| 0 <= i < |ids| && ids[i] == id;
        assert results[i] in rows;
      }
    }

    lemma Reported(results: seq<Record>, rows: seq<Record>, q: Request, single: bool, degraded: bool)
      requires |results| == |q.ids| && forall i :: 0 <= i < |q.ids| ==> Answers(results[i], q.ids[i])
      requires |rows| == |Hits(w, q.ids)| && (rows == [] ==> results == [])
      requires rows != [] ==> exists m :: FirstHit(w, q.ids, m) && rows[0] == results[m]
      requires degraded <==> q.catalog == None && exists id :: id in Hits(w, q.ids) && IdOf(Looked(w, id)) != ""
      ensures Reports(Answered(results, |rows|, degraded, First(rows, single)), q, single)
    {
      hide Answers;
      hide Hits;
      hide Looked;
      if rows != [] {
        var m :| FirstHit(w, q.ids, m) && rows[0] == results[m];
        assert rows[0].data == results[m].data;
      }
    }

    /** The record that a call for a single id shows once more at the top. */
    function First(rows: seq<Record>, single: bool): Option<Data>
      reads rows
    {
      if single && rows != [] then Some(rows[0].data) else None
    }

    method Conclude(results: seq<Record>, q: Request, single: bool) returns (out: Outcome)
      requires Valid() && Served(results, q.ids)
      requires forall r :: r in results ==> Normalize(r.data) == r.data
      requires forall k :: k in entries && k in q.ids ==> entries[k].record in results
      modifies this`asks, set r | r in results
      ensures Valid() && asks == old(asks) + [q]
      ensures Reports(out, q, single) && (out.Answered? ==> out.results == results)
    {
      HitOrMiss(results, q.ids);
      var successful := Successful(results, q.ids);
      if successful == [] && results != [] {
        GiveUp(results, q);
        return NotFound;
      }
      Asked(results, q.ids, successful);
      hide Mirrors;
      hide Good;
      hide Answers;
      hide Looked;
      hide Normalize;
      var degraded := StampAll(results, successful, q);
      Reported(results, successful, q, single, degraded);
      hide Reports;
      out := Answered(results, |successful|, degraded, First(successful, single));
    }

    /** `_run_cve_id_mode`, under any catalogue and for any readings of the clock.
        `single` is the call shape whose first record is mirrored. */
    method RunCveIdMode(q: Request, single: bool) returns (out: Outcome)
      requires Valid()
      modifies this, made.Keys
      ensures Valid() && Grown() && asks == old(asks) + [q]
      ensures Reports(out, q, single)
      ensures out.Answered? ==> forall r :: r in old(made) && r !in out.results ==> r.data == old(r.data)
      ensures history == Within(w, old(history), q, |old(asks)|, |q.ids|)
      ensures out.Answered? ==> Dated(w, made, out.results, q, old(history), |old(asks)|)
    {
      hide Valid;
      hide Within;
      hide Dated;
      hide Answers;
      hide Reports;
      hide Normalize;
      hide Good;
      var results := LookUpAll(q);
      Tidy(results, q.ids);
      hide Served;
      out := Conclude(results, q, single);
    }
  }

  datatype Outcome = NotFound | Answered(results: seq<Record>, billingUnits: nat, degraded: bool, mirror: Option<Data>)

  lemma MissSettles(w: World, k: Catalog, d: Data)
    requires d.Miss? && Normalize(d) == d
    ensures Settle(w, k, d) == d
  {
  }

  lemma NormalizeTwice(d: Data)
    ensures Normalize(Normalize(d)) == Normalize(d)
  {
  }

  lemma StampTwice(w: World, k: Catalog, d: Data)
    ensures Stamp(w, k, Stamp(w, k, d)) == Stamp(w, k, d)
  {
  }

  /** The ids that have a record. */
  function Hits(w: World, ids: seq<string>): seq<string> {
    if ids == [] then []
    else Hits(w, ids[..|ids| - 1]) + (if Looked(w, ids[|ids| - 1]).Hit? then [ids[|ids| - 1]] else [])
  }

  predicate FirstHit(w: World, ids: seq<string>, m: int) {
    0 <= m < |ids| && Looked(w, ids[m]).Hit? && forall j :: 0 <= j < m ==> Looked(w, ids[j]).Miss?
  }

  lemma HitsSnoc(w: World, ids: seq<string>, id: string)
    ensures Hits(w, ids + [id]) == Hits(w, ids) + (if Looked(w, id).Hit? then [id] else [])
  {
  }

  lemma {:induction false} HitsMembers(w: World, ids: seq<string>)
    ensures forall id :: id in Hits(w, ids) <==> id in ids && Looked(w, id).Hit?
    decreases |ids|
  {
    hide Looked;
    if ids != [] {
      var n := |ids| - 1;
      HitsMembers(w, ids[..n]);
      assert ids == ids[..n] + [ids[n]];
    }
  }

  // ----- A whole sequence of calls

  /** What call k replied, record by record as it was at that moment: the record
      that all calls for the id since its fetch leave. It is what an uncached
      lookup would say unless it has drifted. */
  predicate Replied(w: World, calls: seq<Request>, k: nat, reply: Option<seq<Data>>)
    requires k < |calls|
  {
    match reply
    case None => calls[k].ids != [] && Hits(w, calls[k].ids) == []
    case Some(records) =>
      && (calls[k].ids == [] || Hits(w, calls[k].ids) != [])
      && |records| == |calls[k].ids| && forall i :: 0 <= i < |records| ==> RecordReplied(w, calls, k, i, records[i])
  }

  predicate RecordReplied(w: World, calls: seq<Request>, k: nat, i: nat, d: Data)
    requires k < |calls| && i < |calls[k].ids|
  {
    var since, id := Since(w, calls, k, i), calls[k].ids[i];
    && since <= k
    && d == Aged(w, Looked(w, id), Catalogs(calls[since..k + 1], id))
    && (d == Final(w, calls[k].catalog, id) <==> !Drifted(w, calls, since, k, id))
  }

  method Snapshot(results: seq<Record>) returns (records: seq<Data>)
    ensures |records| == |results| && forall i :: 0 <= i < |results| ==> records[i] == results[i].data
  {
    records := [];
    for i := 0 to |results|
      invariant |records| == i && forall j :: 0 <= j < i ==> records[j] == results[j].data
    {
      records := records + [results[i].data];
    }
  }

  lemma SamePrefix(w: World, calls: seq<Request>, k: nat, since: nat, id: string)
    requires since <= k < |calls|
    ensures Drifted(w, calls[..k + 1], since, k, id) <==> Drifted(w, calls, since, k, id)
  {
    var some := calls[..k + 1];
    assert forall j :: 0 <= j < k ==> some[j] == calls[j];
    hide Looked;
    hide InCatalog;
  }

  lemma AnswerReplied(c: Lookup, calls: seq<Request>, k: nat, i: nat, r: Record)
    requires k < |calls| && i < |calls[k].ids| && c.asks == calls[..k + 1] && c.Answers(r, calls[k].ids[i])
    requires c.made[r].since == Since(c.w, calls, k, i)
    ensures RecordReplied(c.w, calls, k, i, r.data)
  {
    var since := c.made[r].since;
    assert calls[..k + 1][since..] == calls[since..k + 1];
    SamePrefix(c.w, calls, k, since, calls[k].ids[i]);
    hide Aged;
    hide Final;
    hide Drifted;
    hide Since;
  }

  method RunCall(c: Lookup, calls: seq<Request>, k: nat) returns (reply: Option<seq<Data>>)
    requires c.Valid() && k < |calls| && c.asks == calls[..k] && c.history == After(c.w, calls[..k])
    modifies c, c.made.Keys
    ensures c.Valid() && c.asks == calls[..k + 1] && c.history == After(c.w, calls[..k + 1])
    ensures fresh(c.made.Keys - old(c.made).Keys) && Replied(c.w, calls, k, reply)
  {
    hide RecordReplied;
    hide Lookup.Answers;
    hide Lookup.Valid;
    hide Looked;
    hide After;
    hide Within;
    hide FetchedAt;
    var out := c.RunCveIdMode(calls[k], false);
    assert c.asks == calls[..k + 1];
    AfterSnoc(c.w, calls[..k], calls[k]);
    match out
    case NotFound =>
      reply := None;
    case Answered(results, _, _, _) =>
      forall i | 0 <= i < |results| ensures RecordReplied(c.w, calls, k, i, results[i].data) {
        assert c.Answers(results[i], calls[k].ids[i]);
        AnswerReplied(c, calls, k, i, results[i]);
      }
      var records := Snapshot(results);
      reply := Some(records);
  }

  /** Through one cache, under catalogues that may change from call to call, and
      for any readings of the clock: a record in a reply differs from an uncached
      answer exactly when a call since the one that fetched it asked for it under
      a catalogue that listed it, the present one does not, and no keyword speaks
      for it. Under one catalogue throughout every reply is the uncached answer. */
  method RunCalls(w: World, calls: seq<Request>) returns (replies: seq<Option<seq<Data>>>)
    ensures |replies| == |calls|
    ensures forall k :: 0 <= k < |calls| ==> Replied(w, calls, k, replies[k])
    ensures (forall j :: 0 <= j < |calls| ==> calls[j].catalog == calls[0].catalog) ==>
              forall k, i :: 0 <= k < |calls| && replies[k].Some? && 0 <= i < |calls[k].ids| ==>
                |replies[k].value| == |calls[k].ids| &&
                    replies[k].value[i] == Final(w, calls[0].catalog, calls[k].ids[i])
  {
    var c := new Lookup(w);
    replies := [];
    for k := 0 to |calls|
      invariant c.Valid() && c.w == w && fresh(c) && fresh(c.made.Keys)
      invariant c.asks == calls[..k] && c.history == After(w, calls[..k])
      invariant |replies| == k && forall j :: 0 <= j < k ==> Replied(w, calls, j, replies[j])
    {
      hide Replied;
      hide After;
      hide Lookup.Valid;
      var reply := RunCall(c, calls, k);
      replies := replies + [reply];
    }
    SameAnswers(w, calls, replies);
  }

  lemma SameAnswers(w: World, calls: seq<Request>, replies: seq<Option<seq<Data>>>)
    requires |replies| == |calls| && forall k :: 0 <= k < |calls| ==> Replied(w, calls, k, replies[k])
    ensures (forall j :: 0 <= j < |calls| ==> calls[j].catalog == calls[0].catalog) ==>
              forall k, i :: 0 <= k < |calls| && replies[k].Some? && 0 <= i < |calls[k].ids| ==>
                |replies[k].value| == |calls[k].ids| &&
                    replies[k].value[i] == Final(w, calls[0].catalog, calls[k].ids[i])
  {
    hide Since;
    hide Aged;
    hide Final;
    hide Drifted;
    if forall j :: 0 <= j < |calls| ==> calls[j].catalog == calls[0].catalog {
      forall k, i | 0 <= k < |calls| && replies[k].Some? && 0 <= i < |calls[k].ids|
        ensures |replies[k].value| == |calls[k].ids| &&
            replies[k].value[i] == Final(w, calls[0].catalog, calls[k].ids[i])
      {
        assert Replied(w, calls, k, replies[k]);
        assert RecordReplied(w, calls, k, i, replies[k].value[i]);
        OneCatalogue(w, calls, Since(w, calls, k, i), k, calls[k].ids[i]);
      }
    }
  }

  /** A drifted reply is recent: it was looked up less than TTL after the clock
      reading that followed the fetch of its record. */
  lemma DriftIsRecent(w: World, calls: seq<Request>, k: nat, i: nat, d: Data)
    requires k < |calls| && i < |calls[k].ids| && RecordReplied(w, calls, k, i, d)
    requires d != Final(w, calls[k].catalog, calls[k].ids[i])
    ensures var f := Since(w, calls, k, i);
            f < k && exists m | 0 <= m < |calls[f].ids| ::
                       calls[f].ids[m] == calls[k].ids[i] && calls[k].clock(2 * i) < calls[f].clock(2 * m + 1) + TTL
  {
    SinceIsRecent(w, calls, k, i);
  }

  lemma OneHit(w: World, id: string)
    requires Looked(w, id).Hit?
    ensures Hits(w, [id]) == [id]
  {
    assert [id][..0] == [];
  }

  /** Two calls for one id that NVD has, the second before the entry expires: it
      is answered by the record of the first. */
  lemma SecondIsCached(w: World, calls: seq<Request>, id: string)
    requires w.nvd(id).Found? && |calls| == 2 && calls[0].ids == [id] && calls[1].ids == [id]
    requires calls[1].clock(0) < calls[0].clock(1) + TTL
    ensures Since(w, calls, 0, 0) == 0 && Since(w, calls, 1, 0) == 0
  {
    var q := calls[0];
    assert calls[..0] == [] && calls[..1] == [] + [q];
    AfterSnoc(w, [], q);
    assert Within(w, EMPTY, q, 0, 0) == EMPTY;
    assert After(w, calls[..1]) == LookUp(w, EMPTY, id, q.clock(0), q.clock(1), 0);
    assert After(w, calls[..1]).slots == map[id := Slot(q.clock(1) + TTL, 0)];
    hide After;
    hide LookUp;
    assert Within(w, After(w, calls[..1]), calls[1], 1, 0) == After(w, calls[..1]);
  }

  /** It does happen: a record that was listed when first asked for, and has left
      the catalogue by the next call, is still reported as exploited. */
  method DriftingRun(w: World, id: string, before: Catalog, now: Catalog) returns (first: Data, second: Data)
    requires w.nvd(id).Found? && InCatalog(w, before, Looked(w, id)) && !InCatalog(w, now, Looked(w, id))
    requires !w.marker(Looked(w, id).detail.description)
    ensures first == Final(w, before, id) && second != Final(w, now, id)
  {
    var calls := [Request([id], before, _ => 0), Request([id], now, _ => 0)];
    var replies := RunCalls(w, calls);
    OneHit(w, id);
    SecondIsCached(w, calls, id);
    hide Since;
    hide Aged;
    hide Final;
    assert Replied(w, calls, 0, replies[0]) && Replied(w, calls, 1, replies[1]);
    first, second := replies[0].value[0], replies[1].value[0];
    assert RecordReplied(w, calls, 0, 0, first) && RecordReplied(w, calls, 1, 0, second);
  }
}

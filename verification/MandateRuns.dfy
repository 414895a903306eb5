/** Runs of the mandate table: any number of clients, each between reading the
    clock and sending its UPDATE, interleaved in any order. */
module MandateRuns {
  import opened Wrappers
  import opened IsoTime
  import opened Mandates
  import opened WebActor

  /** Where a client stands. `url` is set for a commit coming from `run`. */
  datatype Client =
    | Idle
    | Checked(url: Option<string>, id: string, nonce: string)
    | Stamped(url: Option<string>, id: string, nonce: string, first: Stamp)
    | Ready(url: Option<string>, call: Call)

  datatype Event =
    | Created(id: string, grant: Grant, nonce: string, expires: Stamp)
    | Did(call: Call, hits: set<string>, url: Option<string>, when: Stamp)   // `when` the statement ran

  datatype Sys = Sys(rows: Table, clock: Stamp, clients: map<nat, Client>, log: seq<Event>)

  datatype Action =
    | Tick(to: Stamp)
    | Create(id: string, grant: Grant, nonce: string, expires: Stamp)
    | AskAuthorize(c: nat, id: string, nonce: string)
    | AskRevoke(c: nat, id: string)
    | AskSweep(c: nat, at: string)
    | AskConsume(c: nat, id: string, nonce: string)
    | Look(c: nat, url: string, id: string, nonce: string)
    | ReadClock(c: nat)
    | Update(c: nat)

  /** Whether a URL is inside a list of allowed domains. */
  type Covers = (string, seq<string>) -> bool

  predicate IsIdle(s: Sys, c: nat) { c !in s.clients || s.clients[c] == Idle }

  function At(s: Sys, c: nat, p: Client): Sys { s.(clients := s.clients[c := p]) }

  /** One step; an action that is not enabled changes nothing. `Look` is `run`
      up to the domain check on the row it fetched; what it fetched is not read
      again. */
  function Do(covers: Covers, s: Sys, a: Action): Sys {
    match a
    case Tick(to) => if Instant(s.clock) <= Instant(to) then s.(clock := to) else s
    case Create(id, g, nonce, expires) =>
      if id in s.rows then s
      else s.(rows := s.rows[id := Row(g, Iso(expires), Issued, Some(nonce), None)],
              log := s.log + [Created(id, g, nonce, expires)])
    case AskAuthorize(c, id, nonce) =>
      if IsIdle(s, c) then At(s, c, Ready(None, Call.Authorize(id, nonce, s.clock))) else s
    case AskRevoke(c, id) =>
      if IsIdle(s, c) then At(s, c, Ready(None, Call.Revoke(id, s.clock))) else s
    case AskSweep(c, at) =>
      if IsIdle(s, c) then At(s, c, Ready(None, Call.Sweep(at))) else s
    case AskConsume(c, id, nonce) =>
      if IsIdle(s, c) then At(s, c, Checked(None, id, nonce)) else s
    case Look(c, url, id, nonce) =>
      if IsIdle(s, c) && nonce != "" && id in s.rows && covers(url, s.rows[id].grant.domains)
      then At(s, c, Checked(Some(url), id, nonce)) else s
    case ReadClock(c) =>
      if c !in s.clients then s else
      (match s.clients[c]
       case Checked(url, id, nonce) => At(s, c, Stamped(url, id, nonce, s.clock))
       case Stamped(url, id, nonce, first) => At(s, c, Ready(url, Call.Consume(id, nonce, first, s.clock)))
       case _ => s)
    case Update(c) =>
      if c in s.clients && s.clients[c].Ready? then
        var call := s.clients[c].call;
        At(s, c, Idle).(rows := Apply(s.rows, call),
                        log := s.log + [Did(call, Hits(s.rows, call), s.clients[c].url, s.clock)])
      else s
  }

  function Init(start: Stamp): Sys { Sys(map[], start, map[], []) }

  function Run(covers: Covers, start: Stamp, actions: seq<Action>): Sys
    decreases |actions|
  {
    if actions == [] then Init(start)
    else Do(covers, Run(covers, start, actions[..|actions| - 1]), actions[|actions| - 1])
  }

  // ----- The story of one mandate

  predicate Concerns(e: Event, id: string) {
    match e
    case Created(i, _, _, _) => i == id
    case Did(_, hits, _, _) => id in hits
  }

  /** The events of the log that changed the row `id`, in order. */
  function Story(log: seq<Event>, id: string): seq<Event> {
    if log == [] then []
    else Story(log[..|log| - 1], id) + (if Concerns(log[|log| - 1], id) then [log[|log| - 1]] else [])
  }

  /** e unlocked with the nonce that `birth` handed out, with a clock reading
      before the expiry and not after e itself, as instants; a consume also has its resolution time no
      later than that reading, and its URL inside the granted domains. */
  predicate Unlocks(covers: Covers, birth: Event, e: Event)
    requires birth.Created? && e.Did? && (e.call.Authorize? || e.call.Consume?)
  {
    && birth.id == e.call.id && birth.nonce == e.call.nonce
    && Instant(e.call.now) < Instant(birth.expires) && Instant(e.call.now) <= Instant(e.when)
    && (e.call.Consume? ==> Instant(e.call.resolved) <= Instant(e.call.now))
    && (e.url.Some? ==> covers(e.url.value, birth.grant.domains))
  }

  /** A story is: created; then perhaps authorized; then perhaps ended, once,
      and ended by a consume only if authorized. */
  predicate WellTold(covers: Covers, story: seq<Event>) {
    && |story| <= 3
    && (|story| >= 1 ==> story[0].Created?)
    && (|story| >= 2 ==> story[1].Did? && !story[1].call.Consume?)
    && (|story| >= 2 && story[1].call.Authorize? ==> Unlocks(covers, story[0], story[1]))
    && (|story| == 3 ==> story[1].call.Authorize? && story[2].Did? && !story[2].call.Authorize?)
    && (|story| == 3 && story[2].call.Consume? ==> Unlocks(covers, story[0], story[2]))
    && (|story| >= 2 && Swept(story[|story| - 1]) ==> !Less(story[|story| - 1].call.at, Iso(story[0].expires)))
  }

  predicate Swept(e: Event) { e.Did? && e.call.Sweep? }

  predicate ConsumeHits(e: Event, id: string) { e.Did? && e.call.Consume? && id in e.hits }

  function ResolvedAfter(e: Event): Option<string> {
    match e
    case Created(_, _, _, _) => None
    case Did(call, _, _, _) => Assigned(Row(Grant("", "", 0, []), "", Issued, None, None), call).resolvedAt
  }

  function StatusAfter(e: Event): Status {
    match e
    case Created(_, _, _, _) => Issued
    case Did(call, _, _, _) => Assigned(Row(Grant("", "", 0, []), "", Issued, None, None), call).status
  }

  /** The row is what its story says. */
  predicate Tells(id: string, story: seq<Event>, r: Row) {
    && story != [] && story[0].Created? && story[0].id == id
    && r.grant == story[0].grant && r.expiresAt == Iso(story[0].expires)
    && r.nonce == (if r.status == Consumed then None else Some(story[0].nonce))
    && r.status == StatusAfter(story[|story| - 1])
    && r.resolvedAt == ResolvedAfter(story[|story| - 1])
  }

  // ----- The invariant

  predicate StoryInv(covers: Covers, s: Sys, id: string) {
    var story := Story(s.log, id);
    && WellTold(covers, story)
    && (if id in s.rows then RowOk(s.rows[id]) && Tells(id, story, s.rows[id]) else story == [])
  }

  /** A client holding a URL has seen it pass against the row's domains, and
      its clock readings are in order. */
  predicate ClientOk(covers: Covers, t: Table, clock: Stamp, p: Client) {
    match p
    case Idle => true
    case Checked(url, id, _) => url.Some? ==> id in t && covers(url.value, t[id].grant.domains)
    case Stamped(url, id, _, first) =>
      Instant(first) <= Instant(clock) && (url.Some? ==> id in t && covers(url.value, t[id].grant.domains))
    case Ready(url, call) =>
      && (call.Authorize? || call.Consume? ==> Instant(call.now) <= Instant(clock))
      && (call.Consume? ==> Instant(call.resolved) <= Instant(call.now))
      && (url.Some? ==> call.Consume? && call.id in t && covers(url.value, t[call.id].grant.domains))
  }

  ghost predicate ClientsInv(covers: Covers, s: Sys) {
    forall c :: c in s.clients ==> ClientOk(covers, s.rows, s.clock, s.clients[c])
  }

  ghost predicate Inv(covers: Covers, s: Sys) {
    ClientsInv(covers, s) && forall id :: StoryInv(covers, s, id)
  }

  lemma StoryGrows(log: seq<Event>, e: Event, id: string)
    ensures Story(log + [e], id) == Story(log, id) + (if Concerns(e, id) then [e] else [])
  {
  }

  lemma CreateTells(covers: Covers, s: Sys, a: Action, id: string)
    requires Inv(covers, s) && a.Create? && a.id !in s.rows
    ensures StoryInv(covers, Do(covers, s, a), id)
  {
    assert StoryInv(covers, s, id);
    StoryGrows(s.log, Created(a.id, a.grant, a.nonce, a.expires), id);
  }

  /** What a statement that hits a row has checked, as instants. */
  lemma HitUnlocks(covers: Covers, t: Table, clock: Stamp, p: Client, birth: Event, hits: set<string>)
    requires p.Ready? && (p.call.Authorize? || p.call.Consume?) && ClientOk(covers, t, clock, p)
    requires p.call.id in t && Selects(p.call.id, t[p.call.id], p.call)
    requires birth.Created? && birth.id == p.call.id && t[p.call.id].expiresAt == Iso(birth.expires)
    requires t[p.call.id].nonce == Some(birth.nonce) && t[p.call.id].grant == birth.grant
    ensures Unlocks(covers, birth, Did(p.call, hits, p.url, clock))
  {
    GuardMeansBefore(p.call.id, t[p.call.id], p.call, birth.expires);
  }

  /** One statement on one row moves the story of that row forward. */
  lemma HitTells(covers: Covers, story: seq<Event>, r: Row, id: string, e: Event)
    requires WellTold(covers, story) && RowOk(r) && Tells(id, story, r)
    requires e.Did? && Selects(id, r, e.call)
    requires e.call.Authorize? || e.call.Consume? ==> Unlocks(covers, story[0], e)
    ensures WellTold(covers, story + [e]) && Tells(id, story + [e], Assigned(r, e.call))
  {
  }

  lemma UpdateTells(covers: Covers, s: Sys, c: nat, id: string)
    requires Inv(covers, s) && c in s.clients && s.clients[c].Ready?
    ensures StoryInv(covers, Do(covers, s, Update(c)), id)
  {
    hide WellTold;
    hide IsoFrom;
    hide Less;
    var p := s.clients[c];
    var e := Did(p.call, Hits(s.rows, p.call), p.url, s.clock);
    var story := Story(s.log, id);
    assert StoryInv(covers, s, id);
    StoryGrows(s.log, e, id);
    assert story + [] == story;
    if id in s.rows {
      StepKeepsRows(s.rows, p.call, id);
      if id in e.hits {
        if p.call.Authorize? || p.call.Consume? {
          assert ClientOk(covers, s.rows, s.clock, p);
          HitUnlocks(covers, s.rows, s.clock, p, story[0], e.hits);
        }
        HitTells(covers, story, s.rows[id], id, e);
      }
    }
  }

  lemma GrantKept(covers: Covers, s: Sys, a: Action, id: string)
    requires Inv(covers, s) && id in s.rows
    ensures id in Do(covers, s, a).rows && Do(covers, s, a).rows[id].grant == s.rows[id].grant
  {
  }

  /** A client that does not move relies on nothing that a step can undo. */
  lemma ClientStays(covers: Covers, t: Table, clock: Stamp, t': Table, clock': Stamp, p: Client)
    requires ClientOk(covers, t, clock, p) && Instant(clock) <= Instant(clock')
    requires forall id :: id in t ==> id in t' && t'[id].grant == t[id].grant
    ensures ClientOk(covers, t', clock', p)
  {
  }

  lemma MoverOk(covers: Covers, s: Sys, a: Action)
    requires !a.Tick? && !a.Create? && a.c in Do(covers, s, a).clients
    requires a.c in s.clients ==> ClientOk(covers, s.rows, s.clock, s.clients[a.c])
    requires forall id :: id in s.rows ==>
        id in Do(covers, s, a).rows && Do(covers, s, a).rows[id].grant == s.rows[id].grant
    ensures ClientOk(covers, Do(covers, s, a).rows, Do(covers, s, a).clock, Do(covers, s, a).clients[a.c])
  {
    hide Iso;
    hide Apply;
    hide Hits;
  }

  lemma OthersStay(covers: Covers, s: Sys, a: Action, d: nat)
    requires d in Do(covers, s, a).clients && (a.Tick? || a.Create? || d != a.c)
    ensures d in s.clients && Do(covers, s, a).clients[d] == s.clients[d]
    ensures Instant(s.clock) <= Instant(Do(covers, s, a).clock)
  {
    hide Apply;
    hide Hits;
  }

  lemma ClientsKept(covers: Covers, s: Sys, a: Action)
    requires Inv(covers, s)
    ensures ClientsInv(covers, Do(covers, s, a))
  {
    hide StoryInv;
    hide ClientOk;
    hide Do;
    hide Instant;
    var s' := Do(covers, s, a);
    forall id | id in s.rows ensures id in s'.rows && s'.rows[id].grant == s.rows[id].grant {
      GrantKept(covers, s, a, id);
    }
    forall d | d in s'.clients ensures ClientOk(covers, s'.rows, s'.clock, s'.clients[d]) {
      if !a.Tick? && !a.Create? && d == a.c {
        MoverOk(covers, s, a);
      } else {
        OthersStay(covers, s, a, d);
        ClientStays(covers, s.rows, s.clock, s'.rows, s'.clock, s.clients[d]);
      }
    }
  }

  lemma StepKeeps(covers: Covers, s: Sys, a: Action)
    requires Inv(covers, s)
    ensures Inv(covers, Do(covers, s, a))
  {
    ClientsKept(covers, s, a);
    forall id ensures StoryInv(covers, Do(covers, s, a), id) {
      assert StoryInv(covers, s, id);
      if a.Create? && a.id !in s.rows {
        CreateTells(covers, s, a, id);
      } else if a.Update? && a.c in s.clients && s.clients[a.c].Ready? {
        UpdateTells(covers, s, a.c, id);
      }
    }
  }

  lemma {:induction false} RunKeeps(covers: Covers, start: Stamp, actions: seq<Action>)
    ensures Inv(covers, Run(covers, start, actions))
    decreases |actions|
  {
    if actions != [] {
      RunKeeps(covers, start, actions[..|actions| - 1]);
      StepKeeps(covers, Run(covers, start, actions[..|actions| - 1]), actions[|actions| - 1]);
    }
  }

  // ----- Reading positions of the log off the story

  lemma {:induction false} StoryOfPrefix(log: seq<Event>, i: nat, id: string)
    requires i <= |log|
    ensures Story(log[..i], id) <= Story(log, id)
    decreases |log|
  {
    if i < |log| {
      var short := log[..|log| - 1];
      assert short[..i] == log[..i];
      StoryOfPrefix(short, i, id);
    } else {
      assert log[..i] == log;
    }
  }

  lemma {:induction false} StoryIsFromLog(log: seq<Event>, id: string, e: Event)
    requires e in Story(log, id)
    ensures e in log
    decreases |log|
  {
    if e != log[|log| - 1] { StoryIsFromLog(log[..|log| - 1], id, e); }
  }

  lemma StoryAt(log: seq<Event>, i: nat, id: string)
    requires i < |log| && Concerns(log[i], id)
    ensures Story(log[..i], id) + [log[i]] <= Story(log, id)
  {
    StoryOfPrefix(log, i + 1, id);
    assert log[..i + 1] == log[..i] + [log[i]];
    StoryGrows(log[..i], log[i], id);
  }

  // ----- Main results

  /** In every run the story of every mandate is well told and its row is what
      the story says. */
  lemma Lifecycle(covers: Covers, start: Stamp, actions: seq<Action>, id: string)
    ensures var s := Run(covers, start, actions);
            && WellTold(covers, Story(s.log, id))
            && (id in s.rows <==> Story(s.log, id) != [])
            && (id in s.rows ==> RowOk(s.rows[id]) && Tells(id, Story(s.log, id), s.rows[id]))
  {
    RunKeeps(covers, start, actions);
    assert StoryInv(covers, Run(covers, start, actions), id);
  }

  /** Every successful consume of every run is the only one for its mandate,
      and before it in the log come a creation and then a successful authorize,
      both with the same nonce and both guards' clock readings before the
      expiry; its URL lies in the domains granted at creation. */
  lemma CommitSafety(covers: Covers, start: Stamp, actions: seq<Action>, i: nat, id: string)
    returns (birth: Event, unlock: Event)
    requires i < |Run(covers, start, actions).log| && ConsumeHits(Run(covers, start, actions).log[i], id)
    ensures var log := Run(covers, start, actions).log;
            && birth in log[..i] && unlock in log[..i] && Story(log[..i], id) == [birth, unlock]
            && birth.Created? && unlock.Did? && unlock.call.Authorize? && id in unlock.hits
            && Unlocks(covers, birth, unlock) && Unlocks(covers, birth, log[i])
            && (forall j | 0 <= j < |log| && j != i :: !ConsumeHits(log[j], id))
  {
    hide IsoFrom;
    hide Less;
    hide Run;
    hide Tells;
    var log := Run(covers, start, actions).log;
    Lifecycle(covers, start, actions, id);
    StoryAt(log, i, id);
    var before := Story(log[..i], id);
    assert Story(log, id)[|before|] == log[i];
    birth, unlock := before[0], before[1];
    StoryIsFromLog(log[..i], id, birth);
    StoryIsFromLog(log[..i], id, unlock);
    StoryConcerns(log[..i], id, 1);
    forall j | 0 <= j < |log| && j != i ensures !ConsumeHits(log[j], id) {
      if ConsumeHits(log[j], id) {
        StoryAt(log, j, id);
        assert Story(log, id)[|Story(log[..j], id)|] == log[j];
        var lo, hi := if i < j then i else j, if i < j then j else i;
        StoryAt(log[..hi], lo, id);
      }
    }
  }

  lemma {:induction false} StoryConcerns(log: seq<Event>, id: string, k: nat)
    requires k < |Story(log, id)|
    ensures Concerns(Story(log, id)[k], id)
    decreases |log|
  {
    var short := log[..|log| - 1];
    if k < |Story(short, id)| { StoryConcerns(short, id, k); }
  }

  /** The instance for the write-web agent: a commit made through `run` was for
      a URL whose host is an allowed domain or a subdomain of one. */
  lemma CommitWithinDomains(net: Net, start: Stamp, actions: seq<Action>, i: nat, id: string)
    requires var covers := (url, domains) => WithinAllowedDomains(net, url, domains);
             i < |Run(covers, start, actions).log| && ConsumeHits(Run(covers, start, actions).log[i], id)
             && Run(covers, start, actions).log[i].url.Some?
    ensures var s := Run((url, domains) => WithinAllowedDomains(net, url, domains), start, actions);
            id in s.rows && WithinAllowedDomains(net, s.log[i].url.value, s.rows[id].grant.domains)
  {
    var covers := (url, domains) => WithinAllowedDomains(net, url, domains);
    var s := Run(covers, start, actions);
    Lifecycle(covers, start, actions, id);
    StoryAt(s.log, i, id);
    var birth, unlock := CommitSafety(covers, start, actions, i, id);
    assert Story(s.log, id)[0] == birth;
  }

  /** The guard speaks of the moment the clock was read. In every run, a consume
      takes effect before the expiry exactly when it is sent with less delay
      than the guard's reading left; it is late by less than that delay. */
  lemma Lateness(covers: Covers, start: Stamp, actions: seq<Action>, i: nat, id: string) returns (birth: Event)
    requires i < |Run(covers, start, actions).log| && ConsumeHits(Run(covers, start, actions).log[i], id)
    ensures var log := Run(covers, start, actions).log;
            && birth in log[..i] && birth.Created? && birth.id == id
            && var delay := Instant(log[i].when) - Instant(log[i].call.now);
               var left := Instant(birth.expires) - Instant(log[i].call.now);
            && 0 <= delay && 0 < left
            && (Instant(log[i].when) < Instant(birth.expires) <==> delay < left)
            && Instant(log[i].when) - Instant(birth.expires) < delay
  {
    hide Run;
    hide Story;
    hide Instant;
    var unlock: Event;
    birth, unlock := CommitSafety(covers, start, actions, i, id);
    StoryConcerns(Run(covers, start, actions).log[..i], id, 0);
  }

  lemma RunSnoc(covers: Covers, start: Stamp, actions: seq<Action>, a: Action)
    ensures Run(covers, start, actions + [a]) == Do(covers, Run(covers, start, actions), a)
  {
  }

  lemma RunThree(covers: Covers, start: Stamp, actions: seq<Action>, a: Action, b: Action, c: Action)
    ensures Run(covers, start, actions + [a] + [b] + [c]) ==
        Do(covers, Do(covers, Do(covers, Run(covers, start, actions), a), b), c)
  {
    RunSnoc(covers, start, actions, a);
    RunSnoc(covers, start, actions + [a], b);
    RunSnoc(covers, start, actions + [a] + [b], c);
    hide Run;
    hide Do;
  }

  /** A statement about one row, about to be sent by client 0, that will hit. */
  lemma UpdateHits(covers: Covers, s: Sys, call: Call)
    requires !call.Sweep? && call.id in s.rows && Selects(call.id, s.rows[call.id], call)
    requires 0 in s.clients && s.clients[0] == Ready(None, call)
    ensures var s' := Do(covers, s, Update(0));
            && s'.rows == s.rows[call.id := Assigned(s.rows[call.id], call)] && s'.clock == s.clock
            && s'.log == s.log + [Did(call, {call.id}, None, s.clock)] && IsIdle(s', 0)
  {
    hide Assigned;
    HitsOne(s.rows, call);
    hide Hits;
    OneRow(s.rows, call);
    hide Apply;
    hide Selects;
  }

  lemma OneRow(t: Table, call: Call)
    requires !call.Sweep? && call.id in t && Selects(call.id, t[call.id], call)
    ensures Apply(t, call) == t[call.id := Assigned(t[call.id], call)]
  {
    hide Assigned;
  }

  /** A new mandate, authorized at once. */
  lemma Prepared(covers: Covers, start: Stamp, id: string, grant: Grant, nonce: string, expires: Stamp)
    requires Less(Iso(start), Iso(expires))
    ensures var created := Do(covers, Init(start), Create(id, grant, nonce, expires));
            var s := Do(covers, Do(covers, created, AskAuthorize(0, id, nonce)), Update(0));
            && s.rows == map[id := Row(grant, Iso(expires), Authorized, Some(nonce), None)]
            && s.clock == start && IsIdle(s, 0)
            && s.log == [Created(id, grant, nonce, expires), Did(Call.Authorize(id, nonce, start), {id}, None, start)]
  {
    hide Instant;
    hide Iso;
    hide Less;
    var r := Row(grant, Iso(expires), Issued, Some(nonce), None);
    var call := Call.Authorize(id, nonce, start);
    var s := Do(covers, Do(covers, Init(start), Create(id, grant, nonce, expires)), AskAuthorize(0, id, nonce));
    assert s == Sys(map[id := r], start, map[0 := Ready(None, call)], [Created(id, grant, nonce, expires)]);
    assert Selects(id, r, call);
    UpdateHits(covers, s, call);
  }

  /** A client that reads the clock now and updates at `when`. */
  lemma ConsumesAt(covers: Covers, s: Sys, id: string, nonce: string, when: Stamp)
    requires id in s.rows && s.rows[id].status == Authorized && s.rows[id].nonce == Some(nonce)
    requires IsIdle(s, 0) && Instant(s.clock) <= Instant(when) && Less(Iso(s.clock), s.rows[id].expiresAt)
    ensures var s' := Do(covers, Do(covers, Do(covers, Do(covers, Do(covers, s,
                        AskConsume(0, id, nonce)), ReadClock(0)), ReadClock(0)), Tick(when)), Update(0));
            s'.log == s.log + [Did(Call.Consume(id, nonce, s.clock, s.clock), {id}, None, when)]
  {
    hide Instant;
    hide Iso;
    hide Less;
    var call := Call.Consume(id, nonce, s.clock, s.clock);
    var ready := Do(covers, Do(covers, Do(covers, s, AskConsume(0, id, nonce)), ReadClock(0)), ReadClock(0));
    assert ready == At(s, 0, Ready(None, call));
    var late := Do(covers, ready, Tick(when));
    assert late == ready.(clock := when);
    assert Selects(id, s.rows[id], call);
    UpdateHits(covers, late, call);
  }

  /** Nothing bounds the delay: for every expiry, every earlier clock reading
      and every later moment, however long after the expiry, some run from the
      empty table consumes at that moment on that reading. */
  lemma LateCommit(covers: Covers, start: Stamp, id: string, grant: Grant, nonce: string, expires: Stamp, when: Stamp)
    returns (actions: seq<Action>)
    requires Instant(start) < Instant(expires) && Instant(start) <= Instant(when)
    ensures Run(covers, start, actions).log
            == [Created(id, grant, nonce, expires), Did(Call.Authorize(id, nonce, start), {id}, None, start),
                Did(Call.Consume(id, nonce, start, start), {id}, None, when)]
  {
    assert Run(covers, start, []) == Init(start);
    IsoOrder(start, expires);
    hide Run;
    hide Instant;
    hide Iso;
    hide Less;
    Prepared(covers, start, id, grant, nonce, expires);
    hide Do;
    var create, ask, consume := Create(id, grant, nonce, expires), AskAuthorize(0, id, nonce), AskConsume(0, id, nonce);
    RunThree(covers, start, [], create, ask, Update(0));
    var first := [] + [create] + [ask] + [Update(0)];
    ConsumesAt(covers, Run(covers, start, first), id, nonce, when);
    RunThree(covers, start, first, consume, ReadClock(0), ReadClock(0));
    var second := first + [consume] + [ReadClock(0)] + [ReadClock(0)];
    RunSnoc(covers, start, second, Tick(when));
    RunSnoc(covers, start, second + [Tick(when)], Update(0));
    actions := second + [Tick(when)] + [Update(0)];
  }

  /** A consumed row was resolved strictly before its expiry, an expired row at
      or after it: the stored texts tell them apart. */
  lemma AuditOrder(covers: Covers, start: Stamp, actions: seq<Action>, id: string)
    requires id in Run(covers, start, actions).rows
    ensures var r := Run(covers, start, actions).rows[id];
            && (r.status == Consumed ==> r.resolvedAt.Some? && Less(r.resolvedAt.value, r.expiresAt))
            && (r.status == Expired ==> r.resolvedAt.Some? && !Less(r.resolvedAt.value, r.expiresAt))
  {
    hide Run;
    hide IsoFrom;
    hide Less;
    Lifecycle(covers, start, actions, id);
    var s := Run(covers, start, actions);
    var story := Story(s.log, id);
    if s.rows[id].status == Consumed {
      IsoOrder(story[2].call.resolved, story[0].expires);
    }
  }

  // ----- Conservation

  function Terminals(t: Table): set<string> { set id | id in t && !Live(t[id]) }

  /** What the ending calls reported back: true consumes, true revokes, and the
      counts of the sweeps. */
  function Endings(log: seq<Event>): nat {
    if log == [] then 0
    else
      var e := log[|log| - 1];
      Endings(log[..|log| - 1]) + (if e.Did? && !e.call.Authorize? then |e.hits| else 0)
  }

  lemma StepEnds(t: Table, c: Call)
    requires forall id :: id in t ==> RowOk(t[id])
    ensures |Terminals(Apply(t, c))| == |Terminals(t)| + (if c.Authorize? then 0 else |Hits(t, c)|)
  {
    hide Iso;
    forall id | id in t ensures id in Terminals(Apply(t, c)) <==>
        id in Terminals(t) || (!c.Authorize? && id in Hits(t, c)) {
      StepKeepsRows(t, c, id);
    }
    var ended := if c.Authorize? then {} else Hits(t, c);
    assert Terminals(Apply(t, c)) == Terminals(t) + ended;
    assert Terminals(t) !! ended;
  }

  /** What a step does to the table and the log. */
  lemma Effect(covers: Covers, s: Sys, a: Action)
    ensures var s' := Do(covers, s, a);
            || (s'.rows == s.rows && s'.log == s.log)
            || (a.Create? && a.id !in s.rows && s'.log == s.log + [Created(a.id, a.grant, a.nonce, a.expires)]
                && s'.rows == s.rows[a.id := Row(a.grant, Iso(a.expires), Issued, Some(a.nonce), None)])
            || (a.Update? && a.c in s.clients && s.clients[a.c].Ready?
                && var call := s.clients[a.c].call;
                   s'.rows == Apply(s.rows, call) &&
                       s'.log == s.log + [Did(call, Hits(s.rows, call), s.clients[a.c].url, s.clock)])
  {
    hide Apply;
    hide Hits;
    hide Iso;
  }

  lemma EndingsSnoc(log: seq<Event>, e: Event)
    ensures Endings(log + [e]) == Endings(log) + (if e.Did? && !e.call.Authorize? then |e.hits| else 0)
  {
    assert (log + [e])[..|log|] == log;
  }

  lemma CreateEndsNothing(t: Table, id: string, r: Row)
    requires id !in t && Live(r)
    ensures Terminals(t[id := r]) == Terminals(t)
  {
  }

  lemma EndingsStep(covers: Covers, s: Sys, a: Action)
    requires Inv(covers, s) && Endings(s.log) == |Terminals(s.rows)|
    ensures Endings(Do(covers, s, a).log) == |Terminals(Do(covers, s, a).rows)|
  {
    forall id | id in s.rows ensures RowOk(s.rows[id]) { assert StoryInv(covers, s, id); }
    hide Inv;
    hide Iso;
    Effect(covers, s, a);
    hide Do;
    hide Apply;
    hide Hits;
    hide Terminals;
    hide Endings;
    if a.Create? {
      EndingsSnoc(s.log, Created(a.id, a.grant, a.nonce, a.expires));
      if a.id !in s.rows { CreateEndsNothing(s.rows, a.id, Row(a.grant, Iso(a.expires), Issued, Some(a.nonce), None)); }
    } else if a.Update? && a.c in s.clients && s.clients[a.c].Ready? {
      var call := s.clients[a.c].call;
      StepEnds(s.rows, call);
      EndingsSnoc(s.log, Did(call, Hits(s.rows, call), s.clients[a.c].url, s.clock));
    }
  }

  /** Over every run the reported endings add up to the mandates that ended. */
  lemma {:induction false} EndingsAddUp(covers: Covers, start: Stamp, actions: seq<Action>)
    ensures Endings(Run(covers, start, actions).log) == |Terminals(Run(covers, start, actions).rows)|
    decreases |actions|
  {
    hide Inv;
    hide Do;
    if actions == [] {
      assert Terminals(map[]) == {};
    } else {
      var before := actions[..|actions| - 1];
      EndingsAddUp(covers, start, before);
      RunKeeps(covers, start, before);
      EndingsStep(covers, Run(covers, start, before), actions[|actions| - 1]);
    }
  }
}

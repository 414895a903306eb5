/** The KEV catalogue cache: double-checked locking over one shared cell, run by
    any number of threads. */
module KevFeed {
  import opened Wrappers

  /** The catalogue as indexed by upper-case CVE id; the value is the date added. */
  type Catalog = map<string, string>

  const TTL: int := 6 * 3600
  const COOLDOWN: int := 300

  /** What a fetch left in the cell: the storing call's first clock reading, and
      the catalogue, None after a failure. `fetch` numbers the fetch, and `start`
      records when it began. */
  datatype Entry = Entry(now: int, fetch: nat, start: int, catalog: Option<Catalog>)

  function TtlOf(catalog: Option<Catalog>): int { if catalog.Some? then TTL else COOLDOWN }

  function Expires(e: Entry): int { e.now + TtlOf(e.catalog) }

  /** A thread inside `kev_entries`. `now` is its first clock reading. */
  datatype Thread =
    | Outside
    | Clocked(now: int)                  // about to test for an empty cell
    | SawFilled(now: int)                // about to compare the expiry
    | Waiting(now: int)                  // wants the lock
    | Locked(now: int)                   // holds it, about to test again
    | Timed(now: int, again: int)        // read the clock a second time
    | Fetching(now: int)
    | Storing(now: int, catalog: Option<Catalog>)
    | Reading(now: int)                  // about to read the catalogue
    | Done(now: int, entry: Entry)       // what it read

  /** The shared state. The cell is the last entry stored, if any; `stored` and
      `starts` are the history of stores and of fetch starts. */
  datatype Sys = Sys(clock: int, lock: Option<nat>, threads: map<nat, Thread>, stored: seq<Entry>, starts: seq<int>)

  datatype Action =
    | Tick(to: int)
    | Call(t: nat)
    | Next(t: nat)
    | FetchReturns(t: nat, catalog: Option<Catalog>)
    | FetchRaises(t: nat)

  function Last<T>(s: seq<T>): T
    requires s != []
  {
    s[|s| - 1]
  }

  function Go(s: Sys, t: nat, p: Thread): Sys { s.(threads := s.threads[t := p]) }

  /** The next atomic step of thread t; nothing when it has none. */
  function Advance(s: Sys, t: nat): Sys
    requires t in s.threads
  {
    match s.threads[t]
    case Clocked(now) => Go(s, t, if s.stored == [] then Waiting(now) else SawFilled(now))
    case SawFilled(now) =>
      if s.stored == [] then s
      else Go(s, t, if now >= Expires(Last(s.stored)) then Waiting(now) else Reading(now))
    case Waiting(now) =>
      if s.lock == None then Go(s, t, Locked(now)).(lock := Some(t)) else s
    case Locked(now) =>
      if s.stored == [] then Go(s, t, Fetching(now)).(starts := s.starts + [s.clock])
      else Go(s, t, Timed(now, s.clock))
    case Timed(now, again) =>
      if s.stored == [] then s
      else if again >= Expires(Last(s.stored)) then Go(s, t, Fetching(now)).(starts := s.starts + [s.clock])
      else Go(s, t, Reading(now)).(lock := None)
    case Storing(now, catalog) =>
      if s.starts == [] then s
      else
        var e := Entry(now, |s.starts| - 1, Last(s.starts), catalog);
        Go(s, t, Reading(now)).(lock := None, stored := s.stored + [e])
    case Reading(now) =>
      if s.stored == [] then s else Go(s, t, Done(now, Last(s.stored)))
    case _ => s
  }

  function Do(s: Sys, a: Action): Sys {
    match a
    case Tick(to) => if s.clock <= to then s.(clock := to) else s
    case Call(t) =>
      if t !in s.threads || s.threads[t].Outside? || s.threads[t].Done? then Go(s, t, Clocked(s.clock)) else s
    case Next(t) => if t in s.threads then Advance(s, t) else s
    case FetchReturns(t, catalog) =>
      if t in s.threads && s.threads[t].Fetching? then Go(s, t, Storing(s.threads[t].now, catalog)) else s
    case FetchRaises(t) =>
      // A body that is JSON but has another shape: the exception leaves the call,
      // and the lock with it; nothing is stored.
      if t in s.threads && s.threads[t].Fetching? then Go(s, t, Outside).(lock := None) else s
  }

  function Run(s: Sys, actions: seq<Action>): Sys
    decreases |actions|, actions
  {
    if actions == [] then s else Run(Do(s, actions[0]), actions[1..])
  }

  function Init(clock: int): Sys { Sys(clock, None, map[], [], []) }

  // ----- The invariant

  predicate InLock(p: Thread) { p.Locked? || p.Timed? || p.Fetching? || p.Storing? }

  predicate Fetches(p: Thread) { p.Fetching? || p.Storing? }

  /** What thread t may rely on. */
  predicate ThreadOk(s: Sys, t: nat, p: Thread) {
    && (InLock(p) <==> s.lock == Some(t))
    && (!p.Outside? ==> p.now <= s.clock)
    && (p.SawFilled? || p.Timed? || p.Reading? ==> s.stored != [])
    && (p.Timed? ==> p.now <= p.again <= s.clock)
    && (Fetches(p) ==> s.starts != [] && p.now <= Last(s.starts))
    && (Fetches(p) && s.stored != [] ==> Last(s.stored).fetch < |s.starts| - 1)
    && (p.Reading? ==> p.now < Expires(Last(s.stored)) || p.now < Last(s.stored).start)
    && (p.Done? ==> p.entry in s.stored && p.now < p.entry.start + TtlOf(p.entry.catalog))
  }

  ghost predicate ThreadsOk(s: Sys) {
    forall t :: t in s.threads ==> ThreadOk(s, t, s.threads[t])
  }

  /** Every store belongs to its own fetch, in order, and once an entry is stored
      no fetch starts before it has expired. */
  ghost predicate History(stored: seq<Entry>, starts: seq<int>, clock: int) {
    && (forall i :: 0 <= i < |stored| ==>
         stored[i].fetch < |starts| && stored[i].start == starts[stored[i].fetch] && stored[i].now <= stored[i].start)
    && (forall i, j :: 0 <= i < j < |stored| ==> stored[i].fetch < stored[j].fetch)
    && (forall i, f :: 0 <= i < |stored| && stored[i].fetch < f < |starts| ==> Expires(stored[i]) <= starts[f])
    && (forall f :: 0 <= f < |starts| ==> starts[f] <= clock)
    && (forall f, g :: 0 <= f <= g < |starts| ==> starts[f] <= starts[g])
  }

  ghost predicate HistoryOk(s: Sys) {
    History(s.stored, s.starts, s.clock) && (s.lock.Some? ==> s.lock.value in s.threads)
  }

  ghost predicate Inv(s: Sys) { ThreadsOk(s) && HistoryOk(s) }

  predicate FetchStarts(s: Sys, a: Action) { |Do(s, a).starts| > |s.starts| }

  lemma FetchOnlyWhenStale(s: Sys, a: Action)
    requires Inv(s) && FetchStarts(s, a)
    ensures a.Next? && s.lock == Some(a.t)
    ensures s.stored == [] || Expires(Last(s.stored)) <= s.clock
    ensures Do(s, a).starts == s.starts + [s.clock]
  {
  }

  // ----- Preservation

  lemma HistoryFetch(stored: seq<Entry>, starts: seq<int>, clock: int)
    requires History(stored, starts, clock)
    requires stored == [] || Expires(Last(stored)) <= clock
    ensures History(stored, starts + [clock], clock)
  {
    forall i | 0 <= i < |stored| ensures Expires(stored[i]) <= clock {
      if i < |stored| - 1 { assert Expires(stored[i]) <= starts[Last(stored).fetch]; }
    }
  }

  lemma HistoryStore(stored: seq<Entry>, starts: seq<int>, clock: int, e: Entry)
    requires History(stored, starts, clock) && starts != [] && (stored != [] ==> Last(stored).fetch < |starts| - 1)
    requires e.fetch == |starts| - 1 && e.start == Last(starts) && e.now <= e.start
    ensures History(stored + [e], starts, clock)
  {
  }

  lemma HistoryTick(stored: seq<Entry>, starts: seq<int>, clock: int, to: int)
    requires History(stored, starts, clock) && clock <= to
    ensures History(stored, starts, to)
  {
  }

  lemma HistoryKept(s: Sys, a: Action)
    requires Inv(s)
    ensures HistoryOk(Do(s, a))
  {
    hide History;
    if a.Tick? {
      HistoryTick(s.stored, s.starts, s.clock, Do(s, a).clock);
    } else if a.t in s.threads {
      var p := s.threads[a.t];
      assert ThreadOk(s, a.t, p);
      if FetchStarts(s, a) {
        FetchOnlyWhenStale(s, a);
        HistoryFetch(s.stored, s.starts, s.clock);
      } else if a.Next? && p.Storing? {
        HistoryStore(s.stored, s.starts, s.clock, Entry(p.now, |s.starts| - 1, Last(s.starts), p.catalog));
      }
    }
  }

  lemma NewEntryIsFresher(s: Sys, a: Action)
    requires Inv(s) && s.stored != [] && Do(s, a).stored != s.stored
    ensures Last(s.stored).start <= Last(Do(s, a).stored).start
    ensures Expires(Last(s.stored)) <= Last(Do(s, a).stored).start
  {
  }

  lemma LastEntryOk(s: Sys)
    requires Inv(s) && s.stored != []
    ensures Last(s.stored).now <= Last(s.stored).start <= s.clock
  {
  }

  /** The thread that moves, outside the lock. */
  lemma AdvanceOutside(s: Sys, t: nat)
    requires Inv(s) && t in s.threads && !InLock(s.threads[t])
    ensures ThreadOk(Advance(s, t), t, Advance(s, t).threads[t])
  {
  }

  /** The thread that moves, holding the lock. */
  lemma AdvanceInside(s: Sys, t: nat)
    requires Inv(s) && t in s.threads && InLock(s.threads[t])
    ensures ThreadOk(Advance(s, t), t, Advance(s, t).threads[t])
  {
    if s.stored != [] { LastEntryOk(s); }
    hide History;
    assert ThreadOk(s, t, s.threads[t]);
  }

  /** The thread that moves. */
  lemma StepSelf(s: Sys, a: Action)
    requires Inv(s) && !a.Tick? && a.t in Do(s, a).threads
    ensures ThreadOk(Do(s, a), a.t, Do(s, a).threads[a.t])
  {
    if a.t in s.threads {
      assert ThreadOk(s, a.t, s.threads[a.t]);
      if a.Next? {
        if InLock(s.threads[a.t]) { AdvanceInside(s, a.t); } else { AdvanceOutside(s, a.t); }
      }
    }
    hide History;
    hide Advance;
  }

  /** Every other thread: what it relied on still holds. */
  lemma StepOther(s: Sys, a: Action, t: nat)
    requires Inv(s) && t in s.threads && (a.Tick? || a.t != t)
    ensures t in Do(s, a).threads && Do(s, a).threads[t] == s.threads[t]
    ensures ThreadOk(Do(s, a), t, s.threads[t])
  {
    hide History;
    hide Expires;
    assert ThreadOk(s, t, s.threads[t]);
    if !a.Tick? && a.t in s.threads {
      assert ThreadOk(s, a.t, s.threads[a.t]);
      if s.stored != [] && Do(s, a).stored != s.stored { NewEntryIsFresher(s, a); }
    }
  }

  lemma OnlyCallerMoves(s: Sys, a: Action)
    ensures forall t :: t in Do(s, a).threads && (a.Tick? || t != a.t) ==> t in s.threads
  {
  }

  lemma StepKeeps(s: Sys, a: Action)
    requires Inv(s)
    ensures Inv(Do(s, a))
  {
    hide HistoryOk;
    hide ThreadOk;
    hide Advance;
    HistoryKept(s, a);
    OnlyCallerMoves(s, a);
    forall t | t in Do(s, a).threads ensures ThreadOk(Do(s, a), t, Do(s, a).threads[t]) {
      if !a.Tick? && a.t == t { StepSelf(s, a); } else { StepOther(s, a, t); }
    }
  }

  lemma {:induction false} RunKeeps(s: Sys, actions: seq<Action>)
    requires Inv(s)
    ensures Inv(Run(s, actions))
    decreases |actions|
  {
    if actions != [] {
      StepKeeps(s, actions[0]);
      RunKeeps(Do(s, actions[0]), actions[1..]);
    }
  }

  // ----- Main results

  lemma InitOk(clock: int)
    ensures Inv(Init(clock))
  {
  }

  /** In every run, the thread that starts a fetch holds the lock, and the cell
      is empty or expired at that very instant. */
  lemma FetchesAreNeeded(clock: int, actions: seq<Action>, a: Action)
    requires FetchStarts(Run(Init(clock), actions), a)
    ensures var s := Run(Init(clock), actions);
            && a.Next? && s.lock == Some(a.t)
            && (s.stored == [] || Expires(Last(s.stored)) <= s.clock)
            && Do(s, a).starts == s.starts + [s.clock]
  {
    hide Do;
    hide ThreadsOk;
    hide HistoryOk;
    InitOk(clock);
    RunKeeps(Init(clock), actions);
    FetchOnlyWhenStale(Run(Init(clock), actions), a);
  }

  /** At most one fetch runs at a time, and a thread about to read the cell
      finds it filled. */
  lemma OneFetchAtATime(clock: int, actions: seq<Action>, t: nat, u: nat)
    requires var s := Run(Init(clock), actions); t in s.threads && u in s.threads
    ensures var s := Run(Init(clock), actions);
            && (Fetches(s.threads[t]) && Fetches(s.threads[u]) ==> t == u)
            && (s.threads[t].Reading? ==> s.stored != [])
  {
    RunKeeps(Init(clock), actions);
    var s := Run(Init(clock), actions);
    assert ThreadOk(s, t, s.threads[t]) && ThreadOk(s, u, s.threads[u]);
  }

  /** How far apart two consecutive fetch starts must be, when the earlier
      fetcher let `delay` pass since its clock reading. */
  function Gap(catalog: Option<Catalog>, delay: int): int {
    var lifetime := if catalog.Some? then 21600 else 300;
    if delay < lifetime then lifetime - delay else 0
  }

  /** After a fetch that left an entry, the next one starts at least the entry's
      lifetime later, minus the time the fetcher let pass between reading the
      clock and starting. After a fetch that raised, only not earlier. */
  lemma FetchSpacing(clock: int, actions: seq<Action>, i: nat)
    requires i + 1 < |Run(Init(clock), actions).starts|
    ensures var s := Run(Init(clock), actions);
            && s.starts[i] <= s.starts[i + 1]
            && forall e | e in s.stored && e.fetch == i ::
                 && e.start == s.starts[i] && 0 <= e.start - e.now
                 && s.starts[i + 1] - s.starts[i] >= Gap(e.catalog, e.start - e.now)
  {
    RunKeeps(Init(clock), actions);
  }

  /** Whatever a call returns comes from a fetch that did not start a lifetime or
      more before the call's own first clock reading: six hours, or 300 seconds
      when the fetch failed. */
  lemma AnswersAreFresh(clock: int, actions: seq<Action>, t: nat)
    requires var s := Run(Init(clock), actions); t in s.threads && s.threads[t].Done?
    ensures var s := Run(Init(clock), actions);
            && s.threads[t].entry in s.stored
            && s.threads[t].now < s.threads[t].entry.start + (if s.threads[t].entry.catalog.Some? then 21600 else 300)
  {
    RunKeeps(Init(clock), actions);
    var s := Run(Init(clock), actions);
    assert ThreadOk(s, t, s.threads[t]);
  }

  function Six(s: Sys, a: Action, b: Action, c: Action, d: Action, e: Action, f: Action): Sys {
    Do(Do(Do(Do(Do(Do(s, a), b), c), d), e), f)
  }

  lemma Cons(s: Sys, a: Action, rest: seq<Action>)
    ensures Run(s, [a] + rest) == Run(Do(s, a), rest)
  {
  }

  lemma RunSix(s: Sys, a: Action, b: Action, c: Action, d: Action, e: Action, f: Action)
    ensures Run(s, [a, b, c, d, e, f]) == Six(s, a, b, c, d, e, f)
  {
    hide Do;
    var s1 := Do(s, a);
    var s2 := Do(s1, b);
    var s3 := Do(s2, c);
    var s4 := Do(s3, d);
    var s5 := Do(s4, e);
    assert Run(Do(s5, f), []) == Do(s5, f);
    hide Run;
    Cons(s, a, [b, c, d, e, f]);
    Cons(s1, b, [c, d, e, f]);
    Cons(s2, c, [d, e, f]);
    Cons(s3, d, [e, f]);
    Cons(s4, e, [f]);
    Cons(s5, f, []);
    assert [a] + [b, c, d, e, f] == [a, b, c, d, e, f] && [b] + [c, d, e, f] == [b, c, d, e, f];
    assert [c] + [d, e, f] == [c, d, e, f] && [d] + [e, f] == [d, e, f] && [e] + [f] == [e, f] && [f] + [] == [f];
  }

  /** On an expired cell with the lock free, the next call fetches. */
  lemma ExpiredIsRefetched(s: Sys, t: nat)
    requires s.lock == None && s.stored != [] && t !in s.threads && Expires(Last(s.stored)) <= s.clock
    ensures var s' := Run(s, [Call(t), Next(t), Next(t), Next(t), Next(t), Next(t)]);
            s'.starts == s.starts + [s.clock] && s'.stored == s.stored
  {
    RunSix(s, Call(t), Next(t), Next(t), Next(t), Next(t), Next(t));
    hide Run;
    var s1 := Do(s, Call(t));
    assert s1 == Go(s, t, Clocked(s.clock));
    var s2 := Do(s1, Next(t));
    assert s2 == Go(s, t, SawFilled(s.clock));
    var s3 := Do(s2, Next(t));
    assert s3 == Go(s, t, Waiting(s.clock));
    var s4 := Do(s3, Next(t));
    assert s4 == Go(s, t, Locked(s.clock)).(lock := Some(t));
    var s5 := Do(s4, Next(t));
    assert s5 == Go(s, t, Timed(s.clock, s.clock)).(lock := Some(t));
  }

  /** A thread that finds the cell empty at `s.clock` but reaches its fetch only
      at `late` is about to store an entry dated by the earlier reading. */
  lemma LateFetch(s: Sys, t: nat, late: int, catalog: Option<Catalog>)
    requires s.lock == None && s.stored == [] && s.starts == [] && t !in s.threads && s.clock <= late
    ensures var s' := Run(s, [Call(t), Tick(late), Next(t), Next(t), Next(t), FetchReturns(t, catalog)]);
            && s'.starts == [late] && s'.stored == [] && s'.lock == Some(t) && s'.clock == late
            && s'.threads == s.threads[t := Storing(s.clock, catalog)]
  {
    RunSix(s, Call(t), Tick(late), Next(t), Next(t), Next(t), FetchReturns(t, catalog));
    hide Run;
    hide Expires;
    var s2 := Do(Do(s, Call(t)), Tick(late));
    var s4 := Advance(Advance(s2, t), t);
    assert s4.threads[t] == Locked(s.clock) && s4.stored == [] && s4.starts == [] && s4.lock == Some(t) &&
        s4.clock == late;
    var s5 := Advance(s4, t);
    assert s5.threads[t] == Fetching(s.clock) && s5.starts == [late];
  }

  /** FetchSpacing cannot be improved: for every delay, after a success or a
      failure, some run has two fetches exactly that far apart. From a delay of
      the lifetime on they start at the same instant. */
  lemma BackToBack(delay: nat, catalog: Option<Catalog>)
    ensures exists actions ::
              && Run(Init(0), actions).starts == [delay, delay + Gap(catalog, delay)]
              && Run(Init(0), actions).stored == [Entry(0, 0, delay, catalog)]
  {
    hide Run;
    hide Do;
    var again := delay + Gap(catalog, delay);
    var first := [Call(1), Tick(delay), Next(1), Next(1), Next(1), FetchReturns(1, catalog)];
    var second := [Call(2), Next(2), Next(2), Next(2), Next(2), Next(2)];
    LateFetch(Init(0), 1, delay, catalog);
    var s := Run(Init(0), first);
    RunOne(s, Next(1));
    StoreStep(s, 1, catalog);
    var t := Do(s, Next(1));
    RunOne(t, Tick(again));
    TickStep(t, again);
    ExpiredIsRefetched(Do(t, Tick(again)), 2);
    RunConcat(Init(0), first, [Next(1)]);
    RunConcat(Init(0), first + [Next(1)], [Tick(again)]);
    RunConcat(Init(0), first + [Next(1)] + [Tick(again)], second);
    assert Run(Init(0), first + [Next(1)] + [Tick(again)] + second).starts == [delay, again];
  }

  /** A raise takes the spacing away: for every gap, also none, some run has two
      fetches that far apart, the first of which raised. */
  lemma AfterRaise(gap: nat)
    ensures exists actions :: Run(Init(0), actions).starts == [0, gap] && Run(Init(0), actions).stored == []
  {
    hide Run;
    hide Do;
    var first := [Call(1), Next(1), Next(1), Next(1), FetchRaises(1), Tick(gap)];
    var second := [Call(2), Tick(gap), Next(2), Next(2), Next(2), FetchRaises(2)];
    EmptyIsFetched(Init(0), 1, gap);
    EmptyIsRefetched(Run(Init(0), first), 2);
    RunConcat(Init(0), first, second);
    assert Run(Init(0), first + second).starts == [0, gap];
  }

  lemma EmptyIsFetched(s: Sys, t: nat, to: int)
    requires s.lock == None && s.stored == [] && t !in s.threads && s.clock <= to
    ensures var s' := Run(s, [Call(t), Next(t), Next(t), Next(t), FetchRaises(t), Tick(to)]);
            && s'.starts == s.starts + [s.clock] && s'.stored == [] && s'.lock == None && s'.clock == to
            && s'.threads == s.threads[t := Outside]
  {
    RunSix(s, Call(t), Next(t), Next(t), Next(t), FetchRaises(t), Tick(to));
    hide Run;
    var s2 := Do(Do(s, Call(t)), Next(t));
    assert s2 == Go(s, t, Waiting(s.clock));
    var s4 := Do(Do(s2, Next(t)), Next(t));
    assert s4 == Go(s, t, Fetching(s.clock)).(lock := Some(t), starts := s.starts + [s.clock]);
  }

  lemma EmptyIsRefetched(s: Sys, t: nat)
    requires s.lock == None && s.stored == [] && t !in s.threads
    ensures var s' := Run(s, [Call(t), Tick(s.clock), Next(t), Next(t), Next(t), FetchRaises(t)]);
            s'.starts == s.starts + [s.clock] && s'.stored == []
  {
    RunSix(s, Call(t), Tick(s.clock), Next(t), Next(t), Next(t), FetchRaises(t));
    hide Run;
    var s3 := Do(Do(Do(s, Call(t)), Tick(s.clock)), Next(t));
    assert s3 == Go(s, t, Waiting(s.clock));
    var s5 := Do(Do(s3, Next(t)), Next(t));
    assert s5 == Go(s, t, Fetching(s.clock)).(lock := Some(t), starts := s.starts + [s.clock]);
  }

  lemma TickStep(s: Sys, to: int)
    requires s.clock <= to
    ensures Do(s, Tick(to)) == s.(clock := to)
  {
  }

  lemma RunOne(s: Sys, a: Action)
    ensures Run(s, [a]) == Do(s, a)
  {
  }

  lemma StoreStep(s: Sys, t: nat, catalog: Option<Catalog>)
    requires t in s.threads && s.threads[t].Storing? && s.threads[t].catalog == catalog && s.starts != [] &&
        s.stored == []
    ensures var s' := Do(s, Next(t));
            && s'.stored == [Entry(s.threads[t].now, |s.starts| - 1, Last(s.starts), catalog)] && s'.lock == None
            && s'.starts == s.starts && s'.clock == s.clock && s'.threads.Keys == s.threads.Keys
  {
  }

  lemma {:induction false} RunConcat(s: Sys, a: seq<Action>, b: seq<Action>)
    ensures Run(s, a + b) == Run(Run(s, a), b)
    decreases |a|
  {
    if a == [] {
      assert a + b == b;
    } else {
      assert (a + b)[1..] == a[1..] + b;
      RunConcat(Do(s, a[0]), a[1..], b);
    }
  }
}

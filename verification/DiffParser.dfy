/** The unified-diff line machine. */
module DiffParser {
  import opened Wrappers
  import opened Text

  datatype FileRec = FileRec(
    path: string, oldPath: Option<string>, additions: nat, deletions: nat, addedLines: seq<string>, binary: bool)

  /** The variables of the loop. */
  datatype State = State(files: seq<FileRec>, current: Option<FileRec>, oldRaw: Option<string>, newRaw: Option<string>)

  const START: State := State([], None, None, None)

  function NewRec(path: string, oldRaw: Option<string>, newRaw: Option<string>): FileRec {
    FileRec(path, if oldRaw != newRaw then oldRaw else None, 0, 0, [], false)
  }

  function StripPathPrefix(raw: string): string {
    if StartsWith(raw, "a/") || StartsWith(raw, "b/") then raw[2..] else raw
  }

  /** One prefixed path out of a header: the mark, then a run of non-space. */
  function PrefixedPath(s: string, mark: string): Option<string> {
    if !StartsWith(s, mark) then None
    else
      var n := WordRun(s[|mark|..]);
      if n == 0 then None else Some(s[|mark|..][..n])
  }

  /** What the header expression captures. Each run in it is delimited by the
      other class of character, so it matches in one way only. */
  function HeaderPaths(line: string): Option<(string, string)>
    requires StartsWith(line, "diff --git")
  {
    var s := line[10..];
    var t := s[SpaceRun(s)..];
    var from := PrefixedPath(t, "a/");
    if SpaceRun(s) == 0 || from == None then None
    else
      var u := t[2 + |from.value|..];
      var into := PrefixedPath(u[SpaceRun(u)..], "b/");
      if SpaceRun(u) == 0 || into == None then None else Some((from.value, into.value))
  }

  /** The path on a `---` or `+++` line; None for /dev/null. */
  function BlockPath(line: string): Option<string>
    requires |line| >= 4
  {
    var raw := Before(Strip(line[4..]), '\t');
    if raw == "/dev/null" then None else Some(StripPathPrefix(raw))
  }

  function Flushed(files: seq<FileRec>, current: Option<FileRec>): seq<FileRec> {
    if current.Some? then files + [current.value] else files
  }

  /** One iteration. */
  function Step(st: State, line: string): State {
    if StartsWith(line, "diff --git") then
      var header := HeaderPaths(line);
      if header.Some? then
        var (o, n) := header.value;
        State(Flushed(st.files, st.current), Some(NewRec(n, Some(o), Some(n))), Some(o), Some(n))
      else State(Flushed(st.files, st.current), None, None, None)
    else if StartsWith(line, "rename from ") then st.(oldRaw := Some(Strip(line[12..])))
    else if StartsWith(line, "rename to ") then st.(newRaw := Some(Strip(line[10..])))
    else if StartsWith(line, "--- ") then st.(oldRaw := BlockPath(line))
    else if StartsWith(line, "+++ ") then
      var newRaw := BlockPath(line);
      var path :=
        if newRaw.Some? && newRaw.value != "" then newRaw.value
        else if st.oldRaw.Some? then st.oldRaw.value else "";
      st.(newRaw := newRaw, current := Some(NewRec(path, st.oldRaw, newRaw)))
    else if StartsWith(line, "Binary files") && Contains(line, "differ") then
      if st.current.Some? then st.(current := Some(st.current.value.(binary := true))) else st
    else if st.current == None then st
    else if StartsWith(line, "+") && !StartsWith(line, "+++") then
      var c := st.current.value;
      st.(current := Some(c.(additions := c.additions + 1, addedLines := c.addedLines + [line[1..]])))
    else if StartsWith(line, "-") && !StartsWith(line, "---") then
      var c := st.current.value;
      st.(current := Some(c.(deletions := c.deletions + 1)))
    else st
  }

  function Fold(st: State, lines: seq<string>): State
    decreases |lines|, lines
  {
    if lines == [] then st else Fold(Step(st, lines[0]), lines[1..])
  }

  /** What the parser returns. */
  function Parsed(lines: seq<string>): seq<FileRec> {
    var st := Fold(START, lines);
    Flushed(st.files, st.current)
  }

  /** The loop. */
  method ParseDiffLines(lines: seq<string>) returns (files: seq<FileRec>)
    ensures files == Parsed(lines)
  {
    files := [];
    var current: Option<FileRec> := None;
    var oldRaw: Option<string> := None;
    var newRaw: Option<string> := None;
    for i := 0 to |lines|
      invariant Fold(State(files, current, oldRaw, newRaw), lines[i..]) == Fold(START, lines)
    {
      var line := lines[i];
      ghost var st := State(files, current, oldRaw, newRaw);
      assert lines[i..][0] == line && lines[i..][1..] == lines[i + 1..];
      if StartsWith(line, "diff --git") {
        if current.Some? { files := files + [current.value]; }
        oldRaw, newRaw, current := None, None, None;
        var header := HeaderPaths(line);
        if header.Some? {
          oldRaw, newRaw := Some(header.value.0), Some(header.value.1);
          current := Some(FileRec(header.value.1, if oldRaw != newRaw then oldRaw else None, 0, 0, [], false));
        }
      } else if StartsWith(line, "rename from ") {
        oldRaw := Some(Strip(line[12..]));
      } else if StartsWith(line, "rename to ") {
        newRaw := Some(Strip(line[10..]));
      } else if StartsWith(line, "--- ") {
        oldRaw := BlockPath(line);
      } else if StartsWith(line, "+++ ") {
        newRaw := BlockPath(line);
        var path :=
          if newRaw.Some? && newRaw.value != "" then newRaw.value
          else if oldRaw.Some? then oldRaw.value else "";
        current := Some(FileRec(path, if oldRaw != newRaw then oldRaw else None, 0, 0, [], false));
      } else if StartsWith(line, "Binary files") && Contains(line, "differ") {
        if current.Some? { current := Some(current.value.(binary := true)); }
      } else if current.Some? {
        var c := current.value;
        if StartsWith(line, "+") && !StartsWith(line, "+++") {
          current := Some(c.(additions := c.additions + 1, addedLines := c.addedLines + [line[1..]]));
        } else if StartsWith(line, "-") && !StartsWith(line, "---") {
          current := Some(c.(deletions := c.deletions + 1));
        }
      }
      assert State(files, current, oldRaw, newRaw) == Step(st, line);
    }
    if current.Some? { files := files + [current.value]; }
  }

  // ----- On every input

  predicate Counted(r: FileRec) { r.additions == |r.addedLines| }

  predicate AllCounted(st: State) {
    (forall r :: r in st.files ==> Counted(r)) && (st.current.Some? ==> Counted(st.current.value))
  }

  lemma {:induction false} FoldCounted(st: State, lines: seq<string>)
    requires AllCounted(st)
    ensures AllCounted(Fold(st, lines))
    decreases |lines|
  {
    if lines != [] { FoldCounted(Step(st, lines[0]), lines[1..]); }
  }

  /** Whatever the lines are, every file's addition count is the number of
      added lines kept for it. */
  lemma AdditionsAreLines(lines: seq<string>)
    ensures forall r :: r in Parsed(lines) ==> r.additions == |r.addedLines|
  {
    FoldCounted(START, lines);
  }

  /** A line that the last two branches can count. */
  function Countable(line: string): nat {
    if (StartsWith(line, "+") && !StartsWith(line, "+++")) ||
        (StartsWith(line, "-") && !StartsWith(line, "---")) then 1 else 0
  }

  function CountableIn(lines: seq<string>): nat
    decreases |lines|, lines
  {
    if lines == [] then 0 else Countable(lines[0]) + CountableIn(lines[1..])
  }

  function Churn(files: seq<FileRec>): nat {
    if files == [] then 0
    else Churn(files[..|files| - 1]) + files[|files| - 1].additions + files[|files| - 1].deletions
  }

  function Total(st: State): nat {
    Churn(st.files) + if st.current.Some? then st.current.value.additions + st.current.value.deletions else 0
  }

  lemma ChurnSnoc(files: seq<FileRec>, r: FileRec)
    ensures Churn(files + [r]) == Churn(files) + r.additions + r.deletions
  {
  }

  lemma StepTotal(st: State, line: string)
    ensures Total(Step(st, line)) <= Total(st) + Countable(line)
  {
    hide HeaderPaths;
    hide BlockPath;
    hide Strip;
    hide Churn;
    if st.current.Some? { ChurnSnoc(st.files, st.current.value); }
  }

  /** The parser never counts more changes than there are countable lines. */
  lemma {:induction false} FoldTotal(st: State, lines: seq<string>)
    ensures Total(Fold(st, lines)) <= Total(st) + CountableIn(lines)
    decreases |lines|
  {
    if lines != [] {
      hide Step;
      hide Countable;
      StepTotal(st, lines[0]);
      FoldTotal(Step(st, lines[0]), lines[1..]);
    }
  }

  lemma ParsedChurn(lines: seq<string>)
    ensures Churn(Parsed(lines)) <= CountableIn(lines)
  {
    FoldTotal(START, lines);
    var st := Fold(START, lines);
    if st.current.Some? { ChurnSnoc(st.files, st.current.value); }
  }

  // ----- Which lines get a record

  predicate IsHeader(line: string) { StartsWith(line, "diff --git") }

  predicate IsNewPath(line: string) { StartsWith(line, "+++ ") }

  /** A line that starts a fresh record. */
  predicate Opens(line: string) {
    (IsHeader(line) && HeaderPaths(line).Some?) || IsNewPath(line)
  }

  /** The lines whose records are finished, and the line of the current one. */
  datatype Trail = Trail(done: seq<nat>, open: Option<nat>)

  function Finished(t: Trail): seq<nat> { if t.open.Some? then t.done + [t.open.value] else t.done }

  function Advance(t: Trail, line: string, n: nat): Trail {
    if IsHeader(line) then Trail(Finished(t), if Opens(line) then Some(n) else None)
    else if IsNewPath(line) then t.(open := Some(n))
    else t
  }

  function TrailOf(lines: seq<string>, k: nat): Trail
    requires k <= |lines|
    decreases k, lines
  {
    if k == 0 then Trail([], None) else Advance(TrailOf(lines, k - 1), lines[k - 1], k - 1)
  }

  /** r is the record that line j started, counts aside. */
  predicate StartedAt(lines: seq<string>, j: nat, r: FileRec)
    requires j < |lines|
  {
    var st := Fold(START, lines[..j + 1]);
    Opens(lines[j]) && st.current.Some? && r.path == st.current.value.path && r.oldPath == st.current.value.oldPath
  }

  // ----- The lines that belong to a record

  predicate Boundary(line: string) { IsHeader(line) || IsNewPath(line) }

  /** The first header or `+++` line from i on, or k when there is none before k. */
  function End(lines: seq<string>, i: nat, k: nat): (e: nat)
    requires i <= k <= |lines|
    ensures i <= e <= k
    decreases k - i, lines
  {
    if i == k || Boundary(lines[i]) then i else End(lines, i + 1, k)
  }

  lemma {:induction false} EndNext(lines: seq<string>, i: nat, n: nat)
    requires i <= n < |lines|
    ensures End(lines, i, n + 1) == if End(lines, i, n) < n || Boundary(lines[n]) then End(lines, i, n) else n + 1
    decreases n - i
  {
    hide Boundary;
    if i < n && !Boundary(lines[i]) { EndNext(lines, i + 1, n); }
    assert End(lines, n + 1, n + 1) == n + 1;
  }

  /** The lines after line j that are its record's own. */
  function Section(lines: seq<string>, j: nat, k: nat): seq<string>
    requires j < k <= |lines|
  {
    lines[j + 1..End(lines, j + 1, k)]
  }

  /** The text a line adds, and how many lines it removes. */
  function AddedBy(line: string): seq<string> {
    if StartsWith(line, "+") && !StartsWith(line, "+++") then [line[1..]] else []
  }

  function RemovedBy(line: string): nat {
    if StartsWith(line, "-") && !StartsWith(line, "---") then 1 else 0
  }

  predicate SaysBinary(line: string) { StartsWith(line, "Binary files") && Contains(line, "differ") }

  function AddedIn(lines: seq<string>): seq<string> {
    if lines == [] then [] else AddedIn(lines[..|lines| - 1]) + AddedBy(lines[|lines| - 1])
  }

  function RemovedIn(lines: seq<string>): nat {
    if lines == [] then 0 else RemovedIn(lines[..|lines| - 1]) + RemovedBy(lines[|lines| - 1])
  }

  predicate BinaryIn(lines: seq<string>) { exists l | l in lines :: SaysBinary(l) }

  /** r counts exactly the changes of these lines. */
  predicate Tallies(r: FileRec, own: seq<string>) {
    && r.addedLines == AddedIn(own) && r.additions == |AddedIn(own)| && r.deletions == RemovedIn(own)
    && (r.binary <==> BinaryIn(own))
  }

  predicate RecordOf(lines: seq<string>, j: nat, k: nat, r: FileRec)
    requires j < k <= |lines|
  {
    StartedAt(lines, j, r) && Tallies(r, Section(lines, j, k))
  }

  /** What a step does to the counts of the current record. */
  lemma StepTallies(st: State, line: string, own: seq<string>)
    requires st.current.Some? && !Boundary(line) && Tallies(st.current.value, own)
    ensures Step(st, line).current.Some? && Tallies(Step(st, line).current.value, own + [line])
  {
    StepCounts(st, line);
    hide Step;
    hide AddedBy;
    hide RemovedBy;
    hide SaysBinary;
    var r := Step(st, line).current.value;
    assert (own + [line])[..|own|] == own;
    assert AddedIn(own + [line]) == AddedIn(own) + AddedBy(line);
    assert RemovedIn(own + [line]) == RemovedIn(own) + RemovedBy(line);
    BinarySnoc(own, line);
    hide AddedIn;
    hide RemovedIn;
    hide BinaryIn;
  }

  lemma BinarySnoc(own: seq<string>, line: string)
    ensures BinaryIn(own + [line]) <==> BinaryIn(own) || SaysBinary(line)
  {
    hide SaysBinary;
    assert line in own + [line];
    assert forall l :: l in own + [line] <==> l in own || l == line;
    if BinaryIn(own) {
      var l :| l in own && SaysBinary(l);
      assert l in own + [line];
    }
  }

  lemma StepCounts(st: State, line: string)
    requires st.current.Some? && !Boundary(line)
    ensures Step(st, line).current.Some?
    ensures var r, r' := st.current.value, Step(st, line).current.value;
            && r'.addedLines == r.addedLines + AddedBy(line) && r'.additions == r.additions + |AddedBy(line)|
            && r'.deletions == r.deletions + RemovedBy(line) && (r'.binary <==> r.binary || SaysBinary(line))
  {
    hide HeaderPaths;
    hide BlockPath;
    hide Strip;
    hide Contains;
    ShorterPrefix(line, "---", "--- ");
    assert line != "" ==> (StartsWith(line, "+") <==> line[0] == '+') && (StartsWith(line, "-") <==> line[0] == '-');
    assert StartsWith(line, "rename from ") || StartsWith(line, "rename to ") ==> line[0] == 'r';
    assert StartsWith(line, "--- ") ==> line[0] == '-';
    assert StartsWith(line, "Binary files") ==> line[0] == 'B';
  }

  /** A line that starts a record starts its counts at zero. */
  lemma StepZero(st: State, line: string)
    requires Boundary(line) && Step(st, line).current.Some?
    ensures Tallies(Step(st, line).current.value, [])
  {
    hide HeaderPaths;
    hide BlockPath;
    hide Strip;
    if IsNewPath(line) { assert line[0] == '+'; }
  }

  /** The records and the lines that started them, one for one; a finished record
      has its end in sight, the current one has not. */
  predicate Matches(lines: seq<string>, k: nat, t: Trail, st: State)
    requires k <= |lines|
  {
    && |t.done| == |st.files| && (t.open.Some? <==> st.current.Some?)
    && (forall i :: 0 <= i < |t.done| ==> Finishes(lines, k, t.done[i], st.files[i]))
    && (t.open.Some? ==> Continues(lines, k, t.open.value, st.current.value))
  }

  predicate Finishes(lines: seq<string>, k: nat, j: nat, r: FileRec)
    requires k <= |lines|
  {
    j < k && RecordOf(lines, j, k, r) && End(lines, j + 1, k) < k
  }

  predicate Continues(lines: seq<string>, k: nat, j: nat, r: FileRec)
    requires k <= |lines|
  {
    j < k && RecordOf(lines, j, k, r) && End(lines, j + 1, k) == k
  }

  lemma FinishesNext(lines: seq<string>, n: nat, j: nat, r: FileRec)
    requires n < |lines| && (Finishes(lines, n, j, r) || (Continues(lines, n, j, r) && Boundary(lines[n])))
    ensures Finishes(lines, n + 1, j, r)
  {
    EndNext(lines, j + 1, n);
    hide End;
    hide Boundary;
    hide StartedAt;
    hide Tallies;
  }

  lemma ContinuesNext(lines: seq<string>, n: nat, j: nat, st: State)
    requires n < |lines| && st.current.Some? && Continues(lines, n, j, st.current.value) && !Boundary(lines[n])
    ensures Step(st, lines[n]).current.Some? && Continues(lines, n + 1, j, Step(st, lines[n]).current.value)
  {
    hide End;
    hide Step;
    hide Fold;
    hide Tallies;
    hide IsHeader;
    hide IsNewPath;
    hide Opens;
    EndNext(lines, j + 1, n);
    assert Section(lines, j, n + 1) == Section(lines, j, n) + [lines[n]];
    StepTallies(st, lines[n], Section(lines, j, n));
    StepOpens(st, lines[n]);
    hide Section;
    hide Boundary;
  }

  lemma ContinuesFirst(lines: seq<string>, n: nat, st: State)
    requires n < |lines| && Opens(lines[n]) && Step(st, lines[n]).current.Some?
    requires Fold(START, lines[..n + 1]) == Step(st, lines[n])
    ensures Continues(lines, n + 1, n, Step(st, lines[n]).current.value)
  {
    StepZero(st, lines[n]);
    assert End(lines, n + 1, n + 1) == n + 1;
    assert Section(lines, n, n + 1) == [];
    hide Tallies;
    hide Step;
    hide Fold;
    hide Opens;
  }

  lemma FoldSnoc(lines: seq<string>, k: nat)
    requires k < |lines|
    ensures Fold(START, lines[..k + 1]) == Step(Fold(START, lines[..k]), lines[k])
  {
    assert lines[..k + 1] == lines[..k] + [lines[k]];
    FoldConcat(START, lines[..k], [lines[k]]);
    assert Fold(Fold(START, lines[..k]), [lines[k]]) == Fold(Step(Fold(START, lines[..k]), lines[k]), []);
  }

  /** What a step does to the current record, counts aside. */
  lemma StepOpens(st: State, line: string)
    ensures Step(st, line).files == if IsHeader(line) then Flushed(st.files, st.current) else st.files
    ensures IsHeader(line) ==> (Step(st, line).current.Some? <==> Opens(line))
    ensures IsNewPath(line) ==> !IsHeader(line) && Step(st, line).current.Some?
    ensures !IsHeader(line) && !IsNewPath(line) ==>
              && (Step(st, line).current.Some? <==> st.current.Some?)
              && (st.current.Some? ==> Step(st, line).current.value.path == st.current.value.path
                                       && Step(st, line).current.value.oldPath == st.current.value.oldPath)
  {
    hide HeaderPaths;
    hide BlockPath;
    hide Strip;
    if IsNewPath(line) {
      assert line[0] == '+';
    }
  }

  lemma MatchStep(lines: seq<string>, n: nat, t: Trail, st: State)
    requires n < |lines| && Matches(lines, n, t, st) && Fold(START, lines[..n + 1]) == Step(st, lines[n])
    ensures Matches(lines, n + 1, Advance(t, lines[n], n), Step(st, lines[n]))
  {
    hide Fold;
    hide Step;
    hide IsHeader;
    hide IsNewPath;
    hide Opens;
    hide Finishes;
    hide Continues;
    var line := lines[n];
    StepOpens(st, line);
    NewPathOpens(line);
    forall i | 0 <= i < |t.done| ensures Finishes(lines, n + 1, t.done[i], st.files[i]) {
      FinishesNext(lines, n, t.done[i], st.files[i]);
    }
    if Boundary(line) {
      if t.open.Some? { FinishesNext(lines, n, t.open.value, st.current.value); }
      if Opens(line) { ContinuesFirst(lines, n, st); }
    } else if t.open.Some? {
      ContinuesNext(lines, n, t.open.value, st);
    }
  }

  lemma {:induction false} TrailMatches(lines: seq<string>, k: nat)
    requires k <= |lines|
    ensures Matches(lines, k, TrailOf(lines, k), Fold(START, lines[..k]))
    decreases k
  {
    hide Fold;
    hide Step;
    hide Finishes;
    hide Continues;
    hide Advance;
    if k > 0 {
      TrailMatches(lines, k - 1);
      FoldSnoc(lines, k - 1);
      MatchStep(lines, k - 1, TrailOf(lines, k - 1), Fold(START, lines[..k - 1]));
      hide Matches;
    } else {
      assert lines[..0] == [];
      FoldNone(START);
    }
  }

  lemma NewPathOpens(line: string)
    ensures IsNewPath(line) ==> Opens(line)
  {
  }

  /** No later `+++` line takes the place of line j before the next header. */
  predicate Survives(lines: seq<string>, j: nat, k: nat)
    requires k <= |lines|
  {
    j < k && Opens(lines[j]) && forall p | j < p < k && IsNewPath(lines[p]) :: HeaderBetween(lines, j, p)
  }

  predicate HeaderBetween(lines: seq<string>, j: nat, p: nat)
    requires p <= |lines|
  {
    exists g | j < g < p :: IsHeader(lines[g])
  }

  lemma {:induction false} TrailSurvives(lines: seq<string>, k: nat)
    requires k <= |lines|
    ensures Tells(lines, k, TrailOf(lines, k))
    decreases k
  {
    if k > 0 {
      TrailSurvives(lines, k - 1);
      TrailStep(lines, k);
    }
  }

  lemma HeaderUpTo(lines: seq<string>, j: nat, k: nat)
    requires 0 < k <= |lines| && j < k
    ensures HeaderBetween(lines, j, k) <==> HeaderBetween(lines, j, k - 1) || (j < k - 1 && IsHeader(lines[k - 1]))
  {
    hide IsHeader;
  }

  lemma SurvivesUpTo(lines: seq<string>, j: nat, k: nat)
    requires 0 < k <= |lines|
    ensures Survives(lines, j, k) <==>
            (j == k - 1 && Opens(lines[j])) ||
            (Survives(lines, j, k - 1) && (IsNewPath(lines[k - 1]) ==> HeaderBetween(lines, j, k - 1)))
  {
    hide Opens;
    hide IsNewPath;
    hide HeaderBetween;
  }

  predicate Increasing(s: seq<nat>) { forall i, j :: 0 <= i < j < |s| ==> s[i] < s[j] }

  /** What TrailSurvives says of one trail. */
  ghost predicate Tells(lines: seq<string>, k: nat, t: Trail)
    requires k <= |lines|
  {
    && Increasing(Finished(t))
    && (forall j: nat :: j in Finished(t) <==> Survives(lines, j, k))
    && (forall j :: j in t.done ==> HeaderBetween(lines, j, k))
    && (t.open.Some? ==> !HeaderBetween(lines, t.open.value, k))
  }

  lemma FinishedMember(t: Trail, j: nat)
    ensures j in Finished(t) <==> j in t.done || t.open == Some(j)
  {
  }

  lemma AdvanceMember(t: Trail, line: string, n: nat, j: nat)
    ensures j in Finished(Advance(t, line, n)) <==>
            (j == n && Opens(line)) || (j in Finished(t) && (IsNewPath(line) ==> j in t.done))
    ensures j in Advance(t, line, n).done <==> j in t.done || (IsHeader(line) && t.open == Some(j))
    ensures Advance(t, line, n).open == Some(j) ==> j == n || (t.open == Some(j) && !IsHeader(line))
  {
    NewPathOpens(line);
    assert IsNewPath(line) ==> !IsHeader(line) by { if IsNewPath(line) { assert line[0] == '+'; } }
    assert !IsHeader(line) && !IsNewPath(line) ==> !Opens(line);
    hide IsHeader;
    hide IsNewPath;
    hide Opens;
    FinishedMember(t, j);
    FinishedMember(Advance(t, line, n), j);
    hide Finished;
    if IsHeader(line) { FinishedMember(t, j); }
  }

  lemma IncreasingSnoc(s: seq<nat>, n: nat)
    requires Increasing(s) && forall j :: j in s ==> j < n
    ensures Increasing(s + [n])
  {
    forall i | 0 <= i < |s| ensures s[i] < n { assert s[i] in s; }
  }

  lemma AdvanceIncreases(t: Trail, line: string, n: nat)
    requires Increasing(Finished(t)) && forall j :: j in Finished(t) ==> j < n
    ensures Increasing(Finished(Advance(t, line, n)))
  {
    hide IsHeader;
    hide IsNewPath;
    hide Opens;
    assert Increasing(t.done) by {
      forall i | 0 <= i < |t.done| ensures t.done[i] == Finished(t)[i] {
      }
    }
    forall j | j in t.done ensures j < n { FinishedMember(t, j); }
    IncreasingSnoc(t.done, n);
    IncreasingSnoc(Finished(t), n);
    hide Increasing;
  }

  lemma TrailStep(lines: seq<string>, k: nat)
    requires 0 < k <= |lines| && Tells(lines, k - 1, TrailOf(lines, k - 1))
    ensures Tells(lines, k, TrailOf(lines, k))
  {
    var t, line := TrailOf(lines, k - 1), lines[k - 1];
    forall j | j in Finished(t) ensures j < k - 1 { assert Survives(lines, j, k - 1); }
    AdvanceIncreases(t, line, k - 1);
    var t' := Advance(t, line, k - 1);
    assert TrailOf(lines, k) == t';
    hide TrailOf;
    forall j: nat
      ensures j in Finished(t') <==> Survives(lines, j, k)
      ensures j in t'.done ==> HeaderBetween(lines, j, k)
      ensures t'.open == Some(j) ==> !HeaderBetween(lines, j, k)
    {
      MemberStep(lines, k, t, j);
    }
    hide Advance;
    hide Finished;
    hide Survives;
    hide HeaderBetween;
    hide Increasing;
  }

  lemma MemberStep(lines: seq<string>, k: nat, t: Trail, j: nat)
    requires 0 < k <= |lines|
    requires j in Finished(t) <==> Survives(lines, j, k - 1)
    requires (j in t.done ==> HeaderBetween(lines, j, k - 1)) && (t.open == Some(j) ==> !HeaderBetween(lines, j, k - 1))
    ensures var t' := Advance(t, lines[k - 1], k - 1);
            && (j in Finished(t') <==> Survives(lines, j, k))
            && (j in t'.done ==> HeaderBetween(lines, j, k))
            && (t'.open == Some(j) ==> !HeaderBetween(lines, j, k))
  {
    SurvivesUpTo(lines, j, k);
    if j < k { HeaderUpTo(lines, j, k); }
    AdvanceMember(t, lines[k - 1], k - 1, j);
    FinishedMember(t, j);
    FinishedMember(Advance(t, lines[k - 1], k - 1), j);
    assert Survives(lines, j, k - 1) ==> j < k - 1;
    assert !HeaderBetween(lines, k - 1, k - 1);
    hide Advance;
    hide Finished;
    hide Survives;
    hide HeaderBetween;
    hide Opens;
    hide IsHeader;
    hide IsNewPath;
  }

  /** These lines start the records that the parser returns, in order: each
      record has the paths read at its line, and counts exactly the changes from
      there to the next header or `+++` line. */
  ghost predicate Starts(lines: seq<string>, starts: seq<nat>) {
    && Increasing(starts) && |Parsed(lines)| == |starts|
    && forall i :: 0 <= i < |starts| ==>
         starts[i] < |lines| && RecordOf(lines, starts[i], |lines|, Parsed(lines)[i])
  }

  /** On every input a line starts a record that is returned exactly when it is a
      header or a `+++` line, and no later `+++` line comes before the next header. */
  lemma RecordsExactly(lines: seq<string>) returns (starts: seq<nat>)
    ensures Starts(lines, starts)
    ensures forall j: nat :: j in starts <==> Survives(lines, j, |lines|)
  {
    var t := TrailOf(lines, |lines|);
    starts := Finished(t);
    TrailMatches(lines, |lines|);
    TrailSurvives(lines, |lines|);
    assert lines[..|lines|] == lines;
    hide RecordOf;
    hide Survives;
    hide Fold;
    hide TrailOf;
  }

  /** So every `+++` line starts a record that is returned exactly when a header
      stands between any two of them; a plain unified diff of several files,
      without headers, keeps only the last. */
  lemma NoBlockLost(lines: seq<string>) returns (starts: seq<nat>)
    ensures Starts(lines, starts)
    ensures (forall j: nat :: j < |lines| && IsNewPath(lines[j]) ==> j in starts) <==>
            (forall j: nat, p: nat :: j < p < |lines| && IsNewPath(lines[j]) && IsNewPath(lines[p]) ==>
                HeaderBetween(lines, j, p))
    ensures (forall l :: l in lines ==> !IsHeader(l)) ==> |Parsed(lines)| <= 1
  {
    starts := RecordsExactly(lines);
    forall j: nat | j < |lines| ensures IsNewPath(lines[j]) ==> Opens(lines[j]) { NewPathOpens(lines[j]); }
    if (forall l :: l in lines ==> !IsHeader(l)) && |starts| >= 2 {
      assert starts[0] in starts && starts[1] in starts;
      assert Survives(lines, starts[0], |lines|) && Survives(lines, starts[1], |lines|);
      assert lines[starts[1]] in lines && IsNewPath(lines[starts[1]]);
      assert HeaderBetween(lines, starts[0], starts[1]);
    }
    hide IsNewPath;
    hide IsHeader;
    hide Opens;
    hide HeaderBetween;
    hide Starts;
  }

  // ----- Rendered diffs

  datatype HunkLine =
    | Range(text: string)
    | Context(text: string)
    | Added(text: string)
    | Removed(text: string)
    | NoNewline

  function HunkText(h: HunkLine): string {
    match h
    case Range(t) => "@@" + t
    case Context(t) => " " + t
    case Added(t) => "+" + t
    case Removed(t) => "-" + t
    case NoNewline => "\\ No newline at end of file"
  }

  /** Which of the two path lines the file has: none, both, or /dev/null on one side. */
  datatype Block = HeaderOnly | Both | FromNothing | ToNothing

  datatype FileDiff = FileDiff(
    from: string, into: string, extras: seq<string>, renamed: bool, block: Block, binary: bool, body: seq<HunkLine>)

  function HeaderText(f: FileDiff): string { "diff --git" + (" " + ("a/" + (f.from + (" " + ("b/" + f.into))))) }

  function BlockLines(f: FileDiff): seq<string> {
    match f.block
    case HeaderOnly => []
    case Both => ["--- a/" + f.from, "+++ b/" + f.into]
    case FromNothing => ["--- /dev/null", "+++ b/" + f.into]
    case ToNothing => ["--- a/" + f.from, "+++ /dev/null"]
  }

  function RenameLines(f: FileDiff): seq<string> {
    if f.renamed then ["rename from " + f.from, "rename to " + f.into] else []
  }

  function BinaryLines(f: FileDiff): seq<string> {
    if f.binary then ["Binary files a/" + f.from + " and b/" + f.into + " differ"] else []
  }

  function BodyLines(body: seq<HunkLine>): seq<string> {
    seq(|body|, i requires 0 <= i < |body| => HunkText(body[i]))
  }

  function Render(f: FileDiff): seq<string> {
    [HeaderText(f)] + (f.extras + (RenameLines(f) + (BlockLines(f) + (BinaryLines(f) + BodyLines(f.body)))))
  }

  function RenderAll(fs: seq<FileDiff>): seq<string> {
    if fs == [] then [] else Render(fs[0]) + RenderAll(fs[1..])
  }

  function AddedTexts(body: seq<HunkLine>): seq<string> {
    if body == [] then [] else (if body[0].Added? then [body[0].text] else []) + AddedTexts(body[1..])
  }

  function RemovedCount(body: seq<HunkLine>): nat {
    if body == [] then 0 else (if body[0].Removed? then 1 else 0) + RemovedCount(body[1..])
  }

  /** The paths that the path lines, or else the header, give. */
  function PathOf(f: FileDiff): string { if f.block == ToNothing then f.from else f.into }

  function OldPathOf(f: FileDiff): Option<string> {
    match f.block
    case FromNothing => None
    case ToNothing => Some(f.from)
    case _ => if f.from != f.into then Some(f.from) else None
  }

  /** What a file of a diff should be parsed into. */
  function Expected(f: FileDiff): FileRec {
    var added := AddedTexts(f.body);
    FileRec(PathOf(f), OldPathOf(f), |added|, RemovedCount(f.body), added, f.binary)
  }

  function ExpectedAll(fs: seq<FileDiff>): seq<FileRec> {
    seq(|fs|, i requires 0 <= i < |fs| => Expected(fs[i]))
  }

  /** A line no branch reacts to, such as an index or mode line. */
  predicate Neutral(line: string) {
    && !StartsWith(line, "diff --git") && !StartsWith(line, "rename from ") && !StartsWith(line, "rename to ")
    && !StartsWith(line, "Binary files") && !StartsWith(line, "+") && !StartsWith(line, "-")
  }

  predicate GoodPath(p: string) { p != "" && NoSpace(p) }

  predicate Good(f: FileDiff) {
    GoodPath(f.from) && GoodPath(f.into) && forall e :: e in f.extras ==> Neutral(e)
  }

  /** A change whose text does not make its line look like a path line. */
  predicate Safe(h: HunkLine) {
    (h.Added? ==> !StartsWith(h.text, "++")) && (h.Removed? ==> !StartsWith(h.text, "--"))
  }

  predicate BodySafe(body: seq<HunkLine>) { forall h :: h in body ==> Safe(h) }

  predicate AllSafe(fs: seq<FileDiff>) { forall f :: f in fs ==> BodySafe(f.body) }

  lemma {:induction false} FoldConcat(st: State, a: seq<string>, b: seq<string>)
    ensures Fold(st, a + b) == Fold(Fold(st, a), b)
    decreases |a|
  {
    if a == [] {
      assert a + b == b;
    } else {
      assert (a + b)[1..] == a[1..] + b;
      FoldConcat(Step(st, a[0]), a[1..], b);
    }
  }

  lemma NeutralStep(st: State, line: string)
    requires Neutral(line)
    ensures Step(st, line) == st
  {
    hide HeaderPaths;
    hide BlockPath;
    hide Strip;
    ShorterPrefix(line, "-", "--- ");
    ShorterPrefix(line, "+", "+++ ");
  }

  lemma {:induction false} NeutralFold(st: State, lines: seq<string>)
    requires forall l :: l in lines ==> Neutral(l)
    ensures Fold(st, lines) == st
    decreases |lines|
  {
    if lines != [] {
      assert Neutral(lines[0]);
      NeutralStep(st, lines[0]);
      hide Step;
      NeutralFold(st, lines[1..]);
    }
  }

  lemma PathFound(mark: string, path: string, rest: string)
    requires |mark| == 2 && GoodPath(path) && (rest == "" || IsSpace(rest[0]))
    ensures PrefixedPath(mark + (path + rest), mark) == Some(path)
    ensures (mark + (path + rest))[2 + |path|..] == rest
  {
    var s := mark + (path + rest);
    assert s[..2] == mark && s[2..] == path + rest;
    WordRunOf(path, rest);
    assert (path + rest)[..|path|] == path;
  }

  /** The header of a rendered file opens a fresh record for its paths. */
  lemma HeaderFound(f: FileDiff)
    requires Good(f)
    ensures StartsWith(HeaderText(f), "diff --git") && HeaderPaths(HeaderText(f)) == Some((f.from, f.into))
  {
    hide PrefixedPath;
    hide WordRun;
    var last := "b/" + (f.into + "");
    var t := "a/" + (f.from + (" " + last));
    assert "b/" + f.into == last;
    assert HeaderText(f)[..10] == "diff --git" && HeaderText(f)[10..] == " " + t;
    SpaceRunOne(t);
    assert (" " + t)[1..] == t;
    PathFound("a/", f.from, " " + last);
    SpaceRunOne(last);
    assert (" " + last)[1..] == last;
    PathFound("b/", f.into, "");
  }

  /** The record after the header and path lines, before any change. */
  function Opened(f: FileDiff): FileRec {
    FileRec(PathOf(f), OldPathOf(f), 0, 0, [], false)
  }

  lemma PrefixNoSpace(prefix: string, path: string)
    requires (prefix == "a/" || prefix == "b/") && NoSpace(path)
    ensures NoSpace(prefix + path) && '\t' !in prefix + path
  {
  }

  lemma PrefixStripped(prefix: string, path: string)
    requires prefix == "a/" || prefix == "b/"
    ensures StripPathPrefix(prefix + path) == path && prefix + path != "/dev/null"
  {
    assert (prefix + path)[..2] == prefix && (prefix + path)[2..] == path;
    assert (prefix + path)[0] != "/dev/null"[0];
  }

  lemma BlockPathOf(mark: string, prefix: string, path: string)
    requires |mark| == 4 && (prefix == "a/" || prefix == "b/") && GoodPath(path)
    ensures BlockPath(mark + (prefix + path)) == Some(path)
  {
    hide Strip;
    hide Before;
    hide StripPathPrefix;
    hide NoSpace;
    var s := prefix + path;
    assert (mark + s)[4..] == s;
    PrefixNoSpace(prefix, path);
    StripWord(s);
    BeforeAbsent(s, '\t');
    PrefixStripped(prefix, path);
  }

  lemma BlockPathNone(line: string)
    requires |line| >= 4 && line[4..] == "/dev/null"
    ensures BlockPath(line) == None
  {
    StripWord("/dev/null");
    BeforeAbsent("/dev/null", '\t');
  }

  lemma OldLineStep(st: State, line: string)
    requires StartsWith(line, "--- ")
    ensures Step(st, line) == st.(oldRaw := BlockPath(line))
  {
    hide BlockPath;
    hide HeaderPaths;
    assert line[0] == '-';
  }

  lemma NewLineStep(st: State, line: string)
    requires StartsWith(line, "+++ ")
    ensures Step(st, line).files == st.files
    ensures BlockPath(line).Some? && BlockPath(line).value != "" ==>
              Step(st, line).current == Some(NewRec(BlockPath(line).value, st.oldRaw, BlockPath(line)))
    ensures BlockPath(line) == None && st.oldRaw.Some? ==>
              Step(st, line).current == Some(NewRec(st.oldRaw.value, st.oldRaw, None))
  {
    hide BlockPath;
    hide HeaderPaths;
    assert line[0] == '+';
  }

  lemma FoldTwo(st: State, a: string, b: string)
    ensures Fold(st, [a, b]) == Step(Step(st, a), b)
  {
    assert [a, b][1..] == [b] && [b][1..] == [];
    assert Fold(Step(st, a), [b]) == Fold(Step(Step(st, a), b), []);
  }

  lemma BlockFold(st: State, f: FileDiff)
    requires Good(f) && st.current == Some(NewRec(f.into, Some(f.from), Some(f.into)))
    ensures Fold(st, BlockLines(f)).files == st.files && Fold(st, BlockLines(f)).current == Some(Opened(f))
  {
    hide Step;
    hide BlockPath;
    hide Fold;
    if f.block == HeaderOnly {
      assert Fold(st, []) == st by { FoldNone(st); }
    } else {
      var a, b := BlockLines(f)[0], BlockLines(f)[1];
      FoldTwo(st, a, b);
      assert a[..4] == "--- " && b[..4] == "+++ ";
      OldLineStep(st, a);
      NewLineStep(Step(st, a), b);
      if f.block == FromNothing {
        BlockPathNone(a);
      } else {
        assert a == "--- " + ("a/" + f.from);
        BlockPathOf("--- ", "a/", f.from);
      }
      if f.block == ToNothing {
        BlockPathNone(b);
      } else {
        assert b == "+++ " + ("b/" + f.into);
        BlockPathOf("+++ ", "b/", f.into);
      }
    }
  }

  lemma FoldNone(st: State)
    ensures Fold(st, []) == st
  {
  }

  lemma RenameFold(st: State, f: FileDiff)
    ensures Fold(st, RenameLines(f)).files == st.files && Fold(st, RenameLines(f)).current == st.current
  {
    if f.renamed {
      var a, b := RenameLines(f)[0], RenameLines(f)[1];
      FoldTwo(st, a, b);
      assert a[..12] == "rename from " && b[..10] == "rename to ";
      assert a[7] == 'f' && b[7] == 't';
      hide Fold;
      hide Strip;
      hide HeaderPaths;
      assert Step(st, a) == st.(oldRaw := Some(Strip(a[12..])));
      assert Step(Step(st, a), b) == Step(st, a).(newRaw := Some(Strip(b[10..])));
    }
  }

  lemma BinaryStep(st: State, line: string, n: nat)
    requires st.current.Some? && StartsWith(line, "Binary files") && n <= |line| && StartsWith(line[n..], "differ")
    ensures Step(st, line) == st.(current := Some(st.current.value.(binary := true)))
  {
    hide HeaderPaths;
    hide BlockPath;
    hide Strip;
    assert line[0] == 'B';
  }

  lemma BinaryFold(st: State, f: FileDiff)
    requires st.current.Some? && !st.current.value.binary
    ensures Fold(st, BinaryLines(f)) == st.(current := Some(st.current.value.(binary := f.binary)))
  {
    if f.binary {
      var line := BinaryLines(f)[0];
      assert line[..12] == "Binary files";
      assert line[|line| - 6..] == "differ";
      BinaryStep(st, line, |line| - 6);
      hide Step;
      assert Fold(st, [line]) == Fold(Step(st, line), []);
    }
  }

  function Grow(c: FileRec, body: seq<HunkLine>): FileRec {
    c.(additions := c.additions + |AddedTexts(body)|, deletions := c.deletions + RemovedCount(body),
       addedLines := c.addedLines + AddedTexts(body))
  }

  /** Which hunk lines look like countable changes. */
  lemma HunkShape(h: HunkLine)
    ensures HunkText(h) != []
    ensures h.Added? <==> HunkText(h)[0] == '+'
    ensures h.Removed? <==> HunkText(h)[0] == '-'
    ensures h.Added? ==> (StartsWith(HunkText(h), "+++") <==> !Safe(h)) && HunkText(h)[1..] == h.text
    ensures h.Removed? ==> (StartsWith(HunkText(h), "---") <==> !Safe(h))
    ensures HunkText(h)[0] != 'd' && HunkText(h)[0] != 'r' && HunkText(h)[0] != 'B'
  {
    if h.Added? || h.Removed? {
      assert HunkText(h)[1..] == h.text;
      if |h.text| >= 2 {
        assert HunkText(h)[..3] == [HunkText(h)[0]] + h.text[..2];
        assert HunkText(h)[..3][1..] == h.text[..2];
      }
      assert "+++"[1..] == "++" && "---"[1..] == "--";
    }
  }

  lemma HunkStep(st: State, h: HunkLine)
    requires Safe(h) && st.current.Some?
    ensures var c := st.current.value;
            Step(st, HunkText(h)) == st.(current := Some(
              if h.Added? then c.(additions := c.additions + 1, addedLines := c.addedLines + [h.text])
              else if h.Removed? then c.(deletions := c.deletions + 1) else c))
  {
    HunkShape(h);
    hide HunkText;
    hide HeaderPaths;
    hide BlockPath;
    hide Strip;
    var line := HunkText(h);
    ShorterPrefix(line, "+++", "+++ ");
    ShorterPrefix(line, "---", "--- ");
  }

  lemma {:induction false} BodyFold(st: State, body: seq<HunkLine>)
    requires st.current.Some? && BodySafe(body)
    ensures Fold(st, BodyLines(body)) == st.(current := Some(Grow(st.current.value, body)))
    decreases |body|
  {
    hide HunkText;
    hide Step;
    if body == [] {
      assert st.current.value.addedLines + [] == st.current.value.addedLines;
    } else {
      HunkStep(st, body[0]);
      assert BodyLines(body)[0] == HunkText(body[0]) && BodyLines(body)[1..] == BodyLines(body[1..]);
      var next := Step(st, HunkText(body[0]));
      BodyFold(next, body[1..]);
      GrowCons(st.current.value, body);
    }
  }

  lemma GrowCons(c: FileRec, body: seq<HunkLine>)
    requires body != []
    ensures Grow(c, body) == Grow(
              if body[0].Added? then c.(additions := c.additions + 1, addedLines := c.addedLines + [body[0].text])
              else if body[0].Removed? then c.(deletions := c.deletions + 1) else c, body[1..])
  {
    if body[0].Added? {
      assert c.addedLines + ([body[0].text] + AddedTexts(body[1..])) ==
          c.addedLines + [body[0].text] + AddedTexts(body[1..]);
    } else {
      assert [] + AddedTexts(body[1..]) == AddedTexts(body[1..]);
    }
  }

  /** A rendered file: whatever came before is flushed, and the record being
      built is the expected one. */
  lemma FileFold(st: State, f: FileDiff)
    requires Good(f) && BodySafe(f.body)
    ensures Fold(st, Render(f)).files == Flushed(st.files, st.current)
    ensures Fold(st, Render(f)).current == Some(Expected(f))
  {
    var s0 := Step(st, HeaderText(f));
    HeaderFound(f);
    hide Step;
    hide HeaderPaths;
    hide HeaderText;
    HeaderStep(st, f);
    var rest := f.extras + (RenameLines(f) + (BlockLines(f) + (BinaryLines(f) + BodyLines(f.body))));
    assert Render(f)[1..] == rest;
    assert Fold(st, Render(f)) == Fold(s0, rest);
    hide Fold;
    FoldConcat(s0, f.extras, RenameLines(f) + (BlockLines(f) + (BinaryLines(f) + BodyLines(f.body))));
    NeutralFold(s0, f.extras);
    FoldConcat(s0, RenameLines(f), BlockLines(f) + (BinaryLines(f) + BodyLines(f.body)));
    RenameFold(s0, f);
    var s1 := Fold(s0, RenameLines(f));
    FoldConcat(s1, BlockLines(f), BinaryLines(f) + BodyLines(f.body));
    BlockFold(s1, f);
    var s2 := Fold(s1, BlockLines(f));
    FoldConcat(s2, BinaryLines(f), BodyLines(f.body));
    BinaryFold(s2, f);
    BodyFold(Fold(s2, BinaryLines(f)), f.body);
    assert [] + AddedTexts(f.body) == AddedTexts(f.body);
  }

  lemma HeaderStep(st: State, f: FileDiff)
    requires Good(f)
    ensures Step(st, HeaderText(f)).files == Flushed(st.files, st.current)
    ensures Step(st, HeaderText(f)).current == Some(NewRec(f.into, Some(f.from), Some(f.into)))
  {
    HeaderFound(f);
    hide HeaderText;
    hide HeaderPaths;
  }

  lemma {:induction false} AllFold(st: State, fs: seq<FileDiff>)
    requires AllSafe(fs) && forall f :: f in fs ==> Good(f)
    ensures var end := Fold(st, RenderAll(fs));
            Flushed(end.files, end.current) == Flushed(st.files, st.current) + ExpectedAll(fs)
    decreases |fs|
  {
    hide Fold;
    hide Render;
    hide Expected;
    if fs == [] {
      FoldNone(st);
      assert Flushed(st.files, st.current) + [] == Flushed(st.files, st.current);
    } else {
      assert fs[0] in fs;
      FoldConcat(st, Render(fs[0]), RenderAll(fs[1..]));
      FileFold(st, fs[0]);
      AllFold(Fold(st, Render(fs[0])), fs[1..]);
      assert ExpectedAll(fs) == [Expected(fs[0])] + ExpectedAll(fs[1..]);
    }
  }

  // ----- Main result

  function Changes(body: seq<HunkLine>): nat { |AddedTexts(body)| + RemovedCount(body) }

  lemma {:induction false} CountableConcat(a: seq<string>, b: seq<string>)
    ensures CountableIn(a + b) == CountableIn(a) + CountableIn(b)
    decreases |a|
  {
    if a == [] {
      assert a + b == b;
    } else {
      assert (a + b)[1..] == a[1..] + b;
      CountableConcat(a[1..], b);
    }
  }

  lemma HunkCountable(h: HunkLine)
    ensures Countable(HunkText(h)) == if (h.Added? || h.Removed?) && Safe(h) then 1 else 0
  {
    HunkShape(h);
  }

  lemma {:induction false} BodyCountable(body: seq<HunkLine>)
    ensures CountableIn(BodyLines(body)) <= Changes(body)
    ensures !BodySafe(body) ==> CountableIn(BodyLines(body)) < Changes(body)
    decreases |body|
  {
    hide HunkText;
    hide Countable;
    if body != [] {
      assert BodyLines(body)[0] == HunkText(body[0]) && BodyLines(body)[1..] == BodyLines(body[1..]);
      HunkCountable(body[0]);
      BodyCountable(body[1..]);
      if BodySafe(body[1..]) && Safe(body[0]) {
        forall h | h in body ensures Safe(h) { assert h == body[0] || h in body[1..]; }
      }
    }
  }

  lemma {:induction false} NotCountable(lines: seq<string>)
    requires forall l :: l in lines ==> Countable(l) == 0
    ensures CountableIn(lines) == 0
    decreases |lines|
  {
    if lines != [] { NotCountable(lines[1..]); }
  }

  lemma FileCountable(f: FileDiff)
    requires Good(f)
    ensures CountableIn(Render(f)) == CountableIn(BodyLines(f.body))
  {
    var body := BodyLines(f.body);
    var before := [HeaderText(f)] + (f.extras + (RenameLines(f) + (BlockLines(f) + BinaryLines(f))));
    assert Render(f) == before + body;
    CountableConcat(before, body);
    hide Countable;
    forall l | l in before ensures Countable(l) == 0 {
      assert l == HeaderText(f) || l in f.extras || l in RenameLines(f) || l in BlockLines(f) || l in BinaryLines(f);
      FixedLine(f, l);
    }
    NotCountable(before);
  }

  lemma FixedLine(f: FileDiff, l: string)
    requires Good(f)
    requires l == HeaderText(f) || l in f.extras || l in RenameLines(f) || l in BlockLines(f) || l in BinaryLines(f)
    ensures Countable(l) == 0
  {
    if l in f.extras {
      assert Neutral(l);
    } else if l in BlockLines(f) {
      assert l[..3] == "---" || l[..3] == "+++";
      assert l[0] == l[..3][0];
    } else {
      assert |l| > 0 && (l[0] == 'd' || l[0] == 'r' || l[0] == 'B');
    }
  }

  lemma {:induction false} AllCountable(fs: seq<FileDiff>)
    requires forall f :: f in fs ==> Good(f)
    ensures CountableIn(RenderAll(fs)) <= Churn(ExpectedAll(fs))
    ensures !AllSafe(fs) ==> CountableIn(RenderAll(fs)) < Churn(ExpectedAll(fs))
    decreases |fs|
  {
    hide Render;
    hide CountableIn;
    hide BodySafe;
    hide Good;
    if fs == [] {
      NotCountable([]);
    } else {
      assert fs[0] in fs;
      CountableConcat(Render(fs[0]), RenderAll(fs[1..]));
      FileCountable(fs[0]);
      BodyCountable(fs[0].body);
      AllCountable(fs[1..]);
      assert ExpectedAll(fs) == [Expected(fs[0])] + ExpectedAll(fs[1..]);
      hide Churn;
      ChurnCons(Expected(fs[0]), ExpectedAll(fs[1..]));
      if AllSafe(fs[1..]) && BodySafe(fs[0].body) {
        forall f | f in fs ensures BodySafe(f.body) { assert f == fs[0] || f in fs[1..]; }
      }
    }
  }

  lemma {:induction false} ChurnCons(r: FileRec, files: seq<FileRec>)
    ensures Churn([r] + files) == r.additions + r.deletions + Churn(files)
    decreases |files|
  {
    if files == [] {
      assert [r] + files == [] + [r];
      ChurnSnoc([], r);
    } else {
      var n := |files| - 1;
      ChurnCons(r, files[..n]);
      assert [r] + files == ([r] + files[..n]) + [files[n]];
      ChurnSnoc([r] + files[..n], files[n]);
    }
  }

  /** Parsing a rendered diff gives back its files, in order, with their exact
      counts and added lines, exactly when no added text starts with "++" and no
      removed text with "--"; paths are free of whitespace. */
  lemma RoundTrip(fs: seq<FileDiff>)
    requires forall f :: f in fs ==> Good(f)
    ensures Parsed(RenderAll(fs)) == ExpectedAll(fs) <==> AllSafe(fs)
  {
    if AllSafe(fs) {
      AllFold(START, fs);
      assert [] + ExpectedAll(fs) == ExpectedAll(fs);
    } else {
      ParsedChurn(RenderAll(fs));
      AllCountable(fs);
    }
  }
}

/** First-writer-wins creation of the signing key file: processes race on an
    exclusive create while others may read a file that is still being written. */
module SigningKey {
  import opened Wrappers

  const MARKER: string := "\n---PUBLIC---\n"

  datatype Key = Key(priv: string, pub: string)

  // ----- Searching text

  predicate OccursAt(s: string, m: string, i: nat) { i + |m| <= |s| && s[i..i + |m|] == m }

  function IndexFrom(s: string, m: string, i: nat): (r: Option<nat>)
    ensures r.Some? ==> i <= r.value && OccursAt(s, m, r.value)
    ensures forall j :: i <= j && (r.Some? ==> j < r.value) ==> !OccursAt(s, m, j)
    decreases |s| - i
  {
    if i + |m| > |s| then None
    else if s[i..i + |m|] == m then Some(i)
    else if i == |s| then None
    else IndexFrom(s, m, i + 1)
  }

  /** The first occurrence of m in s. */
  function IndexOf(s: string, m: string): Option<nat> { IndexFrom(s, m, 0) }

  /** `content.split(marker, 1)`, when the marker is there. */
  function Split(content: string): Option<Key> {
    var i := IndexOf(content, MARKER);
    if i == None then None else Some(Key(content[..i.value], content[i.value + |MARKER|..]))
  }

  lemma OccursInPrefix(s: string, n: nat, m: string, i: nat)
    requires i + |m| <= n <= |s|
    ensures OccursAt(s[..n], m, i) <==> OccursAt(s, m, i)
  {
  }

  /** Reading less of a file finds the marker where reading all of it does. */
  lemma SplitOfPrefix(content: string, n: nat)
    requires n <= |content| && Split(content[..n]).Some?
    ensures Split(content).Some?
    ensures Split(content).value.priv == Split(content[..n]).value.priv
    ensures Split(content[..n]).value.pub <= Split(content).value.pub
    ensures Split(content[..n]).value.pub == Split(content).value.pub <==> n == |content|
  {
    var i := IndexOf(content[..n], MARKER).value;
    OccursInPrefix(content, n, MARKER, i);
    var j := IndexOf(content, MARKER).value;
    if j < i { OccursInPrefix(content, n, MARKER, j); }
    assert j == i;
    assert content[..n][..i] == content[..i];
    assert content[..n][i + |MARKER|..] == content[i + |MARKER|..][..n - i - |MARKER|];
  }

  /** What the winner writes. */
  function Content(k: Key): string { k.priv + MARKER + k.pub }

  /** The marker's first occurrence comes right after the private part. */
  predicate Clean(priv: string) { IndexOf(priv + MARKER, MARKER) == Some(|priv|) }

  /** Splitting what was written gives the private part back exactly when the
      private part is clean. */
  lemma SplitOfContent(k: Key)
    ensures Split(Content(k)).Some?
    ensures Split(Content(k)).value.priv == k.priv <==> Clean(k.priv)
    ensures Clean(k.priv) ==> Split(Content(k)).value == k
  {
    var short, full := k.priv + MARKER, Content(k);
    var i := |k.priv|;
    assert short == full[..|short|];
    assert short[i..i + |MARKER|] == MARKER;
    assert OccursAt(short, MARKER, i);
    SplitOfPrefix(full, |short|);
    var j := IndexOf(short, MARKER).value;
    assert j <= i;
    assert Split(full).value.priv == short[..j];
    if j == i {
      assert short[..i] == k.priv;
      assert full[i + |MARKER|..] == k.pub;
    }
  }

  // ----- The protocol

  /** The file: its final text, and how much of it is visible so far. */
  datatype File = File(full: string, len: nat, writer: Option<nat>)

  datatype Proc =
    | Begin
    | Exists                 // the path was there: about to read it
    | Create                 // has its own new key: about to create exclusively
    | Writing
    | Lost                   // somebody else created it: about to read it
    | Returned(key: Key, seen: nat)   // `seen` is how much of the file the key was read from
    | Raised
    | Dead

  datatype Sys = Sys(file: Option<File>, procs: map<nat, Proc>)

  /** `seen` is how much of the file a read gets, `to` how much a write shows. */
  datatype Action =
    | Enter(p: nat)
    | Check(p: nat)
    | Open(p: nat)
    | Read(p: nat, seen: nat)
    | Write(p: nat, to: nat)
    | Close(p: nat)
    | Crash(p: nat)

  function Go(s: Sys, p: nat, next: Proc): Sys { s.(procs := s.procs[p := next]) }

  /** One atomic step; `gen` is the key pair each process generates. */
  function Do(gen: nat -> Key, s: Sys, a: Action): Sys {
    if a.Enter? then (if a.p in s.procs then s else Go(s, a.p, Begin))
    else if a.p !in s.procs then s
    else
      var now := s.procs[a.p];
      match a
      case Check(p) =>
        if now.Begin? then Go(s, p, if s.file.Some? then Exists else Create) else s
      case Open(p) =>
        if !now.Create? then s
        else if s.file.Some? then Go(s, p, Lost)
        else Go(s, p, Writing).(file := Some(File(Content(gen(p)), 0, Some(p))))
      case Read(p, seen) =>
        if (now.Exists? || now.Lost?) && s.file.Some? && seen <= s.file.value.len <= |s.file.value.full| then
          var k := Split(s.file.value.full[..seen]);
          Go(s, p, if k.Some? then Returned(k.value, seen) else if now.Exists? then Create else Raised)
        else s
      case Write(p, to) =>
        if now.Writing? && s.file.Some? && s.file.value.writer == Some(p)
           && s.file.value.len <= to <= |s.file.value.full|
        then s.(file := Some(s.file.value.(len := to))) else s
      case Close(p) =>
        if now.Writing? && s.file.Some? && s.file.value.len == |s.file.value.full|
        then Go(s, p, Returned(gen(p), s.file.value.len)) else s
      case Crash(p) => if now.Returned? || now.Raised? then s else Go(s, p, Dead)
      case _ => s
  }

  function Run(gen: nat -> Key, s: Sys, actions: seq<Action>): Sys
    decreases |actions|, actions
  {
    if actions == [] then s else Run(gen, Do(gen, s, actions[0]), actions[1..])
  }

  /** The file is absent, or left by an earlier run. */
  predicate Initial(s: Sys) {
    s.procs == map[] && (s.file.Some? ==> s.file.value.writer == None && s.file.value.len == |s.file.value.full|)
  }

  /** What each process and the file say about each other. */
  predicate ProcOk(gen: nat -> Key, s: Sys, p: nat, now: Proc) {
    && (now.Exists? || now.Lost? || now.Writing? || now.Returned? ==> s.file.Some?)
    && (now.Writing? ==> s.file.value.writer == Some(p))
    && (s.file.Some? && s.file.value.writer == Some(p) ==>
        now.Writing? || now.Dead? || (now.Returned? && now.key == gen(p)))
    && (now.Returned? && s.file.value.writer != Some(p) ==> FromFile(s.file.value, now.key, now.seen))
  }

  predicate FromFile(f: File, k: Key, seen: nat) {
    && seen <= |f.full| && Split(f.full[..seen]) == Some(k)
    && Split(f.full).Some? && Split(f.full).value.priv == k.priv && k.pub <= Split(f.full).value.pub
  }

  ghost predicate Inv(gen: nat -> Key, s: Sys) {
    && (forall p :: p in s.procs ==> ProcOk(gen, s, p, s.procs[p]))
    && (s.file.Some? ==> s.file.value.len <= |s.file.value.full|)
    && (s.file.Some? && s.file.value.writer.Some? ==>
         s.file.value.writer.value in s.procs && s.file.value.full == Content(gen(s.file.value.writer.value)))
  }

  /** The final text of the file is fixed once it exists. */
  lemma FileStays(gen: nat -> Key, s: Sys, a: Action)
    requires s.file.Some?
    ensures var f := Do(gen, s, a).file;
            f.Some? && f.value.full == s.file.value.full && f.value.writer == s.file.value.writer
  {
  }

  lemma StepKeeps(gen: nat -> Key, s: Sys, a: Action)
    requires Inv(gen, s)
    ensures Inv(gen, Do(gen, s, a))
  {
    var s' := Do(gen, s, a);
    if a.Read? && a.p in s.procs && s.file.Some? && a.seen <= |s.file.value.full| &&
        Split(s.file.value.full[..a.seen]).Some? {
      SplitOfPrefix(s.file.value.full, a.seen);
    }
    hide Split;
    if s.file.Some? { FileStays(gen, s, a); }
    forall p | p in s'.procs ensures ProcOk(gen, s', p, s'.procs[p]) {
      if p in s.procs { assert ProcOk(gen, s, p, s.procs[p]); }
    }
  }

  lemma {:induction false} RunKeeps(gen: nat -> Key, s: Sys, actions: seq<Action>)
    requires Inv(gen, s)
    ensures Inv(gen, Run(gen, s, actions))
    decreases |actions|
  {
    if actions != [] {
      StepKeeps(gen, s, actions[0]);
      RunKeeps(gen, Do(gen, s, actions[0]), actions[1..]);
    }
  }

  // ----- Main results

  /** In every interleaving, of processes that returned: any two that did not
      write the file hold the same private key, and the one that did agrees with
      a reader exactly when its private part is clean; then that part is the
      writer's for everybody, and what readers hold of the public part is a
      beginning of the writer's. */
  lemma Agreement(gen: nat -> Key, start: Sys, actions: seq<Action>, p: nat, q: nat)
    requires Initial(start)
    requires var s := Run(gen, start, actions);
             p in s.procs && q in s.procs && s.procs[p].Returned? && s.procs[q].Returned?
    ensures var s := Run(gen, start, actions);
            && s.file.Some?
            && var w := s.file.value.writer;
            && (w != Some(p) && w != Some(q) ==> s.procs[p].key.priv == s.procs[q].key.priv)
            && (w == Some(p) && w != Some(q) ==> (s.procs[p].key.priv == s.procs[q].key.priv <==> Clean(gen(p).priv)))
            && (w.Some? && Clean(gen(w.value).priv) ==>
                 s.procs[q].key.priv == gen(w.value).priv && s.procs[q].key.pub <= gen(w.value).pub)
  {
    RunKeeps(gen, start, actions);
    var s := Run(gen, start, actions);
    assert ProcOk(gen, s, p, s.procs[p]) && ProcOk(gen, s, q, s.procs[q]);
    var f := s.file.value;
    if f.writer.Some? {
      SplitOfContent(gen(f.writer.value));
    }
  }

  lemma SplitOfPart(k: Key, seen: nat)
    requires Clean(k.priv) && seen <= |Content(k)| && Split(Content(k)[..seen]).Some?
    ensures |k.priv| + |MARKER| <= seen
    ensures Split(Content(k)[..seen]).value == Key(k.priv, k.pub[..seen - |k.priv| - |MARKER|])
  {
    var full, short := Content(k), Content(k)[..seen];
    SplitOfContent(k);
    SplitOfPrefix(full, seen);
    var i := IndexOf(short, MARKER).value;
    assert short[..i] == k.priv;
    assert |short[..i]| == i;
    assert short[i + |MARKER|..] == k.pub[..seen - i - |MARKER|];
  }

  /** Only the private part agrees. In every interleaving, a process that read
      the winner's file holds the winner's public part as far as it read, so it
      holds the winner's key exactly when it read the whole file. */
  lemma PublicPart(gen: nat -> Key, start: Sys, actions: seq<Action>, p: nat, w: nat)
    requires Initial(start) && Clean(gen(w).priv)
    requires var s := Run(gen, start, actions);
             p in s.procs && s.procs[p].Returned? && s.file.Some? && s.file.value.writer == Some(w) && p != w
    ensures var s := Run(gen, start, actions);
            && |gen(w).priv| + |MARKER| <= s.procs[p].seen <= |Content(gen(w))|
            && s.procs[p].key == Key(gen(w).priv, gen(w).pub[..s.procs[p].seen - |gen(w).priv| - |MARKER|])
            && (s.procs[p].key == gen(w) <==> s.procs[p].seen == |Content(gen(w))|)
  {
    RunKeeps(gen, start, actions);
    var s := Run(gen, start, actions);
    assert ProcOk(gen, s, p, s.procs[p]);
    SplitOfPart(gen(w), s.procs[p].seen);
  }

  lemma Cons(gen: nat -> Key, s: Sys, a: Action, rest: seq<Action>)
    ensures Run(gen, s, [a] + rest) == Run(gen, Do(gen, s, a), rest)
  {
  }

  lemma {:induction false} RunConcat(gen: nat -> Key, s: Sys, a: seq<Action>, b: seq<Action>)
    ensures Run(gen, s, a + b) == Run(gen, Run(gen, s, a), b)
    decreases |a|
  {
    if a == [] {
      assert a + b == b;
    } else {
      assert (a + b)[1..] == a[1..] + b;
      RunConcat(gen, Do(gen, s, a[0]), a[1..], b);
    }
  }

  function Three(gen: nat -> Key, s: Sys, a: Action, b: Action, c: Action): Sys {
    Do(gen, Do(gen, Do(gen, s, a), b), c)
  }

  lemma RunThree(gen: nat -> Key, s: Sys, a: Action, b: Action, c: Action)
    ensures Run(gen, s, [a, b, c]) == Three(gen, s, a, b, c)
  {
    hide Do;
    Cons(gen, s, a, [b, c]);
    Cons(gen, Do(gen, s, a), b, [c]);
    Cons(gen, Do(gen, Do(gen, s, a), b), c, []);
    assert [a] + [b, c] == [a, b, c] && [b] + [c] == [b, c] && [c] + [] == [c];
  }

  /** The winner creates the file, which is still empty. */
  lemma WinnerOpens(gen: nat -> Key)
    ensures Run(gen, Sys(None, map[]), [Enter(0), Check(0), Open(0)])
            == Sys(Some(File(Content(gen(0)), 0, Some(0))), map[0 := Writing])
  {
    RunThree(gen, Sys(None, map[]), Enter(0), Check(0), Open(0));
    hide Run;
    hide Content;
    assert Do(gen, Do(gen, Sys(None, map[]), Enter(0)), Check(0)) == Sys(None, map[0 := Create]);
  }

  /** Part of it becomes visible, and another process finds it there. */
  lemma ReaderArrives(gen: nat -> Key, f: File, seen: nat)
    requires f.writer == Some(0) && f.len <= seen <= |f.full|
    ensures Run(gen, Sys(Some(f), map[0 := Writing]), [Write(0, seen), Enter(1), Check(1)])
            == Sys(Some(f.(len := seen)), map[0 := Writing, 1 := Exists])
  {
    var s := Sys(Some(f), map[0 := Writing]);
    RunThree(gen, s, Write(0, seen), Enter(1), Check(1));
    hide Run;
    assert Do(gen, s, Write(0, seen)) == Sys(Some(f.(len := seen)), map[0 := Writing]);
    assert Do(gen, Do(gen, s, Write(0, seen)), Enter(1)) == Sys(Some(f.(len := seen)), map[0 := Writing, 1 := Begin]);
  }

  /** It reads what is visible; then the winner writes the rest and returns. */
  lemma ReaderReturns(gen: nat -> Key, f: File, k: Key)
    requires f.writer == Some(0) && f.len <= |f.full| && Split(f.full[..f.len]) == Some(k)
    ensures Run(gen, Sys(Some(f), map[0 := Writing, 1 := Exists]), [Read(1, f.len), Write(0, |f.full|), Close(0)])
            == Sys(Some(f.(len := |f.full|)), map[0 := Returned(gen(0), |f.full|), 1 := Returned(k, f.len)])
  {
    var s := Sys(Some(f), map[0 := Writing, 1 := Exists]);
    RunThree(gen, s, Read(1, f.len), Write(0, |f.full|), Close(0));
    hide Run;
    hide Split;
    var read := Do(gen, s, Read(1, f.len));
    assert read == Sys(Some(f), map[0 := Writing, 1 := Returned(k, f.len)]);
    var written := Do(gen, read, Write(0, |f.full|));
    assert written == Sys(Some(f.(len := |f.full|)), map[0 := Writing, 1 := Returned(k, f.len)]);
  }

  /** The public part can be cut anywhere: with no file at first, for every
      beginning of the public part some run ends with the winner holding its
      whole key and a reader holding that beginning. */
  lemma ShortenedPublicPart(gen: nat -> Key, cut: nat)
    requires Clean(gen(0).priv) && cut <= |gen(0).pub|
    ensures exists actions, n, m ::
              Run(gen, Sys(None, map[]), actions).procs
              == map[0 := Returned(gen(0), n), 1 := Returned(Key(gen(0).priv, gen(0).pub[..cut]), m)]
  {
    hide Run;
    hide Do;
    hide Split;
    var k := gen(0);
    var full, seen := Content(k), |k.priv| + |MARKER| + cut;
    assert full[..|k.priv| + |MARKER|] == k.priv + MARKER;
    SeenHasMarker(k, seen);
    SplitOfPart(k, seen);
    hide Content;
    var init := Sys(None, map[]);
    var open := [Enter(0), Check(0), Open(0)];
    var arrive := [Write(0, seen), Enter(1), Check(1)];
    var end := [Read(1, seen), Write(0, |full|), Close(0)];
    WinnerOpens(gen);
    ReaderArrives(gen, File(full, 0, Some(0)), seen);
    ReaderReturns(gen, File(full, seen, Some(0)), Key(k.priv, k.pub[..cut]));
    RunConcat(gen, init, open, arrive);
    RunConcat(gen, init, open + arrive, end);
    assert Run(gen, init, open + arrive + end).procs
        == map[0 := Returned(k, |full|), 1 := Returned(Key(k.priv, k.pub[..cut]), seen)];
  }

  /** A beginning that holds the private part and the marker can be split. */
  lemma SeenHasMarker(k: Key, seen: nat)
    requires |k.priv| + |MARKER| <= seen <= |Content(k)|
    ensures Split(Content(k)[..seen]).Some?
  {
    var short := Content(k)[..seen];
    assert short[|k.priv|..|k.priv| + |MARKER|] == MARKER;
    assert OccursAt(short, MARKER, |k.priv|);
  }
}

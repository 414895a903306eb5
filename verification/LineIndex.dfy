/** Line and column of an offset, by bisection over the newline positions. */
module LineIndex {

  /** Positions of the newlines of content, all of them and in order. */
  predicate IndexesNewlines(newlines: seq<nat>, content: string) {
    && (forall i, j :: 0 <= i < j < |newlines| ==> newlines[i] < newlines[j])
    && (forall p :: p in newlines ==> p < |content| && content[p] == '\n')
    && (forall p :: 0 <= p < |content| && content[p] == '\n' ==> p in newlines)
  }

  method BuildNewlineIndex(content: string) returns (newlines: seq<nat>)
    ensures IndexesNewlines(newlines, content)
  {
    newlines := [];
    for i := 0 to |content|
      invariant forall j, k :: 0 <= j < k < |newlines| ==> newlines[j] < newlines[k]
      invariant forall j :: 0 <= j < |newlines| ==> newlines[j] < i
      invariant forall p :: p in newlines ==> p < i && content[p] == '\n'
      invariant forall p :: 0 <= p < i && content[p] == '\n' ==> p in newlines
    {
      if content[i] == '\n' { newlines := newlines + [i]; }
    }
  }

  /** `bisect.bisect_left` */
  method BisectLeft(a: seq<nat>, x: int) returns (r: nat)
    requires forall i, j :: 0 <= i < j < |a| ==> a[i] < a[j]
    ensures r <= |a| && (forall i :: 0 <= i < r ==> a[i] < x) && (forall i :: r <= i < |a| ==> x <= a[i])
  {
    var lo, hi := 0, |a|;
    while lo < hi
      invariant 0 <= lo <= hi <= |a|
      invariant forall i :: 0 <= i < lo ==> a[i] < x
      invariant forall i :: hi <= i < |a| ==> x <= a[i]
    {
      var mid := (lo + hi) / 2;
      if a[mid] < x { lo := mid + 1; } else { hi := mid; }
    }
    r := lo;
  }

  /** A cursor: where reading the text character by character has got to. */
  datatype Position = Position(line: nat, column: nat)

  /** The position of an offset, one character at a time. */
  function PositionAt(content: string, offset: nat): Position
    requires offset <= |content|
  {
    if offset == 0 then Position(1, 1)
    else
      var before := PositionAt(content, offset - 1);
      if content[offset - 1] == '\n' then Position(before.line + 1, 1) else Position(before.line, before.column + 1)
  }

  /** The offset a position names, given the newline positions. */
  function OffsetOf(newlines: seq<nat>, p: Position): int
    requires 1 <= p.line <= |newlines| + 1
  {
    if p.line == 1 then p.column - 1 else newlines[p.line - 2] + p.column
  }

  /** n of the newlines lie before the offset. */
  predicate Splits(newlines: seq<nat>, n: nat, offset: int) {
    && n <= |newlines|
    && (forall i :: 0 <= i < n ==> newlines[i] < offset)
    && (forall i :: n <= i < |newlines| ==> offset <= newlines[i])
  }

  /** What the fast form computes from the split point. */
  function FromSplit(newlines: seq<nat>, n: nat, offset: nat): Position
    requires n <= |newlines| && (n > 0 ==> newlines[n - 1] < offset)
  {
    Position(n + 1, if n > 0 then offset - newlines[n - 1] else offset + 1)
  }

  lemma {:induction false} SplitIsPosition(content: string, newlines: seq<nat>, n: nat, offset: nat)
    requires IndexesNewlines(newlines, content) && offset <= |content| && Splits(newlines, n, offset)
    ensures FromSplit(newlines, n, offset) == PositionAt(content, offset)
    decreases offset
  {
    if offset > 0 {
      var p := offset - 1;
      if content[p] == '\n' {
        var i :| 0 <= i < |newlines| && newlines[i] == p;
        assert i < n && newlines[n - 1] < offset;
        assert i == n - 1;
        SplitIsPosition(content, newlines, n - 1, p);
      } else {
        assert forall i :: 0 <= i < |newlines| ==> newlines[i] in newlines && newlines[i] != p;
        SplitIsPosition(content, newlines, n, p);
      }
    } else {
      assert n == 0;
    }
  }

  /** The logarithmic form agrees with reading the text, for every offset, and
      the offset can be read back. */
  method LineCol(content: string, newlines: seq<nat>, offset: nat) returns (p: Position)
    requires IndexesNewlines(newlines, content) && offset <= |content|
    ensures p == PositionAt(content, offset)
    ensures 1 <= p.line <= |newlines| + 1 && OffsetOf(newlines, p) == offset
  {
    var n := BisectLeft(newlines, offset);
    p := Position(n + 1, if n > 0 then offset - newlines[n - 1] else offset + 1);
    SplitIsPosition(content, newlines, n, offset);
  }
}

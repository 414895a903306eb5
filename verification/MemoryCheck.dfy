/** The allocation check: a walk over the whole tree, node by node. */
module MemoryCheck {
  import opened Wrappers
  import opened ConstFold

  datatype Target = Target(module_: Option<string>, name: string)

  function ResolveCallTarget(func: Expr): Option<Target> {
    if func.Name? then Some(Target(None, func.id))
    else if func.Attribute? && func.object_.Name? then Some(Target(Some(func.object_.id), func.attr))
    else None
  }

  /** Bytes per unit of the first argument, for the calls on the list. */
  function Multiplier(t: Target): Option<nat> {
    if t == Target(None, "bytearray") || t == Target(None, "bytes") then Some(1)
    else if t == Target(Some("os"), "urandom") || t == Target(Some("secrets"), "token_bytes") then Some(1)
    else if t == Target(Some("secrets"), "token_hex") then Some(2)
    else if t == Target(Some("secrets"), "token_urlsafe") || t == Target(Some("random"), "randbytes") then Some(1)
    else if t == Target(Some("array"), "array") then Some(8)
    else None
  }

  function Max(a: int, b: int): int { if a >= b then a else b }

  function LiteralSize(e: Expr): Option<nat> {
    match e
    case Text(n) => Some(Max(1, n))
    case Sequence(es) => Some(Max(1, |es|) * 8)
    case SetDisplay(es) => Some(Max(1, |es|) * 8)
    case _ => None
  }

  // ----- One node

  datatype Verdict = Quiet | Fires | Raises

  predicate Over(size: Option<nat>, count: Folded, limit: nat) {
    size.Some? && count.Value? && size.value * count.n > limit
  }

  /** One round of the loop. */
  function NodeVerdict(e: Expr, limit: nat): Verdict {
    match e
    case Bin(op, l, r) =>
      if op != Mult then Quiet
      else if Fold(l).Crash? || Fold(r).Crash? then Raises
      else if Over(LiteralSize(l), Fold(r), limit) || Over(LiteralSize(r), Fold(l), limit) then Fires
      else Quiet
    case Call(func, args, _) =>
      if args == [] || ResolveCallTarget(func) == None then Quiet
      else
        var m := Multiplier(ResolveCallTarget(func).value);
        if m == None then Quiet
        else if Fold(args[0]).Crash? then Raises
        else if Over(m, Fold(args[0]), limit) then Fires
        else Quiet
    case _ => Quiet
  }

  /** The check raises at a node exactly when it folds, there, an operand in
      which zero is raised to a negative power. */
  lemma RaisesExactly(e: Expr, limit: nat)
    ensures NodeVerdict(e, limit) == Raises <==>
            match e
            case Bin(op, l, r) => op == Mult && (ZeroPower(l) || ZeroPower(r))
            case Call(func, args, _) =>
              args != [] && ResolveCallTarget(func).Some? && Multiplier(ResolveCallTarget(func).value).Some? &&
                  ZeroPower(args[0])
            case _ => false
  {
    match e
    case Bin(op, l, r) =>
      FoldRaises(l);
      FoldRaises(r);
    case Call(func, args, _) => if args != [] { FoldRaises(args[0]); }
    case _ =>
  }

  // ----- What Python builds

  /** The interpreter: the largest sequence that a repetition yields and the
      largest buffer each call returns; past these it raises instead. */
  datatype Machine = Machine(sequence: nat, buffer: Target -> nat)

  /** The bytes of the sequence a literal denotes, as the check weighs them;
      its elements are taken to evaluate, one object each. */
  function SequenceBytes(e: Expr): Option<nat> {
    match e
    case Text(n) => Some(n)
    case Sequence(es) => Some(8 * |es|)
    case _ => None
  }

  function Repeated(size: Option<nat>, count: Option<int>): Option<nat> {
    if size.Some? && count.Some? then Some(size.value * Max(0, count.value)) else None
  }

  /** The length of what each of these calls returns for an int argument; None
      when it raises. The base-64 text has four characters for three bytes, and
      an array needs a type code as its first argument. */
  function BufferBytes(t: Target, n: int): Option<nat> {
    if n < 0 then None
    else if t == Target(Some("secrets"), "token_hex") then Some(n + n)
    else if t == Target(Some("secrets"), "token_urlsafe") then Some((4 * n + 2) / 3)
    else if t in {Target(None, "bytes"), Target(None, "bytearray"), Target(Some("os"), "urandom"),
                  Target(Some("secrets"), "token_bytes"), Target(Some("random"), "randbytes")} then Some(n)
    else None
  }

  function Within(size: Option<nat>, most: nat): Option<nat> {
    if size.Some? && size.value <= most then size else None
  }

  /** The bytes of the sequence or buffer that evaluating this node builds, or
      None when it builds none: a set cannot be repeated, a count that is not an
      int raises, and beside an int these calls take no further argument. */
  function Builds(m: Machine, e: Expr): Option<nat> {
    match e
    case Bin(op, l, r) =>
      if op != Mult then None
      else if SequenceBytes(l).Some? then Within(Repeated(SequenceBytes(l), Eval(r)), m.sequence)
      else Within(Repeated(SequenceBytes(r), Eval(l)), m.sequence)
    case Call(func, args, keywords) =>
      if |args| != 1 || keywords != [] || ResolveCallTarget(func) == None || Eval(args[0]) == None then None
      else
        var t := ResolveCallTarget(func).value;
        Within(BufferBytes(t, Eval(args[0]).value), m.buffer(t))
    case _ => None
  }

  // ----- False alarms

  predicate EmptyOrSet(e: Expr) {
    match e
    case Text(n) => n == 0
    case Sequence(es) => es == []
    case SetDisplay(_) => true
    case _ => false
  }

  /** The size the check could have computed from its folded operands is one the
      interpreter can build. */
  predicate Fits(m: Machine, e: Expr) {
    match e
    case Bin(op, l, r) =>
      !Over(SequenceBytes(l), Fold(r), m.sequence) && !Over(SequenceBytes(r), Fold(l), m.sequence)
    case Call(func, args, _) =>
      args != [] && ResolveCallTarget(func).Some? && Fold(args[0]).Value? ==>
        var t := ResolveCallTarget(func).value;
        BufferBytes(t, Fold(args[0]).n).Some? ==> BufferBytes(t, Fold(args[0]).n).value <= m.buffer(t)
    case _ => true
  }

  /** Nothing in this node misleads the check: no empty literal or set is
      repeated, no array is made, the call has its one argument only, no
      exponent in the count is negative, and the size can be had. */
  predicate Plain(m: Machine, e: Expr) {
    Fits(m, e) && match e
      case Bin(op, l, r) => !EmptyOrSet(l) && !EmptyOrSet(r) && ExponentsOk(l) && ExponentsOk(r)
      case Call(func, args, keywords) =>
        ResolveCallTarget(func) != Some(Target(Some("array"), "array")) && |args| == 1 && keywords == [] &&
            ExponentsOk(args[0])
      case _ => true
  }

  lemma Scale(m: nat, n: int, limit: nat)
    requires m * n > limit
    ensures m > 0 && n > 0
  {
  }

  /** No node is both a literal that can be repeated and a count. */
  lemma LiteralOrCount(e: Expr)
    ensures LiteralSize(e).Some? ==> Fold(e) == Unknown && Eval(e) == None && ExponentsOk(e)
    ensures LiteralSize(e) == None ==> SequenceBytes(e) == None && !EmptyOrSet(e)
  {
  }

  lemma RepeatIsReal(literal: Expr, count: Expr, limit: nat, most: nat)
    requires Over(LiteralSize(literal), Fold(count), limit)
    ensures !EmptyOrSet(literal) && ExponentsOk(count) && !Over(SequenceBytes(literal), Fold(count), most) <==>
            var size := Within(Repeated(SequenceBytes(literal), Eval(count)), most);
            size.Some? && size.value > limit
  {
    Scale(LiteralSize(literal).value, Fold(count).n, limit);
    FoldIsSound(count);
    hide Fold;
    hide Eval;
    hide ExponentsOk;
  }

  lemma CallIsReal(m: Machine, e: Expr, limit: nat)
    requires e.Call? && NodeVerdict(e, limit) == Fires
    ensures Plain(m, e) <==> Builds(m, e).Some? && Builds(m, e).value > limit
  {
    Scale(Multiplier(ResolveCallTarget(e.func).value).value, Fold(e.args[0]).n, limit);
    FoldIsSound(e.args[0]);
    hide Fold;
    hide Eval;
    hide ExponentsOk;
  }

  /** When the check fires on a node, evaluating that node really builds a
      sequence or buffer over the limit exactly when the node is plain. */
  lemma FiringIsReal(m: Machine, e: Expr, limit: nat)
    requires NodeVerdict(e, limit) == Fires
    ensures Plain(m, e) <==> Builds(m, e).Some? && Builds(m, e).value > limit
  {
    if e.Call? {
      CallIsReal(m, e, limit);
    } else {
      var l, r := e.left, e.right;
      LiteralOrCount(l);
      LiteralOrCount(r);
      if Over(LiteralSize(l), Fold(r), limit) {
        RepeatIsReal(l, r, limit, m.sequence);
      } else {
        RepeatIsReal(r, l, limit, m.sequence);
      }
      hide Fold;
      hide Eval;
      hide ExponentsOk;
      hide LiteralSize;
      hide SequenceBytes;
      hide EmptyOrSet;
      hide Within;
      hide Repeated;
    }
  }

  // ----- The walk

  function Children(e: Expr): seq<Expr> {
    match e
    case Sequence(es) => es
    case SetDisplay(es) => es
    case Attribute(o, _) => [o]
    case Neg(x) => [x]
    case Bin(_, l, r) => [l, r]
    case Call(f, args, keywords) => [f] + args + keywords
    case Other(es) => es
    case _ => []
  }

  /** All nodes of a tree. */
  ghost function Nodes(e: Expr): set<Expr>
    decreases e, 1
  {
    {e} + match e
      case Sequence(es) => NodesOf(es)
      case SetDisplay(es) => NodesOf(es)
      case Attribute(o, _) => Nodes(o)
      case Neg(x) => Nodes(x)
      case Bin(_, l, r) => Nodes(l) + Nodes(r)
      case Call(f, args, keywords) => Nodes(f) + NodesOf(args) + NodesOf(keywords)
      case Other(es) => NodesOf(es)
      case _ => {}
  }

  ghost function NodesOf(es: seq<Expr>): set<Expr>
    decreases es, 0
  {
    if es == [] then {} else Nodes(es[0]) + NodesOf(es[1..])
  }

  ghost function Count(e: Expr): (n: nat)
    ensures n > 0
    decreases e, 1
  {
    1 + match e
      case Sequence(es) => CountOf(es)
      case SetDisplay(es) => CountOf(es)
      case Attribute(o, _) => Count(o)
      case Neg(x) => Count(x)
      case Bin(_, l, r) => Count(l) + Count(r)
      case Call(f, args, keywords) => Count(f) + CountOf(args) + CountOf(keywords)
      case Other(es) => CountOf(es)
      case _ => 0
  }

  ghost function CountOf(es: seq<Expr>): nat
    decreases es, 0
  {
    if es == [] then 0 else Count(es[0]) + CountOf(es[1..])
  }

  lemma {:induction false} OfConcat(a: seq<Expr>, b: seq<Expr>)
    ensures NodesOf(a + b) == NodesOf(a) + NodesOf(b)
    ensures CountOf(a + b) == CountOf(a) + CountOf(b)
    decreases |a|
  {
    if a == [] {
      assert a + b == b;
    } else {
      assert (a + b)[1..] == a[1..] + b;
      OfConcat(a[1..], b);
    }
  }

  lemma OfOne(e: Expr)
    ensures NodesOf([e]) == Nodes(e) && CountOf([e]) == Count(e)
  {
  }

  lemma OfTwo(l: Expr, r: Expr)
    ensures NodesOf([l, r]) == Nodes(l) + Nodes(r) && CountOf([l, r]) == Count(l) + Count(r)
  {
    OfOne(l);
    OfOne(r);
    OfConcat([l], [r]);
    hide *;
    assert [l] + [r] == [l, r];
  }

  lemma OfCall(f: Expr, args: seq<Expr>, keywords: seq<Expr>)
    ensures NodesOf([f] + args + keywords) == Nodes(f) + NodesOf(args) + NodesOf(keywords)
    ensures CountOf([f] + args + keywords) == Count(f) + CountOf(args) + CountOf(keywords)
  {
    OfOne(f);
    OfConcat([f], args);
    OfConcat([f] + args, keywords);
    hide *;
  }

  lemma ChildrenAreNodes(e: Expr)
    ensures Nodes(e) == {e} + NodesOf(Children(e))
    ensures Count(e) == 1 + CountOf(Children(e))
  {
    match e
    case Attribute(o, _) => OfOne(o);
    case Neg(x) => OfOne(x);
    case Bin(_, l, r) => OfTwo(l, r);
    case Call(f, args, keywords) => OfCall(f, args, keywords);
    case _ =>
  }

  /** The check on a parsed program: breadth first, stopping at the first node
      that fires (or raises); quiet exactly when every node is. */
  method HasObviousMemoryBomb(tree: Expr, limit: nat) returns (verdict: Verdict, ghost node: Expr)
    ensures verdict != Quiet ==> node in Nodes(tree) && NodeVerdict(node, limit) == verdict
    ensures verdict == Quiet <==> forall n :: n in Nodes(tree) ==> NodeVerdict(n, limit) == Quiet
  {
    var todo := [tree];
    ghost var seen: set<Expr> := {};
    OfOne(tree);
    while todo != []
      invariant Nodes(tree) == seen + NodesOf(todo)
      invariant forall n :: n in seen ==> NodeVerdict(n, limit) == Quiet
      decreases CountOf(todo)
    {
      hide NodeVerdict;
      var e, rest := todo[0], todo[1..];
      ChildrenAreNodes(e);
      OfConcat(rest, Children(e));
      assert e in Nodes(tree);
      var v := NodeVerdict(e, limit);
      if v != Quiet {
        return v, e;
      }
      todo := rest + Children(e);
      seen := seen + {e};
    }
    verdict, node := Quiet, tree;
  }
}

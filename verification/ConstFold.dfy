/** Constant folding of Python expressions, against Python's integer semantics,
    and the allocation check built on it. */
module ConstFold {
  import opened Wrappers

  datatype Op = Pow | Mult | Add | Sub | FloorDiv | OtherOp

  /** The part of Python's syntax the check looks at; `Text` is a str or bytes
      literal, `Sequence` a list or tuple display, `Other` any other node. */
  datatype Expr =
    | Int(value: int)
    | Text(length: nat)
    | Sequence(elements: seq<Expr>)
    | SetDisplay(elements: seq<Expr>)
    | Name(id: string)
    | Attribute(object_: Expr, attr: string)
    | Neg(operand: Expr)
    | Bin(op: Op, left: Expr, right: Expr)
    | Call(func: Expr, args: seq<Expr>, keywords: seq<Expr>)
    | Other(children: seq<Expr>)

  // ----- Python's integer operators

  function Power(base: int, exponent: nat): int {
    if exponent == 0 then 1 else base * Power(base, exponent - 1)
  }

  /** `//` rounds toward minus infinity; Dafny's `/` rounds so that the
      remainder is not negative. */
  function FloorDivide(a: int, b: int): int
    requires b != 0
  {
    if b > 0 then a / b else (-a) / (-b)
  }

  /** The defining property of floor division. */
  predicate IsFloor(a: int, b: int, q: int) {
    if b > 0 then q * b <= a < q * b + b else q * b + b < a <= q * b
  }

  lemma FloorDivideIsFloor(a: int, b: int)
    requires b != 0
    ensures IsFloor(a, b, FloorDivide(a, b))
  {
  }

  /** The int a Python expression evaluates to; None when it does not evaluate
      to an int (a float, another type, an exception, or unknown). An operator
      with a float operand never yields an int, and neither does a power with a
      negative exponent. */
  function Eval(e: Expr): Option<int> {
    match e
    case Int(n) => Some(n)
    case Neg(x) => if Eval(x).Some? then Some(-Eval(x).value) else None
    case Bin(op, l, r) =>
      if Eval(l) == None || Eval(r) == None then None
      else
        var a, b := Eval(l).value, Eval(r).value;
        (match op
         case Pow => if b >= 0 then Some(Power(a, b)) else None
         case Mult => Some(a * b)
         case Add => Some(a + b)
         case Sub => Some(a - b)
         case FloorDiv => if b != 0 then Some(FloorDivide(a, b)) else None
         case OtherOp => None)
    case _ => None
  }

  // ----- The folder

  /** What `_literal_int` does with a node: a value, None, or an exception it
      does not catch. */
  datatype Folded = Value(n: int) | Unknown | Crash

  // 2^1024 - 2^970, the least int that overflows when converted to a float.
  const FLOAT_LIMIT: int :=
    0xFFFFFFFFFFFFFC_0000000000000000000000_0000000000000000000000_0000000000000000000000_0000000000000000000000_0000000000000000000000_0000000000000000000000_0000000000000000000000_0000000000000000000000_0000000000000000000000_0000000000000000000000_0000000000000000000000

  const FLOAT_EXACT: int := 0x20_0000_0000_0000

  /** `int(left ** right)` for a negative exponent: a float power, truncated.
      Too large an exponent overflows, which is caught; a zero base divides by
      zero, which is not. Beyond 2^53 the exponent's float is even. */
  function NegativePower(base: int, exponent: int): Folded
    requires exponent < 0
  {
    if -exponent >= FLOAT_LIMIT then Unknown
    else if base == 0 then Crash
    else if base == 1 then Value(1)
    else if base == -1 then Value(if -exponent <= FLOAT_EXACT && exponent % 2 != 0 then -1 else 1)
    else Value(0)
  }

  function Abs(n: int): nat { if n < 0 then -n else n }

  function Fold(e: Expr): Folded {
    match e
    case Int(n) => Value(n)
    case Neg(x) => if Fold(x).Value? then Value(-Fold(x).n) else Fold(x)
    case Bin(op, l, r) =>
      if Fold(l).Crash? then Crash
      else if Fold(r).Crash? then Crash
      else if Fold(l).Unknown? || Fold(r).Unknown? then Unknown
      else
        var a, b := Fold(l).n, Fold(r).n;
        if op == Pow && b <= 12 && Abs(a) <= 1024 then
          (if b >= 0 then Value(Power(a, b)) else NegativePower(a, b))
        else if op == Mult then Value(a * b)
        else if op == Add then Value(a + b)
        else if op == Sub then Value(a - b)
        else if op == FloorDiv && b != 0 then Value(FloorDivide(a, b))
        else Unknown
    case _ => Unknown
  }

  /** No power in the expression has a folded exponent below zero. */
  predicate ExponentsOk(e: Expr) {
    match e
    case Neg(x) => ExponentsOk(x)
    case Bin(op, l, r) => ExponentsOk(l) && ExponentsOk(r) && (op == Pow && Fold(r).Value? ==> Fold(r).n >= 0)
    case _ => true
  }

  /** A folded value is Python's value exactly when every exponent in the
      expression is non-negative. */
  lemma {:induction false} FoldIsSound(e: Expr)
    requires Fold(e).Value?
    ensures Eval(e) == Some(Fold(e).n) <==> ExponentsOk(e)
    ensures !ExponentsOk(e) ==> Eval(e) == None
  {
    hide Power;
    hide FloorDivide;
    match e
    case Neg(x) => FoldIsSound(x);
    case Bin(op, l, r) =>
      FoldIsSound(l);
      FoldIsSound(r);
    case _ =>
  }

  /** Some power that the folder evaluates is zero to a negative exponent small
      enough to be a float. */
  predicate ZeroPower(e: Expr) {
    match e
    case Neg(x) => ZeroPower(x)
    case Bin(op, l, r) =>
      ZeroPower(l) || ZeroPower(r) ||
          (op == Pow && Fold(l) == Value(0) && Fold(r).Value? && -FLOAT_LIMIT < Fold(r).n < 0)
    case _ => false
  }

  /** The folder raises exactly when it meets such a power; so it never does
      when every exponent is non-negative. */
  lemma {:induction false} FoldRaises(e: Expr)
    ensures Fold(e).Crash? <==> ZeroPower(e)
    ensures ExponentsOk(e) ==> !ZeroPower(e)
  {
    hide Power;
    hide FloorDivide;
    match e
    case Neg(x) => FoldRaises(x);
    case Bin(op, l, r) =>
      FoldRaises(l);
      FoldRaises(r);
    case _ =>
  }

  /** A negative exponent alone does not make it raise; a zero base does. */
  lemma ZeroToMinusOne()
    ensures Fold(Bin(Pow, Int(0), Neg(Int(1)))) == Crash
    ensures Fold(Bin(Pow, Int(2), Neg(Int(1)))) == Value(0)
  {
  }

  // ----- How large a folded value can be

  function TwoTo(k: nat): (n: nat)
    ensures n > 0
  {
    if k == 0 then 1 else 2 * TwoTo(k - 1)
  }

  /** `int.bit_length()` */
  function BitLength(n: nat): nat { if n == 0 then 0 else 1 + BitLength(n / 2) }

  lemma {:induction false} BitLengthBounds(n: nat)
    ensures n < TwoTo(BitLength(n))
  {
    if n > 0 { BitLengthBounds(n / 2); }
  }

  /** The bits of all literals, 121 for each power, one for each other operator. */
  function Budget(e: Expr): nat {
    match e
    case Int(n) => BitLength(Abs(n))
    case Neg(x) => Budget(x)
    case Bin(op, l, r) => Budget(l) + Budget(r) + if op == Pow then 121 else 1
    case _ => 0
  }

  lemma {:induction false} TwoToAdd(a: nat, b: nat)
    ensures TwoTo(a + b) == TwoTo(a) * TwoTo(b)
    decreases b
  {
    if b > 0 {
      TwoToAdd(a, b - 1);
      assert TwoTo(a + b) == 2 * (TwoTo(a) * TwoTo(b - 1)) == TwoTo(a) * (2 * TwoTo(b - 1));
    }
  }

  lemma {:induction false} TwoToGrows(a: nat, b: nat)
    requires a <= b
    ensures TwoTo(a) <= TwoTo(b)
    decreases b
  {
    if a < b { TwoToGrows(a, b - 1); }
  }

  lemma AbsProduct(a: int, b: int)
    ensures Abs(a * b) == Abs(a) * Abs(b)
  {
  }

  lemma ProductBelow(a: nat, b: nat, c: nat, d: nat)
    requires a <= c && b <= d
    ensures a * b <= c * d
  {
  }

  lemma {:induction false} PowerBound(base: int, exponent: nat)
    requires Abs(base) <= 1024
    ensures Abs(Power(base, exponent)) <= TwoTo(10 * exponent)
    decreases exponent
  {
    if exponent > 0 {
      PowerBound(base, exponent - 1);
      AbsProduct(base, Power(base, exponent - 1));
      ProductBelow(Abs(base), Abs(Power(base, exponent - 1)), 1024, TwoTo(10 * (exponent - 1)));
      TwoToAdd(10 * (exponent - 1), 10);
      assert TwoTo(10) == 1024;
    }
  }

  lemma TimesGrows(q: int, m: int)
    requires m >= 1
    ensures (q >= 0 ==> q * m >= q) && (q <= 0 ==> q * m <= q)
    ensures (q + 1) * m == q * m + m
  {
  }

  lemma QuotientBound(x: int, m: int)
    requires m >= 1
    ensures Abs(x / m) <= Abs(x)
  {
    var q := x / m;
    assert x == q * m + x % m;
    TimesGrows(q, m);
    TimesGrows(q + 1, m);
  }

  lemma FloorBound(a: int, b: int)
    requires b != 0
    ensures Abs(FloorDivide(a, b)) <= Abs(a)
  {
    if b > 0 { QuotientBound(a, b); } else { QuotientBound(-a, -b); }
  }

  /** One operator on operands within their budgets. */
  lemma OperatorBound(op: Op, a: int, b: int, i: nat, j: nat)
    requires Abs(a) < TwoTo(i) && Abs(b) < TwoTo(j)
    ensures Abs(a * b) < TwoTo(i + j + 1)
    ensures Abs(a + b) < TwoTo(i + j + 1) && Abs(a - b) < TwoTo(i + j + 1)
    ensures b != 0 ==> Abs(FloorDivide(a, b)) < TwoTo(i + j + 1)
  {
    hide FloorDivide;
    TwoToGrows(i, i + j);
    TwoToGrows(j, i + j);
    AbsProduct(a, b);
    ProductBelow(Abs(a), Abs(b), TwoTo(i), TwoTo(j));
    TwoToAdd(i, j);
    if b != 0 { FloorBound(a, b); }
  }

  /** A folded value stays below two to its budget, whatever the expression. */
  lemma {:induction false} FoldIsBounded(e: Expr)
    requires Fold(e).Value?
    ensures Abs(Fold(e).n) < TwoTo(Budget(e))
  {
    hide Power;
    hide FloorDivide;
    hide TwoTo;
    match e
    case Int(n) => BitLengthBounds(Abs(n));
    case Neg(x) => FoldIsBounded(x);
    case Bin(op, l, r) =>
      FoldIsBounded(l);
      FoldIsBounded(r);
      var a, b := Fold(l).n, Fold(r).n;
      if op == Pow {
        if b >= 0 { PowerFits(a, b, Budget(e)); } else { TwoToGrowsPast(Budget(e)); }
      } else {
        OperatorBound(op, a, b, Budget(l), Budget(r));
      }
    case _ =>
  }

  lemma PowerFits(base: int, exponent: nat, budget: nat)
    requires Abs(base) <= 1024 && exponent <= 12 && budget >= 121
    ensures Abs(Power(base, exponent)) < TwoTo(budget)
  {
    PowerBound(base, exponent);
    TwoToGrows(10 * exponent, budget - 1);
    assert TwoTo(budget) == 2 * TwoTo(budget - 1);
  }

  lemma TwoToGrowsPast(budget: nat)
    requires budget >= 121
    ensures 1 < TwoTo(budget)
  {
  }
}

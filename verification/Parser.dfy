/**
 The calculator's recursive-descent parser (examples/chat.rs), over an uninterpreted number
 type: every statement holds for any five arithmetic operations in place of the f64 ones.
 */
module Parser {
  import opened Common

  datatype Token<+V> = Num(value: V) | Plus | Minus | Star | Slash | LParen | RParen

  datatype Op = Add | Sub | Mul | Div

  datatype Expr<+V> = Lit(value: V) | Neg(operand: Expr<V>) | Bin(op: Op, left: Expr<V>, right: Expr<V>)

  datatype ParseError<+V> = UnexpectedEnd | ExpectedClose | Unexpected(token: Token<V>) | Trailing(token: Token<V>)

  datatype Arithmetic<!V> = Arithmetic(add: (V, V) -> V, sub: (V, V) -> V, mul: (V, V) -> V, div: (V, V) -> V,
                                       neg: V -> V)

  function Value<V>(ops: Arithmetic<V>, e: Expr<V>): V {
    match e
    case Lit(v) => v
    case Neg(x) => ops.neg(Value(ops, x))
    case Bin(op, l, r) => Apply(ops, op, Value(ops, l), Value(ops, r))
  }

  function Apply<V>(ops: Arithmetic<V>, op: Op, x: V, y: V): V {
    match op
    case Add => ops.add(x, y)
    case Sub => ops.sub(x, y)
    case Mul => ops.mul(x, y)
    case Div => ops.div(x, y)
  }

  // ---------------------------------------------------------------- the grammar

  /** The sum operator a token stands for, and the product operator. */
  function SumOp<V>(t: Token<V>): Option<Op> {
    match t
    case Plus => Some(Add)
    case Minus => Some(Sub)
    case _ => None
  }

  function ProductOp<V>(t: Token<V>): Option<Op> {
    match t
    case Star => Some(Mul)
    case Slash => Some(Div)
    case _ => None
  }

  /** Tokens `i..j` are an expression denoting `e`: a left-associative chain of sums over terms. */
  ghost predicate IsExpr<V>(toks: seq<Token<V>>, i: nat, j: nat, e: Expr<V>)
    requires i <= j <= |toks|
    decreases j - i, 2
  {
    || IsTerm(toks, i, j, e)
    || (e.Bin? && exists k :: i < k < j && SumOp(toks[k]) == Some(e.op)
                              && IsExpr(toks, i, k, e.left) && IsTerm(toks, k + 1, j, e.right))
  }

  ghost predicate IsTerm<V>(toks: seq<Token<V>>, i: nat, j: nat, e: Expr<V>)
    requires i <= j <= |toks|
    decreases j - i, 1
  {
    || IsFactor(toks, i, j, e)
    || (e.Bin? && exists k :: i < k < j && ProductOp(toks[k]) == Some(e.op)
                              && IsTerm(toks, i, k, e.left) && IsFactor(toks, k + 1, j, e.right))
  }

  ghost predicate IsFactor<V>(toks: seq<Token<V>>, i: nat, j: nat, e: Expr<V>)
    requires i <= j <= |toks|
    decreases j - i, 0
  {
    i < j &&
    match toks[i]
    case Num(v) => j == i + 1 && e == Lit(v)
    case Minus => e.Neg? && IsFactor(toks, i + 1, j, e.operand)
    case LParen => i + 1 < j && toks[j - 1].RParen? && IsExpr(toks, i + 1, j - 1, e)
    case _ => false
  }

  ghost predicate Sentence<V>(toks: seq<Token<V>>, e: Expr<V>) {
    IsExpr(toks, 0, |toks|, e)
  }

  /** A value in numbers alone: what each operation of a tree does to the values of its operands, in that order. */
  lemma ValueOf<V>(ops: Arithmetic<V>, x: Expr<V>, y: Expr<V>, v: V)
    ensures Value(ops, Lit(v)) == v && Value(ops, Neg(x)) == ops.neg(Value(ops, x))
    ensures Value(ops, Bin(Add, x, y)) == ops.add(Value(ops, x), Value(ops, y))
    ensures Value(ops, Bin(Sub, x, y)) == ops.sub(Value(ops, x), Value(ops, y))
    ensures Value(ops, Bin(Mul, x, y)) == ops.mul(Value(ops, x), Value(ops, y))
    ensures Value(ops, Bin(Div, x, y)) == ops.div(Value(ops, x), Value(ops, y))
  {
  }

  lemma NumberIsFactor<V>(toks: seq<Token<V>>, i: nat, v: V)
    requires i < |toks| && toks[i] == Num(v)
    ensures IsFactor(toks, i, i + 1, Lit(v)) && IsTerm(toks, i, i + 1, Lit(v)) && IsExpr(toks, i, i + 1, Lit(v))
  {
  }

  /** Two numbers and the sign between them: the four signs, and which number comes first. */
  lemma TwoNumbers<V>(ops: Arithmetic<V>, x: V, y: V)
    ensures exists e :: Sentence([Num(x), Plus, Num(y)], e) && Value(ops, e) == ops.add(x, y)
    ensures exists e :: Sentence([Num(x), Minus, Num(y)], e) && Value(ops, e) == ops.sub(x, y)
    ensures exists e :: Sentence([Num(x), Star, Num(y)], e) && Value(ops, e) == ops.mul(x, y)
    ensures exists e :: Sentence([Num(x), Slash, Num(y)], e) && Value(ops, e) == ops.div(x, y)
  {
    SumOfTwo(Plus, Add, x, y);
    SumOfTwo(Minus, Sub, x, y);
    ProductOfTwo(Star, Mul, x, y);
    ProductOfTwo(Slash, Div, x, y);
    ValueOf(ops, Lit(x), Lit(y), x);
  }

  lemma SumOfTwo<V>(t: Token<V>, op: Op, x: V, y: V)
    requires SumOp(t) == Some(op)
    ensures Sentence([Num(x), t, Num(y)], Bin(op, Lit(x), Lit(y)))
  {
    var toks := [Num(x), t, Num(y)];
    NumberIsFactor(toks, 0, x);
    NumberIsFactor(toks, 2, y);
    assert SumOp(toks[1]) == Some(op) && IsExpr(toks, 0, 1, Lit(x)) && IsTerm(toks, 2, 3, Lit(y));
  }

  lemma ProductOfTwo<V>(t: Token<V>, op: Op, x: V, y: V)
    requires ProductOp(t) == Some(op)
    ensures Sentence([Num(x), t, Num(y)], Bin(op, Lit(x), Lit(y)))
  {
    var toks := [Num(x), t, Num(y)];
    NumberIsFactor(toks, 0, x);
    NumberIsFactor(toks, 2, y);
    assert ProductOp(toks[1]) == Some(op) && IsTerm(toks, 0, 1, Lit(x)) && IsFactor(toks, 2, 3, Lit(y));
    assert IsTerm(toks, 0, 3, Bin(op, Lit(x), Lit(y)));
  }

  /** Left to right among equals, the product first, and the sign of a number before either. */
  lemma ThreeNumbers<V>(ops: Arithmetic<V>, x: V, y: V, z: V)
    ensures exists e :: Sentence([Num(x), Minus, Num(y), Minus, Num(z)], e)
                        && Value(ops, e) == ops.sub(ops.sub(x, y), z)
    ensures exists e :: Sentence([Num(x), Minus, Num(y), Star, Num(z)], e)
                        && Value(ops, e) == ops.sub(x, ops.mul(y, z))
    ensures exists e :: Sentence([Minus, Num(x), Star, Num(y)], e) && Value(ops, e) == ops.mul(ops.neg(x), y)
  {
    DifferenceOfThree(x, y, z);
    DifferenceAndProduct(x, y, z);
    SignedProduct(x, y);
    ValueOf(ops, Bin(Sub, Lit(x), Lit(y)), Lit(z), x);
    ValueOf(ops, Lit(x), Bin(Mul, Lit(y), Lit(z)), x);
    ValueOf(ops, Neg(Lit(x)), Lit(y), x);
  }

  lemma DifferenceOfThree<V>(x: V, y: V, z: V)
    ensures Sentence([Num(x), Minus, Num(y), Minus, Num(z)], Bin(Sub, Bin(Sub, Lit(x), Lit(y)), Lit(z)))
  {
    var toks := [Num(x), Minus, Num(y), Minus, Num(z)];
    NumberIsFactor(toks, 0, x);
    NumberIsFactor(toks, 2, y);
    NumberIsFactor(toks, 4, z);
    assert SumOp(toks[1]) == Some(Sub) && SumOp(toks[3]) == Some(Sub);
    assert IsExpr(toks, 0, 3, Bin(Sub, Lit(x), Lit(y)));
  }

  lemma DifferenceAndProduct<V>(x: V, y: V, z: V)
    ensures Sentence([Num(x), Minus, Num(y), Star, Num(z)], Bin(Sub, Lit(x), Bin(Mul, Lit(y), Lit(z))))
  {
    var toks := [Num(x), Minus, Num(y), Star, Num(z)];
    NumberIsFactor(toks, 0, x);
    NumberIsFactor(toks, 2, y);
    NumberIsFactor(toks, 4, z);
    assert ProductOp(toks[3]) == Some(Mul) && SumOp(toks[1]) == Some(Sub);
    assert IsTerm(toks, 2, 5, Bin(Mul, Lit(y), Lit(z)));
  }

  lemma SignedProduct<V>(x: V, y: V)
    ensures Sentence([Minus, Num(x), Star, Num(y)], Bin(Mul, Neg(Lit(x)), Lit(y)))
  {
    var toks := [Minus, Num(x), Star, Num(y)];
    NumberIsFactor(toks, 1, x);
    NumberIsFactor(toks, 3, y);
    assert IsFactor(toks, 0, 2, Neg(Lit(x))) && ProductOp(toks[2]) == Some(Mul);
    assert IsTerm(toks, 0, 2, Neg(Lit(x)));
    assert IsTerm(toks, 0, 4, Bin(Mul, Neg(Lit(x)), Lit(y)));
  }

  // ---------------------------------------------------------------- what the parser computes

  type Parsed<V> = Result<(Expr<V>, nat), ParseError<V>>

  /** The tree the parser reads at `i` and where it stops; on success it has consumed a token. */
  function ExprAt<V>(toks: seq<Token<V>>, i: nat): (r: Parsed<V>)
    requires i <= |toks|
    ensures r.Ok? ==> i < r.value.1 <= |toks|
    decreases |toks| - i, 2
  {
    match TermAt(toks, i)
    case Err(x) => Err(x)
    case Ok((left, j)) => ExprLoop(toks, left, j)
  }

  function ExprLoop<V>(toks: seq<Token<V>>, left: Expr<V>, i: nat): (r: Parsed<V>)
    requires i <= |toks|
    ensures r.Ok? ==> i <= r.value.1 <= |toks|
    decreases |toks| - i, 3
  {
    if i < |toks| && SumOp(toks[i]).Some? then
      match TermAt(toks, i + 1)
      case Err(x) => Err(x)
      case Ok((right, j)) => ExprLoop(toks, Bin(SumOp(toks[i]).value, left, right), j)
    else Ok((left, i))
  }

  function TermAt<V>(toks: seq<Token<V>>, i: nat): (r: Parsed<V>)
    requires i <= |toks|
    ensures r.Ok? ==> i < r.value.1 <= |toks|
    decreases |toks| - i, 1
  {
    match FactorAt(toks, i)
    case Err(x) => Err(x)
    case Ok((left, j)) => TermLoop(toks, left, j)
  }

  function TermLoop<V>(toks: seq<Token<V>>, left: Expr<V>, i: nat): (r: Parsed<V>)
    requires i <= |toks|
    ensures r.Ok? ==> i <= r.value.1 <= |toks|
    decreases |toks| - i, 3
  {
    if i < |toks| && ProductOp(toks[i]).Some? then
      match FactorAt(toks, i + 1)
      case Err(x) => Err(x)
      case Ok((right, j)) => TermLoop(toks, Bin(ProductOp(toks[i]).value, left, right), j)
    else Ok((left, i))
  }

  function FactorAt<V>(toks: seq<Token<V>>, i: nat): (r: Parsed<V>)
    requires i <= |toks|
    ensures r.Ok? ==> i < r.value.1 <= |toks|
    decreases |toks| - i, 0
  {
    if i == |toks| then Err(UnexpectedEnd) else
    match toks[i]
    case Num(v) => Ok((Lit(v), i + 1))
    case LParen =>
      (match ExprAt(toks, i + 1)
       case Err(x) => Err(x)
       case Ok((e, j)) => if j < |toks| && toks[j].RParen? then Ok((e, j + 1)) else Err(ExpectedClose))
    case Minus =>
      (match FactorAt(toks, i + 1)
       case Err(x) => Err(x)
       case Ok((e, j)) => Ok((Neg(e), j)))
    case other => Err(Unexpected(other))
  }

  function Parse<V>(toks: seq<Token<V>>): Result<Expr<V>, ParseError<V>> {
    match ExprAt(toks, 0)
    case Err(x) => Err(x)
    case Ok((e, j)) => if j < |toks| then Err(Trailing(toks[j])) else Ok(e)
  }

  // ---------------------------------------------------------------- soundness

  lemma {:induction false} ExprSound<V>(toks: seq<Token<V>>, i: nat)
    requires i <= |toks| && ExprAt(toks, i).Ok?
    ensures var (e, j) := ExprAt(toks, i).value; IsExpr(toks, i, j, e)
    decreases |toks| - i, 2
  {
    var (left, k) := TermAt(toks, i).value;
    TermSound(toks, i);
    ExprLoopSound(toks, i, left, k);
  }

  lemma {:induction false} ExprLoopSound<V>(toks: seq<Token<V>>, start: nat, left: Expr<V>, i: nat)
    requires start < i <= |toks| && IsExpr(toks, start, i, left) && ExprLoop(toks, left, i).Ok?
    ensures var (e, j) := ExprLoop(toks, left, i).value; IsExpr(toks, start, j, e)
    decreases |toks| - i, 3
  {
    if i < |toks| && SumOp(toks[i]).Some? {
      var (right, j) := TermAt(toks, i + 1).value;
      TermSound(toks, i + 1);
      ExprLoopSound(toks, start, Bin(SumOp(toks[i]).value, left, right), j);
    }
  }

  lemma {:induction false} TermSound<V>(toks: seq<Token<V>>, i: nat)
    requires i <= |toks| && TermAt(toks, i).Ok?
    ensures var (e, j) := TermAt(toks, i).value; IsTerm(toks, i, j, e)
    decreases |toks| - i, 1
  {
    var (left, k) := FactorAt(toks, i).value;
    FactorSound(toks, i);
    TermLoopSound(toks, i, left, k);
  }

  lemma {:induction false} TermLoopSound<V>(toks: seq<Token<V>>, start: nat, left: Expr<V>, i: nat)
    requires start < i <= |toks| && IsTerm(toks, start, i, left) && TermLoop(toks, left, i).Ok?
    ensures var (e, j) := TermLoop(toks, left, i).value; IsTerm(toks, start, j, e)
    decreases |toks| - i, 3
  {
    if i < |toks| && ProductOp(toks[i]).Some? {
      var (right, j) := FactorAt(toks, i + 1).value;
      FactorSound(toks, i + 1);
      TermLoopSound(toks, start, Bin(ProductOp(toks[i]).value, left, right), j);
    }
  }

  lemma {:induction false} FactorSound<V>(toks: seq<Token<V>>, i: nat)
    requires i <= |toks| && FactorAt(toks, i).Ok?
    ensures var (e, j) := FactorAt(toks, i).value; IsFactor(toks, i, j, e)
    decreases |toks| - i, 0
  {
    match toks[i]
    case LParen => ExprSound(toks, i + 1);
    case Minus => FactorSound(toks, i + 1);
    case _ =>
  }

  // ---------------------------------------------------------------- completeness

  predicate EndsTerm<V>(toks: seq<Token<V>>, j: nat) {
    j < |toks| ==> ProductOp(toks[j]) == None
  }

  /** Whatever derives as an expression, the parser reaches with that tree as its running left operand. */
  lemma {:induction false} ExprReached<V>(toks: seq<Token<V>>, i: nat, j: nat, e: Expr<V>)
    requires i <= j <= |toks| && IsExpr(toks, i, j, e) && EndsTerm(toks, j)
    ensures ExprAt(toks, i) == ExprLoop(toks, e, j)
    decreases j - i, 2
  {
    if IsTerm(toks, i, j, e) {
      TermReached(toks, i, j, e);
    } else {
      var k :| i < k < j && SumOp(toks[k]) == Some(e.op)
               && IsExpr(toks, i, k, e.left) && IsTerm(toks, k + 1, j, e.right);
      ExprReached(toks, i, k, e.left);
      TermReached(toks, k + 1, j, e.right);
    }
  }

  lemma {:induction false} TermReached<V>(toks: seq<Token<V>>, i: nat, j: nat, e: Expr<V>)
    requires i <= j <= |toks| && IsTerm(toks, i, j, e)
    ensures TermAt(toks, i) == TermLoop(toks, e, j)
    decreases j - i, 1
  {
    if IsFactor(toks, i, j, e) {
      FactorReached(toks, i, j, e);
    } else {
      var k :| i < k < j && ProductOp(toks[k]) == Some(e.op)
               && IsTerm(toks, i, k, e.left) && IsFactor(toks, k + 1, j, e.right);
      TermReached(toks, i, k, e.left);
      FactorReached(toks, k + 1, j, e.right);
    }
  }

  lemma {:induction false} FactorReached<V>(toks: seq<Token<V>>, i: nat, j: nat, e: Expr<V>)
    requires i <= j <= |toks| && IsFactor(toks, i, j, e)
    ensures FactorAt(toks, i) == Ok((e, j))
    decreases j - i, 0
  {
    match toks[i]
    case LParen => ExprReached(toks, i + 1, j - 1, e);
    case Minus => FactorReached(toks, i + 1, j, e.operand);
    case _ =>
  }

  /** The parser accepts exactly the sentences of the grammar and returns the tree each one denotes. */
  lemma ParsesExactlyTheGrammar<V>(toks: seq<Token<V>>, e: Expr<V>)
    ensures Parse(toks) == Ok(e) <==> Sentence(toks, e)
  {
    if Parse(toks) == Ok(e) {
      ExprSound(toks, 0);
    }
    if Sentence(toks, e) {
      ExprReached(toks, 0, |toks|, e);
    }
  }

  /** Hence no token string denotes two trees: associativity and precedence leave no ambiguity. */
  lemma Unambiguous<V>(toks: seq<Token<V>>, e: Expr<V>, f: Expr<V>)
    requires Sentence(toks, e) && Sentence(toks, f)
    ensures e == f
  {
    ParsesExactlyTheGrammar(toks, e);
    ParsesExactlyTheGrammar(toks, f);
  }

  // ---------------------------------------------------------------- the errors

  /** An operand is due: nothing has been read, or the token before is an operator or opens a parenthesis. */
  predicate OperandDue<V>(toks: seq<Token<V>>, i: nat)
    requires i <= |toks|
  {
    i == 0 || !(toks[i - 1].Num? || toks[i - 1].RParen?)
  }

  /** What an error says of the tokens. */
  ghost predicate Tells<V>(toks: seq<Token<V>>, x: ParseError<V>) {
    match x
    case UnexpectedEnd => OperandDue(toks, |toks|)
    case ExpectedClose => LParen in toks
    case Unexpected(t) => t in toks && (t.Plus? || t.Star? || t.Slash? || t.RParen?)
    case Trailing(t) => t in toks
  }

  lemma {:induction false} ExprTells<V>(toks: seq<Token<V>>, i: nat)
    requires i <= |toks| && OperandDue(toks, i) && ExprAt(toks, i).Err?
    ensures Tells(toks, ExprAt(toks, i).error) && !ExprAt(toks, i).error.Trailing?
    decreases |toks| - i, 2
  {
    if TermAt(toks, i).Err? {
      TermTells(toks, i);
    } else {
      var (left, j) := TermAt(toks, i).value;
      ExprLoopTells(toks, left, j);
    }
  }

  lemma {:induction false} ExprLoopTells<V>(toks: seq<Token<V>>, left: Expr<V>, i: nat)
    requires i <= |toks| && ExprLoop(toks, left, i).Err?
    ensures Tells(toks, ExprLoop(toks, left, i).error) && !ExprLoop(toks, left, i).error.Trailing?
    decreases |toks| - i, 3
  {
    if TermAt(toks, i + 1).Err? {
      TermTells(toks, i + 1);
    } else {
      var (right, j) := TermAt(toks, i + 1).value;
      ExprLoopTells(toks, Bin(SumOp(toks[i]).value, left, right), j);
    }
  }

  lemma {:induction false} TermTells<V>(toks: seq<Token<V>>, i: nat)
    requires i <= |toks| && OperandDue(toks, i) && TermAt(toks, i).Err?
    ensures Tells(toks, TermAt(toks, i).error) && !TermAt(toks, i).error.Trailing?
    decreases |toks| - i, 1
  {
    if FactorAt(toks, i).Err? {
      FactorTells(toks, i);
    } else {
      var (left, j) := FactorAt(toks, i).value;
      TermLoopTells(toks, left, j);
    }
  }

  lemma {:induction false} TermLoopTells<V>(toks: seq<Token<V>>, left: Expr<V>, i: nat)
    requires i <= |toks| && TermLoop(toks, left, i).Err?
    ensures Tells(toks, TermLoop(toks, left, i).error) && !TermLoop(toks, left, i).error.Trailing?
    decreases |toks| - i, 3
  {
    if FactorAt(toks, i + 1).Err? {
      FactorTells(toks, i + 1);
    } else {
      var (right, j) := FactorAt(toks, i + 1).value;
      TermLoopTells(toks, Bin(ProductOp(toks[i]).value, left, right), j);
    }
  }

  lemma {:induction false} FactorTells<V>(toks: seq<Token<V>>, i: nat)
    requires i <= |toks| && OperandDue(toks, i) && FactorAt(toks, i).Err?
    ensures Tells(toks, FactorAt(toks, i).error) && !FactorAt(toks, i).error.Trailing?
    decreases |toks| - i, 0
  {
    if i < |toks| {
      if toks[i].LParen? && ExprAt(toks, i + 1).Err? {
        ExprTells(toks, i + 1);
      } else if toks[i].Minus? {
        FactorTells(toks, i + 1);
      }
    }
  }

  /**
   Every error is told apart by the tokens: an end where an operand was due, a parenthesis that was
   opened, a token that starts no operand, or one left over behind a whole expression.
   */
  lemma ErrorTells<V>(toks: seq<Token<V>>)
    requires Parse(toks).Err?
    ensures Tells(toks, Parse(toks).error)
    ensures Parse(toks).error.Trailing? ==>
      exists j, e :: 0 <= j < |toks| && toks[j] == Parse(toks).error.token && IsExpr(toks, 0, j, e)
  {
    if ExprAt(toks, 0).Err? {
      ExprTells(toks, 0);
    } else {
      var (e, j) := ExprAt(toks, 0).value;
      ExprSound(toks, 0);
      assert toks[j] == Parse(toks).error.token && IsExpr(toks, 0, j, e);
    }
  }

  // ---------------------------------------------------------------- printing

  function Precedence<V>(e: Expr<V>): nat {
    match e
    case Bin(Add, _, _) => 0
    case Bin(Sub, _, _) => 0
    case Bin(_, _, _) => 1
    case _ => 2
  }

  function OpToken<V>(op: Op): Token<V> {
    match op
    case Add => Plus
    case Sub => Minus
    case Mul => Star
    case Div => Slash
  }

  /** The tokens of `e` in a position of the given level, parenthesised only where the level demands it. */
  function Print<V>(e: Expr<V>, level: nat): seq<Token<V>>
    requires level <= 2
    decreases e, level
  {
    if Precedence(e) < level then [LParen] + Print(e, 0) + [RParen] else
    match e
    case Lit(v) => [Num(v)]
    case Neg(x) => [Minus] + Print(x, 2)
    case Bin(op, l, r) => Print(l, Precedence(e)) + [OpToken(op)] + Print(r, Precedence(e) + 1)
  }

  ghost predicate IsAtLevel<V>(toks: seq<Token<V>>, i: nat, j: nat, e: Expr<V>, level: nat)
    requires i <= j <= |toks| && level <= 2
  {
    if level == 0 then IsExpr(toks, i, j, e) else if level == 1 then IsTerm(toks, i, j, e) else IsFactor(toks, i, j, e)
  }

  /** The tokens `part` occupy the positions of `toks` from `i` on. */
  ghost predicate Occurs<V>(toks: seq<Token<V>>, i: nat, part: seq<Token<V>>) {
    i + |part| <= |toks| && toks[i..i + |part|] == part
  }

  lemma OccursSplit<V>(toks: seq<Token<V>>, i: nat, a: seq<Token<V>>, t: Token<V>, b: seq<Token<V>>)
    requires Occurs(toks, i, a + [t] + b)
    ensures Occurs(toks, i, a) && toks[i + |a|] == t && Occurs(toks, i + |a| + 1, b)
  {
    var part := a + [t] + b;
    assert part[..|a|] == a && part[|a|] == t && part[|a| + 1..] == b;
    assert toks[i..i + |part|][..|a|] == toks[i..i + |a|];
    assert toks[i..i + |part|][|a|] == toks[i + |a|];
    assert toks[i..i + |part|][|a| + 1..] == toks[i + |a| + 1..i + |a| + 1 + |b|];
  }

  lemma {:induction false} PrintDerives<V>(toks: seq<Token<V>>, i: nat, e: Expr<V>, level: nat)
    requires level <= 2 && Occurs(toks, i, Print(e, level))
    ensures IsAtLevel(toks, i, i + |Print(e, level)|, e, level)
    decreases e, 1, level
  {
    if Precedence(e) < level {
      var inner := Print(e, 0);
      assert Print(e, level) == [] + [LParen] + (inner + [RParen]);
      OccursSplit(toks, i, [], LParen, inner + [RParen]);
      assert inner + [RParen] + [] == inner + [RParen];
      OccursSplit(toks, i + 1, inner, RParen, []);
      PrintDerives(toks, i + 1, e, 0);
    } else if e.Bin? {
      PrintBinDerives(toks, i, e);
    } else {
      assert toks[i] == toks[i..i + |Print(e, level)|][0];
      if e.Neg? {
        assert [Minus] + Print(e.operand, 2) == [] + [Minus] + Print(e.operand, 2);
        OccursSplit(toks, i, [], Minus, Print(e.operand, 2));
        PrintDerives(toks, i + 1, e.operand, 2);
      }
    }
  }

  lemma {:induction false} PrintBinDerives<V>(toks: seq<Token<V>>, i: nat, e: Expr<V>)
    requires e.Bin? && Occurs(toks, i, Print(e, Precedence(e)))
    ensures IsAtLevel(toks, i, i + |Print(e, Precedence(e))|, e, Precedence(e))
    decreases e, 0
  {
    var p := Precedence(e);
    var left, right := Print(e.left, p), Print(e.right, p + 1);
    OccursSplit(toks, i, left, OpToken(e.op), right);
    PrintDerives(toks, i, e.left, p);
    PrintDerives(toks, i + |left| + 1, e.right, p + 1);
    PrintNonEmpty(e.left, p);
    PrintNonEmpty(e.right, p + 1);
    assert i < i + |left| < i + |Print(e, p)|;
  }

  lemma PrintNonEmpty<V>(e: Expr<V>, level: nat)
    requires level <= 2
    ensures Print(e, level) != []
  {
  }

  /** Every tree, printed with precedence-minimal parentheses, parses back to itself. */
  lemma PrintParses<V>(e: Expr<V>)
    ensures Parse(Print(e, 0)) == Ok(e)
  {
    assert Print(e, 0)[0..|Print(e, 0)|] == Print(e, 0);
    PrintDerives(Print(e, 0), 0, e, 0);
    ParsesExactlyTheGrammar(Print(e, 0), e);
  }

  lemma PrintGrowsWithLevel<V>(e: Expr<V>, level: nat)
    requires level < 2
    ensures |Print(e, level)| <= |Print(e, level + 1)|
  {
  }

  lemma {:induction false} PrintIsShortestAt<V>(toks: seq<Token<V>>, i: nat, j: nat, e: Expr<V>, level: nat)
    requires i <= j <= |toks| && level <= 2 && IsAtLevel(toks, i, j, e, level)
    ensures |Print(e, level)| <= j - i
    decreases j - i, 2 - level
  {
    if level == 2 {
      match toks[i]
      case Num(_) =>
      case Minus => PrintIsShortestAt(toks, i + 1, j, e.operand, 2);
      case LParen => PrintIsShortestAt(toks, i + 1, j - 1, e, 0);
        PrintGrowsWithLevel(e, 0);
        PrintGrowsWithLevel(e, 1);
    } else if IsAtLevel(toks, i, j, e, level + 1) {
      PrintIsShortestAt(toks, i, j, e, level + 1);
      PrintGrowsWithLevel(e, level);
    } else {
      var k :| i < k < j && (if level == 0 then SumOp(toks[k]) else ProductOp(toks[k])) == Some(e.op)
               && IsAtLevel(toks, i, k, e.left, level) && IsAtLevel(toks, k + 1, j, e.right, level + 1);
      PrintIsShortestAt(toks, i, k, e.left, level);
      PrintIsShortestAt(toks, k + 1, j, e.right, level + 1);
    }
  }

  /** The printed form is the shortest of all token strings that parse to the tree: no parenthesis is spare. */
  lemma PrintIsShortest<V>(toks: seq<Token<V>>, e: Expr<V>)
    requires Parse(toks) == Ok(e)
    ensures |Print(e, 0)| <= |toks|
  {
    ParsesExactlyTheGrammar(toks, e);
    PrintIsShortestAt(toks, 0, |toks|, e, 0);
  }

  // ---------------------------------------------------------------- the imperative parser

  /** The evaluating parser's answer for what the tree-building one reads. */
  ghost predicate Agrees<V>(ops: Arithmetic<V>, r: Result<V, ParseError<V>>, next: nat, parsed: Parsed<V>) {
    match parsed
    case Err(x) => r == Err(x)
    case Ok((e, j)) => r == Ok(Value(ops, e)) && next == j
  }

  method ParseExpr<V>(ops: Arithmetic<V>, toks: seq<Token<V>>, start: nat)
    returns (r: Result<V, ParseError<V>>, pos: nat)
    requires start <= |toks|
    ensures Agrees(ops, r, pos, ExprAt(toks, start))
    ensures r.Ok? ==> start < pos <= |toks|
    decreases |toks| - start, 2
  {
    r, pos := ParseTerm(ops, toks, start);
    if r.Err? {
      return;
    }
    ghost var tree := TermAt(toks, start).value.0;
    var left := r.value;
    while pos < |toks|
      invariant start < pos <= |toks|
      invariant left == Value(ops, tree) && ExprAt(toks, start) == ExprLoop(toks, tree, pos)
      decreases |toks| - pos
    {
      var op := SumOp(toks[pos]);
      if op.None? {
        break;
      }
      ghost var at := pos + 1;
      r, pos := ParseTerm(ops, toks, pos + 1);
      if r.Err? {
        return;
      }
      tree := Bin(op.value, tree, TermAt(toks, at).value.0);
      left := Apply(ops, op.value, left, r.value);
    }
    r := Ok(left);
  }

  method ParseTerm<V>(ops: Arithmetic<V>, toks: seq<Token<V>>, start: nat)
    returns (r: Result<V, ParseError<V>>, pos: nat)
    requires start <= |toks|
    ensures Agrees(ops, r, pos, TermAt(toks, start))
    ensures r.Ok? ==> start < pos <= |toks|
    decreases |toks| - start, 1
  {
    r, pos := ParseFactor(ops, toks, start);
    if r.Err? {
      return;
    }
    ghost var tree := FactorAt(toks, start).value.0;
    var left := r.value;
    while pos < |toks|
      invariant start < pos <= |toks|
      invariant left == Value(ops, tree) && TermAt(toks, start) == TermLoop(toks, tree, pos)
      decreases |toks| - pos
    {
      var op := ProductOp(toks[pos]);
      if op.None? {
        break;
      }
      ghost var at := pos + 1;
      r, pos := ParseFactor(ops, toks, pos + 1);
      if r.Err? {
        return;
      }
      tree := Bin(op.value, tree, FactorAt(toks, at).value.0);
      left := Apply(ops, op.value, left, r.value);
    }
    r := Ok(left);
  }

  method ParseFactor<V>(ops: Arithmetic<V>, toks: seq<Token<V>>, start: nat)
    returns (r: Result<V, ParseError<V>>, pos: nat)
    requires start <= |toks|
    ensures Agrees(ops, r, pos, FactorAt(toks, start))
    ensures r.Ok? ==> start < pos <= |toks|
    decreases |toks| - start, 0
  {
    pos := start;
    if pos == |toks| {
      return Err(UnexpectedEnd), pos;
    }
    match toks[pos]
    case Num(v) =>
      r, pos := Ok(v), pos + 1;
    case LParen =>
      r, pos := ParseExpr(ops, toks, pos + 1);
      if r.Ok? {
        if pos < |toks| && toks[pos].RParen? {
          pos := pos + 1;
        } else {
          r := Err(ExpectedClose);
        }
      }
    case Minus =>
      r, pos := ParseFactor(ops, toks, pos + 1);
      if r.Ok? {
        r := Ok(ops.neg(r.value));
      }
    case other =>
      r := Err(Unexpected(other));
  }

  /** `simple_eval` after tokenizing: a value exactly for the grammar's sentences, and the value of their tree. */
  method Evaluate<V>(ops: Arithmetic<V>, toks: seq<Token<V>>) returns (r: Result<V, ParseError<V>>)
    ensures forall e :: Sentence(toks, e) ==> r == Ok(Value(ops, e))
    ensures (forall e :: !Sentence(toks, e)) ==> r.Err?
    ensures r.Err? ==> Parse(toks) == Err(r.error) && Tells(toks, r.error)
  {
    var pos: nat;
    r, pos := ParseExpr(ops, toks, 0);
    if r.Ok? && pos < |toks| {
      r := Err(Trailing(toks[pos]));
    }
    forall e ensures Parse(toks) == Ok(e) <==> Sentence(toks, e) {
      ParsesExactlyTheGrammar(toks, e);
    }
    assert Parse(toks).Ok? ==> Sentence(toks, Parse(toks).value);
    if r.Err? {
      ErrorTells(toks);
    }
  }
}

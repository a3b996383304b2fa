/**
  Chains of binary operators folded into trees (rex-parser/src/ast_builder.rs:1241-1323), against the
  trees that the precedence table prescribes (rex-parser/src/lexer.rs:652-664).
 */
module OperatorFold {
  import opened Wrappers
  import opened Pegs

  datatype Operator = Or | And | Eq | Ne | Lt | Le | Gt | Ge | Add | Sub | Mul | Div | Mod | Cons

  datatype OperatorToken = OperatorToken(op: Operator, span: Span)

  /** Expressions; whatever is neither named below nor a dictionary is a form with its parts. */
  datatype Expr =
    | Var(span: Span, name: string)
    | App(span: Span, callee: Expr, argument: Expr)
    | Project(span: Span, base: Expr, field: string)
    | Ann(span: Span, inner: Expr, typ: string)
    | Form(span: Span, kind: FormKind, parts: seq<Expr>)

  /** The parts of an update are the updated expression and a value for each key. */
  datatype FormKind = DictForm(keys: seq<string>) | UpdateForm(keys: seq<string>) | OtherForm(description: string)

  datatype Part = Part(operator: OperatorToken, rhs: Expr)

  /** How a chain is grouped. */
  datatype Tree = Operand(e: Expr) | Binary(left: Tree, operator: OperatorToken, right: Tree)

  function Precedence(op: Operator): nat {
    match op
    case Or => 1
    case And => 2
    case Eq => 3
    case Ne => 3
    case Lt => 3
    case Le => 3
    case Gt => 3
    case Ge => 3
    case Add => 4
    case Sub => 4
    case Mul => 5
    case Div => 5
    case Mod => 5
    case Cons => 0
  }

  predicate LeftAssociative(op: Operator) {
    op.Add? || op.And? || op.Div? || op.Mul? || op.Mod? || op.Or? || op.Sub?
  }

  function Name(op: Operator): string {
    match op
    case Or => "||"
    case And => "&&"
    case Eq => "=="
    case Ne => "!="
    case Lt => "<"
    case Le => "<="
    case Gt => ">"
    case Ge => ">="
    case Add => "+"
    case Sub => "-"
    case Mul => "*"
    case Div => "/"
    case Mod => "%"
    case Cons => "List.Cons"
  }

  // ---- the fold ---------------------------------------------------------------------------------------------

  function MakeBinary(lhs: Expr, operator: OperatorToken, rhs: Expr): Expr {
    var outer := Span(lhs.span.begin, rhs.span.end);
    var inner := Span(lhs.span.begin, operator.span.end);
    App(outer, App(inner, Var(operator.span, Name(operator.op)), lhs), rhs)
  }

  function Build(tree: Tree): Expr {
    match tree
    case Operand(e) => e
    case Binary(left, operator, right) => MakeBinary(Build(left), operator, Build(right))
  }

  /** Whether the next operator is to be folded into the right operand first. */
  predicate NextTakesPrecedence(parts: seq<Part>, index: nat)
    requires index < |parts|
  {
    index + 1 < |parts|
    && var operator, next := parts[index].operator.op, parts[index + 1].operator.op;
    if Precedence(operator) > Precedence(next) then false
    else if Precedence(operator) == Precedence(next) then !LeftAssociative(operator)
    else true
  }

  /** The grouping the fold arrives at. Folding the right operand first consumes every remaining part. */
  function Grouping(lhs: Tree, parts: seq<Part>, index: nat): Tree
    requires index <= |parts|
    decreases |parts| - index
  {
    if index == |parts| then lhs
    else
      var rhs := Operand(parts[index].rhs);
      if NextTakesPrecedence(parts, index) then Binary(lhs, parts[index].operator, Grouping(rhs, parts, index + 1))
      else Grouping(Binary(lhs, parts[index].operator, rhs), parts, index + 1)
  }

  /** Only what is built from the left operand matters. */
  lemma {:induction false} GroupingBuilds(lhs: Tree, lhs': Tree, parts: seq<Part>, index: nat)
    requires index <= |parts| && Build(lhs) == Build(lhs')
    ensures Build(Grouping(lhs, parts, index)) == Build(Grouping(lhs', parts, index))
    decreases |parts| - index
  {
    if index < |parts| && !NextTakesPrecedence(parts, index) {
      var rhs := Operand(parts[index].rhs);
      GroupingBuilds(Binary(lhs, parts[index].operator, rhs), Binary(lhs', parts[index].operator, rhs), parts, index + 1);
    }
  }

  method FoldBinaryFrom(lhs: Expr, parts: seq<Part>, index: nat) returns (e: Expr, next: nat)
    requires index <= |parts|
    ensures e == Build(Grouping(Operand(lhs), parts, index)) && next == |parts|
    decreases |parts| - index
  {
    if index >= |parts| {
      return lhs, index;
    }
    var operator, rhs := parts[index].operator, parts[index].rhs;
    next := index + 1;
    var precedence := Precedence(operator.op);
    var nextTakesPrecedence := false;
    if next < |parts| {
      var nextPrecedence := Precedence(parts[next].operator.op);
      nextTakesPrecedence :=
        if precedence > nextPrecedence then false
        else if precedence == nextPrecedence then !LeftAssociative(operator.op)
        else true;
    }
    ghost var right := Operand(rhs);
    if nextTakesPrecedence {
      right := Grouping(right, parts, next);
      rhs, next := FoldBinaryFrom(rhs, parts, next);
    }
    var combined := MakeBinary(lhs, operator, rhs);
    GroupingBuilds(Operand(combined), Binary(Operand(lhs), operator, right), parts, next);
    e, next := FoldBinaryFrom(combined, parts, next);
  }

  function Zip(operators: seq<OperatorToken>, operands: seq<Expr>): (parts: seq<Part>)
    ensures |parts| == if |operators| < |operands| then |operators| else |operands|
    ensures forall i :: 0 <= i < |parts| ==> parts[i] == Part(operators[i], operands[i])
  {
    if operators == [] || operands == [] then []
    else [Part(operators[0], operands[0])] + Zip(operators[1..], operands[1..])
  }

  const MAX_AST_DEPTH := 256

  datatype ExprError = ExpectedExpression | TooDeep

  /** The operands and operators of one expression node; what the operands are was settled before. */
  method FoldBinaryExpr(operands: seq<Expr>, operators: seq<OperatorToken>) returns (r: Result<Expr, ExprError>)
    ensures r == if operands == [] then Err(ExpectedExpression)
                 else if |operators| >= MAX_AST_DEPTH then Err(TooDeep)
                 else Ok(Build(Grouping(Operand(operands[0]), Zip(operators, operands[1..]), 0)))
  {
    if |operands| == 0 {
      return Err(ExpectedExpression);
    }
    if |operators| >= MAX_AST_DEPTH {
      return Err(TooDeep);
    }
    var parts := Zip(operators, operands[1..]);
    var e, _ := FoldBinaryFrom(operands[0], parts, 0);
    return Ok(e);
  }

  // ---- nothing is lost or reordered --------------------------------------------------------------------------

  function First(tree: Tree): Expr {
    if tree.Operand? then tree.e else First(tree.left)
  }

  /** The tree read from left to right, after its first operand. */
  function Rest(tree: Tree): seq<Part> {
    if tree.Operand? then [] else Rest(tree.left) + [Part(tree.operator, First(tree.right))] + Rest(tree.right)
  }

  lemma {:induction false} FoldKeepsTheChain(lhs: Tree, parts: seq<Part>, index: nat)
    requires index <= |parts|
    ensures var tree := Grouping(lhs, parts, index);
            First(tree) == First(lhs) && Rest(tree) == Rest(lhs) + parts[index..]
    decreases |parts| - index
  {
    if index < |parts| {
      var rhs := Operand(parts[index].rhs);
      assert parts[index..] == [parts[index]] + parts[index + 1..];
      if NextTakesPrecedence(parts, index) {
        FoldKeepsTheChain(rhs, parts, index + 1);
      } else {
        FoldKeepsTheChain(Binary(lhs, parts[index].operator, rhs), parts, index + 1);
      }
    }
  }

  // ---- what the precedence table prescribes ---------------------------------------------------------------

  /** May stand as the left, or the right, operand of `op` without parentheses. */
  predicate LeftOf(inner: Operator, op: Operator) {
    Precedence(inner) > Precedence(op) || (Precedence(inner) == Precedence(op) && LeftAssociative(op))
  }

  predicate RightOf(inner: Operator, op: Operator) {
    Precedence(inner) > Precedence(op) || (Precedence(inner) == Precedence(op) && !LeftAssociative(op))
  }

  /** Every node obeys precedence and associativity. */
  predicate Obeys(tree: Tree) {
    tree.Binary? ==>
      && Obeys(tree.left) && (tree.left.Binary? ==> LeftOf(tree.left.operator.op, tree.operator.op))
      && Obeys(tree.right) && (tree.right.Binary? ==> RightOf(tree.right.operator.op, tree.operator.op))
  }

  /** Operators of one precedence associate alike. */
  lemma {:induction false} OneAssociativity(a: Operator, b: Operator)
    requires Precedence(a) == Precedence(b)
    ensures LeftAssociative(a) == LeftAssociative(b)
  {
  }

  /** In a tree that obeys, what may be said of the root may be said of every operator. */
  lemma {:induction false} RootIsLoosest(tree: Tree, i: nat)
    requires Obeys(tree) && i < |Rest(tree)|
    ensures tree.Binary? && Precedence(Rest(tree)[i].operator.op) >= Precedence(tree.operator.op)
  {
    var n := |Rest(tree.left)|;
    if i < n { RootIsLoosest(tree.left, i); }
    if i > n { RootIsLoosest(tree.right, i - n - 1); }
  }

  /** Where the chain is to be split first: what is before may stand left of it, what is behind right of it. */
  predicate SplitsAt(parts: seq<Part>, k: nat) {
    k < |parts|
    && (forall j :: 0 <= j < k ==> LeftOf(parts[j].operator.op, parts[k].operator.op))
    && (forall j :: k < j < |parts| ==> RightOf(parts[j].operator.op, parts[k].operator.op))
  }

  function Split(parts: seq<Part>): (k: nat)
    requires parts != []
    ensures SplitsAt(parts, k)
  {
    if |parts| == 1 then 0
    else
      var front, last := parts[..|parts| - 1], |parts| - 1;
      var k := Split(front);
      assert forall j :: 0 <= j < last ==> front[j] == parts[j];
      if RightOf(parts[last].operator.op, parts[k].operator.op) then k else last
  }

  lemma {:induction false} OneSplit(parts: seq<Part>, j: nat, k: nat)
    requires SplitsAt(parts, j) && SplitsAt(parts, k)
    ensures j == k
  {
    NotBoth(parts[j].operator.op, parts[k].operator.op);
    NotBoth(parts[k].operator.op, parts[j].operator.op);
  }

  lemma {:induction false} NotBoth(a: Operator, b: Operator)
    ensures !(LeftOf(a, b) && RightOf(b, a))
  {
    if Precedence(a) == Precedence(b) { OneAssociativity(a, b); }
  }

  /** The chain grouped as the table says. */
  function Prescribed(first: Expr, parts: seq<Part>): Tree
    decreases |parts|
  {
    if parts == [] then Operand(first)
    else
      var k := Split(parts);
      Binary(Prescribed(first, parts[..k]), parts[k].operator, Prescribed(parts[k].rhs, parts[k + 1..]))
  }

  lemma {:induction false} PrescribedReads(first: Expr, parts: seq<Part>)
    ensures First(Prescribed(first, parts)) == first && Rest(Prescribed(first, parts)) == parts
    decreases |parts|
  {
    if parts != [] {
      var k := Split(parts);
      PrescribedReads(first, parts[..k]);
      PrescribedReads(parts[k].rhs, parts[k + 1..]);
      assert parts == parts[..k] + [parts[k]] + parts[k + 1..];
    }
  }

  lemma {:induction false} PrescribedObeys(first: Expr, parts: seq<Part>)
    ensures Obeys(Prescribed(first, parts))
    decreases |parts|
  {
    if parts != [] {
      var k := Split(parts);
      PrescribedObeys(first, parts[..k]);
      PrescribedObeys(parts[k].rhs, parts[k + 1..]);
    }
  }

  /** The root of a tree that obeys stands where the chain is to be split. */
  lemma {:induction false} RootSplits(tree: Tree)
    requires tree.Binary? && Obeys(tree)
    ensures SplitsAt(Rest(tree), |Rest(tree.left)|)
  {
    var parts, k := Rest(tree), |Rest(tree.left)|;
    forall j | 0 <= j < k ensures LeftOf(parts[j].operator.op, parts[k].operator.op) {
      assert parts[j] == Rest(tree.left)[j];
      RootIsLoosest(tree.left, j);
    }
    forall j | k < j < |parts| ensures RightOf(parts[j].operator.op, parts[k].operator.op) {
      assert parts[j] == Rest(tree.right)[j - k - 1];
      RootIsLoosest(tree.right, j - k - 1);
    }
  }

  /** A tree obeys precedence and associativity exactly if it is the one prescribed for its chain. */
  lemma {:induction false} ObeysIffPrescribed(tree: Tree)
    ensures Obeys(tree) <==> tree == Prescribed(First(tree), Rest(tree))
  {
    PrescribedObeys(First(tree), Rest(tree));
    if tree.Binary? && Obeys(tree) {
      var parts, k := Rest(tree), |Rest(tree.left)|;
      RootSplits(tree);
      OneSplit(parts, k, Split(parts));
      assert parts[..k] == Rest(tree.left) && parts[k + 1..] == Rest(tree.right);
      ObeysIffPrescribed(tree.left);
      ObeysIffPrescribed(tree.right);
    }
  }

  /** Of all trees over a chain exactly one obeys. */
  lemma {:induction false} OneTreePerChain(first: Expr, parts: seq<Part>, tree: Tree)
    ensures Obeys(tree) && First(tree) == first && Rest(tree) == parts <==> tree == Prescribed(first, parts)
  {
    ObeysIffPrescribed(tree);
    PrescribedReads(first, parts);
    PrescribedObeys(first, parts);
  }

  /** The groups of the table, from the loosest to the tightest. */
  predicate Listy(op: Operator) { op == Cons }
  predicate Comparing(op: Operator) { op in {Eq, Ne, Lt, Le, Gt, Ge} }
  predicate Additive(op: Operator) { op in {Add, Sub} }
  predicate Multiplicative(op: Operator) { op in {Mul, Div, Mod} }

  lemma {:induction false} OperandObeys(e: Expr)
    ensures Obeys(Operand(e)) && First(Operand(e)) == e && Rest(Operand(e)) == []
  {
  }

  lemma {:induction false} ObeysRight(a: Expr, operator: OperatorToken, right: Tree)
    requires Obeys(right) && (right.Binary? ==> RightOf(right.operator.op, operator.op))
    ensures Obeys(Binary(Operand(a), operator, right))
  {
    OperandObeys(a);
  }

  lemma {:induction false} ObeysLeft(left: Tree, operator: OperatorToken, c: Expr)
    requires Obeys(left) && (left.Binary? ==> LeftOf(left.operator.op, operator.op))
    ensures var tree := Binary(left, operator, Operand(c));
            Obeys(tree) && First(tree) == First(left) && Rest(tree) == Rest(left) + [Part(operator, c)]
  {
    OperandObeys(c);
  }

  /** A chain with one operator of each group, loosest first, is prescribed to nest to the right. */
  lemma {:induction false} TighterInside(a: Expr, b: Expr, c: Expr, d: Expr, e: Expr, f: Expr, g: Expr,
                                         cons: OperatorToken, or: OperatorToken, and: OperatorToken, comparing: OperatorToken,
                                         additive: OperatorToken, multiplicative: OperatorToken)
    requires Listy(cons.op) && or.op == Operator.Or && and.op == Operator.And
    requires Comparing(comparing.op) && Additive(additive.op) && Multiplicative(multiplicative.op)
    ensures Prescribed(a, [Part(cons, b), Part(or, c), Part(and, d), Part(comparing, e), Part(additive, f), Part(multiplicative, g)])
         == Binary(Operand(a), cons, Binary(Operand(b), or, Binary(Operand(c), and, Binary(Operand(d), comparing,
              Binary(Operand(e), additive, Binary(Operand(f), multiplicative, Operand(g)))))))
  {
    var t6 := Binary(Operand(f), multiplicative, Operand(g));
    var t5 := Binary(Operand(e), additive, t6);
    var t4 := Binary(Operand(d), comparing, t5);
    var t3 := Binary(Operand(c), and, t4);
    var t2 := Binary(Operand(b), or, t3);
    var t1 := Binary(Operand(a), cons, t2);
    ChainOf(f, multiplicative, Operand(g));
    ChainOf(e, additive, t6);
    ChainOf(d, comparing, t5);
    ChainOf(c, and, t4);
    ChainOf(b, or, t3);
    ChainOf(a, cons, t2);
    assert Rest(t1) == [Part(cons, b), Part(or, c), Part(and, d), Part(comparing, e), Part(additive, f), Part(multiplicative, g)];
    hide Obeys, Rest, First, Prescribed;
    assert Obeys(Operand(g)) by { OperandObeys(g); }
    ObeysRight(f, multiplicative, Operand(g));
    ObeysRight(e, additive, t6);
    ObeysRight(d, comparing, t5);
    ObeysRight(c, and, t4);
    ObeysRight(b, or, t3);
    ObeysRight(a, cons, t2);
    ObeysIffPrescribed(t1);
  }

  lemma {:induction false} ChainOf(a: Expr, operator: OperatorToken, right: Tree)
    ensures var tree := Binary(Operand(a), operator, right);
            First(tree) == a && Rest(tree) == [Part(operator, First(right))] + Rest(right)
  {
  }

  /** Of two operators of one group the first goes inside, except that comparisons and `::` nest to the right. */
  lemma {:induction false} SameGroup(a: Expr, b: Expr, c: Expr, x: OperatorToken, y: OperatorToken)
    requires || (Additive(x.op) && Additive(y.op)) || (Multiplicative(x.op) && Multiplicative(y.op)) || (Comparing(x.op) && Comparing(y.op))
             || x.op == y.op
    ensures Prescribed(a, [Part(x, b), Part(y, c)])
         == if Comparing(x.op) || Listy(x.op) then Binary(Operand(a), x, Binary(Operand(b), y, Operand(c)))
            else Binary(Binary(Operand(a), x, Operand(b)), y, Operand(c))
  {
    hide Prescribed, Rest, First, Obeys;
    OperandObeys(a);
    OperandObeys(b);
    OperandObeys(c);
    if Comparing(x.op) || Listy(x.op) {
      var inner := Binary(Operand(b), y, Operand(c));
      ChainOf(b, y, Operand(c));
      ChainOf(a, x, inner);
      ObeysRight(b, y, Operand(c));
      ObeysRight(a, x, inner);
      assert [Part(x, b)] + ([Part(y, c)] + []) == [Part(x, b), Part(y, c)];
      ObeysIffPrescribed(Binary(Operand(a), x, inner));
    } else {
      var inner := Binary(Operand(a), x, Operand(b));
      ChainOf(a, x, Operand(b));
      ObeysRight(a, x, Operand(b));
      ObeysLeft(inner, y, c);
      assert ([Part(x, b)] + []) + [Part(y, c)] == [Part(x, b), Part(y, c)];
      ObeysIffPrescribed(Binary(inner, y, Operand(c)));
    }
  }

  // ---- when the fold does what is prescribed ---------------------------------------------------------------

  /** Wherever the right operand is folded first, every later operator may stand to the right. */
  predicate Foldable(parts: seq<Part>, index: nat) {
    forall k :: index <= k < |parts| && NextTakesPrecedence(parts, k) ==> AllRightOf(parts, k)
  }

  predicate AllRightOf(parts: seq<Part>, k: nat)
    requires k < |parts|
  {
    forall j :: k < j < |parts| ==> RightOf(parts[j].operator.op, parts[k].operator.op)
  }

  lemma {:induction false} FoldObeys(lhs: Tree, parts: seq<Part>, index: nat)
    requires index <= |parts| && Obeys(lhs)
    requires lhs.Binary? && index < |parts| ==> LeftOf(lhs.operator.op, parts[index].operator.op)
    ensures Obeys(Grouping(lhs, parts, index)) <==> Foldable(parts, index)
    decreases |parts| - index
  {
    if index < |parts| {
      var operator, rhs := parts[index].operator, Operand(parts[index].rhs);
      hide Grouping, NextTakesPrecedence, Foldable, AllRightOf, LeftOf;
      GroupingStep(lhs, parts, index);
      FoldableStep(parts, index);
      if NextTakesPrecedence(parts, index) {
        FoldObeys(rhs, parts, index + 1);
        RightFirstObeys(lhs, parts, index);
      } else {
        if index + 1 < |parts| { NextIsRightOf(parts, index); }
        FoldObeys(Binary(lhs, operator, rhs), parts, index + 1);
      }
    }
  }

  lemma {:induction false} GroupingStep(lhs: Tree, parts: seq<Part>, index: nat)
    requires index < |parts|
    ensures var rhs := Operand(parts[index].rhs);
            Grouping(lhs, parts, index)
            == if NextTakesPrecedence(parts, index) then Binary(lhs, parts[index].operator, Grouping(rhs, parts, index + 1))
               else Grouping(Binary(lhs, parts[index].operator, rhs), parts, index + 1)
  {
  }

  lemma {:induction false} FoldableStep(parts: seq<Part>, index: nat)
    requires index < |parts|
    ensures Foldable(parts, index) <==>
            Foldable(parts, index + 1) && (NextTakesPrecedence(parts, index) ==> AllRightOf(parts, index))
  {
    hide NextTakesPrecedence, AllRightOf;
  }

  lemma {:induction false} NextIsRightOf(parts: seq<Part>, index: nat)
    requires index + 1 < |parts| && !NextTakesPrecedence(parts, index)
    ensures LeftOf(parts[index].operator.op, parts[index + 1].operator.op)
  {
    var a, b := parts[index].operator.op, parts[index + 1].operator.op;
    if Precedence(a) == Precedence(b) { OneAssociativity(a, b); }
  }

  lemma {:induction false} LooserIsRightOf(a: Operator, b: Operator, op: Operator)
    requires RightOf(a, op) && Precedence(b) >= Precedence(a)
    ensures RightOf(b, op)
  {
  }

  /** What may be said of the root of the right operand may be said of all its operators. */
  lemma {:induction false} ChainRightOf(right: Tree, op: Operator)
    requires right.Binary? && Obeys(right)
    ensures RightOf(right.operator.op, op) <==> forall j :: 0 <= j < |Rest(right)| ==> RightOf(Rest(right)[j].operator.op, op)
  {
    var k := |Rest(right.left)|;
    assert Rest(right)[k].operator == right.operator;
    hide RightOf, Obeys, Rest;
    if RightOf(right.operator.op, op) {
      forall j | 0 <= j < |Rest(right)| ensures RightOf(Rest(right)[j].operator.op, op) {
        RootIsLoosest(right, j);
        LooserIsRightOf(right.operator.op, Rest(right)[j].operator.op, op);
      }
    }
  }

  lemma {:induction false} AllRightOfRest(parts: seq<Part>, k: nat)
    requires k < |parts|
    ensures var rest, op := parts[k + 1..], parts[k].operator.op;
            AllRightOf(parts, k) <==> forall j :: 0 <= j < |rest| ==> RightOf(rest[j].operator.op, op)
  {
    hide RightOf;
    var rest := parts[k + 1..];
    assert forall j :: 0 <= j < |rest| ==> rest[j] == parts[k + 1 + j];
    forall j | k < j < |parts| ensures parts[j] == rest[j - k - 1] {}
  }

  /** The right operand folded first may stand there exactly if every operator in it may. */
  lemma {:induction false} RightFirstObeys(lhs: Tree, parts: seq<Part>, index: nat)
    requires index < |parts| && NextTakesPrecedence(parts, index) && Obeys(lhs)
    requires lhs.Binary? ==> LeftOf(lhs.operator.op, parts[index].operator.op)
    ensures var right := Grouping(Operand(parts[index].rhs), parts, index + 1);
            Obeys(Binary(lhs, parts[index].operator, right)) <==> Obeys(right) && AllRightOf(parts, index)
  {
    var rhs := Operand(parts[index].rhs);
    var right := Grouping(rhs, parts, index + 1);
    FoldKeepsTheChain(rhs, parts, index + 1);
    assert Rest(right) == parts[index + 1..] != [];
    assert right.Binary?;
    hide Grouping, NextTakesPrecedence, LeftOf, RightOf, Rest, AllRightOf;
    AllRightOfRest(parts, index);
    if Obeys(right) { ChainRightOf(right, parts[index].operator.op); }
  }

  /** The fold groups a chain as prescribed exactly if it is foldable. */
  lemma {:induction false} FoldIsPrescribed(first: Expr, parts: seq<Part>)
    ensures Grouping(Operand(first), parts, 0) == Prescribed(first, parts) <==> Foldable(parts, 0)
  {
    var tree := Grouping(Operand(first), parts, 0);
    FoldObeys(Operand(first), parts, 0);
    FoldKeepsTheChain(Operand(first), parts, 0);
    assert [] + parts[0..] == parts;
    ObeysIffPrescribed(tree);
  }

  /** `a - b * c - d` is grouped as `a - ((b * c) - d)` instead of `(a - (b * c)) - d`. */
  lemma {:induction false} MinusAfterTimes(a: Expr, b: Expr, c: Expr, d: Expr, minus: OperatorToken, times: OperatorToken)
    requires minus.op.Sub? && times.op.Mul?
    ensures var parts := [Part(minus, b), Part(times, c), Part(minus, d)];
            && Grouping(Operand(a), parts, 0)
               == Binary(Operand(a), minus, Binary(Binary(Operand(b), times, Operand(c)), minus, Operand(d)))
            && Prescribed(a, parts)
               == Binary(Binary(Operand(a), minus, Binary(Operand(b), times, Operand(c))), minus, Operand(d))
            && !Foldable(parts, 0)
  {
    var parts := [Part(minus, b), Part(times, c), Part(minus, d)];
    var good := Binary(Binary(Operand(a), minus, Binary(Operand(b), times, Operand(c))), minus, Operand(d));
    var inner := Binary(Operand(b), times, Operand(c));
    assert Grouping(Operand(d), parts, 3) == Operand(d);
    assert Grouping(Binary(inner, minus, Operand(d)), parts, 3) == Binary(inner, minus, Operand(d));
    assert Grouping(inner, parts, 2) == Binary(inner, minus, Operand(d));
    assert Grouping(Operand(b), parts, 1) == Binary(inner, minus, Operand(d));
    assert Rest(inner) == [] + [Part(times, c)] + [] == [Part(times, c)] && First(inner) == b;
    assert Rest(good.left) == [] + [Part(minus, b)] + Rest(inner) == [Part(minus, b), Part(times, c)];
    assert Rest(good) == Rest(good.left) + [Part(minus, d)] + [] == parts;
    assert First(good) == First(good.left) == First(good.left.left) == a;
    assert Obeys(Operand(b)) && Obeys(Operand(c)) && Obeys(inner);
    assert Obeys(good.left.left) && Obeys(good.left);
    assert Obeys(Operand(d)) && Obeys(good);
    ObeysIffPrescribed(good);
    assert NextTakesPrecedence(parts, 0) && !RightOf(parts[2].operator.op, parts[0].operator.op);
    assert !AllRightOf(parts, 0);
  }
}

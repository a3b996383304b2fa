/**
  Building expressions from syntax trees: the ordinary recursion, and the shortcut for applications
  whose last argument is in parentheses (rex-parser/src/ast_builder.rs:624-782, 1360-1385).
 */
module GroupedTail {
  import opened Wrappers
  import opened Pegs
  import opened OperatorFold

  /** The part of the syntax tree that the two ways of building treat differently. */
  datatype ExprNode = ExprNode(span: Span, first: Unary, rest: seq<Operation>)

  datatype Operation = Operation(operator: OperatorToken, operand: Unary)

  datatype Unary = Unary(application: Application, annotations: seq<Annotation>)

  datatype Annotation = Annotation(typ: string, span: Span)

  datatype Application = Application(terms: seq<Postfix>)

  datatype Postfix = Postfix(atom: Atom, fields: seq<FieldName>)

  datatype FieldName = FieldName(name: string, end: Position)

  datatype Atom =
    | Identifier(name: string, span: Span)
    | Grouped(span: Span, inner: ExprNode)
    | Compound(span: Span, kind: FormKind, items: seq<ExprNode>)

  type Built = Result<Expr, ExprError>

  // ---- selecting ---------------------------------------------------------------------------------------------

  /** The expression in parentheses, if the term is nothing else. */
  function GroupedExprTail(term: Postfix): (r: Option<ExprNode>) {
    if term.fields == [] && term.atom.Grouped? then Some(term.atom.inner) else None
  }

  function TermsOf(node: ExprNode): seq<Postfix>
    requires IsGroupedTail(node)
  {
    node.first.application.terms
  }

  /** One unannotated application, whose last term is an expression in parentheses. */
  predicate IsGroupedTail(node: ExprNode) {
    && node.rest == [] && node.first.annotations == []
    && var terms := node.first.application.terms;
       terms != [] && GroupedExprTail(terms[|terms| - 1]).Some?
  }

  function Prefix(node: ExprNode): seq<Postfix>
    requires IsGroupedTail(node)
  {
    TermsOf(node)[..|TermsOf(node)| - 1]
  }

  function Tail(node: ExprNode): (r: ExprNode)
    requires IsGroupedTail(node)
    ensures r < node
  {
    TermsOf(node)[|TermsOf(node)| - 1].atom.inner
  }

  /** How many times the tail can be taken, and what is left then. */
  function Peels(node: ExprNode): nat {
    if IsGroupedTail(node) then 1 + Peels(Tail(node)) else 0
  }

  // ---- building ----------------------------------------------------------------------------------------------

  function WithSpan(e: Expr, span: Span): Expr { e.(span := span) }

  /** Arguments applied one after another; every application begins where the first term does. */
  function Applied(begin: Position, base: Expr, args: seq<Expr>): Expr
    decreases |args|
  {
    if args == [] then base
    else Applied(begin, App(Span(begin, args[0].span.end), base, args[0]), args[1..])
  }

  predicate IsUppercase(name: string) { name != [] && 'A' <= name[0] <= 'Z' }

  predicate IsConstructorReference(e: Expr) {
    (e.Var? && IsUppercase(e.name)) || (e.Project? && IsUppercase(e.field))
  }

  predicate IsDict(e: Expr) { e.Form? && e.kind.DictForm? }

  /** The key that item `i` of `n` stands at. */
  function KeyAt(kind: FormKind, n: nat, i: nat): Option<string>
    requires i < n
  {
    match kind
    case DictForm(keys) => if |keys| == n then Some(keys[i]) else None
    case UpdateForm(keys) => if |keys| + 1 == n && i > 0 then Some(keys[i - 1]) else None
    case OtherForm(_) => None
  }

  /** Of the items at one key the last one counts. */
  predicate Kept(kind: FormKind, n: nat, i: nat)
    requires i < n
  {
    KeyAt(kind, n, i).Some? ==> forall j :: i < j < n ==> KeyAt(kind, n, j) != KeyAt(kind, n, i)
  }

  function KeptParts(kind: FormKind, parts: seq<Expr>, i: nat): seq<Expr>
    requires i <= |parts|
    decreases |parts| - i
  {
    if i == |parts| then []
    else (if Kept(kind, |parts|, i) then [parts[i]] else []) + KeptParts(kind, parts, i + 1)
  }

  function KeptKeys(kind: FormKind, n: nat, i: nat): seq<string>
    requires i <= n
    decreases n - i
  {
    if i == n then []
    else (if Kept(kind, n, i) && KeyAt(kind, n, i).Some? then [KeyAt(kind, n, i).value] else []) + KeptKeys(kind, n, i + 1)
  }

  function MakeForm(span: Span, kind: FormKind, parts: seq<Expr>): Expr {
    var keys := KeptKeys(kind, |parts|, 0);
    var kind' := match kind
                 case DictForm(_) => DictForm(keys)
                 case UpdateForm(_) => UpdateForm(keys)
                 case OtherForm(_) => kind;
    Form(span, kind', KeptParts(kind, parts, 0))
  }

  function Joined(a: Expr, b: Expr): Expr { App(Span(a.span.begin, b.span.end), a, b) }

  /** A constructor reference and the dictionary behind it become one term. */
  function GroupTerms(terms: seq<Expr>): seq<Expr>
    decreases |terms|
  {
    if terms == [] then []
    else if |terms| >= 2 && IsConstructorReference(terms[0]) && IsDict(terms[1]) then
      [Joined(terms[0], terms[1])] + GroupTerms(terms[2..])
    else [terms[0]] + GroupTerms(terms[1..])
  }

  /** `depth` is the depth of the expressions entered so far; `shortcut` says whether grouped tails are peeled. */
  function ExprOf(node: ExprNode, depth: nat, shortcut: bool): Built
    decreases node, 3
  {
    if depth >= MAX_AST_DEPTH then Err(TooDeep)
    else if shortcut && IsGroupedTail(node) then
      if depth + 1 + Peels(node) > MAX_AST_DEPTH then Err(TooDeep)
      else Rebuilt(node, depth + 1)
    else Folded(node, depth + 1, shortcut)
  }

  /** The operands folded. */
  function Folded(node: ExprNode, depth: nat, shortcut: bool): Built
    decreases node, 1
  {
    var first := UnaryOf(node.first, depth, shortcut);
    if first.Err? then first
    else
      var parts := PartsOf(node.rest, depth, shortcut);
      if parts.Err? then Err(parts.error)
      else if |node.rest| >= MAX_AST_DEPTH then Err(TooDeep)
      else Ok(Build(Grouping(Operand(first.value), parts.value, 0)))
  }

  /** The core built, and the peeled applications put back around it from the inside out. */
  function Rebuilt(node: ExprNode, depth: nat): Built
    decreases node, 2
  {
    if !IsGroupedTail(node) then if depth >= MAX_AST_DEPTH then Err(TooDeep) else Folded(node, depth + 1, true)
    else
      var inner := Rebuilt(Tail(node), depth);
      if inner.Err? then inner
      else
        var applied := ApplyGroup(Prefix(node), inner.value, depth);
        if applied.Err? then applied else Ok(WithSpan(applied.value, node.span))
  }

  /** The terms applied to one another and to the tail. */
  function ApplyGroup(terms: seq<Postfix>, tail: Expr, depth: nat): Built
    decreases terms, 2
  {
    var prefix := PostfixesOf(terms, depth, true);
    if prefix.Err? then Err(prefix.error)
    else if prefix.value == [] then Ok(tail)
    else Ok(Applied(prefix.value[0].span.begin, prefix.value[0], prefix.value[1..] + [tail]))
  }

  function PartsOf(operations: seq<Operation>, depth: nat, shortcut: bool): Result<seq<Part>, ExprError>
    decreases operations, 0
  {
    if operations == [] then Ok([])
    else
      var first := OperandOf(operations[0], depth, shortcut);
      if first.Err? then Err(first.error)
      else
        var rest := PartsOf(operations[1..], depth, shortcut);
        if rest.Err? then rest else Ok([first.value] + rest.value)
  }

  function OperandOf(operation: Operation, depth: nat, shortcut: bool): Result<Part, ExprError>
    decreases operation, 0
  {
    var operand := UnaryOf(operation.operand, depth, shortcut);
    if operand.Err? then Err(operand.error) else Ok(Part(operation.operator, operand.value))
  }

  function UnaryOf(unary: Unary, depth: nat, shortcut: bool): Built
    decreases unary, 0
  {
    var e := ApplicationOf(unary.application, depth, shortcut);
    if e.Err? then e else Ok(Annotated(e.value, unary.annotations))
  }

  function Annotated(e: Expr, annotations: seq<Annotation>): Expr
    decreases |annotations|
  {
    if annotations == [] then e
    else Annotated(Ann(Span(e.span.begin, annotations[0].span.end), e, annotations[0].typ), annotations[1..])
  }

  function ApplicationOf(application: Application, depth: nat, shortcut: bool): Built
    decreases application, 0
  {
    var terms := PostfixesOf(application.terms, depth, shortcut);
    if terms.Err? then Err(terms.error)
    else
      var grouped := GroupTerms(terms.value);
      if grouped == [] then Err(ExpectedExpression) else Ok(Applied(grouped[0].span.begin, grouped[0], grouped[1..]))
  }

  function PostfixesOf(terms: seq<Postfix>, depth: nat, shortcut: bool): (r: Result<seq<Expr>, ExprError>)
    ensures r.Ok? ==> |r.value| == |terms|
    decreases terms, 1
  {
    if terms == [] then Ok([])
    else
      var first := PostfixOf(terms[0], depth, shortcut);
      if first.Err? then Err(first.error)
      else
        var rest := PostfixesOf(terms[1..], depth, shortcut);
        if rest.Err? then rest else Ok([first.value] + rest.value)
  }

  function PostfixOf(term: Postfix, depth: nat, shortcut: bool): Built
    decreases term, 0
  {
    var base := AtomOf(term.atom, depth, shortcut);
    if base.Err? then base else Ok(Projected(base.value, term.fields))
  }

  function Projected(e: Expr, fields: seq<FieldName>): Expr
    decreases |fields|
  {
    if fields == [] then e else Projected(Project(Span(e.span.begin, fields[0].end), e, fields[0].name), fields[1..])
  }

  function AtomOf(atom: Atom, depth: nat, shortcut: bool): Built
    decreases atom, 0
  {
    match atom
    case Identifier(name, span) => Ok(Var(span, name))
    case Grouped(span, inner) =>
      var e := ExprOf(inner, depth, shortcut);
      if e.Err? then e else Ok(WithSpan(e.value, span))
    case Compound(span, kind, items) =>
      var parts := ExprsOf(items, depth, shortcut);
      if parts.Err? then Err(parts.error) else Ok(MakeForm(span, kind, parts.value))
  }

  function ExprsOf(items: seq<ExprNode>, depth: nat, shortcut: bool): (r: Result<seq<Expr>, ExprError>)
    ensures r.Ok? ==> |r.value| == |items|
    decreases items, 4
  {
    if items == [] then Ok([])
    else
      var first := ExprOf(items[0], depth, shortcut);
      if first.Err? then Err(first.error)
      else
        var rest := ExprsOf(items[1..], depth, shortcut);
        if rest.Err? then rest else Ok([first.value] + rest.value)
  }

  // ---- the loops ----------------------------------------------------------------------------------------------

  datatype Step = SpanStep(span: Span) | ApplyStep(terms: seq<Postfix>, span: Span)

  function StepOf(node: ExprNode): Step
    requires IsGroupedTail(node)
  {
    if Prefix(node) == [] then SpanStep(node.span) else ApplyStep(Prefix(node), node.span)
  }

  /** What the steps, innermost last, make of an expression. */
  function Replay(steps: seq<Step>, e: Built, depth: nat): Built
    decreases |steps|
  {
    if steps == [] || e.Err? then e
    else
      var last := steps[|steps| - 1];
      var done :=
        if last.SpanStep? then Ok(WithSpan(e.value, last.span))
        else
          var applied := ApplyGroup(last.terms, e.value, depth);
          if applied.Err? then applied else Ok(WithSpan(applied.value, last.span));
      Replay(steps[..|steps| - 1], done, depth)
  }

  /** Peeling first and replaying afterwards is building from the inside out. */
  lemma {:induction false} PeelThenReplay(steps: seq<Step>, node: ExprNode, depth: nat)
    requires IsGroupedTail(node)
    ensures Replay(steps + [StepOf(node)], Rebuilt(Tail(node), depth), depth) == Replay(steps, Rebuilt(node, depth), depth)
  {
    var all := steps + [StepOf(node)];
    assert all[|all| - 1] == StepOf(node) && all[..|all| - 1] == steps;
    var prefix := PostfixesOf(Prefix(node), depth, true);
  }

  /** What is still to come of a group of terms, applied to what has been built. */
  function GroupFrom(terms: seq<Postfix>, begin: Position, base: Expr, tail: Expr, depth: nat): Built {
    var rest := PostfixesOf(terms, depth, true);
    if rest.Err? then Err(rest.error) else Ok(Applied(begin, base, rest.value + [tail]))
  }

  lemma {:induction false} GroupBegins(terms: seq<Postfix>, tail: Expr, depth: nat)
    requires terms != []
    ensures var first := PostfixOf(terms[0], depth, true);
            ApplyGroup(terms, tail, depth)
            == if first.Err? then first else GroupFrom(terms[1..], first.value.span.begin, first.value, tail, depth)
  {
    hide PostfixOf, Applied;
    var first, rest := PostfixOf(terms[0], depth, true), PostfixesOf(terms[1..], depth, true);
    if first.Ok? && rest.Ok? { assert ([first.value] + rest.value)[1..] == rest.value; }
  }

  lemma {:induction false} GroupGoesOn(terms: seq<Postfix>, begin: Position, base: Expr, tail: Expr, depth: nat)
    requires terms != []
    ensures var arg := PostfixOf(terms[0], depth, true);
            GroupFrom(terms, begin, base, tail, depth)
            == if arg.Err? then arg
               else GroupFrom(terms[1..], begin, App(Span(begin, arg.value.span.end), base, arg.value), tail, depth)
  {
    hide PostfixOf;
    var arg, rest := PostfixOf(terms[0], depth, true), PostfixesOf(terms[1..], depth, true);
    if arg.Ok? && rest.Ok? {
      var all := [arg.value] + rest.value + [tail];
      assert all[0] == arg.value && all[1..] == rest.value + [tail];
    }
  }

  lemma {:induction false} GroupEnds(begin: Position, base: Expr, tail: Expr, depth: nat)
    ensures GroupFrom([], begin, base, tail, depth) == Ok(App(Span(begin, tail.span.end), base, tail))
  {
    var app := App(Span(begin, tail.span.end), base, tail);
    assert [] + [tail] == [tail] && [tail][1..] == [];
    assert Applied(begin, base, [tail]) == Applied(begin, app, []) == app;
  }

  /** The terms one after another, each applied as soon as it is built, and the tail last. */
  method ApplyApplicationGroup(terms: seq<Postfix>, tail: Expr, depth: nat) returns (r: Built)
    ensures r == ApplyGroup(terms, tail, depth)
  {
    if |terms| == 0 {
      return Ok(tail);
    }
    hide *;
    GroupBegins(terms, tail, depth);
    var first := PostfixOf(terms[0], depth, true);
    if first.Err? {
      return first;
    }
    var base, begin := first.value, first.value.span.begin;
    for i := 1 to |terms|
      invariant ApplyGroup(terms, tail, depth) == GroupFrom(terms[i..], begin, base, tail, depth)
    {
      assert terms[i..][0] == terms[i] && terms[i..][1..] == terms[i + 1..];
      GroupGoesOn(terms[i..], begin, base, tail, depth);
      var arg := PostfixOf(terms[i], depth, true);
      if arg.Err? {
        return arg;
      }
      base := App(Span(begin, arg.value.span.end), base, arg.value);
    }
    GroupEnds(begin, base, tail, depth);
    return Ok(App(Span(begin, tail.span.end), base, tail));
  }

  method TryGroupedTailApplication(node: ExprNode, exprDepth: nat) returns (r: Result<Option<Expr>, ExprError>)
    ensures r == if !IsGroupedTail(node) then Ok(None)
                 else if exprDepth + Peels(node) > MAX_AST_DEPTH then Err(TooDeep)
                 else var e := Rebuilt(node, exprDepth); if e.Err? then Err(e.error) else Ok(Some(e.value))
  {
    var current, steps, peeled := node, [], 0;
    while IsGroupedTail(current)
      invariant peeled + Peels(current) == Peels(node) && (peeled == 0 <==> current == node)
      invariant Replay(steps, Rebuilt(current, exprDepth), exprDepth) == Rebuilt(node, exprDepth)
      invariant exprDepth + peeled <= MAX_AST_DEPTH || peeled == 0
      decreases current
    {
      peeled := peeled + 1;
      if exprDepth + peeled > MAX_AST_DEPTH {
        return Err(TooDeep);
      }
      PeelThenReplay(steps, current, exprDepth);
      steps := steps + [StepOf(current)];
      current := Tail(current);
    }
    if peeled == 0 {
      return Ok(None);
    }
    var expr := ExprOf(current, exprDepth, true);
    while steps != [] && expr.Ok?
      invariant Replay(steps, expr, exprDepth) == Rebuilt(node, exprDepth)
      decreases |steps|
    {
      var step := steps[|steps| - 1];
      if step.SpanStep? {
        expr := Ok(WithSpan(expr.value, step.span));
      } else {
        expr := ApplyApplicationGroup(step.terms, expr.value, exprDepth);
        if expr.Ok? { expr := Ok(WithSpan(expr.value, step.span)); }
      }
      steps := steps[..|steps| - 1];
    }
    r := if expr.Err? then Err(expr.error) else Ok(Some(expr.value));
  }

  predicate IsPair(terms: seq<Expr>, i: int) {
    0 <= i < |terms| - 1 && IsConstructorReference(terms[i]) && IsDict(terms[i + 1])
  }

  lemma {:induction false} GroupStep(terms: seq<Expr>, i: nat)
    requires i < |terms|
    ensures GroupTerms(terms[i..])
              == if IsPair(terms, i) then [Joined(terms[i], terms[i + 1])] + GroupTerms(terms[i + 2..])
                 else [terms[i]] + GroupTerms(terms[i + 1..])
  {
    var rest := terms[i..];
    assert rest[1..] == terms[i + 1..];
    if |rest| >= 2 { assert rest[2..] == terms[i + 2..] && rest[1] == terms[i + 1]; }
  }

  /** The terms of an application, a constructor's dictionary joined to it. */
  method JoinDictionaries(terms: seq<Expr>) returns (grouped: seq<Expr>)
    ensures grouped == GroupTerms(terms)
  {
    grouped := [];
    var i := 0;
    assert terms[0..] == terms && [] + GroupTerms(terms) == GroupTerms(terms);
    while i < |terms|
      invariant i <= |terms| && grouped + GroupTerms(terms[i..]) == GroupTerms(terms)
    {
      GroupOne(terms, i, grouped);
      hide *;
      var term := terms[i];
      if i + 1 < |terms| && IsConstructorReference(term) && IsDict(terms[i + 1]) {
        grouped := grouped + [Joined(term, terms[i + 1])];
        i := i + 2;
      } else {
        grouped := grouped + [term];
        i := i + 1;
      }
    }
    assert grouped + [] == grouped;
  }

  lemma {:induction false} GroupOne(terms: seq<Expr>, i: nat, grouped: seq<Expr>)
    requires i < |terms|
    ensures i + 1 < |terms| && IsConstructorReference(terms[i]) && IsDict(terms[i + 1]) ==>
              grouped + GroupTerms(terms[i..]) == (grouped + [Joined(terms[i], terms[i + 1])]) + GroupTerms(terms[i + 2..])
    ensures !(i + 1 < |terms| && IsConstructorReference(terms[i]) && IsDict(terms[i + 1])) ==>
              grouped + GroupTerms(terms[i..]) == (grouped + [terms[i]]) + GroupTerms(terms[i + 1..])
  {
    hide GroupTerms, IsConstructorReference, IsDict, Joined;
    GroupStep(terms, i);
  }

  /** Left to right, each application from the first term's beginning. */
  method ApplyAll(base: Expr, terms: seq<Expr>) returns (e: Expr)
    ensures e == Applied(base.span.begin, base, terms)
  {
    var begin := base.span.begin;
    e := base;
    for i := 0 to |terms|
      invariant Applied(begin, base, terms) == Applied(begin, e, terms[i..])
    {
      assert terms[i..][1..] == terms[i + 1..];
      e := App(Span(begin, terms[i].span.end), e, terms[i]);
    }
  }

  /** The terms of an application built, constructor dictionaries joined, and the rest applied to the first. */
  method ApplicationExpr(application: Application, depth: nat, shortcut: bool) returns (r: Built)
    ensures r == ApplicationOf(application, depth, shortcut)
  {
    var terms := PostfixesOf(application.terms, depth, shortcut);
    if terms.Err? {
      return Err(terms.error);
    }
    var grouped := JoinDictionaries(terms.value);
    if |grouped| == 0 {
      return Err(ExpectedExpression);
    }
    var e := ApplyAll(grouped[0], grouped[1..]);
    return Ok(e);
  }
}

/** Where built expressions stand in the source, and which syntax trees are accepted (rex-parser/src/ast_builder.rs:619-830). */
module ExpressionLimits {
  import opened Wrappers
  import opened Pegs
  import opened OperatorFold
  import opened GroupedTail
  import opened GroupedTailAgreement

  // ---- spans --------------------------------------------------------------------------------------------------------

  function SpanOf(node: ExprNode): Span {
    if node.rest == [] then SpanOfUnary(node.first)
    else Span(SpanOfUnary(node.first).begin, SpanOfUnary(node.rest[|node.rest| - 1].operand).end)
  }

  /** From the first term to the last one, or to the last annotation. */
  function SpanOfUnary(unary: Unary): Span {
    var terms, notes := unary.application.terms, unary.annotations;
    if terms == [] then Span(Position(0, 0), Position(0, 0))
    else Span(SpanOfTerm(terms[0]).begin, if notes == [] then SpanOfTerm(terms[|terms| - 1]).end else notes[|notes| - 1].span.end)
  }

  function SpanOfTerm(term: Postfix): Span {
    var fields := term.fields;
    if fields == [] then term.atom.span else Span(term.atom.span.begin, fields[|fields| - 1].end)
  }

  lemma {:induction false} SpanOfApplied(begin: Position, base: Expr, args: seq<Expr>)
    requires base.span.begin == begin
    ensures Applied(begin, base, args).span == Span(begin, if args == [] then base.span.end else args[|args| - 1].span.end)
    decreases |args|
  {
    if args != [] { SpanOfApplied(begin, App(Span(begin, args[0].span.end), base, args[0]), args[1..]); }
  }

  lemma {:induction false} SpanOfProjected(e: Expr, fields: seq<FieldName>)
    ensures Projected(e, fields).span == Span(e.span.begin, if fields == [] then e.span.end else fields[|fields| - 1].end)
    decreases |fields|
  {
    if fields != [] { SpanOfProjected(Project(Span(e.span.begin, fields[0].end), e, fields[0].name), fields[1..]); }
  }

  lemma {:induction false} SpanOfAnnotated(e: Expr, notes: seq<Annotation>)
    ensures Annotated(e, notes).span == Span(e.span.begin, if notes == [] then e.span.end else notes[|notes| - 1].span.end)
    decreases |notes|
  {
    if notes != [] { SpanOfAnnotated(Ann(Span(e.span.begin, notes[0].span.end), e, notes[0].typ), notes[1..]); }
  }

  /** Joining moves neither end of a list of terms. */
  lemma {:induction false} GroupKeepsEnds(terms: seq<Expr>)
    requires terms != []
    ensures var grouped := GroupTerms(terms);
            && grouped != [] && grouped[0].span.begin == terms[0].span.begin
            && grouped[|grouped| - 1].span.end == terms[|terms| - 1].span.end
    decreases |terms|
  {
    if IsPair(terms, 0) {
      if |terms| > 2 { GroupKeepsEnds(terms[2..]); } else { assert terms[2..] == []; }
    } else if |terms| > 1 {
      GroupKeepsEnds(terms[1..]);
    } else {
      assert terms[1..] == [];
    }
  }

  /** A chain reaches from its first operand to its last. */
  lemma {:induction false} SpanOfTree(tree: Tree)
    ensures var rest := Rest(tree);
            Build(tree).span
              == Span(First(tree).span.begin, if rest == [] then First(tree).span.end else rest[|rest| - 1].rhs.span.end)
  {
    if tree.Binary? {
      SpanOfTree(tree.left);
      SpanOfTree(tree.right);
    }
  }

  lemma {:induction false} TermSpans(term: Postfix, depth: nat)
    requires PostfixOf(term, depth, false).Ok?
    ensures PostfixOf(term, depth, false).value.span == SpanOfTerm(term)
  {
    SpanOfProjected(AtomOf(term.atom, depth, false).value, term.fields);
  }

  lemma {:induction false} UnarySpans(unary: Unary, depth: nat)
    requires UnaryOf(unary, depth, false).Ok?
    ensures UnaryOf(unary, depth, false).value.span == SpanOfUnary(unary)
  {
    var terms := unary.application.terms;
    var xs := PostfixesOf(terms, depth, false).value;
    PostfixesAre(terms, depth, false);
    assert xs != [];
    TermSpans(terms[0], depth);
    TermSpans(terms[|terms| - 1], depth);
    GroupKeepsEnds(xs);
    var grouped := GroupTerms(xs);
    SpanOfApplied(grouped[0].span.begin, grouped[0], grouped[1..]);
    SpanOfAnnotated(ApplicationOf(unary.application, depth, false).value, unary.annotations);
  }

  /** What the ordinary recursion builds stands where the syntax tree does. */
  lemma {:induction false} StandsAsWritten(node: ExprNode, depth: nat)
    requires ExprOf(node, depth, false).Ok?
    ensures ExprOf(node, depth, false).value.span == SpanOf(node)
  {
    var first, parts := UnaryOf(node.first, depth + 1, false).value, PartsOf(node.rest, depth + 1, false).value;
    PartsAre(node.rest, depth + 1, false);
    UnarySpans(node.first, depth + 1);
    if node.rest != [] { UnarySpans(node.rest[|node.rest| - 1].operand, depth + 1); }
    FoldKeepsTheChain(Operand(first), parts, 0);
    assert [] + parts[0..] == parts;
    SpanOfTree(Grouping(Operand(first), parts, 0));
  }

  /** What the shortcut builds bears the span of its node. */
  lemma {:induction false} ShortcutSpans(node: ExprNode, depth: nat)
    requires IsGroupedTail(node) && ExprOf(node, depth, true).Ok?
    ensures ExprOf(node, depth, true).value.span == node.span
  {
  }

  // ---- what is accepted --------------------------------------------------------------------------------------------

  function Larger(a: nat, b: nat): nat { if a < b then b else a }

  /** How many levels a tree needs; for the ordinary recursion, how many expressions are nested in one another. */
  function Nesting(node: ExprNode, shortcut: bool): nat
    decreases node, 2
  {
    if shortcut && IsGroupedTail(node) then 1 + Larger(Peels(node), Spine(node)) else 1 + NestingInside(node, shortcut)
  }

  function NestingInside(node: ExprNode, shortcut: bool): nat
    decreases node, 0
  {
    Larger(NestingOfUnary(node.first, shortcut), NestingOfRest(node.rest, shortcut))
  }

  /** The shortcut builds all prefixes it peels at one depth, and the core one deeper. */
  function Spine(node: ExprNode): nat
    decreases node, 1
  {
    if IsGroupedTail(node) then Larger(NestingOfTerms(Prefix(node), true), Spine(Tail(node))) else 1 + NestingInside(node, true)
  }

  function NestingOfRest(rest: seq<Operation>, shortcut: bool): nat
    decreases rest
  {
    if rest == [] then 0 else Larger(NestingOfOperation(rest[0], shortcut), NestingOfRest(rest[1..], shortcut))
  }

  function NestingOfOperation(operation: Operation, shortcut: bool): nat
    decreases operation
  {
    NestingOfUnary(operation.operand, shortcut)
  }

  function NestingOfUnary(unary: Unary, shortcut: bool): nat
    decreases unary
  {
    NestingOfApplication(unary.application, shortcut)
  }

  function NestingOfApplication(application: Application, shortcut: bool): nat
    decreases application
  {
    NestingOfTerms(application.terms, shortcut)
  }

  function NestingOfTerms(terms: seq<Postfix>, shortcut: bool): nat
    decreases terms
  {
    if terms == [] then 0 else Larger(NestingOfTerm(terms[0], shortcut), NestingOfTerms(terms[1..], shortcut))
  }

  function NestingOfTerm(term: Postfix, shortcut: bool): nat
    decreases term
  {
    match term.atom
    case Identifier(_, _) => 0
    case Grouped(_, inner) => Nesting(inner, shortcut)
    case Compound(_, _, items) => NestingOfItems(items, shortcut)
  }

  function NestingOfItems(items: seq<ExprNode>, shortcut: bool): nat
    decreases items
  {
    if items == [] then 0 else Larger(Nesting(items[0], shortcut), NestingOfItems(items[1..], shortcut))
  }

  /** Every application has a term, and no chain is too long. */
  ghost predicate Complete(node: ExprNode)
    decreases node
  {
    && CompleteUnary(node.first)
    && |node.rest| < MAX_AST_DEPTH
    && forall i :: 0 <= i < |node.rest| ==> CompleteUnary(node.rest[i].operand)
  }

  ghost predicate CompleteUnary(unary: Unary)
    decreases unary
  {
    var terms := unary.application.terms;
    terms != [] && forall i :: 0 <= i < |terms| ==> CompleteTerm(terms[i])
  }

  ghost predicate CompleteTerm(term: Postfix)
    decreases term
  {
    match term.atom
    case Identifier(_, _) => true
    case Grouped(_, inner) => Complete(inner)
    case Compound(_, _, items) => forall i :: 0 <= i < |items| ==> Complete(items[i])
  }

  /** Either way of building accepts exactly the complete trees whose nesting stays within the limit. */
  lemma {:induction false} AcceptedIff(node: ExprNode, depth: nat, shortcut: bool)
    ensures ExprOf(node, depth, shortcut).Ok? <==> Complete(node) && depth + Nesting(node, shortcut) <= MAX_AST_DEPTH
    decreases node, 3
  {
    if depth < MAX_AST_DEPTH {
      if shortcut && IsGroupedTail(node) { RebuiltAccepted(node, depth + 1); } else { FoldedAccepted(node, depth + 1, shortcut); }
    }
  }

  lemma {:induction false} FoldedAccepted(node: ExprNode, depth: nat, shortcut: bool)
    ensures depth <= MAX_AST_DEPTH ==>
              (Folded(node, depth, shortcut).Ok? <==> Complete(node) && depth + NestingInside(node, shortcut) <= MAX_AST_DEPTH)
    decreases node, 1
  {
    UnaryAccepted(node.first, depth, shortcut);
    RestAccepted(node.rest, depth, shortcut);
  }

  lemma {:induction false} RebuiltAccepted(node: ExprNode, depth: nat)
    ensures depth <= MAX_AST_DEPTH ==>
              (Rebuilt(node, depth).Ok? <==> Complete(node) && depth + Spine(node) <= MAX_AST_DEPTH)
    decreases node, 2
  {
    if IsGroupedTail(node) {
      RebuiltAccepted(Tail(node), depth);
      TermsAccepted(Prefix(node), depth, true);
      CompleteTail(node);
    } else if depth < MAX_AST_DEPTH {
      FoldedAccepted(node, depth + 1, true);
    }
  }

  lemma {:induction false} CompleteTail(node: ExprNode)
    requires IsGroupedTail(node)
    ensures Complete(node) <==>
            Complete(Tail(node)) && forall i :: 0 <= i < |Prefix(node)| ==> CompleteTerm(Prefix(node)[i])
  {
    var terms, n := TermsOf(node), |Prefix(node)|;
    assert CompleteTerm(terms[n]) == Complete(Tail(node));
    assert forall i :: 0 <= i < n ==> Prefix(node)[i] == terms[i];
    if Complete(Tail(node)) && forall i :: 0 <= i < n ==> CompleteTerm(Prefix(node)[i]) {
      forall i | 0 <= i < |terms| ensures CompleteTerm(terms[i]) { if i < n { assert CompleteTerm(Prefix(node)[i]); } }
    }
  }

  lemma {:induction false} RestAccepted(rest: seq<Operation>, depth: nat, shortcut: bool)
    ensures depth <= MAX_AST_DEPTH ==>
              (PartsOf(rest, depth, shortcut).Ok? <==>
                 (forall i :: 0 <= i < |rest| ==> CompleteUnary(rest[i].operand)) && depth + NestingOfRest(rest, shortcut) <= MAX_AST_DEPTH)
    decreases rest
  {
    if rest != [] {
      OperationAccepted(rest[0], depth, shortcut);
      RestAccepted(rest[1..], depth, shortcut);
      assert forall i :: 0 <= i < |rest[1..]| ==> rest[1..][i] == rest[i + 1];
      if CompleteUnary(rest[0].operand) && forall i :: 0 <= i < |rest[1..]| ==> CompleteUnary(rest[1..][i].operand) {
        forall i | 0 <= i < |rest| ensures CompleteUnary(rest[i].operand) { if i > 0 { assert rest[1..][i - 1] == rest[i]; } }
      }
    }
  }

  lemma {:induction false} OperationAccepted(operation: Operation, depth: nat, shortcut: bool)
    ensures depth <= MAX_AST_DEPTH ==>
              (OperandOf(operation, depth, shortcut).Ok? <==>
                 CompleteUnary(operation.operand) && depth + NestingOfOperation(operation, shortcut) <= MAX_AST_DEPTH)
    decreases operation
  {
    UnaryAccepted(operation.operand, depth, shortcut);
  }

  lemma {:induction false} UnaryAccepted(unary: Unary, depth: nat, shortcut: bool)
    ensures depth <= MAX_AST_DEPTH ==>
              (UnaryOf(unary, depth, shortcut).Ok? <==> CompleteUnary(unary) && depth + NestingOfUnary(unary, shortcut) <= MAX_AST_DEPTH)
    decreases unary
  {
    var terms := unary.application.terms;
    TermsAccepted(terms, depth, shortcut);
    var xs := PostfixesOf(terms, depth, shortcut);
    if xs.Ok? && terms != [] { GroupKeepsEnds(xs.value); }
  }

  lemma {:induction false} TermsAccepted(terms: seq<Postfix>, depth: nat, shortcut: bool)
    ensures depth <= MAX_AST_DEPTH ==>
              (PostfixesOf(terms, depth, shortcut).Ok? <==>
                 (forall i :: 0 <= i < |terms| ==> CompleteTerm(terms[i])) && depth + NestingOfTerms(terms, shortcut) <= MAX_AST_DEPTH)
    decreases terms
  {
    if terms != [] {
      TermAccepted(terms[0], depth, shortcut);
      TermsAccepted(terms[1..], depth, shortcut);
      if CompleteTerm(terms[0]) && forall i :: 0 <= i < |terms[1..]| ==> CompleteTerm(terms[1..][i]) {
        forall i | 0 <= i < |terms| ensures CompleteTerm(terms[i]) { if i > 0 { assert terms[1..][i - 1] == terms[i]; } }
      }
      assert forall i :: 0 <= i < |terms[1..]| ==> terms[1..][i] == terms[i + 1];
    }
  }

  lemma {:induction false} TermAccepted(term: Postfix, depth: nat, shortcut: bool)
    ensures depth <= MAX_AST_DEPTH ==>
              (PostfixOf(term, depth, shortcut).Ok? <==> CompleteTerm(term) && depth + NestingOfTerm(term, shortcut) <= MAX_AST_DEPTH)
    decreases term
  {
    match term.atom
    case Identifier(_, _) =>
    case Grouped(_, inner) => AcceptedIff(inner, depth, shortcut);
    case Compound(_, _, items) => ItemsAccepted(items, depth, shortcut);
  }

  lemma {:induction false} ItemsAccepted(items: seq<ExprNode>, depth: nat, shortcut: bool)
    ensures depth <= MAX_AST_DEPTH ==>
              (ExprsOf(items, depth, shortcut).Ok? <==>
                 (forall i :: 0 <= i < |items| ==> Complete(items[i])) && depth + NestingOfItems(items, shortcut) <= MAX_AST_DEPTH)
    decreases items, 4
  {
    if items != [] {
      AcceptedIff(items[0], depth, shortcut);
      ItemsAccepted(items[1..], depth, shortcut);
      if Complete(items[0]) && forall i :: 0 <= i < |items[1..]| ==> Complete(items[1..][i]) {
        forall i | 0 <= i < |items| ensures Complete(items[i]) { if i > 0 { assert items[1..][i - 1] == items[i]; } }
      }
      assert forall i :: 0 <= i < |items[1..]| ==> items[1..][i] == items[i + 1];
    }
  }
}

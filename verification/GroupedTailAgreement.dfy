/** When the shortcut for grouped tails builds what the ordinary recursion would (rex-parser/src/ast_builder.rs:624-764). */
module GroupedTailAgreement {
  import opened Wrappers
  import opened Pegs
  import opened OperatorFold
  import opened GroupedTail
  import opened GroupedTailTerms

  // ---- the condition --------------------------------------------------------------------------------------------

  /** Behind the first term, a constructor reference directly followed by a dictionary. */
  predicate HasLostPair(terms: seq<Postfix>) {
    exists i :: 1 <= i < |terms| - 1 && KindOfTerm(terms[i]) == ConstructorTerm && KindOfTerm(terms[i + 1]) == DictTerm
  }

  /** No such pair in any application that the shortcut peels. */
  ghost predicate Faithful(node: ExprNode)
    decreases node
  {
    && (IsGroupedTail(node) ==> !HasLostPair(TermsOf(node)))
    && AllFaithful(node.first.application.terms)
    && forall i :: 0 <= i < |node.rest| ==> AllFaithful(node.rest[i].operand.application.terms)
  }

  ghost predicate AllFaithful(terms: seq<Postfix>)
    decreases terms
  {
    forall i :: 0 <= i < |terms| ==> FaithfulTerm(terms[i])
  }

  ghost predicate FaithfulTerm(term: Postfix)
    decreases term
  {
    match term.atom
    case Identifier(_, _) => true
    case Grouped(_, inner) => Faithful(inner)
    case Compound(_, kind, items) => forall i :: 0 <= i < |items| && Kept(kind, |items|, i) ==> Faithful(items[i])
  }

  // ---- kinds of what is built ---------------------------------------------------------------------------------

  lemma {:induction false} KindOfPostfix(term: Postfix, depth: nat, shortcut: bool)
    requires PostfixOf(term, depth, shortcut).Ok?
    ensures KindOf(PostfixOf(term, depth, shortcut).value) == KindOfTerm(term)
    decreases term, 0
  {
    var base := AtomOf(term.atom, depth, shortcut).value;
    if term.fields != [] {
      KindOfProjected(base, term.fields);
    } else if term.atom.Grouped? {
      KindOfExpr(term.atom.inner, depth, shortcut);
    }
  }

  lemma {:induction false} KindOfProjected(e: Expr, fields: seq<FieldName>)
    requires fields != []
    ensures Projected(e, fields).Project? && Projected(e, fields).field == fields[|fields| - 1].name
    decreases |fields|
  {
    var e' := Project(Span(e.span.begin, fields[0].end), e, fields[0].name);
    if |fields| > 1 { KindOfProjected(e', fields[1..]); }
  }

  lemma {:induction false} KindOfExpr(node: ExprNode, depth: nat, shortcut: bool)
    requires ExprOf(node, depth, shortcut).Ok?
    ensures KindOf(ExprOf(node, depth, shortcut).value) == KindOfNode(node)
    decreases node, 3
  {
    if shortcut && IsGroupedTail(node) { KindOfRebuilt(node, depth + 1); } else { KindOfFolded(node, depth + 1, shortcut); }
  }

  lemma {:induction false} KindOfRebuilt(node: ExprNode, depth: nat)
    requires Rebuilt(node, depth).Ok?
    ensures KindOf(Rebuilt(node, depth).value) == KindOfNode(node)
    decreases node, 2
  {
    if IsGroupedTail(node) {
      KindOfRebuilt(Tail(node), depth);
      if Prefix(node) != [] {
        var prefix := PostfixesOf(Prefix(node), depth, true).value;
        AppliedIsApp(prefix[0].span.begin, prefix[0], prefix[1..] + [Rebuilt(Tail(node), depth).value]);
      } else {
        assert TermsOf(node) == [TermsOf(node)[0]];
      }
    } else {
      KindOfFolded(node, depth + 1, true);
    }
  }

  lemma {:induction false} AppliedIsApp(begin: Position, base: Expr, args: seq<Expr>)
    requires args != []
    ensures Applied(begin, base, args).App?
    decreases |args|
  {
    if |args| > 1 { AppliedIsApp(begin, App(Span(begin, args[0].span.end), base, args[0]), args[1..]); }
  }

  lemma {:induction false} KindOfFolded(node: ExprNode, depth: nat, shortcut: bool)
    requires Folded(node, depth, shortcut).Ok?
    ensures KindOf(Folded(node, depth, shortcut).value) == KindOfNode(node)
    decreases node, 1
  {
    var first, parts := UnaryOf(node.first, depth, shortcut).value, PartsOf(node.rest, depth, shortcut).value;
    PartsAre(node.rest, depth, shortcut);
    if node.rest != [] { GroupingIsBinary(Operand(first), parts, 0); } else { KindOfUnary(node.first, depth, shortcut); }
  }

  lemma {:induction false} GroupingIsBinary(lhs: Tree, parts: seq<Part>, index: nat)
    requires index <= |parts| && (index < |parts| || lhs.Binary?)
    ensures Grouping(lhs, parts, index).Binary?
    decreases |parts| - index
  {
    if index < |parts| && !NextTakesPrecedence(parts, index) {
      GroupingIsBinary(Binary(lhs, parts[index].operator, Operand(parts[index].rhs)), parts, index + 1);
    }
  }

  lemma {:induction false} PartsAre(operations: seq<Operation>, depth: nat, shortcut: bool)
    requires PartsOf(operations, depth, shortcut).Ok?
    ensures var r := PartsOf(operations, depth, shortcut).value;
            |r| == |operations| && forall i :: 0 <= i < |r| ==>
              r[i].operator == operations[i].operator && UnaryOf(operations[i].operand, depth, shortcut) == Ok(r[i].rhs)
  {
    if operations != [] { PartsAre(operations[1..], depth, shortcut); }
  }

  lemma {:induction false} PostfixesAre(terms: seq<Postfix>, depth: nat, shortcut: bool)
    requires PostfixesOf(terms, depth, shortcut).Ok?
    ensures var r := PostfixesOf(terms, depth, shortcut).value;
            |r| == |terms| && forall i :: 0 <= i < |r| ==> PostfixOf(terms[i], depth, shortcut) == Ok(r[i])
  {
    if terms != [] { PostfixesAre(terms[1..], depth, shortcut); }
  }

  lemma {:induction false} ExprsAre(items: seq<ExprNode>, depth: nat, shortcut: bool)
    requires ExprsOf(items, depth, shortcut).Ok?
    ensures var r := ExprsOf(items, depth, shortcut).value;
            |r| == |items| && forall i :: 0 <= i < |r| ==> ExprOf(items[i], depth, shortcut) == Ok(r[i])
  {
    if items != [] { ExprsAre(items[1..], depth, shortcut); }
  }

  lemma {:induction false} KindOfUnary(unary: Unary, depth: nat, shortcut: bool)
    requires UnaryOf(unary, depth, shortcut).Ok?
    ensures KindOf(UnaryOf(unary, depth, shortcut).value)
         == if unary.annotations != [] || |unary.application.terms| != 1 then OtherTerm else KindOfTerm(unary.application.terms[0])
    decreases unary
  {
    var terms := PostfixesOf(unary.application.terms, depth, shortcut).value;
    PostfixesAre(unary.application.terms, depth, shortcut);
    if unary.annotations != [] {
      AnnotatedIsAnn(ApplicationOf(unary.application, depth, shortcut).value, unary.annotations);
    } else if |terms| == 1 {
      assert terms == [terms[0]] && GroupTerms(terms) == [terms[0]] by { assert terms[1..] == []; }
      KindOfPostfix(unary.application.terms[0], depth, shortcut);
    } else {
      var grouped := GroupTerms(terms);
      GroupedIsApp(terms);
      if |grouped| > 1 { AppliedIsApp(grouped[0].span.begin, grouped[0], grouped[1..]); }
    }
  }

  lemma {:induction false} GroupedIsApp(terms: seq<Expr>)
    requires |terms| >= 2
    ensures var grouped := GroupTerms(terms); grouped != [] && (|grouped| == 1 ==> grouped[0].App?)
  {
    if !IsPair(terms, 0) { assert |GroupTerms(terms[1..])| >= 1; }
  }

  lemma {:induction false} AnnotatedIsAnn(e: Expr, annotations: seq<Annotation>)
    requires annotations != []
    ensures Annotated(e, annotations).Ann?
    decreases |annotations|
  {
    var e' := Ann(Span(e.span.begin, annotations[0].span.end), e, annotations[0].typ);
    if |annotations| > 1 { AnnotatedIsAnn(e', annotations[1..]); }
  }

  // ---- the two ways of building ----------------------------------------------------------------------------------

  /** The shortcut at one depth and the ordinary recursion at another: equal up to spans exactly if the tree is faithful. */
  lemma {:induction false} ExprsAgree(node: ExprNode, d: nat, d': nat)
    requires ExprOf(node, d, true).Ok? && ExprOf(node, d', false).Ok?
    ensures Agree(ExprOf(node, d, true).value, ExprOf(node, d', false).value) <==> Faithful(node)
    decreases node, 3
  {
    hide Agree, Faithful, Rebuilt, Folded;
    if IsGroupedTail(node) { RebuiltAgrees(node, d + 1, d' + 1); } else { FoldedAgrees(node, d + 1, d' + 1); }
  }

  lemma {:induction false} FoldedAgrees(node: ExprNode, d: nat, d': nat)
    requires !IsGroupedTail(node) && Folded(node, d, true).Ok? && Folded(node, d', false).Ok?
    ensures Agree(Folded(node, d, true).value, Folded(node, d', false).value) <==> Faithful(node)
    decreases node, 1
  {
    var a, b := UnaryOf(node.first, d, true).value, UnaryOf(node.first, d', false).value;
    var parts, parts' := PartsOf(node.rest, d, true).value, PartsOf(node.rest, d', false).value;
    PartsAre(node.rest, d, true);
    PartsAre(node.rest, d', false);
    UnariesAgree(node.first, d, d');
    forall i | 0 <= i < |parts| ensures Agree(parts[i].rhs, parts'[i].rhs) <==> AllFaithful(node.rest[i].operand.application.terms) {
      UnariesAgree(node.rest[i].operand, d, d');
    }
    hide Agree, AllFaithful, Grouping, UnaryOf, PartsOf, IsGroupedTail;
    GroupingAgrees(Operand(a), Operand(b), parts, parts', 0);
  }

  lemma {:induction false} UnariesAgree(unary: Unary, d: nat, d': nat)
    requires UnaryOf(unary, d, true).Ok? && UnaryOf(unary, d', false).Ok?
    ensures Agree(UnaryOf(unary, d, true).value, UnaryOf(unary, d', false).value) <==> AllFaithful(unary.application.terms)
    decreases unary
  {
    var terms := unary.application.terms;
    var xs, ys := PostfixesOf(terms, d, true).value, PostfixesOf(terms, d', false).value;
    PostfixListsAgree(terms, d, d');
    JoinedAgree(xs, ys);
    var gx, gy := GroupTerms(xs), GroupTerms(ys);
    AllAgreeSplit(gx, gy);
    AppliedAgrees(gx[0].span.begin, gy[0].span.begin, gx[0], gy[0], gx[1..], gy[1..]);
    AnnotatedAgrees(ApplicationOf(unary.application, d, true).value, ApplicationOf(unary.application, d', false).value, unary.annotations);
  }

  lemma {:induction false} PostfixListsAgree(terms: seq<Postfix>, d: nat, d': nat)
    requires PostfixesOf(terms, d, true).Ok? && PostfixesOf(terms, d', false).Ok?
    ensures var xs, ys := PostfixesOf(terms, d, true).value, PostfixesOf(terms, d', false).value;
            SameKinds(xs, ys) && (AllAgree(xs, ys) <==> AllFaithful(terms))
    decreases terms
  {
    var xs, ys := PostfixesOf(terms, d, true).value, PostfixesOf(terms, d', false).value;
    PostfixesAre(terms, d, true);
    PostfixesAre(terms, d', false);
    forall i | 0 <= i < |xs|
      ensures KindOf(xs[i]) == KindOf(ys[i])
      ensures Agree(xs[i], ys[i]) <==> FaithfulTerm(terms[i])
    {
      KindOfPostfix(terms[i], d, true);
      KindOfPostfix(terms[i], d', false);
      PostfixesAgree(terms[i], d, d');
    }
  }

  lemma {:induction false} PostfixesAgree(term: Postfix, d: nat, d': nat)
    requires PostfixOf(term, d, true).Ok? && PostfixOf(term, d', false).Ok?
    ensures Agree(PostfixOf(term, d, true).value, PostfixOf(term, d', false).value) <==> FaithfulTerm(term)
    decreases term
  {
    var a, b := AtomOf(term.atom, d, true).value, AtomOf(term.atom, d', false).value;
    ProjectedAgrees(a, b, term.fields);
    match term.atom
    case Identifier(_, _) =>
    case Grouped(span, inner) =>
      ExprsAgree(inner, d, d');
      SpansDoNotMatter(ExprOf(inner, d, true).value, span);
      SpansDoNotMatter(ExprOf(inner, d', false).value, span);
    case Compound(span, kind, items) =>
      var xs, ys := ExprsOf(items, d, true).value, ExprsOf(items, d', false).value;
      ExprsAre(items, d, true);
      ExprsAre(items, d', false);
      MadeFormsAgree(span, span, kind, xs, ys);
      forall i | 0 <= i < |items| ensures Agree(xs[i], ys[i]) <==> Faithful(items[i]) { ExprsAgree(items[i], d, d'); }
  }

  lemma {:induction false} RebuiltAgrees(node: ExprNode, d: nat, d': nat)
    requires Rebuilt(node, d).Ok? && Folded(node, d', false).Ok?
    ensures Agree(Rebuilt(node, d).value, Folded(node, d', false).value) <==> Faithful(node)
    decreases node, 2
  {
    if !IsGroupedTail(node) {
      FoldedAgrees(node, d + 1, d');
    } else {
      var xs := ShortcutTerms(node, d);
      var ys := OrdinaryTerms(node, d');
      var grouped := GroupTerms(ys);
      TermsAgree(node, d, d', xs, ys);
      PairsAreLost(TermsOf(node), ys, d');
      SpansDoNotMatter(Applied(xs[0].span.begin, xs[0], xs[1..]), node.span);
      hide Agree, AllAgree, Applied, GroupTerms, Rebuilt, Folded, Tail, Prefix, AllFaithful, HasLostPair, NoPair;
      ShortcutAgrees(xs[0].span.begin, grouped[0].span.begin, xs, ys);
    }
  }

  /** In the ordinary recursion, the terms joined and applied are all there is to a grouped tail. */
  lemma {:induction false} OrdinaryTerms(node: ExprNode, d: nat) returns (ys: seq<Expr>)
    requires IsGroupedTail(node) && Folded(node, d, false).Ok?
    ensures PostfixesOf(TermsOf(node), d, false) == Ok(ys) && |ys| == |TermsOf(node)|
    ensures var grouped := GroupTerms(ys);
            grouped != [] && Folded(node, d, false).value == Applied(grouped[0].span.begin, grouped[0], grouped[1..])
  {
    var application := ApplicationOf(node.first.application, d, false);
    assert UnaryOf(node.first, d, false).Ok? && PartsOf(node.rest, d, false) == Ok([]);
    assert application.Ok? && UnaryOf(node.first, d, false) == application;
    assert Grouping(Operand(application.value), [], 0) == Operand(application.value);
    ys := PostfixesOf(TermsOf(node), d, false).value;
  }

  /** In the shortcut, the prefix and the tail applied as they are. */
  lemma {:induction false} ShortcutTerms(node: ExprNode, d: nat) returns (xs: seq<Expr>)
    requires IsGroupedTail(node) && Rebuilt(node, d).Ok?
    ensures PostfixesOf(Prefix(node), d, true).Ok? && Rebuilt(Tail(node), d).Ok?
    ensures xs == PostfixesOf(Prefix(node), d, true).value + [Rebuilt(Tail(node), d).value] && |xs| == |TermsOf(node)|
    ensures Rebuilt(node, d).value == WithSpan(Applied(xs[0].span.begin, xs[0], xs[1..]), node.span)
  {
    assert Rebuilt(Tail(node), d).Ok?;
    assert ApplyGroup(Prefix(node), Rebuilt(Tail(node), d).value, d).Ok?;
    var prefix, tail := PostfixesOf(Prefix(node), d, true).value, Rebuilt(Tail(node), d).value;
    xs := prefix + [tail];
    if prefix != [] {
      assert xs[0] == prefix[0] && xs[1..] == prefix[1..] + [tail];
    } else {
      assert xs == [tail] && xs[1..] == [] && Applied(tail.span.begin, tail, []) == tail;
    }
    assert |TermsOf(node)| == |Prefix(node)| + 1;
  }

  lemma {:induction false} PostfixesTake(terms: seq<Postfix>, k: nat, d: nat, shortcut: bool)
    requires k <= |terms| && PostfixesOf(terms, d, shortcut).Ok?
    ensures PostfixesOf(terms[..k], d, shortcut) == Ok(PostfixesOf(terms, d, shortcut).value[..k])
    decreases |terms|
  {
    if terms != [] && k > 0 {
      PostfixesTake(terms[1..], k - 1, d, shortcut);
      assert terms[..k][1..] == terms[1..][..k - 1] && terms[..k][0] == terms[0];
      var first, rest := PostfixOf(terms[0], d, shortcut).value, PostfixesOf(terms[1..], d, shortcut).value;
      assert ([first] + rest)[..k] == [first] + rest[..k - 1];
    } else {
      assert terms[..k] == [] && PostfixesOf(terms, d, shortcut).value[..k] == [];
    }
  }

  lemma {:induction false} TermsAgree(node: ExprNode, d: nat, d': nat, xs: seq<Expr>, ys: seq<Expr>)
    requires IsGroupedTail(node) && PostfixesOf(Prefix(node), d, true).Ok? && Rebuilt(Tail(node), d).Ok?
    requires xs == PostfixesOf(Prefix(node), d, true).value + [Rebuilt(Tail(node), d).value]
    requires PostfixesOf(TermsOf(node), d', false) == Ok(ys)
    ensures SameKinds(xs, ys) && (AllAgree(xs, ys) <==> AllFaithful(TermsOf(node)))
    decreases node, 1
  {
    var terms, n := TermsOf(node), |TermsOf(node)|;
    var prefix := PostfixesOf(Prefix(node), d, true).value;
    assert Prefix(node) == terms[..n - 1];
    hide Rebuilt, Folded, ExprOf, Agree, AllAgree, FaithfulTerm, AllFaithful, Tail, KindOf, Prefix, PostfixOf;
    hide PostfixesOf, IsGroupedTail;
    PostfixesTake(terms, n - 1, d', false);
    PostfixesAre(terms, d', false);
    PostfixListsAgree(Prefix(node), d, d');
    LastTermAgrees(node, d, d');
    assert xs[..n - 1] == prefix && ys[..n - 1] == PostfixesOf(Prefix(node), d', false).value;
    hide *;
    LastAgrees(xs, ys);
    LastFaithful(terms);
    LastSameKind(xs, ys);
  }

  lemma {:induction false} LastSameKind(xs: seq<Expr>, ys: seq<Expr>)
    requires |xs| == |ys| >= 1 && SameKinds(xs[..|xs| - 1], ys[..|ys| - 1]) && KindOf(xs[|xs| - 1]) == KindOf(ys[|ys| - 1])
    ensures SameKinds(xs, ys)
  {
    var n, front, front' := |xs|, xs[..|xs| - 1], ys[..|ys| - 1];
    forall i | 0 <= i < n ensures KindOf(xs[i]) == KindOf(ys[i]) {
      if i < n - 1 { assert KindOf(front[i]) == KindOf(front'[i]); }
    }
  }

  lemma {:induction false} LastTermAgrees(node: ExprNode, d: nat, d': nat)
    requires IsGroupedTail(node) && Rebuilt(Tail(node), d).Ok?
    requires var terms := TermsOf(node); PostfixOf(terms[|terms| - 1], d', false).Ok?
    ensures var terms := TermsOf(node);
            var last := terms[|terms| - 1];
            var x, y := Rebuilt(Tail(node), d).value, PostfixOf(last, d', false).value;
            KindOf(x) == KindOf(y) && (Agree(x, y) <==> FaithfulTerm(last))
    decreases node, 0
  {
    var terms := TermsOf(node);
    var last, tail := terms[|terms| - 1], Tail(node);
    KindOfPostfix(last, d', false);
    KindOfRebuilt(tail, d);
    assert AtomOf(last.atom, d', false) == PostfixOf(last, d', false);
    assert ExprOf(tail, d', false) == Folded(tail, d' + 1, false);
    RebuiltAgrees(tail, d, d' + 1);
    SpansDoNotMatter(ExprOf(tail, d', false).value, last.atom.span);
  }

  lemma {:induction false} LastAgrees(xs: seq<Expr>, ys: seq<Expr>)
    requires |xs| == |ys| >= 1
    ensures var n := |xs|; AllAgree(xs, ys) <==> AllAgree(xs[..n - 1], ys[..n - 1]) && Agree(xs[n - 1], ys[n - 1])
  {
    var n, xs', ys' := |xs|, xs[..|xs| - 1], ys[..|ys| - 1];
    if AllAgree(xs', ys') && Agree(xs[n - 1], ys[n - 1]) {
      forall i | 0 <= i < n ensures Agree(xs[i], ys[i]) { if i < n - 1 { assert Agree(xs'[i], ys'[i]); } }
    }
    if AllAgree(xs, ys) {
      forall i | 0 <= i < |xs'| ensures Agree(xs'[i], ys'[i]) { assert Agree(xs[i], ys[i]); }
    }
  }

  lemma {:induction false} LastFaithful(terms: seq<Postfix>)
    requires terms != []
    ensures var n := |terms|; AllFaithful(terms) <==> AllFaithful(terms[..n - 1]) && FaithfulTerm(terms[n - 1])
  {
    var n, front := |terms|, terms[..|terms| - 1];
    if AllFaithful(front) && FaithfulTerm(terms[n - 1]) {
      forall i | 0 <= i < n ensures FaithfulTerm(terms[i]) { if i < n - 1 { assert FaithfulTerm(front[i]); } }
    }
    if AllFaithful(terms) {
      forall i | 0 <= i < |front| ensures FaithfulTerm(front[i]) { assert FaithfulTerm(terms[i]); }
    }
  }

  /** The pairs among the terms built are the pairs among the terms. */
  lemma {:induction false} PairsAreLost(terms: seq<Postfix>, ys: seq<Expr>, d: nat)
    requires PostfixesOf(terms, d, false) == Ok(ys) && terms != []
    ensures HasLostPair(terms) <==> !NoPair(ys[1..])
  {
    PostfixesAre(terms, d, false);
    forall i | 0 <= i < |ys| ensures KindOf(ys[i]) == KindOfTerm(terms[i]) { KindOfPostfix(terms[i], d, false); }
    assert KindsAre(terms, ys);
    hide *;
    PairIsThere(terms, ys);
    PairWasThere(terms, ys);
  }

  predicate KindsAre(terms: seq<Postfix>, ys: seq<Expr>) {
    |ys| == |terms| && forall i :: 0 <= i < |ys| ==> KindOf(ys[i]) == KindOfTerm(terms[i])
  }

  lemma {:induction false} PairIsThere(terms: seq<Postfix>, ys: seq<Expr>)
    requires KindsAre(terms, ys) && terms != []
    ensures HasLostPair(terms) ==> !NoPair(ys[1..])
  {
    hide KindOfTerm, KindOf, IsPair;
    if HasLostPair(terms) {
      var i :| 1 <= i < |terms| - 1 && KindOfTerm(terms[i]) == ConstructorTerm && KindOfTerm(terms[i + 1]) == DictTerm;
      PairByKind(ys[1..], i - 1);
    }
  }

  lemma {:induction false} PairWasThere(terms: seq<Postfix>, ys: seq<Expr>)
    requires KindsAre(terms, ys) && terms != []
    ensures !NoPair(ys[1..]) ==> HasLostPair(terms)
  {
    hide KindOfTerm, KindOf, IsPair;
    if !NoPair(ys[1..]) {
      var i :| IsPair(ys[1..], i);
      PairByKind(ys[1..], i);
      assert KindOfTerm(terms[i + 1]) == ConstructorTerm && KindOfTerm(terms[i + 2]) == DictTerm;
    }
  }

  lemma {:induction false} PairByKind(terms: seq<Expr>, i: int)
    ensures IsPair(terms, i) <==> 0 <= i < |terms| - 1 && KindOf(terms[i]) == ConstructorTerm && KindOf(terms[i + 1]) == DictTerm
  {
  }

  // ---- the depth limit -------------------------------------------------------------------------------------------

  /** The ordinary recursion enters every tail, one level deeper each time. */
  lemma {:induction false} TailsFit(node: ExprNode, d: nat)
    requires ExprOf(node, d, false).Ok?
    ensures d + Peels(node) < MAX_AST_DEPTH
    decreases node
  {
    if IsGroupedTail(node) { TailsFit(Tail(node), d + 1) by { TailIsBuilt(node, d + 1); } }
  }

  lemma {:induction false} TailIsBuilt(node: ExprNode, d: nat)
    requires IsGroupedTail(node) && Folded(node, d, false).Ok?
    ensures ExprOf(Tail(node), d, false).Ok? && PostfixesOf(Prefix(node), d, false).Ok?
  {
    var ys := OrdinaryTerms(node, d);
    var terms := TermsOf(node);
    PostfixesAre(terms, d, false);
    PostfixesTake(terms, |terms| - 1, d, false);
    assert AtomOf(terms[|terms| - 1].atom, d, false).Ok?;
  }

  /** What the ordinary recursion accepts, the shortcut accepts, at the same depth or a smaller one. */
  lemma {:induction false} ShortcutAcceptsMore(node: ExprNode, d: nat, d': nat)
    requires ExprOf(node, d', false).Ok? && d <= d'
    ensures ExprOf(node, d, true).Ok?
    decreases node, 3
  {
    if IsGroupedTail(node) {
      TailsFit(node, d');
      RebuiltIsAccepted(node, d + 1, d');
    } else {
      FoldedIsAccepted(node, d + 1, d' + 1);
    }
  }

  lemma {:induction false} RebuiltIsAccepted(node: ExprNode, d: nat, d': nat)
    requires ExprOf(node, d', false).Ok? && if IsGroupedTail(node) then d <= d' + 1 else d <= d'
    ensures Rebuilt(node, d).Ok?
    decreases node, 2
  {
    if IsGroupedTail(node) {
      TailIsBuilt(node, d' + 1);
      RebuiltIsAccepted(Tail(node), d, d' + 1);
      PostfixesAreAccepted(Prefix(node), d, d' + 1);
    } else {
      FoldedIsAccepted(node, d + 1, d' + 1);
    }
  }

  lemma {:induction false} FoldedIsAccepted(node: ExprNode, d: nat, d': nat)
    requires Folded(node, d', false).Ok? && d <= d'
    ensures Folded(node, d, true).Ok?
    decreases node, 1
  {
    UnaryIsAccepted(node.first, d, d');
    PartsAreAccepted(node.rest, d, d');
  }

  lemma {:induction false} PartsAreAccepted(operations: seq<Operation>, d: nat, d': nat)
    requires PartsOf(operations, d', false).Ok? && d <= d'
    ensures PartsOf(operations, d, true).Ok?
    decreases operations, 0
  {
    if operations != [] {
      OperandIsAccepted(operations[0], d, d');
      PartsAreAccepted(operations[1..], d, d');
    }
  }

  lemma {:induction false} OperandIsAccepted(operation: Operation, d: nat, d': nat)
    requires OperandOf(operation, d', false).Ok? && d <= d'
    ensures OperandOf(operation, d, true).Ok?
    decreases operation, 0
  {
    UnaryIsAccepted(operation.operand, d, d');
  }

  lemma {:induction false} UnaryIsAccepted(unary: Unary, d: nat, d': nat)
    requires UnaryOf(unary, d', false).Ok? && d <= d'
    ensures UnaryOf(unary, d, true).Ok?
    decreases unary, 0
  {
    var terms := unary.application.terms;
    PostfixesAreAccepted(terms, d, d');
    assert ApplicationOf(unary.application, d', false).Ok?;
    SomethingStays(PostfixesOf(terms, d, true).value);
  }

  lemma {:induction false} SomethingStays(terms: seq<Expr>)
    ensures GroupTerms(terms) == [] <==> terms == []
  {
  }

  lemma {:induction false} PostfixesAreAccepted(terms: seq<Postfix>, d: nat, d': nat)
    requires PostfixesOf(terms, d', false).Ok? && d <= d'
    ensures PostfixesOf(terms, d, true).Ok?
    decreases terms, 1
  {
    if terms != [] {
      PostfixIsAccepted(terms[0], d, d');
      PostfixesAreAccepted(terms[1..], d, d');
    }
  }

  lemma {:induction false} PostfixIsAccepted(term: Postfix, d: nat, d': nat)
    requires PostfixOf(term, d', false).Ok? && d <= d'
    ensures PostfixOf(term, d, true).Ok?
    decreases term, 0
  {
    match term.atom
    case Identifier(_, _) =>
    case Grouped(_, inner) => ShortcutAcceptsMore(inner, d, d');
    case Compound(_, _, items) => ExprsAreAccepted(items, d, d');
  }

  lemma {:induction false} ExprsAreAccepted(items: seq<ExprNode>, d: nat, d': nat)
    requires ExprsOf(items, d', false).Ok? && d <= d'
    ensures ExprsOf(items, d, true).Ok?
    decreases items, 4
  {
    if items != [] {
      ShortcutAcceptsMore(items[0], d, d');
      ExprsAreAccepted(items[1..], d, d');
    }
  }

  // ---- the result ----------------------------------------------------------------------------------------------

  /**
    Whenever the ordinary recursion succeeds, the shortcut does, with the same expression up to spans
    exactly if no application it peels joins a constructor and a dictionary behind its first term.
   */
  lemma {:induction false} ShortcutIsFaithful(node: ExprNode, depth: nat)
    requires ExprOf(node, depth, false).Ok?
    ensures ExprOf(node, depth, true).Ok?
    ensures Erased(ExprOf(node, depth, true).value) == Erased(ExprOf(node, depth, false).value) <==> Faithful(node)
  {
    ShortcutAcceptsMore(node, depth, depth);
    ExprsAgree(node, depth, depth);
  }

  /**
    `f Some {} (x)`: the ordinary recursion applies `f` to `Some {}`, the shortcut applies it to `Some`
    and to `{}`.
   */
  lemma {:induction false} PairIsTornApart(span: Span, node: ExprNode)
    requires node == ExprNode(span, Unary(Application([Postfix(Identifier("f", span), []), Postfix(Identifier("Some", span), []),
                                                   Postfix(Compound(span, DictForm([]), []), []),
                                                   Postfix(Grouped(span, ExprNode(span, Unary(Application([Postfix(Identifier("x", span), [])]), []), [])), [])]),
                                      []), [])
    ensures ExprOf(node, 0, false).Ok? && ExprOf(node, 0, true).Ok?
    ensures Erased(ExprOf(node, 0, true).value) != Erased(ExprOf(node, 0, false).value)
  {
    var terms := node.first.application.terms;
    assert KindOfTerm(terms[1]) == ConstructorTerm && KindOfTerm(terms[2]) == DictTerm;
    assert HasLostPair(TermsOf(node));
    var inner := terms[3].atom.inner;
    assert PostfixOf(inner.first.application.terms[0], 2, false).Ok?;
    ApplicationIsBuilt(inner, 1);
    assert terms[2].atom.items == [] && ExprsOf(terms[2].atom.items, 1, false).Ok?;
    assert AtomOf(terms[0].atom, 1, false).Ok? && AtomOf(terms[1].atom, 1, false).Ok? && AtomOf(terms[2].atom, 1, false).Ok?;
    assert AtomOf(terms[3].atom, 1, false).Ok?;
    ApplicationIsBuilt(node, 0);
    ShortcutIsFaithful(node, 0);
  }

  lemma {:induction false} ApplicationIsBuilt(node: ExprNode, depth: nat)
    requires depth < MAX_AST_DEPTH && node.rest == [] && node.first.application.terms != []
    requires forall i :: 0 <= i < |node.first.application.terms| ==> PostfixOf(node.first.application.terms[i], depth + 1, false).Ok?
    ensures ExprOf(node, depth, false).Ok?
  {
    var terms := node.first.application.terms;
    TermsAreBuilt(terms, depth + 1);
    SomethingStays(PostfixesOf(terms, depth + 1, false).value);
    assert ApplicationOf(node.first.application, depth + 1, false).Ok?;
    assert UnaryOf(node.first, depth + 1, false).Ok? && PartsOf(node.rest, depth + 1, false).Ok?;
    assert Folded(node, depth + 1, false).Ok?;
  }

  lemma {:induction false} TermsAreBuilt(terms: seq<Postfix>, depth: nat)
    requires forall i :: 0 <= i < |terms| ==> PostfixOf(terms[i], depth, false).Ok?
    ensures PostfixesOf(terms, depth, false).Ok?
  {
    if terms != [] { TermsAreBuilt(terms[1..], depth); }
  }
}

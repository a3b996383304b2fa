/** Expressions up to their spans, the kinds of terms, and what joining dictionaries to constructors does to a list of them. */
module GroupedTailTerms {
  import opened Pegs
  import opened OperatorFold
  import opened GroupedTail

  // ---- expressions up to their spans ----------------------------------------------------------------------------

  const NOWHERE := Span(Position(0, 0), Position(0, 0))

  function Erased(e: Expr): Expr {
    match e
    case Var(_, name) => Var(NOWHERE, name)
    case App(_, callee, argument) => App(NOWHERE, Erased(callee), Erased(argument))
    case Project(_, base, field) => Project(NOWHERE, Erased(base), field)
    case Ann(_, inner, typ) => Ann(NOWHERE, Erased(inner), typ)
    case Form(_, kind, parts) => Form(NOWHERE, kind, seq(|parts|, i requires 0 <= i < |parts| => Erased(parts[i])))
  }

  predicate Agree(a: Expr, b: Expr) { Erased(a) == Erased(b) }

  predicate AllAgree(xs: seq<Expr>, ys: seq<Expr>) {
    |xs| == |ys| && forall i :: 0 <= i < |xs| ==> Agree(xs[i], ys[i])
  }

  lemma {:induction false} AllAgreeSplit(xs: seq<Expr>, ys: seq<Expr>)
    requires xs != [] && ys != []
    ensures AllAgree(xs, ys) <==> Agree(xs[0], ys[0]) && AllAgree(xs[1..], ys[1..])
  {
    if Agree(xs[0], ys[0]) && AllAgree(xs[1..], ys[1..]) {
      forall i | 0 <= i < |xs| ensures Agree(xs[i], ys[i]) {
        if i > 0 { assert Agree(xs[1..][i - 1], ys[1..][i - 1]); }
      }
    }
    if AllAgree(xs, ys) {
      forall i | 0 <= i < |xs[1..]| ensures Agree(xs[1..][i], ys[1..][i]) { assert Agree(xs[i + 1], ys[i + 1]); }
    }
  }

  lemma {:induction false} FormsAgree(span: Span, span': Span, kind: FormKind, xs: seq<Expr>, ys: seq<Expr>)
    requires |xs| == |ys|
    ensures Agree(Form(span, kind, xs), Form(span', kind, ys)) <==> AllAgree(xs, ys)
  {
    var a, b := Erased(Form(span, kind, xs)).parts, Erased(Form(span', kind, ys)).parts;
    assert forall i :: 0 <= i < |xs| ==> a[i] == Erased(xs[i]) && b[i] == Erased(ys[i]);
    if AllAgree(xs, ys) {
      forall i | 0 <= i < |xs| ensures a[i] == b[i] { assert Agree(xs[i], ys[i]); }
      assert a == b;
    }
  }

  /** Forms built from the same keys agree exactly if the items that count do. */
  lemma {:induction false} MadeFormsAgree(span: Span, span': Span, kind: FormKind, xs: seq<Expr>, ys: seq<Expr>)
    requires |xs| == |ys|
    ensures Agree(MakeForm(span, kind, xs), MakeForm(span', kind, ys))
            <==> forall i :: 0 <= i < |xs| && Kept(kind, |xs|, i) ==> Agree(xs[i], ys[i])
  {
    KeptPartsAgree(kind, xs, ys, 0);
    FormsAgree(span, span', MakeForm(span, kind, xs).kind, KeptParts(kind, xs, 0), KeptParts(kind, ys, 0));
  }

  lemma {:induction false} KeptPartsAgree(kind: FormKind, xs: seq<Expr>, ys: seq<Expr>, i: nat)
    requires |xs| == |ys| && i <= |xs|
    ensures |KeptParts(kind, xs, i)| == |KeptParts(kind, ys, i)|
    ensures AllAgree(KeptParts(kind, xs, i), KeptParts(kind, ys, i))
            <==> forall j :: i <= j < |xs| && Kept(kind, |xs|, j) ==> Agree(xs[j], ys[j])
    decreases |xs| - i
  {
    if i < |xs| {
      hide Kept, Agree, AllAgree;
      KeptPartsAgree(kind, xs, ys, i + 1);
      if Kept(kind, |xs|, i) {
        AllAgreeSplit(KeptParts(kind, xs, i), KeptParts(kind, ys, i));
        assert KeptParts(kind, xs, i)[1..] == KeptParts(kind, xs, i + 1);
        assert KeptParts(kind, ys, i)[1..] == KeptParts(kind, ys, i + 1);
      } else {
        assert [] + KeptParts(kind, xs, i + 1) == KeptParts(kind, xs, i + 1);
        assert [] + KeptParts(kind, ys, i + 1) == KeptParts(kind, ys, i + 1);
      }
    } else {
      assert AllAgree([], []);
    }
  }

  lemma {:induction false} SpansDoNotMatter(e: Expr, span: Span)
    ensures Erased(WithSpan(e, span)) == Erased(e)
  {
  }

  lemma {:induction false} AppliedAgrees(begin: Position, begin': Position, b: Expr, c: Expr, xs: seq<Expr>, ys: seq<Expr>)
    requires |xs| == |ys|
    ensures Agree(Applied(begin, b, xs), Applied(begin', c, ys)) <==> Agree(b, c) && AllAgree(xs, ys)
    decreases |xs|
  {
    if xs != [] {
      var b', c' := App(Span(begin, xs[0].span.end), b, xs[0]), App(Span(begin', ys[0].span.end), c, ys[0]);
      AppliedAgrees(begin, begin', b', c', xs[1..], ys[1..]);
      AllAgreeSplit(xs, ys);
    }
  }

  lemma {:induction false} ProjectedAgrees(a: Expr, b: Expr, fields: seq<FieldName>)
    ensures Agree(Projected(a, fields), Projected(b, fields)) <==> Agree(a, b)
    decreases |fields|
  {
    if fields != [] {
      var f := fields[0];
      ProjectedAgrees(Project(Span(a.span.begin, f.end), a, f.name), Project(Span(b.span.begin, f.end), b, f.name), fields[1..]);
    }
  }

  lemma {:induction false} AnnotatedAgrees(a: Expr, b: Expr, annotations: seq<Annotation>)
    ensures Agree(Annotated(a, annotations), Annotated(b, annotations)) <==> Agree(a, b)
    decreases |annotations|
  {
    if annotations != [] {
      var n := annotations[0];
      AnnotatedAgrees(Ann(Span(a.span.begin, n.span.end), a, n.typ), Ann(Span(b.span.begin, n.span.end), b, n.typ), annotations[1..]);
    }
  }

  /** Chains with the same operators agree exactly if their operands do. */
  lemma {:induction false} GroupingAgrees(l: Tree, l': Tree, parts: seq<Part>, parts': seq<Part>, index: nat)
    requires |parts| == |parts'| && index <= |parts|
    requires forall i :: 0 <= i < |parts| ==> parts[i].operator == parts'[i].operator
    ensures Agree(Build(Grouping(l, parts, index)), Build(Grouping(l', parts', index))) <==>
            Agree(Build(l), Build(l')) && forall i :: index <= i < |parts| ==> Agree(parts[i].rhs, parts'[i].rhs)
    decreases |parts| - index
  {
    if index < |parts| {
      var op, r, r' := parts[index].operator, Operand(parts[index].rhs), Operand(parts'[index].rhs);
      if NextTakesPrecedence(parts, index) {
        GroupingAgrees(r, r', parts, parts', index + 1);
        BinaryAgrees(Build(l), Build(l'), op, Build(Grouping(r, parts, index + 1)), Build(Grouping(r', parts', index + 1)));
      } else {
        GroupingAgrees(Binary(l, op, r), Binary(l', op, r'), parts, parts', index + 1);
        BinaryAgrees(Build(l), Build(l'), op, Build(r), Build(r'));
      }
    }
  }

  lemma {:induction false} BinaryAgrees(a: Expr, a': Expr, op: OperatorToken, b: Expr, b': Expr)
    ensures Agree(MakeBinary(a, op, b), MakeBinary(a', op, b')) <==> Agree(a, a') && Agree(b, b')
  {
    ErasedBinary(a, op, b);
    ErasedBinary(a', op, b');
  }

  lemma {:induction false} ErasedBinary(a: Expr, op: OperatorToken, b: Expr)
    ensures Erased(MakeBinary(a, op, b)) == App(NOWHERE, App(NOWHERE, Var(NOWHERE, Name(op.op)), Erased(a)), Erased(b))
  {
    var head := MakeBinary(a, op, b).callee;
    assert Erased(head.callee) == Var(NOWHERE, Name(op.op));
    assert Erased(head) == App(NOWHERE, Var(NOWHERE, Name(op.op)), Erased(a));
  }

  // ---- what a term is, without building it --------------------------------------------------------------------

  datatype TermKind = ConstructorTerm | DictTerm | OtherTerm

  function KindOf(e: Expr): TermKind {
    if IsConstructorReference(e) then ConstructorTerm else if IsDict(e) then DictTerm else OtherTerm
  }

  function KindOfTerm(term: Postfix): TermKind
    decreases term
  {
    if term.fields != [] then
      if IsUppercase(term.fields[|term.fields| - 1].name) then ConstructorTerm else OtherTerm
    else
      match term.atom
      case Identifier(name, _) => if IsUppercase(name) then ConstructorTerm else OtherTerm
      case Grouped(_, inner) => KindOfNode(inner)
      case Compound(_, kind, _) => if kind.DictForm? then DictTerm else OtherTerm
  }

  function KindOfNode(node: ExprNode): TermKind
    decreases node
  {
    var unary := node.first;
    if node.rest != [] || unary.annotations != [] || |unary.application.terms| != 1 then OtherTerm
    else KindOfTerm(unary.application.terms[0])
  }

  // ---- joining, term by term -------------------------------------------------------------------------------------

  /** No constructor reference directly followed by a dictionary. */
  ghost predicate NoPair(terms: seq<Expr>) { forall i :: !IsPair(terms, i) }

  predicate SameKinds(xs: seq<Expr>, ys: seq<Expr>) {
    |xs| == |ys| && forall i :: 0 <= i < |xs| ==> KindOf(xs[i]) == KindOf(ys[i])
  }

  lemma {:induction false} GroupStepTo(terms: seq<Expr>, i: nat, m: nat)
    requires i < m <= |terms|
    ensures GroupTerms(terms[i..m])
              == if i + 1 < m && IsPair(terms, i) then [Joined(terms[i], terms[i + 1])] + GroupTerms(terms[i + 2..m])
                 else [terms[i]] + GroupTerms(terms[i + 1..m])
  {
    GroupStep(terms[..m], i);
    assert terms[..m][i..] == terms[i..m] && terms[..m][i + 1..] == terms[i + 1..m];
    if i + 1 < m { assert terms[..m][i + 2..] == terms[i + 2..m]; }
  }

  lemma {:induction false} NothingToGroup(terms: seq<Expr>, i: nat)
    requires i <= |terms|
    ensures terms[i..i] == [] && GroupTerms(terms[i..i]) == []
  {
  }

  /** What is done at the front is done alike whatever stands at the back. */
  lemma {:induction false} GroupFront(terms: seq<Expr>, i: nat, m: nat, n: nat, e: seq<Expr>)
    requires i < m <= n <= |terms| && (IsPair(terms, i) ==> i + 2 <= m)
    requires var k := if IsPair(terms, i) then i + 2 else i + 1; GroupTerms(terms[k..n]) == GroupTerms(terms[k..m]) + e
    ensures GroupTerms(terms[i..n]) == GroupTerms(terms[i..m]) + e
  {
    hide *;
    GroupStepTo(terms, i, m);
    GroupStepTo(terms, i, n);
    var k := if IsPair(terms, i) then i + 2 else i + 1;
    var head := if IsPair(terms, i) then [Joined(terms[i], terms[i + 1])] else [terms[i]];
    var rest := GroupTerms(terms[k..m]);
    assert head + (rest + e) == (head + rest) + e;
  }

  /** Joining works from the back just as well: a pair at the end is joined. */
  lemma {:induction false} GroupLastPair(terms: seq<Expr>, i: nat)
    requires i <= |terms| - 2 && IsPair(terms, |terms| - 2)
    ensures var n := |terms|;
            GroupTerms(terms[i..n]) == GroupTerms(terms[i..n - 2]) + [Joined(terms[n - 2], terms[n - 1])]
    decreases |terms| - i
  {
    var n := |terms|;
    if i == n - 2 {
      hide *;
      GroupStepTo(terms, i, n);
      NothingToGroup(terms, n);
      NothingToGroup(terms, n - 2);
    } else {
      assert IsPair(terms, i) ==> i + 2 <= n - 2;
      hide *;
      GroupLastPair(terms, if IsPair(terms, i) then i + 2 else i + 1);
      GroupFront(terms, i, n - 2, n, [Joined(terms[n - 2], terms[n - 1])]);
    }
  }

  /** And a last term that is not part of one stays as it is. */
  lemma {:induction false} GroupLastSingle(terms: seq<Expr>, i: nat)
    requires i < |terms| && !IsPair(terms, |terms| - 2)
    ensures var n := |terms|; GroupTerms(terms[i..n]) == GroupTerms(terms[i..n - 1]) + [terms[n - 1]]
    decreases |terms| - i
  {
    var n := |terms|;
    if i == n - 1 {
      hide *;
      GroupStepTo(terms, i, n);
      NothingToGroup(terms, n);
      NothingToGroup(terms, n - 1);
    } else {
      assert IsPair(terms, i) ==> i + 2 <= n - 1;
      hide *;
      GroupLastSingle(terms, if IsPair(terms, i) then i + 2 else i + 1);
      GroupFront(terms, i, n - 1, n, [terms[n - 1]]);
    }
  }

  lemma {:induction false} AppliedLast(begin: Position, base: Expr, args: seq<Expr>, last: Expr)
    ensures Applied(begin, base, args + [last]) == App(Span(begin, last.span.end), Applied(begin, base, args), last)
    decreases |args|
  {
    if args == [] {
      assert ([] + [last])[1..] == [];
    } else {
      assert (args + [last])[1..] == args[1..] + [last];
      AppliedLast(begin, App(Span(begin, args[0].span.end), base, args[0]), args[1..], last);
    }
  }

  /** Unjoined arguments agree with joined ones exactly if they agree and there was nothing to join. */
  lemma {:induction false} UnjoinedAgrees(p: Position, q: Position, b: Expr, c: Expr, xs: seq<Expr>, ys: seq<Expr>)
    requires SameKinds(xs, ys)
    ensures Agree(Applied(p, b, xs), Applied(q, c, GroupTerms(ys))) <==> Agree(b, c) && AllAgree(xs, ys) && NoPair(ys)
    decreases |ys|
  {
    if ys != [] {
      var n := |ys|;
      var xs', x, ys', y := xs[..n - 1], xs[n - 1], ys[..n - 1], ys[n - 1];
      assert xs == xs' + [x] && ys[0..n] == ys && ys[0..n - 1] == ys';
      if IsPair(ys, n - 2) {
        assert IsDict(x) by { assert KindOf(x) == KindOf(y) == DictTerm; }
        PairIsLost(ys, n - 2);
        hide *;
        var front, pair := GroupTerms(ys[0..n - 2]), Joined(ys[n - 2], y);
        GroupLastPair(ys, 0);
        AppliedLast(p, b, xs', x);
        AppliedLast(q, c, front, pair);
        DictIsNoPair(x, ys[n - 2], y);
        ApplicationsAgree(Applied(p, b, xs'), x, Applied(q, c, front), pair, p, x.span.end, q, pair.span.end);
      } else {
        assert SameKinds(xs', ys');
        hide *;
        GroupLastSingle(ys, 0);
        AppliedLast(p, b, xs', x);
        AppliedLast(q, c, GroupTerms(ys'), y);
        ApplicationsAgree(Applied(p, b, xs'), x, Applied(q, c, GroupTerms(ys')), y, p, x.span.end, q, y.span.end);
        UnjoinedAgrees(p, q, b, c, xs', ys');
        UnjoinedLast(xs, ys);
      }
    } else {
      NothingToGroup(ys, 0);
      assert ys[0..0] == ys;
    }
  }

  lemma {:induction false} PairIsLost(ys: seq<Expr>, i: int)
    requires IsPair(ys, i)
    ensures !NoPair(ys)
  {
  }

  lemma {:induction false} DictIsNoPair(x: Expr, a: Expr, b: Expr)
    requires IsDict(x)
    ensures !Agree(x, Joined(a, b))
  {
  }

  lemma {:induction false} ApplicationsAgree(f: Expr, x: Expr, g: Expr, y: Expr, p: Position, p': Position, q: Position, q': Position)
    ensures Agree(App(Span(p, p'), f, x), App(Span(q, q'), g, y)) <==> Agree(f, g) && Agree(x, y)
  {
  }

  lemma {:induction false} UnjoinedLast(xs: seq<Expr>, ys: seq<Expr>)
    requires |xs| == |ys| >= 1 && !IsPair(ys, |ys| - 2)
    ensures var n := |ys|;
            AllAgree(xs, ys) && NoPair(ys) <==>
            Agree(xs[n - 1], ys[n - 1]) && AllAgree(xs[..n - 1], ys[..n - 1]) && NoPair(ys[..n - 1])
  {
    var n := |ys|;
    if AllAgree(xs[..n - 1], ys[..n - 1]) && Agree(xs[n - 1], ys[n - 1]) {
      forall i | 0 <= i < n ensures Agree(xs[i], ys[i]) { if i < n - 1 { assert Agree(xs[..n - 1][i], ys[..n - 1][i]); } }
    }
    if !NoPair(ys) {
      var i :| IsPair(ys, i);
      assert IsPair(ys[..n - 1], i);
    }
    if !NoPair(ys[..n - 1]) {
      var i :| IsPair(ys[..n - 1], i);
      assert IsPair(ys, i);
    }
    if AllAgree(xs, ys) {
      var xs', ys' := xs[..n - 1], ys[..n - 1];
      forall i | 0 <= i < |xs'| ensures Agree(xs'[i], ys'[i]) { assert Agree(xs[i], ys[i]); }
    }
  }

  /** The terms applied as they are, against the terms joined and applied. */
  lemma {:induction false} ShortcutAgrees(p: Position, q: Position, xs: seq<Expr>, ys: seq<Expr>)
    requires SameKinds(xs, ys) && ys != []
    ensures var grouped := GroupTerms(ys);
            grouped != [] && (Agree(Applied(p, xs[0], xs[1..]), Applied(q, grouped[0], grouped[1..])) <==>
                              AllAgree(xs, ys) && NoPair(ys[1..]))
  {
    var grouped := GroupTerms(ys);
    AllAgreeSplit(xs, ys);
    if IsPair(ys, 0) {
      var b, c := App(Span(p, xs[1].span.end), xs[0], xs[1]), Joined(ys[0], ys[1]);
      assert grouped == [c] + GroupTerms(ys[2..]) && grouped[1..] == GroupTerms(ys[2..]);
      assert xs[1..][0] == xs[1] && xs[1..][1..] == xs[2..] && ys[1..][1..] == ys[2..];
      assert Applied(p, xs[0], xs[1..]) == Applied(p, b, xs[2..]);
      UnjoinedAgrees(p, q, b, c, xs[2..], ys[2..]);
      AllAgreeSplit(xs[1..], ys[1..]);
      NoPairBehindDict(ys);
    } else {
      assert grouped == [ys[0]] + GroupTerms(ys[1..]) && grouped[1..] == GroupTerms(ys[1..]);
      UnjoinedAgrees(p, q, xs[0], ys[0], xs[1..], ys[1..]);
    }
  }

  lemma {:induction false} NoPairBehindDict(ys: seq<Expr>)
    requires |ys| >= 2 && IsDict(ys[1])
    ensures NoPair(ys[1..]) <==> NoPair(ys[2..])
  {
    if !NoPair(ys[1..]) {
      var i :| IsPair(ys[1..], i);
      assert IsPair(ys[2..], i - 1);
    }
    if !NoPair(ys[2..]) {
      var i :| IsPair(ys[2..], i);
      assert IsPair(ys[1..], i + 1);
    }
  }

  /** Joined on both sides, lists agree exactly if their terms do. */
  lemma {:induction false} JoinedAgree(xs: seq<Expr>, ys: seq<Expr>)
    requires SameKinds(xs, ys)
    ensures |GroupTerms(xs)| == |GroupTerms(ys)| && (AllAgree(GroupTerms(xs), GroupTerms(ys)) <==> AllAgree(xs, ys))
    decreases |xs|
  {
    if xs != [] {
      AllAgreeSplit(xs, ys);
      AllAgreeSplit(GroupTerms(xs), GroupTerms(ys));
      if IsPair(xs, 0) {
        assert IsPair(ys, 0);
        assert xs[1..][1..] == xs[2..] && ys[1..][1..] == ys[2..];
        AllAgreeSplit(xs[1..], ys[1..]);
        JoinedAgree(xs[2..], ys[2..]);
        assert GroupTerms(xs)[1..] == GroupTerms(xs[2..]) && GroupTerms(ys)[1..] == GroupTerms(ys[2..]);
        assert Agree(Joined(xs[0], xs[1]), Joined(ys[0], ys[1])) <==> Agree(xs[0], ys[0]) && Agree(xs[1], ys[1]);
      } else {
        assert !IsPair(ys, 0);
        JoinedAgree(xs[1..], ys[1..]);
        assert GroupTerms(xs)[1..] == GroupTerms(xs[1..]) && GroupTerms(ys)[1..] == GroupTerms(ys[1..]);
      }
    }
  }
}

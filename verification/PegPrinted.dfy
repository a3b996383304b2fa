/** The packrat machine at work on the notation: it always halts, and it reads back what was printed. */
module PegPrinted {
  import opened Wrappers
  import opened Pegs
  import opened PegSemantics
  import opened PegMachine
  import opened PegAdequacy
  import opened PegTermination
  import opened PegRules
  import opened PegSyntax
  import opened PegFlattening
  import opened PegRoundTrip

  const TERMINALS: set<TerminalKind> :=
    {IdentT, TextT, CommentLineT, CutT, LabelT, ArrowT, SlashT, StarT, PlusT, QuestionT, AmpT, BangT, ParenLT, ParenRT,
     CommaT, NewlineT}

  function Rank(rule: RuleKind): nat {
    match rule
    case GrammarR => 6
    case ItemR => 1
    case ChoiceR => 5
    case SequenceR => 4
    case PrefixR => 3
    case PostfixR => 2
    case AtomR => 1
    case _ => 0
  }

  /** No rule of the notation is nullable, and only the end of input matches without being consumed. */
  function NotationRanking(): Ranking<RuleKind, TerminalKind> {
    Ranking(TERMINALS, {}, Rank, 7)
  }

  /** Nothing behind a first item that consumes is reached before something is consumed. */
  lemma {:induction false} FirstConsumes(w: Ranking<RuleKind, TerminalKind>, items: seq<Expr>, bound: nat)
    requires items != [] && !Nullable(w, items[0]) && Below(w, items[0], bound)
    ensures !Nullable(w, Seq(items)) && Below(w, Seq(items), bound)
  {
  }

  lemma {:induction false} GrammarRanked(w: Ranking<RuleKind, TerminalKind>, items: seq<Expr>, bound: nat)
    requires |items| >= 2 && items[0].Repeat? && items[0].item.Token? && !Nullable(w, items[1]) && Below(w, items[1], bound)
    ensures !Nullable(w, Seq(items)) && Below(w, Seq(items), bound)
  {
  }

  predicate Consuming(w: Ranking<RuleKind, TerminalKind>, e: Expr, bound: nat) { !Nullable(w, e) && Below(w, e, bound) }

  lemma {:induction false} ChoiceRanked(w: Ranking<RuleKind, TerminalKind>, alternatives: seq<Expr>, bound: nat)
    requires forall i :: 0 <= i < |alternatives| ==> Consuming(w, alternatives[i], bound)
    ensures Consuming(w, Choice(alternatives), bound)
  {
  }

  lemma {:induction false} PrefixRanked(w: Ranking<RuleKind, TerminalKind>, a: seq<Expr>, b: seq<Expr>, c: Expr, bound: nat)
    requires a != [] && Consuming(w, a[0], bound) && b != [] && Consuming(w, b[0], bound) && Consuming(w, c, bound)
    ensures Consuming(w, Choice([Seq(a), Seq(b), c]), bound)
  {
    FirstConsumes(w, a, bound);
    FirstConsumes(w, b, bound);
    assert Consuming(w, Seq(a), bound) && Consuming(w, Seq(b), bound);
    hide Consuming;
    ChoiceRanked(w, [Seq(a), Seq(b), c], bound);
  }

  lemma {:induction false} BodyRanked(rule: RuleKind)
    ensures !Nullable(NotationRanking(), Body(rule)) && Below(NotationRanking(), Body(rule), Rank(rule))
  {
    var w := NotationRanking();
    if rule == GrammarR {
      GrammarRanked(w, Body(rule).items, Rank(rule));
    } else if rule == PrefixR {
      PrefixRanked(w, [Token(AmpT), Rule(PrefixR)], [Token(BangT), Rule(PrefixR)], Rule(PostfixR), Rank(rule));
    } else if rule == ItemR || rule == AtomR {
      ChoiceRanked(w, Body(rule).alternatives, Rank(rule));
    } else if Body(rule).Seq? {
      FirstConsumes(w, Body(rule).items, Rank(rule));
    }
  }

  lemma {:induction false} NotationRanked(tokens: seq<SyntaxToken>, eof: SyntaxToken)
    requires eof.kind.Eof?
    ensures Ranked(Notation(tokens, eof), NotationRanking())
  {
    hide Body, Nullable, Below;
    forall rule ensures !Nullable(NotationRanking(), Body(rule)) && Below(NotationRanking(), Body(rule), Rank(rule)) {
      BodyRanked(rule);
    }
  }

  /** The notation's parser halts on every sequence of tokens. */
  lemma {:induction false} NotationHalts(tokens: seq<SyntaxToken>, eof: SyntaxToken, e: Expr, pos: nat)
    requires eof.kind.Eof? && pos <= |tokens|
    ensures exists n: nat :: Halted(Run(Notation(tokens, eof), Start(e, pos, map[]), n))
  {
    NotationRanked(tokens, eof);
    RankedMachineHalts(Notation(tokens, eof), NotationRanking(), e, pos);
  }

  /** On the tokens printed for an expression, the machine ends with a tree that resolves to it, flattened. */
  lemma {:induction false} MachineReadsBack(tokens: seq<SyntaxToken>, eof: SyntaxToken, e: Expr, n: nat)
    requires eof.kind.Eof? && Printable(e)
    requires |tokens| == |Render(e, ChoiceP)| && forall i :: 0 <= i < |tokens| ==> tokens[i].kind == Render(e, ChoiceP)[i]
    requires Halted(Run(Notation(tokens, eof), Start(Rule(ChoiceR), 0, map[]), n))
    ensures var c := Run(Notation(tokens, eof), Start(Rule(ChoiceR), 0, map[]), n);
            && c.cursor == |tokens| && c.work.Ready? && c.work.out.Ok? && |c.work.out.value| == 1
            && var node := c.work.out.value[0];
            && node.Node? && ChoiceFromCst(node.children).Some?
            && ResolveExpr(ChoiceFromCst(node.children).value) == Ok(Flat(e))
  {
    hide Step, Halted;
    var node := RoundTrip(tokens, eof, e);
    var g := Notation(tokens, eof);
    var fuel: nat :| Parse(g, Rule(ChoiceR), 0, fuel) == Some(Res(Ok([node]), |tokens|));
    HaltsIffDefined(g, Rule(ChoiceR), 0, map[]);
  }
}

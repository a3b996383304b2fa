/** The notation's grammar at work: which tokens stand where, and which rules cannot begin there. */
module PegNotation {
  import opened Wrappers
  import opened Pegs
  import opened PegSemantics
  import opened PegRules
  import opened PegSyntax

  type Notated = Language<RuleKind, TerminalKind, SyntaxToken>

  /** The notation's grammar over some tokens. */
  ghost predicate IsNotation(g: Notated) {
    g == Notation(g.tokens, g.eof) && g.eof.kind.Eof?
  }

  function KindAt(g: Notated, pos: nat): TokenKind { g.TokenAt(pos).kind }

  /** Tokens of these kinds stand at the position. */
  ghost predicate Spells(g: Notated, pos: nat, kinds: seq<TokenKind>) {
    pos + |kinds| <= |g.tokens| && forall i :: 0 <= i < |kinds| ==> g.tokens[pos + i].kind == kinds[i]
  }

  /** Where an expression can begin, and what can follow an atom as part of it. */
  predicate Starts(kind: TokenKind) {
    kind.Ident? || kind.CutWord? || kind.LabelWord? || kind.Amp? || kind.Bang? || kind.ParenL?
  }

  predicate IsSuffix(kind: TokenKind) { kind.Question? || kind.Star? || kind.Plus? }

  lemma {:induction false} SpellsParts(g: Notated, pos: nat, a: seq<TokenKind>, b: seq<TokenKind>)
    requires Spells(g, pos, a + b)
    ensures Spells(g, pos, a) && Spells(g, pos + |a|, b)
  {
    forall i | 0 <= i < |a| ensures g.tokens[pos + i].kind == a[i] { assert (a + b)[i] == a[i]; }
    forall i | 0 <= i < |b| ensures g.tokens[pos + |a| + i].kind == b[i] { assert (a + b)[|a| + i] == b[i]; }
  }

  lemma {:induction false} SpellsHead(g: Notated, pos: nat, kind: TokenKind, rest: seq<TokenKind>)
    requires Spells(g, pos, [kind] + rest)
    ensures pos < |g.tokens| && KindAt(g, pos) == kind && Spells(g, pos + 1, rest)
  {
    SpellsParts(g, pos, [kind], rest);
    assert g.tokens[pos + 0].kind == [kind][0];
  }

  lemma {:induction false} SpellsLast(g: Notated, pos: nat, front: seq<TokenKind>, kind: TokenKind)
    requires Spells(g, pos, front + [kind])
    ensures Spells(g, pos, front) && pos + |front| < |g.tokens| && KindAt(g, pos + |front|) == kind
  {
    SpellsParts(g, pos, front, [kind]);
    assert g.tokens[pos + |front| + 0].kind == [kind][0];
  }

  // ---- the printed form begins where an expression can begin --------------------------------------------

  lemma {:induction false} RenderStarts(e: Expr, context: Precedence)
    requires Printable(e)
    ensures Render(e, context) != [] && Starts(Render(e, context)[0])
    decreases e, 1
  {
    RenderBareStarts(e);
  }

  lemma {:induction false} RenderBareStarts(e: Expr)
    requires Printable(e)
    ensures RenderBare(e) != [] && Starts(RenderBare(e)[0])
    decreases e, 0
  {
    if e.Seq? { RenderStarts(e.items[0], SequenceP); }
    else if e.Choice? { RenderStarts(e.alternatives[0], ChoiceP); }
    else if e.Optional? || e.Repeat? || e.Repeat1? { RenderStarts(e.item, AtomP); }
  }

  // ---- the notation's rules ---------------------------------------------------------------------------------

  lemma {:induction false} TokenHere(g: Notated, terminal: TerminalKind, pos: nat)
    requires IsNotation(g) && pos < |g.tokens| && Matches(terminal, KindAt(g, pos)) && !KindAt(g, pos).Eof?
    ensures Gives(g, Token(terminal), pos, [Leaf(g.tokens[pos])], pos + 1)
  {
    TokenGives(g, terminal, pos);
  }

  lemma {:induction false} TokenNotHere(g: Notated, terminal: TerminalKind, pos: nat)
    requires IsNotation(g) && pos <= |g.tokens| && !Matches(terminal, KindAt(g, pos))
    ensures Fails(g, Token(terminal), pos)
  {
    TokenFails(g, terminal, pos);
  }

  lemma {:induction false} BodyGives(g: Notated, rule: RuleKind, pos: nat, trees: seq<Tree>, at: nat)
    requires IsNotation(g) && Gives(g, Body(rule), pos, trees, at)
    ensures Gives(g, Rule(rule), pos, [Node(rule, g.SpanBetween(pos, at), trees)], at)
  {
    assert rule in ALL_RULES;
    RuleGives(g, rule, pos, trees, at);
  }

  lemma {:induction false} BodyFails(g: Notated, rule: RuleKind, pos: nat)
    requires IsNotation(g) && Fails(g, Body(rule), pos)
    ensures Fails(g, Rule(rule), pos)
  {
    assert rule in ALL_RULES;
    RuleFails(g, rule, pos);
  }

  /** What a node of the rule is read as. */
  function FromCst(rule: RuleKind, trees: seq<Tree>): Option<SyntaxExpr> {
    match rule
    case ChoiceR => ChoiceFromCst(trees)
    case SequenceR => SequenceFromCst(trees)
    case PrefixR => PrefixFromCst(trees)
    case PostfixR => PostfixFromCst(trees)
    case AtomR => AtomFromCst(trees)
    case _ => None
  }

  /** The rule succeeds from `pos` to `at` with a node that is read as the expression. */
  ghost predicate Reads(g: Notated, rule: RuleKind, pos: nat, at: nat, s: SyntaxExpr) {
    pos < at && exists node: Tree :: ReadsWith(g, rule, pos, at, s, node)
  }

  ghost predicate ReadsWith(g: Notated, rule: RuleKind, pos: nat, at: nat, s: SyntaxExpr, node: Tree) {
    node.Node? && node.rule == rule && FromCst(rule, node.children) == Some(s) && Gives(g, Rule(rule), pos, [node], at)
  }

  lemma {:induction false} ReadsBody(g: Notated, rule: RuleKind, pos: nat, trees: seq<Tree>, at: nat, s: SyntaxExpr)
    requires IsNotation(g) && pos < at && Gives(g, Body(rule), pos, trees, at) && FromCst(rule, trees) == Some(s)
    ensures Reads(g, rule, pos, at, s)
  {
    BodyGives(g, rule, pos, trees, at);
    assert ReadsWith(g, rule, pos, at, s, Node(rule, g.SpanBetween(pos, at), trees));
  }

  // ---- what does not begin an expression is not one -----------------------------------------------------------

  lemma {:induction false} FirstTokenFails(g: Notated, items: seq<Expr>, pos: nat)
    requires IsNotation(g) && pos <= |g.tokens| && items != [] && items[0].Token? && !Matches(items[0].kind, KindAt(g, pos))
    ensures Fails(g, Seq(items), pos)
  {
    TokenNotHere(g, items[0].kind, pos);
    SeqFails(g, items, pos);
  }

  lemma {:induction false} CutNotHere(g: Notated, pos: nat)
    requires IsNotation(g) && pos <= |g.tokens| && !KindAt(g, pos).CutWord?
    ensures Fails(g, Rule(CutR), pos)
  {
    FirstTokenFails(g, Body(CutR).items, pos);
    BodyFails(g, CutR, pos);
  }

  lemma {:induction false} LabelNotHere(g: Notated, pos: nat)
    requires IsNotation(g) && pos <= |g.tokens| && !KindAt(g, pos).LabelWord?
    ensures Fails(g, Rule(LabelR), pos)
  {
    FirstTokenFails(g, Body(LabelR).items, pos);
    BodyFails(g, LabelR, pos);
  }

  lemma {:induction false} NameNotHere(g: Notated, pos: nat)
    requires IsNotation(g) && pos <= |g.tokens| && !KindAt(g, pos).Ident?
    ensures Fails(g, Rule(NameR), pos)
  {
    TokenNotHere(g, IdentT, pos);
    BodyFails(g, NameR, pos);
  }

  lemma {:induction false} GroupNotHere(g: Notated, pos: nat)
    requires IsNotation(g) && pos <= |g.tokens| && !KindAt(g, pos).ParenL?
    ensures Fails(g, Rule(GroupR), pos)
  {
    FirstTokenFails(g, Body(GroupR).items, pos);
    BodyFails(g, GroupR, pos);
  }

  lemma {:induction false} AtomNotHere(g: Notated, pos: nat)
    requires IsNotation(g) && pos <= |g.tokens| && !Starts(KindAt(g, pos))
    ensures Fails(g, Rule(AtomR), pos)
  {
    CutNotHere(g, pos);
    LabelNotHere(g, pos);
    NameNotHere(g, pos);
    GroupNotHere(g, pos);
    assert Body(AtomR) == Choice([Rule(CutR), Rule(LabelR), Rule(NameR), Rule(GroupR)]);
    ChoiceFails(g, [Rule(CutR), Rule(LabelR), Rule(NameR), Rule(GroupR)], pos);
    BodyFails(g, AtomR, pos);
  }

  const SUFFIX: Expr := Choice([Token(QuestionT), Token(StarT), Token(PlusT)])
  const AND_PREFIX: Expr := Seq([Token(AmpT), Rule(PrefixR)])
  const NOT_PREFIX: Expr := Seq([Token(BangT), Rule(PrefixR)])
  const SLASHED: Expr := Seq([Token(SlashT), Rule(SequenceR)])

  lemma {:induction false} PrefixNotHere(g: Notated, pos: nat)
    requires IsNotation(g) && pos <= |g.tokens| && !Starts(KindAt(g, pos))
    ensures Fails(g, Rule(PrefixR), pos)
  {
    AtomNotHere(g, pos);
    assert Body(PostfixR) == Seq([Rule(AtomR), Repeat(SUFFIX)]);
    SeqFails(g, [Rule(AtomR), Repeat(SUFFIX)], pos);
    BodyFails(g, PostfixR, pos);
    FirstTokenFails(g, AND_PREFIX.items, pos);
    FirstTokenFails(g, NOT_PREFIX.items, pos);
    assert Body(PrefixR) == Choice([AND_PREFIX, NOT_PREFIX, Rule(PostfixR)]);
    ChoiceFails(g, [AND_PREFIX, NOT_PREFIX, Rule(PostfixR)], pos);
    BodyFails(g, PrefixR, pos);
  }

  lemma {:induction false} SuffixNotHere(g: Notated, pos: nat)
    requires IsNotation(g) && pos <= |g.tokens| && !IsSuffix(KindAt(g, pos))
    ensures Fails(g, SUFFIX, pos)
  {
    TokenNotHere(g, QuestionT, pos);
    TokenNotHere(g, StarT, pos);
    TokenNotHere(g, PlusT, pos);
    ChoiceFails(g, SUFFIX.alternatives, pos);
  }
}

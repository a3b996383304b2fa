/** The notation's rules, one by one: what parsing with each yields, and what is read off its tree. */
module PegReading {
  import opened Wrappers
  import opened Pegs
  import opened PegSemantics
  import opened PegRules
  import opened PegSyntax
  import opened PegNotation

  lemma {:induction false} RuleBodies()
    ensures Body(ChoiceR) == Seq([Rule(SequenceR), Repeat(SLASHED)])
    ensures Body(SequenceR) == Repeat1(Rule(PrefixR))
    ensures Body(PrefixR) == Choice([AND_PREFIX, NOT_PREFIX, Rule(PostfixR)])
    ensures Body(PostfixR) == Seq([Rule(AtomR), Repeat(SUFFIX)])
  {
  }

  // ---- atoms ------------------------------------------------------------------------------------------------

  /** The alternative of `Atom` that the first token selects. */
  lemma {:induction false} AtomAlternative(g: Notated, rule: RuleKind, pos: nat, node: Tree, at: nat)
    requires IsNotation(g) && pos <= |g.tokens| && Gives(g, Rule(rule), pos, [node], at)
    requires || (rule == CutR && KindAt(g, pos).CutWord?) || (rule == LabelR && KindAt(g, pos).LabelWord?)
             || (rule == NameR && KindAt(g, pos).Ident?) || (rule == GroupR && KindAt(g, pos).ParenL?)
    ensures Gives(g, Body(AtomR), pos, [node], at)
  {
    var rules := [Rule(CutR), Rule(LabelR), Rule(NameR), Rule(GroupR)];
    assert Body(AtomR) == Choice(rules);
    hide Body, Gives, Fails, ChoiceGives;
    if rule == GroupR {
      ChoiceHere(g, rules, 3, pos, [node], at);
      NameNotHere(g, pos);
      ChoiceNext(g, rules, 2, pos, [node], at);
    } else if rule == NameR {
      ChoiceHere(g, rules, 2, pos, [node], at);
    }
    if rule == GroupR || rule == NameR {
      LabelNotHere(g, pos);
      ChoiceNext(g, rules, 1, pos, [node], at);
    } else if rule == LabelR {
      ChoiceHere(g, rules, 1, pos, [node], at);
    }
    if rule == CutR {
      ChoiceHere(g, rules, 0, pos, [node], at);
    } else {
      CutNotHere(g, pos);
      ChoiceNext(g, rules, 0, pos, [node], at);
    }
    ChoiceDone(g, rules, pos, [node], at);
  }

  lemma {:induction false} NameReads(g: Notated, pos: nat)
    requires IsNotation(g) && pos < |g.tokens| && KindAt(g, pos).Ident?
    ensures Reads(g, AtomR, pos, pos + 1, NameE(KindAt(g, pos).name))
  {
    var leaf: Tree := Leaf(g.tokens[pos]);
    TokenHere(g, IdentT, pos);
    BodyGives(g, NameR, pos, [leaf], pos + 1);
    var node := Node(NameR, g.SpanBetween(pos, pos + 1), [leaf]);
    AtomAlternative(g, NameR, pos, node, pos + 1);
    ReadsBody(g, AtomR, pos, [node], pos + 1, NameE(KindAt(g, pos).name));
  }

  /** `open`, a choice, `)`. */
  lemma {:induction false} BracketedFrom(g: Notated, items: seq<Expr>, pos: nat, at: nat, s: SyntaxExpr)
    returns (node: Tree, trees: seq<Tree>)
    requires IsNotation(g) && at < |g.tokens| && KindAt(g, at).ParenR?
    requires Reads(g, ChoiceR, pos, at, s)
    requires |items| >= 2 && items[|items| - 2] == Rule(ChoiceR) && items[|items| - 1] == Token(ParenRT)
    ensures trees == [node, Leaf(g.tokens[at])] && SeqGives(g, items, |items| - 2, pos, trees, at + 1)
    ensures node.Node? && node.rule == ChoiceR && FromCst(ChoiceR, node.children) == Some(s)
  {
    node := NodeOf(g, ChoiceR, pos, at, s);
    TokenHere(g, ParenRT, at);
    var leaf: Tree := Leaf(g.tokens[at]);
    hide Gives, SeqGives;
    SeqLast(g, items, |items| - 1, at, [leaf], at + 1);
    SeqMore(g, items, |items| - 2, pos, [node], at, [leaf], at + 1);
    trees := [node] + [leaf];
  }

  lemma {:induction false} GroupReads(g: Notated, pos: nat, at: nat, s: SyntaxExpr)
    requires IsNotation(g) && at < |g.tokens| && KindAt(g, pos).ParenL? && KindAt(g, at).ParenR?
    requires Reads(g, ChoiceR, pos + 1, at, s)
    ensures Reads(g, AtomR, pos, at + 1, s)
  {
    var items := [Token(ParenLT), Rule(ChoiceR), Token(ParenRT)];
    assert Body(GroupR) == Seq(items);
    assert pos + 1 < at;
    TokenHere(g, ParenLT, pos);
    var leaf: Tree := Leaf(g.tokens[pos]);
    hide FromCst, Reads, Gives, SeqGives, Body;
    var choice, trees := BracketedFrom(g, items, pos + 1, at, s);
    SeqMore(g, items, 0, pos, [leaf], pos + 1, trees, at + 1);
    SeqDone(g, items, pos, [leaf] + trees, at + 1);
    BodyGives(g, GroupR, pos, [leaf] + trees, at + 1);
    var node := Node(GroupR, g.SpanBetween(pos, at + 1), [leaf] + trees);
    AtomAlternative(g, GroupR, pos, node, at + 1);
    GroupTree(node, leaf, choice, trees[1], s);
    ReadsBody(g, AtomR, pos, [node], at + 1, s);
  }

  lemma {:induction false} GroupTree(node: Tree, opening: Tree, choice: Tree, closing: Tree, s: SyntaxExpr)
    requires node.Node? && node.rule == GroupR && node.children == [opening] + [choice, closing] && opening.Leaf?
    requires choice.Node? && choice.rule == ChoiceR && FromCst(ChoiceR, choice.children) == Some(s)
    ensures FromCst(AtomR, [node]) == Some(s)
  {
    assert node.children[1..] == [choice, closing];
    assert FirstRule(node.children, ChoiceR) == Some(choice);
    assert AtomFromCst([node]) == Some(s);
  }

  lemma {:induction false} CutReads(g: Notated, pos: nat, at: nat, s: SyntaxExpr)
    requires IsNotation(g) && at < |g.tokens| && pos + 1 < at
    requires KindAt(g, pos).CutWord? && KindAt(g, pos + 1).ParenL? && KindAt(g, at).ParenR?
    requires Reads(g, ChoiceR, pos + 2, at, s)
    ensures Reads(g, AtomR, pos, at + 1, CutE(s))
  {
    var items := [Token(CutT), Token(ParenLT), Rule(ChoiceR), Token(ParenRT)];
    assert Body(CutR) == Seq(items);
    TokenHere(g, CutT, pos);
    TokenHere(g, ParenLT, pos + 1);
    var cut, open: Tree := Leaf(g.tokens[pos]), Leaf(g.tokens[pos + 1]);
    hide FromCst, Reads, Gives, SeqGives, Body;
    var choice, trees := BracketedFrom(g, items, pos + 2, at, s);
    SeqMore(g, items, 1, pos + 1, [open], pos + 2, trees, at + 1);
    SeqMore(g, items, 0, pos, [cut], pos + 1, [open] + trees, at + 1);
    var all := [cut] + ([open] + trees);
    SeqDone(g, items, pos, all, at + 1);
    BodyGives(g, CutR, pos, all, at + 1);
    var node := Node(CutR, g.SpanBetween(pos, at + 1), all);
    AtomAlternative(g, CutR, pos, node, at + 1);
    CutTree(node, cut, open, choice, trees[1], s);
    ReadsBody(g, AtomR, pos, [node], at + 1, CutE(s));
  }

  lemma {:induction false} CutTree(node: Tree, cut: Tree, opening: Tree, choice: Tree, closing: Tree, s: SyntaxExpr)
    requires node.Node? && node.rule == CutR && node.children == [cut] + ([opening] + [choice, closing])
    requires cut.Leaf? && opening.Leaf?
    requires choice.Node? && choice.rule == ChoiceR && FromCst(ChoiceR, choice.children) == Some(s)
    ensures FromCst(AtomR, [node]) == Some(CutE(s))
  {
    assert node.children[1..] == [opening] + [choice, closing] && node.children[1..][1..] == [choice, closing];
    assert FirstRule(node.children[1..], ChoiceR) == Some(choice);
    assert FirstRule(node.children, ChoiceR) == Some(choice);
    assert AtomFromCst([node]) == Some(CutE(s));
  }

  lemma {:induction false} LabelReads(g: Notated, pos: nat, at: nat, s: SyntaxExpr)
    requires IsNotation(g) && at < |g.tokens| && pos + 3 < at
    requires KindAt(g, pos).LabelWord? && KindAt(g, pos + 1).ParenL? && KindAt(g, pos + 2).Text? && KindAt(g, pos + 3).Comma?
    requires KindAt(g, at).ParenR? && Reads(g, ChoiceR, pos + 4, at, s)
    ensures Reads(g, AtomR, pos, at + 1, LabelE(KindAt(g, pos + 2).value, s))
  {
    var items := [Token(LabelT), Token(ParenLT), Token(TextT), Token(CommaT), Rule(ChoiceR), Token(ParenRT)];
    assert Body(LabelR) == Seq(items);
    hide FromCst, Reads, Gives, SeqGives, Body;
    var choice, trees := BracketedFrom(g, items, pos + 4, at, s);
    assert items[..4] == [Token(LabelT), Token(ParenLT), Token(TextT), Token(CommaT)];
    var opening := LabelOpening(g, items, pos, trees, at + 1);
    var all := opening + trees;
    SeqDone(g, items, pos, all, at + 1);
    BodyGives(g, LabelR, pos, all, at + 1);
    var node := Node(LabelR, g.SpanBetween(pos, at + 1), all);
    AtomAlternative(g, LabelR, pos, node, at + 1);
    LabelTree(node, choice, s);
    ReadsBody(g, AtomR, pos, [node], at + 1, LabelE(KindAt(g, pos + 2).value, s));
  }

  lemma {:induction false} LabelTree(node: Tree, choice: Tree, s: SyntaxExpr)
    requires node.Node? && node.rule == LabelR && |node.children| >= 5 && node.children[4] == choice
    requires choice.Node? && choice.rule == ChoiceR && FromCst(ChoiceR, choice.children) == Some(s)
    requires forall i :: 0 <= i < 4 ==> node.children[i].Leaf?
    requires node.children[2].token.kind.Text? && forall i :: 0 <= i < 2 ==> !node.children[i].token.kind.Text?
    ensures FromCst(AtomR, [node]) == Some(LabelE(node.children[2].token.kind.value, s))
  {
    LabelParts(node.children, choice);
    assert AtomFromCst([node]) == Some(LabelE(node.children[2].token.kind.value, s));
  }

  lemma {:induction false} LabelOpening(g: Notated, items: seq<Expr>, pos: nat, trees: seq<Tree>, end: nat) returns (opening: seq<Tree>)
    requires IsNotation(g) && pos + 3 < |g.tokens|
    requires KindAt(g, pos).LabelWord? && KindAt(g, pos + 1).ParenL? && KindAt(g, pos + 2).Text? && KindAt(g, pos + 3).Comma?
    requires |items| == 6 && items[..4] == [Token(LabelT), Token(ParenLT), Token(TextT), Token(CommaT)]
    requires SeqGives(g, items, 4, pos + 4, trees, end)
    ensures opening == [Leaf(g.tokens[pos]), Leaf(g.tokens[pos + 1]), Leaf(g.tokens[pos + 2]), Leaf(g.tokens[pos + 3])]
    ensures SeqGives(g, items, 0, pos, opening + trees, end)
  {
    assert forall i :: 0 <= i < 4 ==> items[i] == items[..4][i];
    TokenHere(g, LabelT, pos);
    TokenHere(g, ParenLT, pos + 1);
    TokenHere(g, TextT, pos + 2);
    TokenHere(g, CommaT, pos + 3);
    var a, b, c, d: Tree := Leaf(g.tokens[pos]), Leaf(g.tokens[pos + 1]), Leaf(g.tokens[pos + 2]), Leaf(g.tokens[pos + 3]);
    hide *;
    SeqMore(g, items, 3, pos + 3, [d], pos + 4, trees, end);
    SeqMore(g, items, 2, pos + 2, [c], pos + 3, [d] + trees, end);
    SeqMore(g, items, 1, pos + 1, [b], pos + 2, [c] + ([d] + trees), end);
    SeqMore(g, items, 0, pos, [a], pos + 1, [b] + ([c] + ([d] + trees)), end);
    opening := [a, b, c, d];
    assert [a] + ([b] + ([c] + ([d] + trees))) == opening + trees;
  }

  lemma {:induction false} LabelParts(all: seq<Tree>, choice: Tree)
    requires |all| >= 5 && all[4] == choice && choice.Node? && choice.rule == ChoiceR
    requires forall i :: 0 <= i < 4 ==> all[i].Leaf?
    requires all[2].token.kind.Text? && forall i :: 0 <= i < 2 ==> !all[i].token.kind.Text?
    ensures FirstRule(all, ChoiceR) == Some(choice) && FirstText(all) == Some(all[2].token.kind.value)
  {
    assert all[1..][1..] == all[2..] && all[2..][1..] == all[3..] && all[3..][1..] == all[4..];
    assert FirstRule(all[4..], ChoiceR) == Some(choice);
    assert FirstRule(all[3..], ChoiceR) == Some(choice);
    assert FirstRule(all[2..], ChoiceR) == Some(choice);
    assert FirstRule(all[1..], ChoiceR) == Some(choice);
    assert FirstText(all[2..]) == Some(all[2].token.kind.value);
    assert FirstText(all[1..]) == Some(all[2].token.kind.value);
  }

  // ---- postfix and prefix --------------------------------------------------------------------------------------

  /** An atom with no suffix. */
  lemma {:induction false} PlainPostfix(g: Notated, pos: nat, at: nat, s: SyntaxExpr)
    requires IsNotation(g) && at <= |g.tokens| && Reads(g, AtomR, pos, at, s) && !IsSuffix(KindAt(g, at))
    ensures Reads(g, PostfixR, pos, at, s)
  {
    SuffixNotHere(g, at);
    RepeatStop(g, SUFFIX, at);
    PostfixFrom(g, pos, at, s, [], at);
  }

  lemma {:induction false} PostfixFrom(g: Notated, pos: nat, mid: nat, s: SyntaxExpr, suffixes: seq<Tree>, at: nat)
    requires IsNotation(g) && Reads(g, AtomR, pos, mid, s) && RepeatGives(g, SUFFIX, mid, suffixes, at) && mid <= at
    ensures Reads(g, PostfixR, pos, at, WithSuffixes(s, suffixes))
  {
    var items := [Rule(AtomR), Repeat(SUFFIX)];
    hide *;
    RuleBodies();
    var node := NodeOf(g, AtomR, pos, mid, s);
    PostfixTree(node, suffixes, s);
    RepeatDone(g, SUFFIX, mid, suffixes, at);
    SeqLast(g, items, 1, mid, suffixes, at);
    SeqMore(g, items, 0, pos, [node], mid, suffixes, at);
    SeqDone(g, items, pos, [node] + suffixes, at);
    ReadsBody(g, PostfixR, pos, [node] + suffixes, at, WithSuffixes(s, suffixes));
  }

  lemma {:induction false} PostfixTree(node: Tree, suffixes: seq<Tree>, s: SyntaxExpr)
    requires node.Node? && node.rule == AtomR && FromCst(AtomR, node.children) == Some(s)
    ensures FromCst(PostfixR, [node] + suffixes) == Some(WithSuffixes(s, suffixes))
  {
    assert ([node] + suffixes)[1..] == suffixes;
  }

  lemma {:induction false} NodeOf(g: Notated, rule: RuleKind, pos: nat, at: nat, s: SyntaxExpr) returns (node: Tree)
    requires Reads(g, rule, pos, at, s)
    ensures pos < at && node.Node? && node.rule == rule && FromCst(rule, node.children) == Some(s)
    ensures Gives(g, Rule(rule), pos, [node], at)
  {
    node :| ReadsWith(g, rule, pos, at, s, node);
  }

  function Suffixed(kind: TokenKind, s: SyntaxExpr): SyntaxExpr
    requires IsSuffix(kind)
  {
    match kind
    case Question => OptionalE(s)
    case Star => RepeatE(s)
    case Plus => Repeat1E(s)
  }

  /** An atom with one suffix. */
  lemma {:induction false} SuffixedPostfix(g: Notated, pos: nat, mid: nat, s: SyntaxExpr)
    requires IsNotation(g) && mid < |g.tokens| && Reads(g, AtomR, pos, mid, s)
    requires IsSuffix(KindAt(g, mid)) && !IsSuffix(KindAt(g, mid + 1))
    ensures Reads(g, PostfixR, pos, mid + 1, Suffixed(KindAt(g, mid), s))
  {
    var leaf: Tree := Leaf(g.tokens[mid]);
    OneSuffix(leaf, s);
    hide *;
    SuffixHere(g, mid);
    SuffixNotHere(g, mid + 1);
    RepeatStop(g, SUFFIX, mid + 1);
    RepeatMore(g, SUFFIX, mid, [leaf], mid + 1, [], mid + 1);
    assert [leaf] + [] == [leaf];
    PostfixFrom(g, pos, mid, s, [leaf], mid + 1);
  }

  lemma {:induction false} OneSuffix(leaf: Tree, s: SyntaxExpr)
    requires leaf.Leaf? && IsSuffix(leaf.token.kind)
    ensures WithSuffixes(s, [leaf]) == Suffixed(leaf.token.kind, s)
  {
    assert [leaf][1..] == [];
  }

  lemma {:induction false} SuffixHere(g: Notated, pos: nat)
    requires IsNotation(g) && pos < |g.tokens| && IsSuffix(KindAt(g, pos))
    ensures Gives(g, SUFFIX, pos, [Leaf(g.tokens[pos])], pos + 1)
  {
    var kinds := SUFFIX.alternatives;
    var leaf: Tree := Leaf(g.tokens[pos]);
    hide Gives, Fails, ChoiceGives;
    if KindAt(g, pos).Question? {
      TokenHere(g, QuestionT, pos);
      ChoiceHere(g, kinds, 0, pos, [leaf], pos + 1);
    } else {
      if KindAt(g, pos).Star? {
        TokenHere(g, StarT, pos);
        ChoiceHere(g, kinds, 1, pos, [leaf], pos + 1);
      } else {
        TokenHere(g, PlusT, pos);
        ChoiceHere(g, kinds, 2, pos, [leaf], pos + 1);
        TokenNotHere(g, StarT, pos);
        ChoiceNext(g, kinds, 1, pos, [leaf], pos + 1);
      }
      TokenNotHere(g, QuestionT, pos);
      ChoiceNext(g, kinds, 0, pos, [leaf], pos + 1);
    }
    ChoiceDone(g, kinds, pos, [leaf], pos + 1);
  }

  /** The alternative of `Prefix` that the first token selects. */
  lemma {:induction false} PrefixAlternative(g: Notated, i: nat, pos: nat, trees: seq<Tree>, at: nat)
    requires IsNotation(g) && pos <= |g.tokens| && i < 3
    requires Gives(g, [AND_PREFIX, NOT_PREFIX, Rule(PostfixR)][i], pos, trees, at)
    requires (i >= 1 ==> !KindAt(g, pos).Amp?) && (i == 2 ==> !KindAt(g, pos).Bang?)
    ensures Gives(g, Body(PrefixR), pos, trees, at)
  {
    var kinds := [AND_PREFIX, NOT_PREFIX, Rule(PostfixR)];
    RuleBodies();
    if i >= 1 { FirstTokenFails(g, AND_PREFIX.items, pos); }
    if i == 2 { FirstTokenFails(g, NOT_PREFIX.items, pos); }
    hide *;
    ChoiceHere(g, kinds, i, pos, trees, at);
    if i == 2 { ChoiceNext(g, kinds, 1, pos, trees, at); }
    if i >= 1 { ChoiceNext(g, kinds, 0, pos, trees, at); }
    ChoiceDone(g, kinds, pos, trees, at);
  }

  /** No lookahead sign: a postfix expression. */
  lemma {:induction false} PrefixFromPostfix(g: Notated, pos: nat, at: nat, s: SyntaxExpr)
    requires IsNotation(g) && pos <= |g.tokens| && Reads(g, PostfixR, pos, at, s)
    requires !KindAt(g, pos).Amp? && !KindAt(g, pos).Bang?
    ensures Reads(g, PrefixR, pos, at, s)
  {
    hide *;
    var node := NodeOf(g, PostfixR, pos, at, s);
    PlainTree(node, s);
    PrefixAlternative(g, 2, pos, [node], at);
    ReadsBody(g, PrefixR, pos, [node], at, s);
  }

  lemma {:induction false} PlainTree(node: Tree, s: SyntaxExpr)
    requires node.Node? && node.rule == PostfixR && FromCst(PostfixR, node.children) == Some(s)
    ensures FromCst(PrefixR, [node]) == Some(s)
  {
  }

  lemma {:induction false} SignThenPrefix(g: Notated, sign: TerminalKind, pos: nat, node: Tree, at: nat)
    requires Gives(g, Token(sign), pos, [Leaf(g.TokenAt(pos))], pos + 1) && Gives(g, Rule(PrefixR), pos + 1, [node], at)
    ensures Gives(g, Seq([Token(sign), Rule(PrefixR)]), pos, [Leaf(g.TokenAt(pos))] + [node], at)
  {
    hide *;
    var items := [Token(sign), Rule(PrefixR)];
    SeqLast(g, items, 1, pos + 1, [node], at);
    SeqMore(g, items, 0, pos, [Leaf(g.TokenAt(pos))], pos + 1, [node], at);
    SeqDone(g, items, pos, [Leaf(g.TokenAt(pos))] + [node], at);
  }

  lemma {:induction false} AndReads(g: Notated, pos: nat, at: nat, s: SyntaxExpr)
    requires IsNotation(g) && pos < |g.tokens| && KindAt(g, pos).Amp? && Reads(g, PrefixR, pos + 1, at, s)
    ensures Reads(g, PrefixR, pos, at, AndE(s))
  {
    TokenHere(g, AmpT, pos);
    var leaf: Tree := Leaf(g.TokenAt(pos));
    hide Gives, Reads, FromCst, IsNotation, Body;
    var node := NodeOf(g, PrefixR, pos + 1, at, s);
    SignTree(leaf, node, s);
    SignThenPrefix(g, AmpT, pos, node, at);
    PrefixAlternative(g, 0, pos, [leaf] + [node], at);
    ReadsBody(g, PrefixR, pos, [leaf] + [node], at, AndE(s));
  }

  lemma {:induction false} NotReads(g: Notated, pos: nat, at: nat, s: SyntaxExpr)
    requires IsNotation(g) && pos < |g.tokens| && KindAt(g, pos).Bang? && Reads(g, PrefixR, pos + 1, at, s)
    ensures Reads(g, PrefixR, pos, at, NotE(s))
  {
    TokenHere(g, BangT, pos);
    var leaf: Tree := Leaf(g.TokenAt(pos));
    hide Gives, Reads, FromCst, IsNotation, Body;
    var node := NodeOf(g, PrefixR, pos + 1, at, s);
    SignTree(leaf, node, s);
    SignThenPrefix(g, BangT, pos, node, at);
    PrefixAlternative(g, 1, pos, [leaf] + [node], at);
    ReadsBody(g, PrefixR, pos, [leaf] + [node], at, NotE(s));
  }

  lemma {:induction false} SignTree(leaf: Tree, node: Tree, s: SyntaxExpr)
    requires leaf.Leaf? && node.Node? && node.rule == PrefixR && FromCst(PrefixR, node.children) == Some(s)
    ensures leaf.token.kind.Amp? ==> FromCst(PrefixR, [leaf] + [node]) == Some(AndE(s))
    ensures leaf.token.kind.Bang? ==> FromCst(PrefixR, [leaf] + [node]) == Some(NotE(s))
  {
    var trees := [leaf] + [node];
    assert trees[0] == leaf && trees[1..] == [node];
    assert FirstRule(trees, PrefixR) == Some(node);
    assert HasToken(trees, leaf.token.kind);
    assert leaf.token.kind.Bang? ==> !HasToken(trees, Amp);
    assert PrefixFromCst(node.children) == Some(s);
  }

  // ---- runs of elements --------------------------------------------------------------------------------------

  /** A possibly empty run of elements, up to something that does not begin one. */
  ghost predicate Run(g: Notated, pos: nat, at: nat, exprs: seq<SyntaxExpr>) {
    pos <= at && exists trees: seq<Tree> :: RunWith(g, pos, at, exprs, trees)
  }

  ghost predicate RunWith(g: Notated, pos: nat, at: nat, exprs: seq<SyntaxExpr>, trees: seq<Tree>) {
    RepeatGives(g, Rule(PrefixR), pos, trees, at) && PrefixesFromCst(trees) == Some(exprs)
  }

  /** A run of one element at least. */
  ghost predicate Run1(g: Notated, pos: nat, at: nat, exprs: seq<SyntaxExpr>) {
    exprs != [] && exists mid: nat :: Reads(g, PrefixR, pos, mid, exprs[0]) && Run(g, mid, at, exprs[1..])
  }

  lemma {:induction false} EmptyRun(g: Notated, pos: nat)
    requires IsNotation(g) && pos <= |g.tokens| && !Starts(KindAt(g, pos))
    ensures Run(g, pos, pos, [])
  {
    PrefixNotHere(g, pos);
    RepeatStop(g, Rule(PrefixR), pos);
    assert RunWith(g, pos, pos, [], []);
  }

  lemma {:induction false} RunOf(g: Notated, pos: nat, mid: nat, s: SyntaxExpr, at: nat, rest: seq<SyntaxExpr>)
    requires Reads(g, PrefixR, pos, mid, s) && Run(g, mid, at, rest)
    ensures Run1(g, pos, at, [s] + rest)
  {
    assert ([s] + rest)[0] == s && ([s] + rest)[1..] == rest;
  }

  lemma {:induction false} PrefixesFromNode(node: Tree, trees: seq<Tree>, s: SyntaxExpr, rest: seq<SyntaxExpr>)
    requires node.Node? && node.rule == PrefixR && FromCst(PrefixR, node.children) == Some(s) && PrefixesFromCst(trees) == Some(rest)
    ensures PrefixesFromCst([node] + trees) == Some([s] + rest)
  {
    assert ([node] + trees)[1..] == trees;
  }

  lemma {:induction false} RunIsRun(g: Notated, pos: nat, at: nat, exprs: seq<SyntaxExpr>)
    requires Run1(g, pos, at, exprs)
    ensures Run(g, pos, at, exprs)
  {
    var mid, node, trees := RunParts(g, pos, at, exprs);
    hide Gives, RepeatGives, PrefixesFromCst, Run1;
    RepeatMore(g, Rule(PrefixR), pos, [node], mid, trees, at);
    assert RunWith(g, pos, at, exprs, [node] + trees);
  }

  lemma {:induction false} RunParts(g: Notated, pos: nat, at: nat, exprs: seq<SyntaxExpr>)
    returns (mid: nat, node: Tree, trees: seq<Tree>)
    requires Run1(g, pos, at, exprs)
    ensures pos < mid <= at && Gives(g, Rule(PrefixR), pos, [node], mid) && RepeatGives(g, Rule(PrefixR), mid, trees, at)
    ensures PrefixesFromCst([node] + trees) == Some(exprs)
  {
    hide Gives, RepeatGives, Reads, FromCst;
    mid :| Reads(g, PrefixR, pos, mid, exprs[0]) && Run(g, mid, at, exprs[1..]);
    node := NodeOf(g, PrefixR, pos, mid, exprs[0]);
    trees :| RunWith(g, mid, at, exprs[1..], trees);
    PrefixesFromNode(node, trees, exprs[0], exprs[1..]);
    assert [exprs[0]] + exprs[1..] == exprs;
  }

  lemma {:induction false} SequenceReads(g: Notated, pos: nat, at: nat, exprs: seq<SyntaxExpr>)
    requires IsNotation(g) && Run1(g, pos, at, exprs)
    ensures Reads(g, SequenceR, pos, at, SeqOf(exprs).value)
  {
    assert exprs != [];
    hide *;
    var mid, node, trees := RunParts(g, pos, at, exprs);
    SequenceTree([node] + trees, exprs);
    RuleBodies();
    Repeat1Done(g, Rule(PrefixR), pos, [node], mid, trees, at);
    ReadsBody(g, SequenceR, pos, [node] + trees, at, SeqOf(exprs).value);
  }

  lemma {:induction false} SequenceTree(trees: seq<Tree>, exprs: seq<SyntaxExpr>)
    requires PrefixesFromCst(trees) == Some(exprs) && exprs != []
    ensures SeqOf(exprs).Some? && FromCst(SequenceR, trees) == SeqOf(exprs)
  {
  }

  // ---- alternatives ------------------------------------------------------------------------------------------

  /** Further alternatives, each behind a slash. */
  ghost predicate Slashes(g: Notated, pos: nat, at: nat, exprs: seq<SyntaxExpr>) {
    pos <= at && exists trees: seq<Tree> :: SlashesWith(g, pos, at, exprs, trees)
  }

  ghost predicate SlashesWith(g: Notated, pos: nat, at: nat, exprs: seq<SyntaxExpr>, trees: seq<Tree>) {
    RepeatGives(g, SLASHED, pos, trees, at) && SequencesFromCst(trees) == Some(exprs)
  }

  /** One alternative at least. */
  ghost predicate Alternatives(g: Notated, pos: nat, at: nat, exprs: seq<SyntaxExpr>) {
    exprs != [] && exists mid: nat :: Reads(g, SequenceR, pos, mid, exprs[0]) && Slashes(g, mid, at, exprs[1..])
  }

  lemma {:induction false} NoSlash(g: Notated, pos: nat)
    requires IsNotation(g) && pos <= |g.tokens| && !KindAt(g, pos).Slash?
    ensures Slashes(g, pos, pos, [])
  {
    FirstTokenFails(g, SLASHED.items, pos);
    RepeatStop(g, SLASHED, pos);
    assert SlashesWith(g, pos, pos, [], []);
  }

  lemma {:induction false} AlternativesOf(g: Notated, pos: nat, mid: nat, s: SyntaxExpr, at: nat, rest: seq<SyntaxExpr>)
    requires Reads(g, SequenceR, pos, mid, s) && Slashes(g, mid, at, rest)
    ensures Alternatives(g, pos, at, [s] + rest)
  {
    assert ([s] + rest)[0] == s && ([s] + rest)[1..] == rest;
  }

  lemma {:induction false} SequencesFromNode(node: Tree, trees: seq<Tree>, s: SyntaxExpr, rest: seq<SyntaxExpr>)
    requires node.Node? && node.rule == SequenceR && FromCst(SequenceR, node.children) == Some(s)
    requires SequencesFromCst(trees) == Some(rest)
    ensures SequencesFromCst([node] + trees) == Some([s] + rest)
  {
    assert ([node] + trees)[1..] == trees;
  }

  lemma {:induction false} SequencesFromLeaf(leaf: Tree, trees: seq<Tree>)
    requires leaf.Leaf? && SequencesFromCst(trees).Some?
    ensures SequencesFromCst([leaf] + trees) == SequencesFromCst(trees)
  {
    assert ([leaf] + trees)[1..] == trees;
  }

  lemma {:induction false} SlashThenAlternatives(g: Notated, pos: nat, at: nat, exprs: seq<SyntaxExpr>)
    requires IsNotation(g) && pos < |g.tokens| && KindAt(g, pos).Slash? && Alternatives(g, pos + 1, at, exprs)
    ensures Slashes(g, pos, at, exprs)
  {
    var mid, node, trees := AlternativesParts(g, pos + 1, at, exprs);
    var leaf: Tree := Leaf(g.tokens[pos]);
    TokenHere(g, SlashT, pos);
    SequencesFromLeaf(leaf, [node] + trees);
    assert [leaf] + ([node] + trees) == ([leaf] + [node]) + trees;
    hide Gives, SeqGives, RepeatGives, SequencesFromCst, Alternatives;
    SeqLast(g, SLASHED.items, 1, pos + 1, [node], mid);
    SeqMore(g, SLASHED.items, 0, pos, [leaf], pos + 1, [node], mid);
    SeqDone(g, SLASHED.items, pos, [leaf] + [node], mid);
    RepeatMore(g, SLASHED, pos, [leaf] + [node], mid, trees, at);
    assert SlashesWith(g, pos, at, exprs, ([leaf] + [node]) + trees);
  }

  lemma {:induction false} AlternativesParts(g: Notated, pos: nat, at: nat, exprs: seq<SyntaxExpr>)
    returns (mid: nat, node: Tree, trees: seq<Tree>)
    requires Alternatives(g, pos, at, exprs)
    ensures pos < mid <= at && Gives(g, Rule(SequenceR), pos, [node], mid) && RepeatGives(g, SLASHED, mid, trees, at)
    ensures SequencesFromCst([node] + trees) == Some(exprs)
  {
    hide Gives, RepeatGives, Reads, FromCst;
    mid :| Reads(g, SequenceR, pos, mid, exprs[0]) && Slashes(g, mid, at, exprs[1..]);
    node := NodeOf(g, SequenceR, pos, mid, exprs[0]);
    trees :| SlashesWith(g, mid, at, exprs[1..], trees);
    SequencesFromNode(node, trees, exprs[0], exprs[1..]);
    assert [exprs[0]] + exprs[1..] == exprs;
  }

  lemma {:induction false} ChoiceReads(g: Notated, pos: nat, at: nat, exprs: seq<SyntaxExpr>)
    requires IsNotation(g) && Alternatives(g, pos, at, exprs)
    ensures Reads(g, ChoiceR, pos, at, ChoiceOf(exprs).value)
  {
    var items := [Rule(SequenceR), Repeat(SLASHED)];
    assert exprs != [];
    hide *;
    var mid, node, trees := AlternativesParts(g, pos, at, exprs);
    ChoiceTree([node] + trees, exprs);
    RuleBodies();
    RepeatDone(g, SLASHED, mid, trees, at);
    SeqLast(g, items, 1, mid, trees, at);
    SeqMore(g, items, 0, pos, [node], mid, trees, at);
    SeqDone(g, items, pos, [node] + trees, at);
    ReadsBody(g, ChoiceR, pos, [node] + trees, at, ChoiceOf(exprs).value);
  }

  lemma {:induction false} ChoiceTree(trees: seq<Tree>, exprs: seq<SyntaxExpr>)
    requires SequencesFromCst(trees) == Some(exprs) && exprs != []
    ensures ChoiceOf(exprs).Some? && FromCst(ChoiceR, trees) == ChoiceOf(exprs)
  {
  }
}

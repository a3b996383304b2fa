/**
  The `.peg` notation: its tokens and grammar, the reading of its syntax trees, the resolution of names,
  and the canonical printer (rex-parser/src/peg_syntax.rs, rex-parser/src/grammar.rs:982-1042).
 */
module PegSyntax {
  import opened Wrappers
  import opened Pegs

  datatype TokenKind =
    | Ident(name: string) | Text(value: string) | Comment(line: string)
    | CutWord | LabelWord | Arrow | Slash | Star | Plus | Question | Amp | Bang | ParenL | ParenR | Comma | Newline | Eof

  datatype SyntaxToken = SyntaxToken(kind: TokenKind, span: Span)

  datatype TerminalKind =
    | IdentT | TextT | CommentLineT
    | CutT | LabelT | ArrowT | SlashT | StarT | PlusT | QuestionT | AmpT | BangT | ParenLT | ParenRT | CommaT | NewlineT | EofT

  datatype RuleKind =
    | GrammarR | ItemR | CommentR | RuleR | ChoiceR | SequenceR | PrefixR | PostfixR | AtomR | CutR | LabelR | NameR | GroupR

  type Expr = Peg<RuleKind, TerminalKind>
  type Tree = Cst<RuleKind, SyntaxToken>

  predicate Matches(terminal: TerminalKind, kind: TokenKind) {
    match terminal
    case IdentT => kind.Ident?
    case TextT => kind.Text?
    case CommentLineT => kind.Comment?
    case CutT => kind.CutWord?
    case LabelT => kind.LabelWord?
    case ArrowT => kind.Arrow?
    case SlashT => kind.Slash?
    case StarT => kind.Star?
    case PlusT => kind.Plus?
    case QuestionT => kind.Question?
    case AmpT => kind.Amp?
    case BangT => kind.Bang?
    case ParenLT => kind.ParenL?
    case ParenRT => kind.ParenR?
    case CommaT => kind.Comma?
    case NewlineT => kind.Newline?
    case EofT => kind.Eof?
  }

  function Describe(terminal: TerminalKind): string {
    match terminal
    case IdentT => "identifier"
    case TextT => "string literal"
    case CommentLineT => "comment"
    case CutT => "`cut`"
    case LabelT => "`label`"
    case ArrowT => "`<-`"
    case SlashT => "`/`"
    case StarT => "`*`"
    case PlusT => "`+`"
    case QuestionT => "`?`"
    case AmpT => "`&`"
    case BangT => "`!`"
    case ParenLT => "`(`"
    case ParenRT => "`)`"
    case CommaT => "`,`"
    case NewlineT => "newline"
    case EofT => "EOF"
  }

  /** The grammar of the notation. */
  function Body(rule: RuleKind): Expr {
    match rule
    case GrammarR =>
      Seq([Repeat(Token(NewlineT)), Rule(ItemR), Repeat(Seq([Repeat1(Token(NewlineT)), Rule(ItemR)])),
           Repeat(Token(NewlineT)), Token(EofT)])
    case ItemR => Choice([Rule(CommentR), Rule(RuleR)])
    case CommentR => Seq([Token(CommentLineT), Repeat(Seq([Token(NewlineT), Token(CommentLineT)]))])
    case RuleR => Seq([Token(IdentT), Token(ArrowT), Rule(ChoiceR)])
    case ChoiceR => Seq([Rule(SequenceR), Repeat(Seq([Token(SlashT), Rule(SequenceR)]))])
    case SequenceR => Repeat1(Rule(PrefixR))
    case PrefixR => Choice([Seq([Token(AmpT), Rule(PrefixR)]), Seq([Token(BangT), Rule(PrefixR)]), Rule(PostfixR)])
    case PostfixR => Seq([Rule(AtomR), Repeat(Choice([Token(QuestionT), Token(StarT), Token(PlusT)]))])
    case AtomR => Choice([Rule(CutR), Rule(LabelR), Rule(NameR), Rule(GroupR)])
    case CutR => Seq([Token(CutT), Token(ParenLT), Rule(ChoiceR), Token(ParenRT)])
    case LabelR => Seq([Token(LabelT), Token(ParenLT), Token(TextT), Token(CommaT), Rule(ChoiceR), Token(ParenRT)])
    case NameR => Token(IdentT)
    case GroupR => Seq([Token(ParenLT), Rule(ChoiceR), Token(ParenRT)])
  }

  const ALL_RULES: set<RuleKind> :=
    {GrammarR, ItemR, CommentR, RuleR, ChoiceR, SequenceR, PrefixR, PostfixR, AtomR, CutR, LabelR, NameR, GroupR}

  /** The notation as a language for the packrat parser. */
  function Notation(tokens: seq<SyntaxToken>, eof: SyntaxToken): Language<RuleKind, TerminalKind, SyntaxToken> {
    Language(map rule | rule in ALL_RULES :: Body(rule),
             Describe,
             (terminal: TerminalKind, token: SyntaxToken) => Matches(terminal, token.kind),
             (token: SyntaxToken) => token.kind.Eof?,
             (token: SyntaxToken) => token.span,
             tokens,
             eof)
  }

  // ---- from syntax trees to expressions over names --------------------------------------------------------

  datatype SyntaxExpr =
    | NameE(name: string)
    | SeqE(items: seq<SyntaxExpr>)
    | ChoiceE(items: seq<SyntaxExpr>)
    | OptionalE(item: SyntaxExpr)
    | RepeatE(item: SyntaxExpr)
    | Repeat1E(item: SyntaxExpr)
    | AndE(item: SyntaxExpr)
    | NotE(item: SyntaxExpr)
    | CutE(item: SyntaxExpr)
    | LabelE(message: string, item: SyntaxExpr)

  /** A list of one is its element; the source treats an empty list as unreachable. */
  function SeqOf(items: seq<SyntaxExpr>): Option<SyntaxExpr> {
    if items == [] then None else if |items| == 1 then Some(items[0]) else Some(SeqE(items))
  }

  function ChoiceOf(items: seq<SyntaxExpr>): Option<SyntaxExpr> {
    if items == [] then None else if |items| == 1 then Some(items[0]) else Some(ChoiceE(items))
  }

  function FirstRule(trees: seq<Tree>, rule: RuleKind): (r: Option<Tree>)
    ensures r.Some? ==> r.value.Node? && r.value in trees
    decreases |trees|
  {
    if trees == [] then None
    else if trees[0].Node? && trees[0].rule == rule then Some(trees[0])
    else FirstRule(trees[1..], rule)
  }

  function FirstIdent(trees: seq<Tree>): Option<string>
    decreases |trees|
  {
    if trees == [] then None
    else if trees[0].Leaf? && trees[0].token.kind.Ident? then Some(trees[0].token.kind.name)
    else FirstIdent(trees[1..])
  }

  function FirstText(trees: seq<Tree>): Option<string>
    decreases |trees|
  {
    if trees == [] then None
    else if trees[0].Leaf? && trees[0].token.kind.Text? then Some(trees[0].token.kind.value)
    else FirstText(trees[1..])
  }

  predicate HasToken(trees: seq<Tree>, kind: TokenKind) {
    exists i :: 0 <= i < |trees| && trees[i].Leaf? && trees[i].token.kind == kind
  }

  /** `None` is where the source gives up because the tree does not fit the grammar. */
  function ChoiceFromCst(trees: seq<Tree>): Option<SyntaxExpr>
    decreases trees, 1
  {
    var alternatives := SequencesFromCst(trees);
    if alternatives.None? then None else ChoiceOf(alternatives.value)
  }

  function SequencesFromCst(trees: seq<Tree>): Option<seq<SyntaxExpr>>
    decreases trees, 0
  {
    if trees == [] then Some([])
    else
      var rest := SequencesFromCst(trees[1..]);
      if rest.None? then None
      else if trees[0].Node? && trees[0].rule == SequenceR then
        var first := SequenceFromCst(trees[0].children);
        if first.None? then None else Some([first.value] + rest.value)
      else rest
  }

  function SequenceFromCst(trees: seq<Tree>): Option<SyntaxExpr>
    decreases trees, 1
  {
    var items := PrefixesFromCst(trees);
    if items.None? then None else SeqOf(items.value)
  }

  function PrefixesFromCst(trees: seq<Tree>): Option<seq<SyntaxExpr>>
    decreases trees, 0
  {
    if trees == [] then Some([])
    else
      var rest := PrefixesFromCst(trees[1..]);
      if rest.None? then None
      else if trees[0].Node? && trees[0].rule == PrefixR then
        var first := PrefixFromCst(trees[0].children);
        if first.None? then None else Some([first.value] + rest.value)
      else rest
  }

  function PrefixFromCst(trees: seq<Tree>): Option<SyntaxExpr>
    decreases trees, 0
  {
    if HasToken(trees, Amp) then
      var inner := FirstRule(trees, PrefixR);
      if inner.None? then None
      else var e := PrefixFromCst(inner.value.children); if e.None? then None else Some(AndE(e.value))
    else if HasToken(trees, Bang) then
      var inner := FirstRule(trees, PrefixR);
      if inner.None? then None
      else var e := PrefixFromCst(inner.value.children); if e.None? then None else Some(NotE(e.value))
    else
      var inner := FirstRule(trees, PostfixR);
      if inner.None? then None else PostfixFromCst(inner.value.children)
  }

  function PostfixFromCst(trees: seq<Tree>): Option<SyntaxExpr>
    decreases trees, 1
  {
    var atom := FirstRule(trees, AtomR);
    if atom.None? then None
    else var e := AtomFromCst(atom.value.children); if e.None? then None else Some(WithSuffixes(e.value, trees))
  }

  /** The suffix tokens wrap the expression in turn. */
  function WithSuffixes(e: SyntaxExpr, trees: seq<Tree>): SyntaxExpr
    decreases |trees|
  {
    if trees == [] then e
    else
      var wrapped :=
        if trees[0].Leaf? then
          match trees[0].token.kind {
            case Question => OptionalE(e)
            case Star => RepeatE(e)
            case Plus => Repeat1E(e)
            case _ => e
          }
        else e;
      WithSuffixes(wrapped, trees[1..])
  }

  function AtomFromCst(trees: seq<Tree>): Option<SyntaxExpr>
    decreases trees, 0
  {
    var cut, labelled, name := FirstRule(trees, CutR), FirstRule(trees, LabelR), FirstRule(trees, NameR);
    if cut.Some? then
      var inner := FirstRule(cut.value.children, ChoiceR);
      if inner.None? then None
      else var e := ChoiceFromCst(inner.value.children); if e.None? then None else Some(CutE(e.value))
    else if labelled.Some? then
      var message, inner := FirstText(labelled.value.children), FirstRule(labelled.value.children, ChoiceR);
      if message.None? || inner.None? then None
      else var e := ChoiceFromCst(inner.value.children); if e.None? then None else Some(LabelE(message.value, e.value))
    else if name.Some? then
      var ident := FirstIdent(name.value.children);
      if ident.None? then None else Some(NameE(ident.value))
    else
      var group := FirstRule(trees, GroupR);
      if group.None? then None
      else
        var inner := FirstRule(group.value.children, ChoiceR);
        if inner.None? then None else ChoiceFromCst(inner.value.children)
  }

  // ---- from names to grammar symbols --------------------------------------------------------------------------

  function RuleName(rule: RuleKind): string {
    match rule
    case GrammarR => "Grammar"
    case ItemR => "Item"
    case CommentR => "Comment"
    case RuleR => "Rule"
    case ChoiceR => "Choice"
    case SequenceR => "Sequence"
    case PrefixR => "Prefix"
    case PostfixR => "Postfix"
    case AtomR => "Atom"
    case CutR => "CutExpr"
    case LabelR => "LabelExpr"
    case NameR => "Name"
    case GroupR => "Group"
  }

  function TerminalName(terminal: TerminalKind): string {
    match terminal
    case IdentT => "IDENT"
    case TextT => "STRING"
    case CommentLineT => "COMMENT_LINE"
    case CutT => "CUT"
    case LabelT => "LABEL"
    case ArrowT => "ARROW"
    case SlashT => "SLASH"
    case StarT => "STAR"
    case PlusT => "PLUS"
    case QuestionT => "QUESTION"
    case AmpT => "AMP"
    case BangT => "BANG"
    case ParenLT => "PAREN_L"
    case ParenRT => "PAREN_R"
    case CommaT => "COMMA"
    case NewlineT => "NEWLINE"
    case EofT => "EOF"
  }

  const RULES_IN_ORDER: seq<RuleKind> :=
    [GrammarR, ItemR, CommentR, RuleR, ChoiceR, SequenceR, PrefixR, PostfixR, AtomR, CutR, LabelR, NameR, GroupR]

  const TERMINALS_IN_ORDER: seq<TerminalKind> :=
    [IdentT, TextT, CommentLineT, CutT, LabelT, ArrowT, SlashT, StarT, PlusT, QuestionT, AmpT, BangT, ParenLT, ParenRT,
     CommaT, NewlineT, EofT]

  /** The first rule with the name. */
  function RuleFromName(name: string, rules: seq<RuleKind>): (r: Option<RuleKind>)
    ensures r.Some? ==> r.value in rules && RuleName(r.value) == name
    ensures r.None? ==> forall rule :: rule in rules ==> RuleName(rule) != name
    decreases |rules|
  {
    if rules == [] then None else if RuleName(rules[0]) == name then Some(rules[0]) else RuleFromName(name, rules[1..])
  }

  function TerminalFromName(name: string, terminals: seq<TerminalKind>): (r: Option<TerminalKind>)
    ensures r.Some? ==> r.value in terminals && TerminalName(r.value) == name
    ensures r.None? ==> forall terminal :: terminal in terminals ==> TerminalName(terminal) != name
    decreases |terminals|
  {
    if terminals == [] then None
    else if TerminalName(terminals[0]) == name then Some(terminals[0]) else TerminalFromName(name, terminals[1..])
  }

  datatype LoadError = Ambiguous(name: string) | Unknown(name: string) | EmptyList

  function ResolveSymbol(name: string): Result<Expr, LoadError> {
    match (RuleFromName(name, RULES_IN_ORDER), TerminalFromName(name, TERMINALS_IN_ORDER))
    case (Some(_), Some(_)) => Err(Ambiguous(name))
    case (Some(rule), None) => Ok(Rule(rule))
    case (None, Some(kind)) => Ok(Token(kind))
    case (None, None) => Err(Unknown(name))
  }

  function ResolveExpr(e: SyntaxExpr): Result<Expr, LoadError>
    decreases e, 0
  {
    match e
    case NameE(name) => ResolveSymbol(name)
    case SeqE(items) =>
      var resolved := ResolveSequence(items);
      if resolved.Err? then Err(resolved.error) else CollapseSeq(resolved.value)
    case ChoiceE(items) =>
      var resolved := ResolveChoice(items);
      if resolved.Err? then Err(resolved.error) else CollapseChoice(resolved.value)
    case OptionalE(item) => var r := ResolveExpr(item); if r.Err? then r else Ok(Optional(r.value))
    case RepeatE(item) => var r := ResolveExpr(item); if r.Err? then r else Ok(Repeat(r.value))
    case Repeat1E(item) => var r := ResolveExpr(item); if r.Err? then r else Ok(Repeat1(r.value))
    case AndE(item) => var r := ResolveExpr(item); if r.Err? then r else Ok(And(r.value))
    case NotE(item) => var r := ResolveExpr(item); if r.Err? then r else Ok(Not(r.value))
    case CutE(item) => var r := ResolveExpr(item); if r.Err? then r else Ok(Cut(r.value))
    case LabelE(message, item) => var r := ResolveExpr(item); if r.Err? then r else Ok(Label(message, r.value))
  }

  /** The items resolved, nested sequences spliced in. */
  function ResolveSequence(items: seq<SyntaxExpr>): Result<seq<Expr>, LoadError>
    decreases items, 1
  {
    if items == [] then Ok([])
    else
      var first := ResolveExpr(items[0]);
      if first.Err? then Err(first.error)
      else
        var rest := ResolveSequence(items[1..]);
        if rest.Err? then rest else Ok(SeqParts(first.value) + rest.value)
  }

  function ResolveChoice(items: seq<SyntaxExpr>): Result<seq<Expr>, LoadError>
    decreases items, 1
  {
    if items == [] then Ok([])
    else
      var first := ResolveExpr(items[0]);
      if first.Err? then Err(first.error)
      else
        var rest := ResolveChoice(items[1..]);
        if rest.Err? then rest else Ok(ChoiceParts(first.value) + rest.value)
  }

  function SeqParts(e: Expr): seq<Expr> { if e.Seq? then e.items else [e] }

  function ChoiceParts(e: Expr): seq<Expr> { if e.Choice? then e.alternatives else [e] }

  function CollapseSeq(items: seq<Expr>): Result<Expr, LoadError> {
    if items == [] then Err(EmptyList) else if |items| == 1 then Ok(items[0]) else Ok(Seq(items))
  }

  function CollapseChoice(items: seq<Expr>): Result<Expr, LoadError> {
    if items == [] then Err(EmptyList) else if |items| == 1 then Ok(items[0]) else Ok(Choice(items))
  }

  // ---- the printer --------------------------------------------------------------------------------------------

  datatype Precedence = ChoiceP | SequenceP | PrefixP | PostfixP | AtomP

  function Level(p: Precedence): nat {
    match p
    case ChoiceP => 0
    case SequenceP => 1
    case PrefixP => 2
    case PostfixP => 3
    case AtomP => 4
  }

  function PrecedenceOf(e: Expr): Precedence {
    match e
    case Choice(_) => ChoiceP
    case Seq(_) => SequenceP
    case And(_) => PrefixP
    case Not(_) => PrefixP
    case Optional(_) => PostfixP
    case Repeat(_) => PostfixP
    case Repeat1(_) => PostfixP
    case _ => AtomP
  }

  /** The printed tokens; the source prints an empty sequence or choice nowhere. */
  function Render(e: Expr, context: Precedence): seq<TokenKind>
    decreases e, 1
  {
    if Level(PrecedenceOf(e)) < Level(context) then [ParenL] + RenderBare(e) + [ParenR] else RenderBare(e)
  }

  function RenderBare(e: Expr): seq<TokenKind>
    decreases e, 0
  {
    match e
    case Token(kind) => [Ident(TerminalName(kind))]
    case Rule(rule) => [Ident(RuleName(rule))]
    case Seq(items) => RenderItems(items)
    case Choice(alternatives) => RenderAlternatives(alternatives)
    case Optional(item) => Render(item, AtomP) + [Question]
    case Repeat(item) => Render(item, AtomP) + [Star]
    case Repeat1(item) => Render(item, AtomP) + [Plus]
    case And(item) => [Amp] + Render(item, PrefixP)
    case Not(item) => [Bang] + Render(item, PrefixP)
    case Label(message, item) => [LabelWord, ParenL, Text(message), Comma] + Render(item, ChoiceP) + [ParenR]
    case Cut(item) => [CutWord, ParenL] + Render(item, ChoiceP) + [ParenR]
  }

  function RenderItems(items: seq<Expr>): seq<TokenKind>
    decreases items, 2
  {
    if items == [] then [] else Render(items[0], SequenceP) + RenderItems(items[1..])
  }

  function RenderAlternatives(alternatives: seq<Expr>): seq<TokenKind>
    decreases alternatives, 2
  {
    if alternatives == [] then []
    else if |alternatives| == 1 then Render(alternatives[0], ChoiceP)
    else Render(alternatives[0], ChoiceP) + [Slash] + RenderAlternatives(alternatives[1..])
  }

  /** What the printer accepts: no empty sequence or choice anywhere. */
  predicate Printable(e: Expr)
    decreases e
  {
    match e
    case Token(_) => true
    case Rule(_) => true
    case Seq(items) => items != [] && forall i :: 0 <= i < |items| ==> Printable(items[i])
    case Choice(alternatives) => alternatives != [] && forall i :: 0 <= i < |alternatives| ==> Printable(alternatives[i])
    case Optional(item) => Printable(item)
    case Repeat(item) => Printable(item)
    case Repeat1(item) => Printable(item)
    case And(item) => Printable(item)
    case Not(item) => Printable(item)
    case Label(_, item) => Printable(item)
    case Cut(item) => Printable(item)
  }
}

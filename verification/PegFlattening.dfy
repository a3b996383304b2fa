/** What printing and reading back does to an expression: nested and one-element lists disappear. */
module PegFlattening {
  import opened Wrappers
  import opened Pegs
  import opened PegSyntax

  /** Nested sequences and choices spliced into their parents, lists of one replaced by their element. */
  function Flat(e: Expr): Expr
    decreases e, 1
  {
    match e
    case Token(_) => e
    case Rule(_) => e
    case Seq(items) => var parts := FlatItems(items); if |parts| == 1 then parts[0] else Seq(parts)
    case Choice(alternatives) => var parts := FlatAlternatives(alternatives); if |parts| == 1 then parts[0] else Choice(parts)
    case Optional(item) => Optional(Flat(item))
    case Repeat(item) => Repeat(Flat(item))
    case Repeat1(item) => Repeat1(Flat(item))
    case And(item) => And(Flat(item))
    case Not(item) => Not(Flat(item))
    case Label(message, item) => Label(message, Flat(item))
    case Cut(item) => Cut(Flat(item))
  }

  function FlatItems(items: seq<Expr>): seq<Expr>
    decreases items, 0
  {
    if items == [] then [] else SeqParts(Flat(items[0])) + FlatItems(items[1..])
  }

  function FlatAlternatives(items: seq<Expr>): seq<Expr>
    decreases items, 0
  {
    if items == [] then [] else ChoiceParts(Flat(items[0])) + FlatAlternatives(items[1..])
  }

  /** Lists have two elements at least, and none of their own kind among them. */
  ghost predicate Collapsed(e: Expr) {
    match e
    case Seq(items) => |items| >= 2 && forall i :: 0 <= i < |items| ==> !items[i].Seq?
    case Choice(alternatives) => |alternatives| >= 2 && forall i :: 0 <= i < |alternatives| ==> !alternatives[i].Choice?
    case _ => true
  }

  lemma {:induction false} FlatIsCollapsed(e: Expr)
    requires Printable(e)
    ensures Collapsed(Flat(e))
    decreases e, 1
  {
    match e
    case Seq(items) =>
      FlatItemsCollapsed(items);
      if |FlatItems(items)| == 1 { FlatItemsSingle(items); }
    case Choice(alternatives) =>
      FlatAlternativesCollapsed(alternatives);
      if |FlatAlternatives(alternatives)| == 1 { FlatAlternativesSingle(alternatives); }
    case _ =>
  }

  lemma {:induction false} FlatItemsCollapsed(items: seq<Expr>)
    requires forall i :: 0 <= i < |items| ==> Printable(items[i])
    ensures |FlatItems(items)| >= |items|
    ensures forall i :: 0 <= i < |FlatItems(items)| ==> !FlatItems(items)[i].Seq?
    decreases items, 0
  {
    if items != [] {
      FlatIsCollapsed(items[0]);
      FlatItemsCollapsed(items[1..]);
    }
  }

  lemma {:induction false} FlatAlternativesCollapsed(items: seq<Expr>)
    requires forall i :: 0 <= i < |items| ==> Printable(items[i])
    ensures |FlatAlternatives(items)| >= |items|
    ensures forall i :: 0 <= i < |FlatAlternatives(items)| ==> !FlatAlternatives(items)[i].Choice?
    decreases items, 0
  {
    if items != [] {
      FlatIsCollapsed(items[0]);
      FlatAlternativesCollapsed(items[1..]);
    }
  }

  /** A list that flattens to one element is that one item, flattened. */
  lemma {:induction false} FlatItemsSingle(items: seq<Expr>)
    requires (forall i :: 0 <= i < |items| ==> Printable(items[i])) && items != [] && |FlatItems(items)| == 1
    ensures |items| == 1 && FlatItems(items)[0] == Flat(items[0]) && Collapsed(Flat(items[0]))
    decreases items, 0
  {
    FlatIsCollapsed(items[0]);
    FlatItemsCollapsed(items[1..]);
  }

  lemma {:induction false} FlatAlternativesSingle(items: seq<Expr>)
    requires (forall i :: 0 <= i < |items| ==> Printable(items[i])) && items != [] && |FlatAlternatives(items)| == 1
    ensures |items| == 1 && FlatAlternatives(items)[0] == Flat(items[0]) && Collapsed(Flat(items[0]))
    decreases items, 0
  {
    FlatIsCollapsed(items[0]);
    FlatAlternativesCollapsed(items[1..]);
  }

  /** Collapsed throughout: what flattening leaves as it is. */
  ghost predicate Canonical(e: Expr)
    decreases e
  {
    match e
    case Token(_) => true
    case Rule(_) => true
    case Seq(items) => |items| >= 2 && forall i :: 0 <= i < |items| ==> !items[i].Seq? && Canonical(items[i])
    case Choice(alternatives) =>
      |alternatives| >= 2 && forall i :: 0 <= i < |alternatives| ==> !alternatives[i].Choice? && Canonical(alternatives[i])
    case Optional(item) => Canonical(item)
    case Repeat(item) => Canonical(item)
    case Repeat1(item) => Canonical(item)
    case And(item) => Canonical(item)
    case Not(item) => Canonical(item)
    case Label(_, item) => Canonical(item)
    case Cut(item) => Canonical(item)
  }

  ghost predicate AllCanonical(items: seq<Expr>) {
    forall i :: 0 <= i < |items| ==> Canonical(items[i])
  }

  lemma {:induction false} FlatIsCanonical(e: Expr)
    requires Printable(e)
    ensures Canonical(Flat(e))
    decreases e, 1
  {
    match e
    case Token(_) =>
    case Rule(_) =>
    case Seq(items) =>
      FlatListsCanonical(items);
      FlatItemsCollapsed(items);
    case Choice(alternatives) =>
      FlatListsCanonical(alternatives);
      FlatAlternativesCollapsed(alternatives);
    case _ => FlatIsCanonical(e.item);
  }

  lemma {:induction false} FlatListsCanonical(items: seq<Expr>)
    requires forall i :: 0 <= i < |items| ==> Printable(items[i])
    ensures AllCanonical(FlatItems(items)) && AllCanonical(FlatAlternatives(items))
    decreases items, 0
  {
    if items != [] {
      FlatIsCanonical(items[0]);
      FlatListsCanonical(items[1..]);
    }
  }

  lemma {:induction false} CanonicalIsFlat(e: Expr)
    requires Canonical(e)
    ensures Flat(e) == e
    decreases e, 1
  {
    match e
    case Token(_) =>
    case Rule(_) =>
    case Seq(items) => CanonicalItems(items);
    case Choice(alternatives) => CanonicalAlternatives(alternatives);
    case _ => CanonicalIsFlat(e.item);
  }

  lemma {:induction false} CanonicalItems(items: seq<Expr>)
    requires forall i :: 0 <= i < |items| ==> !items[i].Seq? && Canonical(items[i])
    ensures FlatItems(items) == items
    decreases items, 0
  {
    if items != [] {
      CanonicalIsFlat(items[0]);
      CanonicalItems(items[1..]);
    }
  }

  lemma {:induction false} CanonicalAlternatives(items: seq<Expr>)
    requires forall i :: 0 <= i < |items| ==> !items[i].Choice? && Canonical(items[i])
    ensures FlatAlternatives(items) == items
    decreases items, 0
  {
    if items != [] {
      CanonicalIsFlat(items[0]);
      CanonicalAlternatives(items[1..]);
    }
  }

  // ---- what the reader makes of the printed form --------------------------------------------------------

  function OrderOfElems(e: Expr): nat { if e.Choice? then 8 else 4 }

  function OrderOfPrefix(e: Expr): nat { if e.Choice? || e.Seq? then 8 else 2 }

  /** The expression read back from the printed form of `e`. */
  function Syn(e: Expr): SyntaxExpr
    requires Printable(e)
    decreases e, 6
  {
    var alternatives := Alts(e);
    if |alternatives| == 1 then alternatives[0] else ChoiceE(alternatives)
  }

  function Alts(e: Expr): (r: seq<SyntaxExpr>)
    requires Printable(e)
    ensures r != []
    decreases e, 5
  {
    if e.Choice? then AltsAll(e.alternatives)
    else var elems := Elems(e); [if |elems| == 1 then elems[0] else SeqE(elems)]
  }

  function AltsAll(items: seq<Expr>): (r: seq<SyntaxExpr>)
    requires forall i :: 0 <= i < |items| ==> Printable(items[i])
    ensures items != [] ==> r != []
    decreases items, 10
  {
    if items == [] then [] else Alts(items[0]) + AltsAll(items[1..])
  }

  function Elems(e: Expr): (r: seq<SyntaxExpr>)
    requires Printable(e)
    ensures r != []
    decreases e, OrderOfElems(e)
  {
    match e
    case Seq(items) => ElemsAll(items)
    case Choice(_) => [Syn(e)]
    case _ => [PrefixOf(e)]
  }

  function ElemsAll(items: seq<Expr>): (r: seq<SyntaxExpr>)
    requires forall i :: 0 <= i < |items| ==> Printable(items[i])
    ensures items != [] ==> r != []
    decreases items, 10
  {
    if items == [] then [] else Elems(items[0]) + ElemsAll(items[1..])
  }

  function PrefixOf(e: Expr): SyntaxExpr
    requires Printable(e)
    decreases e, OrderOfPrefix(e)
  {
    match e
    case And(item) => AndE(PrefixOf(item))
    case Not(item) => NotE(PrefixOf(item))
    case Seq(_) => Syn(e)
    case Choice(_) => Syn(e)
    case _ => PostfixOf(e)
  }

  function PostfixOf(e: Expr): SyntaxExpr
    requires Printable(e) && Level(PrecedenceOf(e)) >= 3
    decreases e, 1
  {
    match e
    case Optional(item) => OptionalE(AtomOf(item))
    case Repeat(item) => RepeatE(AtomOf(item))
    case Repeat1(item) => Repeat1E(AtomOf(item))
    case _ => Atomic(e)
  }

  function AtomOf(e: Expr): SyntaxExpr
    requires Printable(e)
    decreases e, 9
  {
    if PrecedenceOf(e) == AtomP then Atomic(e) else Syn(e)
  }

  function Atomic(e: Expr): SyntaxExpr
    requires Printable(e) && PrecedenceOf(e) == AtomP
    decreases e, 0
  {
    match e
    case Token(kind) => NameE(TerminalName(kind))
    case Rule(rule) => NameE(RuleName(rule))
    case Label(message, item) => LabelE(message, Syn(item))
    case Cut(item) => CutE(Syn(item))
  }

  // ---- resolving it gives the flattened expression ----------------------------------------------------------

  lemma {:induction false} RuleNamesResolve(rule: RuleKind)
    ensures ResolveSymbol(RuleName(rule)) == Ok(Rule(rule))
  {
    hide RuleFromName, TerminalFromName, RuleName, TerminalName;
    RuleFound(rule);
    var name := RuleName(rule);
    forall terminal ensures TerminalName(terminal) != name { NamesDiffer(rule, terminal); }
    assert TerminalFromName(name, TERMINALS_IN_ORDER).None?;
  }

  lemma {:induction false} TerminalNamesResolve(terminal: TerminalKind)
    ensures ResolveSymbol(TerminalName(terminal)) == Ok(Token(terminal))
  {
    hide RuleFromName, TerminalFromName, RuleName, TerminalName;
    TerminalFound(terminal);
    var name := TerminalName(terminal);
    forall rule ensures RuleName(rule) != name { NamesDiffer(rule, terminal); }
    assert RuleFromName(name, RULES_IN_ORDER).None?;
  }

  lemma {:induction false} RuleFound(rule: RuleKind)
    ensures RuleFromName(RuleName(rule), RULES_IN_ORDER) == Some(rule)
  {
    hide RuleFromName, RuleName;
    assert rule in RULES_IN_ORDER;
    forall other | RuleName(other) == RuleName(rule) ensures other == rule { RuleNamesDiffer(other, rule); }
    var found := RuleFromName(RuleName(rule), RULES_IN_ORDER);
    assert found.Some? && RuleName(found.value) == RuleName(rule);
  }

  lemma {:induction false} TerminalFound(terminal: TerminalKind)
    ensures TerminalFromName(TerminalName(terminal), TERMINALS_IN_ORDER) == Some(terminal)
  {
    hide TerminalFromName, TerminalName;
    assert terminal in TERMINALS_IN_ORDER;
    forall other | TerminalName(other) == TerminalName(terminal) ensures other == terminal { TerminalNamesDiffer(other, terminal); }
    var found := TerminalFromName(TerminalName(terminal), TERMINALS_IN_ORDER);
    assert found.Some? && TerminalName(found.value) == TerminalName(terminal);
  }

  /** The second letter of a rule's name is small, that of a terminal's is not. */
  lemma {:induction false} NamesDiffer(rule: RuleKind, terminal: TerminalKind)
    ensures RuleName(rule) != TerminalName(terminal)
  {
    assert 'a' <= RuleName(rule)[1] <= 'z';
    assert 'A' <= TerminalName(terminal)[1] <= 'Z';
  }

  lemma {:induction false} RuleNamesDiffer(a: RuleKind, b: RuleKind)
    requires RuleName(a) == RuleName(b)
    ensures a == b
  {
    var name := RuleName(a);
    assert |name| == |RuleName(b)| && name[0] == RuleName(b)[0] && name[1] == RuleName(b)[1] && name[2] == RuleName(b)[2];
    assert name[3] == RuleName(b)[3];
  }

  lemma {:induction false} TerminalNamesDiffer(a: TerminalKind, b: TerminalKind)
    requires TerminalName(a) == TerminalName(b)
    ensures a == b
  {
    var name := TerminalName(a);
    assert |name| == |TerminalName(b)| && name[0] == TerminalName(b)[0] && name[1] == TerminalName(b)[1] && name[2] == TerminalName(b)[2];
    if |name| == 7 { assert name[6] == TerminalName(b)[6]; }
  }

  lemma {:induction false} RuleListed(rule: RuleKind)
    ensures rule in RULES_IN_ORDER
  {
    var i := match rule
      case GrammarR => 0 case ItemR => 1 case CommentR => 2 case RuleR => 3 case ChoiceR => 4 case SequenceR => 5
      case PrefixR => 6 case PostfixR => 7 case AtomR => 8 case CutR => 9 case LabelR => 10 case NameR => 11 case GroupR => 12;
    assert RULES_IN_ORDER[i] == rule;
  }

  lemma {:induction false} TerminalListed(kind: TerminalKind)
    ensures kind in TERMINALS_IN_ORDER
  {
    var i := match kind
      case IdentT => 0 case TextT => 1 case CommentLineT => 2 case CutT => 3 case LabelT => 4 case ArrowT => 5 case SlashT => 6
      case StarT => 7 case PlusT => 8 case QuestionT => 9 case AmpT => 10 case BangT => 11 case ParenLT => 12 case ParenRT => 13
      case CommaT => 14 case NewlineT => 15 case EofT => 16;
    assert TERMINALS_IN_ORDER[i] == kind;
  }

  /** A name stands for the rule or terminal that has it, and is unknown if there is none; it is never ambiguous. */
  lemma {:induction false} ResolvesExactly(name: string)
    ensures forall rule :: ResolveSymbol(name) == Ok(Rule(rule)) <==> name == RuleName(rule)
    ensures forall kind :: ResolveSymbol(name) == Ok(Token(kind)) <==> name == TerminalName(kind)
    ensures ResolveSymbol(name) == Err(Unknown(name)) <==>
            (forall rule :: RuleName(rule) != name) && (forall kind :: TerminalName(kind) != name)
  {
    hide RuleFromName, TerminalFromName, RuleName, TerminalName;
    forall rule ensures rule in RULES_IN_ORDER { RuleListed(rule); }
    forall kind ensures kind in TERMINALS_IN_ORDER { TerminalListed(kind); }
    forall rule | name == RuleName(rule) ensures ResolveSymbol(name) == Ok(Rule(rule)) { RuleNamesResolve(rule); }
    forall kind | name == TerminalName(kind) ensures ResolveSymbol(name) == Ok(Token(kind)) { TerminalNamesResolve(kind); }
  }

  lemma {:induction false} ResolveSequenceAppend(a: seq<SyntaxExpr>, b: seq<SyntaxExpr>)
    requires ResolveSequence(a).Ok? && ResolveSequence(b).Ok?
    ensures ResolveSequence(a + b) == Ok(ResolveSequence(a).value + ResolveSequence(b).value)
    decreases |a|
  {
    hide ResolveExpr, ResolveSymbol;
    if a == [] {
      assert a + b == b;
      assert [] + ResolveSequence(b).value == ResolveSequence(b).value;
    } else {
      ResolveSequenceAppend(a[1..], b);
      assert (a + b)[1..] == a[1..] + b && (a + b)[0] == a[0];
      var p, q, r := SeqParts(ResolveExpr(a[0]).value), ResolveSequence(a[1..]).value, ResolveSequence(b).value;
      assert (p + q) + r == p + (q + r);
    }
  }

  lemma {:induction false} ResolveChoiceAppend(a: seq<SyntaxExpr>, b: seq<SyntaxExpr>)
    requires ResolveChoice(a).Ok? && ResolveChoice(b).Ok?
    ensures ResolveChoice(a + b) == Ok(ResolveChoice(a).value + ResolveChoice(b).value)
    decreases |a|
  {
    hide ResolveExpr, ResolveSymbol;
    if a == [] {
      assert a + b == b;
      assert [] + ResolveChoice(b).value == ResolveChoice(b).value;
    } else {
      ResolveChoiceAppend(a[1..], b);
      assert (a + b)[1..] == a[1..] + b && (a + b)[0] == a[0];
      var p, q, r := ChoiceParts(ResolveExpr(a[0]).value), ResolveChoice(a[1..]).value, ResolveChoice(b).value;
      assert (p + q) + r == p + (q + r);
    }
  }

  /** Lists of one do not come out of resolution. */
  lemma {:induction false} ResolvedLists(s: SyntaxExpr)
    requires ResolveExpr(s).Ok?
    ensures var e := ResolveExpr(s).value; (e.Seq? ==> |e.items| >= 2) && (e.Choice? ==> |e.alternatives| >= 2)
    decreases s, 0
  {
    match s
    case NameE(_) =>
    case SeqE(items) => ResolvedParts(items);
    case ChoiceE(items) => ResolvedParts(items);
    case _ =>
  }

  /** What is spliced into a list is not a list of one. */
  lemma {:induction false} ResolvedParts(items: seq<SyntaxExpr>)
    ensures ResolveSequence(items).Ok? && |ResolveSequence(items).value| == 1 ==>
              var e := ResolveSequence(items).value[0]; !e.Seq? && (e.Choice? ==> |e.alternatives| >= 2)
    ensures ResolveChoice(items).Ok? && |ResolveChoice(items).value| == 1 ==>
              var e := ResolveChoice(items).value[0]; !e.Choice? && (e.Seq? ==> |e.items| >= 2)
    decreases items, 1
  {
    if items != [] && ResolveExpr(items[0]).Ok? {
      ResolvedLists(items[0]);
      ResolvedParts(items[1..]);
    }
  }

  lemma {:induction false} OneAlternative(s: SyntaxExpr, e: Expr)
    requires ResolveChoice([s]) == Ok(ChoiceParts(e)) && Collapsed(e)
    ensures ResolveExpr(s) == Ok(e)
  {
    assert ResolveChoice([s][1..]) == Ok([]);
    var first := ResolveExpr(s);
    assert ChoiceParts(first.value) + [] == ChoiceParts(first.value);
    ResolvedLists(s);
  }

  lemma {:induction false} OneElement(s: SyntaxExpr, e: Expr)
    requires ResolveSequence([s]) == Ok(SeqParts(e)) && Collapsed(e)
    ensures ResolveExpr(s) == Ok(e)
  {
    assert ResolveSequence([s][1..]) == Ok([]);
    var first := ResolveExpr(s);
    assert SeqParts(first.value) + [] == SeqParts(first.value);
    ResolvedLists(s);
  }

  lemma {:induction false} ResolveOne(s: SyntaxExpr, e: Expr)
    requires ResolveExpr(s) == Ok(e)
    ensures ResolveSequence([s]) == Ok(SeqParts(e)) && ResolveChoice([s]) == Ok(ChoiceParts(e))
  {
    assert [s][1..] == [] && SeqParts(e) + [] == SeqParts(e) && ChoiceParts(e) + [] == ChoiceParts(e);
  }

  /** Resolution undoes the reading, up to flattening. */
  lemma {:induction false} SynResolves(e: Expr)
    requires Printable(e)
    ensures ResolveExpr(Syn(e)) == Ok(Flat(e))
    decreases e, 6
  {
    var alternatives := Alts(e);
    AltsResolve(e);
    FlatIsCollapsed(e);
    hide Alts, Flat, ResolveChoice;
    if |alternatives| == 1 {
      assert alternatives == [alternatives[0]];
      OneAlternative(alternatives[0], Flat(e));
    }
  }

  lemma {:induction false} AltsResolve(e: Expr)
    requires Printable(e)
    ensures ResolveChoice(Alts(e)) == Ok(ChoiceParts(Flat(e)))
    decreases e, 5
  {
    if e.Choice? {
      AltsAllResolve(e.alternatives);
      FlatAlternativesCollapsed(e.alternatives);
      hide ResolveChoice, AltsAll, FlatAlternatives;
      var parts := FlatAlternatives(e.alternatives);
      if |parts| == 1 { assert parts == [parts[0]]; }
    } else {
      var elems := Elems(e);
      ElemsResolve(e);
      FlatIsCollapsed(e);
      var s := if |elems| == 1 then elems[0] else SeqE(elems);
      assert Alts(e) == [s];
      hide Elems, Flat, ResolveSequence, Alts;
      if |elems| == 1 {
        assert elems == [elems[0]];
        OneElement(elems[0], Flat(e));
      }
      ResolveOne(s, Flat(e));
    }
  }

  lemma {:induction false} AltsAllResolve(items: seq<Expr>)
    requires forall i :: 0 <= i < |items| ==> Printable(items[i])
    ensures ResolveChoice(AltsAll(items)) == Ok(FlatAlternatives(items))
    decreases items, 10
  {
    if items != [] {
      AltsResolve(items[0]);
      AltsAllResolve(items[1..]);
      ResolveChoiceAppend(Alts(items[0]), AltsAll(items[1..]));
    }
  }

  lemma {:induction false} ElemsResolve(e: Expr)
    requires Printable(e)
    ensures ResolveSequence(Elems(e)) == Ok(SeqParts(Flat(e)))
    decreases e, OrderOfElems(e)
  {
    match e
    case Seq(items) =>
      ElemsAllResolve(items);
      FlatItemsCollapsed(items);
      hide ResolveSequence, ElemsAll, FlatItems;
      var parts := FlatItems(items);
      if |parts| == 1 { assert parts == [parts[0]]; }
    case Choice(_) =>
      SynResolves(e);
      ResolveOne(Syn(e), Flat(e));
    case _ =>
      PrefixResolves(e);
      ResolveOne(PrefixOf(e), Flat(e));
  }

  lemma {:induction false} ElemsAllResolve(items: seq<Expr>)
    requires forall i :: 0 <= i < |items| ==> Printable(items[i])
    ensures ResolveSequence(ElemsAll(items)) == Ok(FlatItems(items))
    decreases items, 10
  {
    if items != [] {
      ElemsResolve(items[0]);
      ElemsAllResolve(items[1..]);
      ResolveSequenceAppend(Elems(items[0]), ElemsAll(items[1..]));
    }
  }

  lemma {:induction false} PrefixResolves(e: Expr)
    requires Printable(e)
    ensures ResolveExpr(PrefixOf(e)) == Ok(Flat(e))
    decreases e, OrderOfPrefix(e)
  {
    hide ResolveSymbol, Atomic, AtomOf, Syn, PostfixOf;
    if e.And? || e.Not? { PrefixResolves(e.item); }
    else if e.Seq? || e.Choice? { SynResolves(e); }
    else { PostfixResolves(e); }
  }

  lemma {:induction false} PostfixResolves(e: Expr)
    requires Printable(e) && Level(PrecedenceOf(e)) >= 3
    ensures ResolveExpr(PostfixOf(e)) == Ok(Flat(e))
    decreases e, 1
  {
    hide ResolveSymbol, Atomic, AtomOf;
    if e.Optional? || e.Repeat? || e.Repeat1? { AtomResolves(e.item); } else { AtomicResolves(e); }
  }

  lemma {:induction false} AtomResolves(e: Expr)
    requires Printable(e)
    ensures ResolveExpr(AtomOf(e)) == Ok(Flat(e))
    decreases e, 9
  {
    if PrecedenceOf(e) == AtomP { AtomicResolves(e); } else { SynResolves(e); }
  }

  lemma {:induction false} AtomicResolves(e: Expr)
    requires Printable(e) && PrecedenceOf(e) == AtomP
    ensures ResolveExpr(Atomic(e)) == Ok(Flat(e))
    decreases e, 0
  {
    hide ResolveSymbol, Syn, RuleName, TerminalName;
    if e.Token? { TerminalNamesResolve(e.kind); }
    else if e.Rule? { RuleNamesResolve(e.rule); }
    else { SynResolves(e.item); }
  }
}

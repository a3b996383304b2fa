/**
  Reading back what was printed. The printer's tokens, parsed with the notation's own grammar and read
  off the syntax tree, give the expression up to flattening (rex-parser/src/peg_syntax.rs,
  rex-parser/src/grammar.rs:982-1042).
 */
module PegRoundTrip {
  import opened Wrappers
  import opened Pegs
  import opened PegSemantics
  import opened PegRules
  import opened PegSyntax
  import opened PegFlattening
  import opened PegNotation
  import opened PegReading

  /** Something begins at `pos`, so no suffix stands there. */
  lemma {:induction false} SpellsStart(g: Notated, pos: nat, e: Expr, context: Precedence)
    requires Printable(e) && Spells(g, pos, Render(e, context))
    ensures pos < |g.tokens| && Starts(KindAt(g, pos)) && !IsSuffix(KindAt(g, pos))
  {
    RenderStarts(e, context);
    var kinds := Render(e, context);
    assert g.tokens[pos + 0].kind == kinds[0];
  }

  /** A choice, ended by what can neither continue it nor begin another element. */
  lemma {:induction false} ReadChoice(g: Notated, e: Expr, pos: nat, at: nat)
    requires IsNotation(g) && Printable(e) && Spells(g, pos, RenderBare(e)) && at == pos + |RenderBare(e)|
    requires !Starts(KindAt(g, at)) && !IsSuffix(KindAt(g, at)) && !KindAt(g, at).Slash?
    ensures Reads(g, ChoiceR, pos, at, Syn(e))
    decreases e, 7
  {
    NoSlash(g, at);
    ReadAlternatives(g, e, pos, at, [], at);
    assert Alts(e) + [] == Alts(e);
    ChoiceReads(g, pos, at, Alts(e));
  }

  /** The alternatives of an expression, before `rest`. */
  lemma {:induction false} ReadAlternatives(g: Notated, e: Expr, pos: nat, at: nat, rest: seq<SyntaxExpr>, end: nat)
    requires IsNotation(g) && Printable(e) && Spells(g, pos, RenderBare(e)) && at == pos + |RenderBare(e)|
    requires !Starts(KindAt(g, at)) && !IsSuffix(KindAt(g, at)) && Slashes(g, at, end, rest)
    ensures Alternatives(g, pos, end, Alts(e) + rest)
    decreases e, 6
  {
    hide Reads, Alternatives, Slashes, Run, Run1;
    if e.Choice? {
      ReadEachAlternative(g, e.alternatives, pos, at, rest, end);
    } else {
      EmptyRun(g, at);
      ReadElements(g, e, pos, at, [], at);
      assert Elems(e) + [] == Elems(e);
      SequenceReads(g, pos, at, Elems(e));
      AlternativesOf(g, pos, at, SeqOf(Elems(e)).value, end, rest);
    }
  }

  lemma {:induction false} ReadEachAlternative(g: Notated, items: seq<Expr>, pos: nat, at: nat, rest: seq<SyntaxExpr>, end: nat)
    requires IsNotation(g) && items != [] && forall i :: 0 <= i < |items| ==> Printable(items[i])
    requires Spells(g, pos, RenderAlternatives(items)) && at == pos + |RenderAlternatives(items)|
    requires !Starts(KindAt(g, at)) && !IsSuffix(KindAt(g, at)) && Slashes(g, at, end, rest)
    ensures Alternatives(g, pos, end, AltsAll(items) + rest)
    decreases items, 10
  {
    hide Reads, Alternatives, Slashes, Alts;
    var first := RenderBare(items[0]);
    assert Render(items[0], ChoiceP) == first;
    if |items| == 1 {
      assert items[1..] == [] && AltsAll(items) == Alts(items[0]) + [] == Alts(items[0]);
      ReadAlternatives(g, items[0], pos, at, rest, end);
    } else {
      var more := RenderAlternatives(items[1..]);
      assert first + [Slash] + more == first + ([Slash] + more);
      SpellsParts(g, pos, first, [Slash] + more);
      var mid := pos + |first|;
      SpellsHead(g, mid, Slash, more);
      ReadEachAlternative(g, items[1..], mid + 1, at, rest, end);
      SlashThenAlternatives(g, mid, end, AltsAll(items[1..]) + rest);
      ReadAlternatives(g, items[0], pos, mid, AltsAll(items[1..]) + rest, end);
      assert AltsAll(items) + rest == Alts(items[0]) + (AltsAll(items[1..]) + rest);
    }
  }

  /** The elements of an expression in a sequence, before `rest`. */
  lemma {:induction false} ReadElements(g: Notated, e: Expr, pos: nat, at: nat, rest: seq<SyntaxExpr>, end: nat)
    requires IsNotation(g) && Printable(e)
    requires Spells(g, pos, Render(e, SequenceP)) && at == pos + |Render(e, SequenceP)|
    requires !IsSuffix(KindAt(g, at)) && Run(g, at, end, rest)
    ensures Run1(g, pos, end, Elems(e) + rest)
    decreases e, if e.Choice? then 10 else 5
  {
    assert e.Seq? ==> RenderBare(e) == RenderItems(e.items);
    hide Reads, Run, Run1, RenderBare;
    if e.Seq? {
      ReadEachElement(g, e.items, pos, at, rest, end);
    } else if e.Choice? {
      ReadGroup(g, e, pos, at);
      RunOf(g, pos, at, Syn(e), end, rest);
    } else {
      ReadPrefix(g, e, pos, at);
      RunOf(g, pos, at, PrefixOf(e), end, rest);
    }
  }

  lemma {:induction false} ReadEachElement(g: Notated, items: seq<Expr>, pos: nat, at: nat, rest: seq<SyntaxExpr>, end: nat)
    requires IsNotation(g) && items != [] && forall i :: 0 <= i < |items| ==> Printable(items[i])
    requires Spells(g, pos, RenderItems(items)) && at == pos + |RenderItems(items)|
    requires !IsSuffix(KindAt(g, at)) && Run(g, at, end, rest)
    ensures Run1(g, pos, end, ElemsAll(items) + rest)
    decreases items, 10
  {
    hide Reads, Run, Run1, Elems;
    var first, more := Render(items[0], SequenceP), RenderItems(items[1..]);
    SpellsParts(g, pos, first, more);
    if |items| == 1 {
      assert items[1..] == [] && ElemsAll(items) == Elems(items[0]) + [] == Elems(items[0]) && first + more == first;
      ReadElements(g, items[0], pos, at, rest, end);
    } else {
      var mid := pos + |first|;
      ReadEachElement(g, items[1..], mid, at, rest, end);
      SpellsMore(g, mid, items[1..]);
      RunIsRun(g, mid, end, ElemsAll(items[1..]) + rest);
      ReadElements(g, items[0], pos, mid, ElemsAll(items[1..]) + rest, end);
      assert ElemsAll(items) + rest == Elems(items[0]) + (ElemsAll(items[1..]) + rest);
    }
  }

  lemma {:induction false} SpellsMore(g: Notated, pos: nat, items: seq<Expr>)
    requires items != [] && Printable(items[0]) && Spells(g, pos, RenderItems(items))
    ensures !IsSuffix(KindAt(g, pos))
  {
    SpellsParts(g, pos, Render(items[0], SequenceP), RenderItems(items[1..]));
    SpellsStart(g, pos, items[0], SequenceP);
  }

  /** One element. */
  lemma {:induction false} ReadPrefix(g: Notated, e: Expr, pos: nat, at: nat)
    requires IsNotation(g) && Printable(e) && Spells(g, pos, Render(e, PrefixP)) && at == pos + |Render(e, PrefixP)|
    requires !IsSuffix(KindAt(g, at))
    ensures Reads(g, PrefixR, pos, at, PrefixOf(e))
    decreases e, if e.Choice? || e.Seq? then 10 else 3
  {
    hide Reads;
    if e.And? || e.Not? {
      SpellsHead(g, pos, if e.And? then Amp else Bang, Render(e.item, PrefixP));
      ReadPrefix(g, e.item, pos + 1, at);
      if e.And? { AndReads(g, pos, at, PrefixOf(e.item)); } else { NotReads(g, pos, at, PrefixOf(e.item)); }
    } else if e.Seq? || e.Choice? {
      ReadGroup(g, e, pos, at);
    } else {
      ReadPostfix(g, e, pos, at);
      PostfixStart(g, e, pos);
      PrefixFromPostfix(g, pos, at, PostfixOf(e));
    }
  }

  /** A group as one element. */
  lemma {:induction false} ReadGroup(g: Notated, e: Expr, pos: nat, at: nat)
    requires IsNotation(g) && Printable(e) && !IsSuffix(KindAt(g, at))
    requires Spells(g, pos, [ParenL] + RenderBare(e) + [ParenR]) && at == pos + |RenderBare(e)| + 2
    ensures Reads(g, PrefixR, pos, at, Syn(e))
    decreases e, 9
  {
    hide Reads, RenderBare;
    ReadParens(g, e, pos, at);
    PlainPostfix(g, pos, at, Syn(e));
    assert g.tokens[pos + 0].kind == ([ParenL] + RenderBare(e) + [ParenR])[0];
    PrefixFromPostfix(g, pos, at, Syn(e));
  }

  lemma {:induction false} ReadParens(g: Notated, e: Expr, pos: nat, at: nat)
    requires IsNotation(g) && Printable(e)
    requires Spells(g, pos, [ParenL] + RenderBare(e) + [ParenR]) && at == pos + |RenderBare(e)| + 2
    ensures Reads(g, AtomR, pos, at, Syn(e))
    decreases e, 8
  {
    hide Reads, RenderBare;
    SpellsLast(g, pos, [ParenL] + RenderBare(e), ParenR);
    SpellsHead(g, pos, ParenL, RenderBare(e));
    ReadChoice(g, e, pos + 1, at - 1);
    GroupReads(g, pos, at - 1, Syn(e));
  }

  lemma {:induction false} PostfixStart(g: Notated, e: Expr, pos: nat)
    requires Printable(e) && Level(PrecedenceOf(e)) >= 3 && Spells(g, pos, RenderBare(e))
    ensures pos < |g.tokens| && !KindAt(g, pos).Amp? && !KindAt(g, pos).Bang?
  {
    RenderBareStarts(e);
    assert g.tokens[pos + 0].kind == RenderBare(e)[0];
    if e.Optional? || e.Repeat? || e.Repeat1? {
      RenderStarts(e.item, AtomP);
      assert RenderBare(e)[0] == Render(e.item, AtomP)[0];
    }
  }

  /** An atom with at most one suffix. */
  lemma {:induction false} ReadPostfix(g: Notated, e: Expr, pos: nat, at: nat)
    requires IsNotation(g) && Printable(e) && Level(PrecedenceOf(e)) >= 3
    requires Spells(g, pos, RenderBare(e)) && at == pos + |RenderBare(e)| && !IsSuffix(KindAt(g, at))
    ensures Reads(g, PostfixR, pos, at, PostfixOf(e))
    decreases e, 1
  {
    hide Reads, Render, Atomic, AtomOf;
    if e.Optional? || e.Repeat? || e.Repeat1? {
      var kind := if e.Optional? then Question else if e.Repeat? then Star else Plus;
      SpellsLast(g, pos, Render(e.item, AtomP), kind);
      ReadAtom(g, e.item, pos, at - 1);
      SuffixedPostfix(g, pos, at - 1, AtomOf(e.item));
    } else {
      ReadAtomic(g, e, pos, at);
      PlainPostfix(g, pos, at, Atomic(e));
    }
  }

  lemma {:induction false} ReadAtom(g: Notated, e: Expr, pos: nat, at: nat)
    requires IsNotation(g) && Printable(e) && Spells(g, pos, Render(e, AtomP)) && at == pos + |Render(e, AtomP)|
    ensures Reads(g, AtomR, pos, at, AtomOf(e))
    decreases e, 11
  {
    hide Reads, RenderBare, Atomic, Syn;
    if PrecedenceOf(e) == AtomP { ReadAtomic(g, e, pos, at); } else { ReadParens(g, e, pos, at); }
  }

  lemma {:induction false} ReadAtomic(g: Notated, e: Expr, pos: nat, at: nat)
    requires IsNotation(g) && Printable(e) && PrecedenceOf(e) == AtomP
    requires Spells(g, pos, RenderBare(e)) && at == pos + |RenderBare(e)|
    ensures Reads(g, AtomR, pos, at, Atomic(e))
    decreases e, 0
  {
    hide Reads, RuleName, TerminalName, Syn, IsNotation;
    if e.Token? || e.Rule? {
      assert g.tokens[pos + 0].kind == RenderBare(e)[0];
      NameReads(g, pos);
    } else {
      var inner, opening := RenderBare(e.item), if e.Cut? then [CutWord, ParenL] else [LabelWord, ParenL, Text(e.message), Comma];
      assert RenderBare(e) == opening + inner + [ParenR] by { assert inner == Render(e.item, ChoiceP); }
      hide RenderBare, Spells, KindAt;
      Enclosed(g, pos, opening, inner);
      ReadChoice(g, e.item, pos + |opening|, at - 1);
      ReadsForward(g, pos + |opening|, at - 1, Syn(e.item));
      if e.Cut? { CutReads(g, pos, at - 1, Syn(e.item)); } else { LabelReads(g, pos, at - 1, Syn(e.item)); }
    }
  }

  lemma {:induction false} Enclosed(g: Notated, pos: nat, opening: seq<TokenKind>, inner: seq<TokenKind>)
    requires Spells(g, pos, opening + inner + [ParenR])
    ensures Spells(g, pos + |opening|, inner) && pos + |opening| + |inner| < |g.tokens|
    ensures KindAt(g, pos + |opening| + |inner|) == ParenR
    ensures |opening| > 0 ==> KindAt(g, pos) == opening[0]
    ensures |opening| > 1 ==> KindAt(g, pos + 1) == opening[1]
    ensures |opening| > 3 ==> KindAt(g, pos + 2) == opening[2] && KindAt(g, pos + 3) == opening[3]
  {
    SpellsLast(g, pos, opening + inner, ParenR);
    SpellsParts(g, pos, opening, inner);
    forall i | 0 <= i < |opening| ensures KindAt(g, pos + i) == opening[i] { assert g.tokens[pos + i].kind == opening[i]; }
    assert |opening| > 0 ==> KindAt(g, pos + 0) == opening[0];
  }

  lemma {:induction false} ReadsForward(g: Notated, pos: nat, at: nat, s: SyntaxExpr)
    requires Reads(g, ChoiceR, pos, at, s)
    ensures pos < at
  {
  }

  // ---- the round trip -----------------------------------------------------------------------------------------

  /**
    The tokens printed for an expression, followed by the end of input, parse as a `Choice` that takes
    them all, are read off the tree, and resolve to the expression flattened; that is the expression
    itself exactly if it was canonical.
   */
  lemma {:induction false} RoundTrip(tokens: seq<SyntaxToken>, eof: SyntaxToken, e: Expr) returns (node: Tree)
    requires eof.kind.Eof? && Printable(e)
    requires |tokens| == |Render(e, ChoiceP)| && forall i :: 0 <= i < |tokens| ==> tokens[i].kind == Render(e, ChoiceP)[i]
    ensures node.Node? && node.rule == ChoiceR
    ensures Gives(Notation(tokens, eof), Rule(ChoiceR), 0, [node], |tokens|)
    ensures ChoiceFromCst(node.children) == Some(Syn(e))
    ensures ResolveExpr(Syn(e)) == Ok(Flat(e)) && (Flat(e) == e <==> Canonical(e))
  {
    var g := Notation(tokens, eof);
    assert Render(e, ChoiceP) == RenderBare(e);
    ReadChoice(g, e, 0, |tokens|);
    node := NodeOf(g, ChoiceR, 0, |tokens|, Syn(e));
    SynResolves(e);
    FlatIsCanonical(e);
    if Canonical(e) { CanonicalIsFlat(e); }
  }
}

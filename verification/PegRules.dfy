/** The semantics read as inference rules, the fuel out of sight. */
module PegRules {
  import opened Wrappers
  import opened Pegs
  import opened PegSemantics

  /** The expression succeeds from `pos` to `at` with these trees. */
  ghost predicate Gives<R(!new), K, T(!new)>(g: Language<R, K, T>, e: Peg<R, K>, pos: nat, trees: seq<Cst<R, T>>, at: nat) {
    g.Ok() && pos <= |g.tokens| && exists fuel: nat :: Parse(g, e, pos, fuel) == Some(Res(Ok(trees), at))
  }

  ghost predicate FailsWith<R(!new), K, T(!new)>(g: Language<R, K, T>, e: Peg<R, K>, pos: nat, fuel: nat)
    requires g.Ok() && pos <= |g.tokens|
  {
    var r := Parse(g, e, pos, fuel);
    r.Some? && r.value.out.Err? && !r.value.out.error.committed && r.value.at == pos
  }

  /** The expression fails, uncommitted. */
  ghost predicate Fails<R(!new), K, T(!new)>(g: Language<R, K, T>, e: Peg<R, K>, pos: nat) {
    g.Ok() && pos <= |g.tokens| && exists fuel: nat :: FailsWith(g, e, pos, fuel)
  }

  lemma {:induction false} GivesMore<R(!new), K, T(!new)>(g: Language<R, K, T>, e: Peg<R, K>, pos: nat, trees: seq<Cst<R, T>>, at: nat)
    returns (fuel: nat)
    requires Gives(g, e, pos, trees, at)
    ensures pos <= at <= |g.tokens|
    ensures forall more: nat :: fuel <= more ==> Parse(g, e, pos, more) == Some(Res(Ok(trees), at))
  {
    fuel :| Parse(g, e, pos, fuel) == Some(Res(Ok(trees), at));
    forall more: nat | fuel <= more ensures Parse(g, e, pos, more) == Some(Res(Ok(trees), at)) {
      MoreFuel(g, e, pos, fuel, more);
    }
  }

  lemma {:induction false} FailsMore<R(!new), K, T(!new)>(g: Language<R, K, T>, e: Peg<R, K>, pos: nat) returns (fuel: nat)
    requires Fails(g, e, pos)
    ensures forall more: nat :: fuel <= more ==> FailsWith(g, e, pos, more)
  {
    fuel :| FailsWith(g, e, pos, fuel);
    forall more: nat | fuel <= more ensures FailsWith(g, e, pos, more) {
      MoreFuel(g, e, pos, fuel, more);
    }
  }

  // ---- tokens and rules -------------------------------------------------------------------------------

  lemma {:induction false} TokenGives<R(!new), K, T(!new)>(g: Language<R, K, T>, kind: K, pos: nat)
    requires g.Ok() && pos <= |g.tokens| && g.matches(kind, g.TokenAt(pos)) && !g.isEof(g.TokenAt(pos))
    ensures Gives(g, Token(kind), pos, [Leaf(g.TokenAt(pos))], pos + 1)
  {
    assert Parse(g, Token(kind), pos, 0) == Some(Res(Ok([Leaf(g.TokenAt(pos))]), pos + 1));
  }

  lemma {:induction false} TokenFails<R(!new), K, T(!new)>(g: Language<R, K, T>, kind: K, pos: nat)
    requires g.Ok() && pos <= |g.tokens| && !g.matches(kind, g.TokenAt(pos))
    ensures Fails(g, Token(kind), pos)
  {
    assert FailsWith(g, Token(kind), pos, 0);
  }

  lemma {:induction false} RuleGives<R(!new), K, T(!new)>(g: Language<R, K, T>, rule: R, pos: nat, trees: seq<Cst<R, T>>, at: nat)
    requires rule in g.rules && Gives(g, g.rules[rule], pos, trees, at)
    ensures Gives(g, Rule(rule), pos, [Node(rule, g.SpanBetween(pos, at), trees)], at)
  {
    var fuel := GivesMore(g, g.rules[rule], pos, trees, at);
    assert Parse(g, Rule(rule), pos, fuel + 1) == Some(Res(Ok([Node(rule, g.SpanBetween(pos, at), trees)]), at));
  }

  lemma {:induction false} RuleFails<R(!new), K, T(!new)>(g: Language<R, K, T>, rule: R, pos: nat)
    requires rule in g.rules && Fails(g, g.rules[rule], pos)
    ensures Fails(g, Rule(rule), pos)
  {
    var fuel := FailsMore(g, g.rules[rule], pos);
    assert FailsWith(g, g.rules[rule], pos, fuel);
    assert FailsWith(g, Rule(rule), pos, fuel + 1);
  }

  // ---- sequences ------------------------------------------------------------------------------------------

  /** The items from the `i`th on succeed. */
  ghost predicate SeqGives<R(!new), K, T(!new)>(g: Language<R, K, T>, items: seq<Peg<R, K>>, i: nat, pos: nat, trees: seq<Cst<R, T>>, at: nat) {
    g.Ok() && i < |items| && pos <= |g.tokens| && exists fuel: nat :: SeqGivesWith(g, items, i, pos, trees, at, fuel)
  }

  ghost predicate SeqGivesWith<R(!new), K, T(!new)>(g: Language<R, K, T>, items: seq<Peg<R, K>>, i: nat, pos: nat,
                                        trees: seq<Cst<R, T>>, at: nat, fuel: nat)
    requires g.Ok() && i < |items| && pos <= |g.tokens|
  {
    forall acc: seq<Cst<R, T>>, start: nat :: start <= pos ==>
      ParseSeq(g, items, i, acc, start, pos, fuel) == Some(Res(Ok(acc + trees), at))
  }

  lemma {:induction false} SeqLast<R(!new), K, T(!new)>(g: Language<R, K, T>, items: seq<Peg<R, K>>, i: nat, pos: nat,
                                            trees: seq<Cst<R, T>>, at: nat)
    requires i + 1 == |items| && Gives(g, items[i], pos, trees, at)
    ensures SeqGives(g, items, i, pos, trees, at)
  {
    var fuel := GivesMore(g, items[i], pos, trees, at);
    assert SeqGivesWith(g, items, i, pos, trees, at, fuel);
  }

  lemma {:induction false} SeqMore<R(!new), K, T(!new)>(g: Language<R, K, T>, items: seq<Peg<R, K>>, i: nat, pos: nat,
                                            trees: seq<Cst<R, T>>, mid: nat, trees': seq<Cst<R, T>>, at: nat)
    requires i + 1 < |items| && Gives(g, items[i], pos, trees, mid) && SeqGives(g, items, i + 1, mid, trees', at)
    ensures SeqGives(g, items, i, pos, trees + trees', at)
  {
    var k := GivesMore(g, items[i], pos, trees, mid);
    var k': nat :| SeqGivesWith(g, items, i + 1, mid, trees', at, k');
    var fuel := Max(k, k');
    forall acc: seq<Cst<R, T>>, start: nat | start <= pos
      ensures ParseSeq(g, items, i, acc, start, pos, fuel) == Some(Res(Ok(acc + (trees + trees')), at))
    {
      assert acc + (trees + trees') == (acc + trees) + trees';
      assert ParseSeq(g, items, i + 1, acc + trees, start, mid, k') == Some(Res(Ok((acc + trees) + trees'), at));
      MoreFuelSeq(g, items, i + 1, acc + trees, start, mid, k', fuel);
    }
    assert SeqGivesWith(g, items, i, pos, trees + trees', at, fuel);
  }

  lemma {:induction false} SeqDone<R(!new), K, T(!new)>(g: Language<R, K, T>, items: seq<Peg<R, K>>, pos: nat, trees: seq<Cst<R, T>>, at: nat)
    requires SeqGives(g, items, 0, pos, trees, at)
    ensures Gives(g, Seq(items), pos, trees, at)
  {
    var fuel: nat :| SeqGivesWith(g, items, 0, pos, trees, at, fuel);
    assert ParseSeq(g, items, 0, [], pos, pos, fuel) == Some(Res(Ok([] + trees), at));
    assert [] + trees == trees;
    assert Parse(g, Seq(items), pos, fuel) == Some(Res(Ok(trees), at));
  }

  lemma {:induction false} SeqFails<R(!new), K, T(!new)>(g: Language<R, K, T>, items: seq<Peg<R, K>>, pos: nat)
    requires items != [] && Fails(g, items[0], pos)
    ensures Fails(g, Seq(items), pos)
  {
    var fuel := FailsMore(g, items[0], pos);
    assert FailsWith(g, items[0], pos, fuel);
    assert FailsWith(g, Seq(items), pos, fuel);
  }

  // ---- choices ----------------------------------------------------------------------------------------------

  ghost predicate ChoiceGives<R(!new), K, T(!new)>(g: Language<R, K, T>, alternatives: seq<Peg<R, K>>, i: nat, pos: nat,
                                       trees: seq<Cst<R, T>>, at: nat)
  {
    g.Ok() && i < |alternatives| && pos <= |g.tokens|
    && exists fuel: nat :: ChoiceGivesWith(g, alternatives, i, pos, trees, at, fuel)
  }

  ghost predicate ChoiceGivesWith<R(!new), K, T(!new)>(g: Language<R, K, T>, alternatives: seq<Peg<R, K>>, i: nat, pos: nat,
                                           trees: seq<Cst<R, T>>, at: nat, fuel: nat)
    requires g.Ok() && i < |alternatives| && pos <= |g.tokens|
  {
    forall failure: Option<Failure> :: ParseChoice(g, alternatives, i, failure, pos, fuel) == Some(Res(Ok(trees), at))
  }

  lemma {:induction false} ChoiceHere<R(!new), K, T(!new)>(g: Language<R, K, T>, alternatives: seq<Peg<R, K>>, i: nat, pos: nat,
                                               trees: seq<Cst<R, T>>, at: nat)
    requires i < |alternatives| && Gives(g, alternatives[i], pos, trees, at)
    ensures ChoiceGives(g, alternatives, i, pos, trees, at)
  {
    var fuel := GivesMore(g, alternatives[i], pos, trees, at);
    assert ChoiceGivesWith(g, alternatives, i, pos, trees, at, fuel);
  }

  lemma {:induction false} ChoiceNext<R(!new), K, T(!new)>(g: Language<R, K, T>, alternatives: seq<Peg<R, K>>, i: nat, pos: nat,
                                               trees: seq<Cst<R, T>>, at: nat)
    requires i + 1 < |alternatives| && Fails(g, alternatives[i], pos) && ChoiceGives(g, alternatives, i + 1, pos, trees, at)
    ensures ChoiceGives(g, alternatives, i, pos, trees, at)
  {
    var k := FailsMore(g, alternatives[i], pos);
    var k': nat :| ChoiceGivesWith(g, alternatives, i + 1, pos, trees, at, k');
    var fuel := Max(k, k');
    assert FailsWith(g, alternatives[i], pos, fuel);
    var err := Parse(g, alternatives[i], pos, fuel).value.out.error;
    forall failure: Option<Failure>
      ensures ParseChoice(g, alternatives, i, failure, pos, fuel) == Some(Res(Ok(trees), at))
    {
      var merged := Some(MergeFailure(failure, err));
      assert ParseChoice(g, alternatives, i + 1, merged, pos, k') == Some(Res(Ok(trees), at));
      MoreFuelChoice(g, alternatives, i + 1, merged, pos, k', fuel);
    }
    assert ChoiceGivesWith(g, alternatives, i, pos, trees, at, fuel);
  }

  lemma {:induction false} ChoiceDone<R(!new), K, T(!new)>(g: Language<R, K, T>, alternatives: seq<Peg<R, K>>, pos: nat,
                                               trees: seq<Cst<R, T>>, at: nat)
    requires ChoiceGives(g, alternatives, 0, pos, trees, at)
    ensures Gives(g, Choice(alternatives), pos, trees, at)
  {
    var fuel: nat :| ChoiceGivesWith(g, alternatives, 0, pos, trees, at, fuel);
    assert ParseChoice(g, alternatives, 0, None, pos, fuel) == Some(Res(Ok(trees), at));
    assert Parse(g, Choice(alternatives), pos, fuel) == Some(Res(Ok(trees), at));
  }

  lemma {:induction false} ChoiceFails<R(!new), K, T(!new)>(g: Language<R, K, T>, alternatives: seq<Peg<R, K>>, pos: nat)
    requires alternatives != [] && forall i :: 0 <= i < |alternatives| ==> Fails(g, alternatives[i], pos)
    ensures Fails(g, Choice(alternatives), pos)
  {
    assert Fails(g, alternatives[0], pos);
    var fuel := ChoiceFailsFrom(g, alternatives, 0, None, pos);
    assert FailsWith(g, Choice(alternatives), pos, fuel);
  }

  lemma {:induction false} ChoiceFailsFrom<R(!new), K, T(!new)>(g: Language<R, K, T>, alternatives: seq<Peg<R, K>>, i: nat,
                                                    failure: Option<Failure>, pos: nat)
    returns (fuel: nat)
    requires g.Ok() && pos <= |g.tokens| && i < |alternatives| && (failure.Some? ==> !failure.value.committed)
    requires forall j :: 0 <= j < |alternatives| ==> Fails(g, alternatives[j], pos)
    ensures var r := ParseChoice(g, alternatives, i, failure, pos, fuel);
            r.Some? && r.value.out.Err? && !r.value.out.error.committed && r.value.at == pos
    decreases |alternatives| - i
  {
    fuel := FailsMore(g, alternatives[i], pos);
    assert FailsWith(g, alternatives[i], pos, fuel);
    if i + 1 < |alternatives| {
      var merged := Some(MergeFailure(failure, Parse(g, alternatives[i], pos, fuel).value.out.error));
      var k := ChoiceFailsFrom(g, alternatives, i + 1, merged, pos);
      var more := Max(fuel, k);
      MoreFuel(g, alternatives[i], pos, fuel, more);
      MoreFuelChoice(g, alternatives, i + 1, merged, pos, k, more);
      fuel := more;
    }
  }

  // ---- repetition -------------------------------------------------------------------------------------------

  ghost predicate RepeatGives<R(!new), K, T(!new)>(g: Language<R, K, T>, item: Peg<R, K>, pos: nat, trees: seq<Cst<R, T>>, at: nat) {
    g.Ok() && pos <= |g.tokens| && exists fuel: nat :: RepeatGivesWith(g, item, pos, trees, at, fuel)
  }

  ghost predicate RepeatGivesWith<R(!new), K, T(!new)>(g: Language<R, K, T>, item: Peg<R, K>, pos: nat, trees: seq<Cst<R, T>>,
                                           at: nat, fuel: nat)
    requires g.Ok() && pos <= |g.tokens|
  {
    forall acc: seq<Cst<R, T>> :: ParseRepeat(g, item, acc, pos, fuel) == Some(Res(Ok(acc + trees), at))
  }

  lemma {:induction false} RepeatStop<R(!new), K, T(!new)>(g: Language<R, K, T>, item: Peg<R, K>, pos: nat)
    requires Fails(g, item, pos)
    ensures RepeatGives(g, item, pos, [], pos)
  {
    var fuel := FailsMore(g, item, pos);
    assert FailsWith(g, item, pos, fuel);
    assert forall acc: seq<Cst<R, T>> :: acc + [] == acc;
    assert RepeatGivesWith(g, item, pos, [], pos, fuel);
  }

  lemma {:induction false} RepeatMore<R(!new), K, T(!new)>(g: Language<R, K, T>, item: Peg<R, K>, pos: nat, trees: seq<Cst<R, T>>,
                                               mid: nat, trees': seq<Cst<R, T>>, at: nat)
    requires Gives(g, item, pos, trees, mid) && mid != pos && RepeatGives(g, item, mid, trees', at)
    ensures RepeatGives(g, item, pos, trees + trees', at)
  {
    var k := GivesMore(g, item, pos, trees, mid);
    var k': nat :| RepeatGivesWith(g, item, mid, trees', at, k');
    var fuel := Max(k, k');
    forall acc: seq<Cst<R, T>>
      ensures ParseRepeat(g, item, acc, pos, fuel) == Some(Res(Ok(acc + (trees + trees')), at))
    {
      assert acc + (trees + trees') == (acc + trees) + trees';
      assert ParseRepeat(g, item, acc + trees, mid, k') == Some(Res(Ok((acc + trees) + trees'), at));
      MoreFuelRepeat(g, item, acc + trees, mid, k', fuel);
    }
    assert RepeatGivesWith(g, item, pos, trees + trees', at, fuel);
  }

  lemma {:induction false} RepeatDone<R(!new), K, T(!new)>(g: Language<R, K, T>, item: Peg<R, K>, pos: nat, trees: seq<Cst<R, T>>, at: nat)
    requires RepeatGives(g, item, pos, trees, at)
    ensures Gives(g, Repeat(item), pos, trees, at)
  {
    var fuel: nat :| RepeatGivesWith(g, item, pos, trees, at, fuel);
    assert ParseRepeat(g, item, [], pos, fuel) == Some(Res(Ok([] + trees), at));
    assert [] + trees == trees;
    assert Parse(g, Repeat(item), pos, fuel) == Some(Res(Ok(trees), at));
  }

  lemma {:induction false} Repeat1Done<R(!new), K, T(!new)>(g: Language<R, K, T>, item: Peg<R, K>, pos: nat, trees: seq<Cst<R, T>>,
                                                mid: nat, trees': seq<Cst<R, T>>, at: nat)
    requires Gives(g, item, pos, trees, mid) && RepeatGives(g, item, mid, trees', at)
    ensures Gives(g, Repeat1(item), pos, trees + trees', at)
  {
    var k := GivesMore(g, item, pos, trees, mid);
    var k': nat :| RepeatGivesWith(g, item, mid, trees', at, k');
    var fuel := Max(k, k');
    assert ParseRepeat(g, item, trees, mid, k') == Some(Res(Ok(trees + trees'), at));
    MoreFuelRepeat(g, item, trees, mid, k', fuel);
    assert Parse(g, Repeat1(item), pos, fuel) == Some(Res(Ok(trees + trees'), at));
  }
}

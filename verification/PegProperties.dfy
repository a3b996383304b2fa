/** What the parser promises about cursors, cuts and trees. */
module PegProperties {
  import opened Wrappers
  import opened Pegs
  import opened PegSemantics

  // ---- backtracking and cut ---------------------------------------------------------------------------

  /** Where a failure may leave the cursor: only a committed one may leave it further on. */
  ghost predicate BacksUp<R, T>(r: Option<Res<R, T>>, pos: nat) {
    r.Some? && r.value.out.Err? && !r.value.out.error.committed ==> r.value.at == pos
  }

  lemma {:induction false} UncommittedBacksUp<R, K, T>(g: Language<R, K, T>, e: Peg<R, K>, pos: nat, fuel: nat)
    requires g.Ok() && pos <= |g.tokens|
    ensures BacksUp(Parse(g, e, pos, fuel), pos)
    decreases fuel, e, 0
  {
    match e
    case Token(_) =>
    case Rule(_) =>
    case Seq(items) => if items != [] { SeqBacksUp(g, items, 0, [], pos, pos, fuel); }
    case Choice(alternatives) => if alternatives != [] { ChoiceBacksUp(g, alternatives, 0, None, pos, fuel); }
    case Repeat(item) => RepeatBacksUp(g, item, [], pos, fuel);
    case Repeat1(item) =>
      UncommittedBacksUp(g, item, pos, fuel);
      var first := Parse(g, item, pos, fuel);
      if first.Some? && first.value.out.Ok? { RepeatBacksUp(g, item, first.value.out.value, first.value.at, fuel); }
    case _ => UncommittedBacksUp(g, e.item, pos, fuel);
  }

  lemma {:induction false} SeqBacksUp<R, K, T>(g: Language<R, K, T>, items: seq<Peg<R, K>>, i: nat,
                                               children: seq<Cst<R, T>>, start: nat, pos: nat, fuel: nat)
    requires g.Ok() && i < |items| && start <= pos <= |g.tokens|
    ensures var r := ParseSeq(g, items, i, children, start, pos, fuel);
            r.Some? && r.value.out.Err? ==> r.value.at == start
    decreases fuel, items, |items| - i
  {
    var r := Parse(g, items[i], pos, fuel);
    if r.Some? && r.value.out.Ok? && i + 1 < |items| {
      SeqBacksUp(g, items, i + 1, children + r.value.out.value, start, r.value.at, fuel);
    }
  }

  lemma {:induction false} ChoiceBacksUp<R, K, T>(g: Language<R, K, T>, alternatives: seq<Peg<R, K>>, i: nat,
                                                  failure: Option<Failure>, pos: nat, fuel: nat)
    requires g.Ok() && i < |alternatives| && pos <= |g.tokens|
    ensures BacksUp(ParseChoice(g, alternatives, i, failure, pos, fuel), pos)
    decreases fuel, alternatives, |alternatives| - i
  {
    UncommittedBacksUp(g, alternatives[i], pos, fuel);
    var r := Parse(g, alternatives[i], pos, fuel);
    if r.Some? && r.value.out.Err? && !r.value.out.error.committed && i + 1 < |alternatives| {
      ChoiceBacksUp(g, alternatives, i + 1, Some(MergeFailure(failure, r.value.out.error)), pos, fuel);
    }
  }

  /** A repetition fails only by a commitment inside it. */
  lemma {:induction false} RepeatBacksUp<R, K, T>(g: Language<R, K, T>, item: Peg<R, K>, children: seq<Cst<R, T>>,
                                                  pos: nat, fuel: nat)
    requires g.Ok() && pos <= |g.tokens|
    ensures var r := ParseRepeat(g, item, children, pos, fuel);
            r.Some? && r.value.out.Err? ==> r.value.out.error.committed
    decreases fuel, item, 1 + |g.tokens| - pos
  {
    var r := Parse(g, item, pos, fuel);
    if r.Some? && r.value.out.Ok? && r.value.at != pos {
      RepeatBacksUp(g, item, children + r.value.out.value, r.value.at, fuel);
    }
  }

  /**
    Rules, sequences and lookahead put the cursor back on every failure, a committed one included, and
    lookahead even on success; optional and repeated expressions fail only if committed.
   */
  lemma {:induction false} FailureByShape<R, K, T>(g: Language<R, K, T>, e: Peg<R, K>, pos: nat, fuel: nat)
    requires g.Ok() && pos <= |g.tokens| && Parse(g, e, pos, fuel).Some?
    ensures var r := Parse(g, e, pos, fuel).value;
            && (r.out.Err? && (e.Rule? || e.Seq?) ==> r.at == pos)
            && (e.And? || e.Not? ==> r.at == pos && (r.out.Err? ==> !r.out.error.committed))
            && (r.out.Err? && (e.Optional? || e.Repeat? || e.Cut?) ==> r.out.error.committed)
  {
    match e
    case Seq(items) => if items != [] { SeqBacksUp(g, items, 0, [], pos, pos, fuel); }
    case Repeat(item) => RepeatBacksUp(g, item, [], pos, fuel);
    case _ =>
  }

  /** A choice that succeeds or is committed is decided: no further alternative makes a difference. */
  lemma {:induction false} DecidedChoice<R, K, T>(g: Language<R, K, T>, tried: seq<Peg<R, K>>, further: seq<Peg<R, K>>,
                                                  i: nat, failure: Option<Failure>, pos: nat, fuel: nat)
    requires g.Ok() && i < |tried| && pos <= |g.tokens|
    requires var r := ParseChoice(g, tried, i, failure, pos, fuel);
             r.Some? && (r.value.out.Ok? || r.value.out.error.committed)
    requires failure.Some? ==> !failure.value.committed
    ensures ParseChoice(g, tried + further, i, failure, pos, fuel) == ParseChoice(g, tried, i, failure, pos, fuel)
    decreases |tried| - i
  {
    assert (tried + further)[i] == tried[i];
    var r := Parse(g, tried[i], pos, fuel);
    if r.value.out.Err? && !r.value.out.error.committed && i + 1 < |tried| {
      DecidedChoice(g, tried, further, i + 1, Some(MergeFailure(failure, r.value.out.error)), pos, fuel);
    }
  }

  /** No cut outside lookahead. */
  ghost predicate CutFree<R, K>(e: Peg<R, K>)
    decreases e
  {
    match e
    case Token(_) => true
    case Rule(_) => true
    case Seq(items) => forall i :: 0 <= i < |items| ==> CutFree(items[i])
    case Choice(alternatives) => forall i :: 0 <= i < |alternatives| ==> CutFree(alternatives[i])
    case Optional(item) => CutFree(item)
    case Repeat(item) => CutFree(item)
    case Repeat1(item) => CutFree(item)
    case And(_) => true
    case Not(_) => true
    case Label(_, item) => CutFree(item)
    case Cut(_) => false
  }

  ghost predicate Uncommitted<R, T>(r: Option<Res<R, T>>) {
    r.Some? && r.value.out.Err? ==> !r.value.out.error.committed
  }

  /** Commitment comes from cuts alone: a grammar without them never commits, whatever lookahead does inside. */
  lemma {:induction false} OnlyCutCommits<R, K, T>(g: Language<R, K, T>, e: Peg<R, K>, pos: nat, fuel: nat)
    requires g.Ok() && pos <= |g.tokens| && CutFree(e) && forall r :: r in g.rules ==> CutFree(g.rules[r])
    ensures Uncommitted(Parse(g, e, pos, fuel))
    decreases fuel, e, 0
  {
    match e
    case Token(_) =>
    case Rule(rule) => if rule in g.rules && fuel > 0 { OnlyCutCommits(g, g.rules[rule], pos, fuel - 1); }
    case Seq(items) => if items != [] { SeqUncommitted(g, items, 0, [], pos, pos, fuel); }
    case Choice(alternatives) => if alternatives != [] { ChoiceUncommitted(g, alternatives, 0, None, pos, fuel); }
    case Repeat(item) => RepeatUncommitted(g, item, [], pos, fuel);
    case Repeat1(item) =>
      OnlyCutCommits(g, item, pos, fuel);
      var first := Parse(g, item, pos, fuel);
      if first.Some? && first.value.out.Ok? { RepeatUncommitted(g, item, first.value.out.value, first.value.at, fuel); }
    case And(_) =>
    case Not(_) =>
    case Optional(item) => OnlyCutCommits(g, item, pos, fuel);
    case Label(_, item) => OnlyCutCommits(g, item, pos, fuel);
    case Cut(_) =>
  }

  lemma {:induction false} SeqUncommitted<R, K, T>(g: Language<R, K, T>, items: seq<Peg<R, K>>, i: nat,
                                                   children: seq<Cst<R, T>>, start: nat, pos: nat, fuel: nat)
    requires g.Ok() && i < |items| && start <= pos <= |g.tokens|
    requires (forall j :: 0 <= j < |items| ==> CutFree(items[j])) && forall r :: r in g.rules ==> CutFree(g.rules[r])
    ensures Uncommitted(ParseSeq(g, items, i, children, start, pos, fuel))
    decreases fuel, items, |items| - i
  {
    OnlyCutCommits(g, items[i], pos, fuel);
    var r := Parse(g, items[i], pos, fuel);
    if r.Some? && r.value.out.Ok? && i + 1 < |items| {
      SeqUncommitted(g, items, i + 1, children + r.value.out.value, start, r.value.at, fuel);
    }
  }

  lemma {:induction false} ChoiceUncommitted<R, K, T>(g: Language<R, K, T>, alternatives: seq<Peg<R, K>>, i: nat,
                                                      failure: Option<Failure>, pos: nat, fuel: nat)
    requires g.Ok() && i < |alternatives| && pos <= |g.tokens| && (failure.Some? ==> !failure.value.committed)
    requires (forall j :: 0 <= j < |alternatives| ==> CutFree(alternatives[j])) && forall r :: r in g.rules ==> CutFree(g.rules[r])
    ensures Uncommitted(ParseChoice(g, alternatives, i, failure, pos, fuel))
    decreases fuel, alternatives, |alternatives| - i
  {
    OnlyCutCommits(g, alternatives[i], pos, fuel);
    var r := Parse(g, alternatives[i], pos, fuel);
    if r.Some? && r.value.out.Err? && i + 1 < |alternatives| {
      ChoiceUncommitted(g, alternatives, i + 1, Some(MergeFailure(failure, r.value.out.error)), pos, fuel);
    }
  }

  lemma {:induction false} RepeatUncommitted<R, K, T>(g: Language<R, K, T>, item: Peg<R, K>, children: seq<Cst<R, T>>,
                                                      pos: nat, fuel: nat)
    requires g.Ok() && pos <= |g.tokens| && CutFree(item) && forall r :: r in g.rules ==> CutFree(g.rules[r])
    ensures Uncommitted(ParseRepeat(g, item, children, pos, fuel))
    decreases fuel, item, 1 + |g.tokens| - pos
  {
    OnlyCutCommits(g, item, pos, fuel);
    var r := Parse(g, item, pos, fuel);
    if r.Some? && r.value.out.Ok? && r.value.at != pos {
      RepeatUncommitted(g, item, children + r.value.out.value, r.value.at, fuel);
    }
  }

  // ---- lossless trees -----------------------------------------------------------------------------------

  /** The tree covers exactly the tokens from `start` to `end`, and every node's span says so. */
  ghost predicate Covers<R, K, T>(g: Language<R, K, T>, tree: Cst<R, T>, start: nat, end: nat)
    decreases tree
  {
    match tree
    case Leaf(token) =>
      token == g.TokenAt(start) && end == if g.isEof(token) then start else start + 1
    case Node(_, span, children) =>
      span == g.SpanBetween(start, end) && CoversAll(g, children, start, end)
  }

  ghost predicate CoversAll<R, K, T>(g: Language<R, K, T>, trees: seq<Cst<R, T>>, start: nat, end: nat)
    decreases trees
  {
    if trees == [] then start == end
    else exists mid: nat :: start <= mid <= end && Covers(g, trees[0], start, mid) && CoversAll(g, trees[1..], mid, end)
  }

  lemma {:induction false} CoversAppend<R, K, T>(g: Language<R, K, T>, a: seq<Cst<R, T>>, b: seq<Cst<R, T>>,
                                                 start: nat, mid: nat, end: nat)
    requires start <= mid <= end && CoversAll(g, a, start, mid) && CoversAll(g, b, mid, end)
    ensures CoversAll(g, a + b, start, end)
    decreases |a|
  {
    if a == [] {
      assert a + b == b;
    } else {
      var m: nat :| start <= m <= mid && Covers(g, a[0], start, m) && CoversAll(g, a[1..], m, mid);
      CoversAppend(g, a[1..], b, m, mid, end);
      assert (a + b)[1..] == a[1..] + b;
    }
  }

  lemma {:induction false} CoversOne<R, K, T>(g: Language<R, K, T>, tree: Cst<R, T>, start: nat, end: nat)
    requires start <= end && Covers(g, tree, start, end)
    ensures CoversAll(g, [tree], start, end)
  {
    assert CoversAll(g, [tree][1..], end, end);
  }

  ghost predicate Lossless<R, K, T>(g: Language<R, K, T>, r: Option<Res<R, T>>, pos: nat) {
    r.Some? && r.value.out.Ok? ==> pos <= r.value.at && CoversAll(g, r.value.out.value, pos, r.value.at)
  }

  /** On success the trees cover the consumed tokens, no more and no less. */
  lemma {:induction false} TreesAreLossless<R, K, T>(g: Language<R, K, T>, e: Peg<R, K>, pos: nat, fuel: nat)
    requires g.Ok() && pos <= |g.tokens|
    ensures Lossless(g, Parse(g, e, pos, fuel), pos)
    decreases fuel, e, 0
  {
    hide Covers, CoversAll;
    NothingCovered(g, pos);
    match e
    case Token(kind) => LeafCovers(g, pos);
    case Rule(rule) =>
      if rule in g.rules && fuel > 0 {
        TreesAreLossless(g, g.rules[rule], pos, fuel - 1);
        var body := Parse(g, g.rules[rule], pos, fuel - 1);
        if body.Some? && body.value.out.Ok? { NodeCovers(g, rule, body.value.out.value, pos, body.value.at); }
      }
    case Seq(items) => if items != [] { SeqLossless(g, items, 0, [], pos, pos, fuel); }
    case Choice(alternatives) => if alternatives != [] { ChoiceLossless(g, alternatives, 0, None, pos, fuel); }
    case Repeat(item) => RepeatLossless(g, item, [], pos, pos, fuel);
    case Repeat1(item) =>
      TreesAreLossless(g, item, pos, fuel);
      var first := Parse(g, item, pos, fuel);
      if first.Some? && first.value.out.Ok? { RepeatLossless(g, item, first.value.out.value, pos, first.value.at, fuel); }
    case _ => TreesAreLossless(g, e.item, pos, fuel);
  }

  lemma {:induction false} NothingCovered<R, K, T>(g: Language<R, K, T>, pos: nat)
    ensures CoversAll<R, K, T>(g, [], pos, pos)
  {
  }

  lemma {:induction false} LeafCovers<R, K, T>(g: Language<R, K, T>, pos: nat)
    ensures var token := g.TokenAt(pos);
            CoversAll(g, [Leaf(token)], pos, if g.isEof(token) then pos else pos + 1)
  {
    var token := g.TokenAt(pos);
    CoversOne(g, Leaf(token), pos, if g.isEof(token) then pos else pos + 1);
  }

  lemma {:induction false} NodeCovers<R, K, T>(g: Language<R, K, T>, rule: R, children: seq<Cst<R, T>>, start: nat, end: nat)
    requires start <= end && CoversAll(g, children, start, end)
    ensures CoversAll(g, [Node(rule, g.SpanBetween(start, end), children)], start, end)
  {
    var node := Node(rule, g.SpanBetween(start, end), children);
    assert Covers(g, node, start, end);
    CoversOne(g, node, start, end);
  }

  lemma {:induction false} SeqLossless<R, K, T>(g: Language<R, K, T>, items: seq<Peg<R, K>>, i: nat,
                                                children: seq<Cst<R, T>>, start: nat, pos: nat, fuel: nat)
    requires g.Ok() && i < |items| && start <= pos <= |g.tokens| && CoversAll(g, children, start, pos)
    ensures Lossless(g, ParseSeq(g, items, i, children, start, pos, fuel), start)
    decreases fuel, items, |items| - i
  {
    hide Covers, CoversAll;
    TreesAreLossless(g, items[i], pos, fuel);
    var r := Parse(g, items[i], pos, fuel);
    if r.Some? && r.value.out.Ok? {
      CoversAppend(g, children, r.value.out.value, start, pos, r.value.at);
      if i + 1 < |items| { SeqLossless(g, items, i + 1, children + r.value.out.value, start, r.value.at, fuel); }
    }
  }

  lemma {:induction false} ChoiceLossless<R, K, T>(g: Language<R, K, T>, alternatives: seq<Peg<R, K>>, i: nat,
                                                   failure: Option<Failure>, pos: nat, fuel: nat)
    requires g.Ok() && i < |alternatives| && pos <= |g.tokens|
    ensures Lossless(g, ParseChoice(g, alternatives, i, failure, pos, fuel), pos)
    decreases fuel, alternatives, |alternatives| - i
  {
    hide Covers, CoversAll;
    TreesAreLossless(g, alternatives[i], pos, fuel);
    var r := Parse(g, alternatives[i], pos, fuel);
    if r.Some? && r.value.out.Err? && !r.value.out.error.committed && i + 1 < |alternatives| {
      ChoiceLossless(g, alternatives, i + 1, Some(MergeFailure(failure, r.value.out.error)), pos, fuel);
    }
  }

  lemma {:induction false} RepeatLossless<R, K, T>(g: Language<R, K, T>, item: Peg<R, K>, children: seq<Cst<R, T>>,
                                                   start: nat, pos: nat, fuel: nat)
    requires g.Ok() && start <= pos <= |g.tokens| && CoversAll(g, children, start, pos)
    ensures Lossless(g, ParseRepeat(g, item, children, pos, fuel), start)
    decreases fuel, item, 1 + |g.tokens| - pos
  {
    hide Covers, CoversAll;
    TreesAreLossless(g, item, pos, fuel);
    var r := Parse(g, item, pos, fuel);
    if r.Some? && r.value.out.Ok? {
      CoversAppend(g, children, r.value.out.value, start, pos, r.value.at);
      if r.value.at != pos { RepeatLossless(g, item, children + r.value.out.value, start, r.value.at, fuel); }
    }
  }

  // ---- what the leaves spell ----------------------------------------------------------------------------

  /** The token leaves in order, the end of input left out. */
  ghost function Yield<R, K, T>(g: Language<R, K, T>, trees: seq<Cst<R, T>>): seq<T>
    decreases trees, 0
  {
    if trees == [] then [] else YieldOfTree(g, trees[0]) + Yield(g, trees[1..])
  }

  ghost function YieldOfTree<R, K, T>(g: Language<R, K, T>, tree: Cst<R, T>): seq<T>
    decreases tree, 1
  {
    match tree
    case Leaf(token) => if g.isEof(token) then [] else [token]
    case Node(_, _, children) => Yield(g, children)
  }

  lemma {:induction false} YieldOfCover<R, K, T>(g: Language<R, K, T>, trees: seq<Cst<R, T>>, start: nat, end: nat)
    requires g.Ok() && start <= end <= |g.tokens| && CoversAll(g, trees, start, end)
    ensures Yield(g, trees) == g.tokens[start..end]
    decreases trees, 0
  {
    if trees != [] {
      var first, rest := trees[0], trees[1..];
      var mid: nat :| start <= mid <= end && Covers(g, first, start, mid) && CoversAll(g, rest, mid, end);
      YieldOfCover(g, rest, mid, end);
      YieldOfCoveredTree(g, first, start, mid);
      hide Covers, CoversAll, YieldOfTree;
      assert g.tokens[start..end] == g.tokens[start..mid] + g.tokens[mid..end];
    }
  }

  lemma {:induction false} YieldOfCoveredTree<R, K, T>(g: Language<R, K, T>, tree: Cst<R, T>, start: nat, end: nat)
    requires g.Ok() && start <= end <= |g.tokens| && Covers(g, tree, start, end)
    ensures YieldOfTree(g, tree) == g.tokens[start..end]
    decreases tree, 1
  {
    if tree.Node? { YieldOfCover(g, tree.children, start, end); }
  }

  /** The leaves of a successful parse are the consumed tokens. */
  lemma {:induction false} LeavesAreTheTokens<R, K, T>(g: Language<R, K, T>, e: Peg<R, K>, pos: nat, fuel: nat)
    requires g.Ok() && pos <= |g.tokens|
    ensures var r := Parse(g, e, pos, fuel);
            r.Some? && r.value.out.Ok? ==> Yield(g, r.value.out.value) == g.tokens[pos..r.value.at]
  {
    TreesAreLossless(g, e, pos, fuel);
    var r := Parse(g, e, pos, fuel);
    if r.Some? && r.value.out.Ok? { YieldOfCover(g, r.value.out.value, pos, r.value.at); }
  }
}

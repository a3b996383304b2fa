/**
  Flattening changes no meaning. A grammar and the one read back from its printed rules accept the same
  tokens with the same trees, and fail with the same failures (rex-parser/src/peg_syntax.rs:583-616).
 */
module PegMeaning {
  import opened Wrappers
  import opened Pegs
  import opened PegSemantics
  import opened PegSyntax
  import opened PegFlattening

  type Grammar<!T> = Language<RuleKind, TerminalKind, T>
  type Outcome<T> = Option<Res<RuleKind, T>>

  /** The same outcome; after a failure nobody asks where the cursor is. */
  predicate Same<T(==)>(a: Outcome<T>, b: Outcome<T>) {
    a.Some? == b.Some? && (a.Some? ==> a.value.out == b.value.out && (a.value.out.Ok? ==> a.value.at == b.value.at))
  }

  /** The grammar with every rule flattened. */
  function Flattened<T>(g: Grammar<T>): Grammar<T> {
    g.(rules := map rule | rule in g.rules :: Flat(g.rules[rule]))
  }

  ghost predicate AllPrintable<T>(g: Grammar<T>) {
    forall rule :: rule in g.rules ==> Printable(g.rules[rule])
  }

  // ---- lists by head and tail -----------------------------------------------------------------------------

  /** The items one after another, after `children`. */
  function RunSeq<T>(g: Grammar<T>, items: seq<Expr>, children: seq<Cst<RuleKind, T>>, pos: nat, fuel: nat): (r: Outcome<T>)
    requires g.Ok() && pos <= |g.tokens|
    ensures r.Some? ==> r.value.at <= |g.tokens|
    decreases |items|
  {
    if items == [] then Some(Res(Ok(children), pos))
    else
      var r := Parse(g, items[0], pos, fuel);
      if r.Some? && r.value.out.Ok? then RunSeq(g, items[1..], children + r.value.out.value, r.value.at, fuel) else r
  }

  /** The alternatives one after another, after `failure` if there was one. */
  function RunChoice<T>(g: Grammar<T>, alternatives: seq<Expr>, failure: Option<Failure>, pos: nat, fuel: nat): (r: Outcome<T>)
    requires g.Ok() && pos <= |g.tokens|
    decreases |alternatives|
  {
    if alternatives == [] then
      Some(Res(Err(if failure.Some? then failure.value else g.Fail(pos, "alternative")), pos))
    else
      var r := Parse(g, alternatives[0], pos, fuel);
      if r.Some? && r.value.out.Err? && !r.value.out.error.committed
      then RunChoice(g, alternatives[1..], Some(MergeFailure(failure, r.value.out.error)), pos, fuel) else r
  }

  lemma {:induction false} ParseSeqRuns<T>(g: Grammar<T>, items: seq<Expr>, i: nat, children: seq<Cst<RuleKind, T>>,
                                           start: nat, pos: nat, fuel: nat)
    requires g.Ok() && i < |items| && start <= pos <= |g.tokens|
    ensures Same(ParseSeq(g, items, i, children, start, pos, fuel), RunSeq(g, items[i..], children, pos, fuel))
    decreases |items| - i
  {
    var r := Parse(g, items[i], pos, fuel);
    assert items[i..][0] == items[i] && items[i..][1..] == items[i + 1..];
    if r.Some? && r.value.out.Ok? && i + 1 < |items| {
      ParseSeqRuns(g, items, i + 1, children + r.value.out.value, start, r.value.at, fuel);
    }
  }

  lemma {:induction false} ParseChoiceRuns<T>(g: Grammar<T>, alternatives: seq<Expr>, i: nat, failure: Option<Failure>, pos: nat, fuel: nat)
    requires g.Ok() && i < |alternatives| && pos <= |g.tokens|
    ensures ParseChoice(g, alternatives, i, failure, pos, fuel) == RunChoice(g, alternatives[i..], failure, pos, fuel)
    decreases |alternatives| - i
  {
    var r := Parse(g, alternatives[i], pos, fuel);
    assert alternatives[i..][0] == alternatives[i] && alternatives[i..][1..] == alternatives[i + 1..];
    if r.Some? && r.value.out.Err? && !r.value.out.error.committed && i + 1 < |alternatives| {
      ParseChoiceRuns(g, alternatives, i + 1, Some(MergeFailure(failure, r.value.out.error)), pos, fuel);
    }
  }

  lemma {:induction false} ChoiceRuns<T>(g: Grammar<T>, alternatives: seq<Expr>, pos: nat, fuel: nat)
    requires g.Ok() && pos <= |g.tokens|
    ensures Parse(g, Choice(alternatives), pos, fuel) == RunChoice(g, alternatives, None, pos, fuel)
  {
    if alternatives != [] {
      ParseChoiceRuns(g, alternatives, 0, None, pos, fuel);
      assert alternatives[0..] == alternatives;
    }
  }

  lemma {:induction false} RunSeqChildren<T>(g: Grammar<T>, items: seq<Expr>, children: seq<Cst<RuleKind, T>>, pos: nat, fuel: nat)
    requires g.Ok() && pos <= |g.tokens|
    ensures var r := RunSeq(g, items, [], pos, fuel);
            RunSeq(g, items, children, pos, fuel)
              == if r.Some? && r.value.out.Ok? then Some(Res(Ok(children + r.value.out.value), r.value.at)) else r
    decreases |items|
  {
    if items == [] {
      assert children + [] == children;
    } else {
      var r := Parse(g, items[0], pos, fuel);
      if r.Some? && r.value.out.Ok? {
        var first := r.value.out.value;
        RunSeqChildren(g, items[1..], children + first, r.value.at, fuel);
        RunSeqChildren(g, items[1..], [] + first, r.value.at, fuel);
        var rest := RunSeq(g, items[1..], [], r.value.at, fuel);
        if rest.Some? && rest.value.out.Ok? {
          assert children + (([] + first) + rest.value.out.value) == (children + first) + rest.value.out.value;
        }
      }
    }
  }

  lemma {:induction false} RunSeqAppend<T>(g: Grammar<T>, a: seq<Expr>, b: seq<Expr>, children: seq<Cst<RuleKind, T>>, pos: nat, fuel: nat)
    requires g.Ok() && pos <= |g.tokens|
    ensures var r := RunSeq(g, a, children, pos, fuel);
            RunSeq(g, a + b, children, pos, fuel)
              == if r.Some? && r.value.out.Ok? then RunSeq(g, b, r.value.out.value, r.value.at, fuel) else r
    decreases |a|
  {
    if a == [] {
      assert a + b == b;
    } else {
      assert (a + b)[0] == a[0] && (a + b)[1..] == a[1..] + b;
      var r := Parse(g, a[0], pos, fuel);
      if r.Some? && r.value.out.Ok? { RunSeqAppend(g, a[1..], b, children + r.value.out.value, r.value.at, fuel); }
    }
  }

  /** Failed on uncommitted grounds: later alternatives are still open. */
  predicate Open<T>(r: Outcome<T>) { r.Some? && r.value.out.Err? && !r.value.out.error.committed }

  predicate Uncommitted(failure: Option<Failure>) { failure.Some? ==> !failure.value.committed }

  lemma {:induction false} RunChoiceAppend<T>(g: Grammar<T>, a: seq<Expr>, b: seq<Expr>, failure: Option<Failure>, pos: nat, fuel: nat)
    requires g.Ok() && pos <= |g.tokens| && Uncommitted(failure) && (a != [] || failure.Some?)
    ensures var r := RunChoice(g, a, failure, pos, fuel);
            RunChoice(g, a + b, failure, pos, fuel) == if Open(r) then RunChoice(g, b, Some(r.value.out.error), pos, fuel) else r
    decreases |a|
  {
    if a == [] {
      assert a + b == b;
    } else {
      assert (a + b)[0] == a[0] && (a + b)[1..] == a[1..] + b;
      var r := Parse(g, a[0], pos, fuel);
      if Open(r) { RunChoiceAppend(g, a[1..], b, Some(MergeFailure(failure, r.value.out.error)), pos, fuel); }
    }
  }

  lemma {:induction false} MergeAssociative(a: Option<Failure>, b: Failure, c: Failure)
    ensures MergeFailure(Some(MergeFailure(a, b)), c) == MergeFailure(a, MergeFailure(Some(b), c))
    ensures Uncommitted(a) && !b.committed ==> !MergeFailure(a, b).committed
  {
    if a.Some? { assert (a.value.expected + b.expected) + c.expected == a.value.expected + (b.expected + c.expected); }
  }

  /** An earlier failure only adds to the failure of the rest. */
  lemma {:induction false} RunChoiceMerges<T>(g: Grammar<T>, alternatives: seq<Expr>, a: Option<Failure>, b: Failure, pos: nat, fuel: nat)
    requires g.Ok() && pos <= |g.tokens| && Uncommitted(a) && !b.committed
    ensures var r := RunChoice(g, alternatives, Some(b), pos, fuel);
            RunChoice(g, alternatives, Some(MergeFailure(a, b)), pos, fuel)
              == if Open(r) then Some(Res(Err(MergeFailure(a, r.value.out.error)), pos)) else r
    decreases |alternatives|
  {
    if alternatives != [] {
      var r := Parse(g, alternatives[0], pos, fuel);
      if Open(r) {
        var c := r.value.out.error;
        MergeAssociative(a, b, c);
        MergeAssociative(Some(b), c, c);
        RunChoiceMerges(g, alternatives[1..], a, MergeFailure(Some(b), c), pos, fuel);
      }
    }
  }

  // ---- parts of an expression ---------------------------------------------------------------------------------

  lemma {:induction false} SeqPartsRun<T>(g: Grammar<T>, e: Expr, children: seq<Cst<RuleKind, T>>, pos: nat, fuel: nat)
    requires g.Ok() && pos <= |g.tokens| && (e.Seq? ==> e.items != [])
    ensures var r := Parse(g, e, pos, fuel);
            Same(RunSeq(g, SeqParts(e), children, pos, fuel),
                 if r.Some? && r.value.out.Ok? then Some(Res(Ok(children + r.value.out.value), r.value.at)) else r)
  {
    if e.Seq? {
      ParseSeqRuns(g, e.items, 0, [], pos, pos, fuel);
      assert e.items[0..] == e.items;
      RunSeqChildren(g, e.items, children, pos, fuel);
    } else {
      assert [e][1..] == [];
    }
  }

  lemma {:induction false} SeqPartsAlone<T>(g: Grammar<T>, e: Expr, pos: nat, fuel: nat)
    requires g.Ok() && pos <= |g.tokens| && (e.Seq? ==> e.items != [])
    ensures Same(RunSeq(g, SeqParts(e), [], pos, fuel), Parse(g, e, pos, fuel))
  {
    SeqPartsRun(g, e, [], pos, fuel);
    var r := Parse(g, e, pos, fuel);
    if r.Some? && r.value.out.Ok? { assert [] + r.value.out.value == r.value.out.value; }
  }

  lemma {:induction false} ChoicePartsRun<T>(g: Grammar<T>, e: Expr, failure: Option<Failure>, pos: nat, fuel: nat)
    requires g.Ok() && pos <= |g.tokens| && (e.Choice? ==> e.alternatives != []) && Uncommitted(failure)
    ensures var r := Parse(g, e, pos, fuel);
            RunChoice(g, ChoiceParts(e), failure, pos, fuel)
              == if Open(r) then Some(Res(Err(MergeFailure(failure, r.value.out.error)), pos)) else r
  {
    if e.Choice? {
      ChoiceRuns(g, e.alternatives, pos, fuel);
      var r := Parse(g, e.alternatives[0], pos, fuel);
      if Open(r) { RunChoiceMerges(g, e.alternatives[1..], failure, r.value.out.error, pos, fuel); }
    } else {
      assert [e][1..] == [];
    }
  }

  /** The head of a list settled, the tail's alternatives follow it. */
  lemma {:induction false} ChoicePartsThen<T>(g: Grammar<T>, e: Expr, tail: seq<Expr>, failure: Option<Failure>, pos: nat, fuel: nat)
    requires g.Ok() && pos <= |g.tokens| && (e.Choice? ==> e.alternatives != []) && Uncommitted(failure)
    ensures var r := Parse(g, e, pos, fuel);
            RunChoice(g, ChoiceParts(e) + tail, failure, pos, fuel)
              == if Open(r) then RunChoice(g, tail, Some(MergeFailure(failure, r.value.out.error)), pos, fuel) else r
  {
    ChoicePartsRun(g, e, failure, pos, fuel);
    RunChoiceAppend(g, ChoiceParts(e), tail, failure, pos, fuel);
    var r := Parse(g, e, pos, fuel);
    if Open(r) { MergeAssociative(failure, r.value.out.error, r.value.out.error); }
  }

  // ---- flattening -------------------------------------------------------------------------------------------

  /** Every expression means the same flattened, in the grammar flattened. */
  lemma {:induction false} FlatMeans<T>(g: Grammar<T>, e: Expr, pos: nat, fuel: nat)
    requires g.Ok() && pos <= |g.tokens| && AllPrintable(g) && Printable(e)
    ensures Same(Parse(g, e, pos, fuel), Parse(Flattened(g), Flat(e), pos, fuel))
    decreases fuel, e, 3
  {
    match e
    case Token(_) =>
    case Rule(rule) =>
      if rule in g.rules && fuel > 0 { FlatMeans(g, g.rules[rule], pos, fuel - 1); }
    case Seq(items) => FlatSeqMeans(g, items, pos, fuel);
    case Choice(alternatives) => FlatChoiceMeans(g, alternatives, pos, fuel);
    case Repeat(item) => FlatRepeatMeans(g, item, [], pos, fuel);
    case Repeat1(item) =>
      FlatMeans(g, item, pos, fuel);
      var first := Parse(g, item, pos, fuel);
      if first.Some? && first.value.out.Ok? { FlatRepeatMeans(g, item, first.value.out.value, first.value.at, fuel); }
    case _ => FlatMeans(g, e.item, pos, fuel);
  }

  lemma {:induction false} FlatRepeatMeans<T>(g: Grammar<T>, item: Expr, children: seq<Cst<RuleKind, T>>, pos: nat, fuel: nat)
    requires g.Ok() && pos <= |g.tokens| && AllPrintable(g) && Printable(item)
    ensures Same(ParseRepeat(g, item, children, pos, fuel), ParseRepeat(Flattened(g), Flat(item), children, pos, fuel))
    decreases fuel, item, 4, |g.tokens| - pos
  {
    FlatMeans(g, item, pos, fuel);
    var r := Parse(g, item, pos, fuel);
    if r.Some? && r.value.out.Ok? && r.value.at != pos {
      FlatRepeatMeans(g, item, children + r.value.out.value, r.value.at, fuel);
    }
  }

  lemma {:induction false} FlatSeqMeans<T>(g: Grammar<T>, items: seq<Expr>, pos: nat, fuel: nat)
    requires g.Ok() && pos <= |g.tokens| && AllPrintable(g) && Printable(Seq(items))
    ensures Same(Parse(g, Seq(items), pos, fuel), Parse(Flattened(g), Flat(Seq(items)), pos, fuel))
    decreases fuel, items, 2
  {
    var flat := Flat(Seq(items));
    FlatItemsMean(g, items, [], pos, fuel);
    FlatItemsCollapsed(items);
    SeqPartsAlone(g, Seq(items), pos, fuel);
    SeqPartsAlone(Flattened(g), flat, pos, fuel);
    var parts := FlatItems(items);
    assert SeqParts(flat) == parts by { if |parts| == 1 { assert parts == [parts[0]]; } }
  }

  lemma {:induction false} FlatItemsMean<T>(g: Grammar<T>, items: seq<Expr>, children: seq<Cst<RuleKind, T>>, pos: nat, fuel: nat)
    requires g.Ok() && pos <= |g.tokens| && AllPrintable(g) && forall i :: 0 <= i < |items| ==> Printable(items[i])
    ensures Same(RunSeq(g, items, children, pos, fuel), RunSeq(Flattened(g), FlatItems(items), children, pos, fuel))
    decreases fuel, items, 1
  {
    if items != [] {
      var flat := Flat(items[0]);
      FlatMeans(g, items[0], pos, fuel);
      FlatIsCollapsed(items[0]);
      SeqPartsRun(Flattened(g), flat, children, pos, fuel);
      RunSeqAppend(Flattened(g), SeqParts(flat), FlatItems(items[1..]), children, pos, fuel);
      var r := Parse(g, items[0], pos, fuel);
      if r.Some? && r.value.out.Ok? { FlatItemsMean(g, items[1..], children + r.value.out.value, r.value.at, fuel); }
    }
  }

  lemma {:induction false} FlatChoiceMeans<T>(g: Grammar<T>, alternatives: seq<Expr>, pos: nat, fuel: nat)
    requires g.Ok() && pos <= |g.tokens| && AllPrintable(g) && Printable(Choice(alternatives))
    ensures Same(Parse(g, Choice(alternatives), pos, fuel), Parse(Flattened(g), Flat(Choice(alternatives)), pos, fuel))
    decreases fuel, alternatives, 2
  {
    var flat, parts := Flat(Choice(alternatives)), FlatAlternatives(alternatives);
    FlatAlternativesMean(g, alternatives, None, pos, fuel);
    FlatAlternativesCollapsed(alternatives);
    ChoiceRuns(g, alternatives, pos, fuel);
    assert ChoiceParts(flat) == parts by { if |parts| == 1 { assert parts == [parts[0]]; } }
    ChoicePartsRun(Flattened(g), flat, None, pos, fuel);
  }

  lemma {:induction false} FlatAlternativesMean<T>(g: Grammar<T>, alternatives: seq<Expr>, failure: Option<Failure>, pos: nat, fuel: nat)
    requires g.Ok() && pos <= |g.tokens| && AllPrintable(g) && Uncommitted(failure)
    requires forall i :: 0 <= i < |alternatives| ==> Printable(alternatives[i])
    ensures Same(RunChoice(g, alternatives, failure, pos, fuel),
                 RunChoice(Flattened(g), FlatAlternatives(alternatives), failure, pos, fuel))
    decreases fuel, alternatives, 1
  {
    if alternatives != [] {
      var flat := Flat(alternatives[0]);
      FlatMeans(g, alternatives[0], pos, fuel);
      FlatIsCollapsed(alternatives[0]);
      ChoicePartsThen(Flattened(g), flat, FlatAlternatives(alternatives[1..]), failure, pos, fuel);
      var r := Parse(g, alternatives[0], pos, fuel);
      if Open(r) {
        MergeAssociative(failure, r.value.out.error, r.value.out.error);
        FlatAlternativesMean(g, alternatives[1..], Some(MergeFailure(failure, r.value.out.error)), pos, fuel);
      }
    }
  }
}

/** Grammars without left recursion have a result everywhere, and the machine does not work twice for it. */
module PegTermination {
  import opened Wrappers
  import opened Pegs
  import opened PegSemantics
  import opened PegMachine
  import opened PegRefinement
  import opened PegAdequacy

  /**
    Evidence against left recursion: the terminals that never match the end of input, the rules that
    may succeed without consuming, and a rank that falls along every call made before anything is consumed.
   */
  datatype Ranking<!R(==), !K(==)> = Ranking(advances: set<K>, nullable: set<R>, rank: R -> nat, top: nat)

  predicate Nullable<R(==), K(==)>(w: Ranking<R, K>, e: Peg<R, K>)
    decreases e
  {
    match e
    case Token(kind) => kind !in w.advances
    case Rule(rule) => rule in w.nullable
    case Seq(items) => forall i :: 0 <= i < |items| ==> Nullable(w, items[i])
    case Choice(alternatives) => exists i :: 0 <= i < |alternatives| && Nullable(w, alternatives[i])
    case Optional(_) => true
    case Repeat(_) => true
    case Repeat1(item) => Nullable(w, item)
    case And(_) => true
    case Not(_) => true
    case Label(_, item) => Nullable(w, item)
    case Cut(item) => Nullable(w, item)
  }

  /** Every rule called before anything is consumed ranks below `bound`. */
  predicate Below<R(==), K(==)>(w: Ranking<R, K>, e: Peg<R, K>, bound: nat)
    decreases e
  {
    match e
    case Token(_) => true
    case Rule(rule) => w.rank(rule) < bound
    case Seq(items) =>
      forall i :: 0 <= i < |items| && (forall j :: 0 <= j < i ==> Nullable(w, items[j])) ==> Below(w, items[i], bound)
    case Choice(alternatives) => forall i :: 0 <= i < |alternatives| ==> Below(w, alternatives[i], bound)
    case Optional(item) => Below(w, item, bound)
    case Repeat(item) => Below(w, item, bound)
    case Repeat1(item) => Below(w, item, bound)
    case And(item) => Below(w, item, bound)
    case Not(item) => Below(w, item, bound)
    case Label(_, item) => Below(w, item, bound)
    case Cut(item) => Below(w, item, bound)
  }

  ghost predicate Ranked<R(!new), K(!new), T>(g: Language<R, K, T>, w: Ranking<R, K>) {
    && (forall kind, pos: nat :: kind in w.advances && g.matches(kind, g.TokenAt(pos)) ==> !g.isEof(g.TokenAt(pos)))
    && (forall rule :: w.rank(rule) < w.top)
    && (forall rule :: rule in g.rules ==>
          (Nullable(w, g.rules[rule]) ==> rule in w.nullable) && Below(w, g.rules[rule], w.rank(rule)))
  }

  /** Nothing ranks beyond the top. */
  lemma {:induction false} BelowTop<R(!new), K(!new), T>(g: Language<R, K, T>, w: Ranking<R, K>, e: Peg<R, K>)
    requires Ranked(g, w)
    ensures Below(w, e, w.top)
    decreases e
  {
    match e
    case Seq(items) =>
      forall i | 0 <= i < |items| ensures Below(w, items[i], w.top) { BelowTop(g, w, items[i]); }
    case Choice(alternatives) =>
      forall i | 0 <= i < |alternatives| ensures Below(w, alternatives[i], w.top) { BelowTop(g, w, alternatives[i]); }
    case Token(_) =>
    case Rule(_) =>
    case _ => BelowTop(g, w, e.item);
  }

  ghost predicate Consumes<R, T>(r: Option<Res<R, T>>, pos: nat) {
    r.Some? && r.value.out.Ok? ==> r.value.at != pos
  }

  // ---- only nullable expressions succeed in place --------------------------------------------------------

  lemma {:induction false} InPlaceIsNullable<R(!new), K(!new), T>(g: Language<R, K, T>, w: Ranking<R, K>, e: Peg<R, K>,
                                                                  pos: nat, fuel: nat)
    requires g.Ok() && pos <= |g.tokens| && Ranked(g, w) && !Nullable(w, e)
    ensures Consumes(Parse(g, e, pos, fuel), pos)
    decreases fuel, e, 0
  {
    match e
    case Token(_) =>
    case Rule(rule) => if rule in g.rules && fuel > 0 { InPlaceIsNullable(g, w, g.rules[rule], pos, fuel - 1); }
    case Seq(items) => SeqInPlace(g, w, items, 0, [], pos, pos, fuel);
    case Choice(alternatives) => if alternatives != [] { ChoiceInPlace(g, w, alternatives, 0, None, pos, fuel); }
    case Repeat1(item) => InPlaceIsNullable(g, w, item, pos, fuel);
    case Label(_, item) => InPlaceIsNullable(g, w, item, pos, fuel);
    case Cut(item) => InPlaceIsNullable(g, w, item, pos, fuel);
    case _ =>
  }

  lemma {:induction false} SeqInPlace<R(!new), K(!new), T>(g: Language<R, K, T>, w: Ranking<R, K>, items: seq<Peg<R, K>>,
                                                           i: nat, children: seq<Cst<R, T>>, start: nat, pos: nat, fuel: nat)
    requires g.Ok() && i < |items| && start <= pos <= |g.tokens| && Ranked(g, w)
    requires pos == start ==> exists j :: i <= j < |items| && !Nullable(w, items[j])
    ensures Consumes(ParseSeq(g, items, i, children, start, pos, fuel), start)
    decreases fuel, items, |items| - i
  {
    var r := Parse(g, items[i], pos, fuel);
    if !Nullable(w, items[i]) { InPlaceIsNullable(g, w, items[i], pos, fuel); }
    if r.Some? && r.value.out.Ok? && i + 1 < |items| {
      SeqInPlace(g, w, items, i + 1, children + r.value.out.value, start, r.value.at, fuel);
    }
  }

  lemma {:induction false} ChoiceInPlace<R(!new), K(!new), T>(g: Language<R, K, T>, w: Ranking<R, K>,
                                                              alternatives: seq<Peg<R, K>>, i: nat,
                                                              failure: Option<Failure>, pos: nat, fuel: nat)
    requires g.Ok() && i < |alternatives| && pos <= |g.tokens| && Ranked(g, w)
    requires forall j :: 0 <= j < |alternatives| ==> !Nullable(w, alternatives[j])
    ensures Consumes(ParseChoice(g, alternatives, i, failure, pos, fuel), pos)
    decreases fuel, alternatives, |alternatives| - i
  {
    InPlaceIsNullable(g, w, alternatives[i], pos, fuel);
    var r := Parse(g, alternatives[i], pos, fuel);
    if r.Some? && r.value.out.Err? && !r.value.out.error.committed && i + 1 < |alternatives| {
      ChoiceInPlace(g, w, alternatives, i + 1, Some(MergeFailure(failure, r.value.out.error)), pos, fuel);
    }
  }

  // ---- a result everywhere ------------------------------------------------------------------------------

  lemma {:induction false} HasResult<R(!new), K(!new), T>(g: Language<R, K, T>, w: Ranking<R, K>, e: Peg<R, K>, pos: nat,
                                                          bound: nat)
    returns (fuel: nat)
    requires g.Ok() && pos <= |g.tokens| && Ranked(g, w) && Below(w, e, bound)
    ensures Parse(g, e, pos, fuel).Some?
    decreases |g.tokens| - pos, bound, e, 0
  {
    match e
    case Token(_) => fuel := 0;
    case Rule(rule) =>
      if rule in g.rules {
        fuel := HasResult(g, w, g.rules[rule], pos, w.rank(rule));
        fuel := fuel + 1;
      } else {
        fuel := 0;
      }
    case Seq(items) =>
      if items == [] { fuel := 0; } else { fuel := SeqHasResult(g, w, items, 0, [], pos, pos, bound); }
    case Choice(alternatives) =>
      if alternatives == [] { fuel := 0; } else { fuel := ChoiceHasResult(g, w, alternatives, 0, None, pos, bound); }
    case Repeat(item) => fuel := RepeatHasResult(g, w, item, [], pos, bound);
    case Repeat1(item) =>
      var k := HasResult(g, w, item, pos, bound);
      fuel := k;
      var first := Parse(g, item, pos, k).value;
      if first.out.Ok? {
        if first.at != pos { BelowTop(g, w, item); }
        var k' := RepeatHasResult(g, w, item, first.out.value, first.at, if first.at == pos then bound else w.top);
        fuel := Max(k, k');
        MoreFuel(g, item, pos, k, fuel);
        MoreFuelRepeat(g, item, first.out.value, first.at, k', fuel);
      }
    case _ => fuel := HasResult(g, w, e.item, pos, bound);
  }

  lemma {:induction false} SeqHasResult<R(!new), K(!new), T>(g: Language<R, K, T>, w: Ranking<R, K>, items: seq<Peg<R, K>>,
                                                             i: nat, children: seq<Cst<R, T>>, start: nat, pos: nat, bound: nat)
    returns (fuel: nat)
    requires g.Ok() && i < |items| && start <= pos <= |g.tokens| && Ranked(g, w)
    requires pos == start ==> Below(w, Seq(items), bound) && forall j :: 0 <= j < i ==> Nullable(w, items[j])
    requires pos != start ==> bound == w.top
    ensures ParseSeq(g, items, i, children, start, pos, fuel).Some?
    decreases |g.tokens| - pos, bound, items, |items| - i
  {
    if pos != start { BelowTop(g, w, items[i]); }
    var k := HasResult(g, w, items[i], pos, bound);
    fuel := k;
    var r := Parse(g, items[i], pos, k).value;
    if r.out.Ok? && i + 1 < |items| {
      if r.at == pos && pos == start && !Nullable(w, items[i]) {
        InPlaceIsNullable(g, w, items[i], pos, k);
      }
      var k' := SeqHasResult(g, w, items, i + 1, children + r.out.value, start, r.at, if r.at == start then bound else w.top);
      fuel := Max(k, k');
      MoreFuel(g, items[i], pos, k, fuel);
      MoreFuelSeq(g, items, i + 1, children + r.out.value, start, r.at, k', fuel);
    }
  }

  lemma {:induction false} ChoiceHasResult<R(!new), K(!new), T>(g: Language<R, K, T>, w: Ranking<R, K>,
                                                                alternatives: seq<Peg<R, K>>, i: nat,
                                                                failure: Option<Failure>, pos: nat, bound: nat)
    returns (fuel: nat)
    requires g.Ok() && i < |alternatives| && pos <= |g.tokens| && Ranked(g, w)
    requires forall j :: 0 <= j < |alternatives| ==> Below(w, alternatives[j], bound)
    ensures ParseChoice(g, alternatives, i, failure, pos, fuel).Some?
    decreases |g.tokens| - pos, bound, alternatives, |alternatives| - i
  {
    var k := HasResult(g, w, alternatives[i], pos, bound);
    fuel := k;
    var r := Parse(g, alternatives[i], pos, k).value;
    if r.out.Err? && !r.out.error.committed && i + 1 < |alternatives| {
      var merged := Some(MergeFailure(failure, r.out.error));
      var k' := ChoiceHasResult(g, w, alternatives, i + 1, merged, pos, bound);
      fuel := Max(k, k');
      MoreFuel(g, alternatives[i], pos, k, fuel);
      MoreFuelChoice(g, alternatives, i + 1, merged, pos, k', fuel);
    }
  }

  lemma {:induction false} RepeatHasResult<R(!new), K(!new), T>(g: Language<R, K, T>, w: Ranking<R, K>, item: Peg<R, K>,
                                                                children: seq<Cst<R, T>>, pos: nat, bound: nat)
    returns (fuel: nat)
    requires g.Ok() && pos <= |g.tokens| && Ranked(g, w) && Below(w, item, bound)
    ensures ParseRepeat(g, item, children, pos, fuel).Some?
    decreases |g.tokens| - pos, bound, item, 1
  {
    var k := HasResult(g, w, item, pos, bound);
    fuel := k;
    var r := Parse(g, item, pos, k).value;
    if r.out.Ok? && r.at != pos {
      BelowTop(g, w, item);
      var k' := RepeatHasResult(g, w, item, children + r.out.value, r.at, w.top);
      fuel := Max(k, k');
      MoreFuel(g, item, pos, k, fuel);
      MoreFuelRepeat(g, item, children + r.out.value, r.at, k', fuel);
    }
  }

  /** Whatever the tokens, the machine for a ranked grammar halts on every expression at every position. */
  lemma {:induction false} RankedMachineHalts<R(!new), K(!new), T>(g: Language<R, K, T>, w: Ranking<R, K>, e: Peg<R, K>, pos: nat)
    requires g.Ok() && pos <= |g.tokens| && Ranked(g, w)
    ensures exists n: nat :: Halted(Run(g, Start(e, pos, map[]), n))
  {
    BelowTop(g, w, e);
    var fuel := HasResult(g, w, e, pos, w.top);
    HaltsIffDefined(g, e, pos, map[]);
  }

  // ---- the packrat bound ----------------------------------------------------------------------------------

  /** The rule frames a halting run has pushed from an empty table: none twice, so no more than rules times positions. */
  lemma {:induction false} PackratBound<R, K, T>(g: Language<R, K, T>, e: Peg<R, K>, pos: nat, n: nat)
    requires g.Ok() && pos <= |g.tokens| && Halted(Run(g, Start(e, pos, map[]), n))
    ensures var log := Run(g, Start(e, pos, map[]), n).log;
            && (forall i, j :: 0 <= i < j < |log| ==> log[i] != log[j])
            && |log| <= |g.rules| * (|g.tokens| + 1)
  {
    var c := Start(e, pos, map[]);
    var fuel := Defined(g, c, n);
    var d := Simulates(g, c, fuel);
    var m: nat :| Run(g, c, m) == d;
    OneHalt(g, c, m, n);
    assert d.log[0..] == d.log;
    DistinctKeys(d.log, g.rules.Keys, |g.tokens| + 1);
  }

  lemma {:induction false} DistinctKeys<R>(log: seq<Key<R>>, rules: set<R>, n: nat)
    requires forall i, j :: 0 <= i < j < |log| ==> log[i] != log[j]
    requires forall i :: 0 <= i < |log| ==> log[i].0 in rules && log[i].1 < n
    ensures |log| <= |rules| * n
  {
    var keys := set i | 0 <= i < |log| :: log[i];
    DistinctCount(log);
    var all := set r, p: nat | r in rules && p < n :: (r, p);
    assert keys <= all;
    Grid(rules, n);
    SubsetSize(keys, all);
  }

  lemma {:induction false} DistinctCount<A>(s: seq<A>)
    requires forall i, j :: 0 <= i < j < |s| ==> s[i] != s[j]
    ensures |set i | 0 <= i < |s| :: s[i]| == |s|
  {
    if s != [] {
      var n := |s| - 1;
      DistinctCount(s[..n]);
      assert (set i | 0 <= i < |s| :: s[i]) == (set i | 0 <= i < n :: s[..n][i]) + {s[n]};
    }
  }

  lemma {:induction false} SubsetSize<A>(a: set<A>, b: set<A>)
    requires a <= b
    ensures |a| <= |b|
  {
    assert b == a + (b - a);
  }

  lemma {:induction false} Grid<R>(rules: set<R>, n: nat)
    ensures |set r, p: nat | r in rules && p < n :: (r, p)| == |rules| * n
    decreases n
  {
    var all := set r, p: nat | r in rules && p < n :: (r, p);
    if n == 0 {
      assert all == {};
    } else {
      var last: nat := n - 1;
      var rest := set r, p: nat | r in rules && p < last :: (r, p);
      var column := set r | r in rules :: (r, last);
      Grid(rules, last);
      Column(rules, last);
      assert all == rest + column && rest !! column;
    }
  }

  lemma {:induction false} Column<R>(rules: set<R>, p: nat)
    ensures |set r | r in rules :: (r, p)| == |rules|
    decreases |rules|
  {
    var column := set r | r in rules :: (r, p);
    if rules == {} {
      assert column == {};
    } else {
      var r :| r in rules;
      var rest := set q | q in rules - {r} :: (q, p);
      Column(rules - {r}, p);
      assert column == rest + {(r, p)};
    }
  }
}

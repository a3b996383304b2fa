/**
  What a grammar expression means at a position, without memo table or stacks: ordered choice,
  lookahead, labels and cut by recursion. Fuel bounds the nesting of rules only; a result that is
  reached with some fuel is reached with any more.
 */
module PegSemantics {
  import opened Wrappers
  import opened Pegs

  function Max(a: nat, b: nat): nat { if a < b then b else a }

  /** The outcome and where it leaves the cursor. */
  datatype Res<R, T> = Res(out: Output<R, T>, at: nat)

  function Parse<R, K, T>(g: Language<R, K, T>, e: Peg<R, K>, pos: nat, fuel: nat): (r: Option<Res<R, T>>)
    requires g.Ok() && pos <= |g.tokens|
    ensures r.Some? ==> pos <= r.value.at <= |g.tokens|
    decreases fuel, e, 0
  {
    match e
    case Token(kind) =>
      var token := g.TokenAt(pos);
      Some(if g.matches(kind, token)
           then Res(Ok([Leaf(token)]), if g.isEof(token) then pos else pos + 1)
           else Res(Err(g.Fail(pos, g.describe(kind))), pos))
    case Rule(rule) =>
      if rule !in g.rules then Some(Res(Err(g.Fail(pos, "grammar rule")), pos))
      else if fuel == 0 then None
      else
        var body := Parse(g, g.rules[rule], pos, fuel - 1);
        if body.None? then None else Some(Reduce(g, rule, pos, body.value))
    case Seq(items) =>
      if items == [] then Some(Res(Ok([]), pos)) else ParseSeq(g, items, 0, [], pos, pos, fuel)
    case Choice(alternatives) =>
      if alternatives == [] then Some(Res(Err(g.Fail(pos, "alternative")), pos))
      else ParseChoice(g, alternatives, 0, None, pos, fuel)
    case Optional(item) =>
      var r := Parse(g, item, pos, fuel);
      if r.Some? && r.value.out.Err? && !r.value.out.error.committed then Some(Res(Ok([]), pos)) else r
    case Repeat(item) => ParseRepeat(g, item, [], pos, fuel)
    case Repeat1(item) =>
      var first := Parse(g, item, pos, fuel);
      if first.Some? && first.value.out.Ok? then ParseRepeat(g, item, first.value.out.value, first.value.at, fuel)
      else first
    case And(item) =>
      var r := Parse(g, item, pos, fuel);
      if r.None? then None
      else Some(Res(if r.value.out.Ok? then Ok([]) else Err(g.Fail(pos, "lookahead")), pos))
    case Not(item) =>
      var r := Parse(g, item, pos, fuel);
      if r.None? then None
      else Some(Res(if r.value.out.Ok? then Err(g.Fail(pos, "negative lookahead")) else Ok([]), pos))
    case Label(message, item) =>
      var r := Parse(g, item, pos, fuel);
      if r.Some? && r.value.out.Err? then Some(r.value.(out := Err(Labeled(r.value.out.error, message)))) else r
    case Cut(item) =>
      var r := Parse(g, item, pos, fuel);
      if r.Some? && r.value.out.Err? then Some(r.value.(out := Err(MarkCommitted(r.value.out.error)))) else r
  }

  /** A rule's body becomes one node; on failure the cursor is back where the rule started. */
  function Reduce<R, K, T>(g: Language<R, K, T>, rule: R, pos: nat, body: Res<R, T>): Res<R, T> {
    match body.out
    case Ok(children) => Res(Ok([Node(rule, g.SpanBetween(pos, body.at), children)]), body.at)
    case Err(failure) => Res(Err(failure), pos)
  }

  /** The items from the `i`th on; `start` is where the sequence began. */
  function ParseSeq<R, K, T>(g: Language<R, K, T>, items: seq<Peg<R, K>>, i: nat, children: seq<Cst<R, T>>,
                             start: nat, pos: nat, fuel: nat): (r: Option<Res<R, T>>)
    requires g.Ok() && i < |items| && start <= pos <= |g.tokens|
    ensures r.Some? ==> start <= r.value.at <= |g.tokens|
    decreases fuel, items, |items| - i
  {
    var r := Parse(g, items[i], pos, fuel);
    if r.None? then None
    else match r.value.out
      case Err(failure) => Some(Res(Err(failure), start))
      case Ok(more) =>
        if i + 1 < |items| then ParseSeq(g, items, i + 1, children + more, start, r.value.at, fuel)
        else Some(Res(Ok(children + more), r.value.at))
  }

  /** The alternatives from the `i`th on, after the earlier ones failed with `failure`. */
  function ParseChoice<R, K, T>(g: Language<R, K, T>, alternatives: seq<Peg<R, K>>, i: nat, failure: Option<Failure>,
                                pos: nat, fuel: nat): (r: Option<Res<R, T>>)
    requires g.Ok() && i < |alternatives| && pos <= |g.tokens|
    ensures r.Some? ==> pos <= r.value.at <= |g.tokens|
    decreases fuel, alternatives, |alternatives| - i
  {
    var r := Parse(g, alternatives[i], pos, fuel);
    if r.None? then None
    else match r.value.out
      case Ok(_) => r
      case Err(f) =>
        if f.committed then r
        else if i + 1 < |alternatives| then ParseChoice(g, alternatives, i + 1, Some(MergeFailure(failure, f)), pos, fuel)
        else Some(Res(Err(MergeFailure(failure, f)), pos))
  }

  /** Further repetitions after `children`; one that consumes nothing is kept and ends the loop. */
  function ParseRepeat<R, K, T>(g: Language<R, K, T>, item: Peg<R, K>, children: seq<Cst<R, T>>, pos: nat, fuel: nat)
    : (r: Option<Res<R, T>>)
    requires g.Ok() && pos <= |g.tokens|
    ensures r.Some? ==> pos <= r.value.at <= |g.tokens|
    decreases fuel, item, 1 + |g.tokens| - pos
  {
    var r := Parse(g, item, pos, fuel);
    if r.None? then None
    else match r.value.out
      case Ok(more) =>
        if r.value.at != pos then ParseRepeat(g, item, children + more, r.value.at, fuel)
        else Some(Res(Ok(children + more), pos))
      case Err(f) => if f.committed then r else Some(Res(Ok(children), pos))
  }

  // ---- more fuel changes nothing ------------------------------------------------------------------

  lemma {:induction false} MoreFuel<R, K, T>(g: Language<R, K, T>, e: Peg<R, K>, pos: nat, fuel: nat, more: nat)
    requires g.Ok() && pos <= |g.tokens| && fuel <= more && Parse(g, e, pos, fuel).Some?
    ensures Parse(g, e, pos, more) == Parse(g, e, pos, fuel)
    decreases fuel, e, 0
  {
    match e
    case Token(_) =>
    case Rule(rule) => if rule in g.rules { MoreFuel(g, g.rules[rule], pos, fuel - 1, more - 1); }
    case Seq(items) => if items != [] { MoreFuelSeq(g, items, 0, [], pos, pos, fuel, more); }
    case Choice(alternatives) => if alternatives != [] { MoreFuelChoice(g, alternatives, 0, None, pos, fuel, more); }
    case Repeat(item) => MoreFuelRepeat(g, item, [], pos, fuel, more);
    case Repeat1(item) =>
      MoreFuel(g, item, pos, fuel, more);
      var first := Parse(g, item, pos, fuel).value;
      if first.out.Ok? { MoreFuelRepeat(g, item, first.out.value, first.at, fuel, more); }
    case _ => MoreFuel(g, e.item, pos, fuel, more);
  }

  lemma {:induction false} MoreFuelSeq<R, K, T>(g: Language<R, K, T>, items: seq<Peg<R, K>>, i: nat,
                                                children: seq<Cst<R, T>>, start: nat, pos: nat, fuel: nat, more: nat)
    requires g.Ok() && i < |items| && start <= pos <= |g.tokens| && fuel <= more
    requires ParseSeq(g, items, i, children, start, pos, fuel).Some?
    ensures ParseSeq(g, items, i, children, start, pos, more) == ParseSeq(g, items, i, children, start, pos, fuel)
    decreases fuel, items, |items| - i
  {
    MoreFuel(g, items[i], pos, fuel, more);
    var r := Parse(g, items[i], pos, fuel).value;
    if r.out.Ok? && i + 1 < |items| {
      MoreFuelSeq(g, items, i + 1, children + r.out.value, start, r.at, fuel, more);
    }
  }

  lemma {:induction false} MoreFuelChoice<R, K, T>(g: Language<R, K, T>, alternatives: seq<Peg<R, K>>, i: nat,
                                                   failure: Option<Failure>, pos: nat, fuel: nat, more: nat)
    requires g.Ok() && i < |alternatives| && pos <= |g.tokens| && fuel <= more
    requires ParseChoice(g, alternatives, i, failure, pos, fuel).Some?
    ensures ParseChoice(g, alternatives, i, failure, pos, more) == ParseChoice(g, alternatives, i, failure, pos, fuel)
    decreases fuel, alternatives, |alternatives| - i
  {
    MoreFuel(g, alternatives[i], pos, fuel, more);
    var r := Parse(g, alternatives[i], pos, fuel).value;
    if r.out.Err? && !r.out.error.committed && i + 1 < |alternatives| {
      MoreFuelChoice(g, alternatives, i + 1, Some(MergeFailure(failure, r.out.error)), pos, fuel, more);
    }
  }

  lemma {:induction false} MoreFuelRepeat<R, K, T>(g: Language<R, K, T>, item: Peg<R, K>, children: seq<Cst<R, T>>,
                                                   pos: nat, fuel: nat, more: nat)
    requires g.Ok() && pos <= |g.tokens| && fuel <= more && ParseRepeat(g, item, children, pos, fuel).Some?
    ensures ParseRepeat(g, item, children, pos, more) == ParseRepeat(g, item, children, pos, fuel)
    decreases fuel, item, 1 + |g.tokens| - pos
  {
    MoreFuel(g, item, pos, fuel, more);
    var r := Parse(g, item, pos, fuel).value;
    if r.out.Ok? && r.at != pos { MoreFuelRepeat(g, item, children + r.out.value, r.at, fuel, more); }
  }

  lemma {:induction false} SameResult<R, K, T>(g: Language<R, K, T>, e: Peg<R, K>, pos: nat, fuel: nat, fuel': nat)
    requires g.Ok() && pos <= |g.tokens|
    requires Parse(g, e, pos, fuel).Some? && Parse(g, e, pos, fuel').Some?
    ensures Parse(g, e, pos, fuel) == Parse(g, e, pos, fuel')
  {
    if fuel <= fuel' { MoreFuel(g, e, pos, fuel, fuel'); } else { MoreFuel(g, e, pos, fuel', fuel); }
  }

  /** The least fuel that gives a result. */
  lemma {:induction false} LeastFuel<R, K, T>(g: Language<R, K, T>, e: Peg<R, K>, pos: nat, fuel: nat) returns (least: nat)
    requires g.Ok() && pos <= |g.tokens| && Parse(g, e, pos, fuel).Some?
    ensures least <= fuel && Parse(g, e, pos, least) == Parse(g, e, pos, fuel)
    ensures forall k: nat :: k < least ==> Parse(g, e, pos, k).None?
  {
    least := 0;
    while Parse(g, e, pos, least).None?
      invariant least <= fuel && forall k: nat :: k < least ==> Parse(g, e, pos, k).None?
      decreases fuel - least
    {
      least := least + 1;
    }
    SameResult(g, e, pos, fuel, least);
  }
}

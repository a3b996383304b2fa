/**
  What each shape of grammar expression means, exactly: the outcomes it has, in terms of the outcomes of its
  parts. The fuel is out of sight, and failures, committed ones included, are told in full.
 */
module PegLaws {
  import opened Wrappers
  import opened Pegs
  import opened PegSemantics

  /** From `pos` the expression comes to `out` and leaves the cursor at `at`. */
  ghost predicate Means<R(!new), K, T(!new)>(g: Language<R, K, T>, e: Peg<R, K>, pos: nat, out: Output<R, T>, at: nat)
    requires g.Ok() && pos <= |g.tokens|
  {
    exists fuel: nat :: Parse(g, e, pos, fuel) == Some(Res(out, at))
  }

  /** The token at a position, the end of input beyond the last one. */
  ghost function Here<R(!new), K, T(!new)>(g: Language<R, K, T>, pos: nat): T {
    if pos < |g.tokens| then g.tokens[pos] else g.eof
  }

  /** From the first token's beginning to the last one's end, or where the next token stands if there is none. */
  ghost function Extent<R(!new), K, T(!new)>(g: Language<R, K, T>, pos: nat, at: nat): Span {
    if pos < at then Span(g.span(Here(g, pos)).begin, g.span(Here(g, at - 1)).end) else g.span(Here(g, pos))
  }

  lemma {:induction false} MeansMore<R(!new), K, T(!new)>(g: Language<R, K, T>, e: Peg<R, K>, pos: nat, out: Output<R, T>, at: nat)
    returns (fuel: nat)
    requires g.Ok() && pos <= |g.tokens| && Means(g, e, pos, out, at)
    ensures pos <= at <= |g.tokens|
    ensures forall more: nat :: fuel <= more ==> Parse(g, e, pos, more) == Some(Res(out, at))
  {
    fuel :| Parse(g, e, pos, fuel) == Some(Res(out, at));
    forall more: nat | fuel <= more ensures Parse(g, e, pos, more) == Some(Res(out, at)) { MoreFuel(g, e, pos, fuel, more); }
  }

  /** An expression means one thing at most. */
  lemma {:induction false} OneMeaning<R(!new), K, T(!new)>(g: Language<R, K, T>, e: Peg<R, K>, pos: nat,
                                                           out: Output<R, T>, at: nat, out': Output<R, T>, at': nat)
    requires g.Ok() && pos <= |g.tokens| && Means(g, e, pos, out, at) && Means(g, e, pos, out', at')
    ensures out == out' && at == at'
  {
    var fuel: nat :| Parse(g, e, pos, fuel) == Some(Res(out, at));
    var fuel': nat :| Parse(g, e, pos, fuel') == Some(Res(out', at'));
    SameResult(g, e, pos, fuel, fuel');
  }

  // ---- single expressions -----------------------------------------------------------------------------------------

  /** The token at the cursor, consumed unless it is the end of input; or a failure that names what was expected. */
  lemma {:induction false} TokenLaw<R(!new), K, T(!new)>(g: Language<R, K, T>, kind: K, pos: nat, out: Output<R, T>, at: nat)
    requires g.Ok() && pos <= |g.tokens|
    ensures var token := Here(g, pos);
            Means(g, Token(kind), pos, out, at) <==>
              if g.matches(kind, token)
              then out == Ok([Leaf(token)]) && at == (if g.isEof(token) then pos else pos + 1)
              else out == Err(Failure(pos, g.span(token), {g.describe(kind)}, false)) && at == pos
  {
    var token := g.TokenAt(pos);
    assert Parse(g, Token(kind), pos, 0).Some?;
    if fuel: nat :| Parse(g, Token(kind), pos, fuel) == Some(Res(out, at)) { SameResult(g, Token(kind), pos, fuel, 0); }
  }

  /** A rule makes one node of what its body gives, and passes its failure on with the cursor back at the start. */
  lemma {:induction false} RuleLaw<R(!new), K, T(!new)>(g: Language<R, K, T>, rule: R, pos: nat, out: Output<R, T>, at: nat)
    requires g.Ok() && pos <= |g.tokens|
    ensures rule !in g.rules ==>
              (Means(g, Rule(rule), pos, out, at) <==> out == Err(Failure(pos, g.span(Here(g, pos)), {"grammar rule"}, false)) && at == pos)
    ensures rule in g.rules ==>
              (Means(g, Rule(rule), pos, out, at) <==>
                 || (out.Err? && at == pos && exists at' :: Means(g, g.rules[rule], pos, out, at'))
                 || (exists children :: Means(g, g.rules[rule], pos, Ok(children), at)
                                        && out == Ok([Node(rule, Extent(g, pos, at), children)])))
  {
    if rule !in g.rules {
      assert Parse(g, Rule(rule), pos, 0).Some?;
      if fuel: nat :| Parse(g, Rule(rule), pos, fuel) == Some(Res(out, at)) { SameResult(g, Rule(rule), pos, fuel, 0); }
    } else {
      if fuel: nat :| Parse(g, Rule(rule), pos, fuel) == Some(Res(out, at)) {
        var body := Parse(g, g.rules[rule], pos, fuel - 1).value;
        assert Means(g, g.rules[rule], pos, body.out, body.at);
      }
      if out.Err? && at == pos {
        if at' :| Means(g, g.rules[rule], pos, out, at') {
          var fuel := MeansMore(g, g.rules[rule], pos, out, at');
          assert Parse(g, Rule(rule), pos, fuel + 1) == Some(Res(out, at));
        }
      }
      if children :| Means(g, g.rules[rule], pos, Ok(children), at) && out == Ok([Node(rule, Extent(g, pos, at), children)]) {
        var fuel := MeansMore(g, g.rules[rule], pos, Ok(children), at);
        assert Parse(g, Rule(rule), pos, fuel + 1) == Some(Res(out, at));
      }
    }
  }

  /** Whatever the item means, its shape makes something of it. */
  ghost predicate Wraps<R(!new), K, T(!new)>(g: Language<R, K, T>, e: Peg<R, K>, pos: nat, item: Output<R, T>, mid: nat,
                                             out: Output<R, T>, at: nat)
    requires e.Optional? || e.And? || e.Not? || e.Label? || e.Cut?
  {
    match e
    case Optional(_) =>
      if item.Err? && !item.error.committed then out == Ok([]) && at == pos else out == item && at == mid
    case And(_) =>
      at == pos && out == if item.Ok? then Ok([]) else Err(Failure(pos, g.span(Here(g, pos)), {"lookahead"}, false))
    case Not(_) =>
      at == pos && out == if item.Err? then Ok([]) else Err(Failure(pos, g.span(Here(g, pos)), {"negative lookahead"}, false))
    case Label(message, _) =>
      at == mid && out == if item.Ok? then item else Err(item.error.(expected := {message}))
    case Cut(_) =>
      at == mid && out == if item.Ok? then item else Err(item.error.(committed := true))
  }

  lemma {:induction false} WrapLaw<R(!new), K, T(!new)>(g: Language<R, K, T>, e: Peg<R, K>, pos: nat, out: Output<R, T>, at: nat)
    requires g.Ok() && pos <= |g.tokens| && (e.Optional? || e.And? || e.Not? || e.Label? || e.Cut?)
    ensures Means(g, e, pos, out, at) <==> exists item, mid :: Means(g, e.item, pos, item, mid) && Wraps(g, e, pos, item, mid, out, at)
  {
    if fuel: nat :| Parse(g, e, pos, fuel) == Some(Res(out, at)) {
      var r := Parse(g, e.item, pos, fuel).value;
      assert Means(g, e.item, pos, r.out, r.at) && Wraps(g, e, pos, r.out, r.at, out, at);
    }
    if item, mid :| Means(g, e.item, pos, item, mid) && Wraps(g, e, pos, item, mid, out, at) {
      var fuel := MeansMore(g, e.item, pos, item, mid);
      assert Parse(g, e.item, pos, fuel) == Some(Res(item, mid));
      assert Parse(g, e, pos, fuel) == Some(Res(out, at));
    }
  }

  lemma {:induction false} Lookahead<R(!new), K, T(!new)>(g: Language<R, K, T>, e: Peg<R, K>, pos: nat)
    requires g.Ok() && pos <= |g.tokens| && (e.And? || e.Not?)
    ensures forall out, at :: Means(g, e, pos, out, at) <==>
              exists item, mid :: Means(g, e.item, pos, item, mid) && Wraps(g, e, pos, item, mid, out, at)
    ensures forall item, mid :: Means(g, e.item, pos, item, mid) ==>
              Means(g, e, pos, if item.Ok? == e.And? then Ok([])
                               else Err(Failure(pos, g.span(Here(g, pos)), {if e.And? then "lookahead" else "negative lookahead"}, false)), pos)
  {
    forall out, at ensures Means(g, e, pos, out, at) <==>
      exists item, mid :: Means(g, e.item, pos, item, mid) && Wraps(g, e, pos, item, mid, out, at)
    {
      WrapLaw(g, e, pos, out, at);
    }
  }

  /** `&e` succeeds where `e` does, without trees and without moving, and fails where `e` fails. */
  lemma {:induction false} AndLaw<R(!new), K, T(!new)>(g: Language<R, K, T>, e: Peg<R, K>, pos: nat)
    requires g.Ok() && pos <= |g.tokens|
    ensures (exists trees, at :: Means(g, e, pos, Ok(trees), at)) <==> Means(g, And(e), pos, Ok([]), pos)
    ensures (exists failure, at :: Means(g, e, pos, Err(failure), at)) <==>
            Means(g, And(e), pos, Err(Failure(pos, g.span(Here(g, pos)), {"lookahead"}, false)), pos)
    ensures forall out, at :: Means(g, And(e), pos, out, at) ==>
              at == pos && (out == Ok([]) || out == Err(Failure(pos, g.span(Here(g, pos)), {"lookahead"}, false)))
  {
    Lookahead(g, And(e), pos);
  }

  /** `!e` succeeds where `e` fails, committed or not, without trees and without moving, and fails where `e` succeeds. */
  lemma {:induction false} NotLaw<R(!new), K, T(!new)>(g: Language<R, K, T>, e: Peg<R, K>, pos: nat)
    requires g.Ok() && pos <= |g.tokens|
    ensures (exists failure, at :: Means(g, e, pos, Err(failure), at)) <==> Means(g, Not(e), pos, Ok([]), pos)
    ensures (exists trees, at :: Means(g, e, pos, Ok(trees), at)) <==>
            Means(g, Not(e), pos, Err(Failure(pos, g.span(Here(g, pos)), {"negative lookahead"}, false)), pos)
    ensures forall out, at :: Means(g, Not(e), pos, out, at) ==>
              at == pos && (out == Ok([]) || out == Err(Failure(pos, g.span(Here(g, pos)), {"negative lookahead"}, false)))
  {
    Lookahead(g, Not(e), pos);
  }

  // ---- sequences ------------------------------------------------------------------------------------------------------

  /** Equal items behind: what has been collected goes in front, and a failure goes back to where the sequence began. */
  lemma {:induction false} SeqShift<R(!new), K, T(!new)>(g: Language<R, K, T>, items: seq<Peg<R, K>>, i: nat, acc: seq<Cst<R, T>>, start: nat,
                                                         items': seq<Peg<R, K>>, i': nat, acc': seq<Cst<R, T>>, start': nat,
                                                         pos: nat, fuel: nat)
    returns (trees: seq<Cst<R, T>>)
    requires g.Ok() && i < |items| && i' < |items'| && items[i..] == items'[i'..]
    requires start <= pos <= |g.tokens| && start' <= pos
    ensures var r, r' := ParseSeq(g, items, i, acc, start, pos, fuel), ParseSeq(g, items', i', acc', start', pos, fuel);
            && (r.None? <==> r'.None?)
            && (r.Some? && r.value.out.Ok? ==>
                  r.value.out.value == acc + trees && r' == Some(Res(Ok(acc' + trees), r.value.at)))
            && (r.Some? && r.value.out.Err? ==> r.value.at == start && r' == Some(Res(r.value.out, start')))
    decreases |items| - i
  {
    trees := [];
    assert items[i] == items[i..][0] == items'[i'..][0] == items'[i'];
    assert |items| - i == |items[i..]| == |items'[i'..]| == |items'| - i';
    var r := Parse(g, items[i], pos, fuel);
    if r.Some? && r.value.out.Ok? {
      var more, mid := r.value.out.value, r.value.at;
      trees := more;
      if i + 1 < |items| {
        assert items[i + 1..] == items[i..][1..] == items'[i'..][1..] == items'[i' + 1..];
        var rest := SeqShift(g, items, i + 1, acc + more, start, items', i' + 1, acc' + more, start', mid, fuel);
        trees := more + rest;
        assert acc + (more + rest) == acc + more + rest && acc' + (more + rest) == acc' + more + rest;
      }
    }
  }

  /** What a sequence comes to once the first item has succeeded and moved on to `mid`. */
  ghost predicate SeqJoins<R, T>(trees: seq<Cst<R, T>>, rest: Output<R, T>, end: nat, pos: nat, out: Output<R, T>, at: nat) {
    if rest.Ok? then out == Ok(trees + rest.value) && at == end else out == rest && at == pos
  }

  lemma {:induction false} SeqDown<R(!new), K, T(!new)>(g: Language<R, K, T>, items: seq<Peg<R, K>>, pos: nat, out: Output<R, T>, at: nat, fuel: nat)
    requires g.Ok() && pos <= |g.tokens| && items != [] && Parse(g, Seq(items), pos, fuel) == Some(Res(out, at))
    ensures (out.Err? && at == pos && exists mid: nat :: Means(g, items[0], pos, out, mid))
            || (exists trees, mid: nat, rest, end: nat ::
                  mid <= |g.tokens| && Means(g, items[0], pos, Ok(trees), mid)
                  && Means(g, Seq(items[1..]), mid, rest, end) && SeqJoins(trees, rest, end, pos, out, at))
  {
    var first := Parse(g, items[0], pos, fuel).value;
    assert Means(g, items[0], pos, first.out, first.at);
    if first.out.Ok? {
      var trees, mid := first.out.value, first.at;
      assert [] + trees == trees;
      if |items| == 1 {
        assert items[1..] == [] && trees + [] == trees;
        assert Parse(g, Seq(items[1..]), mid, 0) == Some(Res(Ok([]), mid));
        assert Means(g, Seq(items[1..]), mid, Ok([]), mid) && SeqJoins(trees, Ok([]), mid, pos, out, at);
      } else {
        assert items[1..][0..] == items[1..];
        var rest := SeqShift(g, items, 1, trees, pos, items[1..], 0, [], mid, mid, fuel);
        var r := Parse(g, Seq(items[1..]), mid, fuel).value;
        assert [] + rest == rest;
        assert Means(g, Seq(items[1..]), mid, r.out, r.at) && SeqJoins(trees, r.out, r.at, pos, out, at);
      }
    }
  }

  lemma {:induction false} SeqUp<R(!new), K, T(!new)>(g: Language<R, K, T>, items: seq<Peg<R, K>>, pos: nat, out: Output<R, T>, at: nat,
                                                      trees: seq<Cst<R, T>>, mid: nat, rest: Output<R, T>, end: nat)
    requires g.Ok() && pos <= |g.tokens| && mid <= |g.tokens| && items != [] && Means(g, items[0], pos, Ok(trees), mid)
    requires Means(g, Seq(items[1..]), mid, rest, end) && SeqJoins(trees, rest, end, pos, out, at)
    ensures Means(g, Seq(items), pos, out, at)
  {
    var k := MeansMore(g, items[0], pos, Ok(trees), mid);
    var k' := MeansMore(g, Seq(items[1..]), mid, rest, end);
    var fuel := Max(k, k');
    assert Parse(g, items[0], pos, fuel) == Some(Res(Ok(trees), mid));
    assert Parse(g, Seq(items[1..]), mid, fuel) == Some(Res(rest, end));
    assert [] + trees == trees;
    if |items| == 1 {
      assert items[1..] == [] && trees + [] == trees;
      assert Parse(g, Seq(items), pos, fuel) == Some(Res(out, at));
    } else {
      assert items[1..][0..] == items[1..];
      var more := SeqShift(g, items, 1, trees, pos, items[1..], 0, [], mid, mid, fuel);
      assert [] + more == more;
      assert Parse(g, Seq(items), pos, fuel) == Some(Res(out, at));
    }
  }

  /** One item after another, each where the one before it has left the cursor; the first failure is the sequence's, with the cursor back at its start. */
  lemma {:induction false} SeqLaw<R(!new), K, T(!new)>(g: Language<R, K, T>, items: seq<Peg<R, K>>, pos: nat, out: Output<R, T>, at: nat)
    requires g.Ok() && pos <= |g.tokens|
    ensures items == [] ==> (Means(g, Seq(items), pos, out, at) <==> out == Ok([]) && at == pos)
    ensures items != [] ==>
              (Means(g, Seq(items), pos, out, at) <==>
                 || (out.Err? && at == pos && exists mid: nat :: Means(g, items[0], pos, out, mid))
                 || (exists trees, mid: nat, rest, end: nat ::
                       mid <= |g.tokens| && Means(g, items[0], pos, Ok(trees), mid)
                       && Means(g, Seq(items[1..]), mid, rest, end) && SeqJoins(trees, rest, end, pos, out, at)))
  {
    if items == [] {
      assert Parse(g, Seq(items), pos, 0) == Some(Res(Ok([]), pos));
      if fuel: nat :| Parse(g, Seq(items), pos, fuel) == Some(Res(out, at)) { SameResult(g, Seq(items), pos, fuel, 0); }
    } else {
      if fuel: nat :| Parse(g, Seq(items), pos, fuel) == Some(Res(out, at)) { SeqDown(g, items, pos, out, at, fuel); }
      if out.Err? && at == pos {
        if mid: nat :| Means(g, items[0], pos, out, mid) {
          var fuel := MeansMore(g, items[0], pos, out, mid);
          assert Parse(g, items[0], pos, fuel) == Some(Res(out, mid));
          assert Parse(g, Seq(items), pos, fuel) == Some(Res(out, at));
        }
      }
      if trees, mid: nat, rest, end: nat :|
          mid <= |g.tokens| && Means(g, items[0], pos, Ok(trees), mid)
          && Means(g, Seq(items[1..]), mid, rest, end) && SeqJoins(trees, rest, end, pos, out, at) {
        SeqUp(g, items, pos, out, at, trees, mid, rest, end);
      }
    }
  }

  // ---- repetition -----------------------------------------------------------------------------------------------------

  lemma {:induction false} RepeatShift<R(!new), K, T(!new)>(g: Language<R, K, T>, item: Peg<R, K>, acc: seq<Cst<R, T>>, acc': seq<Cst<R, T>>,
                                                            pos: nat, fuel: nat)
    returns (trees: seq<Cst<R, T>>)
    requires g.Ok() && pos <= |g.tokens|
    ensures var r, r' := ParseRepeat(g, item, acc, pos, fuel), ParseRepeat(g, item, acc', pos, fuel);
            && (r.None? <==> r'.None?)
            && (r.Some? && r.value.out.Ok? ==>
                  r.value.out.value == acc + trees && r' == Some(Res(Ok(acc' + trees), r.value.at)))
            && (r.Some? && r.value.out.Err? ==> r' == r)
    decreases |g.tokens| - pos
  {
    trees := [];
    assert acc + [] == acc && acc' + [] == acc';
    var r := Parse(g, item, pos, fuel);
    if r.Some? && r.value.out.Ok? {
      var more, mid := r.value.out.value, r.value.at;
      trees := more;
      if mid != pos {
        var rest := RepeatShift(g, item, acc + more, acc' + more, mid, fuel);
        trees := more + rest;
        assert acc + (more + rest) == acc + more + rest && acc' + (more + rest) == acc' + more + rest;
      }
    }
  }

  /** Trees collected so far in front of what a repetition comes to. */
  ghost predicate RepeatJoins<R, T>(trees: seq<Cst<R, T>>, rest: Output<R, T>, end: nat, out: Output<R, T>, at: nat) {
    at == end && out == if rest.Ok? then Ok(trees + rest.value) else rest
  }

  /** What a repetition comes to when the item fails. */
  ghost predicate RepeatEnds<R, T>(failure: Failure, mid: nat, pos: nat, out: Output<R, T>, at: nat) {
    if failure.committed then out == Err(failure) && at == mid else out == Ok([]) && at == pos
  }

  lemma {:induction false} RepeatOn<R(!new), K, T(!new)>(g: Language<R, K, T>, e: Peg<R, K>, acc: seq<Cst<R, T>>, pos: nat, fuel: nat)
    requires g.Ok() && pos <= |g.tokens|
    ensures var r, r' := ParseRepeat(g, e, acc, pos, fuel), Parse(g, Repeat(e), pos, fuel);
            (r.None? <==> r'.None?) && (r.Some? ==> RepeatJoins(acc, r'.value.out, r'.value.at, r.value.out, r.value.at))
  {
    assert Parse(g, Repeat(e), pos, fuel) == ParseRepeat(g, e, [], pos, fuel);
    hide Parse, ParseRepeat;
    var trees := RepeatShift(g, e, acc, [], pos, fuel);
    assert [] + trees == trees;
  }

  /** One turn of a repetition. */
  lemma {:induction false} RepeatTurn<R(!new), K, T(!new)>(g: Language<R, K, T>, e: Peg<R, K>, pos: nat, fuel: nat)
    requires g.Ok() && pos <= |g.tokens|
    ensures var first, r := Parse(g, e, pos, fuel), Parse(g, Repeat(e), pos, fuel);
            if first.None? then r.None?
            else match first.value.out
              case Err(failure) => r.Some? && RepeatEnds(failure, first.value.at, pos, r.value.out, r.value.at)
              case Ok(trees) =>
                var mid := first.value.at;
                if mid == pos then r == Some(Res(Ok(trees), pos))
                else
                  var rest := Parse(g, Repeat(e), mid, fuel);
                  (r.None? <==> rest.None?) && (r.Some? ==> RepeatJoins(trees, rest.value.out, rest.value.at, r.value.out, r.value.at))
  {
    var first := Parse(g, e, pos, fuel);
    assert Parse(g, Repeat(e), pos, fuel) == ParseRepeat(g, e, [], pos, fuel);
    if first.Some? && first.value.out.Ok? {
      var trees, mid := first.value.out.value, first.value.at;
      assert [] + trees == trees;
      assert ParseRepeat(g, e, [], pos, fuel) == if mid != pos then ParseRepeat(g, e, trees, mid, fuel) else Some(Res(Ok(trees), pos));
      hide Parse, ParseRepeat;
      RepeatOn(g, e, trees, mid, fuel);
    }
  }

  lemma {:induction false} RepeatUp<R(!new), K, T(!new)>(g: Language<R, K, T>, e: Peg<R, K>, pos: nat, out: Output<R, T>, at: nat,
                                                         trees: seq<Cst<R, T>>, mid: nat, rest: Output<R, T>, end: nat)
    requires g.Ok() && pos <= |g.tokens| && mid <= |g.tokens| && mid != pos && Means(g, e, pos, Ok(trees), mid)
    requires Means(g, Repeat(e), mid, rest, end) && RepeatJoins(trees, rest, end, out, at)
    ensures Means(g, Repeat(e), pos, out, at)
  {
    hide Parse, ParseRepeat;
    var k := MeansMore(g, e, pos, Ok(trees), mid);
    var k' := MeansMore(g, Repeat(e), mid, rest, end);
    var fuel := Max(k, k');
    RepeatTurn(g, e, pos, fuel);
    assert Parse(g, e, pos, fuel) == Some(Res(Ok(trees), mid)) && Parse(g, Repeat(e), mid, fuel) == Some(Res(rest, end));
    assert Parse(g, Repeat(e), pos, fuel) == Some(Res(out, at));
  }

  /**
    As often as the item succeeds. An uncommitted failure ends the repetition where the item was tried, a
    committed one is the repetition's; an item that consumes nothing is kept and is the last.
   */
  lemma {:induction false} RepeatLaw<R(!new), K, T(!new)>(g: Language<R, K, T>, e: Peg<R, K>, pos: nat, out: Output<R, T>, at: nat)
    requires g.Ok() && pos <= |g.tokens|
    ensures Means(g, Repeat(e), pos, out, at) <==>
              || (exists failure, mid: nat :: Means(g, e, pos, Err(failure), mid) && RepeatEnds(failure, mid, pos, out, at))
              || (out.Ok? && at == pos && Means(g, e, pos, out, pos))
              || (exists trees, mid: nat, rest, end: nat ::
                    mid <= |g.tokens| && mid != pos && Means(g, e, pos, Ok(trees), mid)
                    && Means(g, Repeat(e), mid, rest, end) && RepeatJoins(trees, rest, end, out, at))
  {
    hide Parse, ParseRepeat;
    if fuel: nat :| Parse(g, Repeat(e), pos, fuel) == Some(Res(out, at)) {
      RepeatTurn(g, e, pos, fuel);
      var first := Parse(g, e, pos, fuel).value;
      assert Means(g, e, pos, first.out, first.at);
      if first.out.Ok? && first.at != pos {
        var r := Parse(g, Repeat(e), first.at, fuel).value;
        assert Means(g, Repeat(e), first.at, r.out, r.at);
      }
    }
    if failure, mid: nat :| Means(g, e, pos, Err(failure), mid) && RepeatEnds(failure, mid, pos, out, at) {
      var fuel := MeansMore(g, e, pos, Err(failure), mid);
      RepeatTurn(g, e, pos, fuel);
      assert Parse(g, Repeat(e), pos, fuel) == Some(Res(out, at));
    }
    if out.Ok? && at == pos && Means(g, e, pos, out, pos) {
      var fuel := MeansMore(g, e, pos, out, pos);
      RepeatTurn(g, e, pos, fuel);
      assert Parse(g, Repeat(e), pos, fuel) == Some(Res(out, at));
    }
    if trees, mid: nat, rest, end: nat :|
        mid <= |g.tokens| && mid != pos && Means(g, e, pos, Ok(trees), mid)
        && Means(g, Repeat(e), mid, rest, end) && RepeatJoins(trees, rest, end, out, at) {
      RepeatUp(g, e, pos, out, at, trees, mid, rest, end);
    }
  }

  lemma {:induction false} Repeat1Up<R(!new), K, T(!new)>(g: Language<R, K, T>, e: Peg<R, K>, pos: nat, out: Output<R, T>, at: nat,
                                                          trees: seq<Cst<R, T>>, mid: nat, rest: Output<R, T>, end: nat)
    requires g.Ok() && pos <= |g.tokens| && mid <= |g.tokens| && Means(g, e, pos, Ok(trees), mid)
    requires Means(g, Repeat(e), mid, rest, end) && RepeatJoins(trees, rest, end, out, at)
    ensures Means(g, Repeat1(e), pos, out, at)
  {
    var k := MeansMore(g, e, pos, Ok(trees), mid);
    var k' := MeansMore(g, Repeat(e), mid, rest, end);
    var fuel := Max(k, k');
    assert Parse(g, e, pos, fuel) == Some(Res(Ok(trees), mid)) && Parse(g, Repeat(e), mid, fuel) == Some(Res(rest, end));
    assert Parse(g, Repeat1(e), pos, fuel) == ParseRepeat(g, e, trees, mid, fuel);
    hide Parse, ParseRepeat;
    RepeatOn(g, e, trees, mid, fuel);
    assert Parse(g, Repeat1(e), pos, fuel) == Some(Res(out, at));
  }

  /** Once, and then as often as the item succeeds. */
  lemma {:induction false} Repeat1Law<R(!new), K, T(!new)>(g: Language<R, K, T>, e: Peg<R, K>, pos: nat, out: Output<R, T>, at: nat)
    requires g.Ok() && pos <= |g.tokens|
    ensures Means(g, Repeat1(e), pos, out, at) <==>
              || (out.Err? && Means(g, e, pos, out, at))
              || (exists trees, mid: nat, rest, end: nat ::
                    mid <= |g.tokens| && Means(g, e, pos, Ok(trees), mid)
                    && Means(g, Repeat(e), mid, rest, end) && RepeatJoins(trees, rest, end, out, at))
  {
    if fuel: nat :| Parse(g, Repeat1(e), pos, fuel) == Some(Res(out, at)) {
      var first := Parse(g, e, pos, fuel).value;
      assert Means(g, e, pos, first.out, first.at);
      if first.out.Ok? {
        var trees, mid := first.out.value, first.at;
        RepeatOn(g, e, trees, mid, fuel);
        var r := Parse(g, Repeat(e), mid, fuel).value;
        assert Means(g, Repeat(e), mid, r.out, r.at) && RepeatJoins(trees, r.out, r.at, out, at);
      }
    }
    if out.Err? && Means(g, e, pos, out, at) {
      var fuel := MeansMore(g, e, pos, out, at);
      assert Parse(g, e, pos, fuel) == Some(Res(out, at));
      assert Parse(g, Repeat1(e), pos, fuel) == Some(Res(out, at));
    }
    if trees, mid: nat, rest, end: nat :|
        mid <= |g.tokens| && Means(g, e, pos, Ok(trees), mid)
        && Means(g, Repeat(e), mid, rest, end) && RepeatJoins(trees, rest, end, out, at) {
      Repeat1Up(g, e, pos, out, at, trees, mid, rest, end);
    }
  }

  // ---- choices --------------------------------------------------------------------------------------------------------

  /** Of two failures the one farther on; what both expected, if they are at one place. */
  ghost function Farther(a: Failure, b: Failure): Failure {
    if b.pos > a.pos then b
    else if b.pos < a.pos then a
    else Failure(a.pos, a.span, a.expected + b.expected, a.committed || b.committed)
  }

  lemma {:induction false} FartherAssociates(a: Option<Failure>, b: Failure, c: Failure)
    ensures MergeFailure(Some(MergeFailure(a, b)), c) == MergeFailure(a, Farther(b, c))
    ensures MergeFailure(None, b) == b && MergeFailure(Some(b), c) == Farther(b, c)
  {
    if a.Some? { assert a.value.expected + b.expected + c.expected == a.value.expected + (b.expected + c.expected); }
  }

  /** Equal alternatives behind: only an uncommitted failure depends on those that went before. */
  lemma {:induction false} ChoiceShift<R(!new), K, T(!new)>(g: Language<R, K, T>, alts: seq<Peg<R, K>>, i: nat, before: Option<Failure>,
                                                            alts': seq<Peg<R, K>>, i': nat, pos: nat, fuel: nat)
    requires g.Ok() && pos <= |g.tokens| && i < |alts| && i' < |alts'| && alts[i..] == alts'[i'..]
    requires before.Some? ==> !before.value.committed
    ensures var r, r' := ParseChoice(g, alts, i, before, pos, fuel), ParseChoice(g, alts', i', None, pos, fuel);
            if r'.Some? && r'.value.out.Err? && !r'.value.out.error.committed
            then r == Some(Res(Err(MergeFailure(before, r'.value.out.error)), pos)) && r'.value.at == pos
            else r == r'
    decreases |alts| - i
  {
    assert alts[i] == alts[i..][0] == alts'[i'..][0] == alts'[i'];
    assert |alts| - i == |alts[i..]| == |alts'[i'..]| == |alts'| - i';
    var r := Parse(g, alts[i], pos, fuel);
    if r.Some? && r.value.out.Err? && !r.value.out.error.committed && i + 1 < |alts| {
      var f := r.value.out.error;
      assert alts[i + 1..] == alts[i..][1..] == alts'[i'..][1..] == alts'[i' + 1..];
      ChoiceShift(g, alts, i + 1, Some(MergeFailure(before, f)), alts, i + 1, pos, fuel);
      ChoiceShift(g, alts', i' + 1, Some(f), alts, i + 1, pos, fuel);
      var rest := ParseChoice(g, alts, i + 1, None, pos, fuel);
      if rest.Some? && rest.value.out.Err? { FartherAssociates(before, f, rest.value.out.error); }
    }
  }

  /** What a choice comes to once the first alternative has failed, uncommitted. */
  ghost predicate ChoiceJoins<R, T>(failure: Failure, rest: Output<R, T>, end: nat, pos: nat, out: Output<R, T>, at: nat) {
    if rest.Ok? || rest.error.committed then out == rest && at == end
    else out == Err(Farther(failure, rest.error)) && at == pos
  }

  lemma {:induction false} ChoiceDown<R(!new), K, T(!new)>(g: Language<R, K, T>, alts: seq<Peg<R, K>>, pos: nat, out: Output<R, T>, at: nat, fuel: nat)
    requires g.Ok() && pos <= |g.tokens| && alts != [] && Parse(g, Choice(alts), pos, fuel) == Some(Res(out, at))
    ensures || ((out.Ok? || out.error.committed) && Means(g, alts[0], pos, out, at))
            || (exists failure, mid: nat ::
                  Means(g, alts[0], pos, Err(failure), mid) && !failure.committed && |alts| == 1 && out == Err(failure) && at == pos)
            || (exists failure, mid: nat, rest, end: nat ::
                  Means(g, alts[0], pos, Err(failure), mid) && !failure.committed
                  && |alts| > 1 && Means(g, Choice(alts[1..]), pos, rest, end) && ChoiceJoins(failure, rest, end, pos, out, at))
  {
    var first := Parse(g, alts[0], pos, fuel).value;
    assert Means(g, alts[0], pos, first.out, first.at);
    if first.out.Err? && !first.out.error.committed && |alts| > 1 {
      var failure := first.out.error;
      assert alts[1..][0..] == alts[1..];
      ChoiceShift(g, alts, 1, Some(failure), alts[1..], 0, pos, fuel);
      var r := Parse(g, Choice(alts[1..]), pos, fuel).value;
      if r.out.Err? { FartherAssociates(None, failure, r.out.error); }
      assert Means(g, Choice(alts[1..]), pos, r.out, r.at) && ChoiceJoins(failure, r.out, r.at, pos, out, at);
    }
  }

  lemma {:induction false} ChoiceUp<R(!new), K, T(!new)>(g: Language<R, K, T>, alts: seq<Peg<R, K>>, pos: nat, out: Output<R, T>, at: nat,
                                                         failure: Failure, mid: nat, rest: Output<R, T>, end: nat)
    requires g.Ok() && pos <= |g.tokens| && |alts| > 1 && Means(g, alts[0], pos, Err(failure), mid) && !failure.committed
    requires Means(g, Choice(alts[1..]), pos, rest, end) && ChoiceJoins(failure, rest, end, pos, out, at)
    ensures Means(g, Choice(alts), pos, out, at)
  {
    var k := MeansMore(g, alts[0], pos, Err(failure), mid);
    var k' := MeansMore(g, Choice(alts[1..]), pos, rest, end);
    var fuel := Max(k, k');
    assert Parse(g, alts[0], pos, fuel) == Some(Res(Err(failure), mid));
    assert Parse(g, Choice(alts[1..]), pos, fuel) == Some(Res(rest, end));
    assert alts[1..][0..] == alts[1..];
    ChoiceShift(g, alts, 1, Some(failure), alts[1..], 0, pos, fuel);
    if rest.Err? { FartherAssociates(None, failure, rest.error); }
    assert Parse(g, Choice(alts), pos, fuel) == Some(Res(out, at));
  }

  /**
    The first alternative that succeeds or fails committed decides. If all fail uncommitted, the failure is
    the farthest, with everything expected there, and the cursor is back.
   */
  lemma {:induction false} ChoiceLaw<R(!new), K, T(!new)>(g: Language<R, K, T>, alts: seq<Peg<R, K>>, pos: nat, out: Output<R, T>, at: nat)
    requires g.Ok() && pos <= |g.tokens|
    ensures alts == [] ==>
              (Means(g, Choice(alts), pos, out, at) <==> out == Err(Failure(pos, g.span(Here(g, pos)), {"alternative"}, false)) && at == pos)
    ensures alts != [] ==>
              (Means(g, Choice(alts), pos, out, at) <==>
                 || ((out.Ok? || out.error.committed) && Means(g, alts[0], pos, out, at))
                 || (exists failure, mid: nat ::
                       Means(g, alts[0], pos, Err(failure), mid) && !failure.committed && |alts| == 1 && out == Err(failure) && at == pos)
                 || (exists failure, mid: nat, rest, end: nat ::
                       Means(g, alts[0], pos, Err(failure), mid) && !failure.committed
                       && |alts| > 1 && Means(g, Choice(alts[1..]), pos, rest, end) && ChoiceJoins(failure, rest, end, pos, out, at)))
  {
    if alts == [] {
      assert Parse(g, Choice(alts), pos, 0).Some?;
      if fuel: nat :| Parse(g, Choice(alts), pos, fuel) == Some(Res(out, at)) { SameResult(g, Choice(alts), pos, fuel, 0); }
    } else {
      if fuel: nat :| Parse(g, Choice(alts), pos, fuel) == Some(Res(out, at)) { ChoiceDown(g, alts, pos, out, at, fuel); }
      if (out.Ok? || out.error.committed) && Means(g, alts[0], pos, out, at) {
        var fuel := MeansMore(g, alts[0], pos, out, at);
        assert Parse(g, alts[0], pos, fuel) == Some(Res(out, at));
        assert Parse(g, Choice(alts), pos, fuel) == Some(Res(out, at));
      }
      if failure, mid: nat :| Means(g, alts[0], pos, Err(failure), mid) && !failure.committed
                              && |alts| == 1 && out == Err(failure) && at == pos {
        var fuel := MeansMore(g, alts[0], pos, Err(failure), mid);
        assert Parse(g, alts[0], pos, fuel) == Some(Res(Err(failure), mid));
        assert Parse(g, Choice(alts), pos, fuel) == Some(Res(out, at));
      }
      if failure, mid: nat, rest, end: nat :|
          Means(g, alts[0], pos, Err(failure), mid) && !failure.committed && |alts| > 1
          && Means(g, Choice(alts[1..]), pos, rest, end) && ChoiceJoins(failure, rest, end, pos, out, at) {
        ChoiceUp(g, alts, pos, out, at, failure, mid, rest, end);
      }
    }
  }

  // ---- where failures are reported --------------------------------------------------------------------------------------

  /** A failure names the token it stands at, which is not before `pos`, and something that was expected there. */
  ghost predicate Placed<R(!new), K, T(!new)>(g: Language<R, K, T>, pos: nat, r: Option<Res<R, T>>) {
    r.Some? && r.value.out.Err? ==> PlacedAt(g, pos, r.value.out.error)
  }

  ghost predicate PlacedAt<R(!new), K, T(!new)>(g: Language<R, K, T>, pos: nat, f: Failure) {
    pos <= f.pos <= |g.tokens| && f.span == g.span(Here(g, f.pos)) && f.expected != {}
  }

  lemma {:induction false} FailuresArePlaced<R(!new), K, T(!new)>(g: Language<R, K, T>, e: Peg<R, K>, pos: nat, fuel: nat)
    requires g.Ok() && pos <= |g.tokens|
    ensures Placed(g, pos, Parse(g, e, pos, fuel))
    decreases fuel, e, 0
  {
    match e
    case Token(_) =>
    case Rule(rule) => if rule in g.rules && fuel > 0 { FailuresArePlaced(g, g.rules[rule], pos, fuel - 1); }
    case Seq(items) => if items != [] { SeqPlaced(g, items, 0, [], pos, pos, fuel); }
    case Choice(alts) => if alts != [] { ChoicePlaced(g, alts, 0, None, pos, fuel); }
    case Repeat(item) => RepeatPlaced(g, item, [], pos, fuel);
    case Repeat1(item) =>
      FailuresArePlaced(g, item, pos, fuel);
      var first := Parse(g, item, pos, fuel);
      if first.Some? && first.value.out.Ok? { RepeatPlaced(g, item, first.value.out.value, first.value.at, fuel); }
    case _ => FailuresArePlaced(g, e.item, pos, fuel);
  }

  lemma {:induction false} SeqPlaced<R(!new), K, T(!new)>(g: Language<R, K, T>, items: seq<Peg<R, K>>, i: nat, acc: seq<Cst<R, T>>,
                                                          start: nat, pos: nat, fuel: nat)
    requires g.Ok() && i < |items| && start <= pos <= |g.tokens|
    ensures Placed(g, start, ParseSeq(g, items, i, acc, start, pos, fuel))
    decreases fuel, items, |items| - i
  {
    FailuresArePlaced(g, items[i], pos, fuel);
    var r := Parse(g, items[i], pos, fuel);
    if r.Some? && r.value.out.Ok? && i + 1 < |items| {
      SeqPlaced(g, items, i + 1, acc + r.value.out.value, start, r.value.at, fuel);
    }
  }

  lemma {:induction false} ChoicePlaced<R(!new), K, T(!new)>(g: Language<R, K, T>, alts: seq<Peg<R, K>>, i: nat, before: Option<Failure>,
                                                             pos: nat, fuel: nat)
    requires g.Ok() && i < |alts| && pos <= |g.tokens| && (before.Some? ==> PlacedAt(g, pos, before.value))
    ensures Placed(g, pos, ParseChoice(g, alts, i, before, pos, fuel))
    decreases fuel, alts, |alts| - i
  {
    FailuresArePlaced(g, alts[i], pos, fuel);
    var r := Parse(g, alts[i], pos, fuel);
    if r.Some? && r.value.out.Err? && !r.value.out.error.committed && i + 1 < |alts| {
      ChoicePlaced(g, alts, i + 1, Some(MergeFailure(before, r.value.out.error)), pos, fuel);
    }
  }

  lemma {:induction false} RepeatPlaced<R(!new), K, T(!new)>(g: Language<R, K, T>, item: Peg<R, K>, acc: seq<Cst<R, T>>, pos: nat, fuel: nat)
    requires g.Ok() && pos <= |g.tokens|
    ensures Placed(g, pos, ParseRepeat(g, item, acc, pos, fuel))
    decreases fuel, item, 1 + |g.tokens| - pos
  {
    FailuresArePlaced(g, item, pos, fuel);
    var r := Parse(g, item, pos, fuel);
    if r.Some? && r.value.out.Ok? && r.value.at != pos { RepeatPlaced(g, item, acc + r.value.out.value, r.value.at, fuel); }
  }
}

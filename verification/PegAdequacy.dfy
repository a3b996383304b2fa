/** The machine halts only where the semantics has a result. */
module PegAdequacy {
  import opened Wrappers
  import opened Pegs
  import opened PegSemantics
  import opened PegMachine
  import opened PegRefinement

  /** What is left of a halting run once it has passed a configuration that has not halted. */
  lemma {:induction false} Passes<R, K, T>(g: Language<R, K, T>, c: Config<R, K, T>, d: Config<R, K, T>, n: nat)
    returns (left: nat)
    requires Halted(Run(g, c, n)) && !Halted(d) && exists m: nat :: Run(g, c, m) == d
    ensures 0 < left <= n && Run(g, d, left) == Run(g, c, n)
  {
    var m: nat :| Run(g, c, m) == d;
    if m >= n {
      RunPlus(g, c, n, m - n);
      HaltedStays(g, Run(g, c, n), m - n);
      assert false;
    }
    left := n - m;
    RunPlus(g, c, m, left);
  }

  /** A halting run has a result for the expression it starts with, whatever is on the stack. */
  lemma {:induction false} Defined<R, K, T>(g: Language<R, K, T>, c: Config<R, K, T>, n: nat) returns (fuel: nat)
    requires g.Ok() && MemoOk(g, c.memo) && c.cursor <= |g.tokens| && c.work.Eval?
    requires Halted(Run(g, c, n))
    ensures Parse(g, c.work.e, c.cursor, fuel).Some?
    decreases n, 1
  {
    hide MemoOk, Reaches;
    var start := Step(g, c);
    match c.work.e
    case Token(_) => fuel := 0;
    case Rule(rule) => fuel := DefinedRule(g, c, n);
    case Seq(items) =>
      if items == [] { fuel := 0; } else { fuel := DefinedSeq(g, start, c.frames, items, 0, [], c.cursor, n - 1); }
    case Choice(alternatives) =>
      if alternatives == [] { fuel := 0; } else { fuel := DefinedChoice(g, start, c.frames, alternatives, 0, None, n - 1); }
    case Repeat(item) =>
      fuel := DefinedRepeat(g, start, c.frames, item, [], n - 1);
    case Repeat1(item) => fuel := DefinedRepeat1(g, c, item, n);
    case _ => fuel := Defined(g, start, n - 1);
  }

  lemma {:induction false} DefinedRepeat1<R, K, T>(g: Language<R, K, T>, c: Config<R, K, T>, item: Peg<R, K>, n: nat)
    returns (fuel: nat)
    requires g.Ok() && MemoOk(g, c.memo) && c.cursor <= |g.tokens| && c.work == Eval(Repeat1(item))
    requires Halted(Run(g, c, n))
    ensures Parse(g, Repeat1(item), c.cursor, fuel).Some?
    decreases n, 0
  {
    hide MemoOk, Reaches;
    var start := Step(g, c);
    var k := Defined(g, start, n - 1);
    var e, left := After(g, start, c.frames, Repeat1Frame(item), k, n - 1);
    if e.work.out.Ok? {
      var f := Step(g, Step(g, e));
      var k' := DefinedRepeat(g, f, c.frames, item, e.work.out.value, left - 2);
      fuel := Max(k, k');
      MoreFuel(g, item, c.cursor, k, fuel);
      MoreFuelRepeat(g, item, e.work.out.value, e.cursor, k', fuel);
    } else {
      fuel := k;
    }
  }

  /** The sub-result on top of its frame, with what is left of the run from there. */
  lemma {:induction false} After<R, K, T>(g: Language<R, K, T>, c: Config<R, K, T>, frames: seq<Frame<R, K, T>>,
                                          frame: Frame<R, K, T>, fuel: nat, n: nat)
    returns (e: Config<R, K, T>, left: nat)
    requires g.Ok() && MemoOk(g, c.memo) && c.cursor <= |g.tokens| && c.work.Eval?
    requires c.frames == frames + [frame] && Halted(Run(g, c, n))
    requires Parse(g, c.work.e, c.cursor, fuel).Some?
    ensures e == Config(Ready(Parse(g, c.work.e, c.cursor, fuel).value.out), c.frames,
                        Parse(g, c.work.e, c.cursor, fuel).value.at, e.memo, e.log)
    ensures MemoOk(g, e.memo) && 0 < left <= n && Halted(Run(g, e, left))
    ensures c.frames[|frames|] == frame && c.frames[..|frames|] == frames
    ensures Step(g, e).work.PushAndEval? ==> left >= 2 && Halted(Run(g, Step(g, Step(g, e)), left - 2))
  {
    e := Simulates(g, c, fuel);
    Pop(frames, frame);
    left := Passes(g, c, e, n);
    if Step(g, e).work.PushAndEval? {
      assert Run(g, e, left) == Run(g, Step(g, e), left - 1);
    }
  }

  lemma {:induction false} DefinedRule<R, K, T>(g: Language<R, K, T>, c: Config<R, K, T>, n: nat) returns (fuel: nat)
    requires g.Ok() && MemoOk(g, c.memo) && c.cursor <= |g.tokens| && c.work.Eval? && c.work.e.Rule?
    requires Halted(Run(g, c, n))
    ensures Parse(g, c.work.e, c.cursor, fuel).Some?
    decreases n, 0
  {
    var key := (c.work.e.rule, c.cursor);
    if key in c.memo {
      assert EntryOk(g, key, c.memo[key]);
      fuel :| Parse(g, Rule(key.0), key.1, fuel) == Some(EntryResult(key.1, c.memo[key]));
    } else if key.0 !in g.rules {
      fuel := 0;
    } else {
      var k := Defined(g, Step(g, c), n - 1);
      fuel := k + 1;
    }
  }

  lemma {:induction false} DefinedSeq<R, K, T>(g: Language<R, K, T>, c: Config<R, K, T>, frames: seq<Frame<R, K, T>>,
                                               items: seq<Peg<R, K>>, i: nat, children: seq<Cst<R, T>>, mark: nat, n: nat)
    returns (fuel: nat)
    requires g.Ok() && MemoOk(g, c.memo) && i < |items| && mark <= c.cursor <= |g.tokens|
    requires c.work == Eval(items[i]) && c.frames == frames + [SeqFrame(items, i + 1, children, mark)]
    requires Halted(Run(g, c, n))
    ensures ParseSeq(g, items, i, children, mark, c.cursor, fuel).Some?
    decreases n, 2
  {
    hide MemoOk, Reaches;
    var k := Defined(g, c, n);
    var e, left := After(g, c, frames, SeqFrame(items, i + 1, children, mark), k, n);
    fuel := k;
    if e.work.out.Ok? && i + 1 < |items| {
      var f := Step(g, Step(g, e));
      var k' := DefinedSeq(g, f, frames, items, i + 1, children + e.work.out.value, mark, left - 2);
      fuel := Max(k, k');
      MoreFuel(g, items[i], c.cursor, k, fuel);
      MoreFuelSeq(g, items, i + 1, children + e.work.out.value, mark, e.cursor, k', fuel);
    }
  }

  lemma {:induction false} DefinedChoice<R, K, T>(g: Language<R, K, T>, c: Config<R, K, T>, frames: seq<Frame<R, K, T>>,
                                                  alternatives: seq<Peg<R, K>>, i: nat, failure: Option<Failure>, n: nat)
    returns (fuel: nat)
    requires g.Ok() && MemoOk(g, c.memo) && i < |alternatives| && c.cursor <= |g.tokens|
    requires c.work == Eval(alternatives[i]) && c.frames == frames + [ChoiceFrame(alternatives, i + 1, c.cursor, failure)]
    requires Halted(Run(g, c, n))
    ensures ParseChoice(g, alternatives, i, failure, c.cursor, fuel).Some?
    decreases n, 2
  {
    hide MemoOk, Reaches;
    var k := Defined(g, c, n);
    var e, left := After(g, c, frames, ChoiceFrame(alternatives, i + 1, c.cursor, failure), k, n);
    fuel := k;
    if e.work.out.Err? && !e.work.out.error.committed && i + 1 < |alternatives| {
      var f := Step(g, Step(g, e));
      var merged := Some(MergeFailure(failure, e.work.out.error));
      var k' := DefinedChoice(g, f, frames, alternatives, i + 1, merged, left - 2);
      fuel := Max(k, k');
      MoreFuel(g, alternatives[i], c.cursor, k, fuel);
      MoreFuelChoice(g, alternatives, i + 1, merged, c.cursor, k', fuel);
    }
  }

  lemma {:induction false} DefinedRepeat<R, K, T>(g: Language<R, K, T>, c: Config<R, K, T>, frames: seq<Frame<R, K, T>>,
                                                  item: Peg<R, K>, children: seq<Cst<R, T>>, n: nat)
    returns (fuel: nat)
    requires g.Ok() && MemoOk(g, c.memo) && c.cursor <= |g.tokens|
    requires c.work == Eval(item) && c.frames == frames + [RepeatFrame(item, children, c.cursor, c.cursor)]
    requires Halted(Run(g, c, n))
    ensures ParseRepeat(g, item, children, c.cursor, fuel).Some?
    decreases n, 2
  {
    hide MemoOk, Reaches;
    var k := Defined(g, c, n);
    var e, left := After(g, c, frames, RepeatFrame(item, children, c.cursor, c.cursor), k, n);
    fuel := k;
    if e.work.out.Ok? && e.cursor != c.cursor {
      var f := Step(g, Step(g, e));
      var k' := DefinedRepeat(g, f, frames, item, children + e.work.out.value, left - 2);
      fuel := Max(k, k');
      MoreFuel(g, item, c.cursor, k, fuel);
      MoreFuelRepeat(g, item, children + e.work.out.value, e.cursor, k', fuel);
    }
  }

  ghost function Start<R, K, T>(e: Peg<R, K>, pos: nat, memo: Memo<R, T>): Config<R, K, T> {
    Config(Eval(e), [], pos, memo, [])
  }

  /**
    From a table that agrees with the semantics, the machine halts if and only if the semantics has a
    result, and wherever it halts it has exactly that result.
   */
  lemma {:induction false} HaltsIffDefined<R, K, T>(g: Language<R, K, T>, e: Peg<R, K>, pos: nat, memo: Memo<R, T>)
    requires g.Ok() && MemoOk(g, memo) && pos <= |g.tokens|
    ensures (exists n: nat :: Halted(Run(g, Start(e, pos, memo), n))) <==> (exists fuel: nat :: Parse(g, e, pos, fuel).Some?)
    ensures forall n: nat, fuel: nat :: Halted(Run(g, Start(e, pos, memo), n)) && Parse(g, e, pos, fuel).Some? ==>
              var c, r := Run(g, Start(e, pos, memo), n), Parse(g, e, pos, fuel).value;
              c.work == Ready(r.out) && c.cursor == r.at && MemoOk(g, c.memo)
  {
    var c := Start(e, pos, memo);
    if n: nat :| Halted(Run(g, c, n)) {
      var fuel := Defined(g, c, n);
    }
    forall fuel: nat | Parse(g, e, pos, fuel).Some?
      ensures exists n: nat :: Halted(Run(g, c, n))
      ensures forall n: nat :: Halted(Run(g, c, n)) ==>
                var d, r := Run(g, c, n), Parse(g, e, pos, fuel).value;
                d.work == Ready(r.out) && d.cursor == r.at && MemoOk(g, d.memo)
    {
      var d := Simulates(g, c, fuel);
      var m: nat :| Run(g, c, m) == d;
      assert Halted(Run(g, c, m));
      forall n: nat | Halted(Run(g, c, n)) ensures Run(g, c, n) == d {
        OneHalt(g, c, m, n);
      }
    }
  }

  lemma {:induction false} OneHalt<R, K, T>(g: Language<R, K, T>, c: Config<R, K, T>, m: nat, n: nat)
    requires Halted(Run(g, c, m)) && Halted(Run(g, c, n))
    ensures Run(g, c, m) == Run(g, c, n)
  {
    if m <= n {
      RunPlus(g, c, m, n - m);
      HaltedStays(g, Run(g, c, m), n - m);
    } else {
      RunPlus(g, c, n, m - n);
      HaltedStays(g, Run(g, c, n), m - n);
    }
  }
}

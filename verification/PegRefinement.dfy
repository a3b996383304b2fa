/** The machine computes what the semantics says, and nothing else. */
module PegRefinement {
  import opened Wrappers
  import opened Pegs
  import opened PegSemantics
  import opened PegMachine

  /** The machine gets from `c` to `d`, keeping its table and log in order on the way. */
  ghost predicate Reaches<R, K, T>(g: Language<R, K, T>, c: Config<R, K, T>, d: Config<R, K, T>, fuel: nat)
    requires g.Ok()
  {
    Completes(g, c, d, fuel) && exists n: nat :: Run(g, c, n) == d
  }

  lemma {:induction false} OneStep<R, K, T>(g: Language<R, K, T>, c: Config<R, K, T>, fuel: nat)
    requires g.Ok() && MemoOk(g, c.memo) && Step(g, c).memo == c.memo && Step(g, c).log == c.log
    ensures Reaches(g, c, Step(g, c), fuel)
  {
    CompletesTrivially(g, c, Step(g, c), fuel);
    assert Run(g, c, 1) == Run(g, Step(g, c), 0);
  }

  lemma {:induction false} Then<R, K, T>(g: Language<R, K, T>, c: Config<R, K, T>, d: Config<R, K, T>, e: Config<R, K, T>,
                                         fuel: nat)
    requires g.Ok() && Reaches(g, c, d, fuel) && Reaches(g, d, e, fuel)
    ensures Reaches(g, c, e, fuel)
  {
    CompletesThen(g, c, d, e, fuel);
    var m: nat :| Run(g, c, m) == d;
    var n: nat :| Run(g, d, n) == e;
    RunPlus(g, c, m, n);
  }

  lemma {:induction false} StepThen<R, K, T>(g: Language<R, K, T>, c: Config<R, K, T>, e: Config<R, K, T>, fuel: nat)
    requires g.Ok() && MemoOk(g, c.memo) && Step(g, c).memo == c.memo && Step(g, c).log == c.log
    requires Reaches(g, Step(g, c), e, fuel)
    ensures Reaches(g, c, e, fuel)
  {
    OneStep(g, c, fuel);
    Then(g, c, Step(g, c), e, fuel);
  }

  lemma {:induction false} ThenStep<R, K, T>(g: Language<R, K, T>, c: Config<R, K, T>, d: Config<R, K, T>, fuel: nat)
    requires g.Ok() && Reaches(g, c, d, fuel) && Step(g, d).memo == d.memo && Step(g, d).log == d.log
    ensures Reaches(g, c, Step(g, d), fuel)
  {
    OneStep(g, d, fuel);
    Then(g, c, d, Step(g, d), fuel);
  }

  lemma {:induction false} ReachesKeeps<R, K, T>(g: Language<R, K, T>, c: Config<R, K, T>, d: Config<R, K, T>, fuel: nat)
    requires g.Ok() && Reaches(g, c, d, fuel)
    ensures MemoOk(g, d.memo)
  {
  }

  lemma {:induction false} Pop<F>(frames: seq<F>, frame: F)
    ensures (frames + [frame])[|frames|] == frame && (frames + [frame])[..|frames|] == frames
  {
  }

  /** Ready with the result, the frames back to `frames`. */
  ghost predicate Finishes<R, K, T>(g: Language<R, K, T>, c: Config<R, K, T>, d: Config<R, K, T>,
                                    frames: seq<Frame<R, K, T>>, r: Res<R, T>, fuel: nat)
    requires g.Ok()
  {
    d == Config(Ready(r.out), frames, r.at, d.memo, d.log) && Reaches(g, c, d, fuel)
  }

  /**
    If the semantics gives a result for an expression at the cursor, then the machine, on any stack and
    with any table that agrees with the semantics, gets ready with that result, the stack untouched,
    the cursor where the semantics leaves it and the table still in agreement.
   */
  lemma {:induction false} Simulates<R, K, T>(g: Language<R, K, T>, c: Config<R, K, T>, fuel: nat)
    returns (d: Config<R, K, T>)
    requires g.Ok() && MemoOk(g, c.memo) && c.cursor <= |g.tokens| && c.work.Eval?
    requires Parse(g, c.work.e, c.cursor, fuel).Some?
    ensures Finishes(g, c, d, c.frames, Parse(g, c.work.e, c.cursor, fuel).value, fuel)
    decreases fuel, c.work.e, 1
  {
    hide Reaches, MemoOk;
    var start := Step(g, c);
    match c.work.e
    case Token(_) =>
      OneStep(g, c, fuel);
      d := start;
    case Rule(_) =>
      d := SimulatesRule(g, c, fuel);
    case Seq(items) =>
      if items == [] {
        OneStep(g, c, fuel);
        d := start;
      } else {
        d := SimulatesSeq(g, start, c.frames, items, 0, [], c.cursor, fuel);
        StepThen(g, c, d, fuel);
      }
    case Choice(alternatives) =>
      if alternatives == [] {
        OneStep(g, c, fuel);
        d := start;
      } else {
        d := SimulatesChoice(g, start, c.frames, alternatives, 0, None, fuel);
        StepThen(g, c, d, fuel);
      }
    case Repeat(item) =>
      d := SimulatesRepeat(g, start, c.frames, item, [], fuel);
      StepThen(g, c, d, fuel);
    case Repeat1(item) =>
      d := SimulatesRepeat1(g, c, fuel);
    case _ =>
      d := SimulatesWrapped(g, c, fuel);
  }

  /** Expressions that wrap one other: optional, lookahead, label and cut. */
  lemma {:induction false} SimulatesWrapped<R, K, T>(g: Language<R, K, T>, c: Config<R, K, T>, fuel: nat)
    returns (d: Config<R, K, T>)
    requires g.Ok() && MemoOk(g, c.memo) && c.cursor <= |g.tokens| && c.work.Eval?
    requires c.work.e.Optional? || c.work.e.And? || c.work.e.Not? || c.work.e.Label? || c.work.e.Cut?
    requires Parse(g, c.work.e, c.cursor, fuel).Some?
    ensures Finishes(g, c, d, c.frames, Parse(g, c.work.e, c.cursor, fuel).value, fuel)
    decreases fuel, c.work.e, 0
  {
    hide Reaches, MemoOk;
    var start := Step(g, c);
    var e := Simulates(g, start, fuel);
    StepThen(g, c, e, fuel);
    ReachesKeeps(g, c, e, fuel);
    Pop(c.frames, start.frames[|c.frames|]);
    ThenStep(g, c, e, fuel);
    d := Step(g, e);
  }

  lemma {:induction false} SimulatesRepeat1<R, K, T>(g: Language<R, K, T>, c: Config<R, K, T>, fuel: nat)
    returns (d: Config<R, K, T>)
    requires g.Ok() && MemoOk(g, c.memo) && c.cursor <= |g.tokens| && c.work.Eval? && c.work.e.Repeat1?
    requires Parse(g, c.work.e, c.cursor, fuel).Some?
    ensures Finishes(g, c, d, c.frames, Parse(g, c.work.e, c.cursor, fuel).value, fuel)
    decreases fuel, c.work.e, 0
  {
    hide Reaches, MemoOk;
    var start, item := Step(g, c), c.work.e.item;
    var e := Simulates(g, start, fuel);
    StepThen(g, c, e, fuel);
    ReachesKeeps(g, c, e, fuel);
    Pop(c.frames, start.frames[|c.frames|]);
    ThenStep(g, c, e, fuel);
    d := Step(g, e);
    if e.work.out.Ok? {
      ThenStep(g, c, d, fuel);
      var f := Step(g, d);
      d := SimulatesRepeat(g, f, c.frames, item, e.work.out.value, fuel);
      Then(g, c, f, d, fuel);
    }
  }

  lemma {:induction false} SimulatesSeq<R, K, T>(g: Language<R, K, T>, c: Config<R, K, T>, frames: seq<Frame<R, K, T>>,
                                                 items: seq<Peg<R, K>>, i: nat, children: seq<Cst<R, T>>, mark: nat, fuel: nat)
    returns (d: Config<R, K, T>)
    requires g.Ok() && MemoOk(g, c.memo) && i < |items| && mark <= c.cursor <= |g.tokens|
    requires c.work == Eval(items[i]) && c.frames == frames + [SeqFrame(items, i + 1, children, mark)]
    requires ParseSeq(g, items, i, children, mark, c.cursor, fuel).Some?
    ensures Finishes(g, c, d, frames, ParseSeq(g, items, i, children, mark, c.cursor, fuel).value, fuel)
    decreases fuel, items, |items| - i
  {
    hide Reaches, MemoOk;
    var e := Simulates(g, c, fuel);
    ReachesKeeps(g, c, e, fuel);
    Pop(frames, SeqFrame(items, i + 1, children, mark));
    ThenStep(g, c, e, fuel);
    d := Step(g, e);
    if e.work.out.Ok? && i + 1 < |items| {
      ThenStep(g, c, d, fuel);
      var f := Step(g, d);
      d := SimulatesSeq(g, f, frames, items, i + 1, children + e.work.out.value, mark, fuel);
      Then(g, c, f, d, fuel);
    }
  }

  lemma {:induction false} SimulatesChoice<R, K, T>(g: Language<R, K, T>, c: Config<R, K, T>, frames: seq<Frame<R, K, T>>,
                                                    alternatives: seq<Peg<R, K>>, i: nat, failure: Option<Failure>, fuel: nat)
    returns (d: Config<R, K, T>)
    requires g.Ok() && MemoOk(g, c.memo) && i < |alternatives| && c.cursor <= |g.tokens|
    requires c.work == Eval(alternatives[i]) && c.frames == frames + [ChoiceFrame(alternatives, i + 1, c.cursor, failure)]
    requires ParseChoice(g, alternatives, i, failure, c.cursor, fuel).Some?
    ensures Finishes(g, c, d, frames, ParseChoice(g, alternatives, i, failure, c.cursor, fuel).value, fuel)
    decreases fuel, alternatives, |alternatives| - i
  {
    hide Reaches, MemoOk;
    var e := Simulates(g, c, fuel);
    ReachesKeeps(g, c, e, fuel);
    Pop(frames, ChoiceFrame(alternatives, i + 1, c.cursor, failure));
    ThenStep(g, c, e, fuel);
    d := Step(g, e);
    if e.work.out.Err? && !e.work.out.error.committed && i + 1 < |alternatives| {
      ThenStep(g, c, d, fuel);
      var f := Step(g, d);
      d := SimulatesChoice(g, f, frames, alternatives, i + 1, Some(MergeFailure(failure, e.work.out.error)), fuel);
      Then(g, c, f, d, fuel);
    }
  }

  lemma {:induction false} SimulatesRepeat<R, K, T>(g: Language<R, K, T>, c: Config<R, K, T>, frames: seq<Frame<R, K, T>>,
                                                    item: Peg<R, K>, children: seq<Cst<R, T>>, fuel: nat)
    returns (d: Config<R, K, T>)
    requires g.Ok() && MemoOk(g, c.memo) && c.cursor <= |g.tokens|
    requires c.work == Eval(item) && c.frames == frames + [RepeatFrame(item, children, c.cursor, c.cursor)]
    requires ParseRepeat(g, item, children, c.cursor, fuel).Some?
    ensures Finishes(g, c, d, frames, ParseRepeat(g, item, children, c.cursor, fuel).value, fuel)
    decreases fuel, item, 2 + |g.tokens| - c.cursor
  {
    hide Reaches, MemoOk;
    var e := Simulates(g, c, fuel);
    ReachesKeeps(g, c, e, fuel);
    Pop(frames, RepeatFrame(item, children, c.cursor, c.cursor));
    ThenStep(g, c, e, fuel);
    d := Step(g, e);
    if e.work.out.Ok? && e.cursor != c.cursor {
      ThenStep(g, c, d, fuel);
      var f := Step(g, d);
      d := SimulatesRepeat(g, f, frames, item, children + e.work.out.value, fuel);
      Then(g, c, f, d, fuel);
    }
  }

  // ---- rules: the table and the log ---------------------------------------------------------------------

  lemma {:induction false} SimulatesRule<R, K, T>(g: Language<R, K, T>, c: Config<R, K, T>, fuel: nat)
    returns (d: Config<R, K, T>)
    requires g.Ok() && MemoOk(g, c.memo) && c.cursor <= |g.tokens| && c.work.Eval? && c.work.e.Rule?
    requires Parse(g, c.work.e, c.cursor, fuel).Some?
    ensures Finishes(g, c, d, c.frames, Parse(g, c.work.e, c.cursor, fuel).value, fuel)
    decreases fuel, c.work.e, 0
  {
    var rule, key := c.work.e.rule, (c.work.e.rule, c.cursor);
    if key in c.memo {
      FromTable(g, c, fuel);
      d := Step(g, c);
    } else if rule !in g.rules {
      UnknownRule(g, c, fuel);
      d := Step(g, c);
    } else {
      hide Reaches, MemoOk;
      var least := LeastFuel(g, c.work.e, c.cursor, fuel);
      var start := Step(g, c);
      var e := Simulates(g, start, least - 1);
      Pop(c.frames, RuleFrame(rule, c.cursor, c.cursor));
      d := Step(g, e);
      RuleSettled(g, c, start, e, fuel, least);
    }
  }

  lemma {:induction false} FromTable<R, K, T>(g: Language<R, K, T>, c: Config<R, K, T>, fuel: nat)
    requires g.Ok() && MemoOk(g, c.memo) && c.cursor <= |g.tokens| && c.work.Eval? && c.work.e.Rule?
    requires Parse(g, c.work.e, c.cursor, fuel).Some? && (c.work.e.rule, c.cursor) in c.memo
    ensures Finishes(g, c, Step(g, c), c.frames, Parse(g, c.work.e, c.cursor, fuel).value, fuel)
  {
    var key := (c.work.e.rule, c.cursor);
    assert EntryOk(g, key, c.memo[key]);
    var fuel' :| Parse(g, Rule(key.0), key.1, fuel') == Some(EntryResult(key.1, c.memo[key]));
    SameResult(g, c.work.e, c.cursor, fuel, fuel');
    OneStep(g, c, fuel);
  }

  lemma {:induction false} UnknownRule<R, K, T>(g: Language<R, K, T>, c: Config<R, K, T>, fuel: nat)
    requires g.Ok() && MemoOk(g, c.memo) && c.cursor <= |g.tokens| && c.work.Eval? && c.work.e.Rule?
    requires c.work.e.rule !in g.rules && (c.work.e.rule, c.cursor) !in c.memo
    ensures Finishes(g, c, Step(g, c), c.frames, Parse(g, c.work.e, c.cursor, fuel).value, fuel)
  {
    var key, d := (c.work.e.rule, c.cursor), Step(g, c);
    assert Run(g, c, 1) == Run(g, d, 0);
    assert Parse(g, Rule(key.0), key.1, fuel) == Some(EntryResult(key.1, d.memo[key]));
    assert EntryOk(g, key, d.memo[key]);
    assert MemoOk(g, d.memo);
  }

  /** Once the body is done the rule's entry is new, right, and pushed for once. */
  lemma {:induction false} RuleSettled<R, K, T>(g: Language<R, K, T>, c: Config<R, K, T>, start: Config<R, K, T>,
                                                e: Config<R, K, T>, fuel: nat, least: nat)
    requires g.Ok() && MemoOk(g, c.memo) && c.cursor <= |g.tokens| && c.work.Eval? && c.work.e.Rule?
    requires c.work.e.rule in g.rules && (c.work.e.rule, c.cursor) !in c.memo && start == Step(g, c)
    requires 0 < least <= fuel && Parse(g, c.work.e, c.cursor, least) == Parse(g, c.work.e, c.cursor, fuel)
    requires Parse(g, c.work.e, c.cursor, least).Some? && Parse(g, c.work.e, c.cursor, least - 1).None?
    requires Finishes(g, start, e, start.frames, Parse(g, g.rules[c.work.e.rule], c.cursor, least - 1).value, least - 1)
    ensures Finishes(g, c, Step(g, e), c.frames, Parse(g, c.work.e, c.cursor, fuel).value, fuel)
  {
    var rule, key, d := c.work.e.rule, (c.work.e.rule, c.cursor), Step(g, e);
    Pop(c.frames, RuleFrame(rule, c.cursor, c.cursor));
    assert key !in e.memo;
    var entry := d.memo[key];
    assert d.memo == e.memo[key := entry] && Parse(g, Rule(rule), c.cursor, least) == Some(EntryResult(c.cursor, entry));
    assert start.memo == c.memo && start.log == c.log + [key] && d.log == e.log && d.frames == c.frames;
    hide Parse, Step, StepEval, Settled, PushedOnce, MemoOk, EntryOk;
    AroundRun(g, c, start, e);
    EntryAdded(g, key, entry, c.memo, e.memo, least, fuel);
    OncePushed(g, c, start, e, d, key);
  }

  /** One step before a run and one behind it. */
  lemma {:induction false} AroundRun<R, K, T>(g: Language<R, K, T>, c: Config<R, K, T>, start: Config<R, K, T>, e: Config<R, K, T>)
    requires start == Step(g, c) && exists n: nat :: Run(g, start, n) == e
    ensures exists n: nat :: Run(g, c, n) == Step(g, e)
  {
    hide Step;
    var n: nat :| Run(g, start, n) == e;
    RunPlus(g, start, n, 1);
    assert Run(g, e, 1) == Run(g, Step(g, e), 0);
    assert Run(g, c, n + 2) == Run(g, start, n + 1);
  }

  /** The table with one more entry, which is right. */
  lemma {:induction false} EntryAdded<R, K, T>(g: Language<R, K, T>, key: Key<R>, entry: MemoEntry<R, T>, before: Memo<R, T>,
                                               memo: Memo<R, T>, least: nat, fuel: nat)
    requires g.Ok() && MemoOk(g, memo) && key.1 <= |g.tokens| && key !in memo && 0 < least <= fuel
    requires Parse(g, Rule(key.0), key.1, least) == Some(EntryResult(key.1, entry)) && Settled(g, before, memo, least - 1)
    ensures MemoOk(g, memo[key := entry]) && Settled(g, before, memo[key := entry], fuel)
  {
    hide Parse;
    var memo' := memo[key := entry];
    forall k | k in memo' && k !in before ensures k.1 <= |g.tokens| && Parse(g, Rule(k.0), k.1, fuel).Some? {
      MoreFuel(g, Rule(k.0), k.1, if k == key then least else least - 1, fuel);
    }
    assert EntryOk(g, key, entry);
    forall k | k in memo' ensures EntryOk(g, k, memo'[k]) {}
  }

  lemma {:induction false} OncePushed<R, K, T>(g: Language<R, K, T>, c: Config<R, K, T>, start: Config<R, K, T>,
                                               e: Config<R, K, T>, d: Config<R, K, T>, key: Key<R>)
    requires start.memo == c.memo && start.log == c.log + [key] && key !in c.memo && key !in e.memo
    requires key.0 in g.rules && key.1 <= |g.tokens|
    requires |start.log| <= |e.log| && e.log[..|start.log|] == start.log
    requires PushedOnce(g, start.memo, e.memo, e.log[|start.log|..])
    requires d.log == e.log && d.memo.Keys == e.memo.Keys + {key}
    ensures |c.log| <= |d.log| && d.log[..|c.log|] == c.log && PushedOnce(g, c.memo, d.memo, d.log[|c.log|..])
  {
    var p, q := e.log[|start.log|..], d.log[|c.log|..];
    assert q == [key] + p by {
      assert e.log[|c.log|] == start.log[|c.log|] == key;
    }
    assert d.log[..|c.log|] == start.log[..|c.log|];
  }
}

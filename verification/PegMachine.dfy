/**
  The packrat interpreter as a machine: work to do, a stack of frames, a cursor and a memo table
  (rex-parser/src/grammar.rs:440-844). The log of rule frames pushed is a history variable.
 */
module PegMachine {
  import opened Wrappers
  import opened Pegs
  import opened PegSemantics

  datatype Frame<R, K, T> =
    | RuleFrame(rule: R, start: nat, mark: nat)
    | SeqFrame(items: seq<Peg<R, K>>, next: nat, children: seq<Cst<R, T>>, mark: nat)
    | ChoiceFrame(alternatives: seq<Peg<R, K>>, next: nat, mark: nat, failure: Option<Failure>)
    | OptionalFrame(mark: nat)
    | RepeatFrame(item: Peg<R, K>, children: seq<Cst<R, T>>, start: nat, mark: nat)
    | Repeat1Frame(item: Peg<R, K>)
    | AndFrame(mark: nat)
    | NotFrame(mark: nat)
    | LabelFrame(message: string)
    | CutFrame

  datatype Work<R, K, T> =
    | Eval(e: Peg<R, K>)
    | Ready(out: Output<R, T>)
    | PushAndEval(frame: Frame<R, K, T>, e: Peg<R, K>)

  datatype MemoEntry<R, T> = Parsed(node: Cst<R, T>, next: nat) | Failed(failure: Failure)

  type Key<R> = (R, nat)

  type Memo<R(==), T> = map<Key<R>, MemoEntry<R, T>>

  datatype Config<R(==), K, T> = Config(
    work: Work<R, K, T>,
    frames: seq<Frame<R, K, T>>,
    cursor: nat,
    memo: Memo<R, T>,
    log: seq<Key<R>>)

  /** Looking at an expression for the first time. */
  function StepEval<R, K, T>(g: Language<R, K, T>, c: Config<R, K, T>): Config<R, K, T>
    requires c.work.Eval?
  {
    match c.work.e
    case Token(kind) =>
      var token := g.TokenAt(c.cursor);
      if g.matches(kind, token) then
        c.(work := Ready(Ok([Leaf(token)])), cursor := if g.isEof(token) then c.cursor else c.cursor + 1)
      else c.(work := Ready(Err(g.Fail(c.cursor, g.describe(kind)))))
    case Rule(rule) =>
      var key := (rule, c.cursor);
      if key in c.memo then
        match c.memo[key] {
          case Parsed(node, next) => c.(work := Ready(Ok([node])), cursor := next)
          case Failed(failure) => c.(work := Ready(Err(failure)))
        }
      else if rule !in g.rules then
        var failure := g.Fail(c.cursor, "grammar rule");
        c.(work := Ready(Err(failure)), memo := c.memo[key := Failed(failure)])
      else
        c.(work := Eval(g.rules[rule]), frames := c.frames + [RuleFrame(rule, c.cursor, c.cursor)], log := c.log + [key])
    case Seq(items) =>
      if items == [] then c.(work := Ready(Ok([])))
      else c.(work := Eval(items[0]), frames := c.frames + [SeqFrame(items, 1, [], c.cursor)])
    case Choice(alternatives) =>
      if alternatives == [] then c.(work := Ready(Err(g.Fail(c.cursor, "alternative"))))
      else c.(work := Eval(alternatives[0]), frames := c.frames + [ChoiceFrame(alternatives, 1, c.cursor, None)])
    case Optional(item) => c.(work := Eval(item), frames := c.frames + [OptionalFrame(c.cursor)])
    case Repeat(item) => c.(work := Eval(item), frames := c.frames + [RepeatFrame(item, [], c.cursor, c.cursor)])
    case Repeat1(item) => c.(work := Eval(item), frames := c.frames + [Repeat1Frame(item)])
    case And(item) => c.(work := Eval(item), frames := c.frames + [AndFrame(c.cursor)])
    case Not(item) => c.(work := Eval(item), frames := c.frames + [NotFrame(c.cursor)])
    case Label(message, item) => c.(work := Eval(item), frames := c.frames + [LabelFrame(message)])
    case Cut(item) => c.(work := Eval(item), frames := c.frames + [CutFrame])
  }

  /** Handing a result to the innermost frame, which `c` has already popped. */
  function ApplyFrame<R, K, T>(g: Language<R, K, T>, frame: Frame<R, K, T>, out: Output<R, T>, c: Config<R, K, T>)
    : Config<R, K, T>
  {
    match frame
    case RuleFrame(rule, start, mark) => (
      match out
      case Ok(children) =>
        var node := Node(rule, g.SpanBetween(start, c.cursor), children);
        c.(work := Ready(Ok([node])), memo := c.memo[(rule, start) := Parsed(node, c.cursor)])
      case Err(failure) =>
        c.(work := Ready(Err(failure)), cursor := mark, memo := c.memo[(rule, start) := Failed(failure)]))
    case SeqFrame(items, next, children, mark) => (
      match out
      case Ok(more) =>
        if next < |items| then c.(work := PushAndEval(SeqFrame(items, next + 1, children + more, mark), items[next]))
        else c.(work := Ready(Ok(children + more)))
      case Err(failure) => c.(work := Ready(Err(failure)), cursor := mark))
    case ChoiceFrame(alternatives, next, mark, failure) => (
      match out
      case Ok(_) => c.(work := Ready(out))
      case Err(err) =>
        if err.committed then c.(work := Ready(out))
        else
          var merged := MergeFailure(failure, err);
          if next < |alternatives| then
            c.(work := PushAndEval(ChoiceFrame(alternatives, next + 1, mark, Some(merged)), alternatives[next]), cursor := mark)
          else c.(work := Ready(Err(merged)), cursor := mark))
    case OptionalFrame(mark) =>
      if out.Err? && !out.error.committed then c.(work := Ready(Ok([])), cursor := mark) else c.(work := Ready(out))
    case RepeatFrame(item, children, start, mark) => (
      match out
      case Ok(more) =>
        if c.cursor != start then
          c.(work := PushAndEval(RepeatFrame(item, children + more, c.cursor, c.cursor), item))
        else c.(work := Ready(Ok(children + more)))
      case Err(err) =>
        if err.committed then c.(work := Ready(out)) else c.(work := Ready(Ok(children)), cursor := mark))
    case Repeat1Frame(item) =>
      if out.Ok? then c.(work := PushAndEval(RepeatFrame(item, out.value, c.cursor, c.cursor), item))
      else c.(work := Ready(out))
    case AndFrame(mark) =>
      c.(work := Ready(if out.Ok? then Ok([]) else Err(g.Fail(mark, "lookahead"))), cursor := mark)
    case NotFrame(mark) =>
      c.(work := Ready(if out.Ok? then Err(g.Fail(mark, "negative lookahead")) else Ok([])), cursor := mark)
    case LabelFrame(message) => c.(work := Ready(if out.Err? then Err(Labeled(out.error, message)) else out))
    case CutFrame => c.(work := Ready(if out.Err? then Err(MarkCommitted(out.error)) else out))
  }

  predicate Halted<R, K, T>(c: Config<R, K, T>) {
    c.work.Ready? && c.frames == []
  }

  /** One turn of the loop; a halted machine stays as it is. */
  function Step<R, K, T>(g: Language<R, K, T>, c: Config<R, K, T>): Config<R, K, T> {
    match c.work
    case PushAndEval(frame, e) => c.(work := Eval(e), frames := c.frames + [frame])
    case Eval(_) => StepEval(g, c)
    case Ready(out) =>
      if c.frames == [] then c
      else
        var n := |c.frames| - 1;
        ApplyFrame(g, c.frames[n], out, c.(frames := c.frames[..n]))
  }

  function Run<R, K, T>(g: Language<R, K, T>, c: Config<R, K, T>, n: nat): Config<R, K, T>
    decreases n
  {
    if n == 0 then c else Run(g, Step(g, c), n - 1)
  }

  lemma {:induction false} RunPlus<R, K, T>(g: Language<R, K, T>, c: Config<R, K, T>, m: nat, n: nat)
    ensures Run(g, c, m + n) == Run(g, Run(g, c, m), n)
    decreases m
  {
    hide Step;
    if m > 0 { RunPlus(g, Step(g, c), m - 1, n); }
  }

  lemma {:induction false} HaltedStays<R, K, T>(g: Language<R, K, T>, c: Config<R, K, T>, n: nat)
    requires Halted(c)
    ensures Run(g, c, n) == c
    decreases n
  {
    if n > 0 { HaltedStays(g, c, n - 1); }
  }

  // ---- a committed failure ----------------------------------------------------------------------------

  predicate CommittedFailure<R, K, T>(work: Work<R, K, T>) {
    work.Ready? && work.out.Err? && work.out.error.committed
  }

  predicate IsLookahead<R, K, T>(frame: Frame<R, K, T>) { frame.AndFrame? || frame.NotFrame? }

  /** The rules of the frames are entered in the table as having failed for good. */
  predicate RulesFailed<R, K, T>(frames: seq<Frame<R, K, T>>, memo: Memo<R, T>) {
    forall i :: 0 <= i < |frames| && frames[i].RuleFrame? ==>
      var key := (frames[i].rule, frames[i].start);
      key in memo && memo[key].Failed? && memo[key].failure.committed
  }

  lemma {:induction false} CommittedStep<R, K, T>(g: Language<R, K, T>, c: Config<R, K, T>)
    requires CommittedFailure(c.work) && c.frames != [] && !IsLookahead(c.frames[|c.frames| - 1])
    ensures var d, frame := Step(g, c), c.frames[|c.frames| - 1];
            && CommittedFailure(d.work) && d.frames == c.frames[..|c.frames| - 1] && d.log == c.log
            && c.memo.Keys <= d.memo.Keys
            && (forall key :: key in c.memo && d.memo[key] != c.memo[key] ==> d.memo[key].Failed? && d.memo[key].failure.committed)
            && (frame.RuleFrame? ==> var key := (frame.rule, frame.start);
                  key in d.memo && d.memo[key].Failed? && d.memo[key].failure.committed)
  {
  }

  /**
    A committed failure takes down one frame a step until a lookahead stops it: no alternative, repetition
    or rule is entered on the way, and every rule it leaves is recorded as having failed for good.
   */
  lemma {:induction false} CommittedUnwinds<R, K, T>(g: Language<R, K, T>, c: Config<R, K, T>,
                                                     below: seq<Frame<R, K, T>>, above: seq<Frame<R, K, T>>)
    requires CommittedFailure(c.work) && c.frames == below + above
    requires forall i :: 0 <= i < |above| ==> !IsLookahead(above[i])
    ensures var d := Run(g, c, |above|);
            CommittedFailure(d.work) && d.frames == below && d.log == c.log && RulesFailed(above, d.memo)
            && c.memo.Keys <= d.memo.Keys
            && forall key :: key in c.memo && c.memo[key].Failed? && c.memo[key].failure.committed ==>
                 d.memo[key].Failed? && d.memo[key].failure.committed
    decreases |above|
  {
    if above == [] {
      assert below + above == below;
    } else {
      var n := |above| - 1;
      assert c.frames[|c.frames| - 1] == above[n] && c.frames[..|c.frames| - 1] == below + above[..n];
      CommittedStep(g, c);
      hide Step, CommittedFailure;
      CommittedUnwinds(g, Step(g, c), below, above[..n]);
    }
  }

  /** Without a lookahead around it, it ends the run. */
  lemma {:induction false} CommittedHalts<R, K, T>(g: Language<R, K, T>, c: Config<R, K, T>)
    requires CommittedFailure(c.work) && forall i :: 0 <= i < |c.frames| ==> !IsLookahead(c.frames[i])
    ensures var d := Run(g, c, |c.frames|); Halted(d) && CommittedFailure(d.work) && d.log == c.log
  {
    assert [] + c.frames == c.frames;
    CommittedUnwinds(g, c, [], c.frames);
  }

  /** A lookahead ends the commitment. */
  lemma {:induction false} LookaheadStops<R, K, T>(g: Language<R, K, T>, c: Config<R, K, T>)
    requires c.work.Ready? && c.frames != [] && IsLookahead(c.frames[|c.frames| - 1])
    ensures Step(g, c).work.Ready? && !CommittedFailure(Step(g, c).work) && |Step(g, c).frames| == |c.frames| - 1
  {
  }

  // ---- the memo table ---------------------------------------------------------------------------------

  /** What the table says about a rule at a position is what the semantics says, for some fuel. */
  ghost predicate EntryOk<R, K, T>(g: Language<R, K, T>, key: Key<R>, entry: MemoEntry<R, T>)
    requires g.Ok()
  {
    && key.1 <= |g.tokens|
    && exists fuel: nat :: Parse(g, Rule(key.0), key.1, fuel) == Some(EntryResult(key.1, entry))
  }

  ghost function EntryResult<R, T>(pos: nat, entry: MemoEntry<R, T>): Res<R, T> {
    match entry
    case Parsed(node, next) => Res(Ok([node]), next)
    case Failed(failure) => Res(Err(failure), pos)
  }

  ghost predicate MemoOk<R, K, T>(g: Language<R, K, T>, memo: Memo<R, T>)
    requires g.Ok()
  {
    forall key :: key in memo ==> EntryOk(g, key, memo[key])
  }

  /** Every key the run added to the table could be settled with `fuel`. */
  ghost predicate Settled<R, K, T>(g: Language<R, K, T>, memo: Memo<R, T>, memo': Memo<R, T>, fuel: nat)
    requires g.Ok()
  {
    && memo.Keys <= memo'.Keys
    && forall key :: key in memo' && key !in memo ==> key.1 <= |g.tokens| && Parse(g, Rule(key.0), key.1, fuel).Some?
  }

  /** The rules pushed: no key twice, none that was known before, all known afterwards. */
  ghost predicate PushedOnce<R, K, T>(g: Language<R, K, T>, memo: Memo<R, T>, memo': Memo<R, T>, pushed: seq<Key<R>>) {
    && (forall i, j :: 0 <= i < j < |pushed| ==> pushed[i] != pushed[j])
    && (forall i :: 0 <= i < |pushed| ==>
          pushed[i] !in memo && pushed[i] in memo' && pushed[i].0 in g.rules && pushed[i].1 <= |g.tokens|)
  }

  /** The run from `c` to `d` does a piece of work properly: table, log and all. */
  ghost predicate Completes<R, K, T>(g: Language<R, K, T>, c: Config<R, K, T>, d: Config<R, K, T>, fuel: nat)
    requires g.Ok()
  {
    && MemoOk(g, d.memo) && Settled(g, c.memo, d.memo, fuel)
    && |c.log| <= |d.log| && d.log[..|c.log|] == c.log && PushedOnce(g, c.memo, d.memo, d.log[|c.log|..])
  }

  lemma {:induction false} CompletesTrivially<R, K, T>(g: Language<R, K, T>, c: Config<R, K, T>, d: Config<R, K, T>, fuel: nat)
    requires g.Ok() && MemoOk(g, c.memo) && d.memo == c.memo && d.log == c.log
    ensures Completes(g, c, d, fuel)
  {
  }

  lemma {:induction false} PushedThen<R, K, T>(g: Language<R, K, T>, a: Memo<R, T>, b: Memo<R, T>, c: Memo<R, T>,
                                               p: seq<Key<R>>, q: seq<Key<R>>)
    requires PushedOnce(g, a, b, p) && PushedOnce(g, b, c, q) && a.Keys <= b.Keys <= c.Keys
    ensures PushedOnce(g, a, c, p + q)
  {
    var r := p + q;
    forall i, j | 0 <= i < j < |r| ensures r[i] != r[j] {
      if i < |p| <= j { assert r[i] in b && r[j] !in b; }
    }
  }

  lemma {:induction false} CompletesThen<R, K, T>(g: Language<R, K, T>, c: Config<R, K, T>, d: Config<R, K, T>,
                                                  e: Config<R, K, T>, fuel: nat)
    requires g.Ok() && Completes(g, c, d, fuel) && Completes(g, d, e, fuel)
    ensures Completes(g, c, e, fuel)
  {
    var p, q := d.log[|c.log|..], e.log[|d.log|..];
    assert e.log[|c.log|..] == p + q && e.log[..|c.log|] == d.log[..|c.log|];
    hide MemoOk, PushedOnce;
    PushedThen(g, c.memo, d.memo, e.memo, p, q);
  }
}

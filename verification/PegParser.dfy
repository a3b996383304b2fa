/** The parser as the source writes it: an engine with a cursor, a memo table and one loop. */
module PegParser {
  import opened Wrappers
  import opened Pegs
  import opened PegSemantics
  import opened PegMachine
  import opened PegRefinement

  /** Token-agnostic cursor operations (rex-parser/src/peg.rs:130-241). */
  class Engine<!T> {
    const tokens: seq<T>
    const eof: T
    const isEof: T -> bool
    const span: T -> Span
    var cursor: nat

    constructor (tokens: seq<T>, eof: T, isEof: T -> bool, span: T -> Span)
      ensures this.tokens == tokens && this.eof == eof && this.isEof == isEof && this.span == span && cursor == 0
    {
      this.tokens, this.eof, this.isEof, this.span := tokens, eof, isEof, span;
      cursor := 0;
    }

    function SpanAt(pos: nat): Span {
      if pos < |tokens| then span(tokens[pos]) else span(eof)
    }

    function CurrentToken(): T
      reads this
    {
      if cursor < |tokens| then tokens[cursor] else eof
    }

    method Restore(mark: nat)
      modifies this
      ensures cursor == mark
    {
      cursor := mark;
    }

    method Fail(expected: string) returns (failure: Failure)
      ensures failure == Failure(cursor, SpanAt(cursor), {expected}, false)
    {
      failure := Failure(cursor, SpanAt(cursor), {expected}, false);
    }

    /** Consumes the current token if it satisfies the predicate; the end of input is never passed. */
    method Expect(expected: string, accepts: T -> bool) returns (r: Result<T, Failure>)
      modifies this
      ensures accepts(old(CurrentToken())) ==>
                r == Ok(old(CurrentToken())) && cursor == old(cursor) + (if isEof(old(CurrentToken())) then 0 else 1)
      ensures !accepts(old(CurrentToken())) ==>
                r == Err(Failure(cursor, SpanAt(cursor), {expected}, false)) && cursor == old(cursor)
    {
      var token := CurrentToken();
      if accepts(token) {
        if !isEof(token) {
          cursor := cursor + 1;
        }
        r := Ok(token);
      } else {
        var failure := Fail(expected);
        r := Err(failure);
      }
    }
  }

  class GrammarParser<!R(==), !K, !T> {
    const g: Language<R, K, T>
    const engine: Engine<T>
    var memo: Memo<R, T>
    ghost var log: seq<Key<R>>

    ghost predicate Valid()
      reads this, engine
    {
      && g.Ok() && MemoOk(g, memo) && engine.cursor <= |g.tokens|
      && Matches()
    }

    /** The engine reads the tokens the language is about. */
    ghost predicate Matches() {
      g.tokens == engine.tokens && g.eof == engine.eof && g.isEof == engine.isEof && g.span == engine.span
    }

    constructor (g: Language<R, K, T>, engine: Engine<T>)
      requires g.Ok() && engine.cursor <= |g.tokens|
      requires g.tokens == engine.tokens && g.eof == engine.eof && g.isEof == engine.isEof && g.span == engine.span
      ensures Valid() && this.g == g && this.engine == engine && memo == map[]
    {
      this.g, this.engine, memo, log := g, engine, map[], [];
    }

    /** The machine configuration the loop is in. */
    ghost function Now(work: Work<R, K, T>, frames: seq<Frame<R, K, T>>): Config<R, K, T>
      reads this, engine
    {
      Config(work, frames, engine.cursor, memo, log)
    }

    /** The `Eval` arm of the loop. */
    method Evaluate(e: Peg<R, K>, frames: seq<Frame<R, K, T>>) returns (work: Work<R, K, T>, frames': seq<Frame<R, K, T>>)
      requires Matches()
      modifies this, engine
      ensures Now(work, frames') == StepEval(g, old(Now(Eval(e), frames)))
    {
      frames' := frames;
      match e
      case Token(kind) =>
        var r := engine.Expect(g.describe(kind), token => g.matches(kind, token));
        work := Ready(if r.Ok? then Ok([Leaf(r.value)]) else Err(r.error));
      case Rule(rule) =>
        var start := engine.cursor;
        if (rule, start) in memo {
          match memo[(rule, start)]
          case Parsed(node, next) =>
            engine.Restore(next);
            work := Ready(Ok([node]));
          case Failed(failure) =>
            engine.Restore(start);
            work := Ready(Err(failure));
        } else if rule !in g.rules {
          var failure := engine.Fail("grammar rule");
          memo := memo[(rule, start) := Failed(failure)];
          work := Ready(Err(failure));
        } else {
          frames' := frames + [RuleFrame(rule, start, start)];
          log := log + [(rule, start)];
          work := Eval(g.rules[rule]);
        }
      case Seq(items) =>
        if items == [] {
          work := Ready(Ok([]));
        } else {
          frames' := frames + [SeqFrame(items, 1, [], engine.cursor)];
          work := Eval(items[0]);
        }
      case Choice(alternatives) =>
        if alternatives == [] {
          var failure := engine.Fail("alternative");
          work := Ready(Err(failure));
        } else {
          frames' := frames + [ChoiceFrame(alternatives, 1, engine.cursor, None)];
          work := Eval(alternatives[0]);
        }
      case Optional(item) =>
        frames' := frames + [OptionalFrame(engine.cursor)];
        work := Eval(item);
      case Repeat(item) =>
        frames' := frames + [RepeatFrame(item, [], engine.cursor, engine.cursor)];
        work := Eval(item);
      case Repeat1(item) =>
        frames' := frames + [Repeat1Frame(item)];
        work := Eval(item);
      case And(item) =>
        frames' := frames + [AndFrame(engine.cursor)];
        work := Eval(item);
      case Not(item) =>
        frames' := frames + [NotFrame(engine.cursor)];
        work := Eval(item);
      case Label(message, item) =>
        frames' := frames + [LabelFrame(message)];
        work := Eval(item);
      case Cut(item) =>
        frames' := frames + [CutFrame];
        work := Eval(item);
    }

    method Apply(frame: Frame<R, K, T>, out: Output<R, T>, ghost frames: seq<Frame<R, K, T>>) returns (work: Work<R, K, T>)
      requires Matches()
      modifies this, engine
      ensures Now(work, frames) == ApplyFrame(g, frame, out, old(Now(Ready(out), frames)))
    {
      match frame
      case RuleFrame(rule, start, mark) =>
        if out.Ok? {
          var next := engine.cursor;
          var node := Node(rule, g.SpanBetween(start, next), out.value);
          memo := memo[(rule, start) := Parsed(node, next)];
          work := Ready(Ok([node]));
        } else {
          engine.Restore(mark);
          memo := memo[(rule, start) := Failed(out.error)];
          work := Ready(out);
        }
      case SeqFrame(items, next, children, mark) =>
        if out.Ok? {
          var all := children + out.value;
          work := if next < |items| then PushAndEval(SeqFrame(items, next + 1, all, mark), items[next]) else Ready(Ok(all));
        } else {
          engine.Restore(mark);
          work := Ready(out);
        }
      case ChoiceFrame(alternatives, next, mark, failure) =>
        if out.Ok? || out.error.committed {
          work := Ready(out);
        } else {
          var merged := MergeFailure(failure, out.error);
          engine.Restore(mark);
          work := if next < |alternatives|
                  then PushAndEval(ChoiceFrame(alternatives, next + 1, mark, Some(merged)), alternatives[next])
                  else Ready(Err(merged));
        }
      case OptionalFrame(mark) =>
        if out.Ok? || out.error.committed {
          work := Ready(out);
        } else {
          engine.Restore(mark);
          work := Ready(Ok([]));
        }
      case RepeatFrame(item, children, start, mark) =>
        if out.Ok? {
          var all := children + out.value;
          work := if engine.cursor != start
                  then PushAndEval(RepeatFrame(item, all, engine.cursor, engine.cursor), item)
                  else Ready(Ok(all));
        } else if out.error.committed {
          work := Ready(out);
        } else {
          engine.Restore(mark);
          work := Ready(Ok(children));
        }
      case Repeat1Frame(item) =>
        work := if out.Ok? then PushAndEval(RepeatFrame(item, out.value, engine.cursor, engine.cursor), item) else Ready(out);
      case AndFrame(mark) =>
        engine.Restore(mark);
        if out.Ok? {
          work := Ready(Ok([]));
        } else {
          var failure := engine.Fail("lookahead");
          work := Ready(Err(failure));
        }
      case NotFrame(mark) =>
        engine.Restore(mark);
        if out.Ok? {
          var failure := engine.Fail("negative lookahead");
          work := Ready(Err(failure));
        } else {
          work := Ready(Ok([]));
        }
      case LabelFrame(message) =>
        work := Ready(if out.Err? then Err(Labeled(out.error, message)) else out);
      case CutFrame =>
        work := Ready(if out.Err? then Err(MarkCommitted(out.error)) else out);
    }

    /** The loop, on an expression the semantics has a result for; elsewhere it would not end. */
    method ParseExprIterative(root: Peg<R, K>, ghost fuel: nat) returns (out: Output<R, T>)
      requires Valid() && Parse(g, root, engine.cursor, fuel).Some?
      modifies this, engine
      ensures Valid()
      ensures Parse(g, root, old(engine.cursor), fuel) == Some(Res(out, engine.cursor))
    {
      var work := Eval(root);
      var frames: seq<Frame<R, K, T>> := [];
      ghost var start := Now(work, frames);
      ghost var final := Simulates(g, start, fuel);
      ghost var n: nat :| Run(g, start, n) == final;
      while true
        invariant Matches()
        invariant Run(g, Now(work, frames), n) == final
        decreases n
      {
        ghost var before := Now(work, frames);
        ghost var next := Step(g, before);
        if work.Ready? && frames == [] {
          HaltedStays(g, before, n);
          out := work.out;
          return;
        }
        assert n > 0;
        match work {
          case PushAndEval(frame, e) =>
            frames := frames + [frame];
            work := Eval(e);
          case Eval(e) =>
            work, frames := Evaluate(e, frames);
          case Ready(result) =>
            var top := |frames| - 1;
            var frame := frames[top];
            frames := frames[..top];
            work := Apply(frame, result, frames);
        }
        assert Now(work, frames) == next;
        n := n - 1;
      }
    }

    method ParseRule(rule: R, ghost fuel: nat) returns (r: Result<Cst<R, T>, Failure>)
      requires Valid() && Parse(g, Rule(rule), engine.cursor, fuel).Some?
      modifies this, engine
      ensures Valid()
      ensures var res := Parse(g, Rule(rule), old(engine.cursor), fuel).value;
              && engine.cursor == res.at
              && match res.out
                 case Ok(children) => children == [Node(rule, g.SpanBetween(old(engine.cursor), res.at), children[0].children)]
                                      && r == Ok(children[0])
                 case Err(failure) => r == Err(failure) && engine.cursor == old(engine.cursor)
    {
      var out := ParseExprIterative(Rule(rule), fuel);
      if out.Err? { return Err(out.error); }
      var children := out.value;
      if |children| == 1 && children[0].Node? {
        r := Ok(children[0]);
      } else {
        var failure := engine.Fail("grammar rule");
        r := Err(failure);
      }
    }
  }
}

/** Grammar expressions, syntax trees and failures of the packrat parser (rex-parser/src/grammar.rs, peg.rs). */
module Pegs {
  import opened Wrappers

  datatype Position = Position(line: nat, column: nat)

  datatype Span = Span(begin: Position, end: Position)

  datatype Peg<R, K> =
    | Token(kind: K)
    | Rule(rule: R)
    | Seq(items: seq<Peg<R, K>>)
    | Choice(alternatives: seq<Peg<R, K>>)
    | Optional(item: Peg<R, K>)
    | Repeat(item: Peg<R, K>)
    | Repeat1(item: Peg<R, K>)
    | And(item: Peg<R, K>)
    | Not(item: Peg<R, K>)
    | Label(message: string, item: Peg<R, K>)
    | Cut(item: Peg<R, K>)

  datatype Cst<R, T> =
    | Node(rule: R, span: Span, children: seq<Cst<R, T>>)
    | Leaf(token: T)

  datatype Failure = Failure(pos: nat, span: Span, expected: set<string>, committed: bool)

  /** A grammar, what its terminals mean, and the tokens to be parsed. */
  datatype Language<!R(==), !K, !T> = Language(
    rules: map<R, Peg<R, K>>,
    describe: K -> string,
    matches: (K, T) -> bool,
    isEof: T -> bool,
    span: T -> Span,
    tokens: seq<T>,
    eof: T)
  {
    /** The token handed out beyond the last one is recognised as the end of input. */
    predicate Ok() { isEof(eof) }

    function TokenAt(pos: nat): T {
      if pos < |tokens| then tokens[pos] else eof
    }

    function SpanAt(pos: nat): Span {
      if pos < |tokens| then span(tokens[pos]) else span(eof)
    }

    /** From the first consumed token to the last, or the current token if none was consumed. */
    function SpanBetween(start: nat, end: nat): Span {
      if start < end then Span(SpanAt(start).begin, SpanAt(end - 1).end) else SpanAt(start)
    }

    function Fail(pos: nat, expected: string): Failure {
      Failure(pos, SpanAt(pos), {expected}, false)
    }
  }

  /** The failure farther on wins; at one position the expectations add up. */
  function MergeFailure(target: Option<Failure>, failure: Failure): Failure {
    match target
    case None => failure
    case Some(existing) =>
      if failure.pos > existing.pos then failure
      else if failure.pos == existing.pos then
        existing.(expected := existing.expected + failure.expected, committed := existing.committed || failure.committed)
      else existing
  }

  function Labeled(failure: Failure, message: string): Failure {
    failure.(expected := {message})
  }

  function MarkCommitted(failure: Failure): Failure {
    failure.(committed := true)
  }

  type Output<R, T> = Result<seq<Cst<R, T>>, Failure>
}

/**
  What an expression says, read off it from left to right, and what its syntax tree says. Building an
  expression neither loses, adds nor moves a name, a field, an annotation, an operator or an item
  (rex-parser/src/ast_builder.rs:619-830, 1241-1321; rex-parser/src/lexer.rs:759-830).
 */
module ExpressionReading {
  import opened Wrappers
  import opened Pegs
  import opened OperatorFold
  import opened GroupedTail
  import opened GroupedTailTerms
  import opened GroupedTailAgreement

  /** `Open` and `Close` stand around arguments and items. */
  datatype Word =
    | Named(name: string)
    | Infix(symbol: string)
    | Dot(field: string)
    | Typed(typ: string)
    | Formed(kind: FormKind)
    | Open
    | Close

  /** How an operator is written, and `List.Cons` for `::`. */
  function Symbol(op: Operator): string {
    match op
    case Cons => "List.Cons"
    case Or => "||" case And => "&&"
    case Eq => "==" case Ne => "!=" case Lt => "<" case Le => "<=" case Gt => ">" case Ge => ">="
    case Add => "+" case Sub => "-" case Mul => "*" case Div => "/" case Mod => "%"
  }

  predicate IsSymbol(name: string) {
    name in {"List.Cons", "||", "&&", "==", "!=", "<", "<=", ">", ">=", "+", "-", "*", "/", "%"}
  }

  // ---- reading an expression --------------------------------------------------------------------------------------

  /**
    What is read: an operator by itself, one with its left operand, or anything else. `(+) a b` is the
    expression `a + b`, and reads so.
   */
  datatype Reading = Alone(symbol: string) | Partial(symbol: string, left: seq<Word>) | Complete(words: seq<Word>)

  function Words(r: Reading): seq<Word> {
    match r
    case Alone(symbol) => [Named(symbol)]
    case Partial(symbol, left) => [Named(symbol), Open] + left + [Close]
    case Complete(words) => words
  }

  function Given(r: Reading, argument: seq<Word>): Reading {
    match r
    case Alone(symbol) => Partial(symbol, argument)
    case Partial(symbol, left) => Complete(left + [Infix(symbol)] + argument)
    case Complete(words) => Complete(words + [Open] + argument + [Close])
  }

  function NameRead(name: string): Reading { if IsSymbol(name) then Alone(name) else Complete([Named(name)]) }

  function Read(e: Expr): Reading
    decreases e
  {
    match e
    case Var(_, name) => NameRead(name)
    case Project(_, base, field) => Complete(Words(Read(base)) + [Dot(field)])
    case Ann(_, inner, typ) => Complete(Words(Read(inner)) + [Typed(typ)])
    case Form(_, kind, parts) => Complete([Formed(kind)] + ReadEach(parts))
    case App(_, callee, argument) => Given(Read(callee), Words(Read(argument)))
  }

  /** Each in parentheses. */
  function ReadEach(es: seq<Expr>): seq<Word>
    decreases es
  {
    if es == [] then [] else [Open] + Words(Read(es[0])) + [Close] + ReadEach(es[1..])
  }

  const CAPITALS: set<char> :=
    {'A', 'B', 'C', 'D', 'E', 'F', 'G', 'H', 'I', 'J', 'K', 'L', 'M', 'N', 'O', 'P', 'Q', 'R', 'S', 'T', 'U', 'V', 'W', 'X', 'Y', 'Z'}

  /** A constructor reference is a name, or a field of anything, that begins with a capital letter. */
  lemma {:induction false} ConstructorsAreCapital(e: Expr)
    ensures IsConstructorReference(e) <==>
            match e
            case Var(_, name) => name != "" && name[0] in CAPITALS
            case Project(_, _, field) => field != "" && field[0] in CAPITALS
            case _ => false
  {
  }

  // ---- reading a syntax tree ----------------------------------------------------------------------------------------

  function Spell(node: ExprNode): Reading
    decreases node
  {
    if node.rest == [] then SpellUnary(node.first) else Complete(Words(SpellUnary(node.first)) + SpellRest(node.rest))
  }

  function SpellRest(rest: seq<Operation>): seq<Word>
    decreases rest
  {
    if rest == [] then [] else SpellOperation(rest[0]) + SpellRest(rest[1..])
  }

  function SpellOperation(operation: Operation): seq<Word>
    decreases operation
  {
    [Infix(Symbol(operation.operator.op))] + Words(SpellUnary(operation.operand))
  }

  function SpellUnary(unary: Unary): Reading
    decreases unary
  {
    var r := SpellApplication(unary.application);
    if unary.annotations == [] then r else Complete(Words(r) + SpellTypes(unary.annotations))
  }

  function SpellTypes(annotations: seq<Annotation>): seq<Word> {
    if annotations == [] then [] else [Typed(annotations[0].typ)] + SpellTypes(annotations[1..])
  }

  /** A constructor directly followed by a dictionary. */
  predicate Paired(terms: seq<Postfix>) {
    |terms| >= 2 && KindOfTerm(terms[0]) == ConstructorTerm && KindOfTerm(terms[1]) == DictTerm
  }

  /** The first term given the others in turn, a constructor with its dictionary being one. */
  function SpellApplication(application: Application): Reading
    decreases application
  {
    SpellTerms(application.terms)
  }

  function SpellTerms(terms: seq<Postfix>): Reading
    decreases terms, 1
  {
    if terms == [] then Complete([])
    else if Paired(terms) then SpellArguments(Given(SpellTerm(terms[0]), Words(SpellTerm(terms[1]))), terms[2..])
    else SpellArguments(SpellTerm(terms[0]), terms[1..])
  }

  function SpellArguments(r: Reading, terms: seq<Postfix>): Reading
    decreases terms, 0
  {
    if terms == [] then r
    else if Paired(terms) then
      SpellArguments(Given(r, Words(Given(SpellTerm(terms[0]), Words(SpellTerm(terms[1]))))), terms[2..])
    else SpellArguments(Given(r, Words(SpellTerm(terms[0]))), terms[1..])
  }

  function SpellTerm(term: Postfix): Reading
    decreases term
  {
    if term.fields == [] then SpellAtom(term.atom) else Complete(Words(SpellAtom(term.atom)) + SpellFields(term.fields))
  }

  function SpellFields(fields: seq<FieldName>): seq<Word> {
    if fields == [] then [] else [Dot(fields[0].name)] + SpellFields(fields[1..])
  }

  function SpellAtom(atom: Atom): Reading
    decreases atom
  {
    match atom
    case Identifier(name, _) => NameRead(name)
    case Grouped(_, inner) => Spell(inner)
    case Compound(_, kind, items) => Complete([Formed(LastOfEach(kind, |items|))] + SpellItems(kind, items, items))
  }

  /** The keys without those that come again. */
  function LastKeys(keys: seq<string>): seq<string> {
    if keys == [] then []
    else if keys[0] in keys[1..] then LastKeys(keys[1..])
    else [keys[0]] + LastKeys(keys[1..])
  }

  function LastOfEach(kind: FormKind, n: nat): FormKind {
    match kind
    case DictForm(keys) => DictForm(if |keys| == n then LastKeys(keys) else [])
    case UpdateForm(keys) => UpdateForm(if |keys| + 1 == n then LastKeys(keys) else [])
    case OtherForm(_) => kind
  }

  /** Whether the item with `left` items from it on, itself included, has its key to itself among them. */
  predicate IsLast(kind: FormKind, n: nat, left: nat)
    requires 0 < left <= n
  {
    match kind
    case DictForm(keys) => |keys| == n ==> keys[n - left] !in keys[n - left + 1..]
    case UpdateForm(keys) => |keys| + 1 == n && left < n ==> keys[n - left - 1] !in keys[n - left..]
    case OtherForm(_) => true
  }

  function SpellItems(kind: FormKind, items: seq<ExprNode>, left: seq<ExprNode>): seq<Word>
    requires |left| <= |items|
    decreases left
  {
    if left == [] then []
    else
      (if IsLast(kind, |items|, |left|) then [Open] + Words(Spell(left[0])) + [Close] else []) + SpellItems(kind, items, left[1..])
  }

  // ---- reading what is built ------------------------------------------------------------------------------------------

  lemma {:induction false} NamesAreSymbols(op: Operator)
    ensures Name(op) == Symbol(op) && IsSymbol(Name(op))
  {
  }

  function GivenAll(r: Reading, args: seq<Expr>): Reading
    decreases |args|
  {
    if args == [] then r else GivenAll(Given(r, Words(Read(args[0]))), args[1..])
  }

  lemma {:induction false} ReadApplied(begin: Position, base: Expr, args: seq<Expr>)
    ensures Read(Applied(begin, base, args)) == GivenAll(Read(base), args)
    decreases |args|
  {
    if args != [] { ReadApplied(begin, App(Span(begin, args[0].span.end), base, args[0]), args[1..]); }
  }

  lemma {:induction false} Associate(a: seq<Word>, b: seq<Word>, c: seq<Word>)
    ensures (a + b) + c == a + (b + c) && a + [] == a && b + [] == b
  {
  }

  lemma {:induction false} ReadProjected(e: Expr, fields: seq<FieldName>)
    ensures fields == [] ==> Projected(e, fields) == e
    ensures fields != [] ==> Read(Projected(e, fields)) == Complete(Words(Read(e)) + SpellFields(fields))
    decreases |fields|
  {
    if fields != [] {
      var f := fields[0];
      var next := Project(Span(e.span.begin, f.end), e, f.name);
      ReadProjected(next, fields[1..]);
      Associate(Words(Read(e)), [Dot(f.name)], SpellFields(fields[1..]));
    }
  }

  lemma {:induction false} ReadAnnotated(e: Expr, annotations: seq<Annotation>)
    ensures annotations == [] ==> Annotated(e, annotations) == e
    ensures annotations != [] ==> Read(Annotated(e, annotations)) == Complete(Words(Read(e)) + SpellTypes(annotations))
    decreases |annotations|
  {
    if annotations != [] {
      var t := annotations[0].typ;
      var next := Ann(Span(e.span.begin, annotations[0].span.end), e, t);
      ReadAnnotated(next, annotations[1..]);
      Associate(Words(Read(e)), [Typed(t)], SpellTypes(annotations[1..]));
    }
  }

  function ReadParts(parts: seq<Part>): seq<Word> {
    if parts == [] then [] else [Infix(Symbol(parts[0].operator.op))] + Words(Read(parts[0].rhs)) + ReadParts(parts[1..])
  }

  lemma {:induction false} ReadPartsSplit(a: seq<Part>, b: seq<Part>)
    ensures ReadParts(a + b) == ReadParts(a) + ReadParts(b)
    decreases |a|
  {
    hide Read, Words;
    if a == [] {
      assert a + b == b;
    } else {
      assert (a + b)[1..] == a[1..] + b;
      ReadPartsSplit(a[1..], b);
    }
  }

  lemma {:induction false} ReadBinary(l: Expr, op: OperatorToken, r: Expr)
    ensures Read(MakeBinary(l, op, r)) == Complete(Words(Read(l)) + [Infix(Symbol(op.op))] + Words(Read(r)))
  {
    NamesAreSymbols(op.op);
    var e := MakeBinary(l, op, r);
    assert Read(e.callee.callee) == Alone(Name(op.op));
    assert Read(e.callee) == Partial(Name(op.op), Words(Read(l)));
  }

  lemma {:induction false} ReadChains(l: seq<Part>, operator: OperatorToken, first: Expr, r: seq<Part>)
    ensures ReadParts(l + [Part(operator, first)] + r)
         == ReadParts(l) + ([Infix(Symbol(operator.op))] + Words(Read(first))) + ReadParts(r)
  {
    hide Read, Words, Symbol;
    var mid := [Part(operator, first)];
    ReadPartsSplit(l + mid, r);
    ReadPartsSplit(l, mid);
    assert mid[1..] == [];
    assert ReadParts(mid) == [Infix(Symbol(operator.op))] + Words(Read(first)) + [];
  }

  lemma {:induction false} Regroup(f: seq<Word>, p: seq<Word>, o: seq<Word>, g: seq<Word>, s: seq<Word>)
    ensures (f + p) + o + (g + s) == f + (p + (o + g) + s)
  {
  }

  /** However a chain is grouped, it reads from left to right. */
  lemma {:induction false} ReadTree(tree: Tree)
    ensures Words(Read(Build(tree))) == Words(Read(First(tree))) + ReadParts(Rest(tree))
    ensures tree.Binary? ==> Read(Build(tree)).Complete?
  {
    if tree.Operand? {
      assert Words(Read(tree.e)) + [] == Words(Read(tree.e));
    } else {
      var op, l, r := tree.operator, tree.left, tree.right;
      ReadTree(l);
      ReadTree(r);
      ReadBinary(Build(l), op, Build(r));
      ReadChains(Rest(l), op, First(r), Rest(r));
      assert Build(tree) == MakeBinary(Build(l), op, Build(r)) && First(tree) == First(l);
      assert Rest(tree) == Rest(l) + [Part(op, First(r))] + Rest(r);
      assert Words(Read(Build(tree))) == Words(Read(Build(l))) + [Infix(Symbol(op.op))] + Words(Read(Build(r)));
      hide *;
      Regroup(Words(Read(First(l))), ReadParts(Rest(l)), [Infix(Symbol(op.op))], Words(Read(First(r))), ReadParts(Rest(r)));
    }
  }

  lemma {:induction false} ReadGrouping(first: Expr, parts: seq<Part>)
    ensures var e := Build(Grouping(Operand(first), parts, 0));
            if parts == [] then e == first else Read(e) == Complete(Words(Read(first)) + ReadParts(parts))
  {
    var tree := Grouping(Operand(first), parts, 0);
    FoldKeepsTheChain(Operand(first), parts, 0);
    assert [] + parts[0..] == parts;
    ReadTree(tree);
  }

  // ---- items -----------------------------------------------------------------------------------------------------------

  lemma {:induction false} KeptAreLast(kind: FormKind, n: nat, i: nat)
    requires i < n
    ensures Kept(kind, n, i) <==> IsLast(kind, n, n - i)
  {
    match kind
    case DictForm(keys) =>
      if |keys| == n {
        var rest := keys[i + 1..];
        assert rest == keys[n - (n - i) + 1..];
        if !Kept(kind, n, i) {
          var j :| i < j < n && KeyAt(kind, n, j) == KeyAt(kind, n, i);
          assert rest[j - 1 - i] == keys[i];
        }
        if keys[i] in rest {
          var m :| 0 <= m < |rest| && rest[m] == keys[i];
          assert KeyAt(kind, n, m + i + 1) == KeyAt(kind, n, i);
        }
      }
    case UpdateForm(keys) =>
      if |keys| + 1 == n && i > 0 {
        var rest := keys[i..];
        if !Kept(kind, n, i) {
          var j :| i < j < n && KeyAt(kind, n, j) == KeyAt(kind, n, i);
          assert rest[j - 1 - i] == keys[i - 1];
        }
        if keys[i - 1] in rest {
          var m :| 0 <= m < |rest| && rest[m] == keys[i - 1];
          assert KeyAt(kind, n, m + i + 1) == KeyAt(kind, n, i);
        }
      }
    case OtherForm(_) =>
  }

  /** The keys that count, from one on. */
  function KeysFrom(kind: FormKind, n: nat, i: nat): seq<string>
    requires i <= n
  {
    match kind
    case DictForm(keys) => if |keys| == n then LastKeys(keys[i..]) else []
    case UpdateForm(keys) => if |keys| + 1 == n then LastKeys(if i == 0 then keys else keys[i - 1..]) else []
    case OtherForm(_) => []
  }

  lemma {:induction false} KeptKeysAreLast(kind: FormKind, n: nat, i: nat)
    requires i <= n
    ensures KeptKeys(kind, n, i) == KeysFrom(kind, n, i)
    decreases n - i
  {
    if i < n {
      KeptAreLast(kind, n, i);
      KeptKeysAreLast(kind, n, i + 1);
      match kind
      case DictForm(keys) =>
        if |keys| == n { assert keys[i..][1..] == keys[i + 1..]; }
      case UpdateForm(keys) =>
        if |keys| + 1 == n && i > 0 { assert keys[i - 1..][1..] == keys[i..]; }
        if |keys| + 1 == n && i == 0 { assert keys[0..] == keys; }
      case OtherForm(_) =>
    }
  }

  lemma {:induction false} MadeKind(span: Span, kind: FormKind, parts: seq<Expr>)
    ensures MakeForm(span, kind, parts).kind == LastOfEach(kind, |parts|)
  {
    KeptKeysAreLast(kind, |parts|, 0);
    match kind
    case DictForm(keys) => assert keys[0..] == keys;
    case _ =>
  }

  /** Of two items at one key the later one counts, as in a map they are put into one after another. */
  function PutAll(keys: seq<string>, values: seq<Expr>): map<string, Expr>
    requires |keys| == |values|
  {
    if keys == [] then map[]
    else PutAll(keys[..|keys| - 1], values[..|keys| - 1])[keys[|keys| - 1] := values[|keys| - 1]]
  }

  lemma {:induction false} PutAllKeepsLast(keys: seq<string>, values: seq<Expr>, i: nat)
    requires |keys| == |values| && i < |keys|
    ensures keys[i] in PutAll(keys, values)
    ensures Kept(DictForm(keys), |keys|, i) ==> PutAll(keys, values)[keys[i]] == values[i]
    decreases |keys|
  {
    var n := |keys| - 1;
    if i < n {
      PutAllKeepsLast(keys[..n], values[..n], i);
      if Kept(DictForm(keys), |keys|, i) {
        assert KeyAt(DictForm(keys), |keys|, n) == Some(keys[n]);
        forall j | i < j < n ensures keys[..n][j] != keys[i] { assert KeyAt(DictForm(keys), |keys|, j) == Some(keys[j]); }
      }
    }
  }

  // ---- nothing lost, added or moved ------------------------------------------------------------------------------------

  /** What the ordinary recursion builds reads as the syntax tree does. */
  lemma {:induction false} ReadsAsWritten(node: ExprNode, depth: nat)
    requires ExprOf(node, depth, false).Ok?
    ensures Read(ExprOf(node, depth, false).value) == Spell(node)
    decreases node, 3
  {
    var first, parts := UnaryOf(node.first, depth + 1, false).value, PartsOf(node.rest, depth + 1, false).value;
    PartsAre(node.rest, depth + 1, false);
    ReadUnary(node.first, depth + 1);
    ReadOperations(node.rest, depth + 1);
    ReadGrouping(first, parts);
  }

  lemma {:induction false} ReadOperations(rest: seq<Operation>, depth: nat)
    requires PartsOf(rest, depth, false).Ok?
    ensures ReadParts(PartsOf(rest, depth, false).value) == SpellRest(rest)
    decreases rest
  {
    if rest != [] {
      ReadOperation(rest[0], depth);
      ReadOperations(rest[1..], depth);
      var parts, part := PartsOf(rest, depth, false).value, OperandOf(rest[0], depth, false).value;
      assert parts[0] == part && parts[1..] == PartsOf(rest[1..], depth, false).value;
    }
  }

  lemma {:induction false} ReadOperation(operation: Operation, depth: nat)
    requires UnaryOf(operation.operand, depth, false).Ok?
    ensures Read(UnaryOf(operation.operand, depth, false).value) == SpellUnary(operation.operand)
    decreases operation
  {
    ReadUnary(operation.operand, depth);
  }

  lemma {:induction false} ReadUnary(unary: Unary, depth: nat)
    requires UnaryOf(unary, depth, false).Ok?
    ensures Read(UnaryOf(unary, depth, false).value) == SpellUnary(unary)
    decreases unary
  {
    var terms := unary.application.terms;
    var xs := PostfixesOf(terms, depth, false).value;
    PostfixesAre(terms, depth, false);
    forall i | 0 <= i < |terms| ensures Read(xs[i]) == SpellTerm(terms[i]) && KindOf(xs[i]) == KindOfTerm(terms[i]) {
      ReadTerm(terms[i], depth);
      KindOfPostfix(terms[i], depth, false);
    }
    var grouped := GroupTerms(xs);
    assert xs != [];
    ReadHead(xs, terms);
    ReadApplied(grouped[0].span.begin, grouped[0], grouped[1..]);
    ReadAnnotated(ApplicationOf(unary.application, depth, false).value, unary.annotations);
  }

  /** Terms that read as written. */
  ghost predicate Matching(xs: seq<Expr>, terms: seq<Postfix>) {
    |xs| == |terms| && forall i :: 0 <= i < |xs| ==> Read(xs[i]) == SpellTerm(terms[i]) && KindOf(xs[i]) == KindOfTerm(terms[i])
  }

  lemma {:induction false} MatchingRest(xs: seq<Expr>, terms: seq<Postfix>, k: nat)
    requires Matching(xs, terms) && k <= |xs|
    ensures Matching(xs[k..], terms[k..])
  {
    hide Read, SpellTerm, KindOf, KindOfTerm;
  }

  lemma {:induction false} PairedAlike(xs: seq<Expr>, terms: seq<Postfix>)
    requires Matching(xs, terms)
    ensures Paired(terms) <==> IsPair(xs, 0)
  {
    PairByKind(xs, 0);
    hide Read, SpellTerm, KindOf, KindOfTerm;
  }

  lemma {:induction false} ReadArguments(r: Reading, xs: seq<Expr>, terms: seq<Postfix>)
    requires Matching(xs, terms)
    ensures GivenAll(r, GroupTerms(xs)) == SpellArguments(r, terms)
    decreases |xs|
  {
    if xs != [] {
      PairedAlike(xs, terms);
      if IsPair(xs, 0) {
        MatchingRest(xs, terms, 2);
        var joined := Joined(xs[0], xs[1]);
        assert Read(joined) == Given(Read(xs[0]), Words(Read(xs[1])));
        ReadArguments(Given(r, Words(Read(joined))), xs[2..], terms[2..]);
        assert GroupTerms(xs)[0] == joined && GroupTerms(xs)[1..] == GroupTerms(xs[2..]);
      } else {
        MatchingRest(xs, terms, 1);
        ReadArguments(Given(r, Words(Read(xs[0]))), xs[1..], terms[1..]);
        assert GroupTerms(xs)[0] == xs[0] && GroupTerms(xs)[1..] == GroupTerms(xs[1..]);
      }
    }
  }

  lemma {:induction false} ReadHead(xs: seq<Expr>, terms: seq<Postfix>)
    requires Matching(xs, terms) && xs != []
    ensures var grouped := GroupTerms(xs);
            grouped != [] && GivenAll(Read(grouped[0]), grouped[1..]) == SpellTerms(terms)
  {
    PairedAlike(xs, terms);
    if IsPair(xs, 0) {
      MatchingRest(xs, terms, 2);
      var joined := Joined(xs[0], xs[1]);
      assert Read(joined) == Given(Read(xs[0]), Words(Read(xs[1])));
      ReadArguments(Read(joined), xs[2..], terms[2..]);
      assert GroupTerms(xs)[0] == joined && GroupTerms(xs)[1..] == GroupTerms(xs[2..]);
    } else {
      MatchingRest(xs, terms, 1);
      ReadArguments(Read(xs[0]), xs[1..], terms[1..]);
      assert GroupTerms(xs)[0] == xs[0] && GroupTerms(xs)[1..] == GroupTerms(xs[1..]);
    }
  }

  lemma {:induction false} ReadTerm(term: Postfix, depth: nat)
    requires PostfixOf(term, depth, false).Ok?
    ensures Read(PostfixOf(term, depth, false).value) == SpellTerm(term)
    decreases term
  {
    var base := AtomOf(term.atom, depth, false).value;
    ReadProjected(base, term.fields);
    match term.atom
    case Identifier(_, _) =>
    case Grouped(span, inner) => ReadsAsWritten(inner, depth);
    case Compound(span, kind, items) =>
      var parts := ExprsOf(items, depth, false).value;
      ExprsAre(items, depth, false);
      MadeKind(span, kind, parts);
      forall i | 0 <= i < |items| ensures Read(parts[i]) == Spell(items[i]) { ReadsAsWritten(items[i], depth); }
      ReadItems(kind, parts, items, 0);
      assert items[0..] == items;
  }

  lemma {:induction false} ReadItems(kind: FormKind, parts: seq<Expr>, items: seq<ExprNode>, i: nat)
    requires |parts| == |items| && i <= |items| && forall j :: 0 <= j < |items| ==> Read(parts[j]) == Spell(items[j])
    ensures ReadEach(KeptParts(kind, parts, i)) == SpellItems(kind, items, items[i..])
    decreases |items| - i
  {
    hide Read, Words, Spell, IsLast, Kept;
    if i < |items| {
      ReadItems(kind, parts, items, i + 1);
      KeptAreLast(kind, |items|, i);
      assert items[i..][1..] == items[i + 1..] && items[i..][0] == items[i];
      if Kept(kind, |parts|, i) {
        assert KeptParts(kind, parts, i)[1..] == KeptParts(kind, parts, i + 1);
      } else {
        assert [] + KeptParts(kind, parts, i + 1) == KeptParts(kind, parts, i + 1);
        assert [] + SpellItems(kind, items, items[i + 1..]) == SpellItems(kind, items, items[i + 1..]);
      }
    }
  }
}

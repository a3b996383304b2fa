/**
  Expressions with binders, the references to one of them, and renaming it
  (rex-lsp/src/navigation.rs:97-287, 345-367).
 */
module Scoping {
  import opened Wrappers
  import opened Pegs

  datatype Name = Name(text: string, span: Span)

  type Scope = seq<Name>

  /** A field written as its key alone has the key's span for the variable too. */
  datatype Pattern =
    | Wildcard
    | Variable(name: Name)
    | Named(variant: string, args: seq<Pattern>)
    | TuplePattern(elems: seq<Pattern>)
    | ListPattern(elems: seq<Pattern>)
    | ConsPattern(head: Pattern, tail: Pattern)
    | DictPattern(keys: seq<Name>, fields: seq<Pattern>)

  /** Dictionaries are listed in the order of their keys. */
  datatype Expr =
    | Literal(text: string)
    | Tuple(elems: seq<Expr>)
    | List(elems: seq<Expr>)
    | Dict(keys: seq<string>, values: seq<Expr>)
    | RecordUpdate(base: Expr, keys: seq<string>, values: seq<Expr>)
    | Var(name: Name)
    | App(fun: Expr, arg: Expr)
    | Project(base: Expr, field: string)
    | Lam(param: Name, body: Expr)
    | Let(name: Name, def: Expr, body: Expr)
    | LetRec(bindings: seq<RecBinding>, body: Expr)
    | Ite(cond: Expr, positive: Expr, negative: Expr)
    | Match(scrutinee: Expr, arms: seq<Arm>)
    | Ann(inner: Expr, typ: string)

  datatype RecBinding = RecBinding(name: Name, def: Expr)

  datatype Arm = Arm(pattern: Pattern, body: Expr)

  /** The variables of a pattern, from left to right. */
  function Bindings(p: Pattern): seq<Name>
    decreases p, 0
  {
    match p
    case Wildcard => []
    case Variable(name) => [name]
    case Named(_, args) => BindingsOfAll(args)
    case TuplePattern(elems) => BindingsOfAll(elems)
    case ListPattern(elems) => BindingsOfAll(elems)
    case ConsPattern(head, tail) => Bindings(head) + Bindings(tail)
    case DictPattern(_, fields) => BindingsOfAll(fields)
  }

  function BindingsOfAll(ps: seq<Pattern>): seq<Name>
    decreases ps
  {
    if ps == [] then [] else Bindings(ps[0]) + BindingsOfAll(ps[1..])
  }

  function RecNames(bindings: seq<RecBinding>): seq<Name> {
    if bindings == [] then [] else [bindings[0].name] + RecNames(bindings[1..])
  }

  /** A subexpression and what is bound on the way to it. */
  datatype Child = Child(e: Expr, locals: seq<Name>)

  function Plain(items: seq<Expr>): (r: seq<Child>)
    ensures |r| == |items| && forall i :: 0 <= i < |r| ==> r[i] == Child(items[i], [])
  {
    seq(|items|, i requires 0 <= i < |items| => Child(items[i], []))
  }

  /** The subexpressions in the order of the source. */
  function Children(e: Expr): (r: seq<Child>)
    ensures forall i :: 0 <= i < |r| ==> r[i].e < e
  {
    match e
    case Literal(_) => []
    case Tuple(elems) => Plain(elems)
    case List(elems) => Plain(elems)
    case Dict(_, values) => Plain(values)
    case RecordUpdate(base, _, values) => [Child(base, [])] + Plain(values)
    case Var(_) => []
    case App(fun, arg) => [Child(fun, []), Child(arg, [])]
    case Project(base, _) => [Child(base, [])]
    case Lam(param, body) => [Child(body, [param])]
    case Let(name, def, body) => [Child(def, []), Child(body, [name])]
    case LetRec(bindings, body) =>
      seq(|bindings|, i requires 0 <= i < |bindings| => Child(bindings[i].def, RecNames(bindings)))
      + [Child(body, RecNames(bindings))]
    case Ite(cond, positive, negative) => [Child(cond, []), Child(positive, []), Child(negative, [])]
    case Match(scrutinee, arms) =>
      [Child(scrutinee, [])]
      + seq(|arms|, i requires 0 <= i < |arms| => Child(arms[i].body, Bindings(arms[i].pattern)))
    case Ann(inner, _) => [Child(inner, [])]
  }

  // ---- references -----------------------------------------------------------------------------------------------

  /** The binding a name refers to: the innermost of that text. */
  function Innermost(scope: Scope, text: string): (r: Option<nat>)
    ensures r.Some? ==> r.value < |scope| && scope[r.value].text == text
    ensures r.Some? ==> forall i :: r.value < i < |scope| ==> scope[i].text != text
    ensures r.None? ==> forall i :: 0 <= i < |scope| ==> scope[i].text != text
    decreases |scope|
  {
    if scope == [] then None
    else if scope[|scope| - 1].text == text then Some(|scope| - 1)
    else Innermost(scope[..|scope| - 1], text)
  }

  /** What is being looked for, and where top-level names are defined. */
  datatype Query = Query(ident: string, target: Span, top: map<string, Span>)

  function Resolve(q: Query, scope: Scope, text: string): Option<Span> {
    var local := Innermost(scope, text);
    if local.Some? then Some(scope[local.value].span)
    else if text in q.top then Some(q.top[text])
    else None
  }

  predicate Refers(q: Query, scope: Scope, name: Name) {
    name.text == q.ident && Resolve(q, scope, q.ident) == Some(q.target)
  }

  /** The spans of the variables that refer to the target. */
  function References(q: Query, e: Expr, scope: Scope): seq<Span>
    decreases e, 1
  {
    if e.Var? then if Refers(q, scope, e.name) then [e.name.span] else []
    else ReferencesInAll(q, e, Children(e), scope)
  }

  function ReferencesInAll(q: Query, parent: Expr, children: seq<Child>, scope: Scope): seq<Span>
    requires forall i :: 0 <= i < |children| ==> children[i].e < parent
    decreases parent, 0, |children|
  {
    if children == [] then []
    else References(q, children[0].e, scope + children[0].locals) + ReferencesInAll(q, parent, children[1..], scope)
  }
}

/** The visitor that collects references, with the scope it pushes and truncates (rex-lsp/src/navigation.rs:97-287). */
module ReferenceCollector {
  import opened Wrappers
  import opened Pegs
  import opened Scoping

  /** What is still to be collected when the children from the `i`th on are left. */
  function Remaining(q: Query, e: Expr, i: nat, scope: Scope): seq<Span>
    requires i <= |Children(e)|
  {
    ReferencesInAll(q, e, Children(e)[i..], scope)
  }

  /** One more child collected. */
  lemma {:induction false} Advance(q: Query, e: Expr, i: nat, scope: Scope, out: seq<Span>)
    requires i < |Children(e)|
    ensures var child := Children(e)[i];
            out + Remaining(q, e, i, scope) == (out + References(q, child.e, scope + child.locals)) + Remaining(q, e, i + 1, scope)
  {
    assert Children(e)[i..][1..] == Children(e)[i + 1..];
    var first, rest := References(q, Children(e)[i].e, scope + Children(e)[i].locals), Remaining(q, e, i + 1, scope);
    assert out + (first + rest) == (out + first) + rest;
  }

  lemma {:induction false} Begin(q: Query, e: Expr, scope: Scope)
    requires !e.Var?
    ensures References(q, e, scope) == Remaining(q, e, 0, scope)
  {
    assert Children(e)[0..] == Children(e);
  }

  lemma {:induction false} End(q: Query, e: Expr, scope: Scope, out: seq<Span>)
    ensures out + Remaining(q, e, |Children(e)|, scope) == out
  {
    assert Children(e)[|Children(e)|..] == [];
  }

  method PatternBindings(p: Pattern, out: seq<Name>) returns (out': seq<Name>)
    ensures out' == out + Bindings(p)
    decreases p, 0
  {
    out' := out;
    match p {
      case Wildcard => assert out + [] == out;
      case Variable(name) => out' := out' + [name];
      case Named(_, args) => out' := PatternBindingsOfAll(args, out);
      case TuplePattern(elems) => out' := PatternBindingsOfAll(elems, out);
      case ListPattern(elems) => out' := PatternBindingsOfAll(elems, out);
      case ConsPattern(head, tail) =>
        out' := PatternBindings(head, out');
        out' := PatternBindings(tail, out');
        assert out + (Bindings(head) + Bindings(tail)) == (out + Bindings(head)) + Bindings(tail);
      case DictPattern(_, fields) => out' := PatternBindingsOfAll(fields, out);
    }
  }

  method PatternBindingsOfAll(ps: seq<Pattern>, out: seq<Name>) returns (out': seq<Name>)
    ensures out' == out + BindingsOfAll(ps)
    decreases ps
  {
    out' := out;
    assert ps[0..] == ps;
    for i := 0 to |ps|
      invariant out + BindingsOfAll(ps) == out' + BindingsOfAll(ps[i..])
    {
      assert ps[i..][1..] == ps[i + 1..];
      ghost var before := out';
      out' := PatternBindings(ps[i], out');
      assert before + (Bindings(ps[i]) + BindingsOfAll(ps[i + 1..])) == (before + Bindings(ps[i])) + BindingsOfAll(ps[i + 1..]);
    }
    assert out' + BindingsOfAll(ps[|ps|..]) == out';
  }

  lemma {:induction false} PlainChildren(e: Expr)
    ensures e.App? ==> Children(e) == Plain([e.fun, e.arg])
    ensures e.Project? ==> Children(e) == Plain([e.base])
    ensures e.Tuple? || e.List? ==> Children(e) == Plain(e.elems)
    ensures e.Dict? ==> Children(e) == Plain(e.values)
    ensures e.RecordUpdate? ==> Children(e) == Plain([e.base] + e.values)
    ensures e.Ite? ==> Children(e) == Plain([e.cond, e.positive, e.negative])
    ensures e.Ann? ==> Children(e) == Plain([e.inner])
  {
    match e
    case App(fun, arg) => assert Plain([fun, arg]) == [Child(fun, []), Child(arg, [])];
    case Project(base, _) => assert Plain([base]) == [Child(base, [])];
    case RecordUpdate(base, _, values) => assert Plain([base] + values) == [Child(base, [])] + Plain(values);
    case Ite(a, b, c) => assert Plain([a, b, c]) == [Child(a, []), Child(b, []), Child(c, [])];
    case Ann(inner, _) => assert Plain([inner]) == [Child(inner, [])];
    case _ =>
  }

  lemma {:induction false} ScrutineeChild(e: Expr)
    requires e.Match?
    ensures |Children(e)| == |e.arms| + 1 && Children(e)[0] == Child(e.scrutinee, [])
  {
  }

  lemma {:induction false} ArmChild(e: Expr, i: nat)
    requires e.Match? && i < |e.arms|
    ensures i + 1 < |Children(e)| && Children(e)[i + 1] == Child(e.arms[i].body, Bindings(e.arms[i].pattern))
  {
  }

  class Collector {
    const q: Query
    var scope: Scope
    var out: seq<Span>

    constructor (q: Query)
      ensures this.q == q && scope == [] && out == []
    {
      this.q := q;
      scope, out := [], [];
    }

    /** Reports the references in order, and leaves the scope as it was. */
    method Collect(e: Expr)
      modifies this
      ensures scope == old(scope) && out == old(out) + References(q, e, scope)
      decreases e, 3
    {
      PlainChildren(e);
      hide References, ReferencesInAll, Children, Remaining;
      match e {
        case Literal(_) => Done(e);
        case Var(name) => CollectVar(e);
        case Let(_, _, _) => CollectLet(e);
        case LetRec(_, _) => CollectLetRec(e);
        case Lam(_, _) => CollectLam(e);
        case Match(_, _) => CollectMatch(e);
        case App(fun, arg) => CollectFew(e, [fun, arg]);
        case Project(base, _) => CollectFew(e, [base]);
        case Tuple(elems) => CollectFew(e, elems);
        case List(elems) => CollectFew(e, elems);
        case Dict(_, values) => CollectFew(e, values);
        case RecordUpdate(base, _, values) => CollectFew(e, [base] + values);
        case Ite(cond, positive, negative) => CollectFew(e, [cond, positive, negative]);
        case Ann(inner, _) => CollectFew(e, [inner]);
      }
    }

    lemma {:induction false} Done(e: Expr)
      requires e.Literal?
      ensures forall out: seq<Span> :: out + References(q, e, scope) == out
    {
    }

    method CollectVar(e: Expr)
      requires e.Var?
      modifies `out
      ensures out == old(out) + References(q, e, scope)
    {
      if e.name.text != q.ident {
        return;
      }
      var resolved := Resolve(q, scope, q.ident);
      if resolved == Some(q.target) {
        out := out + [e.name.span];
      }
    }

    /** Subexpressions that bind nothing, one after another. */
    method CollectFew(e: Expr, items: seq<Expr>)
      requires !e.Var? && Children(e) == Plain(items)
      modifies this
      ensures scope == old(scope) && out == old(out) + References(q, e, scope)
      decreases e, 1
    {
      hide References, ReferencesInAll, Children, Remaining;
      Begin(q, e, scope);
      for i := 0 to |items|
        invariant scope == old(scope) && old(out) + References(q, e, scope) == out + Remaining(q, e, i, scope)
      {
        Advance(q, e, i, scope, out);
        assert scope + [] == scope;
        assert items[i] == Children(e)[i].e;
        Collect(items[i]);
      }
      End(q, e, scope, out);
    }

    method CollectLet(e: Expr)
      requires e.Let?
      modifies this
      ensures scope == old(scope) && out == old(out) + References(q, e, scope)
      decreases e, 1
    {
      assert Children(e) == [Child(e.def, []), Child(e.body, [e.name])];
      hide References, ReferencesInAll, Children, Remaining;
      Begin(q, e, scope);
      Advance(q, e, 0, scope, out);
      assert scope + [] == scope;
      Collect(e.def);
      Advance(q, e, 1, scope, out);
      scope := scope + [e.name];
      Collect(e.body);
      scope := scope[..|scope| - 1];
      End(q, e, scope, out);
    }

    method CollectLam(e: Expr)
      requires e.Lam?
      modifies this
      ensures scope == old(scope) && out == old(out) + References(q, e, scope)
      decreases e, 1
    {
      assert Children(e) == [Child(e.body, [e.param])];
      hide References, ReferencesInAll, Children, Remaining;
      Begin(q, e, scope);
      Advance(q, e, 0, scope, out);
      scope := scope + [e.param];
      Collect(e.body);
      scope := scope[..|scope| - 1];
      End(q, e, scope, out);
    }

    method CollectLetRec(e: Expr)
      requires e.LetRec?
      modifies this
      ensures scope == old(scope) && out == old(out) + References(q, e, scope)
      decreases e, 1
    {
      var n, baseLen := |e.bindings|, |scope|;
      ghost var names := RecNames(e.bindings);
      assert |Children(e)| == n + 1 && Children(e)[n] == Child(e.body, names);
      assert forall i :: 0 <= i < n ==> Children(e)[i] == Child(e.bindings[i].def, names);
      hide References, ReferencesInAll, Children, Remaining;
      Begin(q, e, scope);
      PushRecNames(e.bindings);
      for i := 0 to n
        invariant scope == old(scope) + names
        invariant old(out) + References(q, e, old(scope)) == out + Remaining(q, e, i, old(scope))
      {
        Advance(q, e, i, old(scope), out);
        Collect(e.bindings[i].def);
      }
      Advance(q, e, n, old(scope), out);
      Collect(e.body);
      scope := scope[..baseLen];
      End(q, e, scope, out);
    }

    method PushRecNames(bindings: seq<RecBinding>)
      modifies `scope
      ensures scope == old(scope) + RecNames(bindings)
    {
      assert bindings[0..] == bindings;
      for i := 0 to |bindings|
        invariant old(scope) + RecNames(bindings) == scope + RecNames(bindings[i..])
      {
        assert bindings[i..][1..] == bindings[i + 1..];
        assert scope + ([bindings[i].name] + RecNames(bindings[i + 1..])) == (scope + [bindings[i].name]) + RecNames(bindings[i + 1..]);
        scope := scope + [bindings[i].name];
      }
      assert scope + [] == scope;
    }

    method CollectMatch(e: Expr)
      requires e.Match?
      modifies this
      ensures scope == old(scope) && out == old(out) + References(q, e, scope)
      decreases e, 1
    {
      var n := |e.arms|;
      hide References, ReferencesInAll, Children, Remaining, Bindings;
      ScrutineeChild(e);
      Begin(q, e, scope);
      Advance(q, e, 0, scope, out);
      assert scope + [] == scope;
      Collect(e.scrutinee);
      for i := 0 to n
        invariant scope == old(scope)
        invariant old(out) + References(q, e, old(scope)) == out + Remaining(q, e, i + 1, old(scope))
      {
        ArmChild(e, i);
        Advance(q, e, i + 1, old(scope), out);
        CollectArm(e, i);
      }
      End(q, e, scope, out);
    }

    method CollectArm(e: Expr, i: nat)
      requires e.Match? && i < |e.arms|
      modifies this
      ensures scope == old(scope)
      ensures out == old(out) + References(q, e.arms[i].body, scope + Bindings(e.arms[i].pattern))
      decreases e, 0
    {
      hide References, ReferencesInAll, Children;
      var baseLen := |scope|;
      var binds := PatternBindings(e.arms[i].pattern, []);
      assert [] + Bindings(e.arms[i].pattern) == Bindings(e.arms[i].pattern);
      scope := scope + binds;
      Collect(e.arms[i].body);
      scope := scope[..baseLen];
    }
  }
}

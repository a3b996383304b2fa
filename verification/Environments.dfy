/**
  Where the value of a variable comes from, by environments: binding extends a map from names to binders, and
  a variable takes what its name is mapped to. An account of scoping of its own, which the reference collector
  and renaming are held against (rex-lsp/src/navigation.rs:97-287, 345-367).
 */
module Environments {
  import opened Wrappers
  import opened Pegs
  import opened Scoping
  import opened Renaming

  type Env = map<string, Span>

  /** A binder in the expression, a top-level definition, or neither. */
  datatype Origin = Bound(span: Span) | Defined(span: Span) | Nowhere(text: string)

  datatype Use = Use(name: Name, origin: Origin)

  function Bind(env: Env, name: Name): Env { env[name.text := name.span] }

  /** Matching a pattern binds its variables, the later ones on top. */
  function Extend(env: Env, p: Pattern): Env
    decreases p, 0
  {
    match p
    case Wildcard => env
    case Variable(name) => Bind(env, name)
    case Named(_, args) => ExtendAll(env, args)
    case TuplePattern(elems) => ExtendAll(env, elems)
    case ListPattern(elems) => ExtendAll(env, elems)
    case ConsPattern(head, tail) => Extend(Extend(env, head), tail)
    case DictPattern(_, fields) => ExtendAll(env, fields)
  }

  function ExtendAll(env: Env, ps: seq<Pattern>): Env
    decreases ps
  {
    if ps == [] then env else ExtendAll(Extend(env, ps[0]), ps[1..])
  }

  function ExtendRec(env: Env, bindings: seq<RecBinding>): Env
    decreases |bindings|
  {
    if bindings == [] then env else ExtendRec(Bind(env, bindings[0].name), bindings[1..])
  }

  function OriginOf(top: Env, env: Env, text: string): Origin {
    if text in env then Bound(env[text]) else if text in top then Defined(top[text]) else Nowhere(text)
  }

  /** The variables of an expression in the order of the source, each with its origin. */
  function Uses(top: Env, e: Expr, env: Env): seq<Use>
    decreases e
  {
    match e
    case Literal(_) => []
    case Var(name) => [Use(name, OriginOf(top, env, name.text))]
    case Tuple(elems) => UsesOfAll(top, elems, env)
    case List(elems) => UsesOfAll(top, elems, env)
    case Dict(_, values) => UsesOfAll(top, values, env)
    case RecordUpdate(base, _, values) => Uses(top, base, env) + UsesOfAll(top, values, env)
    case App(fun, arg) => Uses(top, fun, env) + Uses(top, arg, env)
    case Project(base, _) => Uses(top, base, env)
    case Lam(param, body) => Uses(top, body, Bind(env, param))
    case Let(name, def, body) => Uses(top, def, env) + Uses(top, body, Bind(env, name))
    case LetRec(bindings, body) =>
      var inner := ExtendRec(env, bindings);
      UsesOfDefs(top, bindings, inner) + Uses(top, body, inner)
    case Ite(cond, positive, negative) => Uses(top, cond, env) + Uses(top, positive, env) + Uses(top, negative, env)
    case Match(scrutinee, arms) => Uses(top, scrutinee, env) + UsesOfArms(top, arms, env)
    case Ann(inner, _) => Uses(top, inner, env)
  }

  function UsesOfAll(top: Env, es: seq<Expr>, env: Env): seq<Use>
    decreases es
  {
    if es == [] then [] else Uses(top, es[0], env) + UsesOfAll(top, es[1..], env)
  }

  function UsesOfDefs(top: Env, bindings: seq<RecBinding>, env: Env): seq<Use>
    decreases bindings
  {
    if bindings == [] then [] else UsesOfDef(top, bindings[0], env) + UsesOfDefs(top, bindings[1..], env)
  }

  function UsesOfDef(top: Env, binding: RecBinding, env: Env): seq<Use>
    decreases binding
  {
    Uses(top, binding.def, env)
  }

  function UsesOfArms(top: Env, arms: seq<Arm>, env: Env): seq<Use>
    decreases arms
  {
    if arms == [] then [] else UsesOfArm(top, arms[0], env) + UsesOfArms(top, arms[1..], env)
  }

  function UsesOfArm(top: Env, arm: Arm, env: Env): seq<Use>
    decreases arm
  {
    Uses(top, arm.body, Extend(env, arm.pattern))
  }

  // ---- what a pattern binds ------------------------------------------------------------------------------------------

  /** `s` is `p` or a part of it, however deep. */
  ghost predicate Subpattern(s: Pattern, p: Pattern)
    decreases p
  {
    s == p ||
    match p
    case Named(_, args) => exists i :: 0 <= i < |args| && Subpattern(s, args[i])
    case TuplePattern(elems) => exists i :: 0 <= i < |elems| && Subpattern(s, elems[i])
    case ListPattern(elems) => exists i :: 0 <= i < |elems| && Subpattern(s, elems[i])
    case ConsPattern(head, tail) => Subpattern(s, head) || Subpattern(s, tail)
    case DictPattern(_, fields) => exists i :: 0 <= i < |fields| && Subpattern(s, fields[i])
    case _ => false
  }

  /** A pattern binds exactly the variables in it. */
  lemma {:induction false} BindsItsVariables(p: Pattern, name: Name)
    ensures name in Bindings(p) <==> Subpattern(Variable(name), p)
    decreases p, 0
  {
    match p
    case Wildcard =>
    case Variable(_) =>
    case Named(_, args) => BindsVariablesOfAll(args, name);
    case TuplePattern(elems) => BindsVariablesOfAll(elems, name);
    case ListPattern(elems) => BindsVariablesOfAll(elems, name);
    case ConsPattern(head, tail) =>
      BindsItsVariables(head, name);
      BindsItsVariables(tail, name);
    case DictPattern(_, fields) => BindsVariablesOfAll(fields, name);
  }

  lemma {:induction false} BindsVariablesOfAll(ps: seq<Pattern>, name: Name)
    ensures name in BindingsOfAll(ps) <==> exists i :: 0 <= i < |ps| && Subpattern(Variable(name), ps[i])
    decreases ps
  {
    if ps != [] {
      BindsItsVariables(ps[0], name);
      BindsVariablesOfAll(ps[1..], name);
      assert forall i :: 0 <= i < |ps[1..]| ==> ps[1..][i] == ps[i + 1];
      if i :| 0 <= i < |ps| && Subpattern(Variable(name), ps[i]) {
        if i > 0 { assert ps[1..][i - 1] == ps[i]; }
      }
    }
  }

  // ---- scopes as environments ------------------------------------------------------------------------------------------

  function EnvOf(scope: Scope): Env
    decreases |scope|
  {
    if scope == [] then map[] else Bind(EnvOf(scope[..|scope| - 1]), scope[|scope| - 1])
  }

  lemma {:induction false} EnvOfNext(scope: Scope, name: Name)
    ensures EnvOf(scope + [name]) == Bind(EnvOf(scope), name)
  {
    assert (scope + [name])[..|scope|] == scope;
  }

  lemma {:induction false} EnvFindsInnermost(scope: Scope, text: string)
    ensures var local := Innermost(scope, text);
            if local.Some? then text in EnvOf(scope) && EnvOf(scope)[text] == scope[local.value].span else text !in EnvOf(scope)
    decreases |scope|
  {
    if scope != [] { EnvFindsInnermost(scope[..|scope| - 1], text); }
  }

  lemma {:induction false} EnvOfBindings(scope: Scope, p: Pattern)
    ensures EnvOf(scope + Bindings(p)) == Extend(EnvOf(scope), p)
    decreases p, 0
  {
    match p
    case Wildcard => assert scope + [] == scope;
    case Variable(name) => EnvOfNext(scope, name);
    case Named(_, args) => EnvOfAllBindings(scope, args);
    case TuplePattern(elems) => EnvOfAllBindings(scope, elems);
    case ListPattern(elems) => EnvOfAllBindings(scope, elems);
    case ConsPattern(head, tail) =>
      EnvOfBindings(scope, head);
      EnvOfBindings(scope + Bindings(head), tail);
      assert scope + (Bindings(head) + Bindings(tail)) == scope + Bindings(head) + Bindings(tail);
    case DictPattern(_, fields) => EnvOfAllBindings(scope, fields);
  }

  lemma {:induction false} ExtendFirst(env: Env, ps: seq<Pattern>)
    requires ps != []
    ensures BindingsOfAll(ps) == Bindings(ps[0]) + BindingsOfAll(ps[1..])
    ensures ExtendAll(env, ps) == ExtendAll(Extend(env, ps[0]), ps[1..])
  {
    hide Bindings, Extend;
  }

  lemma {:induction false} EnvOfAllBindings(scope: Scope, ps: seq<Pattern>)
    ensures EnvOf(scope + BindingsOfAll(ps)) == ExtendAll(EnvOf(scope), ps)
    decreases ps
  {
    if ps == [] {
      assert scope + [] == scope;
    } else {
      var first, rest := Bindings(ps[0]), BindingsOfAll(ps[1..]);
      ExtendFirst(EnvOf(scope), ps);
      hide *;
      EnvOfBindings(scope, ps[0]);
      EnvOfAllBindings(scope + first, ps[1..]);
      assert scope + (first + rest) == scope + first + rest;
    }
  }

  lemma {:induction false} EnvOfRec(scope: Scope, bindings: seq<RecBinding>)
    ensures EnvOf(scope + RecNames(bindings)) == ExtendRec(EnvOf(scope), bindings)
    decreases |bindings|
  {
    if bindings == [] {
      assert scope + [] == scope;
    } else {
      var name, rest := bindings[0].name, RecNames(bindings[1..]);
      EnvOfNext(scope, name);
      EnvOfRec(scope + [name], bindings[1..]);
      assert scope + ([name] + rest) == scope + [name] + rest;
    }
  }

  /** The uses of the parts one after another, each under what is bound on the way to it. */
  function UsesInAll(top: Env, children: seq<Child>, scope: Scope): seq<Use>
    decreases |children|
  {
    if children == [] then []
    else Uses(top, children[0].e, EnvOf(scope + children[0].locals)) + UsesInAll(top, children[1..], scope)
  }

  lemma {:induction false} UsesSplit(top: Env, a: seq<Child>, b: seq<Child>, scope: Scope)
    ensures UsesInAll(top, a + b, scope) == UsesInAll(top, a, scope) + UsesInAll(top, b, scope)
    decreases |a|
  {
    hide Uses;
    if a == [] {
      assert a + b == b;
    } else {
      assert (a + b)[1..] == a[1..] + b;
      UsesSplit(top, a[1..], b, scope);
    }
  }

  lemma {:induction false} UsesOfPlain(top: Env, es: seq<Expr>, scope: Scope)
    ensures UsesInAll(top, Plain(es), scope) == UsesOfAll(top, es, EnvOf(scope))
    decreases |es|
  {
    hide Uses;
    if es != [] {
      assert Plain(es)[1..] == Plain(es[1..]) && scope + [] == scope;
      UsesOfPlain(top, es[1..], scope);
    }
  }

  lemma {:induction false} UsesOfOne(top: Env, e: Expr, locals: seq<Name>, scope: Scope)
    ensures UsesInAll(top, [Child(e, locals)], scope) == Uses(top, e, EnvOf(scope + locals))
  {
    hide Uses;
    var children := [Child(e, locals)];
    assert children[1..] == [];
    assert UsesInAll(top, children[1..], scope) == [];
  }

  function DefChildren(bindings: seq<RecBinding>, locals: seq<Name>): (r: seq<Child>)
    ensures |r| == |bindings| && forall i :: 0 <= i < |r| ==> r[i] == Child(bindings[i].def, locals)
  {
    seq(|bindings|, i requires 0 <= i < |bindings| => Child(bindings[i].def, locals))
  }

  lemma {:induction false} UsesOfDefChildren(top: Env, bindings: seq<RecBinding>, locals: seq<Name>, scope: Scope)
    ensures UsesInAll(top, DefChildren(bindings, locals), scope) == UsesOfDefs(top, bindings, EnvOf(scope + locals))
    decreases |bindings|
  {
    hide Uses;
    if bindings != [] {
      assert DefChildren(bindings, locals)[1..] == DefChildren(bindings[1..], locals);
      UsesOfDefChildren(top, bindings[1..], locals, scope);
    }
  }

  function ArmChildren(arms: seq<Arm>): (r: seq<Child>)
    ensures |r| == |arms| && forall i :: 0 <= i < |r| ==> r[i] == Child(arms[i].body, Bindings(arms[i].pattern))
  {
    seq(|arms|, i requires 0 <= i < |arms| => Child(arms[i].body, Bindings(arms[i].pattern)))
  }

  lemma {:induction false} UsesOfArmChildren(top: Env, arms: seq<Arm>, scope: Scope)
    ensures UsesInAll(top, ArmChildren(arms), scope) == UsesOfArms(top, arms, EnvOf(scope))
    decreases |arms|
  {
    hide Uses, Bindings, Extend;
    if arms != [] {
      assert ArmChildren(arms)[1..] == ArmChildren(arms[1..]);
      EnvOfBindings(scope, arms[0].pattern);
      UsesOfArmChildren(top, arms[1..], scope);
    }
  }

  /** Passing scopes down to the parts is extending environments. */
  lemma {:induction false} UsesOfChildren(top: Env, e: Expr, scope: Scope)
    requires !e.Var?
    ensures Uses(top, e, EnvOf(scope)) == UsesInAll(top, Children(e), scope)
  {
    var env := EnvOf(scope);
    assert scope + [] == scope;
    match e
    case Literal(_) =>
    case Tuple(elems) => UsesOfPlain(top, elems, scope);
    case List(elems) => UsesOfPlain(top, elems, scope);
    case Dict(_, values) => UsesOfPlain(top, values, scope);
    case RecordUpdate(base, _, values) =>
      UsesSplit(top, [Child(base, [])], Plain(values), scope);
      UsesOfOne(top, base, [], scope);
      UsesOfPlain(top, values, scope);
    case App(fun, arg) => UsesOfTwo(top, e, Child(fun, []), Child(arg, []), scope);
    case Project(base, _) => UsesOfOne(top, base, [], scope);
    case Lam(param, body) =>
      UsesOfOne(top, body, [param], scope);
      EnvOfNext(scope, param);
    case Let(name, def, body) =>
      UsesOfTwo(top, e, Child(def, []), Child(body, [name]), scope);
      EnvOfNext(scope, name);
    case LetRec(bindings, body) => UsesOfLetRec(top, bindings, body, scope);
    case Ite(cond, positive, negative) => UsesOfIte(top, cond, positive, negative, scope);
    case Match(scrutinee, arms) =>
      assert Children(e) == [Child(scrutinee, [])] + ArmChildren(arms);
      UsesSplit(top, [Child(scrutinee, [])], ArmChildren(arms), scope);
      UsesOfOne(top, scrutinee, [], scope);
      UsesOfArmChildren(top, arms, scope);
    case Ann(inner, _) => UsesOfOne(top, inner, [], scope);
  }

  lemma {:induction false} UsesOfTwo(top: Env, e: Expr, a: Child, b: Child, scope: Scope)
    ensures UsesInAll(top, [a, b], scope) == Uses(top, a.e, EnvOf(scope + a.locals)) + Uses(top, b.e, EnvOf(scope + b.locals))
  {
    hide Uses;
    assert [a, b] == [a] + [b];
    UsesSplit(top, [a], [b], scope);
    UsesOfOne(top, a.e, a.locals, scope);
    UsesOfOne(top, b.e, b.locals, scope);
  }

  lemma {:induction false} UsesOfIte(top: Env, cond: Expr, positive: Expr, negative: Expr, scope: Scope)
    ensures Uses(top, Ite(cond, positive, negative), EnvOf(scope)) == UsesInAll(top, Children(Ite(cond, positive, negative)), scope)
  {
    var a, b, c := Child(cond, []), Child(positive, []), Child(negative, []);
    assert Children(Ite(cond, positive, negative)) == [a, b] + [c] && scope + [] == scope;
    UsesSplit(top, [a, b], [c], scope);
    UsesOfTwo(top, cond, a, b, scope);
    UsesOfOne(top, negative, [], scope);
  }

  lemma {:induction false} UsesOfLetRec(top: Env, bindings: seq<RecBinding>, body: Expr, scope: Scope)
    ensures Uses(top, LetRec(bindings, body), EnvOf(scope)) == UsesInAll(top, Children(LetRec(bindings, body)), scope)
  {
    var locals := RecNames(bindings);
    var defs, last := DefChildren(bindings, locals), [Child(body, locals)];
    assert Children(LetRec(bindings, body)) == defs + last;
    EnvOfRec(scope, bindings);
    UsesSplit(top, defs, last, scope);
    UsesOfDefChildren(top, bindings, locals, scope);
    UsesOfOne(top, body, locals, scope);
  }

  // ---- the references reported are the variables whose value comes from the target -------------------------------------

  predicate ComesFrom(q: Query, use: Use) {
    use.name.text == q.ident && (use.origin == Bound(q.target) || use.origin == Defined(q.target))
  }

  function Reported(q: Query, uses: seq<Use>): seq<Span> {
    if uses == [] then []
    else (if ComesFrom(q, uses[0]) then [uses[0].name.span] else []) + Reported(q, uses[1..])
  }

  lemma {:induction false} ReportedSplit(q: Query, a: seq<Use>, b: seq<Use>)
    ensures Reported(q, a + b) == Reported(q, a) + Reported(q, b)
    decreases |a|
  {
    if a == [] {
      assert a + b == b;
    } else {
      assert (a + b)[1..] == a[1..] + b;
      ReportedSplit(q, a[1..], b);
    }
  }

  /** The collector reports, in the order of the source, exactly the variables of that name whose value comes from the target. */
  lemma {:induction false} ReferencesComeFromTarget(q: Query, e: Expr, scope: Scope)
    ensures References(q, e, scope) == Reported(q, Uses(q.top, e, EnvOf(scope)))
    decreases e, 1
  {
    if e.Var? {
      EnvFindsInnermost(scope, e.name.text);
      var use := Use(e.name, OriginOf(q.top, EnvOf(scope), e.name.text));
      assert Uses(q.top, e, EnvOf(scope)) == [use] && [use][1..] == [];
      assert Reported(q, [use]) == if ComesFrom(q, use) then [e.name.span] else [];
    } else {
      UsesOfChildren(q.top, e, scope);
      AllComeFromTarget(q, e, Children(e), scope);
    }
  }

  lemma {:induction false} AllComeFromTarget(q: Query, parent: Expr, children: seq<Child>, scope: Scope)
    requires forall i :: 0 <= i < |children| ==> children[i].e < parent
    ensures ReferencesInAll(q, parent, children, scope) == Reported(q, UsesInAll(q.top, children, scope))
    decreases parent, 0, |children|
  {
    hide Uses, References;
    if children != [] {
      var first := children[0];
      ReferencesComeFromTarget(q, first.e, scope + first.locals);
      AllComeFromTarget(q, parent, children[1..], scope);
      ReportedSplit(q, Uses(q.top, first.e, EnvOf(scope + first.locals)), UsesInAll(q.top, children[1..], scope));
    }
  }

  /** So for the whole program. */
  lemma {:induction false} CollectedAreUses(q: Query, e: Expr)
    ensures References(q, e, []) == Reported(q, Uses(q.top, e, map[]))
  {
    ReferencesComeFromTarget(q, e, []);
  }

  // ---- a safe rename leaves every value where it comes from ------------------------------------------------------------

  /** The same variables with the same origins, whatever they are called. */
  predicate SameOrigins(us: seq<Use>, vs: seq<Use>) {
    |us| == |vs| && forall i :: 0 <= i < |us| ==> us[i].name.span == vs[i].name.span && us[i].origin == vs[i].origin
  }

  lemma {:induction false} SameOriginsSplit(a: seq<Use>, b: seq<Use>, c: seq<Use>, d: seq<Use>)
    requires |a| == |b|
    ensures SameOrigins(a + c, b + d) <==> SameOrigins(a, b) && SameOrigins(c, d)
  {
    var u, v, n := a + c, b + d, |a|;
    if |c| == |d| {
      forall i | 0 <= i < |u| ensures u[i] == (if i < n then a[i] else c[i - n]) && v[i] == (if i < n then b[i] else d[i - n]) {}
      if SameOrigins(u, v) {
        forall i | 0 <= i < n ensures a[i].name.span == b[i].name.span && a[i].origin == b[i].origin { assert u[i] == a[i]; }
        forall i | 0 <= i < |c| ensures c[i].name.span == d[i].name.span && c[i].origin == d[i].origin { assert u[n + i] == c[i]; }
      }
    }
  }

  ghost predicate SpansAlike(s: Scope, s': Scope) {
    |s| == |s'| && forall i :: 0 <= i < |s| ==> s[i].span == s'[i].span
  }

  /** Where binders have spans of their own, distance and span say the same. */
  lemma {:induction false} SameReferent(top: Env, top': Env, s: Scope, s': Scope, text: string, text': string)
    requires SpansAlike(s, s') && SpansDiffer(s)
    ensures ReferentOf(top, s, text) == ReferentOf(top', s', text') <==> OriginOf(top, EnvOf(s), text) == OriginOf(top', EnvOf(s'), text')
  {
    EnvFindsInnermost(s, text);
    EnvFindsInnermost(s', text');
    hide EnvOf, Innermost;
    var a, b := Innermost(s, text), Innermost(s', text');
    if a.Some? && b.Some? && a.value != b.value {
      var low, high := if a.value < b.value then a.value else b.value, if a.value < b.value then b.value else a.value;
      assert s[low].span != s[high].span;
    }
  }

  /** Renaming changes no span and no number of variables. */
  lemma {:induction false} AsManyUses(top: Env, top': Env, e: Expr, scope: Scope, scope': Scope, marks: set<Span>, text: string)
    ensures |Uses(top', Rename(e, marks, text), EnvOf(scope'))| == |Uses(top, e, EnvOf(scope))|
    decreases e, 1
  {
    if e.Var? {
    } else {
      UsesOfChildren(top, e, scope);
      UsesOfChildren(top', Rename(e, marks, text), scope');
      RenameChildren(e, marks, text);
      AsManyUsesOfAll(top, top', e, Children(e), Children(Rename(e, marks, text)), scope, scope', marks, text);
    }
  }

  lemma {:induction false} AsManyUsesOfAll(top: Env, top': Env, parent: Expr, children: seq<Child>, after: seq<Child>,
                                           scope: Scope, scope': Scope, marks: set<Span>, text: string)
    requires |after| == |children| && forall i :: 0 <= i < |children| ==>
               children[i].e < parent && after[i].e == Rename(children[i].e, marks, text)
    ensures |UsesInAll(top', after, scope')| == |UsesInAll(top, children, scope)|
    decreases parent, 0, |children|
  {
    hide Uses, Rename;
    if children != [] {
      AsManyUses(top, top', children[0].e, scope + children[0].locals, scope' + after[0].locals, marks, text);
      AsManyUsesOfAll(top, top', parent, children[1..], after[1..], scope, scope', marks, text);
    }
  }

  /** The origins of an expression's variables before and after. */
  ghost predicate KeepsOrigins(q: Query, e: Expr, scope: Scope, marks: set<Span>, text: string, wins: bool) {
    SameOrigins(Uses(RenamedTop(q, text, wins), Rename(e, marks, text), EnvOf(RenameNames(scope, marks, text))),
                Uses(q.top, e, EnvOf(scope)))
  }

  /** In every pattern the keys are the same and the constructors are still found. */
  ghost predicate AllPatternsKept(q: Query, e: Expr, text: string, wins: bool)
    decreases e
  {
    !e.Var? ==>
      PatternsKept(q, e, text, wins) && forall i :: 0 <= i < |Children(e)| ==> AllPatternsKept(q, Children(e)[i].e, text, wins)
  }

  lemma {:induction false} KeepsOriginsOfAll(q: Query, parent: Expr, children: seq<Child>, after: seq<Child>, scope: Scope,
                                             marks: set<Span>, text: string, wins: bool)
    requires |after| == |children| && forall i :: 0 <= i < |children| ==>
               children[i].e < parent
               && after[i] == Child(Rename(children[i].e, marks, text), RenameNames(children[i].locals, marks, text))
    ensures SameOrigins(UsesInAll(RenamedTop(q, text, wins), after, RenameNames(scope, marks, text)), UsesInAll(q.top, children, scope))
            <==> forall i :: 0 <= i < |children| ==> KeepsOrigins(q, children[i].e, scope + children[i].locals, marks, text, wins)
    decreases |children|
  {
    hide Uses, Rename, RenameNames, RenamedTop, SameOrigins;
    var top, renamed := RenamedTop(q, text, wins), RenameNames(scope, marks, text);
    if children == [] {
      assert SameOrigins([], []) by { SameOriginsEmpty(); }
    } else {
      var first, first', inner := children[0], after[0], scope + children[0].locals;
      RenameAppend(scope, first.locals, marks, text);
      AsManyUses(q.top, top, first.e, inner, renamed + first'.locals, marks, text);
      SameOriginsSplit(Uses(top, first'.e, EnvOf(renamed + first'.locals)), Uses(q.top, first.e, EnvOf(inner)),
                       UsesInAll(top, after[1..], renamed), UsesInAll(q.top, children[1..], scope));
      KeepsOriginsOfAll(q, parent, children[1..], after[1..], scope, marks, text, wins);
      assert KeepsOrigins(q, first.e, inner, marks, text, wins) <==>
             SameOrigins(Uses(top, first'.e, EnvOf(renamed + first'.locals)), Uses(q.top, first.e, EnvOf(inner)));
      FirstAndRest(children, (c: Child) => KeepsOrigins(q, c.e, scope + c.locals, marks, text, wins));
    }
  }

  lemma {:induction false} SameOriginsEmpty()
    ensures SameOrigins([], [])
  {
  }

  lemma {:induction false} FirstAndRest(children: seq<Child>, p: Child -> bool)
    requires children != []
    ensures (forall i :: 0 <= i < |children| ==> p(children[i])) <==>
            p(children[0]) && forall i :: 0 <= i < |children[1..]| ==> p(children[1..][i])
  {
    assert forall i :: 0 <= i < |children[1..]| ==> children[1..][i] == children[i + 1];
    if p(children[0]) && forall i :: 0 <= i < |children[1..]| ==> p(children[1..][i]) {
      forall i | 0 <= i < |children| ensures p(children[i]) { if i > 0 { assert children[1..][i - 1] == children[i]; } }
    }
  }

  lemma {:induction false} KeepsOriginsOfParts(q: Query, e: Expr, scope: Scope, marks: set<Span>, text: string, wins: bool)
    requires !e.Var?
    ensures KeepsOrigins(q, e, scope, marks, text, wins) <==>
            forall i :: 0 <= i < |Children(e)| ==>
              KeepsOrigins(q, Children(e)[i].e, scope + Children(e)[i].locals, marks, text, wins)
  {
    var top, renamed := RenamedTop(q, text, wins), RenameNames(scope, marks, text);
    StaysAForm(e, marks, text);
    RenameChildren(e, marks, text);
    hide Uses, Rename, RenameNames, RenamedTop, SameOrigins, Children;
    UsesOfChildren(q.top, e, scope);
    UsesOfChildren(top, Rename(e, marks, text), renamed);
    KeepsOriginsOfAll(q, e, Children(e), Children(Rename(e, marks, text)), scope, marks, text, wins);
  }

  lemma {:induction false} OneUse(u: Use, v: Use)
    ensures SameOrigins([u], [v]) <==> u.name.span == v.name.span && u.origin == v.origin
  {
    assert [u][0] == u && [v][0] == v;
  }

  lemma {:induction false} VariableForms(q: Query, e: Expr, scope: Scope, marks: set<Span>, text: string, wins: bool)
    requires e.Var? && SpansDiffer(scope)
    ensures KeepsForm(q, e, scope, marks, text, wins) <==> KeepsOrigins(q, e, scope, marks, text, wins)
  {
    var top, renamed, name := RenamedTop(q, text, wins), RenameNames(scope, marks, text), RenameName(e.name, marks, text);
    assert SpansAlike(renamed, scope) && SpansDiffer(renamed);
    var env, env' := EnvOf(scope), EnvOf(renamed);
    assert Rename(e, marks, text) == Var(name) && name.span == e.name.span;
    assert Uses(q.top, e, env) == [Use(e.name, OriginOf(q.top, env, e.name.text))];
    assert Uses(top, Var(name), env') == [Use(name, OriginOf(top, env', name.text))];
    assert NamelessOf(top, Var(name), renamed) == Reference(ReferentOf(top, renamed, name.text));
    assert NamelessOf(q.top, e, scope) == Reference(ReferentOf(q.top, scope, e.name.text));
    OneUse(Use(name, OriginOf(top, env', name.text)), Use(e.name, OriginOf(q.top, env, e.name.text)));
    hide RenamedTop, ReferentOf, OriginOf, EnvOf, Uses, Rename, RenameNames, SameOrigins;
    SameReferent(top, q.top, renamed, scope, name.text, e.name.text);
  }

  /** The nameless form is kept exactly if every variable keeps its origin and every pattern what it says. */
  lemma {:induction false} FormsAreOrigins(q: Query, e: Expr, scope: Scope, marks: set<Span>, text: string, wins: bool)
    requires TopOk(q) && KeysOk(q, e, marks) && SpansDiffer(scope) && BindersApart(e, scope)
    ensures KeepsForm(q, e, scope, marks, text, wins) <==>
            AllPatternsKept(q, e, text, wins) && KeepsOrigins(q, e, scope, marks, text, wins)
    decreases e
  {
    hide Children, KeepsForm, KeepsOrigins, PatternsKept, TopOk, Patterns, NameOk, SpansDiffer;
    if e.Var? {
      VariableForms(q, e, scope, marks, text, wins);
    } else {
      KeepsFormOfParts(q, e, scope, marks, text, wins);
      KeepsOriginsOfParts(q, e, scope, marks, text, wins);
      var children := Children(e);
      forall i | 0 <= i < |children|
        ensures KeepsForm(q, children[i].e, scope + children[i].locals, marks, text, wins) <==>
                AllPatternsKept(q, children[i].e, text, wins)
                && KeepsOrigins(q, children[i].e, scope + children[i].locals, marks, text, wins)
      {
        FormsAreOrigins(q, children[i].e, scope + children[i].locals, marks, text, wins);
      }
    }
  }

  /** A new name is safe exactly if the edits leave every variable with the value it had and every pattern with its keys and constructors. */
  lemma {:induction false} SafeKeepsValues(q: Query, e: Expr, text: string, wins: bool)
    requires Located(q, e)
    ensures Safe(q, e, [], text, wins) <==>
            AllPatternsKept(q, e, text, wins)
            && SameOrigins(Uses(RenamedTop(q, text, wins), Rename(e, EditSet(q, e), text), map[]), Uses(q.top, e, map[]))
  {
    EditsOneBinder(q, e);
    assert KeysOk(q, e, EditSet(q, e)) by { hide EditSet; KeysAreOk(q, e, EditSet(q, e)); }
    assert SpansDiffer([]) && RenameNames([], EditSet(q, e), text) == [] && EnvOf([]) == map[];
    hide Safe, AllPatternsKept, SameOrigins, Uses, Rename, RenamedTop, KeysOk, EnvOf, RenameNames, SpansDiffer, EditSet;
    RenameIsAlpha(q, e, text, wins);
    FormsAreOrigins(q, e, [], EditSet(q, e), text, wins);
  }
}

/**
  Which new names a rename may be given, and inputs on which the edits go wrong
  (rex-lsp/src/navigation.rs:289-367; rex-lsp/src/shared.rs:429-438).
 */
module NewNames {
  import opened Pegs
  import opened Scoping
  import opened Renaming

  // ---- names used nowhere ----------------------------------------------------------------------------------------

  ghost predicate KeyAtTarget(q: Query, e: Expr) { exists key :: key in Keys(e) && key.span == q.target }

  /** Where the target is bound other than by a variable alone: by a key of a pattern, or as a constructor that patterns name. */
  ghost predicate InPatterns(q: Query, e: Expr) {
    KeyAtTarget(q, e) || (IsTopLevel(q) && q.ident in Constructors(e))
  }

  ghost predicate Fresh(q: Query, e: Expr, text: string) {
    && text !in q.top && text != q.ident && text !in Constructors(e)
    && (forall b :: b in Binders(e) ==> b.text != text) && (forall v :: v in Variables(e) ==> v.text != text)
  }

  lemma {:induction false} FreshPart(q: Query, e: Expr, text: string, i: nat)
    requires Fresh(q, e, text) && !e.Var? && i < |Children(e)|
    ensures Fresh(q, Children(e)[i].e, text) && forall b :: b in Children(e)[i].locals ==> b.text != text
  {
    hide Children, Patterns;
    var part := Children(e)[i];
    forall b | b in Binders(part.e) || b in part.locals ensures b in Binders(e) {}
    forall v | v in Variables(part.e) ensures v in Variables(e) {}
    forall c | c in Constructors(part.e) ensures c in Constructors(e) {}
  }

  lemma {:induction false} FreshConstructors(q: Query, e: Expr, text: string)
    requires Fresh(q, e, text)
    ensures text != q.ident && text !in q.top && forall c :: c in ConstructorsOfAll(Patterns(e)) ==> c != text
  {
    hide Children, Patterns;
  }

  lemma {:induction false} KeyOfWhole(q: Query, e: Expr, key: Name)
    requires key in KeysOfAll(Patterns(e)) && key.span == q.target
    ensures KeyAtTarget(q, e)
  {
    hide Children, Patterns;
    assert key in Keys(e);
  }

  lemma {:induction false} KeyOfPart(q: Query, e: Expr, i: nat)
    requires i < |Children(e)| && KeyAtTarget(q, Children(e)[i].e)
    ensures KeyAtTarget(q, e)
  {
    hide Children, Patterns;
    var key :| key in Keys(Children(e)[i].e) && key.span == q.target;
    assert key in Keys(e);
  }

  lemma {:induction false} KeyOfSome(q: Query, e: Expr)
    requires KeyAtTarget(q, e)
    ensures (exists key :: key in KeysOfAll(Patterns(e)) && key.span == q.target)
            || exists i :: 0 <= i < |Children(e)| && KeyAtTarget(q, Children(e)[i].e)
  {
    hide Children, Patterns;
    var key :| key in Keys(e) && key.span == q.target;
    if key !in KeysOfAll(Patterns(e)) {
      var i :| 0 <= i < |Children(e)| && key in Keys(Children(e)[i].e);
      assert KeyAtTarget(q, Children(e)[i].e);
    }
  }

  lemma {:induction false} KeyOfParts(q: Query, e: Expr)
    ensures KeyAtTarget(q, e) <==>
            (exists key :: key in KeysOfAll(Patterns(e)) && key.span == q.target)
            || exists i :: 0 <= i < |Children(e)| && KeyAtTarget(q, Children(e)[i].e)
  {
    hide *;
    if KeyAtTarget(q, e) { KeyOfSome(q, e); }
    if i :| 0 <= i < |Children(e)| && KeyAtTarget(q, Children(e)[i].e) { KeyOfPart(q, e, i); }
    if key :| key in KeysOfAll(Patterns(e)) && key.span == q.target { KeyOfWhole(q, e, key); }
  }

  lemma {:induction false} ConstructorOfParts(q: Query, e: Expr)
    ensures q.ident in Constructors(e) <==>
            q.ident in ConstructorsOfAll(Patterns(e))
            || exists i :: 0 <= i < |Children(e)| && q.ident in Constructors(Children(e)[i].e)
  {
    hide Children, Patterns;
  }

  lemma {:induction false} FreshPatterns(q: Query, e: Expr, text: string, wins: bool)
    requires Fresh(q, e, text) && !e.Var?
    ensures InPatterns(q, e) <==>
            !PatternsKept(q, e, text, wins) || exists i :: 0 <= i < |Children(e)| && InPatterns(q, Children(e)[i].e)
  {
    hide Children, Patterns, Fresh, Keys, Constructors, IsTopLevel;
    FreshConstructors(q, e, text);
    KeyOfParts(q, e);
    ConstructorOfParts(q, e);
    if i :| 0 <= i < |Children(e)| && InPatterns(q, Children(e)[i].e) {
      assert KeyAtTarget(q, Children(e)[i].e) || (IsTopLevel(q) && q.ident in Constructors(Children(e)[i].e));
    }
  }

  lemma {:induction false} FreshIsSafe(q: Query, e: Expr, scope: Scope, text: string, wins: bool)
    requires Fresh(q, e, text) && forall i :: 0 <= i < |scope| ==> scope[i].text != text
    ensures Safe(q, e, scope, text, wins) <==> !InPatterns(q, e)
    decreases e
  {
    if e.Var? {
      assert Children(e) == [] && Patterns(e) == [];
    } else {
      hide Children, Patterns, PatternsKept, Fresh, InPatterns;
      var children := Children(e);
      FreshPatterns(q, e, text, wins);
      forall i | 0 <= i < |children|
        ensures Safe(q, children[i].e, scope + children[i].locals, text, wins) <==> !InPatterns(q, children[i].e)
      {
        FreshPart(q, e, text, i);
        var inner := scope + children[i].locals;
        forall j | 0 <= j < |inner| ensures inner[j].text != text {
          if j >= |scope| { assert inner[j] in children[i].locals; }
        }
        FreshIsSafe(q, children[i].e, inner, text, wins);
      }
    }
  }

  /** A name that is used nowhere is safe exactly if the target is not in patterns otherwise than as a variable. */
  lemma {:induction false} FreshNames(q: Query, e: Expr, text: string, wins: bool)
    requires Located(q, e) && Fresh(q, e, text)
    ensures KeepsForm(q, e, [], EditSet(q, e), text, wins) <==> !InPatterns(q, e)
  {
    hide *;
    FreshIsSafe(q, e, [], text, wins);
    RenameIsAlpha(q, e, text, wins);
  }

  // ---- a name that captures ----------------------------------------------------------------------------------------

  lemma {:induction false} OneChild(param: Name, body: Expr)
    ensures var children := Children(Lam(param, body));
            |children| == 1 && children[0] == Child(body, [param]) && children[1..] == []
  {
  }

  lemma {:induction false} LamVariables(param: Name, body: Expr)
    ensures Variables(Lam(param, body)) == Variables(body) && VariablesApart(Lam(param, body)) == VariablesApart(body)
    ensures Keys(Lam(param, body)) == Keys(body)
  {
    OneChild(param, body);
    assert Patterns(Lam(param, body)) == [];
    hide Children, Patterns;
  }

  lemma {:induction false} LamBinders(param: Name, body: Expr)
    ensures Binders(Lam(param, body)) == {param} + Binders(body)
  {
    OneChild(param, body);
    hide Children;
    var e := Lam(param, body);
    forall b ensures b in Binders(e) <==> b == param || b in Binders(body) {
      if b == param { assert b in Children(e)[0].locals; }
    }
  }

  lemma {:induction false} LamApart(param: Name, body: Expr, scope: Scope)
    requires SpansDiffer(scope + [param]) && BindersApart(body, scope + [param])
    ensures BindersApart(Lam(param, body), scope)
  {
    OneChild(param, body);
    hide Children;
  }

  lemma {:induction false} LamReferences(q: Query, param: Name, body: Expr, scope: Scope)
    ensures References(q, Lam(param, body), scope) == References(q, body, scope + [param])
  {
    OneChild(param, body);
    hide Children;
    var e, found := Lam(param, body), References(q, body, scope + [param]);
    var children := Children(e);
    assert References(q, e, scope) == ReferencesInAll(q, e, children, scope);
    assert children == [children[0]];
    var rest := ReferencesInAll(q, e, children[1..], scope);
    assert ReferencesInAll(q, e, children, scope) == References(q, children[0].e, scope + children[0].locals) + rest;
    assert ReferencesInAll(q, e, children, scope) == found + ReferencesInAll(q, e, children[1..], scope);
    assert ReferencesInAll(q, e, children[1..], scope) == [];
    assert found + [] == found;
  }

  lemma {:induction false} CapturedInLam(q: Query, param: Name, body: Expr, scope: Scope, text: string, wins: bool)
    requires !Safe(q, body, scope + [param], text, wins)
    ensures !Safe(q, Lam(param, body), scope, text, wins)
  {
    OneChild(param, body);
    hide Children;
    assert Children(Lam(param, body))[0].e == body;
  }

  lemma {:induction false} OneDiffers(x: Name)
    ensures SpansDiffer([x])
  {
  }

  lemma {:induction false} LeafOfTwo(q: Query, x: Name, y: Name, x': Name)
    requires q == Query("x", x.span, map[]) && x.text == x'.text == "x" && y.text == "y" && x.span != y.span
    ensures var leaf, scope := Var(x'), [x] + [y];
            && Variables(leaf) == {x'} && Binders(leaf) == {} == Keys(leaf) && VariablesApart(leaf) && BindersApart(leaf, scope)
            && Refers(q, scope, x') && References(q, leaf, scope) == [x'.span]
            && SpansDiffer(scope)
  {
    var leaf, scope := Var(x'), [x] + [y];
    assert Children(leaf) == [] && Patterns(leaf) == [];
    hide Children, Patterns;
    InnermostIs(scope, "x", 0);
    hide Innermost;
    assert scope[0] == x && scope[1] == y;
  }

  lemma {:induction false} LocatedPair(q: Query, e: Expr, x: Name, y: Name, x': Name)
    requires Variables(e) == {x'} && Binders(e) == {x, y} && Keys(e) == {} && VariablesApart(e) && BindersApart(e, [])
    requires q == Query("x", x.span, map[]) && x.text == "x" && References(q, e, []) == [x'.span]
    requires x.span != y.span && y.span != x'.span && x'.span != x.span
    ensures Located(q, e) && EditSet(q, e) == {x.span, x'.span}
  {
    hide Variables, Binders, Keys, VariablesApart, BindersApart, References;
  }

  lemma {:induction false} TwoBinders(q: Query, x: Name, y: Name, x': Name)
    requires q == Query("x", x.span, map[])
    requires x.text == x'.text == "x" && y.text == "y" && x.span != y.span && y.span != x'.span && x'.span != x.span
    ensures var e := Lam(x, Lam(y, Var(x')));
            Located(q, e) && EditSet(q, e) == {x.span, x'.span} && Refers(q, [x] + [y], x')
  {
    var leaf, inner := Var(x'), Lam(y, Var(x'));
    var e := Lam(x, inner);
    var one, two := [x], [x] + [y];
    assert [] + [x] == one;
    hide *;
    LeafOfTwo(q, x, y, x');
    LamVariables(y, leaf);
    LamVariables(x, inner);
    LamBinders(y, leaf);
    LamBinders(x, inner);
    LamApart(y, leaf, one);
    LamApart(x, inner, []) by { OneDiffers(x); }
    assert {x} + ({y} + {}) == {x, y};
    LamReferences(q, y, leaf, one);
    LamReferences(q, x, inner, []);
    LocatedPair(q, e, x, y, x');
  }

  /** `x` renamed to `y` in `\x -> \y -> x` gives `\y -> \y -> y`: the reference is captured. */
  lemma {:induction false} RenameCaptures(x: Name, y: Name, x': Name, wins: bool)
    requires x.text == x'.text == "x" && y.text == "y" && x.span != y.span && y.span != x'.span && x'.span != x.span
    ensures var q, e := Query("x", x.span, map[]), Lam(x, Lam(y, Var(x')));
            && Located(q, e)
            && Rename(e, EditSet(q, e), "y") == Lam(Name("y", x.span), Lam(y, Var(Name("y", x'.span))))
            && !KeepsForm(q, e, [], EditSet(q, e), "y", wins)
  {
    var q, leaf, inner := Query("x", x.span, map[]), Var(x'), Lam(y, Var(x'));
    var e := Lam(x, inner);
    assert EditSet(q, e) == {x.span, x'.span} && Located(q, e) && Refers(q, [x] + [y], x') by {
      TwoBinders(q, x, y, x');
      hide *;
    }
    assert Rename(inner, {x.span, x'.span}, "y") == Lam(y, Var(Name("y", x'.span)));
    assert !UncapturedAt(q, [x] + [y], x', "y", wins) by { assert ([x] + [y])[1] == y; }
    assert !Safe(q, leaf, [x] + [y], "y", wins);
    assert [] + [x] == [x];
    hide *;
    CapturedInLam(q, y, leaf, [x], "y", wins);
    CapturedInLam(q, x, inner, [], "y", wins);
    RenameIsAlpha(q, e, "y", wins);
  }

  // ---- targets that patterns mention -------------------------------------------------------------------------------

  function OneArm(p: Pattern): Expr { Match(Literal("0"), [Arm(p, Literal("1"))]) }

  lemma {:induction false} OnePattern(p: Pattern)
    ensures KeysOfAll([p]) == PatternKeys(p) && ConstructorsOfAll([p]) == PatternConstructors(p)
  {
    var ps, keys, constructors := [p], PatternKeys(p), PatternConstructors(p);
    assert ps[0] == p && ps[1..] == [];
    assert KeysOfAll([]) == [] && ConstructorsOfAll([]) == [];
    assert KeysOfAll(ps) == PatternKeys(ps[0]) + KeysOfAll(ps[1..]);
    assert ConstructorsOfAll(ps) == PatternConstructors(ps[0]) + ConstructorsOfAll(ps[1..]);
    assert keys + [] == keys && constructors + [] == constructors;
  }

  lemma {:induction false} ArmParts(p: Pattern)
    ensures var e, children := OneArm(p), Children(OneArm(p));
            && |children| == 2 && children[0] == Child(Literal("0"), []) && children[1] == Child(Literal("1"), Bindings(p))
            && KeysOfAll(Patterns(e)) == PatternKeys(p) && ConstructorsOfAll(Patterns(e)) == PatternConstructors(p)
  {
    assert Patterns(OneArm(p)) == [p];
    OnePattern(p);
  }

  lemma {:induction false} LiteralSets(text: string)
    ensures var e := Literal(text);
            Variables(e) == {} == Binders(e) && Keys(e) == {} && VariablesApart(e)
  {
    assert Children(Literal(text)) == [] && Patterns(Literal(text)) == [];
  }

  lemma {:induction false} ArmVariables(p: Pattern)
    ensures Variables(OneArm(p)) == {} && VariablesApart(OneArm(p))
  {
    ArmParts(p);
    LiteralSets("0");
    LiteralSets("1");
    hide Children;
  }

  lemma {:induction false} ArmBinders(p: Pattern)
    ensures Binders(OneArm(p)) == (set b | b in Bindings(p)) && Keys(OneArm(p)) == (set key | key in PatternKeys(p))
  {
    ArmParts(p);
    LiteralSets("0");
    LiteralSets("1");
    hide Children, Patterns;
  }

  lemma {:induction false} ArmApart(p: Pattern)
    requires SpansDiffer(Bindings(p))
    ensures BindersApart(OneArm(p), [])
  {
    ArmParts(p);
    assert BindersApart(Literal("0"), []) && BindersApart(Literal("1"), Bindings(p)) && SpansDiffer([]);
    var none: Scope := [];
    assert none + Bindings(p) == Bindings(p) && none + none == none;
    hide Children, Bindings, SpansDiffer;
  }

  lemma {:induction false} ArmReferences(q: Query, p: Pattern)
    ensures References(q, OneArm(p), []) == []
  {
    ArmVariables(p);
    hide *;
    if References(q, OneArm(p), []) != [] {
      ReferencesAreVariables(q, OneArm(p), [], References(q, OneArm(p), [])[0]);
    }
  }

  lemma {:induction false} ArmIsLocated(q: Query, p: Pattern)
    requires TopOk(q) && SpansDiffer(Bindings(p))
    requires forall b :: (b in Bindings(p) || b in PatternKeys(p)) && b.span == q.target ==> b.text == q.ident
    ensures Located(q, OneArm(p)) && EditSet(q, OneArm(p)) == {q.target}
  {
    ArmVariables(p);
    ArmBinders(p);
    ArmApart(p);
    ArmReferences(q, p);
    hide Variables, VariablesApart, Binders, BindersApart, Keys, References, TopOk;
  }

  lemma {:induction false} UnsafeArm(q: Query, p: Pattern, text: string, wins: bool)
    requires text != q.ident
    requires (exists key :: key in PatternKeys(p) && key.span == q.target) || (IsTopLevel(q) && q.ident in PatternConstructors(p))
    ensures !Safe(q, OneArm(p), [], text, wins)
  {
    ArmParts(p);
    hide Children, Patterns;
  }

  /** A constructor renamed is not renamed in patterns: `match e with C -> ..` no longer finds it. */
  lemma {:induction false} ConstructorIsLost(span: Span, text: string, wins: bool)
    requires text != "C"
    ensures var q, e := Query("C", span, map["C" := span]), OneArm(Named("C", []));
            Located(q, e) && EditSet(q, e) == {span} && !KeepsForm(q, e, [], EditSet(q, e), text, wins)
  {
    var q, p := Query("C", span, map["C" := span]), Named("C", []);
    assert BindingsOfAll([]) == [] && KeysOfAll([]) == [] && ConstructorsOfAll([]) == [];
    assert Bindings(p) == [] && PatternKeys(p) == [];
    assert PatternConstructors(p) == ["C"] + [] == ["C"];
    assert TopOk(q);
    hide *;
    ArmIsLocated(q, p) by { assert SpansDiffer([]); }
    UnsafeArm(q, p, text, wins);
    RenameIsAlpha(q, OneArm(p), text, wins);
  }

  lemma {:induction false} OneKey(x: Name)
    ensures var p := DictPattern([x], [Variable(x)]);
            Bindings(p) == [x] && PatternKeys(p) == [x]
  {
    var fields := [Variable(x)];
    assert fields[0] == Variable(x) && fields[1..] == [];
    assert BindingsOfAll([]) == [] && KeysOfAll([]) == [] && PatternKeys(Variable(x)) == [];
    assert BindingsOfAll(fields) == Bindings(fields[0]) + BindingsOfAll(fields[1..]);
    assert KeysOfAll(fields) == PatternKeys(fields[0]) + KeysOfAll(fields[1..]) == [];
    assert PatternKeys(DictPattern([x], fields)) == [x] + KeysOfAll(fields);
  }

  /** A field written as its key alone has the key renamed with the variable: `{x}` matches another field then. */
  lemma {:induction false} KeyIsRenamed(x: Name, text: string, wins: bool)
    requires text != x.text
    ensures var q, e := Query(x.text, x.span, map[]), OneArm(DictPattern([x], [Variable(x)]));
            Located(q, e) && EditSet(q, e) == {x.span} && !KeepsForm(q, e, [], EditSet(q, e), text, wins)
  {
    var q, p := Query(x.text, x.span, map[]), DictPattern([x], [Variable(x)]);
    OneKey(x);
    assert TopOk(q);
    hide *;
    OneDiffers(x);
    ArmIsLocated(q, p);
    UnsafeArm(q, p, text, wins);
    RenameIsAlpha(q, OneArm(p), text, wins);
  }
}

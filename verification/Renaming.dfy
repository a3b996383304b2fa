/**
  Renaming a binder and the references to it, against the nameless form of the expression
  (rex-lsp/src/navigation.rs:289-367).
 */
module Renaming {
  import opened Wrappers
  import opened Pegs
  import opened Scoping

  // ---- renaming at marked spans -----------------------------------------------------------------------------

  function RenameName(name: Name, marks: set<Span>, text: string): Name {
    if name.span in marks then Name(text, name.span) else name
  }

  function RenameNames(names: seq<Name>, marks: set<Span>, text: string): (r: seq<Name>)
    ensures |r| == |names| && forall i :: 0 <= i < |r| ==> r[i] == RenameName(names[i], marks, text)
  {
    seq(|names|, i requires 0 <= i < |names| => RenameName(names[i], marks, text))
  }

  function RenamePattern(p: Pattern, marks: set<Span>, text: string): Pattern {
    match p
    case Wildcard => p
    case Variable(name) => Variable(RenameName(name, marks, text))
    case Named(variant, args) => Named(variant, RenamePatterns(args, marks, text))
    case TuplePattern(elems) => TuplePattern(RenamePatterns(elems, marks, text))
    case ListPattern(elems) => ListPattern(RenamePatterns(elems, marks, text))
    case ConsPattern(head, tail) => ConsPattern(RenamePattern(head, marks, text), RenamePattern(tail, marks, text))
    case DictPattern(keys, fields) => DictPattern(RenameNames(keys, marks, text), RenamePatterns(fields, marks, text))
  }

  function RenamePatterns(ps: seq<Pattern>, marks: set<Span>, text: string): seq<Pattern> {
    if ps == [] then [] else [RenamePattern(ps[0], marks, text)] + RenamePatterns(ps[1..], marks, text)
  }

  /** Every name at a marked span, binder, variable or key of a pattern, becomes `text`. */
  function Rename(e: Expr, marks: set<Span>, text: string): Expr
    decreases e
  {
    match e
    case Literal(_) => e
    case Tuple(elems) => Tuple(seq(|elems|, i requires 0 <= i < |elems| => Rename(elems[i], marks, text)))
    case List(elems) => List(seq(|elems|, i requires 0 <= i < |elems| => Rename(elems[i], marks, text)))
    case Dict(keys, values) => Dict(keys, seq(|values|, i requires 0 <= i < |values| => Rename(values[i], marks, text)))
    case RecordUpdate(base, keys, values) =>
      RecordUpdate(Rename(base, marks, text), keys,
                   seq(|values|, i requires 0 <= i < |values| => Rename(values[i], marks, text)))
    case Var(name) => Var(RenameName(name, marks, text))
    case App(fun, arg) => App(Rename(fun, marks, text), Rename(arg, marks, text))
    case Project(base, field) => Project(Rename(base, marks, text), field)
    case Lam(param, body) => Lam(RenameName(param, marks, text), Rename(body, marks, text))
    case Let(name, def, body) => Let(RenameName(name, marks, text), Rename(def, marks, text), Rename(body, marks, text))
    case LetRec(bindings, body) =>
      LetRec(seq(|bindings|, i requires 0 <= i < |bindings| =>
                   RecBinding(RenameName(bindings[i].name, marks, text), Rename(bindings[i].def, marks, text))),
             Rename(body, marks, text))
    case Ite(cond, positive, negative) => Ite(Rename(cond, marks, text), Rename(positive, marks, text), Rename(negative, marks, text))
    case Match(scrutinee, arms) =>
      Match(Rename(scrutinee, marks, text),
            seq(|arms|, i requires 0 <= i < |arms| =>
                  Arm(RenamePattern(arms[i].pattern, marks, text), Rename(arms[i].body, marks, text))))
    case Ann(inner, typ) => Ann(Rename(inner, marks, text), typ)
  }

  // ---- the nameless form ---------------------------------------------------------------------------------------

  const HOLE: Expr := Literal("")

  function Blank(name: Name): Name { Name("", name.span) }

  function BlankPattern(p: Pattern): Pattern {
    match p
    case Wildcard => p
    case Variable(name) => Variable(Blank(name))
    case Named(_, args) => Named("", BlankPatterns(args))
    case TuplePattern(elems) => TuplePattern(BlankPatterns(elems))
    case ListPattern(elems) => ListPattern(BlankPatterns(elems))
    case ConsPattern(head, tail) => ConsPattern(BlankPattern(head), BlankPattern(tail))
    case DictPattern(keys, fields) => DictPattern(seq(|keys|, i requires 0 <= i < |keys| => Blank(keys[i])), BlankPatterns(fields))
  }

  function BlankPatterns(ps: seq<Pattern>): seq<Pattern> {
    if ps == [] then [] else [BlankPattern(ps[0])] + BlankPatterns(ps[1..])
  }

  /** The keys of a pattern, and the constructors it names, from left to right. */
  function PatternKeys(p: Pattern): seq<Name>
    decreases p, 0
  {
    match p
    case Wildcard => []
    case Variable(_) => []
    case Named(_, args) => KeysOfAll(args)
    case TuplePattern(elems) => KeysOfAll(elems)
    case ListPattern(elems) => KeysOfAll(elems)
    case ConsPattern(head, tail) => PatternKeys(head) + PatternKeys(tail)
    case DictPattern(keys, fields) => keys + KeysOfAll(fields)
  }

  function KeysOfAll(ps: seq<Pattern>): seq<Name>
    decreases ps
  {
    if ps == [] then [] else PatternKeys(ps[0]) + KeysOfAll(ps[1..])
  }

  function PatternConstructors(p: Pattern): seq<string>
    decreases p, 0
  {
    match p
    case Wildcard => []
    case Variable(_) => []
    case Named(variant, args) => [variant] + ConstructorsOfAll(args)
    case TuplePattern(elems) => ConstructorsOfAll(elems)
    case ListPattern(elems) => ConstructorsOfAll(elems)
    case ConsPattern(head, tail) => PatternConstructors(head) + PatternConstructors(tail)
    case DictPattern(_, fields) => ConstructorsOfAll(fields)
  }

  function ConstructorsOfAll(ps: seq<Pattern>): seq<string>
    decreases ps
  {
    if ps == [] then [] else PatternConstructors(ps[0]) + ConstructorsOfAll(ps[1..])
  }

  function Patterns(e: Expr): seq<Pattern> {
    if e.Match? then seq(|e.arms|, i requires 0 <= i < |e.arms| => e.arms[i].pattern) else []
  }

  function Texts(names: seq<Name>): seq<string> {
    seq(|names|, i requires 0 <= i < |names| => names[i].text)
  }

  /** The expression without its subexpressions and without the names in it, except those of fields. */
  function Shape(e: Expr): Expr {
    match e
    case Literal(_) => e
    case Tuple(_) => Tuple([])
    case List(_) => List([])
    case Dict(keys, _) => Dict(keys, [])
    case RecordUpdate(_, keys, _) => RecordUpdate(HOLE, keys, [])
    case Var(_) => HOLE
    case App(_, _) => App(HOLE, HOLE)
    case Project(_, field) => Project(HOLE, field)
    case Lam(param, _) => Lam(Blank(param), HOLE)
    case Let(name, _, _) => Let(Blank(name), HOLE, HOLE)
    case LetRec(bindings, _) =>
      LetRec(seq(|bindings|, i requires 0 <= i < |bindings| => RecBinding(Blank(bindings[i].name), HOLE)), HOLE)
    case Ite(_, _, _) => Ite(HOLE, HOLE, HOLE)
    case Match(_, arms) =>
      Match(HOLE, seq(|arms|, i requires 0 <= i < |arms| => Arm(BlankPattern(arms[i].pattern), HOLE)))
    case Ann(_, typ) => Ann(HOLE, typ)
  }

  /** A binder by its distance, a top-level definition by its place, or a name nobody defines. */
  datatype Referent = Local(distance: nat) | Global(span: Span) | Unknown(text: string)

  /** The keys of the patterns are kept; the constructors they name are top-level definitions. */
  datatype Nameless =
    | Reference(referent: Referent)
    | Form(shape: Expr, keys: seq<string>, constructors: seq<Referent>, parts: seq<Nameless>)

  function ReferentOf(top: map<string, Span>, scope: Scope, text: string): Referent {
    var local := Innermost(scope, text);
    if local.Some? then Local(|scope| - 1 - local.value) else TopReferent(top, text)
  }

  function TopReferent(top: map<string, Span>, text: string): Referent {
    if text in top then Global(top[text]) else Unknown(text)
  }

  function TopReferents(top: map<string, Span>, texts: seq<string>): seq<Referent> {
    seq(|texts|, i requires 0 <= i < |texts| => TopReferent(top, texts[i]))
  }

  function NamelessOf(top: map<string, Span>, e: Expr, scope: Scope): Nameless
    decreases e
  {
    if e.Var? then Reference(ReferentOf(top, scope, e.name.text))
    else
      var children := Children(e);
      Form(Shape(e), Texts(KeysOfAll(Patterns(e))), TopReferents(top, ConstructorsOfAll(Patterns(e))),
           seq(|children|, i requires 0 <= i < |children| => NamelessOf(top, children[i].e, scope + children[i].locals)))
  }

  // ---- renaming, part by part -------------------------------------------------------------------------------------

  lemma {:induction false} RenameAppend(a: seq<Name>, b: seq<Name>, marks: set<Span>, text: string)
    ensures RenameNames(a + b, marks, text) == RenameNames(a, marks, text) + RenameNames(b, marks, text)
  {
  }

  lemma {:induction false} RenameBindings(p: Pattern, marks: set<Span>, text: string)
    ensures Bindings(RenamePattern(p, marks, text)) == RenameNames(Bindings(p), marks, text)
    ensures BlankPattern(RenamePattern(p, marks, text)) == BlankPattern(p)
    ensures PatternKeys(RenamePattern(p, marks, text)) == RenameNames(PatternKeys(p), marks, text)
    ensures PatternConstructors(RenamePattern(p, marks, text)) == PatternConstructors(p)
    decreases p, 0
  {
    match p
    case Wildcard =>
    case Variable(_) =>
    case Named(_, args) => RenameBindingsOfAll(args, marks, text);
    case TuplePattern(elems) => RenameBindingsOfAll(elems, marks, text);
    case ListPattern(elems) => RenameBindingsOfAll(elems, marks, text);
    case ConsPattern(head, tail) =>
      RenameBindings(head, marks, text);
      RenameBindings(tail, marks, text);
      RenameAppend(Bindings(head), Bindings(tail), marks, text);
      RenameAppend(PatternKeys(head), PatternKeys(tail), marks, text);
    case DictPattern(keys, fields) =>
      RenameBindingsOfAll(fields, marks, text);
      RenameAppend(keys, KeysOfAll(fields), marks, text);
  }

  lemma {:induction false} RenameBindingsOfAll(ps: seq<Pattern>, marks: set<Span>, text: string)
    ensures BindingsOfAll(RenamePatterns(ps, marks, text)) == RenameNames(BindingsOfAll(ps), marks, text)
    ensures BlankPatterns(RenamePatterns(ps, marks, text)) == BlankPatterns(ps)
    ensures KeysOfAll(RenamePatterns(ps, marks, text)) == RenameNames(KeysOfAll(ps), marks, text)
    ensures ConstructorsOfAll(RenamePatterns(ps, marks, text)) == ConstructorsOfAll(ps)
    decreases ps
  {
    if ps != [] {
      RenameBindings(ps[0], marks, text);
      RenameBindingsOfAll(ps[1..], marks, text);
      RenameAppend(Bindings(ps[0]), BindingsOfAll(ps[1..]), marks, text);
      RenameAppend(PatternKeys(ps[0]), KeysOfAll(ps[1..]), marks, text);
    }
  }

  lemma {:induction false} RenameRecNames(bindings: seq<RecBinding>, renamed: seq<RecBinding>, marks: set<Span>, text: string)
    requires |renamed| == |bindings|
    requires forall i :: 0 <= i < |bindings| ==> renamed[i].name == RenameName(bindings[i].name, marks, text)
    ensures RecNames(renamed) == RenameNames(RecNames(bindings), marks, text)
  {
    if bindings != [] { RenameRecNames(bindings[1..], renamed[1..], marks, text); }
  }

  ghost predicate PartsRenamed(e: Expr, marks: set<Span>, text: string) {
    var after := Children(Rename(e, marks, text));
    |after| == |Children(e)|
    && forall i :: 0 <= i < |after| ==>
         after[i] == Child(Rename(Children(e)[i].e, marks, text), RenameNames(Children(e)[i].locals, marks, text))
  }

  /** The parts of the renamed expression are the parts, renamed. */
  lemma {:induction false} RenameChildren(e: Expr, marks: set<Span>, text: string)
    ensures PartsRenamed(e, marks, text)
  {
    if e.LetRec? { RenameLetRec(e, marks, text); }
    else if e.Match? { RenameMatch(e, marks, text); }
    else { RenamePlain(e, marks, text); }
  }

  lemma {:induction false} RenamePlain(e: Expr, marks: set<Span>, text: string)
    requires !e.LetRec? && !e.Match?
    ensures PartsRenamed(e, marks, text)
  {
  }

  lemma {:induction false} RenameLetRec(e: Expr, marks: set<Span>, text: string)
    requires e.LetRec?
    ensures PartsRenamed(e, marks, text)
  {
    RenameRecNames(e.bindings, Rename(e, marks, text).bindings, marks, text);
  }

  lemma {:induction false} RenameMatch(e: Expr, marks: set<Span>, text: string)
    requires e.Match?
    ensures PartsRenamed(e, marks, text)
  {
    forall i | 0 <= i < |e.arms|
      ensures Bindings(RenamePattern(e.arms[i].pattern, marks, text)) == RenameNames(Bindings(e.arms[i].pattern), marks, text)
    {
      RenameBindings(e.arms[i].pattern, marks, text);
    }
  }

  lemma {:induction false} RenameShape(e: Expr, marks: set<Span>, text: string)
    ensures Shape(Rename(e, marks, text)) == Shape(e)
  {
    match e
    case Match(scrutinee, arms) =>
      forall i | 0 <= i < |arms|
        ensures BlankPattern(RenamePattern(arms[i].pattern, marks, text)) == BlankPattern(arms[i].pattern)
      {
        RenameBindings(arms[i].pattern, marks, text);
      }
    case _ =>
  }

  lemma {:induction false} RenamePatternsAt(ps: seq<Pattern>, marks: set<Span>, text: string)
    ensures var r := RenamePatterns(ps, marks, text);
            |r| == |ps| && forall i :: 0 <= i < |r| ==> r[i] == RenamePattern(ps[i], marks, text)
  {
    if ps != [] { RenamePatternsAt(ps[1..], marks, text); }
  }

  lemma {:induction false} RenamePatternNames(e: Expr, marks: set<Span>, text: string)
    ensures Patterns(Rename(e, marks, text)) == RenamePatterns(Patterns(e), marks, text)
    ensures KeysOfAll(Patterns(Rename(e, marks, text))) == RenameNames(KeysOfAll(Patterns(e)), marks, text)
    ensures ConstructorsOfAll(Patterns(Rename(e, marks, text))) == ConstructorsOfAll(Patterns(e))
  {
    RenamePatternsAt(Patterns(e), marks, text);
    RenameBindingsOfAll(Patterns(e), marks, text);
  }

  // ---- what has to be marked, and what must not be captured ------------------------------------------------------

  /** The target is one binder, which binds the identifier. */
  predicate NameOk(q: Query, name: Name, marks: set<Span>) {
    (name.span in marks <==> name.span == q.target) && (name.span == q.target ==> name.text == q.ident)
  }

  predicate ScopeOk(q: Query, scope: Scope, marks: set<Span>) {
    && (forall i :: 0 <= i < |scope| ==> NameOk(q, scope[i], marks))
    && (forall i, j :: 0 <= i < j < |scope| ==> !(scope[i].span == q.target == scope[j].span))
  }

  /** The same along every path through an expression. */
  ghost predicate BindersOk(q: Query, e: Expr, scope: Scope, marks: set<Span>)
    decreases e
  {
    !e.Var? ==>
      forall i :: 0 <= i < |Children(e)| ==>
        var child := Children(e)[i];
        ScopeOk(q, scope + child.locals, marks) && BindersOk(q, child.e, scope + child.locals, marks)
  }

  /** The same of the keys, which share the span of the variable where it is left out. */
  ghost predicate KeysOk(q: Query, e: Expr, marks: set<Span>)
    decreases e
  {
    && (forall key :: key in KeysOfAll(Patterns(e)) ==> NameOk(q, key, marks))
    && forall i :: 0 <= i < |Children(e)| ==> KeysOk(q, Children(e)[i].e, marks)
  }

  /** Every variable is marked exactly if it refers to the target, or else has the new name already. */
  ghost predicate Marked(q: Query, e: Expr, scope: Scope, marks: set<Span>, text: string)
    decreases e
  {
    if e.Var? then e.name.text == text || (e.name.span in marks <==> Refers(q, scope, e.name))
    else forall i :: 0 <= i < |Children(e)| ==> Marked(q, Children(e)[i].e, scope + Children(e)[i].locals, marks, text)
  }

  /** Top-level names are defined at different places, and the target is where the identifier is. */
  predicate TopOk(q: Query) {
    && (forall a, b :: a in q.top && b in q.top && q.top[a] == q.top[b] ==> a == b)
    && (forall a :: a in q.top && q.top[a] == q.target ==> a == q.ident)
  }

  predicate IsTopLevel(q: Query) { q.ident in q.top && q.top[q.ident] == q.target }

  /**
    Where top-level names are defined once the target is renamed. Of two definitions of one name `wins`
    says which is found, the renamed one or the other.
   */
  function RenamedTop(q: Query, text: string, wins: bool): map<string, Span> {
    if text == q.ident || !IsTopLevel(q) then q.top
    else
      var others := q.top - {q.ident};
      if text in q.top && !wins then others else others[text := q.target]
  }

  /**
    No binder of the new name comes between the target and a reference to it, and the renamed target does
    not come between a variable that has the new name and what that refers to.
   */
  predicate UncapturedAt(q: Query, scope: Scope, name: Name, text: string, wins: bool) {
    text == q.ident ||
    if Refers(q, scope, name) then
      var local := Innermost(scope, q.ident);
      && (forall i :: (if local.Some? then local.value + 1 else 0) <= i < |scope| ==> scope[i].text != text)
      && (local.None? && text in q.top ==> wins)
    else if name.text == text then
      var local := Innermost(scope, text);
      && (forall i :: (if local.Some? then local.value + 1 else 0) <= i < |scope| ==> scope[i].span != q.target)
      && (local.None? && IsTopLevel(q) ==> text in q.top && !wins)
    else true
  }

  /** No key is renamed along with the variable that goes by it, and every constructor named is still found. */
  ghost predicate PatternsKept(q: Query, e: Expr, text: string, wins: bool) {
    text != q.ident ==>
      && (forall key :: key in KeysOfAll(Patterns(e)) ==> key.span != q.target)
      && (IsTopLevel(q) ==> forall c :: c in ConstructorsOfAll(Patterns(e)) ==> c != q.ident && (c == text ==> text in q.top && !wins))
  }

  /** So for every variable and every pattern of an expression. */
  ghost predicate Safe(q: Query, e: Expr, scope: Scope, text: string, wins: bool)
    decreases e
  {
    if e.Var? then UncapturedAt(q, scope, e.name, text, wins)
    else
      && PatternsKept(q, e, text, wins)
      && forall i :: 0 <= i < |Children(e)| ==> Safe(q, Children(e)[i].e, scope + Children(e)[i].locals, text, wins)
  }

  // ---- one variable -----------------------------------------------------------------------------------------------

  lemma {:induction false} InnermostIs(scope: Scope, text: string, k: nat)
    requires k < |scope| && scope[k].text == text && forall i :: k < i < |scope| ==> scope[i].text != text
    ensures Innermost(scope, text) == Some(k)
  {
  }

  lemma {:induction false} NoneInnermost(scope: Scope, text: string)
    requires forall i :: 0 <= i < |scope| ==> scope[i].text != text
    ensures Innermost(scope, text).None?
  {
  }

  /** Names other than the new one are found where they were, if it was not the target. */
  lemma {:induction false} OthersStay(q: Query, scope: Scope, marks: set<Span>, text: string, name: string)
    requires ScopeOk(q, scope, marks) && (name != text || text == q.ident)
    requires text == q.ident || (Innermost(scope, name).Some? ==> scope[Innermost(scope, name).value].span != q.target)
    ensures Innermost(RenameNames(scope, marks, text), name) == Innermost(scope, name)
  {
    var renamed, local := RenameNames(scope, marks, text), Innermost(scope, name);
    if local.Some? { InnermostIs(renamed, name, local.value); } else { NoneInnermost(renamed, name); }
  }

  /** A name other than the new one, neither renamed nor referring to the target. */
  lemma {:induction false} OtherVariable(q: Query, name: Name, scope: Scope, marks: set<Span>, text: string, wins: bool)
    requires ScopeOk(q, scope, marks) && TopOk(q) && name.text != text && name.span !in marks && !Refers(q, scope, name)
    ensures ReferentOf(RenamedTop(q, text, wins), RenameNames(scope, marks, text), name.text) == ReferentOf(q.top, scope, name.text)
  {
    OthersStay(q, scope, marks, text, name.text);
  }

  /** A reference to the target that has been overlooked. */
  lemma {:induction false} MissedVariable(q: Query, scope: Scope, marks: set<Span>, text: string, wins: bool)
    requires ScopeOk(q, scope, marks) && TopOk(q) && text != q.ident && Resolve(q, scope, q.ident) == Some(q.target)
    ensures ReferentOf(RenamedTop(q, text, wins), RenameNames(scope, marks, text), q.ident) != ReferentOf(q.top, scope, q.ident)
  {
    var local := Innermost(scope, q.ident);
    var renamed := RenameNames(scope, marks, text);
    if local.Some? { assert renamed[local.value].text == text; } else { OthersStay(q, scope, marks, text, q.ident); }
  }

  /** A variable renamed without being a reference. */
  lemma {:induction false} WrongVariable(q: Query, name: Name, scope: Scope, marks: set<Span>, text: string, wins: bool)
    requires ScopeOk(q, scope, marks) && TopOk(q) && name.text != text && !Refers(q, scope, name)
    ensures ReferentOf(RenamedTop(q, text, wins), RenameNames(scope, marks, text), text) != ReferentOf(q.top, scope, name.text)
  {
    var renamed, local := RenameNames(scope, marks, text), Innermost(scope, name.text);
    assert local.Some? ==> renamed[local.value] == RenameName(scope[local.value], marks, text);
  }

  /** A reference renamed along with the target. */
  lemma {:induction false} RightVariable(q: Query, name: Name, scope: Scope, marks: set<Span>, text: string, wins: bool)
    requires ScopeOk(q, scope, marks) && TopOk(q) && text != q.ident && Refers(q, scope, name)
    ensures ReferentOf(RenamedTop(q, text, wins), RenameNames(scope, marks, text), text) == ReferentOf(q.top, scope, q.ident)
            <==> UncapturedAt(q, scope, name, text, wins)
  {
    var renamed, local := RenameNames(scope, marks, text), Innermost(scope, q.ident);
    var first := if local.Some? then local.value + 1 else 0;
    if forall i :: first <= i < |scope| ==> scope[i].text != text {
      forall i | first <= i < |scope| ensures renamed[i].text != text { assert scope[i].text != q.ident; }
      if local.Some? { InnermostIs(renamed, text, local.value); } else { NoneInnermost(renamed, text); }
    } else {
      var i :| first <= i < |scope| && scope[i].text == text;
      assert renamed[i].text == text;
    }
  }

  /** A variable that has the new name already. */
  lemma {:induction false} NamedAlike(q: Query, name: Name, scope: Scope, marks: set<Span>, text: string, wins: bool)
    requires ScopeOk(q, scope, marks) && TopOk(q) && text != q.ident && name.text == text
    ensures ReferentOf(RenamedTop(q, text, wins), RenameNames(scope, marks, text), text) == ReferentOf(q.top, scope, text)
            <==> UncapturedAt(q, scope, name, text, wins)
  {
    var renamed, local := RenameNames(scope, marks, text), Innermost(scope, text);
    var first := if local.Some? then local.value + 1 else 0;
    if forall i :: first <= i < |scope| ==> scope[i].span != q.target {
      if local.Some? { InnermostIs(renamed, text, local.value); } else { NoneInnermost(renamed, text); }
    } else {
      var i :| first <= i < |scope| && scope[i].span == q.target;
      assert renamed[i].text == text;
    }
  }

  lemma {:induction false} RenameVariable(q: Query, name: Name, scope: Scope, marks: set<Span>, text: string, wins: bool)
    requires ScopeOk(q, scope, marks) && TopOk(q)
    ensures ReferentOf(RenamedTop(q, text, wins), RenameNames(scope, marks, text), RenameName(name, marks, text).text)
              == ReferentOf(q.top, scope, name.text)
            <==> (name.text == text || (name.span in marks <==> Refers(q, scope, name))) && UncapturedAt(q, scope, name, text, wins)
  {
    hide ReferentOf, RenameNames, ScopeOk, RenamedTop;
    var refers := Refers(q, scope, name);
    if text == q.ident {
      SameName(q, scope, marks, name.text, wins);
      if name.text != text && name.span in marks {
        assert !refers;
        WrongVariable(q, name, scope, marks, text, wins);
      }
    } else if name.text == text {
      NamedAlike(q, name, scope, marks, text, wins);
    } else if name.span in marks {
      if refers { RightVariable(q, name, scope, marks, text, wins); } else { WrongVariable(q, name, scope, marks, text, wins); }
    } else if refers {
      MissedVariable(q, scope, marks, text, wins);
    } else {
      OtherVariable(q, name, scope, marks, text, wins);
    }
  }

  lemma {:induction false} SameName(q: Query, scope: Scope, marks: set<Span>, name: string, wins: bool)
    requires ScopeOk(q, scope, marks)
    ensures ReferentOf(RenamedTop(q, q.ident, wins), RenameNames(scope, marks, q.ident), name) == ReferentOf(q.top, scope, name)
  {
    OthersStay(q, scope, marks, q.ident, name);
  }

  // ---- renaming and the nameless form --------------------------------------------------------------------------

  /** Renaming at the marks leaves the nameless form as it is. */
  ghost predicate KeepsForm(q: Query, e: Expr, scope: Scope, marks: set<Span>, text: string, wins: bool) {
    NamelessOf(RenamedTop(q, text, wins), Rename(e, marks, text), RenameNames(scope, marks, text)) == NamelessOf(q.top, e, scope)
  }

  lemma {:induction false} KeepsFormOfVariable(q: Query, e: Expr, scope: Scope, marks: set<Span>, text: string, wins: bool)
    requires e.Var? && ScopeOk(q, scope, marks) && TopOk(q)
    ensures KeepsForm(q, e, scope, marks, text, wins) <==> Marked(q, e, scope, marks, text) && Safe(q, e, scope, text, wins)
  {
    hide ReferentOf, RenameNames, ScopeOk, RenamedTop, UncapturedAt, Refers;
    RenameVariable(q, e.name, scope, marks, text, wins);
  }

  lemma {:induction false} SameTexts(q: Query, keys: seq<Name>, marks: set<Span>, text: string)
    requires forall key :: key in keys ==> NameOk(q, key, marks)
    ensures Texts(RenameNames(keys, marks, text)) == Texts(keys) <==>
            (text == q.ident || forall key :: key in keys ==> key.span != q.target)
  {
    var renamed := RenameNames(keys, marks, text);
    if Texts(renamed) == Texts(keys) {
      forall key | key in keys && key.span == q.target ensures text == q.ident {
        var i :| 0 <= i < |keys| && keys[i] == key;
        assert Texts(renamed)[i] == text && Texts(keys)[i] == q.ident;
      }
    } else {
      var i :| 0 <= i < |keys| && renamed[i].text != keys[i].text;
      assert keys[i] in keys;
    }
  }

  lemma {:induction false} SameConstructors(q: Query, names: seq<string>, text: string, wins: bool)
    requires TopOk(q)
    ensures TopReferents(RenamedTop(q, text, wins), names) == TopReferents(q.top, names) <==>
            (text != q.ident && IsTopLevel(q) ==> forall c :: c in names ==> c != q.ident && (c == text ==> text in q.top && !wins))
  {
    var top := RenamedTop(q, text, wins);
    var a, b := TopReferents(top, names), TopReferents(q.top, names);
    forall c ensures TopReferent(top, c) == TopReferent(q.top, c) <==>
                     (text != q.ident && IsTopLevel(q) ==> c != q.ident && (c == text ==> text in q.top && !wins))
    {
    }
    hide RenamedTop, TopReferent, IsTopLevel, TopOk;
    if a == b {
      forall c | c in names ensures TopReferent(top, c) == TopReferent(q.top, c) {
        var i :| 0 <= i < |names| && names[i] == c;
        assert a[i] == b[i];
      }
    } else {
      var i :| 0 <= i < |names| && a[i] != b[i];
      assert names[i] in names;
    }
  }

  /** What the patterns of an expression come to under renaming. */
  lemma {:induction false} KeepsPatterns(q: Query, e: Expr, marks: set<Span>, text: string, wins: bool)
    requires TopOk(q) && KeysOk(q, e, marks)
    ensures var top, before, after := RenamedTop(q, text, wins), Patterns(e), Patterns(Rename(e, marks, text));
            Texts(KeysOfAll(after)) == Texts(KeysOfAll(before))
            && TopReferents(top, ConstructorsOfAll(after)) == TopReferents(q.top, ConstructorsOfAll(before))
            <==> PatternsKept(q, e, text, wins)
  {
    hide Patterns, RenameNames, Rename, RenamedTop, TopReferents, Texts, TopOk;
    RenamePatternNames(e, marks, text);
    SameTexts(q, KeysOfAll(Patterns(e)), marks, text);
    SameConstructors(q, ConstructorsOfAll(Patterns(e)), text, wins);
  }

  lemma {:induction false} StaysAForm(e: Expr, marks: set<Span>, text: string)
    ensures Rename(e, marks, text).Var? == e.Var?
  {
  }

  lemma {:induction false} SamePartsSameForm(top: map<string, Span>, top': map<string, Span>, e: Expr, e': Expr, scope: Scope, scope': Scope)
    requires !e.Var? && !e'.Var? && Shape(e) == Shape(e') && |Children(e)| == |Children(e')|
    ensures NamelessOf(top, e, scope) == NamelessOf(top', e', scope') <==>
            Texts(KeysOfAll(Patterns(e))) == Texts(KeysOfAll(Patterns(e')))
            && TopReferents(top, ConstructorsOfAll(Patterns(e))) == TopReferents(top', ConstructorsOfAll(Patterns(e')))
            && forall i :: 0 <= i < |Children(e)| ==>
              NamelessOf(top, Children(e)[i].e, scope + Children(e)[i].locals)
                == NamelessOf(top', Children(e')[i].e, scope' + Children(e')[i].locals)
  {
    hide Children, Shape, Patterns, Texts, TopReferents, KeysOfAll, ConstructorsOfAll;
    var a, b := NamelessOf(top, e, scope), NamelessOf(top', e', scope');
    assert |a.parts| == |Children(e)| == |b.parts|;
    assert forall i :: 0 <= i < |Children(e)| ==> a.parts[i] == NamelessOf(top, Children(e)[i].e, scope + Children(e)[i].locals);
    assert forall i :: 0 <= i < |Children(e)| ==> b.parts[i] == NamelessOf(top', Children(e')[i].e, scope' + Children(e')[i].locals);
    if forall i :: 0 <= i < |Children(e)| ==> a.parts[i] == b.parts[i] { assert a.parts == b.parts; }
  }

  /** It does so exactly if it does for the patterns and for every part. */
  lemma {:induction false} KeepsFormOfParts(q: Query, e: Expr, scope: Scope, marks: set<Span>, text: string, wins: bool)
    requires !e.Var? && TopOk(q) && KeysOk(q, e, marks)
    ensures KeepsForm(q, e, scope, marks, text, wins) <==>
            PatternsKept(q, e, text, wins)
            && forall i :: 0 <= i < |Children(e)| ==>
                 KeepsForm(q, Children(e)[i].e, scope + Children(e)[i].locals, marks, text, wins)
  {
    RenameChildren(e, marks, text);
    RenameShape(e, marks, text);
    StaysAForm(e, marks, text);
    KeepsPatterns(q, e, marks, text, wins);
    hide Children, Shape, Rename, NamelessOf, RenameNames, RenamedTop, PatternsKept, Patterns, Texts;
    hide TopReferents, TopOk, KeysOk;
    var renamed, top := RenameNames(scope, marks, text), RenamedTop(q, text, wins);
    var children, after := Children(e), Children(Rename(e, marks, text));
    forall i | 0 <= i < |children|
      ensures KeepsForm(q, children[i].e, scope + children[i].locals, marks, text, wins) <==>
              NamelessOf(top, after[i].e, renamed + after[i].locals) == NamelessOf(q.top, children[i].e, scope + children[i].locals)
    {
      RenameAppend(scope, children[i].locals, marks, text);
    }
    SamePartsSameForm(top, q.top, Rename(e, marks, text), e, renamed, scope);
  }

  /**
    Renaming the target and the variables at the marks leaves the nameless form alone exactly if the marks hit
    the references and no other variable, apart from those that have the new name already, and the new name is safe.
   */
  lemma {:induction false} RenameKeepsMeaning(q: Query, e: Expr, scope: Scope, marks: set<Span>, text: string, wins: bool)
    requires ScopeOk(q, scope, marks) && TopOk(q) && BindersOk(q, e, scope, marks) && KeysOk(q, e, marks)
    ensures KeepsForm(q, e, scope, marks, text, wins) <==> Marked(q, e, scope, marks, text) && Safe(q, e, scope, text, wins)
    decreases e
  {
    if e.Var? {
      hide *;
      KeepsFormOfVariable(q, e, scope, marks, text, wins);
    } else {
      hide Children, KeepsForm, ScopeOk, UncapturedAt, Refers, PatternsKept, Patterns;
      KeepsFormOfParts(q, e, scope, marks, text, wins);
      var children := Children(e);
      forall i | 0 <= i < |children|
        ensures KeepsForm(q, children[i].e, scope + children[i].locals, marks, text, wins) <==>
                Marked(q, children[i].e, scope + children[i].locals, marks, text)
                && Safe(q, children[i].e, scope + children[i].locals, text, wins)
      {
        RenameKeepsMeaning(q, children[i].e, scope + children[i].locals, marks, text, wins);
      }
    }
  }

  // ---- the references reported are what has to be marked --------------------------------------------------------

  /** All variables, and all binders, of an expression. */
  ghost function Variables(e: Expr): set<Name>
    decreases e
  {
    if e.Var? then {e.name}
    else set i, v | 0 <= i < |Children(e)| && v in Variables(Children(e)[i].e) :: v
  }

  ghost function Binders(e: Expr): set<Name>
    decreases e
  {
    (set i, b | 0 <= i < |Children(e)| && b in Children(e)[i].locals :: b)
    + (set i, b | 0 <= i < |Children(e)| && b in Binders(Children(e)[i].e) :: b)
  }

  ghost function Keys(e: Expr): set<Name>
    decreases e
  {
    (set key | key in KeysOfAll(Patterns(e)))
    + (set i, b | 0 <= i < |Children(e)| && b in Keys(Children(e)[i].e) :: b)
  }

  ghost function Constructors(e: Expr): set<string>
    decreases e
  {
    (set c | c in ConstructorsOfAll(Patterns(e)))
    + (set i, c | 0 <= i < |Children(e)| && c in Constructors(Children(e)[i].e) :: c)
  }

  ghost predicate NoSharedSpan(a: set<Name>, b: set<Name>) {
    forall u, v :: u in a && v in b ==> u.span != v.span
  }

  /** No two variables share a span. */
  ghost predicate VariablesApart(e: Expr)
    decreases e
  {
    !e.Var? ==>
      && (forall i :: 0 <= i < |Children(e)| ==> VariablesApart(Children(e)[i].e))
      && (forall i, j :: 0 <= i < j < |Children(e)| ==> NoSharedSpan(Variables(Children(e)[i].e), Variables(Children(e)[j].e)))
  }

  predicate SpansDiffer(scope: Scope) {
    forall j, k :: 0 <= j < k < |scope| ==> scope[j].span != scope[k].span
  }

  /** No two binders in scope at one place share a span. */
  ghost predicate BindersApart(e: Expr, scope: Scope)
    decreases e
  {
    !e.Var? ==>
      forall i :: 0 <= i < |Children(e)| ==>
        var inner := scope + Children(e)[i].locals;
        SpansDiffer(inner) && BindersApart(Children(e)[i].e, inner)
  }

  lemma {:induction false} ReferencesInSome(q: Query, e: Expr, children: seq<Child>, scope: Scope, s: Span)
    requires forall i :: 0 <= i < |children| ==> children[i].e < e
    ensures s in ReferencesInAll(q, e, children, scope) <==>
            exists i :: 0 <= i < |children| && s in References(q, children[i].e, scope + children[i].locals)
    decreases |children|
  {
    if children != [] {
      ReferencesInSome(q, e, children[1..], scope, s);
      assert forall i :: 0 <= i < |children[1..]| ==> children[1..][i] == children[i + 1];
      if i :| 0 <= i < |children| && s in References(q, children[i].e, scope + children[i].locals) {
        if i > 0 { assert children[1..][i - 1] == children[i]; }
      }
    }
  }

  lemma {:induction false} ReferencesAreVariables(q: Query, e: Expr, scope: Scope, s: Span)
    requires s in References(q, e, scope)
    ensures exists v :: v in Variables(e) && v.span == s
    decreases e
  {
    if e.Var? {
      assert e.name in Variables(e);
    } else {
      ReferencesInSome(q, e, Children(e), scope, s);
      var i :| 0 <= i < |Children(e)| && s in References(q, Children(e)[i].e, scope + Children(e)[i].locals);
      ReferencesAreVariables(q, Children(e)[i].e, scope + Children(e)[i].locals, s);
      var v :| v in Variables(Children(e)[i].e) && v.span == s;
      assert v in Variables(e);
    }
  }

  /** Among a child's variables, the references of the whole are the child's. */
  lemma {:induction false} ReferencesOfChild(q: Query, e: Expr, scope: Scope, i: nat, v: Name)
    requires !e.Var? && VariablesApart(e) && i < |Children(e)| && v in Variables(Children(e)[i].e)
    ensures v.span in References(q, e, scope) <==> v.span in References(q, Children(e)[i].e, scope + Children(e)[i].locals)
  {
    var children := Children(e);
    ReferencesInSome(q, e, children, scope, v.span);
    forall j | 0 <= j < |children| && j != i ensures v.span !in References(q, children[j].e, scope + children[j].locals) {
      NotOfAnother(q, e, scope, i, j, v);
    }
  }

  lemma {:induction false} NotOfAnother(q: Query, e: Expr, scope: Scope, i: nat, j: nat, v: Name)
    requires !e.Var? && VariablesApart(e) && i < |Children(e)| && j < |Children(e)| && i != j && v in Variables(Children(e)[i].e)
    ensures v.span !in References(q, Children(e)[j].e, scope + Children(e)[j].locals)
  {
    var children := Children(e);
    var low, high := if i < j then i else j, if i < j then j else i;
    assert NoSharedSpan(Variables(children[low].e), Variables(children[high].e));
    assert forall u :: u in Variables(children[j].e) ==> u.span != v.span;
    if v.span in References(q, children[j].e, scope + children[j].locals) {
      ReferencesAreVariables(q, children[j].e, scope + children[j].locals, v.span);
    }
  }

  /** Of the variables that do not have the new name already, the references and no others. */
  ghost predicate MarksReferences(q: Query, e: Expr, scope: Scope, marks: set<Span>, text: string) {
    forall v :: v in Variables(e) ==> v.text == text || (v.span in marks <==> v.span in References(q, e, scope))
  }

  lemma {:induction false} MarkedByReferences(q: Query, e: Expr, scope: Scope, marks: set<Span>, text: string)
    requires VariablesApart(e)
    ensures Marked(q, e, scope, marks, text) <==> MarksReferences(q, e, scope, marks, text)
    decreases e
  {
    if e.Var? {
      assert Variables(e) == {e.name};
    } else {
      hide Children, References, ReferencesInAll;
      var children := Children(e);
      forall i | 0 <= i < |children|
        ensures Marked(q, children[i].e, scope + children[i].locals, marks, text) <==>
                MarksReferences(q, children[i].e, scope + children[i].locals, marks, text)
      {
        MarkedByReferences(q, children[i].e, scope + children[i].locals, marks, text);
      }
      forall i, v | 0 <= i < |children| && v in Variables(children[i].e)
        ensures v in Variables(e)
        ensures v.span in References(q, e, scope) <==> v.span in References(q, children[i].e, scope + children[i].locals)
      {
        ReferencesOfChild(q, e, scope, i, v);
      }
      MarksOfChildren(q, e, scope, marks, text);
    }
  }

  lemma {:induction false} MarksOfChildren(q: Query, e: Expr, scope: Scope, marks: set<Span>, text: string)
    requires !e.Var?
    requires forall i, v :: 0 <= i < |Children(e)| && v in Variables(Children(e)[i].e) ==>
               (v.span in References(q, e, scope) <==> v.span in References(q, Children(e)[i].e, scope + Children(e)[i].locals))
    ensures MarksReferences(q, e, scope, marks, text) <==>
            forall i :: 0 <= i < |Children(e)| ==> MarksReferences(q, Children(e)[i].e, scope + Children(e)[i].locals, marks, text)
  {
    if MarksReferences(q, e, scope, marks, text) {
      forall i | 0 <= i < |Children(e)| ensures MarksReferences(q, Children(e)[i].e, scope + Children(e)[i].locals, marks, text) {
        forall v | v in Variables(Children(e)[i].e)
          ensures v.text == text || (v.span in marks <==> v.span in References(q, Children(e)[i].e, scope + Children(e)[i].locals))
        {
          assert v in Variables(e);
        }
      }
    }
  }

  lemma {:induction false} BindersAreOk(q: Query, e: Expr, scope: Scope, marks: set<Span>)
    requires ScopeOk(q, scope, marks) && BindersApart(e, scope)
    requires forall b :: b in Binders(e) ==> NameOk(q, b, marks)
    ensures BindersOk(q, e, scope, marks)
    decreases e
  {
    if !e.Var? {
      var children := Children(e);
      forall i | 0 <= i < |children|
        ensures ScopeOk(q, scope + children[i].locals, marks)
        ensures BindersOk(q, children[i].e, scope + children[i].locals, marks)
      {
        var inner := scope + children[i].locals;
        forall j | 0 <= j < |inner| ensures NameOk(q, inner[j], marks) {
          if j >= |scope| { assert inner[j] in children[i].locals; }
        }
        forall b | b in Binders(children[i].e) ensures b in Binders(e) {}
        BindersAreOk(q, children[i].e, inner, marks);
      }
    }
  }

  lemma {:induction false} KeysAreOk(q: Query, e: Expr, marks: set<Span>)
    requires forall key :: key in Keys(e) ==> NameOk(q, key, marks)
    ensures KeysOk(q, e, marks)
    decreases e
  {
    hide Children, Patterns, NameOk;
    var children := Children(e);
    forall i | 0 <= i < |children| ensures KeysOk(q, children[i].e, marks) {
      forall key | key in Keys(children[i].e) ensures key in Keys(e) {}
      KeysAreOk(q, children[i].e, marks);
    }
  }

  // ---- rename -----------------------------------------------------------------------------------------------------

  /** What a rename edits: the definition and the references reported. */
  ghost function EditSet(q: Query, e: Expr): set<Span> {
    {q.target} + set s | s in References(q, e, [])
  }

  /**
    The spans tell binders, variables and top-level definitions apart, and the identifier is what stands at
    the target. Only a key may share its span, with the variable bound by it.
   */
  ghost predicate Located(q: Query, e: Expr) {
    && VariablesApart(e) && BindersApart(e, []) && NoSharedSpan(Binders(e) + Keys(e), Variables(e))
    && (forall b :: b in Binders(e) + Keys(e) && b.span == q.target ==> b.text == q.ident)
    && (forall v :: v in Variables(e) ==> v.span != q.target)
    && TopOk(q)
  }

  lemma {:induction false} EditsOneBinder(q: Query, e: Expr)
    requires Located(q, e)
    ensures forall b :: b in Binders(e) + Keys(e) ==> (b.span in EditSet(q, e) <==> b.span == q.target)
  {
    hide References, Binders, Keys, Variables, VariablesApart, BindersApart, TopOk;
    forall b | b in Binders(e) + Keys(e) ensures b.span !in References(q, e, []) {
      if b.span in References(q, e, []) { ReferencesAreVariables(q, e, [], b.span); }
    }
  }

  lemma {:induction false} EditsTheReferences(q: Query, e: Expr, text: string)
    requires Located(q, e)
    ensures MarksReferences(q, e, [], EditSet(q, e), text)
  {
    hide References, Binders, Keys, Variables, VariablesApart, BindersApart, TopOk;
  }

  /** Besides the target, the references have to be renamed, and no other variable that does not have the new name already. */
  lemma {:induction false} OnlyTheReferences(q: Query, e: Expr, marks: set<Span>, text: string, wins: bool)
    requires Located(q, e) && forall b :: b in Binders(e) + Keys(e) ==> (b.span in marks <==> b.span == q.target)
    ensures KeepsForm(q, e, [], marks, text, wins) <==>
            MarksReferences(q, e, [], marks, text) && Safe(q, e, [], text, wins)
  {
    hide Binders, Keys, Variables, VariablesApart, BindersApart, Marked, MarksReferences, BindersOk, KeysOk;
    hide Safe, KeepsForm, TopOk;
    BindersAreOk(q, e, [], marks);
    KeysAreOk(q, e, marks);
    RenameKeepsMeaning(q, e, [], marks, text, wins);
    MarkedByReferences(q, e, [], marks, text);
  }

  /** The edits of a rename, whatever the new name, leave the nameless form as it is exactly if the new name is safe. */
  lemma {:induction false} RenameIsAlpha(q: Query, e: Expr, text: string, wins: bool)
    requires Located(q, e)
    ensures KeepsForm(q, e, [], EditSet(q, e), text, wins) <==> Safe(q, e, [], text, wins)
  {
    EditsOneBinder(q, e);
    EditsTheReferences(q, e, text);
    hide *;
    OnlyTheReferences(q, e, EditSet(q, e), text, wins);
  }
}

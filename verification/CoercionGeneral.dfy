/**
  How general the result of unification is among the solutions up to the record/`Dict` coercion: every such
  solution factors through it up to connection, records or not, whether or not the attempt succeeds.
 */
module CoercionGeneral {
  import opened Wrappers
  import opened Types
  import opened Substitution
  import opened Unification
  import opened Matching
  import opened Soundness
  import opened Completeness
  import opened Connected
  import opened Coercion

  /** `theta` factors through `s`, up to connection. */
  ghost predicate ConnectAbsorbs(theta: Subst, s: Subst) {
    forall v :: v in s ==> Connects(ApplyVar(v, theta), Apply(s[v], theta))
  }

  lemma {:induction false} AbsorbsVariable(v: nat, theta: Subst, s: Subst)
    requires ConnectAbsorbs(theta, s)
    ensures Connects(ApplyVar(v, theta), Apply(ApplyVar(v, s), theta))
  {
    hide Connects;
    if v !in s { ConnectsItself(ApplyVar(v, theta)); }
  }

  lemma {:induction false} AbsorbsType(t: Type, theta: Subst, s: Subst)
    requires ConnectAbsorbs(theta, s)
    ensures Connects(Apply(t, theta), Apply(Apply(t, s), theta))
    decreases t
  {
    hide Connects, ConnectAbsorbs;
    match t
    case Var(v) => AbsorbsVariable(v, theta, s);
    case Con(_) => ConnectsItself(t);
    case App(h, a) =>
      AbsorbsType(h, theta, s);
      AbsorbsType(a, theta, s);
      AppConnects(Apply(h, theta), Apply(Apply(h, s), theta), Apply(a, theta), Apply(Apply(a, s), theta));
    case Fun(a, b) =>
      AbsorbsType(a, theta, s);
      AbsorbsType(b, theta, s);
      FunConnects(Apply(a, theta), Apply(Apply(a, s), theta), Apply(b, theta), Apply(Apply(b, s), theta));
    case Tuple(ts) =>
      var us, vs := Apply(t, theta).elems, Apply(Apply(t, s), theta).elems;
      forall i | 0 <= i < |ts| ensures Connects(us[i], vs[i]) { AbsorbsType(ts[i], theta, s); }
      TupleConnects(us, vs, 0);
    case Record(fs) =>
      var gs, hs := Apply(t, theta).fields, Apply(Apply(t, s), theta).fields;
      forall i | 0 <= i < |fs| ensures Connects(gs[i].ty, hs[i].ty) && gs[i].name == hs[i].name { AbsorbsType(fs[i].ty, theta, s); }
      RecordConnects(gs, hs, 0);
  }

  lemma {:induction false} AbsorbsComposed(theta: Subst, a: Subst, b: Subst)
    requires ConnectAbsorbs(theta, a) && ConnectAbsorbs(theta, b)
    ensures ConnectAbsorbs(theta, Compose(a, b))
  {
    hide Connects;
    var c := Compose(a, b);
    forall v | v in c ensures Connects(ApplyVar(v, theta), Apply(c[v], theta)) {
      if v !in a {
        AbsorbsType(b[v], theta, a);
        ConnectsThen(ApplyVar(v, theta), Apply(b[v], theta), Apply(c[v], theta));
      }
    }
  }

  /** Connected types stay so when both go through the substitution first. */
  lemma {:induction false} ThroughSubst(l: Type, r: Type, theta: Subst, s: Subst)
    requires Connects(Apply(l, theta), Apply(r, theta)) && ConnectAbsorbs(theta, s)
    ensures Connects(Apply(Apply(l, s), theta), Apply(Apply(r, s), theta))
  {
    hide *;
    AbsorbsType(l, theta, s);
    AbsorbsType(r, theta, s);
    ConnectsBack(Apply(l, theta), Apply(Apply(l, s), theta));
    ConnectsThen(Apply(Apply(l, s), theta), Apply(l, theta), Apply(r, theta));
    ConnectsThen(Apply(Apply(l, s), theta), Apply(r, theta), Apply(Apply(r, s), theta));
  }

  ghost predicate EqsConnect(eqs: seq<Eq>, theta: Subst) {
    forall i :: 0 <= i < |eqs| && eqs[i].Equal? ==> Connects(Apply(eqs[i].lhs, theta), Apply(eqs[i].rhs, theta))
  }

  lemma {:induction false} AppsConnect(h1: Type, a1: Type, h2: Type, a2: Type, theta: Subst)
    requires Connects(Apply(App(h1, a1), theta), Apply(App(h2, a2), theta))
    ensures EqsConnect([Equal(h1, h2), Equal(a1, a2)], theta)
  {
    var l, r := Apply(App(h1, a1), theta), Apply(App(h2, a2), theta);
    var n: nat :| Linked(l, r, n);
    hide Linked;
    AppLinked(l.head, l.arg, r, n);
  }

  lemma {:induction false} FunsConnect(a1: Type, b1: Type, a2: Type, b2: Type, theta: Subst)
    requires Connects(Apply(Fun(a1, b1), theta), Apply(Fun(a2, b2), theta))
    ensures EqsConnect([Equal(a1, a2), Equal(b1, b2)], theta)
  {
    var l, r := Apply(Fun(a1, b1), theta), Apply(Fun(a2, b2), theta);
    var n: nat :| Linked(l, r, n);
    hide Linked;
    FunLinked(l, r, n);
  }

  lemma {:induction false} ZipConnects(ts: seq<Type>, us: seq<Type>, theta: Subst)
    requires |ts| == |us| && Connects(Apply(Tuple(ts), theta), Apply(Tuple(us), theta))
    ensures EqsConnect(Zip(ts, us), theta)
  {
    var l, r := Apply(Tuple(ts), theta), Apply(Tuple(us), theta);
    var n: nat :| Linked(l, r, n);
    assert forall i :: 0 <= i < |ts| ==> l.elems[i] == Apply(ts[i], theta) && r.elems[i] == Apply(us[i], theta);
    hide Linked, Connects, Apply;
    TupleLinked(l, r, n);
  }

  lemma {:induction false} ZipFieldsConnects(fs: seq<Field>, gs: seq<Field>, theta: Subst)
    requires |fs| == |gs| && Connects(Apply(Record(fs), theta), Apply(Record(gs), theta))
    ensures EqsConnect(ZipFields(fs, gs), theta)
  {
    var l, r := Apply(Record(fs), theta).fields, Apply(Record(gs), theta).fields;
    assert |l| == |r| == |fs|;
    assert forall i :: 0 <= i < |fs| ==> l[i].ty == Apply(fs[i].ty, theta) && r[i].ty == Apply(gs[i].ty, theta);
    hide Connects, Apply;
    RecordsConnect(l, r);
  }

  lemma {:induction false} ElemsConnect(h: Type, a: Type, fs: seq<Field>, theta: Subst)
    requires Connects(Apply(App(h, a), theta), Apply(Record(fs), theta))
    ensures fs != [] && Apply(h, theta) == DICT && EqsConnect(ElemEqs(fs) + [Equal(a, fs[0].ty)], theta)
  {
    var e, gs := Apply(a, theta), Apply(Record(fs), theta).fields;
    RecordAppConnect(Apply(h, theta), e, gs);
    assert |gs| == |fs| && forall i :: 0 <= i < |fs| ==> gs[i].ty == Apply(fs[i].ty, theta);
    hide Connects, Apply;
    var eqs := ElemEqs(fs) + [Equal(a, fs[0].ty)];
    forall i | 0 <= i < |eqs| && eqs[i].Equal? ensures Connects(Apply(eqs[i].lhs, theta), Apply(eqs[i].rhs, theta)) {
      if i < |fs| - 1 {
        ConnectsBack(e, gs[0].ty);
        ConnectsThen(gs[0].ty, e, gs[i + 1].ty);
      }
    }
  }

  /** What one call reduces connected types to is connected. */
  lemma {:induction false} PlanConnects(t1: Type, t2: Type, theta: Subst)
    requires Connects(Apply(t1, theta), Apply(t2, theta))
    ensures match PlanFor(t1, t2)
            case Fail(_) => true
            case Bind(v, t) => Connects(ApplyVar(v, theta), Apply(t, theta))
            case Solve(eqs) => EqsConnect(eqs, theta)
            case Elems(head, fields, arg) =>
              && fields != [] && (head.Some? ==> ApplyVar(head.value, theta) == DICT)
              && EqsConnect(ElemEqs(fields) + [Equal(arg, fields[0].ty)], theta)
  {
    assert EqsConnect([], theta);
    hide Connects, EqsConnect, ElemEqs;
    match (t1, t2)
    case (Var(_), _) =>
    case (_, Var(_)) => ConnectsBack(Apply(t1, theta), Apply(t2, theta));
    case (App(h1, a1), App(h2, a2)) => AppsConnect(h1, a1, h2, a2, theta);
    case (Fun(a1, b1), Fun(a2, b2)) => FunsConnect(a1, b1, a2, b2, theta);
    case (Tuple(ts), Tuple(us)) => if |ts| == |us| { ZipConnects(ts, us, theta); }
    case (Record(fs), Record(gs)) => if |fs| == |gs| { ZipFieldsConnects(fs, gs, theta); }
    case (Record(fs), App(h, a)) =>
      ConnectsBack(Apply(t1, theta), Apply(t2, theta));
      ElemsConnect(h, a, fs, theta);
    case (App(h, a), Record(fs)) => ElemsConnect(h, a, fs, theta);
    case _ =>
  }

  /** Whatever connects the two types factors through the result of unifying them, up to connection. */
  lemma {:induction false} ConnectedGeneral(t1: Type, t2: Type, theta: Subst)
    requires Connects(Apply(t1, theta), Apply(t2, theta))
    ensures ConnectAbsorbs(theta, Unify(ApplyHead, t1, t2).s)
    decreases |Vars(t1, t2)|, Size(t1) + Size(t2), 0, 0
  {
    hide Within, Grows, Range, EqVars, EqSize, Vars, Ambient, ElemWithin, Connects, EqsConnect, ElemEqs, Size;
    hide SizeFields, Apply, SolveFrom;
    PlanConnects(t1, t2, theta);
    match PlanFor(t1, t2)
    case Fail(_) =>
    case Bind(v, t) =>
    case Solve(eqs) =>
      SolveIsSmaller(t1, t2, eqs);
      ConnectedGeneralFrom(eqs, map[], theta);
    case Elems(head, fields, arg) =>
      ElemsIsSmaller(t1, t2);
      HeadAbsorbed(head, theta);
      ConnectedGeneralFrom(ElemEqs(fields) + [Equal(arg, fields[0].ty)], HeadSubst(head), theta);
  }

  lemma {:induction false} HeadAbsorbed(head: Option<nat>, theta: Subst)
    requires head.Some? ==> ApplyVar(head.value, theta) == DICT
    ensures ConnectAbsorbs(theta, HeadSubst(head))
  {
    hide Connects;
    ConnectsItself(DICT);
  }

  lemma {:induction false} ConnectedGeneralFrom(eqs: seq<Eq>, s: Subst, theta: Subst)
    requires EqsConnect(eqs, theta) && ConnectAbsorbs(theta, s)
    ensures ConnectAbsorbs(theta, SolveFrom(ApplyHead, eqs, s).s)
    decreases |EqVars(eqs, s)|, EqSize(eqs, s), 1, |eqs|
  {
    hide Within, Grows, Range, EqVars, EqSize, Vars, Connects, Unify, Apply, Compose, ConnectAbsorbs;
    if eqs != [] && eqs[0].Equal? {
      var l, r := eqs[0].lhs, eqs[0].rhs;
      CallIsSmaller(eqs, s);
      ThroughSubst(l, r, theta, s);
      ConnectedGeneral(Apply(l, s), Apply(r, s), theta);
      var u := Unify(ApplyHead, Apply(l, s), Apply(r, s));
      AbsorbsComposed(theta, u.s, s);
      if u.err.None? {
        StepIsSmaller(eqs, u.s, s);
        assert EqsConnect(eqs[1..], theta);
        ConnectedGeneralFrom(eqs[1..], Compose(u.s, s), theta);
      }
    }
  }

  // ---- what that says in plain equations ----------------------------------------------------------------------------

  lemma {:induction false} LinkedErase(a: Type, b: Type, n: nat)
    requires Linked(a, b, n)
    ensures Erased(a) == Erased(b)
    decreases n
  {
    hide Matches, Erased;
    if n > 0 {
      var m :| Matches(a, m) && Linked(m, b, n - 1);
      MatchesErase(a, m);
      LinkedErase(m, b, n - 1);
    }
  }

  /**
    A solution up to the coercion, erased, factors through the result of the in-place rule: doing the result
    first makes no difference to any type, once records are erased. A variable the result makes an atom is
    that atom in every solution.
   */
  lemma {:induction false} SolutionsFactor(t1: Type, t2: Type, theta: Subst, t: Type)
    requires Reconciles(theta, t1, t2)
    ensures var s := Unify(ApplyHead, t1, t2).s;
            && Erased(Apply(Apply(t, s), theta)) == Erased(Apply(t, theta))
            && (Apply(t, s).Con? ==> Apply(t, theta) == Apply(t, s))
  {
    hide Matches, Unify, Erased, Linked;
    MatchConnects(Apply(t1, theta), Apply(t2, theta));
    ConnectedGeneral(t1, t2, theta);
    var s := Unify(ApplyHead, t1, t2).s;
    AbsorbsType(t, theta, s);
    ConnectsBack(Apply(t, theta), Apply(Apply(t, s), theta));
    var n: nat :| Linked(Apply(Apply(t, s), theta), Apply(t, theta), n);
    LinkedErase(Apply(Apply(t, s), theta), Apply(t, theta), n);
    if Apply(t, s).Con? { AtomLinked(Apply(Apply(t, s), theta), Apply(t, theta), n); }
  }
}

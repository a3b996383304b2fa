/** Properties of types that unification cannot break. */
module Hereditary {
  import opened Wrappers
  import opened Types
  import opened Substitution
  import opened Unification
  import opened Soundness

  ghost predicate SubstHas(p: Type -> bool, s: Subst) {
    forall v :: v in s ==> p(s[v])
  }

  /** `p` passes to the parts of a type and is kept by substituting types that have it. */
  ghost predicate Closed(p: Type -> bool) {
    && p(DICT)
    && (forall t, s :: p(t) && SubstHas(p, s) ==> p(Apply(t, s)))
    && (forall t, i :: p(t) && 0 <= i < |Parts(t)| ==> p(Parts(t)[i]))
  }

  ghost predicate EqsHave(p: Type -> bool, eqs: seq<Eq>) {
    forall i :: 0 <= i < |eqs| && eqs[i].Equal? ==> p(eqs[i].lhs) && p(eqs[i].rhs)
  }

  ghost predicate FieldsAre(p: Type -> bool, fields: seq<Field>) {
    forall i :: 0 <= i < |fields| ==> p(fields[i].ty)
  }

  lemma {:induction false} PlanHas(p: Type -> bool, t1: Type, t2: Type)
    requires Closed(p) && p(t1) && p(t2)
    ensures match PlanFor(t1, t2)
            case Fail(_) => true
            case Bind(_, t) => p(t)
            case Solve(eqs) => EqsHave(p, eqs)
            case Elems(_, fields, arg) => p(arg) && FieldsAre(p, fields)
  {
    forall i | 0 <= i < |Parts(t1)| ensures p(Parts(t1)[i]) {}
    forall i | 0 <= i < |Parts(t2)| ensures p(Parts(t2)[i]) {}
    match (t1, t2)
    case (App(h1, a1), App(h2, a2)) =>
      assert Parts(t1)[0] == h1 && Parts(t1)[1] == a1 && Parts(t2)[0] == h2 && Parts(t2)[1] == a2;
    case (Fun(a1, b1), Fun(a2, b2)) =>
      assert Parts(t1)[0] == a1 && Parts(t1)[1] == b1 && Parts(t2)[0] == a2 && Parts(t2)[1] == b2;
    case (Tuple(ts), Tuple(us)) =>
      assert Parts(t1) == ts && Parts(t2) == us;
    case (Record(fs), Record(gs)) =>
      FieldsHave(p, t1);
      FieldsHave(p, t2);
    case (Record(fs), App(h, a)) =>
      FieldsHave(p, t1);
      assert Parts(t2)[1] == a;
    case (App(h, a), Record(fs)) =>
      FieldsHave(p, t2);
      assert Parts(t1)[1] == a;
    case _ =>
  }

  lemma {:induction false} FieldsHave(p: Type -> bool, t: Type)
    requires t.Record? && forall i :: 0 <= i < |Parts(t)| ==> p(Parts(t)[i])
    ensures FieldsAre(p, t.fields)
  {
    assert forall i :: 0 <= i < |t.fields| ==> Parts(t)[i] == t.fields[i].ty;
  }

  lemma {:induction false} ComposeHas(p: Type -> bool, a: Subst, b: Subst)
    requires Closed(p) && SubstHas(p, a) && SubstHas(p, b)
    ensures SubstHas(p, Compose(a, b))
  {
  }

  /** If both types have the property then so has everything substituted in. */
  lemma {:induction false} ResultHas(p: Type -> bool, rule: HeadRule, t1: Type, t2: Type)
    requires Closed(p) && p(t1) && p(t2)
    ensures SubstHas(p, Unify(rule, t1, t2).s)
    decreases |Vars(t1, t2)|, Size(t1) + Size(t2), 0, 2
  {
    hide Within, Grows, Range, EqVars, EqSize, Vars, Closed, Ambient, ElemWithin, Compose;
    PlanHas(p, t1, t2);
    match PlanFor(t1, t2)
    case Solve(eqs) =>
      SolveIsSmaller(t1, t2, eqs);
      ResultHasFrom(p, rule, eqs, map[]);
    case Elems(head, fields, arg) =>
      HeadHas(p, head);
      if fields != [] { ElemsResultHas(p, rule, t1, t2); }
    case _ =>
  }

  lemma {:induction false} ElemsResultHas(p: Type -> bool, rule: HeadRule, t1: Type, t2: Type)
    requires Closed(p) && p(t1) && p(t2) && PlanFor(t1, t2).Elems? && PlanFor(t1, t2).fields != []
    ensures SubstHas(p, Unify(rule, t1, t2).s)
    decreases |Vars(t1, t2)|, Size(t1) + Size(t2), 0, 1
  {
    hide Within, Grows, Range, EqVars, EqSize, Vars, Closed, Ambient, ElemWithin, Compose, Unify, SolveFrom;
    hide ElemFrom, Apply, HeadSubst;
    var Elems(head, fields, arg) := PlanFor(t1, t2);
    PlanHas(p, t1, t2);
    HeadHas(p, head);
    ElemsRun(t1, t2);
    if rule.ApplyHead? {
      ElemsIsSmaller(t1, t2);
      ResultHasFrom(p, rule, ElemEqs(fields) + [Equal(arg, fields[0].ty)], HeadSubst(head));
    } else {
      SkippedResultHas(p, t1, t2);
    }
  }

  lemma {:induction false} SkippedResultHas(p: Type -> bool, t1: Type, t2: Type)
    requires Closed(p) && PlanFor(t1, t2).Elems? && PlanFor(t1, t2).fields != []
    requires p(PlanFor(t1, t2).arg) && FieldsAre(p, PlanFor(t1, t2).fields)
    ensures SubstHas(p, Unify(SkipHead, t1, t2).s)
    decreases |Vars(t1, t2)|, Size(t1) + Size(t2), 0, 0
  {
    hide Within, Grows, Range, EqVars, EqSize, Vars, Closed, Ambient, ElemWithin, Compose, Unify, SolveFrom;
    hide ElemFrom, Apply, HeadSubst, PlanFor, Eliminates, Size, SizeFields;
    var Elems(head, fields, arg) := PlanFor(t1, t2);
    HeadHas(p, head);
    ElemsRun(t1, t2);
    FieldsIsSmaller(t1, t2);
    FieldsHaveRest(p, fields);
    ElemFromHas(p, fields[1..], fields[0].ty, map[]);
    var f := ElemFrom(fields[1..], fields[0].ty, map[]);
    ComposeHas(p, f.s, HeadSubst(head));
    if f.err.None? {
      var l := Apply(Apply(arg, HeadSubst(head)), f.s);
      SkippedArgHas(p, head, arg, f.s);
      SkippedArgIsSmaller(t1, t2, f);
      ResultHas(p, SkipHead, l, f.elem);
      ComposeHas(p, Unify(SkipHead, l, f.elem).s, Compose(f.s, HeadSubst(head)));
    }
  }

  lemma {:induction false} FieldsHaveRest(p: Type -> bool, fields: seq<Field>)
    requires FieldsAre(p, fields) && fields != []
    ensures FieldsAre(p, fields[1..]) && p(fields[0].ty)
  {
  }

  lemma {:induction false} ElemFromHas(p: Type -> bool, rest: seq<Field>, current: Type, s: Subst)
    requires Closed(p) && FieldsAre(p, rest) && p(current) && SubstHas(p, s) && Eliminates(s)
    ensures var o := ElemFrom(rest, current, s);
            SubstHas(p, o.s) && (o.err.None? ==> p(o.elem))
    decreases |Ambient(rest, current, s)|, if s == map[] then Size(current) + SizeFields(rest) else 0, 1, |rest|
  {
    hide Within, Range, Ambient, Vars, Unify, Eliminates, ElemWithin, Apply, Compose, Closed, SubstHas, FieldsAre;
    ApplyHas(p, current, s);
    if rest != [] {
      FieldsHaveRest(p, rest);
      ApplyHas(p, rest[0].ty, s);
      ElemCallIsSmaller(rest, current, s);
      var l, r := Apply(current, s), Apply(rest[0].ty, s);
      ResultHas(p, SkipHead, l, r);
      var u := Unify(SkipHead, l, r);
      ComposeHas(p, u.s, s);
      ElemStep(rest, current, s, u.s);
      if u.err.None? {
        ApplyHas(p, current, Compose(u.s, s));
        ElemFromHas(p, rest[1..], Apply(current, Compose(u.s, s)), Compose(u.s, s));
      }
    }
  }

  lemma {:induction false} HeadHas(p: Type -> bool, head: Option<nat>)
    requires Closed(p)
    ensures SubstHas(p, HeadSubst(head))
  {
  }

  lemma {:induction false} ApplyHas(p: Type -> bool, t: Type, s: Subst)
    requires Closed(p) && p(t) && SubstHas(p, s)
    ensures p(Apply(t, s))
  {
  }

  lemma {:induction false} ResultHasFrom(p: Type -> bool, rule: HeadRule, eqs: seq<Eq>, s: Subst)
    requires Closed(p) && EqsHave(p, eqs) && SubstHas(p, s)
    ensures SubstHas(p, SolveFrom(rule, eqs, s).s)
    decreases |EqVars(eqs, s)|, EqSize(eqs, s), 1, |eqs|
  {
    hide Within, Grows, Range, EqVars, EqSize, Vars, Closed, Unify, Apply, Compose, SubstHas;
    if eqs != [] && eqs[0].Equal? {
      var l, r := Apply(eqs[0].lhs, s), Apply(eqs[0].rhs, s);
      assert p(eqs[0].lhs) && p(eqs[0].rhs) && EqsHave(p, eqs[1..]);
      ApplyHas(p, eqs[0].lhs, s);
      ApplyHas(p, eqs[0].rhs, s);
      CallIsSmaller(eqs, s);
      ResultHas(p, rule, l, r);
      var u := Unify(rule, l, r);
      ComposeHas(p, u.s, s);
      if u.err.None? {
        StepIsSmaller(eqs, u.s, s);
        ResultHasFrom(p, rule, eqs[1..], Compose(u.s, s));
      }
    }
  }

  /** A call property that follows from a closed property of its types holds of every call of the run. */
  lemma {:induction false} EveryCallHas(p: Type -> bool, q: CallProperty, t1: Type, t2: Type)
    requires Closed(p) && p(t1) && p(t2)
    requires forall a, b :: p(a) && p(b) ==> q(a, b)
    ensures EveryCall(q, t1, t2)
    decreases |Vars(t1, t2)|, Size(t1) + Size(t2), 0, 0
  {
    hide Within, Grows, Range, EqVars, EqSize, Vars, Closed, Ambient, ElemWithin, ElemFrom, SolveFrom, Apply;
    hide HeadSubst, FieldsAre;
    PlanHas(p, t1, t2);
    match PlanFor(t1, t2)
    case Solve(eqs) =>
      SolveIsSmaller(t1, t2, eqs);
      EveryCallHasFrom(p, q, eqs, map[]);
    case Elems(head, fields, arg) =>
      if fields != [] {
        FieldsIsSmaller(t1, t2);
        FieldsHaveRest(p, fields);
        EveryCallHasElems(p, q, fields[1..], fields[0].ty, map[]);
        var f := ElemFrom(fields[1..], fields[0].ty, map[]);
        if f.err.None? {
          ElemFromHas(p, fields[1..], fields[0].ty, map[]);
          SkippedArgHas(p, head, arg, f.s);
          SkippedArgIsSmaller(t1, t2, f);
          EveryCallHas(p, q, Apply(Apply(arg, HeadSubst(head)), f.s), f.elem);
        }
      }
    case _ =>
  }

  lemma {:induction false} EveryCallHasElems(p: Type -> bool, q: CallProperty, rest: seq<Field>, current: Type, s: Subst)
    requires Closed(p) && FieldsAre(p, rest) && p(current) && SubstHas(p, s) && Eliminates(s)
    requires forall a, b :: p(a) && p(b) ==> q(a, b)
    ensures EveryCallElems(q, rest, current, s)
    decreases |Ambient(rest, current, s)|, if s == map[] then Size(current) + SizeFields(rest) else 0, 1, |rest|
  {
    hide Within, Range, Ambient, Vars, Unify, Eliminates, ElemWithin, Apply, Compose, Closed, SubstHas;
    hide FieldsAre, EveryCall;
    ApplyHas(p, current, s);
    if rest != [] {
      FieldsHaveRest(p, rest);
      ApplyHas(p, rest[0].ty, s);
      ElemCallIsSmaller(rest, current, s);
      var l, r := Apply(current, s), Apply(rest[0].ty, s);
      EveryCallHas(p, q, l, r);
      ResultHas(p, SkipHead, l, r);
      var u := Unify(SkipHead, l, r);
      ComposeHas(p, u.s, s);
      ElemStep(rest, current, s, u.s);
      if u.err.None? {
        ApplyHas(p, current, Compose(u.s, s));
        EveryCallHasElems(p, q, rest[1..], Apply(current, Compose(u.s, s)), Compose(u.s, s));
      }
    }
  }

  lemma {:induction false} SkippedArgHas(p: Type -> bool, head: Option<nat>, arg: Type, s: Subst)
    requires Closed(p) && p(arg) && SubstHas(p, s)
    ensures p(Apply(Apply(arg, HeadSubst(head)), s))
  {
    HeadHas(p, head);
    ApplyHas(p, arg, HeadSubst(head));
    ApplyHas(p, Apply(arg, HeadSubst(head)), s);
  }

  lemma {:induction false} EveryCallHasFrom(p: Type -> bool, q: CallProperty, eqs: seq<Eq>, s: Subst)
    requires Closed(p) && EqsHave(p, eqs) && SubstHas(p, s)
    requires forall a, b :: p(a) && p(b) ==> q(a, b)
    ensures EveryCallFrom(q, eqs, s)
    decreases |EqVars(eqs, s)|, EqSize(eqs, s), 1, |eqs|
  {
    hide Within, Grows, Range, EqVars, EqSize, Vars, Closed, Unify, Apply, Compose, SubstHas, EveryCall, SolveFrom;
    if eqs != [] && eqs[0].Equal? {
      var l, r := Apply(eqs[0].lhs, s), Apply(eqs[0].rhs, s);
      assert p(eqs[0].lhs) && p(eqs[0].rhs) && EqsHave(p, eqs[1..]);
      ApplyHas(p, eqs[0].lhs, s);
      ApplyHas(p, eqs[0].rhs, s);
      CallIsSmaller(eqs, s);
      EveryCallHas(p, q, l, r);
      ResultHas(p, SkipHead, l, r);
      var u := Unify(SkipHead, l, r);
      ComposeHas(p, u.s, s);
      if u.err.None? {
        StepIsSmaller(eqs, u.s, s);
        EveryCallHasFrom(p, q, eqs[1..], Compose(u.s, s));
      }
    }
  }
}

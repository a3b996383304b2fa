/**
  What unification establishes: equality of types, up to a non-empty record standing for the
  dictionary type of its first field.
 */
module Matching {
  import opened Types
  import opened Substitution
  import opened Unification

  ghost predicate Matches(a: Type, b: Type)
    decreases Size(a) + Size(b)
  {
    match (a, b)
    case (Var(v), Var(w)) => v == w
    case (Con(c), Con(d)) => c == d
    case (App(h1, a1), App(h2, a2)) => Matches(h1, h2) && Matches(a1, a2)
    case (Fun(a1, b1), Fun(a2, b2)) => Matches(a1, a2) && Matches(b1, b2)
    case (Tuple(ts), Tuple(us)) =>
      |ts| == |us| && forall i :: 0 <= i < |ts| ==>
        (SizeOfElem(ts, i); SizeOfElem(us, i); Matches(ts[i], us[i]))
    case (Record(fs), Record(gs)) =>
      |fs| == |gs| && forall i :: 0 <= i < |fs| ==>
        (SizeOfField(fs, i); SizeOfField(gs, i); fs[i].name == gs[i].name && Matches(fs[i].ty, gs[i].ty))
    case (Record(fs), App(h, e)) =>
      FieldsAreSmaller(fs);
      h == DICT && fs != [] && Matches(e, fs[0].ty) && forall i :: 0 < i < |fs| ==> Matches(fs[0].ty, fs[i].ty)
    case (App(h, e), Record(fs)) =>
      FieldsAreSmaller(fs);
      h == DICT && fs != [] && Matches(e, fs[0].ty) && forall i :: 0 < i < |fs| ==> Matches(fs[0].ty, fs[i].ty)
    case _ => false
  }

  lemma {:induction false} MatchesItself(t: Type)
    ensures Matches(t, t)
    decreases t
  {
    match t
    case App(h, a) => MatchesItself(h); MatchesItself(a);
    case Fun(a, b) => MatchesItself(a); MatchesItself(b);
    case Tuple(ts) =>
      forall i | 0 <= i < |ts| ensures Matches(ts[i], ts[i]) { MatchesItself(ts[i]); }
    case Record(fs) =>
      forall i | 0 <= i < |fs| ensures Matches(fs[i].ty, fs[i].ty) { MatchesItself(fs[i].ty); }
    case _ =>
  }

  /** Instantiating two matching types keeps them matching. */
  lemma {:induction false} MatchesStable(a: Type, b: Type, theta: Subst)
    requires Matches(a, b)
    ensures Matches(Apply(a, theta), Apply(b, theta))
    decreases Size(a) + Size(b), 1
  {
    match (a, b)
    case (Var(v), _) => MatchesItself(ApplyVar(v, theta));
    case (Con(_), _) =>
    case (App(h1, a1), App(h2, a2)) => MatchesStable(h1, h2, theta); MatchesStable(a1, a2, theta);
    case (Fun(a1, b1), Fun(a2, b2)) => MatchesStable(a1, a2, theta); MatchesStable(b1, b2, theta);
    case (Tuple(ts), Tuple(us)) => TupleStable(ts, us, theta, Size(a) + Size(b));
    case (Record(fs), Record(gs)) => RecordStable(fs, gs, theta, Size(a) + Size(b));
    case (Record(fs), App(_, e)) => DictStable(fs, e, theta, Size(a) + Size(b));
    case (App(_, e), Record(fs)) => DictStable(fs, e, theta, Size(a) + Size(b));
  }

  lemma {:induction false} TupleStable(ts: seq<Type>, us: seq<Type>, theta: Subst, bound: nat)
    requires |ts| == |us| && Size(Tuple(ts)) + Size(Tuple(us)) <= bound && forall i :: 0 <= i < |ts| ==> Matches(ts[i], us[i])
    ensures Matches(Apply(Tuple(ts), theta), Apply(Tuple(us), theta))
    decreases bound, 0
  {
    forall i | 0 <= i < |ts| ensures Matches(Apply(ts[i], theta), Apply(us[i], theta)) {
      SizeOfElem(ts, i);
      SizeOfElem(us, i);
      MatchesStable(ts[i], us[i], theta);
    }
  }

  lemma {:induction false} RecordStable(fs: seq<Field>, gs: seq<Field>, theta: Subst, bound: nat)
    requires |fs| == |gs| && Size(Record(fs)) + Size(Record(gs)) <= bound
    requires forall i :: 0 <= i < |fs| ==> fs[i].name == gs[i].name && Matches(fs[i].ty, gs[i].ty)
    ensures Matches(Apply(Record(fs), theta), Apply(Record(gs), theta))
    decreases bound, 0
  {
    forall i | 0 <= i < |fs| ensures Matches(Apply(fs[i].ty, theta), Apply(gs[i].ty, theta)) {
      SizeOfField(fs, i);
      SizeOfField(gs, i);
      MatchesStable(fs[i].ty, gs[i].ty, theta);
    }
  }

  lemma {:induction false} DictStable(fs: seq<Field>, e: Type, theta: Subst, bound: nat)
    requires fs != [] && Size(Record(fs)) + Size(e) < bound
    requires Matches(e, fs[0].ty) && forall i :: 0 < i < |fs| ==> Matches(fs[0].ty, fs[i].ty)
    ensures Matches(Apply(e, theta), Apply(fs[0].ty, theta))
    ensures forall i :: 0 < i < |fs| ==> Matches(Apply(fs[0].ty, theta), Apply(fs[i].ty, theta))
    decreases bound, 0
  {
    FieldsAreSmaller(fs);
    MatchesStable(e, fs[0].ty, theta);
    forall i | 0 < i < |fs| ensures Matches(Apply(fs[0].ty, theta), Apply(fs[i].ty, theta)) {
      MatchesStable(fs[0].ty, fs[i].ty, theta);
    }
  }

  /** Matching types have the same free variables: the coercion neither drops nor invents one. */
  lemma {:induction false} MatchesFtv(a: Type, b: Type)
    requires Matches(a, b)
    ensures Ftv(a) == Ftv(b)
    decreases Size(a) + Size(b)
  {
    match (a, b)
    case (Var(_), _) =>
    case (Con(_), _) =>
    case (App(h1, a1), App(h2, a2)) => MatchesFtv(h1, h2); MatchesFtv(a1, a2);
    case (Fun(a1, b1), Fun(a2, b2)) => MatchesFtv(a1, a2); MatchesFtv(b1, b2);
    case (Tuple(ts), Tuple(us)) =>
      forall i | 0 <= i < |ts| ensures Ftv(ts[i]) == Ftv(us[i]) {
        SizeOfElem(ts, i);
        SizeOfElem(us, i);
        MatchesFtv(ts[i], us[i]);
      }
    case (Record(fs), Record(gs)) =>
      forall i | 0 <= i < |fs| ensures Ftv(fs[i].ty) == Ftv(gs[i].ty) {
        SizeOfField(fs, i);
        SizeOfField(gs, i);
        MatchesFtv(fs[i].ty, gs[i].ty);
      }
    case (Record(fs), App(_, e)) => DictFtv(fs, e, Size(a) + Size(b));
    case (App(_, e), Record(fs)) => DictFtv(fs, e, Size(a) + Size(b));
  }

  lemma {:induction false} DictFtv(fs: seq<Field>, e: Type, bound: nat)
    requires fs != [] && Size(Record(fs)) + Size(e) < bound
    requires Matches(e, fs[0].ty) && forall i :: 0 < i < |fs| ==> Matches(fs[0].ty, fs[i].ty)
    ensures Ftv(e) == FtvFields(fs)
    decreases bound, 0
  {
    FieldsAreSmaller(fs);
    MatchesFtv(e, fs[0].ty);
    forall i | 0 <= i < |fs| ensures Ftv(fs[i].ty) == Ftv(e) {
      if i > 0 { MatchesFtv(fs[0].ty, fs[i].ty); }
    }
  }

  // ---- without records the relation is equality -----------------------------------------------

  ghost predicate RecordFree(t: Type)
    decreases t
  {
    !t.Record? && forall i :: 0 <= i < |Parts(t)| ==> RecordFree(Parts(t)[i])
  }

  lemma {:induction false} MatchesIsEquality(a: Type, b: Type)
    requires Matches(a, b) && RecordFree(a) && RecordFree(b)
    ensures a == b
    decreases Size(a) + Size(b)
  {
    match (a, b)
    case (App(h1, a1), App(h2, a2)) =>
      assert Parts(a)[0] == h1 && Parts(a)[1] == a1 && Parts(b)[0] == h2 && Parts(b)[1] == a2;
      MatchesIsEquality(h1, h2);
      MatchesIsEquality(a1, a2);
    case (Fun(a1, b1), Fun(a2, b2)) =>
      assert Parts(a)[0] == a1 && Parts(a)[1] == b1 && Parts(b)[0] == a2 && Parts(b)[1] == b2;
      MatchesIsEquality(a1, a2);
      MatchesIsEquality(b1, b2);
    case (Tuple(ts), Tuple(us)) =>
      forall i | 0 <= i < |ts| ensures ts[i] == us[i] {
        assert Parts(a)[i] == ts[i] && Parts(b)[i] == us[i];
        SizeOfElem(ts, i);
        SizeOfElem(us, i);
        MatchesIsEquality(ts[i], us[i]);
      }
    case _ =>
  }

  /** One step's plan is exactly what has to match for the two types to match. */
  lemma {:induction false} MatchesByPlan(a: Type, b: Type, s: Subst)
    requires PlanFor(a, b).Solve?
    requires forall i :: 0 <= i < |PlanFor(a, b).eqs| ==>
               var eq := PlanFor(a, b).eqs[i];
               eq.Equal? && Matches(Apply(eq.lhs, s), Apply(eq.rhs, s))
    ensures Matches(Apply(a, s), Apply(b, s))
  {
    hide Size, SizeAll, SizeFields, Ftv, FtvAll, FtvFields, Parts;
    var eqs := PlanFor(a, b).eqs;
    match (a, b)
    case (Var(v), _) => MatchesItself(ApplyVar(v, s));
    case (App(h1, a1), App(h2, a2)) =>
      assert eqs[0] == Equal(h1, h2) && eqs[1] == Equal(a1, a2);
    case (Fun(a1, b1), Fun(a2, b2)) =>
      assert eqs[0] == Equal(a1, a2) && eqs[1] == Equal(b1, b2);
    case (Tuple(ts), Tuple(us)) =>
      forall i | 0 <= i < |ts| ensures Matches(Apply(ts[i], s), Apply(us[i], s)) { assert eqs[i] == Equal(ts[i], us[i]); }
      TuplesMatch(ts, us, s);
    case (Record(fs), Record(gs)) =>
      forall i | 0 <= i < |fs|
        ensures fs[i].name == gs[i].name && Matches(Apply(fs[i].ty, s), Apply(gs[i].ty, s))
      {
        assert eqs[i].Equal?;
      }
      RecordsMatch(fs, gs, s);
    case _ =>
  }

  lemma {:induction false} TuplesMatch(ts: seq<Type>, us: seq<Type>, s: Subst)
    requires |ts| == |us| && forall i :: 0 <= i < |ts| ==> Matches(Apply(ts[i], s), Apply(us[i], s))
    ensures Matches(Apply(Tuple(ts), s), Apply(Tuple(us), s))
  {
    hide PlanFor, Size, SizeAll, Ftv, FtvAll;
  }

  lemma {:induction false} RecordsMatch(fs: seq<Field>, gs: seq<Field>, s: Subst)
    requires |fs| == |gs|
    requires forall i :: 0 <= i < |fs| ==> fs[i].name == gs[i].name && Matches(Apply(fs[i].ty, s), Apply(gs[i].ty, s))
    ensures Matches(Apply(Record(fs), s), Apply(Record(gs), s))
  {
    hide PlanFor, Size, SizeFields, Ftv, FtvFields;
  }

  lemma {:induction false} ElemsMatch(fs: seq<Field>, e: Type, s: Subst)
    requires fs != []
    requires var eqs := ElemEqs(fs) + [Equal(e, fs[0].ty)];
             forall i :: 0 <= i < |eqs| ==> Matches(Apply(eqs[i].lhs, s), Apply(eqs[i].rhs, s))
    ensures Matches(Apply(Record(fs), s), App(DICT, Apply(e, s)))
    ensures Matches(App(DICT, Apply(e, s)), Apply(Record(fs), s))
  {
    hide PlanFor, Size, SizeFields, Ftv, FtvFields;
    var eqs := ElemEqs(fs) + [Equal(e, fs[0].ty)];
    assert eqs[|fs| - 1] == Equal(e, fs[0].ty);
    forall i | 0 < i < |fs| ensures Matches(Apply(fs[0].ty, s), Apply(fs[i].ty, s)) {
      assert eqs[i - 1] == Equal(fs[0].ty, fs[i].ty);
    }
  }
}

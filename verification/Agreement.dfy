/** Starting from an old solution, and where the two head rules give the same answer. */
module Agreement {
  import opened Wrappers
  import opened Types
  import opened Substitution
  import opened Unification
  import opened Matching
  import opened Soundness
  import opened Loops
  import opened Hereditary

  /** None of the equations speaks of a variable in `vs`. */
  ghost predicate Avoids(eqs: seq<Eq>, vs: set<nat>) {
    forall i :: 0 <= i < |eqs| && eqs[i].Equal? ==> Vars(eqs[i].lhs, eqs[i].rhs) !! vs
  }

  lemma {:induction false} AvoidingApply(t: Type, x: Subst, h: Subst)
    requires Ftv(t) !! h.Keys && x.Keys !! h.Keys
    ensures Apply(t, Compose(x, h)) == Apply(t, x)
  {
    ComposeApply(t, x, h);
    ApplyDisjoint(t, h);
  }

  lemma {:induction false} AvoidingVars(t: Type, x: Subst, vs: set<nat>)
    requires Ftv(t) !! vs && Range(x) !! vs
    ensures Ftv(Apply(t, x)) !! vs
  {
    FtvApplyBound(t, x);
  }

  /** What was solved before is carried along when the equations no longer mention it. */
  lemma {:induction false} CarriesAlong(eqs: seq<Eq>, x: Subst, h: Subst)
    requires Resolved(x) && Avoids(eqs, h.Keys) && x.Keys !! h.Keys && Range(x) !! h.Keys
    ensures var o := SolveFrom(ApplyHead, eqs, x);
            SolveFrom(ApplyHead, eqs, Compose(x, h)) == Outcome(Compose(o.s, h), o.err)
    decreases |EqVars(eqs, x)|, EqSize(eqs, x), |eqs|
  {
    hide Within, Grows, Range, Resolved, Matches, EqVars, EqSize, Apply, Compose, Absorbs, Unify;
    if eqs != [] && eqs[0].Equal? {
      var l, r := eqs[0].lhs, eqs[0].rhs;
      assert Vars(l, r) !! h.Keys;
      AvoidingApply(l, x, h);
      AvoidingApply(r, x, h);
      AvoidingVars(l, x, h.Keys);
      AvoidingVars(r, x, h.Keys);
      var u := Unify(ApplyHead, Apply(l, x), Apply(r, x));
      UnifySound(Apply(l, x), Apply(r, x));
      StepSolves(l, r, u.s, x);
      StaysAway(u.s, x, h.Keys, Vars(Apply(l, x), Apply(r, x)));
      ComposeAssoc(u.s, x, h);
      if u.err.None? {
        StepIsSmaller(eqs, u.s, x);
        assert Avoids(eqs[1..], h.Keys);
        CarriesAlong(eqs[1..], Compose(u.s, x), h);
      }
    }
  }

  lemma {:induction false} StaysAway(u: Subst, x: Subst, hs: set<nat>, vs: set<nat>)
    requires Within(u, vs) && vs !! hs && x.Keys !! hs && Range(x) !! hs
    ensures Compose(u, x).Keys !! hs && Range(Compose(u, x)) !! hs
  {
    RangeOfCompose(u, x);
  }

  lemma {:induction false} SolveAppend(rule: HeadRule, p: seq<Eq>, q: seq<Eq>, s: Subst)
    ensures var o := SolveFrom(rule, p, s);
            SolveFrom(rule, p + q, s) == if o.err.Some? then o else SolveFrom(rule, q, o.s)
    decreases |p|
  {
    hide Within, Grows, Range, EqVars, EqSize, Apply, Compose, Unify;
    if p == [] {
      assert p + q == q;
    } else {
      assert (p + q)[1..] == p[1..] + q;
      if p[0].Equal? {
        var u := Unify(rule, Apply(p[0].lhs, s), Apply(p[0].rhs, s));
        SolveAppend(rule, p[1..], q, Compose(u.s, s));
      }
    }
  }

  lemma {:induction false} SolveOne(rule: HeadRule, l: Type, r: Type, s: Subst)
    ensures var u := Unify(rule, Apply(l, s), Apply(r, s));
            SolveFrom(rule, [Equal(l, r)], s) == Outcome(Compose(u.s, s), u.err)
  {
    hide Within, Grows, Range, EqVars, EqSize, Apply, Unify;
    var u := Unify(rule, Apply(l, s), Apply(r, s));
    assert SolveFrom(rule, [Equal(l, r)][1..], Compose(u.s, s)) == Outcome(Compose(u.s, s), None);
  }

  // ---- the two rules --------------------------------------------------------------------------------

  /** The head variable does not occur in the fields it is matched against. */
  ghost predicate HeadFree(t1: Type, t2: Type) {
    match PlanFor(t1, t2)
    case Elems(Some(v), fields, _) => v !in FtvFields(fields)
    case _ => true
  }

  /** Same error, and the same substitution if there is none. */
  ghost predicate SameResult(o: Outcome, p: Outcome) {
    o.err == p.err && (o.err.None? ==> o.s == p.s)
  }

  /** On runs whose head variables stay out of the fields the pure unifier is the in-place one. */
  lemma {:induction false} RulesAgree(t1: Type, t2: Type)
    requires EveryCall(HeadFree, t1, t2)
    ensures SameResult(Unify(SkipHead, t1, t2), Unify(ApplyHead, t1, t2))
    decreases |Vars(t1, t2)|, Size(t1) + Size(t2), 0, 1
  {
    hide Within, Grows, Range, Resolved, Matches, EqVars, EqSize, Vars, Absorbs, Ambient, ElemWithin, ElemFrom, Apply;
    match PlanFor(t1, t2)
    case Solve(eqs) =>
      SolveIsSmaller(t1, t2, eqs);
      EmptyResolved();
      RulesAgreeFrom(eqs, map[]);
    case Elems(head, fields, arg) =>
      if fields != [] { RulesAgreeAtElems(t1, t2); }
    case _ =>
  }

  lemma {:induction false} RulesAgreeFrom(eqs: seq<Eq>, s: Subst)
    requires EveryCallFrom(HeadFree, eqs, s)
    ensures SameResult(SolveFrom(SkipHead, eqs, s), SolveFrom(ApplyHead, eqs, s))
    decreases |EqVars(eqs, s)|, EqSize(eqs, s), 1, |eqs|
  {
    hide Within, Grows, Range, Resolved, Matches, EqVars, EqSize, Vars, Absorbs, Unify, EveryCall, HeadFree;
    hide Apply, Compose;
    if eqs != [] && eqs[0].Equal? {
      var l, r := Apply(eqs[0].lhs, s), Apply(eqs[0].rhs, s);
      CallIsSmaller(eqs, s);
      RulesAgree(l, r);
      var u := Unify(SkipHead, l, r);
      if u.err.None? {
        StepIsSmaller(eqs, u.s, s);
        RulesAgreeFrom(eqs[1..], Compose(u.s, s));
      }
    }
  }

  /** The first field against each later one, as equations. */
  ghost function FirstEqs(first: Type, rest: seq<Field>): (eqs: seq<Eq>)
    ensures |eqs| == |rest| && forall i :: 0 <= i < |rest| ==> eqs[i] == Equal(first, rest[i].ty)
  {
    seq(|rest|, i requires 0 <= i < |rest| => Equal(first, rest[i].ty))
  }

  lemma {:induction false} FirstEqsAreElemEqs(fields: seq<Field>)
    requires fields != []
    ensures FirstEqs(fields[0].ty, fields[1..]) == ElemEqs(fields)
  {
  }

  lemma {:induction false} SolveFirst(first: Type, rest: seq<Field>, s: Subst)
    requires rest != []
    ensures var u := Unify(ApplyHead, Apply(first, s), Apply(rest[0].ty, s));
            SolveFrom(ApplyHead, FirstEqs(first, rest), s)
            == if u.err.Some? then Outcome(Compose(u.s, s), u.err)
               else SolveFrom(ApplyHead, FirstEqs(first, rest[1..]), Compose(u.s, s))
  {
    hide Within, Grows, EqVars, EqSize, Apply, Compose, Unify;
    assert FirstEqs(first, rest)[1..] == FirstEqs(first, rest[1..]);
  }

  /** The pure field loop does what the equations say as long as its substitutions are resolved. */
  lemma {:induction false} ElemsAgree(rest: seq<Field>, current: Type, s: Subst, first: Type)
    requires Resolved(s) && Eliminates(s) && Apply(current, s) == Apply(first, s)
    requires EveryCallElems(HeadFree, rest, current, s)
    ensures var o, p := ElemFrom(rest, current, s), SolveFrom(ApplyHead, FirstEqs(first, rest), s);
            o.err == p.err && (o.err.None? ==> o.s == p.s && Resolved(o.s) && o.elem == Apply(first, o.s))
    decreases |Ambient(rest, current, s)|, if s == map[] then Size(current) + SizeFields(rest) else 0, 1, |rest|
  {
    hide Within, Range, Resolved, Absorbs, Matches, Ambient, Vars, EveryCall, HeadFree, Unify, Eliminates;
    hide ElemWithin, Apply, Compose, Grows, EqVars, EqSize, FirstEqs, SolveFrom;
    if rest == [] {
      assert FirstEqs(first, rest) == [];
      LoopEnd(ApplyHead, [], s);
    } else {
      ElemCallIsSmaller(rest, current, s);
      var l, r := Apply(current, s), Apply(rest[0].ty, s);
      var u := Unify(SkipHead, l, r);
      RulesAgree(l, r);
      ElemStep(rest, current, s, u.s);
      SolveFirst(first, rest, s);
      if u.err.None? {
        UnifySound(l, r);
        StepSolves(first, rest[0].ty, u.s, s);
        var c := Compose(u.s, s);
        UpToDate(current, first, s, c);
        ElemsAgree(rest[1..], Apply(current, c), c, first);
      }
    }
  }

  lemma {:induction false} ElemsFreeParts(t1: Type, t2: Type)
    requires PlanFor(t1, t2).Elems? && PlanFor(t1, t2).fields != []
    requires EveryCall(HeadFree, t1, t2)
    ensures Eliminates(map[])
    ensures var Elems(head, fields, arg) := PlanFor(t1, t2);
            var f := ElemFrom(fields[1..], fields[0].ty, map[]);
            && FtvFields(fields) !! HeadSubst(head).Keys
            && EveryCallElems(HeadFree, fields[1..], fields[0].ty, map[])
            && (f.err.None? ==> EveryCall(HeadFree, Apply(Apply(arg, HeadSubst(head)), f.s), f.elem))
  {
    hide Within, Grows, Range, EqVars, EqSize, Vars, EveryCallElems, Apply, SolveFrom, ElemEqs, ElemFrom;
    hide Ambient, ElemWithin;
    assert HeadFree(t1, t2);
  }

  lemma {:induction false} RulesAgreeAtElems(t1: Type, t2: Type)
    requires PlanFor(t1, t2).Elems? && PlanFor(t1, t2).fields != []
    requires EveryCall(HeadFree, t1, t2)
    ensures SameResult(Unify(SkipHead, t1, t2), Unify(ApplyHead, t1, t2))
    decreases |Vars(t1, t2)|, Size(t1) + Size(t2), 0, 0
  {
    hide Within, Grows, Range, Resolved, Matches, EqVars, EqSize, Vars, Absorbs, ElemEqs, EveryCall;
    hide EveryCallElems, Apply, Compose, FtvFields, SolveFrom, Unify, Avoids, ElemFrom, Ambient, ElemWithin;
    hide Eliminates, HeadSubst, PlanFor, FirstEqs, Size, SizeFields;
    var Elems(head, fields, arg) := PlanFor(t1, t2);
    var h, eqs := HeadSubst(head), ElemEqs(fields);
    ElemsFreeParts(t1, t2);
    ElemsRun(t1, t2);
    FieldsAvoid(fields, head);
    EmptyResolved();
    FieldsIsSmaller(t1, t2);
    FirstEqsAreElemEqs(fields);
    ElemsAgree(fields[1..], fields[0].ty, map[], fields[0].ty);
    var f := ElemFrom(fields[1..], fields[0].ty, map[]);
    ComposeEmpty(h);
    CarriesAlong(eqs, map[], h);
    SolveAppend(ApplyHead, eqs, [Equal(arg, fields[0].ty)], h);
    if f.err.None? {
      var l := Apply(Apply(arg, h), f.s);
      SkippedArgIsSmaller(t1, t2, f);
      RulesAgree(l, f.elem);
      SolveOne(ApplyHead, arg, fields[0].ty, Compose(f.s, h));
      FieldsStayAway(fields, f.s, head);
      ComposeApply(arg, f.s, h);
      AvoidingApply(fields[0].ty, f.s, h);
    }
  }

  lemma {:induction false} FieldsAvoid(fields: seq<Field>, head: Option<nat>)
    requires fields != [] && FtvFields(fields) !! HeadSubst(head).Keys
    ensures Avoids(ElemEqs(fields), HeadSubst(head).Keys) && Ftv(fields[0].ty) !! HeadSubst(head).Keys
    ensures Range(map[]) == {}
  {
  }

  lemma {:induction false} FieldsStayAway(fields: seq<Field>, f: Subst, head: Option<nat>)
    requires fields != [] && FtvFields(fields) !! HeadSubst(head).Keys
    requires Within(f, Ambient(fields[1..], fields[0].ty, map[]))
    ensures f.Keys !! HeadSubst(head).Keys
  {
    FtvOfRest(fields);
  }

  // ---- a check on the two types alone -------------------------------------------------------------------

  /** No application in the type has a variable for its head. */
  ghost predicate NoVarHeads(t: Type)
    decreases t
  {
    !(t.App? && t.head.Var?) && forall i :: 0 <= i < |Parts(t)| ==> NoVarHeads(Parts(t)[i])
  }

  lemma {:induction false} NoVarHeadsApply(t: Type, s: Subst)
    requires NoVarHeads(t) && SubstHas(NoVarHeads, s)
    ensures NoVarHeads(Apply(t, s))
    decreases t
  {
    if !t.Var? {
      ApplyParts(t, s);
      forall i | 0 <= i < |Parts(t)| ensures NoVarHeads(Apply(Parts(t)[i], s)) { NoVarHeadsApply(Parts(t)[i], s); }
    }
  }

  lemma {:induction false} NoVarHeadsClosed()
    ensures Closed(NoVarHeads)
  {
    forall t, s | NoVarHeads(t) && SubstHas(NoVarHeads, s) ensures NoVarHeads(Apply(t, s)) { NoVarHeadsApply(t, s); }
    assert Parts(DICT) == [];
  }

  lemma {:induction false} NoVarHeadsFree(a: Type, b: Type)
    requires NoVarHeads(a) && NoVarHeads(b)
    ensures HeadFree(a, b)
  {
  }

  /** Without variable-headed applications the pure unifier is the in-place one, records or not. */
  lemma {:induction false} RulesAgreeWithoutVarHeads(t1: Type, t2: Type)
    requires NoVarHeads(t1) && NoVarHeads(t2)
    ensures SameResult(Unify(SkipHead, t1, t2), Unify(ApplyHead, t1, t2))
  {
    hide NoVarHeads, Closed, HeadFree, EveryCall;
    NoVarHeadsClosed();
    forall a, b | NoVarHeads(a) && NoVarHeads(b) ensures HeadFree(a, b) { NoVarHeadsFree(a, b); }
    EveryCallHas(NoVarHeads, HeadFree, t1, t2);
    RulesAgree(t1, t2);
  }
}

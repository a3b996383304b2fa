/** Unification finds a most general unifier whenever the two types have one. */
module Completeness {
  import opened Wrappers
  import opened Types
  import opened Substitution
  import opened Unification
  import opened Matching
  import opened Soundness
  import opened Hereditary

  ghost predicate Unifies(theta: Subst, t1: Type, t2: Type) {
    Apply(t1, theta) == Apply(t2, theta)
  }

  ghost predicate UnifiesAll(theta: Subst, eqs: seq<Eq>) {
    forall i :: 0 <= i < |eqs| ==> eqs[i].Equal? && Unifies(theta, eqs[i].lhs, eqs[i].rhs)
  }

  /** A unifier of the two types unifies everything one step reduces them to. */
  lemma {:induction false} UnifiesParts(theta: Subst, t1: Type, t2: Type)
    requires Unifies(theta, t1, t2)
    ensures match PlanFor(t1, t2)
            case Fail(_) => false
            case Bind(v, t) => ApplyVar(v, theta) == Apply(t, theta)
            case Solve(eqs) => UnifiesAll(theta, eqs)
            case Elems(_, _, _) => false
  {
    match (t1, t2)
    case (Tuple(ts), Tuple(us)) =>
      assert forall i :: 0 <= i < |ts| ==> Apply(t1, theta).elems[i] == Apply(ts[i], theta);
      assert |Apply(t1, theta).elems| == |ts|;
      assert |Apply(t2, theta).elems| == |us|;
      assert forall i :: 0 <= i < |us| ==> Apply(t2, theta).elems[i] == Apply(us[i], theta);
    case (Record(fs), Record(gs)) =>
      assert |Apply(t1, theta).fields| == |fs|;
      assert |Apply(t2, theta).fields| == |gs|;
      assert forall i :: 0 <= i < |fs| ==> Apply(t1, theta).fields[i] == Field(fs[i].name, Apply(fs[i].ty, theta));
      assert forall i :: 0 <= i < |gs| ==> Apply(t2, theta).fields[i] == Field(gs[i].name, Apply(gs[i].ty, theta));
    case _ =>
  }

  /**
    If some theta makes the two types equal, unification succeeds, under either rule, and theta
    factors through its result.
   */
  lemma {:induction false} MostGeneral(rule: HeadRule, t1: Type, t2: Type, theta: Subst)
    requires Unifies(theta, t1, t2)
    ensures Unify(rule, t1, t2).err.None?
    ensures Absorbs(theta, Unify(rule, t1, t2).s)
    decreases |Vars(t1, t2)|, Size(t1) + Size(t2), 0, 0
  {
    hide Within, Grows, Range, Resolved, Matches, EqVars, EqSize, Vars;
    UnifiesParts(theta, t1, t2);
    match PlanFor(t1, t2)
    case Bind(v, t) =>
      if v in Ftv(t) {
        OccursIsFatal(v, t, theta);
      }
    case Solve(eqs) =>
      SolveIsSmaller(t1, t2, eqs);
      MostGeneralFrom(rule, eqs, map[], theta);
  }

  lemma {:induction false} MostGeneralFrom(rule: HeadRule, eqs: seq<Eq>, s: Subst, theta: Subst)
    requires UnifiesAll(theta, eqs) && Absorbs(theta, s)
    ensures SolveFrom(rule, eqs, s).err.None?
    ensures Absorbs(theta, SolveFrom(rule, eqs, s).s)
    decreases |EqVars(eqs, s)|, EqSize(eqs, s), 1, |eqs|
  {
    hide Within, Grows, Range, Resolved, Matches, EqVars, EqSize, Vars, Absorbs, Unify, Apply, Compose, PlanFor;
    if eqs != [] {
      var l, r := eqs[0].lhs, eqs[0].rhs;
      assert Unifies(theta, l, r);
      assert UnifiesAll(theta, eqs[1..]);
      hide UnifiesAll;
      AbsorbsApply(l, theta, s);
      AbsorbsApply(r, theta, s);
      CallIsSmaller(eqs, s);
      MostGeneral(rule, Apply(l, s), Apply(r, s), theta);
      var u := Unify(rule, Apply(l, s), Apply(r, s));
      AbsorbsCompose(theta, u.s, s);
      StepIsSmaller(eqs, u.s, s);
      MostGeneralFrom(rule, eqs[1..], Compose(u.s, s), theta);
    }
  }

  /** The same in the words of the types: going through the result first makes no difference to theta. */
  lemma {:induction false} MostGeneralApplied(rule: HeadRule, t1: Type, t2: Type, theta: Subst, t: Type)
    requires Unifies(theta, t1, t2)
    ensures Apply(Apply(t, Unify(rule, t1, t2).s), theta) == Apply(t, theta)
  {
    MostGeneral(rule, t1, t2, theta);
    AbsorbsApply(t, theta, Unify(rule, t1, t2).s);
  }

  // ---- records and dictionaries ------------------------------------------------------------------------------------

  /** Makes all field types and the element type of the dictionary one type. */
  ghost predicate UnifiesElems(theta: Subst, fields: seq<Field>, arg: Type)
    requires fields != []
  {
    Unifies(theta, arg, fields[0].ty) && forall i :: 0 <= i < |fields| ==> Unifies(theta, fields[0].ty, fields[i].ty)
  }

  lemma {:induction false} ElemEqsUnified(theta: Subst, fields: seq<Field>, arg: Type)
    requires fields != [] && UnifiesElems(theta, fields, arg)
    ensures UnifiesAll(theta, ElemEqs(fields) + [Equal(arg, fields[0].ty)])
  {
    hide Apply;
    var eqs := ElemEqs(fields) + [Equal(arg, fields[0].ty)];
    forall i | 0 <= i < |eqs| ensures eqs[i].Equal? && Unifies(theta, eqs[i].lhs, eqs[i].rhs) {
      if i < |fields| - 1 { assert Unifies(theta, fields[0].ty, fields[i + 1].ty); }
    }
  }

  /**
    A record meets `Dict arg`, or `f arg` with `f` made `Dict`: the in-place rule succeeds whenever field types
    and `arg` can be made one type, and what does so factors through the result.
   */
  lemma {:induction false} RecordMeetsDict(t1: Type, t2: Type, fields: seq<Field>, head: Type, arg: Type, theta: Subst)
    requires (t1 == Record(fields) && t2 == App(head, arg)) || (t1 == App(head, arg) && t2 == Record(fields))
    requires head == DICT || (head.Var? && ApplyVar(head.id, theta) == DICT)
    requires fields != [] && UnifiesElems(theta, fields, arg)
    ensures var o := Unify(ApplyHead, t1, t2); o.err.None? && Absorbs(theta, o.s)
  {
    var h := if head.Var? then Some(head.id) else None;
    assert PlanFor(t1, t2) == Elems(h, fields, arg);
    assert Absorbs(theta, HeadSubst(h));
    hide Within, Grows, Range, EqVars, EqSize, Vars, Apply, SolveFrom, ElemEqs, ElemFrom, Ambient, ElemWithin, Absorbs, PlanFor;
    ElemEqsUnified(theta, fields, arg);
    ElemsRun(t1, t2);
    MostGeneralFrom(ApplyHead, ElemEqs(fields) + [Equal(arg, fields[0].ty)], HeadSubst(h), theta);
  }

  /** The outermost constructors cannot be made to agree. */
  predicate Clashing(t1: Type, t2: Type) {
    match (t1, t2)
    case (Var(_), _) => false
    case (_, Var(_)) => false
    case (Con(c), Con(d)) => c != d
    case (App(_, _), App(_, _)) => false
    case (Fun(_, _), Fun(_, _)) => false
    case (Tuple(ts), Tuple(us)) => |ts| != |us|
    case (Record(fs), Record(gs)) => |fs| != |gs|
    case (Record(_), App(head, _)) => head != DICT && !head.Var?
    case (App(head, _), Record(_)) => head != DICT && !head.Var?
    case _ => true
  }

  /** What fails at once, and how it is reported: a clash by the two types in the order given, a variable by the type it occurs in. */
  lemma {:induction false} FailsAtOnce(rule: HeadRule, t1: Type, t2: Type)
    ensures Clashing(t1, t2) ==> Unify(rule, t1, t2) == Outcome(map[], Some(Mismatch(t1, t2)))
    ensures t1.Var? && t1 != t2 && t1.id in Ftv(t2) ==> Unify(rule, t1, t2) == Outcome(map[], Some(Occurs(t1.id, t2)))
    ensures t2.Var? && !t1.Var? && t2.id in Ftv(t1) ==> Unify(rule, t1, t2) == Outcome(map[], Some(Occurs(t2.id, t1)))
    ensures t1 == Record([]) && t2.App? && (t2.head == DICT || t2.head.Var?) ==> Unify(rule, t1, t2).err == Some(EmptyRecord)
    ensures t2 == Record([]) && t1.App? && (t1.head == DICT || t1.head.Var?) ==> Unify(rule, t1, t2).err == Some(EmptyRecord)
  {
    hide SolveFrom, ElemFrom, Apply, Compose;
  }

  /** A variable is reported to occur in a type only if it does, and properly. */
  lemma {:induction false} OccursIsReal(rule: HeadRule, t1: Type, t2: Type, v: nat, t: Type)
    requires Unify(rule, t1, t2).err == Some(Occurs(v, t))
    ensures v in Ftv(t) && t != Var(v)
    decreases |Vars(t1, t2)|, Size(t1) + Size(t2), 0, 0
  {
    hide Within, Grows, Range, EqVars, EqSize, Vars, Ambient, ElemWithin, Apply, Compose;
    match PlanFor(t1, t2)
    case Fail(_) =>
    case Bind(_, _) =>
    case Solve(eqs) =>
      SolveIsSmaller(t1, t2, eqs);
      OccursIsRealFrom(rule, eqs, map[], v, t);
    case Elems(head, fields, arg) =>
      if fields != [] {
        if rule.ApplyHead? {
          ElemsIsSmaller(t1, t2);
          OccursIsRealFrom(rule, ElemEqs(fields) + [Equal(arg, fields[0].ty)], HeadSubst(head), v, t);
        } else {
          FieldsIsSmaller(t1, t2);
          var f := ElemFrom(fields[1..], fields[0].ty, map[]);
          if f.err.Some? {
            OccursIsRealElems(fields[1..], fields[0].ty, map[], v, t);
          } else {
            SkippedArgIsSmaller(t1, t2, f);
            OccursIsReal(rule, Apply(Apply(arg, HeadSubst(head)), f.s), f.elem, v, t);
          }
        }
      }
  }

  lemma {:induction false} OccursIsRealElems(rest: seq<Field>, current: Type, s: Subst, v: nat, t: Type)
    requires Eliminates(s) && ElemFrom(rest, current, s).err == Some(Occurs(v, t))
    ensures v in Ftv(t) && t != Var(v)
    decreases |Ambient(rest, current, s)|, if s == map[] then Size(current) + SizeFields(rest) else 0, 1, |rest|
  {
    hide Within, Range, Ambient, Vars, Unify, Eliminates, ElemWithin, Apply, Compose;
    if rest != [] {
      ElemCallIsSmaller(rest, current, s);
      var l, r := Apply(current, s), Apply(rest[0].ty, s);
      var u := Unify(SkipHead, l, r);
      ElemStep(rest, current, s, u.s);
      if u.err.Some? { OccursIsReal(SkipHead, l, r, v, t); }
      else { OccursIsRealElems(rest[1..], Apply(current, Compose(u.s, s)), Compose(u.s, s), v, t); }
    }
  }

  lemma {:induction false} OccursIsRealFrom(rule: HeadRule, eqs: seq<Eq>, s: Subst, v: nat, t: Type)
    requires SolveFrom(rule, eqs, s).err == Some(Occurs(v, t)) && ClashesAreMismatches(eqs)
    ensures v in Ftv(t) && t != Var(v)
    decreases |EqVars(eqs, s)|, EqSize(eqs, s), 1, |eqs|
  {
    hide Within, Grows, Range, EqVars, EqSize, Vars, Unify, Apply, Compose;
    if eqs != [] && eqs[0].Equal? {
      var l, r := Apply(eqs[0].lhs, s), Apply(eqs[0].rhs, s);
      CallIsSmaller(eqs, s);
      var u := Unify(rule, l, r);
      if u.err.Some? {
        OccursIsReal(rule, l, r, v, t);
      } else {
        StepIsSmaller(eqs, u.s, s);
        OccursIsRealFrom(rule, eqs[1..], Compose(u.s, s), v, t);
      }
    }
  }

  ghost predicate ClashesAreMismatches(eqs: seq<Eq>) {
    forall i :: 0 <= i < |eqs| && eqs[i].Clash? ==> eqs[i].error.Mismatch?
  }

  // ---- without records unification decides unifiability --------------------------------------------

  lemma {:induction false} RecordFreeApply(t: Type, s: Subst)
    requires RecordFree(t) && SubstHas(RecordFree, s)
    ensures RecordFree(Apply(t, s))
    decreases t
  {
    if !t.Var? {
      ApplyParts(t, s);
      forall i | 0 <= i < |Parts(t)| ensures RecordFree(Apply(Parts(t)[i], s)) { RecordFreeApply(Parts(t)[i], s); }
    }
  }

  lemma {:induction false} RecordFreeClosed()
    ensures Closed(RecordFree)
  {
    forall t, s | RecordFree(t) && SubstHas(RecordFree, s) ensures RecordFree(Apply(t, s)) { RecordFreeApply(t, s); }
    forall t, i | RecordFree(t) && 0 <= i < |Parts(t)| ensures RecordFree(Parts(t)[i]) {}
    assert RecordFree(DICT) by { assert Parts(DICT) == []; }
  }

  /** On types without records success means exactly that a unifier exists, and the result is one. */
  lemma {:induction false} DecidesUnifiability(t1: Type, t2: Type)
    requires RecordFree(t1) && RecordFree(t2)
    ensures var o := Unify(ApplyHead, t1, t2);
            && (o.err.None? <==> exists theta :: Unifies(theta, t1, t2))
            && (o.err.None? ==> Unifies(o.s, t1, t2))
  {
    hide Within, Grows, Range, Resolved, Matches, EqVars, EqSize, Vars, RecordFree;
    var o := Unify(ApplyHead, t1, t2);
    if theta :| Unifies(theta, t1, t2) {
      MostGeneral(ApplyHead, t1, t2, theta);
    }
    if o.err.None? {
      UnifySound(t1, t2);
      RecordFreeClosed();
      ResultHas(RecordFree, ApplyHead, t1, t2);
      RecordFreeApply(t1, o.s);
      RecordFreeApply(t2, o.s);
      MatchesIsEquality(Apply(t1, o.s), Apply(t2, o.s));
      assert Unifies(o.s, t1, t2);
    }
  }
}

/**
  The pure unifier's record-against-`f x` call, judged by its types alone: what it returns is correct
  unless some unifier of the fields and the argument leaves `f` something other than `Dict`.
 */
module HeadCalls {
  import opened Wrappers
  import opened Types
  import opened Substitution
  import opened Unification
  import opened Matching
  import opened Soundness
  import opened Completeness
  import opened Hereditary
  import opened Agreement

  /** Makes the argument, its head variable replaced by `Dict`, and all field types one type. */
  ghost predicate HeadUnifier(theta: Subst, v: nat, fields: seq<Field>, arg: Type)
    requires fields != []
  {
    && Unifies(theta, Apply(arg, HeadSubst(Some(v))), fields[0].ty)
    && forall i :: 0 <= i < |fields| ==> Unifies(theta, fields[0].ty, fields[i].ty)
  }

  /** The field loop succeeds if the fields have a unifier, which then factors through its result. */
  lemma {:induction false} FieldsMostGeneral(rest: seq<Field>, current: Type, s: Subst, theta: Subst)
    requires Eliminates(s) && Absorbs(theta, s)
    requires forall i :: 0 <= i < |rest| ==> Unifies(theta, current, rest[i].ty)
    ensures var o := ElemFrom(rest, current, s);
            o.err.None? && Absorbs(theta, o.s) && Apply(o.elem, theta) == Apply(current, theta)
    decreases |Ambient(rest, current, s)|, if s == map[] then Size(current) + SizeFields(rest) else 0, 1, |rest|
  {
    hide Within, Range, Absorbs, Ambient, Vars, Unify, Eliminates, ElemWithin, Apply, Compose;
    AbsorbsApply(current, theta, s);
    if rest != [] {
      AbsorbsApply(rest[0].ty, theta, s);
      ElemCallIsSmaller(rest, current, s);
      var l, r := Apply(current, s), Apply(rest[0].ty, s);
      MostGeneral(SkipHead, l, r, theta);
      var u := Unify(SkipHead, l, r);
      var next := Compose(u.s, s);
      ElemStep(rest, current, s, u.s);
      AbsorbsCompose(theta, u.s, s);
      AbsorbsApply(current, theta, next);
      FieldsMostGeneral(rest[1..], Apply(current, next), next, theta);
    }
  }

  lemma {:induction false} NestedMostGeneral(v: nat, fields: seq<Field>, arg: Type, theta: Subst)
    requires fields != [] && HeadUnifier(theta, v, fields, arg)
    ensures var (f, a) := NestedOutcomes(Some(v), fields, arg);
            f.err.None? && a.err.None? && Absorbs(theta, Compose(a.s, f.s))
  {
    hide Within, Range, Ambient, Vars, Unify, Eliminates, ElemWithin, Apply, Compose, ElemFrom;
    EmptyEliminates();
    FieldsMostGeneral(fields[1..], fields[0].ty, map[], theta);
    var (f, a) := NestedOutcomes(Some(v), fields, arg);
    var arg' := Apply(arg, HeadSubst(Some(v)));
    AbsorbsApply(arg', theta, f.s);
    MostGeneral(SkipHead, Apply(arg', f.s), f.elem, theta);
    AbsorbsCompose(theta, a.s, f.s);
  }

  lemma {:induction false} RecordFreeGuarded(a: Type, b: Type)
    requires RecordFree(a) && RecordFree(b)
    ensures HeadGuarded(a, b) && HeadFree(a, b)
  {
    assert !PlanFor(a, b).Elems?;
  }

  lemma {:induction false} NothingSubstituted(p: Type -> bool)
    ensures SubstHas(p, map[])
  {
  }

  /** Where fields and argument have a property that keeps head variables from meeting records, the nested calls are correct. */
  lemma {:induction false} NestedSound(p: Type -> bool, v: nat, fields: seq<Field>, arg: Type)
    requires fields != [] && Closed(p) && p(arg) && FieldsAre(p, fields) && forall a, b :: p(a) && p(b) ==> HeadGuarded(a, b)
    ensures var (f, a) := NestedOutcomes(Some(v), fields, arg);
            f.err.None? ==>
              && Resolved(f.s) && f.elem == Apply(fields[0].ty, f.s) && FieldsSolved(fields[1..], fields[0].ty, f.s)
              && SubstHas(p, f.s)
              && (a.err.None? ==> Solves(Apply(Apply(arg, HeadSubst(Some(v))), f.s), f.elem, a.s) && SubstHas(p, a.s))
  {
    hide Within, Range, Ambient, Vars, Unify, Eliminates, ElemWithin, Apply, Compose, ElemFrom, Matches;
    hide Resolved, HeadGuarded, EveryCall;
    hide EveryCallElems, FieldsSolved, Solves, SubstHas, Closed;
    EmptyEliminates();
    EmptyResolved();
    FieldsHaveRest(p, fields);
    NothingSubstituted(p);
    EveryCallHasElems(p, HeadGuarded, fields[1..], fields[0].ty, map[]);
    PureElemsFromIff(fields[1..], fields[0].ty, map[], fields[0].ty);
    ElemFromHas(p, fields[1..], fields[0].ty, map[]);
    var (f, a) := NestedOutcomes(Some(v), fields, arg);
    if f.err.None? {
      var l := Apply(Apply(arg, HeadSubst(Some(v))), f.s);
      SkippedArgHas(p, Some(v), arg, f.s);
      EveryCallHas(p, HeadGuarded, l, f.elem);
      PureSoundIff(l, f.elem);
      ResultHas(p, SkipHead, l, f.elem);
      if a.err.None? { SoundHere(l, f.elem); }
    }
  }

  lemma {:induction false} RecordFreeNested()
    ensures Closed(RecordFree) && forall a, b :: RecordFree(a) && RecordFree(b) ==> HeadGuarded(a, b)
  {
    hide RecordFree, HeadGuarded, Closed;
    RecordFreeClosed();
    forall a, b | RecordFree(a) && RecordFree(b) ensures HeadGuarded(a, b) { RecordFreeGuarded(a, b); }
  }

  /** A solution without records is a unifier. */
  lemma {:induction false} SolvedIsUnified(v: nat, fields: seq<Field>, arg: Type, s: Subst)
    requires fields != [] && RecordFree(arg) && FieldsAre(RecordFree, fields) && SubstHas(RecordFree, s)
    requires ArgSolved(Some(v), fields, arg, s)
    ensures HeadUnifier(s, v, fields, arg)
  {
    hide RecordFree, Matches, Apply, SubstHas;
    RecordFreeClosed();
    var arg' := Apply(arg, HeadSubst(Some(v)));
    HeadHas(RecordFree, Some(v));
    ApplyHas(RecordFree, arg, HeadSubst(Some(v)));
    ApplyHas(RecordFree, arg', s);
    ApplyHas(RecordFree, fields[0].ty, s);
    MatchesIsEquality(Apply(arg', s), Apply(fields[0].ty, s));
    forall i | 0 <= i < |fields| ensures Unifies(s, fields[0].ty, fields[i].ty) {
      if i > 0 {
        assert fields[1..][i - 1] == fields[i];
        ApplyHas(RecordFree, fields[i].ty, s);
        MatchesIsEquality(Apply(fields[0].ty, s), Apply(fields[i].ty, s));
      }
    }
  }

  /**
    The call returns a correct result, or fails, if and only if the head variable is not in the fields
    or every unifier of fields and argument makes it `Dict`; that includes that there is none.
   */
  lemma {:induction false} HeadCallExact(t1: Type, t2: Type)
    requires PlanFor(t1, t2).Elems? && PlanFor(t1, t2).head.Some? && PlanFor(t1, t2).fields != []
    requires RecordFree(PlanFor(t1, t2).arg) && FieldsAre(RecordFree, PlanFor(t1, t2).fields)
    ensures var Elems(head, fields, arg) := PlanFor(t1, t2);
            var v := head.value;
            CallSound(t1, t2) <==>
              v !in FtvFields(fields) || forall theta :: HeadUnifier(theta, v, fields, arg) ==> ApplyVar(v, theta) == DICT
  {
    hide Within, Range, Ambient, Vars, Unify, Eliminates, ElemWithin, Apply, Compose, ElemFrom, RecordFree;
    hide Matches, Resolved, SubstHas, HeadUnifier, ArgSolved, FieldsAre, CallSound, FtvFields, FieldsSolved;
    hide Solves, Absorbs, Closed;
    var Elems(head, fields, arg) := PlanFor(t1, t2);
    var v := head.value;
    var (f, a) := NestedOutcomes(head, fields, arg);
    if f.err.None? && a.err.None? {
      RecordFreeNested();
      NestedSound(RecordFree, v, fields, arg);
      ElemsCallExact(t1, t2);
      HeadForced(v, fields, arg);
    } else {
      ElemsFailed(t1, t2);
      forall theta | HeadUnifier(theta, v, fields, arg) ensures false { NestedMostGeneral(v, fields, arg, theta); }
    }
  }

  lemma {:induction false} HeadForced(v: nat, fields: seq<Field>, arg: Type)
    requires fields != [] && RecordFree(arg) && FieldsAre(RecordFree, fields)
    requires var (f, a) := NestedOutcomes(Some(v), fields, arg); f.err.None? && a.err.None?
    ensures var (f, a) := NestedOutcomes(Some(v), fields, arg);
            ApplyVar(v, Compose(a.s, f.s)) == DICT <==>
            forall theta :: HeadUnifier(theta, v, fields, arg) ==> ApplyVar(v, theta) == DICT
  {
    hide Within, Range, Ambient, Vars, Eliminates, ElemWithin, Apply, Compose, ElemFrom, RecordFree, Matches;
    hide Resolved, SubstHas, HeadUnifier, ArgSolved, FieldsAre, FieldsSolved, Solves, Absorbs, Unify, Closed;
    hide HeadGuarded;
    var (f, a) := NestedOutcomes(Some(v), fields, arg);
    var s := Compose(a.s, f.s);
    RecordFreeNested();
    NestedSound(RecordFree, v, fields, arg);
    EmptyEliminates();
    ElemsSolved(Some(v), fields, arg, f, a.s);
    RecordFreeClosed();
    ComposeHas(RecordFree, a.s, f.s);
    SolvedIsUnified(v, fields, arg, s);
    if ApplyVar(v, s) == DICT {
      forall theta | HeadUnifier(theta, v, fields, arg) ensures ApplyVar(v, theta) == DICT {
        NestedMostGeneral(v, fields, arg, theta);
        Forced(v, theta, s);
      }
    }
  }

  lemma {:induction false} Forced(v: nat, theta: Subst, s: Subst)
    requires Absorbs(theta, s) && ApplyVar(v, s) == DICT
    ensures ApplyVar(v, theta) == DICT
  {
    AbsorbsApply(Var(v), theta, s);
  }

  // ---- whole calls ----------------------------------------------------------------------------------------------

  /** Without variable-headed applications, what the pure unifier returns is correct, records or not. */
  lemma {:induction false} SoundWithoutVarHeads(t1: Type, t2: Type)
    requires NoVarHeads(t1) && NoVarHeads(t2)
    ensures CallSound(t1, t2)
  {
    hide NoVarHeads, Matches, Unify;
    RulesAgreeWithoutVarHeads(t1, t2);
    UnifySound(t1, t2);
  }

  /** Without records it is correct, variable heads or not, and it decides whether there is a unifier. */
  lemma {:induction false} PureDecidesUnifiability(t1: Type, t2: Type)
    requires RecordFree(t1) && RecordFree(t2)
    ensures var o := Unify(SkipHead, t1, t2);
            && SameResult(o, Unify(ApplyHead, t1, t2))
            && (o.err.None? <==> exists theta :: Unifies(theta, t1, t2))
            && (o.err.None? ==> Solves(t1, t2, o.s) && Unifies(o.s, t1, t2))
  {
    hide RecordFree, Matches, Unify, Closed, HeadFree, Resolved;
    RecordFreeClosed();
    forall a, b | RecordFree(a) && RecordFree(b) ensures HeadFree(a, b) { RecordFreeGuarded(a, b); }
    EveryCallHas(RecordFree, HeadFree, t1, t2);
    RulesAgree(t1, t2);
    DecidesUnifiability(t1, t2);
    UnifySound(t1, t2);
  }
}

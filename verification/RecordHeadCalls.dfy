/**
  The pure unifier's record-against-`f x` call with records inside: what it returns is correct unless some
  solution up to the record/`Dict` coercion leaves `f` something other than `Dict`.
 */
module RecordHeadCalls {
  import opened Wrappers
  import opened Types
  import opened Substitution
  import opened Unification
  import opened Matching
  import opened Soundness
  import opened Hereditary
  import opened Agreement
  import opened HeadCalls
  import opened HeadAgreement
  import opened Connected
  import opened CoercionGeneral

  /** Makes the argument, its head variable replaced by `Dict`, and all field types match the first field's type. */
  ghost predicate HeadReconciler(theta: Subst, v: nat, fields: seq<Field>, arg: Type)
    requires fields != []
  {
    ArgSolved(Some(v), fields, arg, theta)
  }

  lemma {:induction false} NoVarHeadsNested()
    ensures Closed(NoVarHeads)
    ensures forall a, b :: NoVarHeads(a) && NoVarHeads(b) ==> HeadFree(a, b)
    ensures forall a, b :: NoVarHeads(a) && NoVarHeads(b) ==> HeadGuarded(a, b)
  {
    hide NoVarHeads, Closed;
    NoVarHeadsClosed();
    forall a, b | NoVarHeads(a) && NoVarHeads(b) ensures HeadFree(a, b) && HeadGuarded(a, b) {
      NoVarHeadsFree(a, b);
      FreeGuards(a, b);
    }
  }

  lemma {:induction false} FreeGuards(a: Type, b: Type)
    requires HeadFree(a, b)
    ensures HeadGuarded(a, b)
  {
    hide NestedOutcomes;
  }

  lemma {:induction false} ReconciledConnects(theta: Subst, v: nat, fields: seq<Field>, arg: Type)
    requires fields != [] && HeadReconciler(theta, v, fields, arg)
    ensures EqsConnect(HeadEqs(v, fields, arg), theta)
  {
    hide Matches, Apply, Connects;
    var eqs := HeadEqs(v, fields, arg);
    assert HeadSubst(Some(v)) == map[v := DICT];
    forall i | 0 <= i < |eqs| ensures Connects(Apply(eqs[i].lhs, theta), Apply(eqs[i].rhs, theta)) {
      if i < |fields| - 1 { assert fields[1..][i] == fields[i + 1]; }
      MatchConnects(Apply(eqs[i].lhs, theta), Apply(eqs[i].rhs, theta));
    }
  }

  /** What the equations make `Dict` is `Dict` in every solution up to the coercion. */
  lemma {:induction false} ForcedInAll(theta: Subst, v: nat, fields: seq<Field>, arg: Type)
    requires fields != [] && HeadReconciler(theta, v, fields, arg)
    requires ApplyVar(v, SolveFrom(ApplyHead, HeadEqs(v, fields, arg), map[]).s) == DICT
    ensures ApplyVar(v, theta) == DICT
  {
    hide SolveFrom, HeadEqs, EqsConnect, Linked, HeadReconciler;
    var s := SolveFrom(ApplyHead, HeadEqs(v, fields, arg), map[]).s;
    ReconciledConnects(theta, v, fields, arg);
    ConnectedGeneralFrom(HeadEqs(v, fields, arg), map[], theta);
    AbsorbsVariable(v, theta, s);
    ConnectsBack(ApplyVar(v, theta), DICT);
    var n: nat :| Linked(DICT, ApplyVar(v, theta), n);
    AtomLinked(DICT, ApplyVar(v, theta), n);
  }

  lemma {:induction false} RecordHeadForced(v: nat, fields: seq<Field>, arg: Type)
    requires fields != [] && NoVarHeads(arg) && FieldsAre(NoVarHeads, fields)
    requires var (f, a) := NestedOutcomes(Some(v), fields, arg); f.err.None? && a.err.None?
    ensures var (f, a) := NestedOutcomes(Some(v), fields, arg);
            ApplyVar(v, Compose(a.s, f.s)) == DICT <==>
            forall theta :: HeadReconciler(theta, v, fields, arg) ==> ApplyVar(v, theta) == DICT
  {
    hide Within, Range, Ambient, Vars, Eliminates, ElemWithin, Apply, Compose, ElemFrom, NoVarHeads, Matches;
    hide Resolved, SubstHas, ArgSolved;
    hide FieldsAre, FieldsSolved, Solves, Absorbs, Unify, Closed, HeadGuarded, HeadFree, SolveFrom, HeadEqs;
    var (f, a) := NestedOutcomes(Some(v), fields, arg);
    var s := Compose(a.s, f.s);
    NoVarHeadsNested();
    NestedSound(NoVarHeads, v, fields, arg);
    NestedSolve(NoVarHeads, v, fields, arg);
    EmptyEliminates();
    ElemsSolved(Some(v), fields, arg, f, a.s);
    assert HeadReconciler(s, v, fields, arg);
    if ApplyVar(v, s) == DICT {
      forall theta | HeadReconciler(theta, v, fields, arg) ensures ApplyVar(v, theta) == DICT { ForcedInAll(theta, v, fields, arg); }
    }
  }

  /**
    With records inside but no variable-headed application, the call returns a correct result if and only if
    it fails, or the head variable is not in the fields, or every solution up to the coercion makes it `Dict`.
   */
  lemma {:induction false} RecordHeadCallExact(t1: Type, t2: Type)
    requires PlanFor(t1, t2).Elems? && PlanFor(t1, t2).head.Some? && PlanFor(t1, t2).fields != []
    requires NoVarHeads(PlanFor(t1, t2).arg) && FieldsAre(NoVarHeads, PlanFor(t1, t2).fields)
    ensures var Elems(head, fields, arg) := PlanFor(t1, t2);
            var v := head.value;
            CallSound(t1, t2) <==>
              || Unify(SkipHead, t1, t2).err.Some?
              || v !in FtvFields(fields)
              || forall theta :: HeadReconciler(theta, v, fields, arg) ==> ApplyVar(v, theta) == DICT
  {
    hide Within, Range, Ambient, Vars, Unify, Eliminates, ElemWithin, Apply, Compose, ElemFrom, NoVarHeads;
    hide Matches, Resolved, SubstHas;
    hide HeadReconciler, ArgSolved, FieldsAre, FtvFields, FieldsSolved, Solves, Absorbs, Closed;
    var Elems(head, fields, arg) := PlanFor(t1, t2);
    var (f, a) := NestedOutcomes(head, fields, arg);
    ElemsRun(t1, t2);
    if f.err.None? && a.err.None? {
      NoVarHeadsNested();
      NestedSound(NoVarHeads, head.value, fields, arg);
      ElemsCallExact(t1, t2);
      RecordHeadForced(head.value, fields, arg);
    } else {
      ElemsFailed(t1, t2);
    }
  }
}

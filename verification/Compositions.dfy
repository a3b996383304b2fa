/**
  The compositions a pure run makes, and where the law documented for them holds
  (rex-typesystem/src/unification.rs:189-208, 286-343).
 */
module Compositions {
  import opened Wrappers
  import opened Types
  import opened Substitution
  import opened Unification
  import opened Matching
  import opened Soundness
  import opened Agreement

  // ---- a property carried down a run --------------------------------------------------------------------------

  /** What follows from `p` at every call, at every call. */
  lemma {:induction false} EveryCallGives(p: CallProperty, q: CallProperty, t1: Type, t2: Type)
    requires EveryCall(p, t1, t2) && forall a, b :: EveryCall(p, a, b) ==> q(a, b)
    ensures EveryCall(q, t1, t2)
    decreases |Vars(t1, t2)|, Size(t1) + Size(t2), 0, 0
  {
    hide Within, Grows, Range, EqVars, EqSize, Vars, Ambient, ElemWithin, ElemFrom, SolveFrom, Apply, HeadSubst;
    match PlanFor(t1, t2)
    case Solve(eqs) =>
      SolveIsSmaller(t1, t2, eqs);
      EveryCallGivesFrom(p, q, eqs, map[]);
    case Elems(head, fields, arg) =>
      if fields != [] {
        FieldsIsSmaller(t1, t2);
        EveryCallGivesElems(p, q, fields[1..], fields[0].ty, map[]);
        var f := ElemFrom(fields[1..], fields[0].ty, map[]);
        if f.err.None? {
          SkippedArgIsSmaller(t1, t2, f);
          EveryCallGives(p, q, Apply(Apply(arg, HeadSubst(head)), f.s), f.elem);
        }
      }
    case _ =>
  }

  lemma {:induction false} EveryCallGivesElems(p: CallProperty, q: CallProperty, rest: seq<Field>, current: Type, s: Subst)
    requires Eliminates(s) && EveryCallElems(p, rest, current, s) && forall a, b :: EveryCall(p, a, b) ==> q(a, b)
    ensures EveryCallElems(q, rest, current, s)
    decreases |Ambient(rest, current, s)|, if s == map[] then Size(current) + SizeFields(rest) else 0, 1, |rest|
  {
    hide Within, Range, Ambient, Vars, Unify, Eliminates, ElemWithin, Apply, Compose, EveryCall;
    if rest != [] {
      ElemCallIsSmaller(rest, current, s);
      var l, r := Apply(current, s), Apply(rest[0].ty, s);
      EveryCallGives(p, q, l, r);
      var u := Unify(SkipHead, l, r);
      ElemStep(rest, current, s, u.s);
      if u.err.None? { EveryCallGivesElems(p, q, rest[1..], Apply(current, Compose(u.s, s)), Compose(u.s, s)); }
    }
  }

  lemma {:induction false} EveryCallGivesFrom(p: CallProperty, q: CallProperty, eqs: seq<Eq>, s: Subst)
    requires EveryCallFrom(p, eqs, s) && forall a, b :: EveryCall(p, a, b) ==> q(a, b)
    ensures EveryCallFrom(q, eqs, s)
    decreases |EqVars(eqs, s)|, EqSize(eqs, s), 1, |eqs|
  {
    hide Within, Grows, Range, EqVars, EqSize, Vars, Unify, Apply, Compose, EveryCall, SolveFrom;
    if eqs != [] && eqs[0].Equal? {
      var l, r := Apply(eqs[0].lhs, s), Apply(eqs[0].rhs, s);
      CallIsSmaller(eqs, s);
      EveryCallGives(p, q, l, r);
      var u := Unify(SkipHead, l, r);
      if u.err.None? {
        StepIsSmaller(eqs, u.s, s);
        EveryCallGivesFrom(p, q, eqs[1..], Compose(u.s, s));
      }
    }
  }

  // ---- the compositions of one call -----------------------------------------------------------------------------

  /** The loop over equations composes each result onto variables it does not mention. */
  ghost predicate DisjointFrom(eqs: seq<Eq>, s: Subst)
    decreases |eqs|
  {
    eqs != [] && eqs[0].Equal? ==>
      var u := Unify(SkipHead, Apply(eqs[0].lhs, s), Apply(eqs[0].rhs, s));
      u.err.None? ==> u.s.Keys !! s.Keys && DisjointFrom(eqs[1..], Compose(u.s, s))
  }

  /** And so does the loop over fields. */
  ghost predicate DisjointElems(rest: seq<Field>, current: Type, s: Subst)
    decreases |rest|
  {
    rest != [] ==>
      var u := Unify(SkipHead, Apply(current, s), Apply(rest[0].ty, s));
      u.err.None? ==>
        u.s.Keys !! s.Keys && DisjointElems(rest[1..], Apply(current, Compose(u.s, s)), Compose(u.s, s))
  }

  /** The two compositions at the end of a record/application call. */
  ghost predicate DisjointHead(head: Option<nat>, f: Subst, a: Subst) {
    f.Keys !! HeadSubst(head).Keys && a.Keys !! Compose(f, HeadSubst(head)).Keys
  }

  /** The law for both at once: the result does what head, fields and argument do in turn. */
  ghost predicate LawfulHead(head: Option<nat>, f: Subst, a: Subst) {
    forall t :: Apply(t, Compose(a, Compose(f, HeadSubst(head)))) == Apply(Apply(Apply(t, HeadSubst(head)), f), a)
  }

  ghost predicate LoopsDisjoint(t1: Type, t2: Type) {
    match PlanFor(t1, t2)
    case Solve(eqs) => DisjointFrom(eqs, map[])
    case Elems(head, fields, arg) =>
      fields != [] ==>
        DisjointElems(fields[1..], fields[0].ty, map[])
        && var (f, a) := NestedOutcomes(head, fields, arg);
           f.err.None? && a.err.None? ==> a.s.Keys !! f.s.Keys
    case _ => true
  }

  /** Every composition the call makes is of disjoint substitutions. */
  ghost predicate ComposesDisjoint(t1: Type, t2: Type) {
    LoopsDisjoint(t1, t2)
    && match PlanFor(t1, t2)
       case Elems(head, fields, arg) =>
         fields != [] ==>
           var (f, a) := NestedOutcomes(head, fields, arg);
           f.err.None? && a.err.None? ==> DisjointHead(head, f.s, a.s)
       case _ => true
  }

  /** The loops compose disjoint substitutions, and the compositions with the head obey the law. */
  ghost predicate ComposesLawfully(t1: Type, t2: Type) {
    LoopsDisjoint(t1, t2)
    && match PlanFor(t1, t2)
       case Elems(head, fields, arg) =>
         fields != [] ==>
           var (f, a) := NestedOutcomes(head, fields, arg);
           f.err.None? && a.err.None? ==> LawfulHead(head, f.s, a.s)
       case _ => true
  }

  // ---- the loops -------------------------------------------------------------------------------------------------

  lemma {:induction false} SoundLoopFrom(eqs: seq<Eq>, s: Subst)
    requires Resolved(s) && EveryCallFrom(CallSound, eqs, s)
    ensures DisjointFrom(eqs, s)
    decreases |eqs|
  {
    hide Within, Grows, Range, Resolved, Absorbs, Matches, EqVars, EqSize, Vars, EveryCall, CallSound, Unify;
    hide Apply, Compose, Solves;
    if eqs != [] && eqs[0].Equal? {
      var l, r := eqs[0].lhs, eqs[0].rhs;
      var u := Unify(SkipHead, Apply(l, s), Apply(r, s));
      if u.err.None? {
        SoundStep(l, r, s);
        SoundLoopFrom(eqs[1..], Compose(u.s, s));
      }
    }
  }

  lemma {:induction false} SoundStep(l: Type, r: Type, s: Subst)
    requires Resolved(s) && EveryCall(CallSound, Apply(l, s), Apply(r, s)) && Unify(SkipHead, Apply(l, s), Apply(r, s)).err.None?
    ensures var u := Unify(SkipHead, Apply(l, s), Apply(r, s));
            u.s.Keys !! s.Keys && Resolved(Compose(u.s, s))
  {
    hide Within, Grows, Range, Resolved, Absorbs, Matches, EveryCall, CallSound, Apply, Compose, Unify, Vars;
    SoundHere(Apply(l, s), Apply(r, s));
    StepSolves(l, r, Unify(SkipHead, Apply(l, s), Apply(r, s)).s, s);
  }

  lemma {:induction false} SoundLoopElems(rest: seq<Field>, current: Type, s: Subst)
    requires Resolved(s) && Eliminates(s) && EveryCallElems(CallSound, rest, current, s)
    ensures DisjointElems(rest, current, s)
    decreases |rest|
  {
    hide Within, Range, Resolved, Absorbs, Matches, Ambient, Vars, EveryCall, CallSound, Unify, Eliminates;
    hide ElemWithin, Apply, Compose, Solves;
    if rest != [] {
      var u := Unify(SkipHead, Apply(current, s), Apply(rest[0].ty, s));
      if u.err.None? {
        SoundStep(current, rest[0].ty, s);
        ElemCallIsSmaller(rest, current, s);
        ElemStep(rest, current, s, u.s);
        SoundLoopElems(rest[1..], Apply(current, Compose(u.s, s)), Compose(u.s, s));
      }
    }
  }

  // ---- the head -----------------------------------------------------------------------------------------------------

  /** Given disjoint results of fields and argument, the law holds exactly if both leave the head variable alone or make it `Dict`. */
  lemma {:induction false} HeadLawExact(head: Option<nat>, f: Subst, a: Subst)
    requires a.Keys !! f.Keys
    ensures LawfulHead(head, f, a) <==>
            (head.Some? ==> head.value !in Compose(a, f) || ApplyVar(head.value, Compose(a, f)) == DICT)
  {
    var h := HeadSubst(head);
    var s, c := Compose(a, f), Compose(a, Compose(f, h));
    ComposeAssoc(a, f, h);
    assert c == Compose(s, h);
    if head.Some? && head.value in s && s[head.value] != DICT {
      var t := Var(head.value);
      assert Apply(t, c) == s[head.value];
      assert Apply(Apply(Apply(t, h), f), a) == DICT;
    } else {
      forall t ensures Apply(t, c) == Apply(Apply(Apply(t, h), f), a) {
        assert OverlapAgrees(s, h);
        ApplyTwice(t, h, s, c);
        ComposeApply(Apply(t, h), a, f);
      }
    }
  }

  /** What the fields and the argument of a correct run bind. */
  lemma {:induction false} NestedFacts(t1: Type, t2: Type)
    requires PlanFor(t1, t2).Elems? && PlanFor(t1, t2).fields != [] && EveryCall(CallSound, t1, t2)
    ensures var Elems(head, fields, arg) := PlanFor(t1, t2);
            var (f, a) := NestedOutcomes(head, fields, arg);
            && DisjointElems(fields[1..], fields[0].ty, map[])
            && (f.err.None? && a.err.None? ==>
                  && a.s.Keys !! f.s.Keys
                  && (head.Some? && head.value !in FtvFields(fields) ==> head.value !in Compose(a.s, f.s)))
  {
    hide Within, Range, Resolved, Absorbs, Matches, Ambient, Vars, EveryCallElems, CallSound, Unify, Eliminates;
    hide ElemWithin, Apply, Compose, Solves, DisjointElems, FieldsSolved, ArgSolved, Size, SizeFields;
    var Elems(head, fields, arg) := PlanFor(t1, t2);
    EmptyEliminates();
    EmptyResolved();
    FieldsIsSmaller(t1, t2);
    SoundLoopElems(fields[1..], fields[0].ty, map[]);
    PureElemsFromIff(fields[1..], fields[0].ty, map[], fields[0].ty);
    var (f, a) := NestedOutcomes(head, fields, arg);
    if f.err.None? && a.err.None? {
      SkippedArgIsSmaller(t1, t2, f);
      SoundHere(Apply(Apply(arg, HeadSubst(head)), f.s), f.elem);
      ElemsSolved(head, fields, arg, f, a.s);
      HeadGone(arg, head, Ftv(arg));
    }
  }

  lemma {:induction false} CallIsLawful(t1: Type, t2: Type)
    requires EveryCall(HeadGuarded, t1, t2)
    ensures ComposesLawfully(t1, t2)
  {
    hide Within, Grows, Range, EqVars, EqSize, Vars, Ambient, ElemWithin, Apply, HeadSubst, CallSound;
    hide EveryCallElems, EveryCallFrom, DisjointFrom, DisjointElems, LawfulHead, Compose, Unify, SolveFrom;
    hide ElemFrom;
    PureSoundIff(t1, t2);
    match PlanFor(t1, t2)
    case Solve(eqs) =>
      EmptyResolved();
      SolveIsSmaller(t1, t2, eqs);
      SoundLoopFrom(eqs, map[]);
    case Elems(head, fields, arg) =>
      if fields != [] {
        NestedFacts(t1, t2);
        var (f, a) := NestedOutcomes(head, fields, arg);
        if f.err.None? && a.err.None? {
          assert HeadGuarded(t1, t2);
          HeadLawExact(head, f.s, a.s);
        }
      }
    case _ =>
  }

  lemma {:induction false} CallIsDisjoint(t1: Type, t2: Type)
    requires EveryCall(HeadFree, t1, t2)
    ensures ComposesDisjoint(t1, t2)
  {
    hide Within, Grows, Range, EqVars, EqSize, Vars, Ambient, ElemWithin, Apply, CallSound, EveryCallElems;
    hide EveryCallFrom, DisjointFrom, DisjointElems, LawfulHead, Unify, SolveFrom, ElemFrom, HeadGuarded;
    FreeIsGuarded(t1, t2);
    CallIsLawful(t1, t2);
    match PlanFor(t1, t2)
    case Elems(head, fields, arg) =>
      if fields != [] {
        PureSoundIff(t1, t2);
        NestedFacts(t1, t2);
        assert HeadFree(t1, t2);
      }
    case _ =>
  }

  lemma {:induction false} FreeIsGuarded(t1: Type, t2: Type)
    requires EveryCall(HeadFree, t1, t2)
    ensures EveryCall(HeadGuarded, t1, t2)
  {
    hide EveryCall, PlanFor, ElemFrom, Unify;
    forall a, b | EveryCall(HeadFree, a, b) ensures HeadGuarded(a, b) { HereFree(a, b); }
    EveryCallGives(HeadFree, HeadGuarded, t1, t2);
  }

  lemma {:induction false} HereFree(t1: Type, t2: Type)
    requires EveryCall(HeadFree, t1, t2)
    ensures HeadFree(t1, t2) && HeadGuarded(t1, t2)
  {
    hide PlanFor, ElemFrom, Unify, NestedOutcomes;
  }

  // ---- whole runs ---------------------------------------------------------------------------------------------------

  /** On a run whose head variables stay out of the record fields, every composition is of disjoint substitutions. */
  lemma {:induction false} RunsComposeDisjoint(t1: Type, t2: Type)
    requires EveryCall(HeadFree, t1, t2)
    ensures EveryCall(ComposesDisjoint, t1, t2)
  {
    hide EveryCall, ComposesDisjoint;
    forall a, b | EveryCall(HeadFree, a, b) ensures ComposesDisjoint(a, b) { CallIsDisjoint(a, b); }
    EveryCallGives(HeadFree, ComposesDisjoint, t1, t2);
  }

  /** On a run all of whose head calls pass the guard, the compositions obey the documented law, those with a head taken together. */
  lemma {:induction false} RunsComposeLawfully(t1: Type, t2: Type)
    requires EveryCall(HeadGuarded, t1, t2)
    ensures EveryCall(ComposesLawfully, t1, t2)
  {
    hide EveryCall, ComposesLawfully;
    forall a, b | EveryCall(HeadGuarded, a, b) ensures ComposesLawfully(a, b) { CallIsLawful(a, b); }
    EveryCallGives(HeadGuarded, ComposesLawfully, t1, t2);
  }
}

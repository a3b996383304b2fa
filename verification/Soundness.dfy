/** What a successful unification guarantees, and when the pure `unify` guarantees it. */
module Soundness {
  import opened Wrappers
  import opened Types
  import opened Substitution
  import opened Unification
  import opened Matching

  /** The correctness condition for one call. */
  ghost predicate Solves(t1: Type, t2: Type, s: Subst) {
    Resolved(s) && Matches(Apply(t1, s), Apply(t2, s))
  }

  // ---- every call of a run of the pure unifier ---------------------------------------------------

  type CallProperty = (Type, Type) -> bool

  /** `p` holds of the pure call on `t1` and `t2` and of every call it makes in turn. */
  ghost predicate EveryCall(p: CallProperty, t1: Type, t2: Type)
    decreases |Vars(t1, t2)|, Size(t1) + Size(t2), 0, 0
  {
    hide Within, Grows, EqVars, EqSize, Vars, Ambient, Size, SizeFields, Eliminates, ElemWithin;
    && p(t1, t2)
    && match PlanFor(t1, t2)
       case Solve(eqs) =>
         SolveIsSmaller(t1, t2, eqs);
         EveryCallFrom(p, eqs, map[])
       case Elems(head, fields, arg) =>
         fields != [] ==> (
           FieldsIsSmaller(t1, t2);
           && EveryCallElems(p, fields[1..], fields[0].ty, map[])
           && var f := ElemFrom(fields[1..], fields[0].ty, map[]);
           && (f.err.None? ==> (
                 SkippedArgIsSmaller(t1, t2, f);
                 EveryCall(p, Apply(Apply(arg, HeadSubst(head)), f.s), f.elem))))
       case _ => true
  }

  ghost predicate EveryCallElems(p: CallProperty, rest: seq<Field>, current: Type, s: Subst)
    requires Eliminates(s)
    decreases |Ambient(rest, current, s)|, if s == map[] then Size(current) + SizeFields(rest) else 0, 1, |rest|
  {
    hide Within, Eliminates, ElemWithin, Ambient, Vars, Range;
    rest != [] ==> (
      ElemCallIsSmaller(rest, current, s);
      && EveryCall(p, Apply(current, s), Apply(rest[0].ty, s))
      && var u := Unify(SkipHead, Apply(current, s), Apply(rest[0].ty, s));
      && (u.err.None? ==> (
            ElemStep(rest, current, s, u.s);
            EveryCallElems(p, rest[1..], Apply(current, Compose(u.s, s)), Compose(u.s, s)))))
  }

  ghost predicate EveryCallFrom(p: CallProperty, eqs: seq<Eq>, s: Subst)
    decreases |EqVars(eqs, s)|, EqSize(eqs, s), 1, |eqs|
  {
    eqs != [] && eqs[0].Equal? ==> (
      CallIsSmaller(eqs, s);
      && EveryCall(p, Apply(eqs[0].lhs, s), Apply(eqs[0].rhs, s))
      && var o := Unify(SkipHead, Apply(eqs[0].lhs, s), Apply(eqs[0].rhs, s));
      && (o.err.None? ==> (StepIsSmaller(eqs, o.s, s); EveryCallFrom(p, eqs[1..], Compose(o.s, s)))))
  }

  /** What the nested calls of a pure record/application call return. */
  ghost function NestedOutcomes(head: Option<nat>, fields: seq<Field>, arg: Type): (r: (ElemOutcome, Outcome))
    requires fields != []
  {
    EmptyEliminates();
    var f := ElemFrom(fields[1..], fields[0].ty, map[]);
    (f, Unify(SkipHead, Apply(Apply(arg, HeadSubst(head)), f.s), f.elem))
  }

  lemma {:induction false} EmptyEliminates()
    ensures Eliminates(map[])
  {
  }

  /**
    The guard that is missing from the pure head-variable branch: the variable just bound to `Dict`
    is not in the fields, or the fields and the argument have forced it to be `Dict` anyway.
   */
  ghost predicate HeadGuarded(t1: Type, t2: Type) {
    match PlanFor(t1, t2)
    case Elems(Some(v), fields, arg) =>
      fields == [] ||
      var (f, a) := NestedOutcomes(Some(v), fields, arg);
      f.err.Some? || a.err.Some? || v !in FtvFields(fields) || ApplyVar(v, Compose(a.s, f.s)) == DICT
    case _ => true
  }

  ghost predicate CallSound(t1: Type, t2: Type) {
    var o := Unify(SkipHead, t1, t2);
    o.err.None? ==> Solves(t1, t2, o.s)
  }

  // ---- one equation onto what is solved already ----------------------------------------------------

  lemma {:induction false} StepSolves(l: Type, r: Type, u: Subst, s: Subst)
    requires Resolved(s) && Resolved(u) && Within(u, Vars(Apply(l, s), Apply(r, s)))
    ensures u.Keys !! s.Keys && Resolved(Compose(u, s)) && Absorbs(Compose(u, s), s)
    ensures Matches(Apply(Apply(l, s), u), Apply(Apply(r, s), u)) ==>
              Matches(Apply(l, Compose(u, s)), Apply(r, Compose(u, s)))
  {
    ResolvedClears(l, s);
    ResolvedClears(r, s);
    ResolvedCompose(u, s);
    ComposeAbsorbs(u, s);
    ComposeApply(l, u, s);
    ComposeApply(r, u, s);
  }

  lemma {:induction false} AbsorbsTransitive(q: Subst, r: Subst, s: Subst)
    requires Absorbs(q, r) && Absorbs(r, s)
    ensures Absorbs(q, s)
  {
    forall v | v in s ensures Apply(s[v], q) == ApplyVar(v, q) {
      AbsorbsApply(s[v], q, r);
      AbsorbsApply(Var(v), q, r);
    }
  }

  lemma {:induction false} StillMatches(l: Type, r: Type, c: Subst, s: Subst)
    requires Matches(Apply(l, c), Apply(r, c)) && Absorbs(s, c)
    ensures Matches(Apply(l, s), Apply(r, s))
  {
    MatchesStable(Apply(l, c), Apply(r, c), s);
    AbsorbsApply(l, s, c);
    AbsorbsApply(r, s, c);
  }

  ghost predicate AllSolved(eqs: seq<Eq>, s: Subst) {
    forall i :: 0 <= i < |eqs| ==> eqs[i].Equal? && Matches(Apply(eqs[i].lhs, s), Apply(eqs[i].rhs, s))
  }

  // ---- the rule that applies the head: sound without conditions ------------------------------------

  lemma {:induction false} EmptyResolved()
    ensures Resolved(map[])
  {
  }

  lemma {:induction false} HeadResolved(head: Option<nat>)
    ensures Resolved(HeadSubst(head))
    ensures forall s :: Absorbs(s, HeadSubst(head)) ==> Apply(HeadType(head), s) == DICT
  {
    if head.Some? { assert head.value in HeadSubst(head); }
  }

  /** The head of the application: already `Dict`, or the variable to become it. */
  ghost function HeadType(head: Option<nat>): Type {
    if head.Some? then Var(head.value) else DICT
  }

  lemma {:induction false} ApplyToElems(t1: Type, t2: Type, s: Subst)
    requires PlanFor(t1, t2).Elems?
    ensures var Elems(head, fields, arg) := PlanFor(t1, t2);
            var app := App(Apply(HeadType(head), s), Apply(arg, s));
            || (Apply(t1, s) == Apply(Record(fields), s) && Apply(t2, s) == app)
            || (Apply(t2, s) == Apply(Record(fields), s) && Apply(t1, s) == app)
  {
  }

  /** Whatever happens the substitution is resolved, and success makes the two types match. */
  lemma {:induction false} UnifySound(t1: Type, t2: Type)
    ensures var o := Unify(ApplyHead, t1, t2);
            Resolved(o.s) && (o.err.None? ==> Solves(t1, t2, o.s))
    decreases |Vars(t1, t2)|, Size(t1) + Size(t2), 0, 0
  {
    hide Within, Grows, Range, Absorbs, EqVars, EqSize, Vars, Matches, Ambient;
    var o := Unify(ApplyHead, t1, t2);
    EmptyResolved();
    match PlanFor(t1, t2)
    case Fail(e) =>
    case Bind(v, t) => BindSolves(t1, t2);
    case Solve(eqs) =>
      SolveIsSmaller(t1, t2, eqs);
      SolveSound(eqs, map[]);
      if o.err.None? { MatchesByPlan(t1, t2, o.s); }
    case Elems(head, fields, arg) =>
      HeadResolved(head);
      if fields != [] {
        ElemsIsSmaller(t1, t2);
        SolveSound(ElemEqs(fields) + [Equal(arg, fields[0].ty)], HeadSubst(head));
        if o.err.None? {
          ElemsMatch(fields, arg, o.s);
          ApplyToElems(t1, t2, o.s);
        }
      }
  }

  lemma {:induction false} BindSolves(t1: Type, t2: Type)
    requires PlanFor(t1, t2).Bind?
    ensures var Bind(v, t) := PlanFor(t1, t2);
            v !in Ftv(t) ==> Solves(t1, t2, map[v := t])
  {
    var Bind(v, t) := PlanFor(t1, t2);
    if v !in Ftv(t) {
      ApplyDisjoint(t, map[v := t]);
      MatchesItself(t);
    }
  }

  lemma {:induction false} SolveSound(eqs: seq<Eq>, s: Subst)
    requires Resolved(s)
    ensures var o := SolveFrom(ApplyHead, eqs, s);
            Resolved(o.s) && Absorbs(o.s, s) && (o.err.None? ==> AllSolved(eqs, o.s))
    decreases |EqVars(eqs, s)|, EqSize(eqs, s), 1, |eqs|
  {
    hide Within, Grows, Range, Resolved, Absorbs, Matches, EqVars, EqSize, Vars;
    ResolvedAbsorbsItself(s);
    if eqs != [] && eqs[0].Equal? {
      var l, r := eqs[0].lhs, eqs[0].rhs;
      var u := Unify(ApplyHead, Apply(l, s), Apply(r, s));
      CallIsSmaller(eqs, s);
      UnifySound(Apply(l, s), Apply(r, s));
      StepSolves(l, r, u.s, s);
      if u.err.None? {
        var c := Compose(u.s, s);
        StepIsSmaller(eqs, u.s, s);
        SolveSound(eqs[1..], c);
        var o := SolveFrom(ApplyHead, eqs[1..], c);
        AbsorbsTransitive(o.s, c, s);
        StillMatches(l, r, c, o.s);
        if o.err.None? { assert AllSolved(eqs, o.s) by { ConsSolved(eqs, o.s); } }
      }
    }
  }

  lemma {:induction false} ConsSolved(eqs: seq<Eq>, s: Subst)
    requires eqs != [] && eqs[0].Equal? && Matches(Apply(eqs[0].lhs, s), Apply(eqs[0].rhs, s))
    requires AllSolved(eqs[1..], s)
    ensures AllSolved(eqs, s)
  {
    forall i | 0 <= i < |eqs| ensures eqs[i].Equal? && Matches(Apply(eqs[i].lhs, s), Apply(eqs[i].rhs, s)) {
      if i > 0 { assert eqs[i] == eqs[1..][i - 1]; }
    }
  }

  // ---- the rule that skips the head: sound exactly under the guard -----------------------------------

  /** Every call of a pure run returns a correct result if and only if every head call passes the guard. */
  lemma {:induction false} PureSoundIff(t1: Type, t2: Type)
    ensures EveryCall(CallSound, t1, t2) <==> EveryCall(HeadGuarded, t1, t2)
    decreases |Vars(t1, t2)|, Size(t1) + Size(t2), 0, 1
  {
    hide Within, Grows, Range, Resolved, Absorbs, Matches, EqVars, EqSize, Vars, Ambient;
    match PlanFor(t1, t2)
    case Fail(e) =>
    case Bind(v, t) => BindSolves(t1, t2);
    case Solve(eqs) =>
      var o := Unify(SkipHead, t1, t2);
      EmptyResolved();
      SolveIsSmaller(t1, t2, eqs);
      PureSolveIff(eqs, map[]);
      if o.err.None? && EveryCallFrom(CallSound, eqs, map[]) { MatchesByPlan(t1, t2, o.s); }
    case Elems(head, fields, arg) =>
      if fields != [] { PureElemsIff(t1, t2); }
  }

  lemma {:induction false} PureElemsIff(t1: Type, t2: Type)
    requires PlanFor(t1, t2).Elems? && PlanFor(t1, t2).fields != []
    ensures EveryCall(CallSound, t1, t2) <==> EveryCall(HeadGuarded, t1, t2)
    decreases |Vars(t1, t2)|, Size(t1) + Size(t2), 0, 0
  {
    hide Within, Grows, Range, Resolved, Absorbs, Matches, Vars, EveryCallElems, Ambient, Eliminates;
    hide ElemWithin, Size, SizeFields, HeadGuarded, CallSound, Unify, ElemFrom, Apply, FieldsSolved;
    var Elems(head, fields, arg) := PlanFor(t1, t2);
    EmptyResolved();
    FieldsIsSmaller(t1, t2);
    PureElemsFromIff(fields[1..], fields[0].ty, map[], fields[0].ty);
    var f := ElemFrom(fields[1..], fields[0].ty, map[]);
    if f.err.Some? {
      ElemsFailed(t1, t2);
    } else {
      var l := Apply(Apply(arg, HeadSubst(head)), f.s);
      SkippedArgIsSmaller(t1, t2, f);
      PureSoundIff(l, f.elem);
      if EveryCallElems(CallSound, fields[1..], fields[0].ty, map[]) && EveryCall(CallSound, l, f.elem) {
        if Unify(SkipHead, l, f.elem).err.Some? {
          ElemsFailed(t1, t2);
        } else {
          SoundHere(l, f.elem);
          ElemsCallExact(t1, t2);
        }
      }
    }
  }

  lemma {:induction false} ElemsFailed(t1: Type, t2: Type)
    requires PlanFor(t1, t2).Elems? && PlanFor(t1, t2).fields != []
    requires var Elems(head, fields, arg) := PlanFor(t1, t2);
             var (f, a) := NestedOutcomes(head, fields, arg);
             f.err.Some? || a.err.Some?
    ensures CallSound(t1, t2) && HeadGuarded(t1, t2)
  {
    hide Within, Grows, Range, Resolved, Absorbs, Matches, Vars, EveryCallElems, Ambient, Eliminates;
    hide ElemWithin, ElemFrom;
    ElemsRun(t1, t2);
  }

  /** The field loop of the pure unifier, given that the first field is up to date. */
  lemma {:induction false} PureElemsFromIff(rest: seq<Field>, current: Type, s: Subst, first: Type)
    requires Resolved(s) && Eliminates(s) && Apply(current, s) == Apply(first, s)
    ensures EveryCallElems(CallSound, rest, current, s) <==> EveryCallElems(HeadGuarded, rest, current, s)
    ensures var o := ElemFrom(rest, current, s);
            EveryCallElems(CallSound, rest, current, s) && o.err.None? ==>
              Resolved(o.s) && Absorbs(o.s, s) && o.elem == Apply(first, o.s) && FieldsSolved(rest, first, o.s)
    decreases |Ambient(rest, current, s)|, if s == map[] then Size(current) + SizeFields(rest) else 0, 1, |rest|
  {
    hide Within, Range, Resolved, Absorbs, Matches, Ambient, Vars, EveryCall, CallSound, HeadGuarded, Unify;
    hide Eliminates, ElemWithin, Apply, Compose;
    ResolvedAbsorbsItself(s);
    if rest != [] {
      ElemCallIsSmaller(rest, current, s);
      var l, r := Apply(current, s), Apply(rest[0].ty, s);
      var u := Unify(SkipHead, l, r);
      PureSoundIff(l, r);
      ElemStep(rest, current, s, u.s);
      if u.err.None? && EveryCall(CallSound, l, r) {
        SoundHere(l, r);
        StepSolves(first, rest[0].ty, u.s, s);
        var c := Compose(u.s, s);
        UpToDate(current, first, s, c);
        PureElemsFromIff(rest[1..], Apply(current, c), c, first);
        var o := ElemFrom(rest[1..], Apply(current, c), c);
        if EveryCallElems(CallSound, rest[1..], Apply(current, c), c) && o.err.None? {
          AbsorbsTransitive(o.s, c, s);
          StillMatches(first, rest[0].ty, c, o.s);
          FieldsSolvedCons(rest, first, o.s);
        }
      }
    }
  }

  ghost predicate FieldsSolved(rest: seq<Field>, first: Type, s: Subst) {
    forall i :: 0 <= i < |rest| ==> Matches(Apply(first, s), Apply(rest[i].ty, s))
  }

  lemma {:induction false} FieldsSolvedCons(rest: seq<Field>, first: Type, s: Subst)
    requires rest != [] && Matches(Apply(first, s), Apply(rest[0].ty, s)) && FieldsSolved(rest[1..], first, s)
    ensures FieldsSolved(rest, first, s)
  {
    forall i | 0 <= i < |rest| ensures Matches(Apply(first, s), Apply(rest[i].ty, s)) {
      if i > 0 { assert rest[i] == rest[1..][i - 1]; }
    }
  }

  lemma {:induction false} UpToDate(current: Type, first: Type, s: Subst, c: Subst)
    requires Apply(current, s) == Apply(first, s) && Resolved(c) && Absorbs(c, s)
    ensures Apply(Apply(current, c), c) == Apply(first, c)
  {
    AbsorbsApply(current, c, s);
    AbsorbsApply(first, c, s);
    ResolvedClears(current, c);
  }

  lemma {:induction false} SoundHere(t1: Type, t2: Type)
    requires EveryCall(CallSound, t1, t2) && Unify(SkipHead, t1, t2).err.None?
    ensures Solves(t1, t2, Unify(SkipHead, t1, t2).s)
  {
    hide Matches, Resolved, PlanFor;
    assert CallSound(t1, t2);
  }

  lemma {:induction false} PureSolveIff(eqs: seq<Eq>, s: Subst)
    requires Resolved(s)
    ensures EveryCallFrom(CallSound, eqs, s) <==> EveryCallFrom(HeadGuarded, eqs, s)
    ensures var o := SolveFrom(SkipHead, eqs, s);
            EveryCallFrom(CallSound, eqs, s) && o.err.None? ==>
              Resolved(o.s) && Absorbs(o.s, s) && AllSolved(eqs, o.s)
    decreases |EqVars(eqs, s)|, EqSize(eqs, s), 1, |eqs|
  {
    hide Within, Grows, Range, Resolved, Absorbs, Matches, EqVars, EqSize, Vars, EveryCall, CallSound;
    hide HeadGuarded, Unify;
    ResolvedAbsorbsItself(s);
    if eqs != [] && eqs[0].Equal? {
      var l, r := eqs[0].lhs, eqs[0].rhs;
      var u := Unify(SkipHead, Apply(l, s), Apply(r, s));
      CallIsSmaller(eqs, s);
      PureSoundIff(Apply(l, s), Apply(r, s));
      if u.err.None? && EveryCall(CallSound, Apply(l, s), Apply(r, s)) {
        SoundHere(Apply(l, s), Apply(r, s));
        StepSolves(l, r, u.s, s);
        var c := Compose(u.s, s);
        StepIsSmaller(eqs, u.s, s);
        PureSolveIff(eqs[1..], c);
        var o := SolveFrom(SkipHead, eqs[1..], c);
        if EveryCallFrom(CallSound, eqs[1..], c) && o.err.None? {
          AbsorbsTransitive(o.s, c, s);
          StillMatches(l, r, c, o.s);
          ConsSolved(eqs, o.s);
        }
      }
    }
  }

  /** How either rule runs a record/application call. */
  lemma {:induction false} ElemsRun(t1: Type, t2: Type)
    requires PlanFor(t1, t2).Elems? && PlanFor(t1, t2).fields != []
    ensures var Elems(head, fields, arg) := PlanFor(t1, t2);
            var h, (f, a) := HeadSubst(head), NestedOutcomes(head, fields, arg);
            && Unify(ApplyHead, t1, t2) == SolveFrom(ApplyHead, ElemEqs(fields) + [Equal(arg, fields[0].ty)], h)
            && Unify(SkipHead, t1, t2) == (if f.err.Some? then Outcome(Compose(f.s, h), f.err)
                                           else Outcome(Compose(a.s, Compose(f.s, h)), a.err))
  {
    hide Within, Grows, Range, EqVars, EqSize, Vars, Apply, SolveFrom, ElemEqs, ElemFrom, Ambient, ElemWithin;
    hide Compose;
  }

  /** One record/application call whose nested calls are correct is itself correct exactly under the guard. */
  lemma {:induction false} ElemsCallExact(t1: Type, t2: Type)
    requires PlanFor(t1, t2).Elems? && PlanFor(t1, t2).fields != []
    requires var Elems(head, fields, arg) := PlanFor(t1, t2);
             var (f, a) := NestedOutcomes(head, fields, arg);
             && f.err.None? && a.err.None?
             && Resolved(f.s) && f.elem == Apply(fields[0].ty, f.s) && FieldsSolved(fields[1..], fields[0].ty, f.s)
             && Solves(Apply(Apply(arg, HeadSubst(head)), f.s), f.elem, a.s)
    ensures CallSound(t1, t2) <==> HeadGuarded(t1, t2)
  {
    hide Within, Grows, Range, Resolved, Absorbs, Matches, Unify, ElemFrom, ElemEqs, Apply, FieldsSolved;
    hide Ambient, ElemWithin, Solves;
    var Elems(head, fields, arg) := PlanFor(t1, t2);
    var (f, a) := NestedOutcomes(head, fields, arg);
    EmptyEliminates();
    ElemsRun(t1, t2);
    ElemsSolved(head, fields, arg, f, a.s);
    ComposeAssoc(a.s, f.s, HeadSubst(head));
    ElemsExact(t1, t2, Compose(a.s, f.s));
  }

  /** The equations of a record/application call, the head applied to the argument only. */
  ghost predicate ArgSolved(head: Option<nat>, fields: seq<Field>, arg: Type, s: Subst)
    requires fields != []
  {
    && FieldsSolved(fields[1..], fields[0].ty, s)
    && Matches(Apply(Apply(arg, HeadSubst(head)), s), Apply(fields[0].ty, s))
  }

  lemma {:induction false} ElemsSolved(head: Option<nat>, fields: seq<Field>, arg: Type, f: ElemOutcome, a: Subst)
    requires fields != []
    requires Within(f.s, Ambient(fields[1..], fields[0].ty, map[]))
    requires Resolved(f.s) && f.elem == Apply(fields[0].ty, f.s) && FieldsSolved(fields[1..], fields[0].ty, f.s)
    requires var l := Apply(Apply(arg, HeadSubst(head)), f.s);
             Within(a, Vars(l, f.elem)) && Solves(l, f.elem, a)
    ensures var s := Compose(a, f.s);
            && Resolved(s) && a.Keys !! f.s.Keys && ArgSolved(head, fields, arg, s)
            && s.Keys + Range(s) <= FtvFields(fields) + Ftv(Apply(arg, HeadSubst(head)))
  {
    hide Matches, Apply, Ambient, Within, Range, HeadSubst, FieldsSolved, Absorbs, Compose;
    var arg' := Apply(arg, HeadSubst(head));
    var s := Compose(a, f.s);
    StepSolves(arg', fields[0].ty, a, f.s);
    FieldsStillSolved(fields[1..], fields[0].ty, f.s, s);
    FtvOfRest(fields);
    AmbientFields(fields);
    ElemsVars(FtvFields(fields), fields[0].ty, arg', f.s, a);
  }

  lemma {:induction false} AmbientFields(fields: seq<Field>)
    requires fields != []
    ensures forall s :: Within(s, Ambient(fields[1..], fields[0].ty, map[])) ==>
              s.Keys <= FtvFields(fields) && Range(s) <= FtvFields(fields)
  {
    FtvOfRest(fields);
  }

  lemma {:induction false} FieldsStillSolved(rest: seq<Field>, first: Type, c: Subst, s: Subst)
    requires FieldsSolved(rest, first, c) && Absorbs(s, c)
    ensures FieldsSolved(rest, first, s)
  {
    hide Matches, Apply, Absorbs;
    forall i | 0 <= i < |rest| ensures Matches(Apply(first, s), Apply(rest[i].ty, s)) {
      StillMatches(first, rest[i].ty, c, s);
    }
  }

  lemma {:induction false} ElemsVars(w: set<nat>, t: Type, arg': Type, f: Subst, a: Subst)
    requires Ftv(t) <= w && f.Keys <= w && Range(f) <= w
    requires Within(a, Vars(Apply(arg', f), Apply(t, f)))
    ensures Compose(a, f).Keys + Range(Compose(a, f)) <= w + Ftv(arg')
  {
    hide Matches, Apply, Ftv;
    FtvApplyBound(arg', f);
    FtvApplyBound(t, f);
    RangeOfCompose(a, f);
  }

  lemma {:induction false} ElemsExact(t1: Type, t2: Type, s: Subst)
    requires PlanFor(t1, t2).Elems? && PlanFor(t1, t2).fields != []
    requires var Elems(head, fields, arg) := PlanFor(t1, t2);
             && Resolved(s) && ArgSolved(head, fields, arg, s)
             && s.Keys + Range(s) <= FtvFields(fields) + Ftv(Apply(arg, HeadSubst(head)))
    ensures var Elems(head, fields, arg) := PlanFor(t1, t2);
            Solves(t1, t2, Compose(s, HeadSubst(head)))
            <==> (head.Some? ==> head.value !in FtvFields(fields) || ApplyVar(head.value, s) == DICT)
  {
    var Elems(head, fields, arg) := PlanFor(t1, t2);
    HeadGone(arg, head, Ftv(arg));
    ComposeEmpty(s);
    hide Within, Grows, Size, Matches, Apply, Resolved, PlanFor, Ftv, FtvFields, ArgSolved;
    if head.None? || ApplyVar(head.value, s) == DICT {
      GuardedByDict(t1, t2, s);
    } else if head.value !in FtvFields(fields) {
      GuardedByAbsence(t1, t2, s);
    } else if head.value in s {
      NotDict(t1, t2, Compose(s, HeadSubst(head)));
    } else {
      Unguarded(head.value, fields, arg, s);
    }
  }

  lemma {:induction false} NotDict(t1: Type, t2: Type, c: Subst)
    requires PlanFor(t1, t2).Elems? && Apply(HeadType(PlanFor(t1, t2).head), c) != DICT
    ensures !Matches(Apply(t1, c), Apply(t2, c))
  {
    ApplyToElems(t1, t2, c);
    assert Apply(Record(PlanFor(t1, t2).fields), c).Record?;
  }

  lemma {:induction false} RecordMatchesDict(fields: seq<Field>, arg: Type, c: Subst)
    requires fields != [] && FieldsSolved(fields[1..], fields[0].ty, c) && Matches(Apply(arg, c), Apply(fields[0].ty, c))
    ensures Matches(Apply(Record(fields), c), App(DICT, Apply(arg, c)))
    ensures Matches(App(DICT, Apply(arg, c)), Apply(Record(fields), c))
  {
    hide Matches, Apply;
    var eqs := ElemEqs(fields) + [Equal(arg, fields[0].ty)];
    forall i | 0 <= i < |eqs| ensures Matches(Apply(eqs[i].lhs, c), Apply(eqs[i].rhs, c)) {
      if i < |fields| - 1 { assert fields[1..][i] == fields[i + 1]; }
    }
    ElemsMatch(fields, arg, c);
  }

  lemma {:induction false} GuardedByDict(t1: Type, t2: Type, s: Subst)
    requires PlanFor(t1, t2).Elems? && PlanFor(t1, t2).fields != []
    requires var Elems(head, fields, arg) := PlanFor(t1, t2);
             && Resolved(s) && Apply(HeadType(head), s) == DICT && ArgSolved(head, fields, arg, s)
    ensures Solves(t1, t2, Compose(s, HeadSubst(PlanFor(t1, t2).head)))
  {
    var Elems(head, fields, arg) := PlanFor(t1, t2);
    var h := HeadSubst(head);
    assert Absorbs(s, h);
    hide Matches, Absorbs, Resolved, PlanFor;
    ComposeEmpty(s);
    assert Compose(s, h) == s;
    hide Apply;
    AbsorbsApply(arg, s, h);
    RecordMatchesDict(fields, arg, s);
    ApplyToElems(t1, t2, s);
  }

  lemma {:induction false} GuardedByAbsence(t1: Type, t2: Type, s: Subst)
    requires PlanFor(t1, t2).Elems? && PlanFor(t1, t2).fields != []
    requires var Elems(head, fields, arg) := PlanFor(t1, t2);
             && Resolved(s) && ArgSolved(head, fields, arg, s)
             && head.Some? && head.value !in FtvFields(fields) && head.value !in s.Keys + Range(s)
    ensures Solves(t1, t2, Compose(s, HeadSubst(PlanFor(t1, t2).head)))
  {
    var Elems(head, fields, arg) := PlanFor(t1, t2);
    var h := HeadSubst(head);
    var c := Compose(s, h);
    assert Apply(HeadType(head), c) == DICT;
    ResolvedCompose(s, h);
    FtvOfRest(fields);
    hide Matches, Apply, Resolved, PlanFor;
    ComposeApply(arg, s, h);
    SameUnder(fields[0].ty, s, h);
    forall i | 0 <= i < |fields[1..]| ensures Matches(Apply(fields[0].ty, c), Apply(fields[1..][i].ty, c)) {
      assert Matches(Apply(fields[0].ty, s), Apply(fields[1..][i].ty, s));
      assert head.value !in Ftv(fields[1..][i].ty) by { assert fields[1..][i] == fields[i + 1]; }
      SameUnder(fields[1..][i].ty, s, h);
    }
    RecordMatchesDict(fields, arg, c);
    ApplyToElems(t1, t2, c);
  }

  lemma {:induction false} SameUnder(t: Type, s: Subst, h: Subst)
    requires s.Keys !! h.Keys && Ftv(t) !! h.Keys
    ensures Apply(t, Compose(s, h)) == Apply(t, s)
  {
    ComposeApply(t, s, h);
    ApplyDisjoint(t, h);
  }

  lemma {:induction false} Unguarded(v: nat, fields: seq<Field>, arg: Type, s: Subst)
    requires fields != [] && v in FtvFields(fields) && v !in s && ArgSolved(Some(v), fields, arg, s)
    ensures !Resolved(Compose(s, HeadSubst(Some(v))))
  {
    var arg' := Apply(arg, HeadSubst(Some(v)));
    HeadGone(arg, Some(v), Ftv(arg));
    var i :| 0 <= i < |fields| && v in Ftv(fields[i].ty);
    hide Matches, PlanFor, Resolved, Range;
    MatchesFtv(Apply(arg', s), Apply(fields[0].ty, s));
    if i > 0 {
      assert fields[1..][i - 1] == fields[i];
      MatchesFtv(Apply(fields[0].ty, s), Apply(fields[i].ty, s));
    }
    FtvOfApply(fields[i].ty, s, v);
    assert v in Ftv(ApplyVar(v, s));
    FtvOfApply(arg', s, v);
    var k :| k in Ftv(arg') && v in Ftv(ApplyVar(k, s));
    var c := Compose(s, HeadSubst(Some(v)));
    assert k in c && c[k] == s[k] && v in c;
    hide *;
    StillMentions(c, k, v);
  }

  lemma {:induction false} StillMentions(s: Subst, k: nat, v: nat)
    requires k in s && v in s && v in Ftv(s[k])
    ensures !Resolved(s)
  {
    assert v in s.Keys * Range(s);
  }
}

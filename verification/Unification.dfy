/**
  Unification as a function of the two types: the specification of the in-place `Unifier` and of
  the pure `unify` (rex-typesystem/src/unification.rs). The two differ in one branch only, a record
  met by an application whose head is a variable, and `HeadRule` selects that branch.
 */
module Unification {
  import opened Wrappers
  import opened Types
  import opened Substitution

  datatype TypeError =
    | Occurs(id: nat, ty: Type)
    | Mismatch(t1: Type, t2: Type)
    | EmptyRecord

  /**
    Whether the head variable's binding to `Dict` is applied to the record's fields before these
    are unified (the `Unifier`), or only to the argument (pure `unify`).
   */
  datatype HeadRule = ApplyHead | SkipHead

  /** An equation still to be solved, or the point at which a field list turns out not to match. */
  datatype Eq = Equal(lhs: Type, rhs: Type) | Clash(error: TypeError)

  /** What one call does once it has looked at the outermost constructors. */
  datatype Plan =
    | Fail(error: TypeError)
    | Bind(v: nat, ty: Type)
    | Solve(eqs: seq<Eq>)
    | Elems(head: Option<nat>, fields: seq<Field>, arg: Type)

  function Zip(ts: seq<Type>, us: seq<Type>): seq<Eq>
    requires |ts| == |us|
  {
    seq(|ts|, i requires 0 <= i < |ts| => Equal(ts[i], us[i]))
  }

  function ZipFields(fs: seq<Field>, gs: seq<Field>): seq<Eq>
    requires |fs| == |gs|
  {
    seq(|fs|, i requires 0 <= i < |fs| =>
      if fs[i].name == gs[i].name then Equal(fs[i].ty, gs[i].ty) else Clash(Mismatch(fs[i].ty, gs[i].ty)))
  }

  /** Every later field against the first one. */
  function ElemEqs(fs: seq<Field>): (eqs: seq<Eq>)
    requires fs != []
  {
    seq(|fs| - 1, i requires 0 <= i < |fs| - 1 => Equal(fs[0].ty, fs[i + 1].ty))
  }

  /** What a variable in head position is bound to when it meets a record. */
  function HeadSubst(head: Option<nat>): Subst {
    match head
    case Some(v) => map[v := DICT]
    case None => map[]
  }

  function PlanRecordApp(t1: Type, t2: Type, fields: seq<Field>, head: Type, arg: Type): Plan {
    match head
    case Con(Builtin(Dict)) => Elems(None, fields, arg)
    case Var(v) => Elems(Some(v), fields, arg)
    case _ => Fail(Mismatch(t1, t2))
  }

  function PlanFor(t1: Type, t2: Type): Plan {
    match (t1, t2)
    case (Var(v), _) => if t2 == Var(v) then Solve([]) else Bind(v, t2)
    case (_, Var(v)) => Bind(v, t1)
    case (Con(c), Con(d)) => if c == d then Solve([]) else Fail(Mismatch(t1, t2))
    case (App(h1, a1), App(h2, a2)) => Solve([Equal(h1, h2), Equal(a1, a2)])
    case (Fun(a1, b1), Fun(a2, b2)) => Solve([Equal(a1, a2), Equal(b1, b2)])
    case (Tuple(ts), Tuple(us)) => if |ts| == |us| then Solve(Zip(ts, us)) else Fail(Mismatch(t1, t2))
    case (Record(fs), Record(gs)) => if |fs| == |gs| then Solve(ZipFields(fs, gs)) else Fail(Mismatch(t1, t2))
    case (Record(fs), App(h, a)) => PlanRecordApp(t1, t2, fs, h, a)
    case (App(h, a), Record(fs)) => PlanRecordApp(t1, t2, fs, h, a)
    case _ => Fail(Mismatch(t1, t2))
  }

  /** The substitution built so far, also when the attempt failed. */
  datatype Outcome = Outcome(s: Subst, err: Option<TypeError>)

  // ---- measures ----------------------------------------------------------------------------------

  ghost function Vars(t1: Type, t2: Type): set<nat> { Ftv(t1) + Ftv(t2) }

  ghost function EqVars(eqs: seq<Eq>, s: Subst): (vs: set<nat>)
    decreases |eqs|
  {
    if eqs == [] then {}
    else
      var rest := EqVars(eqs[1..], s);
      if eqs[0].Equal? then Vars(Apply(eqs[0].lhs, s), Apply(eqs[0].rhs, s)) + rest else rest
  }

  ghost function EqSize(eqs: seq<Eq>, s: Subst): (n: nat)
    decreases |eqs|
  {
    if eqs == [] then 0
    else
      var rest := EqSize(eqs[1..], s);
      if eqs[0].Equal? && Size(Apply(eqs[0].lhs, s)) + Size(Apply(eqs[0].rhs, s)) > rest
      then Size(Apply(eqs[0].lhs, s)) + Size(Apply(eqs[0].rhs, s)) else rest
  }

  lemma {:induction false} EqVarsBound(eqs: seq<Eq>, s: Subst, vs: set<nat>)
    requires forall i :: 0 <= i < |eqs| && eqs[i].Equal? ==> Vars(Apply(eqs[i].lhs, s), Apply(eqs[i].rhs, s)) <= vs
    ensures EqVars(eqs, s) <= vs
    decreases |eqs|
  {
    if eqs != [] {
      forall i | 0 <= i < |eqs| - 1 && eqs[1..][i].Equal?
        ensures Vars(Apply(eqs[1..][i].lhs, s), Apply(eqs[1..][i].rhs, s)) <= vs
      {
        assert eqs[1..][i] == eqs[i + 1];
      }
      EqVarsBound(eqs[1..], s, vs);
    }
  }

  lemma {:induction false} EqSizeBound(eqs: seq<Eq>, s: Subst, n: nat)
    requires n > 0
    requires forall i :: 0 <= i < |eqs| && eqs[i].Equal? ==> Size(Apply(eqs[i].lhs, s)) + Size(Apply(eqs[i].rhs, s)) < n
    ensures EqSize(eqs, s) < n
    decreases |eqs|
  {
    if eqs != [] {
      forall i | 0 <= i < |eqs| - 1 && eqs[1..][i].Equal?
        ensures Size(Apply(eqs[1..][i].lhs, s)) + Size(Apply(eqs[1..][i].rhs, s)) < n
      {
        assert eqs[1..][i] == eqs[i + 1];
      }
      EqSizeBound(eqs[1..], s, n);
    }
  }

  /** Some bound variable occurs in no type substituted in: applying `s` gets rid of it for good. */
  ghost predicate Eliminates(s: Subst) {
    s != map[] ==> exists v :: v in s && v !in Range(s)
  }

  lemma {:induction false} FewerVars(a: set<nat>, b: set<nat>)
    requires a <= b
    ensures |a| <= |b|
    ensures a != b ==> |a| < |b|
  {
    var d := b - a;
    assert b == a + d && a !! d;
    if a != b { assert d != {}; }
  }

  /** The equations of one step speak of fewer nodes than the call they come from. */
  lemma {:induction false} PartsAreSmaller(t1: Type, t2: Type, eqs: seq<Eq>)
    requires PlanFor(t1, t2) == Solve(eqs)
    ensures EqVars(eqs, map[]) <= Vars(t1, t2)
    ensures EqSize(eqs, map[]) < Size(t1) + Size(t2)
  {
    forall i | 0 <= i < |eqs| && eqs[i].Equal?
      ensures Vars(eqs[i].lhs, eqs[i].rhs) <= Vars(t1, t2)
      ensures Size(eqs[i].lhs) + Size(eqs[i].rhs) < Size(t1) + Size(t2)
      ensures Apply(eqs[i].lhs, map[]) == eqs[i].lhs && Apply(eqs[i].rhs, map[]) == eqs[i].rhs
    {
      ApplyEmpty(eqs[i].lhs);
      ApplyEmpty(eqs[i].rhs);
      EqIsSmaller(t1, t2, eqs, i);
    }
    EqVarsBound(eqs, map[], Vars(t1, t2));
    EqSizeBound(eqs, map[], Size(t1) + Size(t2));
  }

  lemma {:induction false} EqIsSmaller(t1: Type, t2: Type, eqs: seq<Eq>, i: nat)
    requires PlanFor(t1, t2) == Solve(eqs)
    requires i < |eqs| && eqs[i].Equal?
    ensures Vars(eqs[i].lhs, eqs[i].rhs) <= Vars(t1, t2)
    ensures Size(eqs[i].lhs) + Size(eqs[i].rhs) < Size(t1) + Size(t2)
  {
    match (t1, t2)
    case (Record(fs), Record(gs)) =>
      FieldsAreSmaller(fs);
      FieldsAreSmaller(gs);
    case (Tuple(ts), Tuple(us)) =>
      SizeOfElem(ts, i);
      SizeOfElem(us, i);
    case _ =>
  }

  lemma {:induction false} TwoFields(fs: seq<Field>, i: nat)
    requires 0 < i < |fs|
    ensures Size(fs[0].ty) + Size(fs[i].ty) <= SizeFields(fs)
  {
    SizeOfField(fs[1..], i - 1);
  }

  lemma {:induction false} FieldsAreSmaller(fs: seq<Field>)
    ensures forall i :: 0 <= i < |fs| ==> Size(fs[i].ty) < Size(Record(fs)) && Ftv(fs[i].ty) <= Ftv(Record(fs))
    ensures forall i :: 0 < i < |fs| ==> Size(fs[0].ty) + Size(fs[i].ty) < Size(Record(fs))
  {
    forall i | 0 <= i < |fs|
      ensures Size(fs[i].ty) < Size(Record(fs)) && Ftv(fs[i].ty) <= Ftv(Record(fs))
      ensures i > 0 ==> Size(fs[0].ty) + Size(fs[i].ty) < Size(Record(fs))
    {
      SizeOfField(fs, i);
      if i > 0 { TwoFields(fs, i); }
    }
  }

  /** Variables left in a type once `a` has been composed onto `b`. */
  lemma {:induction false} ComposeVars(t: Type, a: Subst, b: Subst, w: set<nat>, u: nat)
    requires Ftv(Apply(t, b)) <= w && Range(a) <= w
    ensures Ftv(Apply(t, Compose(a, b))) <= w
    ensures u in a && u !in Range(a) ==> u !in Ftv(Apply(t, Compose(a, b)))
  {
    var c := Compose(a, b);
    forall v | v in Ftv(Apply(t, c)) ensures v in w && (u in a && u !in Range(a) ==> v != u) {
      FtvOfApply(t, c, v);
      var k :| k in Ftv(t) && v in Ftv(ApplyVar(k, c));
      if k !in a {
        FtvApplyBound(ApplyVar(k, b), a);
        forall x | x in Ftv(ApplyVar(k, b)) ensures x in Ftv(Apply(t, b)) { FtvOfApply(t, b, x); }
      }
    }
  }

  lemma {:induction false} RestVars(rest: seq<Eq>, a: Subst, s: Subst, w: set<nat>, u: nat)
    requires EqVars(rest, s) <= w && Range(a) <= w
    ensures EqVars(rest, Compose(a, s)) <= w
    ensures u in a && u !in Range(a) ==> u !in EqVars(rest, Compose(a, s))
    decreases |rest|
  {
    if rest != [] {
      RestVars(rest[1..], a, s, w, u);
      if rest[0].Equal? {
        ComposeVars(rest[0].lhs, a, s, w, u);
        ComposeVars(rest[0].rhs, a, s, w, u);
      }
    }
  }

  /** Solving one equation shrinks what is left, in variables or else in size. */
  lemma {:induction false} RestIsSmaller(eqs: seq<Eq>, a: Subst, s: Subst)
    requires eqs != [] && eqs[0].Equal?
    requires Range(a) <= EqVars(eqs, s) && a.Keys <= EqVars(eqs, s) && Eliminates(a)
    ensures EqVars(eqs[1..], Compose(a, s)) <= EqVars(eqs, s)
    ensures a == map[] ==> EqSize(eqs[1..], Compose(a, s)) <= EqSize(eqs, s)
    ensures a != map[] ==> |EqVars(eqs[1..], Compose(a, s))| < |EqVars(eqs, s)|
    ensures |EqVars(eqs[1..], Compose(a, s))| <= |EqVars(eqs, s)|
  {
    var rest, c, w := eqs[1..], Compose(a, s), EqVars(eqs, s);
    RestVars(rest, a, s, w, 0);
    if a == map[] {
      ComposeEmpty(s);
    } else {
      var u :| u in a && u !in Range(a);
      RestVars(rest, a, s, w, u);
      assert u in w;
    }
    FewerVars(EqVars(rest, c), w);
  }

  lemma {:induction false} SizeOfDict(t: Type, v: nat)
    ensures Size(Apply(t, map[v := DICT])) == Size(t)
    decreases t, 0
  {
    var s := map[v := DICT];
    match t
    case Tuple(ts) => SizeOfDictAll(ts, Apply(t, s).elems, v);
    case Record(fs) => SizeOfDictFields(fs, Apply(t, s).fields, v);
    case App(h, a) => SizeOfDict(h, v); SizeOfDict(a, v);
    case Fun(a, b) => SizeOfDict(a, v); SizeOfDict(b, v);
    case _ =>
  }

  lemma {:induction false} SizeOfDictAll(ts: seq<Type>, us: seq<Type>, v: nat)
    requires |ts| == |us| && forall i :: 0 <= i < |ts| ==> us[i] == Apply(ts[i], map[v := DICT])
    ensures SizeAll(us) == SizeAll(ts)
    decreases ts, 1
  {
    if ts != [] {
      SizeOfDict(ts[0], v);
      SizeOfDictAll(ts[1..], us[1..], v);
    }
  }

  lemma {:induction false} SizeOfDictFields(fs: seq<Field>, gs: seq<Field>, v: nat)
    requires |fs| == |gs| && forall i :: 0 <= i < |fs| ==> gs[i].ty == Apply(fs[i].ty, map[v := DICT])
    ensures SizeFields(gs) == SizeFields(fs)
    decreases fs, 1
  {
    if fs != [] {
      SizeOfDict(fs[0].ty, v);
      SizeOfDictFields(fs[1..], gs[1..], v);
    }
  }

  // ---- unification ---------------------------------------------------------------------------------

  /** Keys and range lie in `vs`, and something is eliminated unless nothing was bound. */
  ghost predicate Within(s: Subst, vs: set<nat>) {
    s.Keys <= vs && Range(s) <= vs && Eliminates(s)
  }

  /** `r` binds what `s` binds, and besides it variables from `vs` only; it still eliminates something if `s` did. */
  ghost predicate Grows(r: Subst, s: Subst, vs: set<nat>) {
    && s.Keys <= r.Keys <= s.Keys + vs
    && Range(r) <= Range(s) + vs
    && (Eliminates(s) ==> Eliminates(r))
  }

  /**
    One call. It terminates because each equation solved either leaves the rest alone or takes
    away one of the variables they speak of.
   */
  function Unify(rule: HeadRule, t1: Type, t2: Type): (o: Outcome)
    ensures Within(o.s, Vars(t1, t2))
    decreases |Vars(t1, t2)|, Size(t1) + Size(t2), 0, 0
  {
    hide Within, Grows, EqVars, EqSize, Ambient, Vars, Size, SizeFields;
    match PlanFor(t1, t2)
    case Fail(e) =>
      EmptyWithin(Vars(t1, t2));
      Outcome(map[], Some(e))
    case Bind(v, t) =>
      EmptyWithin(Vars(t1, t2));
      BindWithin(t1, t2);
      if v in Ftv(t) then Outcome(map[], Some(Occurs(v, t))) else Outcome(map[v := t], None)
    case Solve(eqs) =>
      SolveIsSmaller(t1, t2, eqs);
      SolveFrom(rule, eqs, map[])
    case Elems(head, fields, arg) =>
      var h := HeadSubst(head);
      if fields == [] then
        ElemsWithin(t1, t2);
        Outcome(h, Some(EmptyRecord))
      else if rule.ApplyHead? then
        ElemsIsSmaller(t1, t2);
        SolveFrom(rule, ElemEqs(fields) + [Equal(arg, fields[0].ty)], h)
      else
        FieldsIsSmaller(t1, t2);
        var f := ElemFrom(fields[1..], fields[0].ty, map[]);
        if f.err.Some? then
          EmptyWithin({});
          SkippedWithin(t1, t2, f.s, map[], {});
          Outcome(Compose(f.s, h), f.err)
        else
          SkippedArgIsSmaller(t1, t2, f);
          var a := Unify(rule, Apply(Apply(arg, h), f.s), f.elem);
          SkippedWithin(t1, t2, f.s, a.s, Vars(Apply(Apply(arg, h), f.s), f.elem));
          Outcome(Compose(a.s, Compose(f.s, h)), a.err)
  }

  /** The equations in turn, each under what the earlier ones bound, up to the first failure. */
  function SolveFrom(rule: HeadRule, eqs: seq<Eq>, s: Subst): (o: Outcome)
    ensures Grows(o.s, s, EqVars(eqs, s))
    decreases |EqVars(eqs, s)|, EqSize(eqs, s), 1, |eqs|
  {
    if eqs == [] then Outcome(s, None)
    else if eqs[0].Clash? then Outcome(s, Some(eqs[0].error))
    else
      CallIsSmaller(eqs, s);
      var o := Unify(rule, Apply(eqs[0].lhs, s), Apply(eqs[0].rhs, s));
      StepWithin(eqs, o.s, s);
      if o.err.Some? then Outcome(Compose(o.s, s), o.err)
      else
        StepIsSmaller(eqs, o.s, s);
        var r := SolveFrom(rule, eqs[1..], Compose(o.s, s));
        GrowsAgain(r.s, Compose(o.s, s), s, EqVars(eqs[1..], Compose(o.s, s)), EqVars(eqs, s));
        r
  }

  datatype ElemOutcome = ElemOutcome(s: Subst, elem: Type, err: Option<TypeError>)

  ghost function Ambient(rest: seq<Field>, current: Type, s: Subst): set<nat> {
    s.Keys + Range(s) + Ftv(current) + FtvFields(rest)
  }

  /**
    How the pure unifier finds the common type of a record's fields: the first field's type, brought
    up to date after every step, against each later one.
   */
  function ElemFrom(rest: seq<Field>, current: Type, s: Subst): (o: ElemOutcome)
    requires Eliminates(s)
    ensures Within(o.s, Ambient(rest, current, s)) && s.Keys <= o.s.Keys
    ensures o.err.None? ==> ElemWithin(o, current, Ambient(rest, current, s))
    decreases |Ambient(rest, current, s)|, if s == map[] then Size(current) + SizeFields(rest) else 0, 1, |rest|
  {
    hide Within, Eliminates, ElemWithin, Ambient, Vars, Range;
    if rest == [] then
      ElemEnds(rest, current, s);
      ElemOutcome(s, Apply(current, s), None)
    else
      ElemCallIsSmaller(rest, current, s);
      var u := Unify(SkipHead, Apply(current, s), Apply(rest[0].ty, s));
      ElemStep(rest, current, s, u.s);
      if u.err.Some? then ElemOutcome(Compose(u.s, s), current, u.err)
      else
        var next := Compose(u.s, s);
        var o := ElemFrom(rest[1..], Apply(current, next), next);
        ElemAgain(rest, current, s, next, o);
        o
  }

  /** What is left of the first field when the fields are done. */
  ghost predicate ElemWithin(o: ElemOutcome, current: Type, vs: set<nat>) {
    && Ftv(o.elem) <= vs
    && Ftv(o.elem) !! (o.s.Keys - Range(o.s))
    && (o.s == map[] ==> o.elem == current)
  }

  lemma {:induction false} ElemEnds(rest: seq<Field>, current: Type, s: Subst)
    requires Eliminates(s)
    ensures Within(s, Ambient(rest, current, s))
    ensures ElemWithin(ElemOutcome(s, Apply(current, s), None), current, Ambient(rest, current, s))
  {
    FtvApplyBound(current, s);
    ApplyEmpty(current);
  }

  lemma {:induction false} ElemCallIsSmaller(rest: seq<Field>, current: Type, s: Subst)
    requires rest != [] && Eliminates(s)
    ensures var vs := Vars(Apply(current, s), Apply(rest[0].ty, s));
            && vs <= Ambient(rest, current, s) && vs !! (s.Keys - Range(s))
            && |vs| <= |Ambient(rest, current, s)|
            && (s != map[] ==> |vs| < |Ambient(rest, current, s)|)
            && (s == map[] ==> Size(Apply(current, s)) + Size(Apply(rest[0].ty, s)) <= Size(current) + SizeFields(rest))
  {
    var vs := Vars(Apply(current, s), Apply(rest[0].ty, s));
    assert vs <= Ambient(rest, current, s) && vs !! (s.Keys - Range(s)) by {
      FtvApplyBound(current, s);
      FtvApplyBound(rest[0].ty, s);
    }
    FewerVars(vs, Ambient(rest, current, s));
    ApplyEmpty(current);
    ApplyEmpty(rest[0].ty);
  }

  lemma {:induction false} ElemStep(rest: seq<Field>, current: Type, s: Subst, u: Subst)
    requires rest != [] && Eliminates(s)
    requires var vs := Vars(Apply(current, s), Apply(rest[0].ty, s));
             && Within(u, vs) && vs <= Ambient(rest, current, s) && vs !! (s.Keys - Range(s))
    ensures var next := Compose(u, s);
            && Within(next, Ambient(rest, current, s)) && Eliminates(next) && s.Keys <= next.Keys
            && Ambient(rest[1..], Apply(current, next), next) <= Ambient(rest, current, s)
            && |Ambient(rest[1..], Apply(current, next), next)| <= |Ambient(rest, current, s)|
            && (next == map[] ==> s == map[] && Apply(current, next) == current)
            && SizeFields(rest[1..]) <= SizeFields(rest)
  {
    var next := Compose(u, s);
    var vs := Vars(Apply(current, s), Apply(rest[0].ty, s));
    ComposeKeys(u, s);
    ApplyEmpty(current);
    hide Vars, Size, Ftv, FtvFields, Apply, Eliminates, Compose, Range;
    FtvOfRest(rest);
    assert FtvFields(rest[1..]) <= Ambient(rest, current, s);
    ElemStepWithin(current, u, s, vs, Ambient(rest, current, s));
    AmbientBound(rest[1..], Apply(current, next), next, Ambient(rest, current, s));
  }

  lemma {:induction false} AmbientBound(rest: seq<Field>, current: Type, s: Subst, vs: set<nat>)
    requires s.Keys <= vs && Range(s) <= vs && Ftv(current) <= vs && FtvFields(rest) <= vs
    ensures Ambient(rest, current, s) <= vs && |Ambient(rest, current, s)| <= |vs|
  {
    FewerVars(Ambient(rest, current, s), vs);
  }

  lemma {:induction false} ElemStepWithin(current: Type, u: Subst, s: Subst, vs: set<nat>, ws: set<nat>)
    requires Eliminates(s) && Within(u, vs) && vs !! (s.Keys - Range(s)) && vs <= ws
    requires s.Keys + Range(s) + Ftv(current) <= ws
    ensures Within(Compose(u, s), ws) && Eliminates(Compose(u, s))
    ensures Ftv(Apply(current, Compose(u, s))) <= ws
  {
    GrowsByCompose(u, s, vs);
    hide Eliminates, Apply, Ftv, Compose, Range;
    FtvApplyBound(current, Compose(u, s));
  }

  lemma {:induction false} FtvOfRest(rest: seq<Field>)
    requires rest != []
    ensures FtvFields(rest[1..]) <= FtvFields(rest) && Ftv(rest[0].ty) <= FtvFields(rest)
  {
    forall v | v in FtvFields(rest[1..]) ensures v in FtvFields(rest) {
      var i :| 0 <= i < |rest| - 1 && v in Ftv(rest[1..][i].ty);
      assert rest[1..][i] == rest[i + 1];
    }
  }

  lemma {:induction false} ElemAgain(rest: seq<Field>, current: Type, s: Subst, next: Subst, o: ElemOutcome)
    requires rest != []
    requires var vs := Ambient(rest[1..], Apply(current, next), next);
             && Within(o.s, vs) && vs <= Ambient(rest, current, s)
             && (o.err.None? ==> ElemWithin(o, Apply(current, next), vs))
    requires next == map[] ==> Apply(current, next) == current
    requires next.Keys <= o.s.Keys
    ensures Within(o.s, Ambient(rest, current, s))
    ensures o.err.None? ==> ElemWithin(o, current, Ambient(rest, current, s))
  {
  }

  lemma {:induction false} EmptyWithin(vs: set<nat>)
    ensures Within(map[], vs)
  {
  }

  lemma {:induction false} BindWithin(t1: Type, t2: Type)
    requires PlanFor(t1, t2).Bind?
    ensures var Bind(v, t) := PlanFor(t1, t2);
            v !in Ftv(t) ==> Within(map[v := t], Vars(t1, t2))
  {
    var Bind(v, t) := PlanFor(t1, t2);
    assert v in Ftv(Var(v));
    if v !in Ftv(t) {
      var s := map[v := t];
      assert v in s && v !in Range(s);
    }
  }

  lemma {:induction false} ElemsWithin(t1: Type, t2: Type)
    requires PlanFor(t1, t2).Elems?
    ensures var h := HeadSubst(PlanFor(t1, t2).head);
            && Within(h, Vars(t1, t2))
            && forall r, vs :: Grows(r, h, vs) && vs <= Vars(t1, t2) ==> Within(r, Vars(t1, t2))
  {
    var Elems(head, fields, arg) := PlanFor(t1, t2);
    ElemsParts(t1, t2);
    if head.Some? { assert head.value in HeadSubst(head); }
  }

  lemma {:induction false} GrowsFromEmpty(vs: set<nat>, ws: set<nat>)
    requires vs <= ws
    ensures forall r :: Grows(r, map[], vs) ==> Within(r, ws)
  {
  }

  lemma {:induction false} GrowsAgain(r: Subst, q: Subst, s: Subst, vs: set<nat>, ws: set<nat>)
    requires Grows(r, q, vs) && Grows(q, s, ws) && vs <= ws
    ensures Grows(r, s, ws)
  {
  }

  lemma {:induction false} ElemsParts(t1: Type, t2: Type)
    requires PlanFor(t1, t2).Elems?
    ensures var Elems(head, fields, arg) := PlanFor(t1, t2);
            && HeadSubst(head).Keys <= Vars(t1, t2) && Range(HeadSubst(head)) == {}
            && Ftv(arg) <= Vars(t1, t2) && FtvFields(fields) <= Vars(t1, t2)
            && Size(Record(fields)) + Size(arg) < Size(t1) + Size(t2)
  {
    var head := PlanFor(t1, t2).head;
    if head.Some? { assert head.value in Ftv(Var(head.value)); }
  }

  lemma {:induction false} HeadGone(t: Type, head: Option<nat>, vs: set<nat>)
    requires Ftv(t) <= vs
    ensures Ftv(Apply(t, HeadSubst(head))) <= vs - HeadSubst(head).Keys
    ensures Size(Apply(t, HeadSubst(head))) == Size(t)
  {
    FtvApplyBound(t, HeadSubst(head));
    if head.Some? { SizeOfDict(t, head.value); } else { ApplyEmpty(t); }
  }

  /** With the head applied first, the equations lose its variable and do not grow. */
  lemma {:induction false} ElemsIsSmaller(t1: Type, t2: Type)
    requires PlanFor(t1, t2).Elems? && PlanFor(t1, t2).fields != []
    ensures var Elems(head, fields, arg) := PlanFor(t1, t2);
            var eqs, h := ElemEqs(fields) + [Equal(arg, fields[0].ty)], HeadSubst(head);
            && |EqVars(eqs, h)| <= |Vars(t1, t2)| && EqSize(eqs, h) < Size(t1) + Size(t2)
            && forall r :: Grows(r, h, EqVars(eqs, h)) ==> Within(r, Vars(t1, t2))
  {
    hide Within, Grows, Range, HeadSubst, EqVars, EqSize, PlanFor;
    var Elems(head, fields, arg) := PlanFor(t1, t2);
    var eqs, h := ElemEqs(fields) + [Equal(arg, fields[0].ty)], HeadSubst(head);
    ElemsWithin(t1, t2);
    ElemsParts(t1, t2);
    FieldsAreSmaller(fields);
    forall i | 0 <= i < |eqs|
      ensures Vars(Apply(eqs[i].lhs, h), Apply(eqs[i].rhs, h)) <= Vars(t1, t2)
      ensures Size(Apply(eqs[i].lhs, h)) + Size(Apply(eqs[i].rhs, h)) < Size(t1) + Size(t2)
    {
      HeadGone(eqs[i].lhs, head, Vars(t1, t2));
      HeadGone(eqs[i].rhs, head, Vars(t1, t2));
    }
    EqVarsBound(eqs, h, Vars(t1, t2));
    EqSizeBound(eqs, h, Size(t1) + Size(t2));
    FewerVars(EqVars(eqs, h), Vars(t1, t2));
  }

  lemma {:induction false} FieldsIsSmaller(t1: Type, t2: Type)
    requires PlanFor(t1, t2).Elems? && PlanFor(t1, t2).fields != []
    ensures var fields := PlanFor(t1, t2).fields;
            var vs := Ambient(fields[1..], fields[0].ty, map[]);
            && Eliminates(map[]) && vs <= Vars(t1, t2) && |vs| <= |Vars(t1, t2)|
            && Size(fields[0].ty) + SizeFields(fields[1..]) < Size(t1) + Size(t2)
            && forall r :: Within(r, vs) ==> Within(r, Vars(t1, t2))
  {
    var fields := PlanFor(t1, t2).fields;
    ElemsParts(t1, t2);
    FtvOfRest(fields);
    hide PlanFor, Vars, Ftv, FtvFields, Within;
    assert Within(map[], Vars(t1, t2)) by { EmptyWithin(Vars(t1, t2)); }
    AmbientBound(fields[1..], fields[0].ty, map[], Vars(t1, t2));
    WithinMore(Ambient(fields[1..], fields[0].ty, map[]), Vars(t1, t2));
  }

  lemma {:induction false} WithinMore(vs: set<nat>, ws: set<nat>)
    requires vs <= ws
    ensures forall r :: Within(r, vs) ==> Within(r, ws)
  {
  }

  lemma {:induction false} SkippedArgVars(head: Option<nat>, arg: Type, f: ElemOutcome, vs: set<nat>)
    requires HeadSubst(head).Keys + Range(HeadSubst(head)) <= vs && Ftv(arg) <= vs
    requires Within(f.s, vs) && Ftv(f.elem) <= vs && Ftv(f.elem) !! (f.s.Keys - Range(f.s))
    ensures var l := Apply(Apply(arg, HeadSubst(head)), f.s);
            && Vars(l, f.elem) <= vs && Vars(l, f.elem) !! (f.s.Keys - Range(f.s))
            && |Vars(l, f.elem)| <= |vs| && (f.s != map[] ==> |Vars(l, f.elem)| < |vs|)
  {
    hide Apply, Ftv, HeadSubst;
    var arg' := Apply(arg, HeadSubst(head));
    var l := Apply(arg', f.s);
    FtvApplyBound(arg, HeadSubst(head));
    FtvApplyBound(arg', f.s);
    assert Vars(l, f.elem) <= vs && Vars(l, f.elem) !! (f.s.Keys - Range(f.s));
    FewerVars(Vars(l, f.elem), vs);
  }

  lemma {:induction false} SkippedArgIsSmaller(t1: Type, t2: Type, f: ElemOutcome)
    requires PlanFor(t1, t2).Elems? && PlanFor(t1, t2).fields != []
    requires var fields := PlanFor(t1, t2).fields;
             var vs := Ambient(fields[1..], fields[0].ty, map[]);
             Within(f.s, vs) && ElemWithin(f, fields[0].ty, vs)
    ensures var Elems(head, fields, arg) := PlanFor(t1, t2);
            var l := Apply(Apply(arg, HeadSubst(head)), f.s);
            && Vars(l, f.elem) <= Vars(t1, t2)
            && (f.s == map[] ==> Size(l) + Size(f.elem) < Size(t1) + Size(t2))
            && (f.s != map[] ==> |Vars(l, f.elem)| < |Vars(t1, t2)|)
            && |Vars(l, f.elem)| <= |Vars(t1, t2)|
            && Vars(l, f.elem) !! (f.s.Keys - Range(f.s))
  {
    hide Ambient, Vars, Range, Apply, Ftv, Size, HeadSubst;
    var Elems(head, fields, arg) := PlanFor(t1, t2);
    ElemsParts(t1, t2);
    FieldsIsSmaller(t1, t2);
    FieldsAreSmaller(fields);
    hide Within, PlanFor;
    SkippedArgVars(head, arg, f, Vars(t1, t2));
    if f.s == map[] {
      HeadGone(arg, head, Ftv(arg));
      ApplyEmpty(Apply(arg, HeadSubst(head)));
    }
  }

  lemma {:induction false} SkippedWithin(t1: Type, t2: Type, f: Subst, a: Subst, ws: set<nat>)
    requires PlanFor(t1, t2).Elems? && PlanFor(t1, t2).fields != []
    requires Within(f, Vars(t1, t2))
    requires Within(a, ws) && ws <= Vars(t1, t2) && ws !! (f.Keys - Range(f))
    ensures var h := HeadSubst(PlanFor(t1, t2).head);
            && Within(Compose(a, Compose(f, h)), Vars(t1, t2))
            && (a == map[] ==> Within(Compose(f, h), Vars(t1, t2)))
  {
    ElemsWithin(t1, t2);
    ElemsParts(t1, t2);
    var h := HeadSubst(PlanFor(t1, t2).head);
    hide PlanFor, Vars, HeadSubst;
    ComposeEmpty(Compose(f, h));
    WithinCompose(f, h, Vars(t1, t2));
    if a != map[] { WithinComposeAgain(a, f, h, Vars(t1, t2), ws); }
  }

  /** `h` binds at most one variable, to a closed type. */
  lemma {:induction false} WithinCompose(f: Subst, h: Subst, vs: set<nat>)
    requires Within(f, vs) && Within(h, vs) && Range(h) == {}
    ensures Within(Compose(f, h), vs)
  {
    RangeOfCompose(f, h);
    ComposeEmpty(h);
    if f != map[] {
      var u :| u in f && u !in Range(f);
      assert u in Compose(f, h) && u !in Range(Compose(f, h));
    }
  }

  lemma {:induction false} WithinComposeAgain(a: Subst, f: Subst, h: Subst, vs: set<nat>, ws: set<nat>)
    requires Within(f, vs) && Within(h, vs) && Range(h) == {} && a != map[]
    requires Within(a, ws) && ws <= vs && ws !! (f.Keys - Range(f))
    ensures Within(Compose(a, Compose(f, h)), vs)
  {
    var c := Compose(a, Compose(f, h));
    RangeOfCompose(f, h);
    RangeOfCompose(a, Compose(f, h));
    var u := if f != map[] then (var u :| u in f && u !in Range(f); u) else (var u :| u in a && u !in Range(a); u);
    assert u in c && u !in Range(c);
  }

  lemma {:induction false} EliminatedIsGone(t: Type, s: Subst)
    ensures Ftv(Apply(t, s)) !! (s.Keys - Range(s))
  {
    FtvApplyBound(t, s);
  }

  lemma {:induction false} GrowsByCompose(a: Subst, s: Subst, vs: set<nat>)
    requires Within(a, vs) && vs !! (s.Keys - Range(s))
    ensures Grows(Compose(a, s), s, vs)
  {
    RangeOfCompose(a, s);
    ComposeEmpty(a);
    if s != map[] && Eliminates(s) {
      var u :| u in s && u !in Range(s);
      assert u in Compose(a, s) && u !in Range(Compose(a, s));
    }
  }

  lemma {:induction false} PairStepWithin(t: Type, u: Type, a: Subst, s: Subst, ws: set<nat>)
    requires Within(a, Vars(Apply(t, s), Apply(u, s))) && Vars(Apply(t, s), Apply(u, s)) <= ws
    ensures Grows(Compose(a, s), s, ws)
  {
    EliminatedIsGone(t, s);
    EliminatedIsGone(u, s);
    GrowsByCompose(a, s, Vars(Apply(t, s), Apply(u, s)));
    GrowsMore(Compose(a, s), s, Vars(Apply(t, s), Apply(u, s)), ws);
  }

  lemma {:induction false} GrowsMore(r: Subst, s: Subst, vs: set<nat>, ws: set<nat>)
    requires Grows(r, s, vs) && vs <= ws
    ensures Grows(r, s, ws)
  {
  }

  lemma {:induction false} StepWithin(eqs: seq<Eq>, a: Subst, s: Subst)
    requires eqs != [] && eqs[0].Equal?
    requires Within(a, Vars(Apply(eqs[0].lhs, s), Apply(eqs[0].rhs, s)))
    ensures Grows(Compose(a, s), s, EqVars(eqs, s))
  {
    var l, r := Apply(eqs[0].lhs, s), Apply(eqs[0].rhs, s);
    assert Vars(l, r) <= EqVars(eqs, s);
    PairStepWithin(eqs[0].lhs, eqs[0].rhs, a, s, EqVars(eqs, s));
  }

  lemma {:induction false} SolveIsSmaller(t1: Type, t2: Type, eqs: seq<Eq>)
    requires PlanFor(t1, t2) == Solve(eqs)
    ensures |EqVars(eqs, map[])| <= |Vars(t1, t2)|
    ensures EqSize(eqs, map[]) < Size(t1) + Size(t2)
    ensures forall r :: Grows(r, map[], EqVars(eqs, map[])) ==> Within(r, Vars(t1, t2))
  {
    PartsAreSmaller(t1, t2, eqs);
    FewerVars(EqVars(eqs, map[]), Vars(t1, t2));
    GrowsFromEmpty(EqVars(eqs, map[]), Vars(t1, t2));
  }

  lemma {:induction false} CallIsSmaller(eqs: seq<Eq>, s: Subst)
    requires eqs != [] && eqs[0].Equal?
    ensures |Vars(Apply(eqs[0].lhs, s), Apply(eqs[0].rhs, s))| <= |EqVars(eqs, s)|
    ensures Size(Apply(eqs[0].lhs, s)) + Size(Apply(eqs[0].rhs, s)) <= EqSize(eqs, s)
  {
    FewerVars(Vars(Apply(eqs[0].lhs, s), Apply(eqs[0].rhs, s)), EqVars(eqs, s));
  }

  lemma {:induction false} StepIsSmaller(eqs: seq<Eq>, a: Subst, s: Subst)
    requires eqs != [] && eqs[0].Equal?
    requires Within(a, Vars(Apply(eqs[0].lhs, s), Apply(eqs[0].rhs, s)))
    ensures EqVars(eqs[1..], Compose(a, s)) <= EqVars(eqs, s)
    ensures a == map[] ==> EqSize(eqs[1..], Compose(a, s)) <= EqSize(eqs, s)
    ensures a != map[] ==> |EqVars(eqs[1..], Compose(a, s))| < |EqVars(eqs, s)|
    ensures |EqVars(eqs[1..], Compose(a, s))| <= |EqVars(eqs, s)|
  {
    RestIsSmaller(eqs, a, s);
  }
}

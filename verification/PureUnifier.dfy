/** The pure unifier with its loops (rex-typesystem/src/unification.rs:189-343). */
module PureUnifier {
  import opened Wrappers
  import opened Types
  import opened Substitution
  import opened Unification
  import opened Soundness
  import opened Loops

  function ToResult(o: Outcome): Result<Subst, TypeError> {
    match o.err
    case Some(e) => Err(e)
    case None => Ok(o.s)
  }

  method ComposeSubst(a: Subst, b: Subst) returns (r: Subst)
    ensures r == Compose(a, b)
  {
    ComposeEmpty(a);
    ComposeEmpty(b);
    if a == map[] { return b; }
    if b == map[] { return a; }
    var res := ApplyToAll(b, a);
    r := Override(res, a);
    assert r.Keys == Compose(a, b).Keys;
  }

  /** The first loop: `b` with `a` applied to every type. */
  method ApplyToAll(b: Subst, a: Subst) returns (r: Subst)
    ensures r.Keys == b.Keys && forall v :: v in b ==> r[v] == Apply(b[v], a)
  {
    hide Apply;
    r := map[];
    var keys := b.Keys;
    while keys != {}
      invariant keys <= b.Keys && r.Keys == b.Keys - keys
      invariant forall v :: v in r ==> r[v] == Apply(b[v], a)
    {
      var k :| k in keys;
      r := r[k := Apply(b[k], a)];
      keys := keys - {k};
    }
  }

  /** The second loop: the bindings of `a` on top. */
  method Override(res: Subst, a: Subst) returns (r: Subst)
    ensures r.Keys == res.Keys + a.Keys && forall v :: v in r ==> r[v] == if v in a then a[v] else res[v]
  {
    r := res;
    var keys := a.Keys;
    while keys != {}
      invariant keys <= a.Keys && r.Keys == res.Keys + (a.Keys - keys)
      invariant forall v :: v in r ==> r[v] == if v in a && v !in keys then a[v] else res[v]
    {
      var k :| k in keys;
      r := r[k := a[k]];
      keys := keys - {k};
    }
  }

  /** A variable is bound to a type it does not occur in; to itself there is nothing to bind. */
  method Bind(v: nat, t: Type) returns (r: Result<Subst, TypeError>)
    ensures r == if t == Var(v) then Ok(map[]) else if v in Ftv(t) then Err(Occurs(v, t)) else Ok(map[v := t])
  {
    if t == Var(v) {
      return Ok(map[]);
    }
    if v in Ftv(t) {
      r := Err(Occurs(v, t));
    } else {
      r := Ok(map[v := t]);
    }
  }

  method Unify(t1: Type, t2: Type) returns (r: Result<Subst, TypeError>)
    ensures r == ToResult(Unification.Unify(SkipHead, t1, t2))
    decreases |Vars(t1, t2)|, Size(t1) + Size(t2), 2
  {
    LeafResult(t1, t2);
    hide Within, Grows, EqVars, EqSize, Vars, Size, Unification.Unify, SolveFrom, ElemFrom, Ambient, ElemWithin;
    hide Zip, ZipFields, Apply, Compose, ToResult, Ftv;
    match (t1, t2)
    case (Fun(l1, r1), Fun(l2, r2)) =>
      r := UnifyTwo(t1, t2, l1, l2, r1, r2);
    case (Record(f1), Record(f2)) =>
      if |f1| != |f2| {
        return Err(Mismatch(t1, t2));
      }
      r := UnifyFields(t1, t2);
    case (Record(fields), App(head, arg)) =>
      r := UnifyRecordApp(t1, t2, fields, head, arg);
    case (App(head, arg), Record(fields)) =>
      r := UnifyRecordApp(t1, t2, fields, head, arg);
    case (App(l1, r1), App(l2, r2)) =>
      r := UnifyTwo(t1, t2, l1, l2, r1, r2);
    case (Tuple(ts1), Tuple(ts2)) =>
      if |ts1| != |ts2| {
        return Err(Mismatch(t1, t2));
      }
      r := UnifyElems(t1, t2);
    case (Var(v), _) =>
      r := Bind(v, t2);
    case (_, Var(v)) =>
      r := Bind(v, t1);
    case (Con(c1), Con(c2)) =>
      r := if c1 == c2 then Ok(map[]) else Err(Mismatch(t1, t2));
    case _ =>
      r := Err(Mismatch(t1, t2));
  }

  /** The calls that end at once. */
  lemma {:induction false} LeafResult(t1: Type, t2: Type)
    ensures var r := ToResult(Unification.Unify(SkipHead, t1, t2));
            match PlanFor(t1, t2)
            case Fail(e) => r == Err(e)
            case Bind(v, t) => r == if v in Ftv(t) then Err(Occurs(v, t)) else Ok(map[v := t])
            case Solve(eqs) => eqs == [] ==> r == Ok(map[])
            case Elems(_, fields, _) => fields == [] ==> r == Err(EmptyRecord)
  {
    LoopEnd(SkipHead, [], map[]);
    hide Within, Grows, EqVars, EqSize, Size, Ftv, ElemFrom, Apply, Compose;
  }

  /** What a loop over the equations of a call starts from. */
  lemma {:induction false} LoopStart(t1: Type, t2: Type, eqs: seq<Eq>)
    requires PlanFor(t1, t2) == Solve(eqs)
    ensures Running(eqs, 0, map[], |Vars(t1, t2)|, Size(t1) + Size(t2), Unification.Unify(SkipHead, t1, t2))
  {
    hide Within, Grows, EqVars, EqSize, SolveFrom, Vars, Size, Ftv, ElemFrom, Fits;
    assert eqs[0..] == eqs;
    SolveIsSmaller(t1, t2, eqs);
    FitsAtStart(eqs, map[], |Vars(t1, t2)|, Size(t1) + Size(t2));
  }

  method UnifyTwo(ghost t1: Type, ghost t2: Type, a1: Type, a2: Type, b1: Type, b2: Type)
    returns (r: Result<Subst, TypeError>)
    requires PlanFor(t1, t2) == Solve([Equal(a1, a2), Equal(b1, b2)])
    ensures r == ToResult(Unification.Unify(SkipHead, t1, t2))
    decreases |Vars(t1, t2)|, Size(t1) + Size(t2), 1
  {
    ghost var eqs := [Equal(a1, a2), Equal(b1, b2)];
    ghost var vars, size := |Vars(t1, t2)|, Size(t1) + Size(t2);
    hide *;
    LoopStart(t1, t2, eqs);
    ghost var goal := Unification.Unify(SkipHead, t1, t2);
    Turn(eqs, 0, a1, a2, map[], vars, size, goal);
    ApplyEmpty(a1);
    ApplyEmpty(a2);
    var s1 := Unify(a1, a2);
    if s1.Err? { return s1; }
    ComposeEmpty(s1.value);
    Turn(eqs, 1, b1, b2, s1.value, vars, size, goal);
    var s2 := Unify(Apply(b1, s1.value), Apply(b2, s1.value));
    if s2.Err? { return s2; }
    var s := ComposeSubst(s2.value, s1.value);
    Finished(eqs, s, vars, size, goal);
    r := Ok(s);
  }

  lemma {:induction false} ResultOf(rule: HeadRule, t1: Type, t2: Type)
    ensures var o := Unification.Unify(rule, t1, t2);
            match ToResult(o)
            case Ok(s) => o == Outcome(s, None)
            case Err(e) => o.err == Some(e)
  {
    hide Within;
  }

  lemma {:induction false} ErrResult(o: Outcome)
    ensures o.err.Some? ==> ToResult(o) == Err(o.err.value)
    ensures o.err.None? ==> ToResult(o) == Ok(o.s)
  {
  }

  /** A loop over equations that has reached the `i`th of them on its way to `goal`. */
  ghost predicate Running(eqs: seq<Eq>, i: nat, s: Subst, vars: nat, size: nat, goal: Outcome) {
    i <= |eqs| && SolveFrom(SkipHead, eqs[i..], s) == goal && Fits(eqs, i, s, vars, size)
  }

  /** One turn of the loop, in terms of what the call returns. */
  lemma {:induction false} Turn(eqs: seq<Eq>, i: nat, l: Type, r: Type, s: Subst, vars: nat, size: nat, goal: Outcome)
    requires i < |eqs| && eqs[i] == Equal(l, r) && Running(eqs, i, s, vars, size, goal)
    ensures |Vars(Apply(l, s), Apply(r, s))| < vars
            || (|Vars(Apply(l, s), Apply(r, s))| <= vars && Size(Apply(l, s)) + Size(Apply(r, s)) < size)
    ensures var u := ToResult(Unification.Unify(SkipHead, Apply(l, s), Apply(r, s)));
            && (u.Err? ==> u == ToResult(goal))
            && (u.Ok? ==> Running(eqs, i + 1, Compose(u.value, s), vars, size, goal))
  {
    hide Fits, SolveFrom, Vars, Size, Apply, Compose, Unification.Unify, ToResult;
    LoopStep(SkipHead, eqs, i, s, vars, size);
    ErrResult(goal);
    ErrResult(Unification.Unify(SkipHead, Apply(l, s), Apply(r, s)));
  }

  lemma {:induction false} TurnToClash(eqs: seq<Eq>, i: nat, e: TypeError, s: Subst, vars: nat, size: nat, goal: Outcome)
    requires i < |eqs| && eqs[i] == Clash(e) && Running(eqs, i, s, vars, size, goal)
    ensures ToResult(goal) == Err(e)
  {
    hide Fits, SolveFrom, Vars, Size, Apply, Compose, Unification.Unify, ToResult;
    LoopStep(SkipHead, eqs, i, s, vars, size);
    ErrResult(goal);
  }

  lemma {:induction false} Finished(eqs: seq<Eq>, s: Subst, vars: nat, size: nat, goal: Outcome)
    requires Running(eqs, |eqs|, s, vars, size, goal)
    ensures ToResult(goal) == Ok(s)
  {
    hide Fits, SolveFrom, Vars, Size, Apply, Compose, Unification.Unify, ToResult;
    LoopEnd(SkipHead, eqs, s);
    ErrResult(goal);
  }

  method UnifyElems(t1: Type, t2: Type) returns (r: Result<Subst, TypeError>)
    requires t1.Tuple? && t2.Tuple? && |t1.elems| == |t2.elems|
    ensures r == ToResult(Unification.Unify(SkipHead, t1, t2))
    decreases |Vars(t1, t2)|, Size(t1) + Size(t2), 1
  {
    hide *;
    TuplePlan(t1, t2);
    LoopStart(t1, t2, Zip(t1.elems, t2.elems));
    r := UnifyZip(t1.elems, t2.elems, |Vars(t1, t2)|, Size(t1) + Size(t2), Unification.Unify(SkipHead, t1, t2));
  }

  method UnifyZip(ts: seq<Type>, us: seq<Type>, ghost vars: nat, ghost size: nat, ghost goal: Outcome)
    returns (r: Result<Subst, TypeError>)
    requires |ts| == |us| && Running(Zip(ts, us), 0, map[], vars, size, goal)
    ensures r == ToResult(goal)
    decreases vars, size, 0
  {
    hide *;
    ghost var eqs := Zip(ts, us);
    var s: Subst := map[];
    for i := 0 to |ts|
      invariant Running(eqs, i, s, vars, size, goal)
    {
      ZipAt(ts, us, i);
      Turn(eqs, i, ts[i], us[i], s, vars, size, goal);
      var next := Unify(Apply(ts[i], s), Apply(us[i], s));
      if next.Err? { return next; }
      s := ComposeSubst(next.value, s);
    }
    ZipLength(ts, us);
    Finished(eqs, s, vars, size, goal);
    r := Ok(s);
  }

  lemma {:induction false} ZipLength(ts: seq<Type>, us: seq<Type>)
    requires |ts| == |us|
    ensures |Zip(ts, us)| == |ts|
  {
  }

  method UnifyFields(t1: Type, t2: Type) returns (r: Result<Subst, TypeError>)
    requires t1.Record? && t2.Record? && |t1.fields| == |t2.fields|
    ensures r == ToResult(Unification.Unify(SkipHead, t1, t2))
    decreases |Vars(t1, t2)|, Size(t1) + Size(t2), 1
  {
    hide *;
    RecordPlan(t1, t2);
    LoopStart(t1, t2, ZipFields(t1.fields, t2.fields));
    r := UnifyZipFields(t1.fields, t2.fields, |Vars(t1, t2)|, Size(t1) + Size(t2), Unification.Unify(SkipHead, t1, t2));
  }

  method UnifyZipFields(fs: seq<Field>, gs: seq<Field>, ghost vars: nat, ghost size: nat, ghost goal: Outcome)
    returns (r: Result<Subst, TypeError>)
    requires |fs| == |gs| && Running(ZipFields(fs, gs), 0, map[], vars, size, goal)
    ensures r == ToResult(goal)
    decreases vars, size, 0
  {
    hide *;
    ghost var eqs := ZipFields(fs, gs);
    var subst: Subst := map[];
    for i := 0 to |fs|
      invariant Running(eqs, i, subst, vars, size, goal)
    {
      ZipFieldsAt(fs, gs, i);
      var (f1, f2) := (fs[i], gs[i]);
      if f1.name != f2.name {
        TurnToClash(eqs, i, Mismatch(f1.ty, f2.ty), subst, vars, size, goal);
        return Err(Mismatch(f1.ty, f2.ty));
      }
      Turn(eqs, i, f1.ty, f2.ty, subst, vars, size, goal);
      var next := Unify(Apply(f1.ty, subst), Apply(f2.ty, subst));
      if next.Err? { return next; }
      subst := ComposeSubst(next.value, subst);
    }
    ZipFieldsLength(fs, gs);
    Finished(eqs, subst, vars, size, goal);
    r := Ok(subst);
  }

  lemma {:induction false} ZipFieldsLength(fs: seq<Field>, gs: seq<Field>)
    requires |fs| == |gs|
    ensures |ZipFields(fs, gs)| == |fs|
  {
  }

  method UnifyRecordApp(t1: Type, t2: Type, fields: seq<Field>, head: Type, arg: Type)
    returns (r: Result<Subst, TypeError>)
    requires (t1 == Record(fields) && t2 == App(head, arg)) || (t1 == App(head, arg) && t2 == Record(fields))
    ensures r == ToResult(Unification.Unify(SkipHead, t1, t2))
    decreases |Vars(t1, t2)|, Size(t1) + Size(t2), 1
  {
    hide *;
    RecordAppPlan(t1, t2, fields, head, arg);
    LeafResult(t1, t2);
    ErrResult(Unification.Unify(SkipHead, t1, t2));
    match head
    case Con(Builtin(Dict)) =>
      if fields != [] {
        FieldsIsSmaller(t1, t2);
        ElemsRun(t1, t2);
        SkippedRun(t1, t2);
      }
      var f := RecordElemType(fields);
      if f.Err? { return Err(f.error); }
      var (sFields, elem) := f.value;
      SkippedArgIsSmaller(t1, t2, ElemOutcome(sFields, elem, None));
      ApplyEmpty(arg);
      ComposeEmpty(sFields);
      ResultOf(SkipHead, Apply(arg, sFields), elem);
      var sArg := Unify(Apply(arg, sFields), elem);
      if sArg.Err? { return sArg; }
      var s := ComposeSubst(sArg.value, sFields);
      r := Ok(s);
    case Var(v) =>
      if fields != [] {
        FieldsIsSmaller(t1, t2);
        ElemsRun(t1, t2);
        SkippedRun(t1, t2);
      }
      var sHead := map[v := DICT];
      var arg' := Apply(arg, sHead);
      var f := RecordElemType(fields);
      if f.Err? { return Err(f.error); }
      var (sFields, elem) := f.value;
      SkippedArgIsSmaller(t1, t2, ElemOutcome(sFields, elem, None));
      ResultOf(SkipHead, Apply(arg', sFields), elem);
      var sArg := Unify(Apply(arg', sFields), elem);
      if sArg.Err? { return sArg; }
      var inner := ComposeSubst(sFields, sHead);
      var s := ComposeSubst(sArg.value, inner);
      r := Ok(s);
    case _ =>
      r := Err(Mismatch(t1, t2));
  }

  /** The run of a record/application call, by what the field loop returns. */
  lemma {:induction false} SkippedRun(t1: Type, t2: Type)
    requires PlanFor(t1, t2).Elems? && PlanFor(t1, t2).fields != []
    ensures var Elems(head, fields, arg) := PlanFor(t1, t2);
            var h, f := HeadSubst(head), (EmptyEliminates(); ElemFrom(fields[1..], fields[0].ty, map[]));
            var a := Unification.Unify(SkipHead, Apply(Apply(arg, h), f.s), f.elem);
            Unification.Unify(SkipHead, t1, t2) == if f.err.Some? then Outcome(Compose(f.s, h), f.err)
                                                   else Outcome(Compose(a.s, Compose(f.s, h)), a.err)
  {
    hide Within, Grows, EqVars, EqSize, Vars, Apply, SolveFrom, ElemFrom, Ambient, ElemWithin, Compose;
    hide Unification.Unify, PlanFor, ElemEqs;
    ElemsRun(t1, t2);
  }

  /** The common type of the fields, and the substitution that makes it common. */
  method RecordElemType(fields: seq<Field>) returns (r: Result<(Subst, Type), TypeError>)
    ensures fields == [] ==> r == Err(EmptyRecord)
    ensures fields != [] ==>
              var o := (EmptyEliminates(); ElemFrom(fields[1..], fields[0].ty, map[]));
              r == if o.err.Some? then Err(o.err.value) else Ok((o.s, o.elem))
    decreases if fields == [] then 0 else |Ambient(fields[1..], fields[0].ty, map[])|,
              if fields == [] then 0 else Size(fields[0].ty) + SizeFields(fields[1..]), 3
  {
    hide *;
    if fields == [] {
      return Err(EmptyRecord);
    }
    EmptyEliminates();
    ghost var goal := ElemFrom(fields[1..], fields[0].ty, map[]);
    ghost var vars, size := |Ambient(fields[1..], fields[0].ty, map[])|, Size(fields[0].ty) + SizeFields(fields[1..]);
    var subst: Subst := map[];
    var current := fields[0].ty;
    for i := 1 to |fields|
      invariant Eliminates(subst) && ElemFrom(fields[i..], current, subst) == goal
      invariant |Ambient(fields[i..], current, subst)| <= vars
      invariant subst == map[] ==> Size(current) + SizeFields(fields[i..]) <= size
    {
      ghost var rest := fields[i..];
      assert rest[0] == fields[i] && rest[1..] == fields[i + 1..];
      ElemTurn(rest, current, subst);
      ElemCallIsSmaller(rest, current, subst);
      var ty := fields[i].ty;
      ResultOf(SkipHead, Apply(current, subst), Apply(ty, subst));
      var next := Unify(Apply(current, subst), Apply(ty, subst));
      if next.Err? { return Err(next.error); }
      ElemStep(rest, current, subst, next.value);
      subst := ComposeSubst(next.value, subst);
      current := Apply(current, subst);
    }
    ElemDone(fields[|fields|..], current, subst);
    r := Ok((subst, Apply(current, subst)));
  }

  lemma {:induction false} ElemTurn(rest: seq<Field>, current: Type, s: Subst)
    requires rest != [] && Eliminates(s)
    ensures var u := Unification.Unify(SkipHead, Apply(current, s), Apply(rest[0].ty, s));
            var next := Compose(u.s, s);
            if u.err.Some? then ElemFrom(rest, current, s) == ElemOutcome(next, current, u.err)
            else Eliminates(next) && ElemFrom(rest, current, s) == ElemFrom(rest[1..], Apply(current, next), next)
  {
    hide Within, Eliminates, ElemWithin, Ambient, Vars, Range, Apply, Compose, Unification.Unify;
    ElemCallIsSmaller(rest, current, s);
    ElemStep(rest, current, s, Unification.Unify(SkipHead, Apply(current, s), Apply(rest[0].ty, s)).s);
  }

  lemma {:induction false} ElemDone(rest: seq<Field>, current: Type, s: Subst)
    requires rest == [] && Eliminates(s)
    ensures ElemFrom(rest, current, s) == ElemOutcome(s, Apply(current, s), None)
  {
    hide Within, Eliminates, ElemWithin, Ambient;
  }
}

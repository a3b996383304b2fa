/** Loops over the equations of a call, in terms of the specification. */
module Loops {
  import opened Wrappers
  import opened Types
  import opened Substitution
  import opened Unification

  /** What is left of `eqs` from `i` on is smaller than a call on `vars` variables and `size` nodes. */
  ghost predicate Fits(eqs: seq<Eq>, i: nat, sol: Subst, vars: nat, size: nat)
    requires i <= |eqs|
  {
    var rest := eqs[i..];
    |EqVars(rest, sol)| < vars || (|EqVars(rest, sol)| <= vars && EqSize(rest, sol) < size)
  }

  /** One turn of a loop over equations, in terms of the specification. */
  lemma {:induction false} LoopStep(rule: HeadRule, eqs: seq<Eq>, i: nat, sol: Subst, vars: nat, size: nat)
    requires i < |eqs| && Fits(eqs, i, sol, vars, size)
    ensures match eqs[i]
            case Equal(l, r) =>
              var u := Unify(rule, Apply(l, sol), Apply(r, sol));
              var next := Compose(u.s, sol);
              && (|Vars(Apply(l, sol), Apply(r, sol))| < vars
                  || (|Vars(Apply(l, sol), Apply(r, sol))| <= vars && Size(Apply(l, sol)) + Size(Apply(r, sol)) < size))
              && SolveFrom(rule, eqs[i..], sol)
                 == (if u.err.Some? then Outcome(next, u.err) else SolveFrom(rule, eqs[i + 1..], next))
              && (u.err.None? ==> Fits(eqs, i + 1, next, vars, size))
            case Clash(e) => SolveFrom(rule, eqs[i..], sol) == Outcome(sol, Some(e))
  {
    var rest := eqs[i..];
    assert rest[0] == eqs[i] && rest[1..] == eqs[i + 1..];
    hide Within, Grows, Range, EqVars, EqSize, Vars, Apply, Compose, Unify;
    if eqs[i].Equal? {
      CallIsSmaller(rest, sol);
      var u := Unify(rule, Apply(eqs[i].lhs, sol), Apply(eqs[i].rhs, sol));
      StepIsSmaller(rest, u.s, sol);
    }
  }

  lemma {:induction false} FitsAtStart(eqs: seq<Eq>, sol: Subst, vars: nat, size: nat)
    requires |EqVars(eqs, sol)| <= vars && EqSize(eqs, sol) < size
    ensures Fits(eqs, 0, sol, vars, size)
  {
    hide EqVars, EqSize;
    assert eqs[0..] == eqs;
  }

  lemma {:induction false} LoopEnd(rule: HeadRule, eqs: seq<Eq>, sol: Subst)
    ensures SolveFrom(rule, eqs[|eqs|..], sol) == Outcome(sol, None)
  {
  }

  lemma {:induction false} TuplePlan(t1: Type, t2: Type)
    requires t1.Tuple? && t2.Tuple? && |t1.elems| == |t2.elems|
    ensures PlanFor(t1, t2) == Solve(Zip(t1.elems, t2.elems)) && |Zip(t1.elems, t2.elems)| == |t1.elems|
  {
  }

  lemma {:induction false} ZipAt(ts: seq<Type>, us: seq<Type>, i: nat)
    requires i < |ts| == |us|
    ensures |Zip(ts, us)| == |ts| && Zip(ts, us)[i] == Equal(ts[i], us[i])
  {
  }

  lemma {:induction false} RecordPlan(t1: Type, t2: Type)
    requires t1.Record? && t2.Record? && |t1.fields| == |t2.fields|
    ensures var eqs := ZipFields(t1.fields, t2.fields);
            PlanFor(t1, t2) == Solve(eqs) && |eqs| == |t1.fields|
  {
  }

  lemma {:induction false} ZipFieldsAt(fs: seq<Field>, gs: seq<Field>, i: nat)
    requires i < |fs| == |gs|
    ensures |ZipFields(fs, gs)| == |fs|
    ensures ZipFields(fs, gs)[i]
            == if fs[i].name == gs[i].name then Equal(fs[i].ty, gs[i].ty) else Clash(Mismatch(fs[i].ty, gs[i].ty))
  {
  }

  lemma {:induction false} RecordAppPlan(t1: Type, t2: Type, fields: seq<Field>, head: Type, arg: Type)
    requires (t1 == Record(fields) && t2 == App(head, arg)) || (t1 == App(head, arg) && t2 == Record(fields))
    ensures match head
            case Con(Builtin(Dict)) => PlanFor(t1, t2) == Elems(None, fields, arg) && HeadSubst(None) == map[]
            case Var(v) => PlanFor(t1, t2) == Elems(Some(v), fields, arg) && HeadSubst(Some(v)) == map[v := DICT]
            case _ => PlanFor(t1, t2) == Fail(Mismatch(t1, t2))
  {
  }
}

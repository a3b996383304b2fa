/**
  The two head rules on one record-against-`f x` call: learning that `f` is `Dict` before the fields are
  unified or afterwards comes to the same exactly where the fields and the argument leave `f` no choice.
 */
module HeadAgreement {
  import opened Wrappers
  import opened Types
  import opened Substitution
  import opened Unification
  import opened Matching
  import opened Soundness
  import opened Completeness
  import opened Hereditary
  import opened Agreement
  import opened HeadCalls

  // ---- a variable that turns out to be `Dict` ------------------------------------------------------------------

  /** What is still to be said to make `r` the dictionary constructor under `s`. */
  ghost function Missing(s: Subst, r: nat): Subst {
    var t := ApplyVar(r, s);
    if t.Var? then map[t.id := DICT] else map[]
  }

  /** `s` once that is said. */
  ghost function Finished(s: Subst, r: nat): Subst { Compose(Missing(s, r), s) }

  lemma {:induction false} VariableOrDict(theta: Subst, s: Subst, r: nat)
    requires Absorbs(theta, s) && ApplyVar(r, theta) == DICT
    ensures ApplyVar(r, s).Var? || ApplyVar(r, s) == DICT
    ensures ApplyVar(r, s).Var? ==> ApplyVar(ApplyVar(r, s).id, theta) == DICT
  {
    AbsorbsApply(Var(r), theta, s);
  }

  lemma {:induction false} MissingApart(s: Subst, r: nat)
    requires Resolved(s)
    ensures Missing(s, r).Keys !! s.Keys
  {
    var t := ApplyVar(r, s);
    if r in s && t.Var? { assert t.id in Ftv(s[r]); }
  }

  /** Equations that come to the same once `k` is `Dict`. */
  ghost predicate SameUnder(eqs: seq<Eq>, eqs': seq<Eq>, k: nat) {
    |eqs| == |eqs'| && forall i :: 0 <= i < |eqs| ==>
      && eqs[i].Equal? && eqs'[i].Equal?
      && Apply(eqs[i].lhs, map[k := DICT]) == Apply(eqs'[i].lhs, map[k := DICT])
      && Apply(eqs[i].rhs, map[k := DICT]) == Apply(eqs'[i].rhs, map[k := DICT])
  }

  lemma {:induction false} ThroughDict(t: Type, k: nat, s: Subst)
    requires ApplyVar(k, s) == DICT
    ensures Apply(Apply(t, map[k := DICT]), s) == Apply(t, s)
  {
    assert Absorbs(s, map[k := DICT]);
    AbsorbsApply(t, s, map[k := DICT]);
  }

  lemma {:induction false} SameSolutions(eqs: seq<Eq>, eqs': seq<Eq>, k: nat, s: Subst)
    requires Resolved(s) && ApplyVar(k, s) == DICT && SameUnder(eqs, eqs', k)
    ensures SolveFrom(ApplyHead, eqs, s) == SolveFrom(ApplyHead, eqs', s)
    decreases |eqs|
  {
    hide Within, Grows, Range, Resolved, Matches, EqVars, EqSize, Apply, Compose, Absorbs, Unify;
    if eqs != [] {
      var l, r := eqs[0].lhs, eqs[0].rhs;
      ThroughDict(l, k, s);
      ThroughDict(r, k, s);
      ThroughDict(eqs'[0].lhs, k, s);
      ThroughDict(eqs'[0].rhs, k, s);
      var u := Unify(ApplyHead, Apply(l, s), Apply(r, s));
      if u.err.None? {
        UnifySound(Apply(l, s), Apply(r, s));
        StepSolves(l, r, u.s, s);
        StaysDict(k, u.s, s);
        assert SameUnder(eqs[1..], eqs'[1..], k);
        SameSolutions(eqs[1..], eqs'[1..], k, Compose(u.s, s));
      }
    }
  }

  lemma {:induction false} StaysDict(k: nat, u: Subst, s: Subst)
    requires ApplyVar(k, s) == DICT && u.Keys !! s.Keys
    ensures ApplyVar(k, Compose(u, s)) == DICT
  {
  }

  // ---- saying so first or last ------------------------------------------------------------------------------------

  ghost function Mapped(eqs: seq<Eq>, s: Subst): (r: seq<Eq>)
    requires forall i :: 0 <= i < |eqs| ==> eqs[i].Equal?
    ensures |r| == |eqs| && forall i :: 0 <= i < |r| ==> r[i] == Equal(Apply(eqs[i].lhs, s), Apply(eqs[i].rhs, s))
  {
    seq(|eqs|, i requires 0 <= i < |eqs| => Equal(Apply(eqs[i].lhs, s), Apply(eqs[i].rhs, s)))
  }

  /** Substituting in both types substitutes in what they reduce to. */
  lemma {:induction false} PlanMapped(l: Type, m: Type, s: Subst, eqs: seq<Eq>)
    requires !l.Var? && !m.Var? && PlanFor(l, m) == Solve(eqs) && forall i :: 0 <= i < |eqs| ==> eqs[i].Equal?
    ensures PlanFor(Apply(l, s), Apply(m, s)) == Solve(Mapped(eqs, s))
  {
    match (l, m)
    case (Tuple(ts), Tuple(us)) =>
      assert |Apply(l, s).elems| == |ts| && |Apply(m, s).elems| == |us|;
      assert Zip(Apply(l, s).elems, Apply(m, s).elems) == Mapped(eqs, s);
    case (Record(fs), Record(gs)) =>
      assert |Apply(l, s).fields| == |fs| && |Apply(m, s).fields| == |gs|;
      forall i | 0 <= i < |fs| ensures ZipFields(Apply(l, s).fields, Apply(m, s).fields)[i] == Mapped(eqs, s)[i] {
        assert eqs[i].Equal?;
      }
      assert ZipFields(Apply(l, s).fields, Apply(m, s).fields) == Mapped(eqs, s);
    case _ =>
  }

  lemma {:induction false} OnDict(k: nat, t: Type)
    ensures Apply(Var(k), map[k := DICT]) == DICT && (k !in Ftv(t) ==> Apply(t, map[k := DICT]) == t)
    ensures t.Var? && t.id != k ==> Apply(t, map[k := DICT]) == t
  {
    if k !in Ftv(t) { ApplyDisjoint(t, map[k := DICT]); }
  }

  lemma {:induction false} BindResult(v: nat, t: Type)
    requires v !in Ftv(t)
    ensures Unify(ApplyHead, Var(v), t) == Outcome(map[v := t], None)
    ensures !t.Var? ==> Unify(ApplyHead, t, Var(v)) == Outcome(map[v := t], None)
  {
    assert Ftv(Var(v)) == {v};
  }

  lemma {:induction false} NothingToDo(t: Type)
    requires t.Var? || t.Con?
    ensures Unify(ApplyHead, t, t) == Outcome(map[], None)
  {
    assert PlanFor(t, t) == Solve([]);
  }

  /** A variable other than `k` against a type that does not contain it. */
  lemma {:induction false} BindFinished(v: nat, t: Type, k: nat)
    requires v != k && v !in Ftv(t)
    ensures var d := map[k := DICT];
            && v !in Ftv(Apply(t, d))
            && Compose(map[v := Apply(t, d)], d) == Finished(map[v := t], k)
            && Finished(map[v := t], k) == map[v := Apply(t, d), k := DICT]
  {
    var d := map[k := DICT];
    FtvApplyBound(t, d);
    assert Ftv(DICT) == {} && Range(d) == {};
    assert Missing(map[v := t], k) == d;
    assert Apply(DICT, map[v := Apply(t, d)]) == DICT;
  }

  /** `k` itself against `Dict` or another variable. */
  lemma {:induction false} KeyFinished(t: Type, k: nat)
    requires t == DICT || (t.Var? && t.id != k)
    ensures var d := map[k := DICT];
            Finished(map[k := t], k) == if t.Var? then map[k := DICT, t.id := DICT] else d
  {
    var s := map[k := t];
    if t.Var? {
      assert Missing(s, k) == map[t.id := DICT];
      assert Apply(t, Missing(s, k)) == DICT;
    } else {
      assert Missing(s, k) == map[];
      ComposeEmpty(s);
    }
  }

  lemma {:induction false} VariableFinished(l: Type, m: Type, k: nat, theta: Subst)
    requires (l.Var? || m.Var?) && Unifies(theta, l, m) && ApplyVar(k, theta) == DICT
    ensures var d, u := map[k := DICT], Unify(ApplyHead, l, m);
            var u' := Unify(ApplyHead, Apply(l, d), Apply(m, d));
            u.err.None? && u'.err.None? && Compose(u'.s, d) == Finished(u.s, k)
  {
    var d := map[k := DICT];
    OnDict(k, l);
    OnDict(k, m);
    hide Unify, Finished;
    if l == m {
      NothingToDo(l);
      NothingToDo(Apply(l, d));
      NothingSaid(k);
      ComposeEmpty(d);
    } else if l.Var? {
      VariableFinishedFirst(l.id, m, k, theta);
    } else {
      VariableFinishedSecond(l, m.id, k, theta);
    }
  }

  lemma {:induction false} VariableFinishedFirst(v: nat, t: Type, k: nat, theta: Subst)
    requires t != Var(v) && Unifies(theta, Var(v), t) && ApplyVar(k, theta) == DICT
    ensures var d, u := map[k := DICT], Unify(ApplyHead, Var(v), t);
            var u' := Unify(ApplyHead, Apply(Var(v), d), Apply(t, d));
            u.err.None? && u'.err.None? && Compose(u'.s, d) == Finished(u.s, k)
  {
    var d := map[k := DICT];
    if v in Ftv(t) { OccursIsFatal(v, t, theta); }
    BindResult(v, t);
    hide Unify, Finished;
    if v != k {
      assert Apply(Var(v), d) == Var(v);
      BindFinished(v, t, k);
      BindResult(v, Apply(t, d));
    } else {
      assert t == DICT || t.Var? by { assert Apply(t, theta) == DICT; }
      KeyFinished(t, k);
      DictMeets(t, k);
    }
  }

  lemma {:induction false} VariableFinishedSecond(t: Type, v: nat, k: nat, theta: Subst)
    requires !t.Var? && Unifies(theta, t, Var(v)) && ApplyVar(k, theta) == DICT
    ensures var d, u := map[k := DICT], Unify(ApplyHead, t, Var(v));
            var u' := Unify(ApplyHead, Apply(t, d), Apply(Var(v), d));
            u.err.None? && u'.err.None? && Compose(u'.s, d) == Finished(u.s, k)
  {
    var d := map[k := DICT];
    if v in Ftv(t) { OccursIsFatal(v, t, theta); }
    BindResult(v, t);
    hide Unify, Finished;
    if v != k {
      assert Apply(Var(v), d) == Var(v) && !Apply(t, d).Var?;
      BindFinished(v, t, k);
      BindResult(v, Apply(t, d));
    } else {
      assert t == DICT by { assert Apply(t, theta) == DICT; }
      KeyFinished(t, k);
      DictMeets(t, k);
    }
  }

  lemma {:induction false} DictMeets(t: Type, k: nat)
    requires t == DICT || (t.Var? && t.id != k)
    ensures var d := map[k := DICT];
            var u := Unify(ApplyHead, DICT, Apply(t, d));
            && Apply(Var(k), d) == DICT && u.err.None?
            && Compose(u.s, d) == (if t.Var? then map[k := DICT, t.id := DICT] else d)
            && (t == DICT ==> Unify(ApplyHead, Apply(t, d), DICT) == u)
  {
    var d := map[k := DICT];
    hide Unify;
    if t.Var? {
      assert Apply(t, d) == t;
      assert t.id !in Ftv(DICT);
      BindResult(t.id, DICT);
      assert Apply(DICT, map[t.id := DICT]) == DICT;
    } else {
      assert Apply(DICT, d) == DICT;
      NothingToDo(DICT);
      ComposeEmpty(d);
    }
  }

  /** Two types that `theta` unifies, with `k` made `Dict` by it: before or after unifying them. */
  lemma {:induction false} CallFinished(l: Type, m: Type, k: nat, theta: Subst)
    requires Unifies(theta, l, m) && ApplyVar(k, theta) == DICT
    ensures var d, u := map[k := DICT], Unify(ApplyHead, l, m);
            var u' := Unify(ApplyHead, Apply(l, d), Apply(m, d));
            u.err.None? && u'.err.None? && Compose(u'.s, d) == Finished(u.s, k)
    decreases |Vars(l, m)|, Size(l) + Size(m), 0, 0
  {
    if l.Var? || m.Var? {
      VariableFinished(l, m, k, theta);
    } else {
      hide Within, Grows, Range, Resolved, Matches, EqVars, EqSize, Vars, Absorbs, Apply, Compose, SolveFrom;
      hide Missing, Size;
      var d := map[k := DICT];
      UnifiesParts(theta, l, m);
      var eqs := PlanFor(l, m).eqs;
      SolveIsSmaller(l, m, eqs);
      NothingSaid(k);
      EquationsFinished(eqs, map[], d, k, theta);
      PlanMapped(l, m, d, eqs);
      MappedCarried(Mapped(eqs, d), eqs, k);
    }
  }

  lemma {:induction false} NothingSaid(k: nat)
    ensures Finished(map[], k) == map[k := DICT] && Resolved(map[])
    ensures forall theta :: Absorbs(theta, map[])
  {
    ComposeEmpty(map[k := DICT]);
  }

  lemma {:induction false} MappedCarried(eqs': seq<Eq>, eqs: seq<Eq>, k: nat)
    requires forall i :: 0 <= i < |eqs| ==> eqs[i].Equal?
    requires eqs' == Mapped(eqs, map[k := DICT])
    ensures var o, d := SolveFrom(ApplyHead, eqs', map[]), map[k := DICT];
            SolveFrom(ApplyHead, eqs, d) == Outcome(Compose(o.s, d), o.err)
  {
    var d := map[k := DICT];
    assert Resolved(d) && Ftv(DICT) == {};
    forall i | 0 <= i < |eqs| ensures Vars(eqs'[i].lhs, eqs'[i].rhs) !! d.Keys {
      ResolvedClears(eqs[i].lhs, d);
      ResolvedClears(eqs[i].rhs, d);
    }
    forall i | 0 <= i < |eqs|
      ensures Apply(eqs'[i].lhs, d) == Apply(eqs[i].lhs, d) && Apply(eqs'[i].rhs, d) == Apply(eqs[i].rhs, d)
    {
      ResolvedClears(eqs[i].lhs, d);
      ResolvedClears(eqs[i].rhs, d);
    }
    assert Range(map[]) == {} && Resolved(map[]);
    hide SolveFrom, Within, Grows, EqVars, EqSize, Apply, Resolved, Range;
    ComposeEmpty(d);
    SameSolutions(eqs, eqs', k, d);
    CarriesAlong(eqs', map[], d);
  }

  /** The same for equations under what is solved already. */
  lemma {:induction false} EquationsFinished(eqs: seq<Eq>, x: Subst, y: Subst, r: nat, theta: Subst)
    requires Resolved(x) && UnifiesAll(theta, eqs) && Absorbs(theta, x) && ApplyVar(r, theta) == DICT && y == Finished(x, r)
    ensures var o, o' := SolveFrom(ApplyHead, eqs, x), SolveFrom(ApplyHead, eqs, y);
            o.err.None? && o'.err.None? && o'.s == Finished(o.s, r)
    decreases |EqVars(eqs, x)|, EqSize(eqs, x), 1, |eqs|
  {
    hide Within, Grows, Range, Resolved, Matches, EqVars, EqSize, Vars, Absorbs, Apply, Compose, Unify, Finished;
    if eqs != [] {
      var l, m := eqs[0].lhs, eqs[0].rhs;
      assert Unifies(theta, l, m) && UnifiesAll(theta, eqs[1..]);
      hide UnifiesAll;
      CallIsSmaller(eqs, x);
      var u := Unify(ApplyHead, Apply(l, x), Apply(m, x));
      AbsorbsApply(l, theta, x);
      AbsorbsApply(m, theta, x);
      MostGeneral(ApplyHead, Apply(l, x), Apply(m, x), theta);
      UnifySound(Apply(l, x), Apply(m, x));
      StepSolves(l, m, u.s, x);
      AbsorbsCompose(theta, u.s, x);
      StepIsSmaller(eqs, u.s, x);
      var t := ApplyVar(r, x);
      VariableOrDict(theta, x, r);
      if t.Var? { CallFinished(Apply(l, x), Apply(m, x), t.id, theta); }
      StepFinished(l, m, x, y, r);
      EquationsFinished(eqs[1..], Compose(u.s, x), Finished(Compose(u.s, x), r), r, theta);
    }
  }

  lemma {:induction false} StepFinished(l: Type, m: Type, x: Subst, y: Subst, r: nat)
    requires Resolved(x) && y == Finished(x, r) && (ApplyVar(r, x).Var? || ApplyVar(r, x) == DICT)
    requires var u := Unify(ApplyHead, Apply(l, x), Apply(m, x));
             && u.err.None? && Resolved(u.s) && u.s.Keys !! x.Keys
             && (ApplyVar(r, x).Var? ==>
                   var d := map[ApplyVar(r, x).id := DICT];
                   var u' := Unify(ApplyHead, Apply(Apply(l, x), d), Apply(Apply(m, x), d));
                   u'.err.None? && Compose(u'.s, d) == Finished(u.s, ApplyVar(r, x).id))
    ensures var u, u' := Unify(ApplyHead, Apply(l, x), Apply(m, x)), Unify(ApplyHead, Apply(l, y), Apply(m, y));
            u'.err.None? && Compose(u'.s, y) == Finished(Compose(u.s, x), r)
  {
    hide Within, Range, Resolved, Apply, Unify;
    var u := Unify(ApplyHead, Apply(l, x), Apply(m, x));
    var c, t := Compose(u.s, x), ApplyVar(r, x);
    if t.Var? {
      var d := map[t.id := DICT];
      MissingApart(x, r);
      ComposeApply(l, d, x);
      ComposeApply(m, d, x);
      var u' := Unify(ApplyHead, Apply(l, y), Apply(m, y));
      KeyGone(Apply(l, x), Apply(m, x), t.id);
      ComposeAssoc(u'.s, d, x);
      MissingApart(u.s, t.id);
      ComposeAssoc(Missing(u.s, t.id), u.s, x);
      ComposeApply(Var(r), u.s, x);
      SameMissing(c, u.s, r, t.id) by { ApplyToVar(r, c); ApplyToVar(r, x); ApplyToVar(t.id, u.s); }
    } else {
      ComposeEmpty(x);
      StaysDict(r, u.s, x);
      ComposeEmpty(c);
    }
  }

  lemma {:induction false} ApplyToVar(v: nat, s: Subst)
    ensures Apply(Var(v), s) == ApplyVar(v, s)
  {
  }

  lemma {:induction false} SameMissing(c: Subst, u: Subst, r: nat, k: nat)
    requires ApplyVar(r, c) == ApplyVar(k, u)
    ensures Missing(c, r) == Missing(u, k)
  {
  }

  lemma {:induction false} KeyGone(l: Type, m: Type, k: nat)
    ensures var d := map[k := DICT]; Unify(ApplyHead, Apply(l, d), Apply(m, d)).s.Keys !! d.Keys
  {
    var d := map[k := DICT];
    assert Resolved(d) && Ftv(DICT) == {};
    ResolvedClears(l, d);
    ResolvedClears(m, d);
    hide Apply, Unify;
    assert Within(Unify(ApplyHead, Apply(l, d), Apply(m, d)).s, Vars(Apply(l, d), Apply(m, d)));
  }

  // ---- one call ---------------------------------------------------------------------------------------------------

  /** The equations of the call, the head applied to the argument already. */
  ghost function HeadEqs(v: nat, fields: seq<Field>, arg: Type): seq<Eq>
    requires fields != []
  {
    ElemEqs(fields) + [Equal(Apply(arg, map[v := DICT]), fields[0].ty)]
  }

  /** The in-place rule solves them, or gives up where they cannot be solved. */
  lemma {:induction false} InPlaceCall(t1: Type, t2: Type)
    requires PlanFor(t1, t2).Elems? && PlanFor(t1, t2).head.Some? && PlanFor(t1, t2).fields != []
    ensures var Elems(head, fields, arg) := PlanFor(t1, t2);
            Unify(ApplyHead, t1, t2) == SolveFrom(ApplyHead, HeadEqs(head.value, fields, arg), map[head.value := DICT])
  {
    var Elems(head, fields, arg) := PlanFor(t1, t2);
    var v := head.value;
    assert HeadSubst(head) == map[v := DICT];
    hide *;
    ElemsRun(t1, t2);
    HeadEqsSame(v, fields, arg);
    SameSolutions(ElemEqs(fields) + [Equal(arg, fields[0].ty)], HeadEqs(v, fields, arg), v, map[v := DICT]);
  }

  lemma {:induction false} HeadEqsSame(v: nat, fields: seq<Field>, arg: Type)
    requires fields != []
    ensures var d := map[v := DICT];
            && Resolved(d) && ApplyVar(v, d) == DICT
            && SameUnder(ElemEqs(fields) + [Equal(arg, fields[0].ty)], HeadEqs(v, fields, arg), v)
  {
    var d := map[v := DICT];
    assert Ftv(DICT) == {} && Range(d) == {};
    ThroughDict(arg, v, d);
    hide Apply;
  }

  /** The pure rule solves the same equations without the head being known, as far as it gets. */
  lemma {:induction false} NestedSolve(p: Type -> bool, v: nat, fields: seq<Field>, arg: Type)
    requires fields != [] && Closed(p) && p(arg) && FieldsAre(p, fields) && forall a, b :: p(a) && p(b) ==> HeadFree(a, b)
    requires var (f, a) := NestedOutcomes(Some(v), fields, arg); f.err.None? && a.err.None?
    ensures var (f, a) := NestedOutcomes(Some(v), fields, arg);
            SolveFrom(ApplyHead, HeadEqs(v, fields, arg), map[]) == Outcome(Compose(a.s, f.s), None)
  {
    hide Within, Range, Ambient, Vars, Unify, Eliminates, ElemWithin, Apply, Compose, ElemFrom, Resolved;
    hide HeadFree, EveryCall;
    hide EveryCallElems, SubstHas, FieldsAre, ElemEqs, FirstEqs, SolveFrom, Closed;
    EmptyEliminates();
    EmptyResolved();
    FieldsHaveRest(p, fields);
    NothingSubstituted(p);
    EveryCallHasElems(p, HeadFree, fields[1..], fields[0].ty, map[]);
    FirstEqsAreElemEqs(fields);
    ElemsAgree(fields[1..], fields[0].ty, map[], fields[0].ty);
    ElemFromHas(p, fields[1..], fields[0].ty, map[]);
    var (f, a) := NestedOutcomes(Some(v), fields, arg);
    var arg' := Apply(arg, HeadSubst(Some(v)));
    SkippedArgHas(p, Some(v), arg, f.s);
    EveryCallHas(p, HeadFree, Apply(arg', f.s), f.elem);
    RulesAgree(Apply(arg', f.s), f.elem);
    SolveAppend(ApplyHead, ElemEqs(fields), [Equal(arg', fields[0].ty)], map[]);
    SolveOne(ApplyHead, arg', fields[0].ty, f.s);
  }

  lemma {:induction false} RecordFreeFree()
    ensures forall a, b :: RecordFree(a) && RecordFree(b) ==> HeadFree(a, b)
  {
    hide RecordFree, HeadFree;
    forall a, b | RecordFree(a) && RecordFree(b) ensures HeadFree(a, b) { RecordFreeGuarded(a, b); }
  }

  lemma {:induction false} HeadUnifierUnifiesAll(theta: Subst, v: nat, fields: seq<Field>, arg: Type)
    requires fields != []
    ensures HeadUnifier(theta, v, fields, arg) <==> UnifiesAll(theta, HeadEqs(v, fields, arg))
  {
    hide Apply;
    var eqs := HeadEqs(v, fields, arg);
    var n := |fields| - 1;
    assert eqs[n] == Equal(Apply(arg, map[v := DICT]), fields[0].ty);
    assert forall i :: 0 <= i < n ==> eqs[i] == Equal(fields[0].ty, fields[i + 1].ty);
    if UnifiesAll(theta, eqs) {
      forall i | 0 <= i < |fields| ensures Unifies(theta, fields[0].ty, fields[i].ty) {
        if i > 0 { assert Unifies(theta, eqs[i - 1].lhs, eqs[i - 1].rhs); }
      }
    }
  }

  lemma {:induction false} HeadEqsRecordFree(v: nat, fields: seq<Field>, arg: Type)
    requires fields != [] && RecordFree(arg) && FieldsAre(RecordFree, fields)
    ensures EqsHave(RecordFree, HeadEqs(v, fields, arg)) && SubstHas(RecordFree, map[v := DICT])
  {
    hide RecordFree, Closed, Apply;
    RecordFreeClosed();
    assert HeadSubst(Some(v)) == map[v := DICT];
    HeadHas(RecordFree, Some(v));
    ApplyHas(RecordFree, arg, map[v := DICT]);
  }

  lemma {:induction false} SolvedUnifies(eqs: seq<Eq>, s: Subst)
    requires AllSolved(eqs, s) && EqsHave(RecordFree, eqs) && SubstHas(RecordFree, s)
    ensures UnifiesAll(s, eqs)
  {
    hide RecordFree, Matches, Apply, SubstHas;
    RecordFreeClosed();
    forall i | 0 <= i < |eqs| ensures eqs[i].Equal? && Unifies(s, eqs[i].lhs, eqs[i].rhs) {
      ApplyHas(RecordFree, eqs[i].lhs, s);
      ApplyHas(RecordFree, eqs[i].rhs, s);
      MatchesIsEquality(Apply(eqs[i].lhs, s), Apply(eqs[i].rhs, s));
    }
  }

  lemma {:induction false} InPlaceSolves(eqs: seq<Eq>, s: Subst)
    requires Resolved(s) && EqsHave(RecordFree, eqs) && SubstHas(RecordFree, s)
    requires SolveFrom(ApplyHead, eqs, s).err.None?
    ensures UnifiesAll(SolveFrom(ApplyHead, eqs, s).s, eqs)
  {
    hide RecordFree, Closed, Resolved, AllSolved, UnifiesAll, SubstHas, EqsHave, SolveFrom, Absorbs;
    RecordFreeClosed();
    SolveSound(eqs, s);
    ResultHasFrom(RecordFree, ApplyHead, eqs, s);
    SolvedUnifies(eqs, SolveFrom(ApplyHead, eqs, s).s);
  }

  /** Where the in-place rule succeeds there is a unifier. */
  lemma {:induction false} InPlaceUnifies(v: nat, fields: seq<Field>, arg: Type)
    requires fields != [] && RecordFree(arg) && FieldsAre(RecordFree, fields)
    requires SolveFrom(ApplyHead, HeadEqs(v, fields, arg), map[v := DICT]).err.None?
    ensures HeadUnifier(SolveFrom(ApplyHead, HeadEqs(v, fields, arg), map[v := DICT]).s, v, fields, arg)
  {
    hide RecordFree, Resolved, UnifiesAll, SubstHas, EqsHave, SolveFrom, HeadEqs, HeadUnifier, SameUnder;
    hide FieldsAre, ElemEqs;
    HeadEqsSame(v, fields, arg);
    HeadEqsRecordFree(v, fields, arg);
    InPlaceSolves(HeadEqs(v, fields, arg), map[v := DICT]);
    HeadUnifierUnifiesAll(SolveFrom(ApplyHead, HeadEqs(v, fields, arg), map[v := DICT]).s, v, fields, arg);
  }

  /** Both fail, or both give the same substitution. */
  ghost predicate SameAnswer(o: Outcome, p: Outcome) {
    (o.err.None? <==> p.err.None?) && (o.err.None? ==> o.s == p.s)
  }

  lemma {:induction false} SameAnswerIsSound(t1: Type, t2: Type)
    requires SameAnswer(Unify(SkipHead, t1, t2), Unify(ApplyHead, t1, t2))
    ensures CallSound(t1, t2)
  {
    hide Unify, Solves;
    UnifySound(t1, t2);
  }

  lemma {:induction false} DictAlready(s: Subst, v: nat)
    requires ApplyVar(v, s) == DICT
    ensures HeadSubst(Some(v)) == map[v := DICT] && Finished(s, v) == s && Compose(s, map[v := DICT]) == s
  {
    assert Missing(s, v) == map[];
    ComposeEmpty(s);
  }

  /** Where the head is made `Dict` in the end, it makes no difference to have known it from the start. */
  lemma {:induction false} ForcedAgrees(t1: Type, t2: Type)
    requires PlanFor(t1, t2).Elems? && PlanFor(t1, t2).head.Some? && PlanFor(t1, t2).fields != []
    requires RecordFree(PlanFor(t1, t2).arg) && FieldsAre(RecordFree, PlanFor(t1, t2).fields)
    requires var Elems(head, fields, arg) := PlanFor(t1, t2);
             var (f, a) := NestedOutcomes(head, fields, arg);
             f.err.None? && a.err.None? && ApplyVar(head.value, Compose(a.s, f.s)) == DICT
    ensures SameAnswer(Unify(SkipHead, t1, t2), Unify(ApplyHead, t1, t2))
  {
    var Elems(head, fields, arg) := PlanFor(t1, t2);
    var v := head.value;
    var (f, a) := NestedOutcomes(head, fields, arg);
    var s, d := Compose(a.s, f.s), map[v := DICT];
    DictAlready(s, v);
    hide NestedOutcomes, Finished, PlanFor, Unify, Compose, Resolved, Matches, RecordFree, Missing, HeadSubst;
    hide SolveFrom, HeadEqs, Absorbs, FieldsAre, HeadUnifier, UnifiesAll, Solves, SubstHas, ArgSolved;
    hide FieldsSolved, Within, Ambient, Closed, HeadGuarded, HeadFree;
    ElemsRun(t1, t2);
    RecordFreeNested();
    NestedSound(RecordFree, v, fields, arg);
    ForcedFacts(v, fields, arg);
    ComposeAssoc(a.s, f.s, d);
    InPlaceCall(t1, t2);
    RecordFreeFree();
    NestedSolve(RecordFree, v, fields, arg);
    HeadUnifierUnifiesAll(s, v, fields, arg);
    NothingSaid(v);
    EquationsFinished(HeadEqs(v, fields, arg), map[], d, v, s);
  }

  lemma {:induction false} ForcedFacts(v: nat, fields: seq<Field>, arg: Type)
    requires fields != [] && RecordFree(arg) && FieldsAre(RecordFree, fields)
    requires var (f, a) := NestedOutcomes(Some(v), fields, arg); f.err.None? && a.err.None?
    ensures var (f, a) := NestedOutcomes(Some(v), fields, arg);
            a.s.Keys !! f.s.Keys && HeadUnifier(Compose(a.s, f.s), v, fields, arg)
  {
    hide Within, Range, Ambient, Vars, Eliminates, ElemWithin, Apply, Compose, ElemFrom, RecordFree, Matches;
    hide Resolved, SubstHas, HeadUnifier, ArgSolved, FieldsAre, FieldsSolved, Solves, Absorbs, Unify;
    var (f, a) := NestedOutcomes(Some(v), fields, arg);
    RecordFreeNested();
    NestedSound(RecordFree, v, fields, arg);
    EmptyEliminates();
    ElemsSolved(Some(v), fields, arg, f, a.s);
    RecordFreeClosed();
    ComposeHas(RecordFree, a.s, f.s);
    SolvedIsUnified(v, fields, arg, Compose(a.s, f.s));
  }

  /** Where the pure rule fails the in-place one does. */
  lemma {:induction false} BothFail(t1: Type, t2: Type)
    requires PlanFor(t1, t2).Elems? && PlanFor(t1, t2).head.Some? && PlanFor(t1, t2).fields != []
    requires RecordFree(PlanFor(t1, t2).arg) && FieldsAre(RecordFree, PlanFor(t1, t2).fields)
    requires var Elems(head, fields, arg) := PlanFor(t1, t2);
             var (f, a) := NestedOutcomes(head, fields, arg);
             f.err.Some? || a.err.Some?
    ensures Unify(SkipHead, t1, t2).err.Some? && Unify(ApplyHead, t1, t2).err.Some?
  {
    hide NestedOutcomes, PlanFor, Unify, RecordFree, FieldsAre, HeadUnifier, SolveFrom, HeadEqs, Absorbs, Compose;
    var Elems(head, fields, arg) := PlanFor(t1, t2);
    ElemsRun(t1, t2);
    InPlaceCall(t1, t2);
    var v := head.value;
    var o := SolveFrom(ApplyHead, HeadEqs(v, fields, arg), map[v := DICT]);
    if o.err.None? {
      InPlaceUnifies(v, fields, arg);
      NestedMostGeneral(v, fields, arg, o.s);
      assert false;
    }
  }

  /** A head that stays out of the fields stays out of all nested calls. */
  lemma {:induction false} FreeCall(t1: Type, t2: Type)
    requires PlanFor(t1, t2).Elems? && PlanFor(t1, t2).fields != [] && HeadFree(t1, t2)
    requires RecordFree(PlanFor(t1, t2).arg) && FieldsAre(RecordFree, PlanFor(t1, t2).fields)
    ensures EveryCall(HeadFree, t1, t2)
  {
    hide Within, Grows, Range, EqVars, EqSize, Vars, EveryCallElems, Apply, SolveFrom, ElemEqs, ElemFrom;
    hide Ambient, ElemWithin, RecordFree, FieldsAre, Eliminates, SubstHas, HeadFree, Unify;
    var Elems(head, fields, arg) := PlanFor(t1, t2);
    EmptyEliminates();
    RecordFreeClosed();
    forall a, b | RecordFree(a) && RecordFree(b) ensures HeadFree(a, b) { RecordFreeGuarded(a, b); }
    FieldsHaveRest(RecordFree, fields);
    NothingSubstituted(RecordFree);
    EveryCallHasElems(RecordFree, HeadFree, fields[1..], fields[0].ty, map[]);
    ElemFromHas(RecordFree, fields[1..], fields[0].ty, map[]);
    var f := ElemFrom(fields[1..], fields[0].ty, map[]);
    if f.err.None? {
      SkippedArgHas(RecordFree, head, arg, f.s);
      EveryCallHas(RecordFree, HeadFree, Apply(Apply(arg, HeadSubst(head)), f.s), f.elem);
    }
  }

  lemma {:induction false} HeadOut(t1: Type, t2: Type)
    requires PlanFor(t1, t2).Elems? && PlanFor(t1, t2).head.Some? && PlanFor(t1, t2).head.value !in FtvFields(PlanFor(t1, t2).fields)
    ensures HeadFree(t1, t2)
  {
  }

  lemma {:induction false} SameResultAnswers(o: Outcome, p: Outcome)
    requires SameResult(o, p)
    ensures SameAnswer(o, p)
  {
  }

  lemma {:induction false} SameFailure(o: Outcome, p: Outcome)
    requires o.err.Some? && p.err.Some?
    ensures SameAnswer(o, p)
  {
  }

  /**
    The two rules give the same answer to the call if and only if the head variable is not in the fields or
    every unifier of fields and argument makes it `Dict`: exactly where the pure rule is correct.
   */
  lemma {:induction false} HeadCallAgrees(t1: Type, t2: Type)
    requires PlanFor(t1, t2).Elems? && PlanFor(t1, t2).head.Some? && PlanFor(t1, t2).fields != []
    requires RecordFree(PlanFor(t1, t2).arg) && FieldsAre(RecordFree, PlanFor(t1, t2).fields)
    ensures var Elems(head, fields, arg) := PlanFor(t1, t2);
            var v := head.value;
            SameAnswer(Unify(SkipHead, t1, t2), Unify(ApplyHead, t1, t2)) <==>
              v !in FtvFields(fields) || forall theta :: HeadUnifier(theta, v, fields, arg) ==> ApplyVar(v, theta) == DICT
    ensures SameAnswer(Unify(SkipHead, t1, t2), Unify(ApplyHead, t1, t2)) <==> CallSound(t1, t2)
  {
    hide PlanFor, Unify, RecordFree, FieldsAre, HeadUnifier, Compose, CallSound, FtvFields, NestedOutcomes;
    hide SameAnswer, HeadFree, EveryCall;
    var Elems(head, fields, arg) := PlanFor(t1, t2);
    var v := head.value;
    HeadCallExact(t1, t2);
    if SameAnswer(Unify(SkipHead, t1, t2), Unify(ApplyHead, t1, t2)) { SameAnswerIsSound(t1, t2); }
    if v !in FtvFields(fields) {
      assert HeadFree(t1, t2) by { HeadOut(t1, t2); }
      FreeCall(t1, t2);
      RulesAgree(t1, t2);
      SameResultAnswers(Unify(SkipHead, t1, t2), Unify(ApplyHead, t1, t2));
    } else if CallSound(t1, t2) {
      var (f, a) := NestedOutcomes(head, fields, arg);
      if f.err.None? && a.err.None? {
        HeadForced(v, fields, arg);
        ForcedAgrees(t1, t2);
      } else {
        BothFail(t1, t2);
        SameFailure(Unify(SkipHead, t1, t2), Unify(ApplyHead, t1, t2));
      }
    }
  }
}

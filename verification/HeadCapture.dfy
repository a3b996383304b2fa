/** Concrete runs on which the pure unifier, or unification as such, falls short. */
module HeadCapture {
  import opened Wrappers
  import opened Types
  import opened Substitution
  import opened Unification
  import opened Matching
  import opened Soundness
  import opened Agreement
  import opened Compositions

  const I32 := Con(Builtin(BuiltinTypeId.I32))

  lemma {:induction false} BindCall(rule: HeadRule, v: nat, t: Type)
    requires v !in Ftv(t)
    ensures Unify(rule, Var(v), t) == Outcome(map[v := t], None)
  {
    assert Ftv(Var(v)) == {v};
  }

  /** A one-field record against an application of variable 0. */
  lemma {:induction false} PureHead(elem: Type, arg: Type)
    requires 0 !in Ftv(arg)
    ensures var a := Unify(SkipHead, arg, elem);
            Unify(SkipHead, Record([Field("a", elem)]), App(Var(0), arg))
            == Outcome(Compose(a.s, HeadSubst(Some(0))), a.err)
  {
    var fields := [Field("a", elem)];
    assert fields[1..] == [];
    ApplyEmpty(elem);
    EmptyEliminates();
    assert ElemFrom(fields[1..], elem, map[]) == ElemOutcome(map[], elem, None);
    ApplyDisjoint(arg, HeadSubst(Some(0)));
    ApplyEmpty(arg);
    hide ElemFrom, Unify, Within, Eliminates, Ambient, Compose;
    ElemsRun(Record(fields), App(Var(0), arg));
    ComposeEmpty(HeadSubst(Some(0)));
  }

  lemma {:induction false} InPlaceHead(elem: Type, arg: Type)
    requires 0 !in Ftv(arg)
    ensures var a := Unify(ApplyHead, arg, Apply(elem, HeadSubst(Some(0))));
            Unify(ApplyHead, Record([Field("a", elem)]), App(Var(0), arg))
            == Outcome(Compose(a.s, HeadSubst(Some(0))), a.err)
  {
    var fields, h := [Field("a", elem)], HeadSubst(Some(0));
    assert ElemEqs(fields) == [];
    assert ElemEqs(fields) + [Equal(arg, elem)] == [Equal(arg, elem)];
    ApplyDisjoint(arg, h);
    hide ElemFrom, Unify, Within, Eliminates, Ambient, Compose, SolveFrom, ElemEqs;
    ElemsRun(Record(fields), App(Var(0), arg));
    SolveOne(ApplyHead, arg, elem, h);
  }

  /**
    `{a: f i32}` against `f x`: the pure unifier answers `x = f i32` although it has just made `f` the
    dictionary constructor, so its answer still mentions a variable it binds. The in-place rule says
    `x = Dict i32`.
   */
  lemma {:induction false} PureLeavesHeadBehind()
    ensures var t1, t2 := Record([Field("a", App(Var(0), I32))]), App(Var(0), Var(1));
            var pure, inPlace := Unify(SkipHead, t1, t2), Unify(ApplyHead, t1, t2);
            && pure == Outcome(map[0 := DICT, 1 := App(Var(0), I32)], None)
            && inPlace == Outcome(map[0 := DICT, 1 := App(DICT, I32)], None)
            && !Resolved(pure.s)
  {
    var elem, elem' := App(Var(0), I32), App(DICT, I32);
    assert Ftv(elem) == {0} && Ftv(elem') == {} by { assert Ftv(Var(0)) == {0}; }
    assert Apply(elem, HeadSubst(Some(0))) == elem' by { assert Apply(Var(0), HeadSubst(Some(0))) == DICT; }
    PureHead(elem, Var(1));
    BindCall(SkipHead, 1, elem);
    InPlaceHead(elem, Var(1));
    BindCall(ApplyHead, 1, elem');
    assert Compose(map[1 := elem], HeadSubst(Some(0))) == map[0 := DICT, 1 := elem];
    assert Compose(map[1 := elem'], HeadSubst(Some(0))) == map[0 := DICT, 1 := elem'];
    var s := map[0 := DICT, 1 := elem];
    assert 0 in Ftv(s[1]);
    assert 0 in s.Keys * Range(s);
  }

  lemma {:induction false} NonsenseRun()
    ensures Unify(SkipHead, I32, Var(0)) == Outcome(map[0 := I32], None)
    ensures Unify(ApplyHead, I32, DICT) == Outcome(map[], Some(Mismatch(I32, DICT)))
  {
    assert PlanFor(I32, Var(0)) == Bind(0, I32) && 0 !in Ftv(I32);
    assert PlanFor(I32, DICT) == Fail(Mismatch(I32, DICT));
  }

  /** `{a: f}` against `f i32`: the pure unifier binds `f` to `i32`, which makes nothing match. */
  lemma {:induction false} PureAcceptsNonsense()
    ensures var t1, t2 := Record([Field("a", Var(0))]), App(Var(0), I32);
            var pure, inPlace := Unify(SkipHead, t1, t2), Unify(ApplyHead, t1, t2);
            && pure == Outcome(map[0 := I32], None)
            && !Matches(Apply(t1, pure.s), Apply(t2, pure.s))
            && inPlace.err == Some(Mismatch(I32, DICT))
  {
    var t1, t2 := Record([Field("a", Var(0))]), App(Var(0), I32);
    NonsenseRun();
    assert Compose(map[0 := I32], HeadSubst(Some(0))) == map[0 := I32];
    assert Apply(Var(0), HeadSubst(Some(0))) == DICT;
    assert Apply(HeadType(Some(0)), map[0 := I32]) == I32 && PlanFor(t1, t2) == Elems(Some(0), t1.fields, I32);
    assert 0 !in Ftv(I32);
    hide *;
    PureHead(Var(0), I32);
    InPlaceHead(Var(0), I32);
    NotDict(t1, t2, map[0 := I32]);
  }

  lemma {:induction false} NonsenseNested()
    ensures var (f, a) := NestedOutcomes(Some(0), [Field("a", Var(0))], I32);
            f == ElemOutcome(map[], Var(0), None) && a == Outcome(map[0 := I32], None)
  {
    var fields := [Field("a", Var(0))];
    assert fields[1..] == [];
    ApplyEmpty(Var(0));
    EmptyEliminates();
    assert ElemFrom(fields[1..], Var(0), map[]) == ElemOutcome(map[], Var(0), None);
    assert Apply(Apply(I32, HeadSubst(Some(0))), map[]) == I32;
    hide ElemFrom, Unify;
    NonsenseRun();
  }

  /** That call composes `f = i32` onto `f = Dict`: neither disjoint nor as the law for compositions asks. */
  lemma {:induction false} NonsenseComposition()
    ensures var t1, t2 := Record([Field("a", Var(0))]), App(Var(0), I32);
            var (f, a) := NestedOutcomes(Some(0), t1.fields, I32);
            && f.s == map[] && a.s == map[0 := I32]
            && !OverlapAgrees(a.s, Compose(f.s, HeadSubst(Some(0))))
            && !ComposesDisjoint(t1, t2) && !ComposesLawfully(t1, t2)
  {
    var t1, t2 := Record([Field("a", Var(0))]), App(Var(0), I32);
    NonsenseNested();
    var s, h := map[0 := I32], HeadSubst(Some(0));
    assert Compose(map[], h) == h by { ApplyEmpty(DICT); }
    assert Compose(s, map[]) == s;
    assert s[0] == I32 && Apply(h[0], s) == DICT;
    assert PlanFor(t1, t2) == Elems(Some(0), t1.fields, I32);
    hide NestedOutcomes, LoopsDisjoint, PlanFor, Unify;
    HeadLawExact(Some(0), map[], s);
  }

  lemma {:induction false} OneMoreField(name: string)
    ensures Eliminates(map[])
    ensures ElemFrom([Field(name, Var(1))], Var(0), map[]) == ElemOutcome(map[0 := Var(1)], Var(1), None)
  {
    var rest, s := [Field(name, Var(1))], map[0 := Var(1)];
    assert rest[1..] == [];
    EmptyEliminates();
    ApplyEmpty(Var(0));
    ApplyEmpty(Var(1));
    assert 0 !in Ftv(Var(1));
    BindCall(SkipHead, 0, Var(1));
    ComposeEmpty(s);
    ElemCallIsSmaller(rest, Var(0), map[]);
    ElemStep(rest, Var(0), map[], s);
    assert Apply(Var(0), s) == Var(1) && Apply(Var(1), s) == Var(1);
    hide Unify, Compose, Apply, Eliminates, Within, ElemWithin, Ambient, Vars;
    assert ElemFrom(rest[1..], Var(1), s) == ElemOutcome(s, Var(1), None);
  }

  lemma {:induction false} InnerNested()
    ensures var (f, a) := NestedOutcomes(Some(0), [Field("a", Var(0)), Field("b", Var(1))], DICT);
            f == ElemOutcome(map[0 := Var(1)], Var(1), None) && a == Outcome(map[1 := DICT], None)
  {
    var fields, s := [Field("a", Var(0)), Field("b", Var(1))], map[0 := Var(1)];
    EmptyEliminates();
    OneMoreField("b");
    assert fields[1..] == [Field("b", Var(1))];
    assert Apply(Apply(DICT, HeadSubst(Some(0))), s) == DICT;
    assert PlanFor(DICT, Var(1)) == Bind(1, DICT) && 1 !in Ftv(DICT);
    assert Unify(SkipHead, DICT, Var(1)) == Outcome(map[1 := DICT], None);
    hide ElemFrom, Unify, Apply;
  }

  /**
    `{a: f, b: w}` against `f Dict` passes the guard, for `f` becomes `w` and then `w` becomes `Dict`. The
    composition of `f = w` onto `f = Dict` alone breaks the law; head, fields and argument together obey it.
   */
  lemma {:induction false} InnerCompositionDisagrees()
    ensures var t1, t2 := Record([Field("a", Var(0)), Field("b", Var(1))]), App(Var(0), DICT);
            var (f, a) := NestedOutcomes(Some(0), t1.fields, DICT);
            && f.err.None? && a.err.None? && HeadGuarded(t1, t2)
            && !OverlapAgrees(f.s, HeadSubst(Some(0)))
            && LawfulHead(Some(0), f.s, a.s)
  {
    var t1, t2 := Record([Field("a", Var(0)), Field("b", Var(1))]), App(Var(0), DICT);
    InnerNested();
    var f, a := map[0 := Var(1)], map[1 := DICT];
    assert Apply(DICT, f) == DICT && f[0] == Var(1) && HeadSubst(Some(0))[0] == DICT;
    assert ApplyVar(0, Compose(a, f)) == DICT;
    assert PlanFor(t1, t2) == Elems(Some(0), t1.fields, DICT);
    hide NestedOutcomes, PlanFor, Unify, Compose;
    HeadLawExact(Some(0), f, a);
  }

  /** `f i32` against `Dict i32`. */
  lemma {:induction false} HeadMeetsDict()
    ensures Unify(SkipHead, App(Var(0), I32), App(DICT, I32)) == Outcome(map[0 := DICT], None)
  {
    var s := map[0 := DICT];
    var p, q := [Equal(Var(0), DICT)], [Equal(I32, I32)];
    assert [Equal(Var(0), DICT), Equal(I32, I32)] == p + q;
    assert Unify(SkipHead, App(Var(0), I32), App(DICT, I32)) == SolveFrom(SkipHead, p + q, map[]) by {
      hide SolveFrom, Within, Grows, EqVars, EqSize;
    }
    assert 0 !in Ftv(DICT) && Apply(I32, s) == I32;
    assert Unify(SkipHead, I32, I32) == Outcome(map[], None);
    hide *;
    SolveAppend(SkipHead, p, q, map[]);
    SolveOne(SkipHead, Var(0), DICT, map[]);
    ApplyEmpty(Var(0));
    ApplyEmpty(DICT);
    BindCall(SkipHead, 0, DICT);
    ComposeEmpty(s);
    SolveOne(SkipHead, I32, I32, s);
  }

  lemma {:induction false} RepairPlan(r: Type, q: Type, d: Type)
    ensures Unify(SkipHead, Tuple([r, Var(1)]), Tuple([q, d])) == SolveFrom(SkipHead, [Equal(r, q)] + [Equal(Var(1), d)], map[])
  {
    hide SolveFrom, Within, Grows, EqVars, EqSize;
    assert Zip([r, Var(1)], [q, d]) == [Equal(r, q)] + [Equal(Var(1), d)];
  }

  lemma {:induction false} RepairComposed(d: Type, s1: Subst, s2: Subst)
    requires d == App(DICT, I32) && s1 == map[0 := DICT, 1 := App(Var(0), I32)] && s2 == map[0 := DICT, 1 := d]
    ensures Apply(d, s1) == d && Apply(Var(1), s1) == App(Var(0), I32) && Compose(map[0 := DICT], s1) == s2
  {
    assert Apply(s1[1], map[0 := DICT]) == d;
  }

  lemma {:induction false} RepairRun(r: Type, q: Type, d: Type, s1: Subst, s2: Subst)
    requires r == Record([Field("a", App(Var(0), I32))]) && q == App(Var(0), Var(1)) && d == App(DICT, I32)
    requires s1 == map[0 := DICT, 1 := App(Var(0), I32)] && s2 == map[0 := DICT, 1 := d]
    ensures Unify(SkipHead, Tuple([r, Var(1)]), Tuple([q, d])) == Outcome(s2, None)
  {
    hide *;
    var p := [Equal(r, q)];
    RepairPlan(r, q, d);
    RepairComposed(d, s1, s2);
    SolveAppend(SkipHead, p, [Equal(Var(1), d)], map[]);
    SolveOne(SkipHead, r, q, map[]);
    ApplyEmpty(r);
    ApplyEmpty(q);
    PureLeavesHeadBehind();
    ComposeEmpty(s1);
    SolveOne(SkipHead, Var(1), d, s1);
    HeadMeetsDict();
  }

  lemma {:induction false} RepairedTypes(r: Type, q: Type, d: Type, s: Subst)
    requires r == Record([Field("a", App(Var(0), I32))]) && q == App(Var(0), Var(1)) && d == App(DICT, I32)
    requires s == map[0 := DICT, 1 := d]
    ensures Matches(Apply(r, s), Apply(q, s)) && Apply(Var(1), s) == d && Apply(d, s) == d
  {
    assert Apply(App(Var(0), I32), s) == d;
    var field := Field("a", d);
    assert Apply(r, s) == Record([field]) && Apply(q, s) == App(DICT, d);
    hide Apply;
    MatchesItself(d);
    assert Matches(Record([field]), App(DICT, d));
  }

  lemma {:induction false} RepairSound(r: Type, q: Type, d: Type, s: Subst)
    requires r == Record([Field("a", App(Var(0), I32))]) && q == App(Var(0), Var(1)) && d == App(DICT, I32)
    requires s == map[0 := DICT, 1 := d] && Unify(SkipHead, Tuple([r, Var(1)]), Tuple([q, d])) == Outcome(s, None)
    ensures CallSound(Tuple([r, Var(1)]), Tuple([q, d]))
  {
    RepairedTypes(r, q, d, s);
    assert Resolved(s) by { assert Ftv(DICT) == {} && Ftv(d) == {}; }
    hide Unify, Apply, Resolved, Matches;
    MatchesItself(d);
    TuplesMatch([r, Var(1)], [q, d], s);
  }

  lemma {:induction false} FirstCallUnguarded(r: Type, q: Type)
    requires r == Record([Field("a", App(Var(0), I32))]) && q == App(Var(0), Var(1))
    ensures !HeadGuarded(r, q)
  {
    var elem, fields := App(Var(0), I32), r.fields;
    assert fields[1..] == [];
    ApplyEmpty(elem);
    EmptyEliminates();
    assert ElemFrom(fields[1..], elem, map[]) == ElemOutcome(map[], elem, None);
    assert Apply(Var(1), HeadSubst(Some(0))) == Var(1);
    ApplyEmpty(Var(1));
    assert 0 in Ftv(elem) && 1 !in Ftv(elem) by { assert Ftv(Var(0)) == {0}; }
    BindCall(SkipHead, 1, elem);
    ComposeEmpty(map[1 := elem]);
    assert 0 in FtvFields(fields) by { assert fields[0].ty == elem; }
    hide ElemFrom, Unify, Within, Apply, Compose;
    assert PlanFor(r, q) == Elems(Some(0), fields, Var(1));
  }

  lemma {:induction false} FirstCall(eqs: seq<Eq>)
    requires eqs != [] && eqs[0].Equal?
    ensures EveryCallFrom(HeadGuarded, eqs, map[]) ==>
              EveryCall(HeadGuarded, Apply(eqs[0].lhs, map[]), Apply(eqs[0].rhs, map[]))
  {
    hide EveryCall, HeadGuarded, Apply, Unify, Within, Grows, EqVars, EqSize;
  }

  /** The calls of the run begin with the first components. */
  lemma {:induction false} RepairCalls(r: Type, q: Type, d: Type)
    requires !HeadGuarded(r, q)
    ensures !EveryCall(HeadGuarded, Tuple([r, Var(1)]), Tuple([q, d]))
  {
    var t1, t2, eqs := Tuple([r, Var(1)]), Tuple([q, d]), [Equal(r, q), Equal(Var(1), d)];
    assert Zip([r, Var(1)], [q, d]) == eqs;
    assert PlanFor(t1, t2) == Solve(eqs);
    FirstCall(eqs);
    ApplyEmpty(r);
    ApplyEmpty(q);
    hide Zip, PlanFor, Unify, SolveFrom, HeadGuarded, Apply, Within, Grows, EqVars, EqSize, EveryCallFrom;
    assert EveryCall(HeadGuarded, t1, t2) ==> EveryCallFrom(HeadGuarded, eqs, map[]);
  }

  /**
    Correctness of what is returned is less than correctness of every call: after `{a: f i32}` against
    `f x` has gone wrong, `x` against `Dict i32` repairs it.
   */
  lemma {:induction false} LaterCallRepairs()
    ensures var r, q := Record([Field("a", App(Var(0), I32))]), App(Var(0), Var(1));
            var t1, t2 := Tuple([r, Var(1)]), Tuple([q, App(DICT, I32)]);
            && Unify(SkipHead, t1, t2) == Outcome(map[0 := DICT, 1 := App(DICT, I32)], None)
            && CallSound(t1, t2) && !EveryCall(HeadGuarded, t1, t2)
  {
    hide *;
    var r, q, d := Record([Field("a", App(Var(0), I32))]), App(Var(0), Var(1)), App(DICT, I32);
    var s1, s2 := map[0 := DICT, 1 := App(Var(0), I32)], map[0 := DICT, 1 := d];
    RepairRun(r, q, d, s1, s2);
    RepairSound(r, q, d, s2);
    FirstCallUnguarded(r, q);
    RepairCalls(r, q, d);
  }

  function OneField(name: string): Type { Record([Field(name, I32)]) }

  lemma {:induction false} OneFieldFacts(name: string)
    ensures OneField(name) == Record([Field(name, I32)]) && Ftv(OneField(name)) == {}
    ensures Matches(App(DICT, I32), OneField(name))
  {
    assert Ftv(I32) == {};
  }

  lemma {:induction false} NamesClash()
    ensures Unify(ApplyHead, OneField("a"), OneField("b")).err == Some(Mismatch(I32, I32))
  {
    var r, q := OneField("a"), OneField("b");
    var clash := ZipFields(r.fields, q.fields);
    assert clash == [Clash(Mismatch(I32, I32))];
    assert Unify(ApplyHead, r, q) == SolveFrom(ApplyHead, clash, map[]);
    hide Unify, Within, Grows, EqVars, EqSize;
  }

  lemma {:induction false} SolveTwo(r: Type, q: Type)
    requires Ftv(r) == {} && Ftv(q) == {}
    ensures SolveFrom(ApplyHead, [Equal(Var(0), r), Equal(Var(0), q)], map[]).err == Unify(ApplyHead, r, q).err
  {
    var p := [Equal(Var(0), r)];
    assert [Equal(Var(0), r), Equal(Var(0), q)] == p + [Equal(Var(0), q)];
    SolveAppend(ApplyHead, p, [Equal(Var(0), q)], map[]);
    SolveOne(ApplyHead, Var(0), r, map[]);
    ApplyEmpty(r);
    BindCall(ApplyHead, 0, r);
    ComposeEmpty(map[0 := r]);
    SolveOne(ApplyHead, Var(0), q, map[0 := r]);
    ApplyDisjoint(q, map[0 := r]);
  }

  lemma {:induction false} PairRun(r: Type, q: Type)
    ensures Unify(ApplyHead, Tuple([Var(0), Var(0)]), Tuple([r, q]))
            == SolveFrom(ApplyHead, [Equal(Var(0), r), Equal(Var(0), q)], map[])
  {
    assert Zip([Var(0), Var(0)], [r, q]) == [Equal(Var(0), r), Equal(Var(0), q)];
    hide SolveFrom, Within, Grows, EqVars, EqSize, Zip;
  }

  lemma {:induction false} PairMatches(r: Type, q: Type)
    requires Ftv(r) == {} && Ftv(q) == {} && Matches(App(DICT, I32), r) && Matches(App(DICT, I32), q)
    ensures var theta := map[0 := App(DICT, I32)];
            Matches(Apply(Tuple([Var(0), Var(0)]), theta), Apply(Tuple([r, q]), theta))
  {
    var theta := map[0 := App(DICT, I32)];
    ApplyDisjoint(r, theta);
    ApplyDisjoint(q, theta);
    assert Apply(Var(0), theta) == App(DICT, I32);
    hide Matches, Apply;
    TuplesMatch([Var(0), Var(0)], [r, q], theta);
  }

  /**
    Unification looks for a unifier in the strict sense first, so a solution up to the coercion may be
    missed: `(z, z)` against `({a: i32}, {b: i32})` fails, yet `z = Dict i32` matches both.
   */
  lemma {:induction false} CoercionIsNotSearched()
    ensures var r, q := Record([Field("a", I32)]), Record([Field("b", I32)]);
            var t1, t2, theta := Tuple([Var(0), Var(0)]), Tuple([r, q]), map[0 := App(DICT, I32)];
            && Unify(ApplyHead, t1, t2).err == Some(Mismatch(I32, I32))
            && Matches(Apply(t1, theta), Apply(t2, theta))
  {
    hide *;
    var r, q := OneField("a"), OneField("b");
    OneFieldFacts("a");
    OneFieldFacts("b");
    NamesClash();
    SolveTwo(r, q);
    PairRun(r, q);
    PairMatches(r, q);
  }
}

/**
  Solutions up to the record/`Dict` coercion. Erasing every non-empty record to the dictionary type of
  its first field turns them into solutions in the strict sense.
 */
module Coercion {
  import opened Wrappers
  import opened Types
  import opened Substitution
  import opened Unification
  import opened Matching
  import opened Soundness
  import opened Completeness

  function Erased(t: Type): Type
    decreases t
  {
    match t
    case Var(_) => t
    case Con(_) => t
    case App(h, a) => App(Erased(h), Erased(a))
    case Fun(a, b) => Fun(Erased(a), Erased(b))
    case Tuple(ts) => Tuple(seq(|ts|, i requires 0 <= i < |ts| => Erased(ts[i])))
    case Record(fs) => if fs == [] then t else App(DICT, Erased(fs[0].ty))
  }

  function ErasedSubst(s: Subst): Subst {
    map v | v in s :: Erased(s[v])
  }

  /** Matching types erase to one type. */
  lemma {:induction false} MatchesErase(a: Type, b: Type)
    requires Matches(a, b)
    ensures Erased(a) == Erased(b)
    decreases Size(a) + Size(b)
  {
    match (a, b)
    case (App(h1, a1), App(h2, a2)) => MatchesErase(h1, h2); MatchesErase(a1, a2);
    case (Fun(a1, b1), Fun(a2, b2)) => MatchesErase(a1, a2); MatchesErase(b1, b2);
    case (Tuple(ts), Tuple(us)) =>
      forall i | 0 <= i < |ts| ensures Erased(ts[i]) == Erased(us[i]) {
        SizeOfElem(ts, i);
        SizeOfElem(us, i);
        MatchesErase(ts[i], us[i]);
      }
    case (Record(fs), Record(gs)) =>
      if fs != [] {
        SizeOfField(fs, 0);
        SizeOfField(gs, 0);
        MatchesErase(fs[0].ty, gs[0].ty);
      }
    case (Record(fs), App(_, e)) =>
      SizeOfField(fs, 0);
      MatchesErase(e, fs[0].ty);
    case (App(_, e), Record(fs)) =>
      SizeOfField(fs, 0);
      MatchesErase(e, fs[0].ty);
    case _ =>
  }

  lemma {:induction false} ErasedApply(t: Type, s: Subst)
    ensures Erased(Apply(t, s)) == Apply(Erased(t), ErasedSubst(s))
    decreases t
  {
    match t
    case App(h, a) => ErasedApply(h, s); ErasedApply(a, s);
    case Fun(a, b) => ErasedApply(a, s); ErasedApply(b, s);
    case Tuple(ts) =>
      forall i | 0 <= i < |ts| ensures Erased(Apply(ts[i], s)) == Apply(Erased(ts[i]), ErasedSubst(s)) { ErasedApply(ts[i], s); }
    case Record(fs) => if fs != [] { ErasedApply(fs[0].ty, s); }
    case _ =>
  }

  lemma {:induction false} RecordFreeErased(t: Type)
    requires RecordFree(t)
    ensures Erased(t) == t
    decreases t
  {
    match t
    case App(h, a) =>
      assert Parts(t)[0] == h && Parts(t)[1] == a;
      RecordFreeErased(h);
      RecordFreeErased(a);
    case Fun(a, b) =>
      assert Parts(t)[0] == a && Parts(t)[1] == b;
      RecordFreeErased(a);
      RecordFreeErased(b);
    case Tuple(ts) =>
      forall i | 0 <= i < |ts| ensures Erased(ts[i]) == ts[i] {
        assert Parts(t)[i] == ts[i];
        RecordFreeErased(ts[i]);
      }
    case _ =>
  }

  /** A solution up to the coercion. */
  ghost predicate Reconciles(theta: Subst, t1: Type, t2: Type) {
    Matches(Apply(t1, theta), Apply(t2, theta))
  }

  lemma {:induction false} ErasedUnifies(theta: Subst, t1: Type, t2: Type)
    requires Reconciles(theta, t1, t2)
    ensures Unifies(ErasedSubst(theta), Erased(t1), Erased(t2))
  {
    MatchesErase(Apply(t1, theta), Apply(t2, theta));
    ErasedApply(t1, theta);
    ErasedApply(t2, theta);
  }

  /**
    What a solution up to the coercion takes, for all types: the erased types unify, under either rule,
    and its erasure factors through the result.
   */
  lemma {:induction false} ErasureIsNecessary(rule: HeadRule, t1: Type, t2: Type, theta: Subst)
    requires Reconciles(theta, t1, t2)
    ensures var o := Unify(rule, Erased(t1), Erased(t2)); o.err.None? && Absorbs(ErasedSubst(theta), o.s)
  {
    ErasedUnifies(theta, t1, t2);
    MostGeneral(rule, Erased(t1), Erased(t2), ErasedSubst(theta));
  }

  /**
    On types without records the search for a strict unifier misses nothing: success means that a solution
    up to the coercion exists.
   */
  lemma {:induction false} DecidesCoercion(t1: Type, t2: Type)
    requires RecordFree(t1) && RecordFree(t2)
    ensures Unify(ApplyHead, t1, t2).err.None? <==> exists theta :: Reconciles(theta, t1, t2)
  {
    hide Within, Resolved, Matches, Erased, ErasedSubst, RecordFree;
    if theta :| Reconciles(theta, t1, t2) {
      ErasureIsNecessary(ApplyHead, t1, t2, theta);
      RecordFreeErased(t1);
      RecordFreeErased(t2);
    }
    if Unify(ApplyHead, t1, t2).err.None? {
      UnifySound(t1, t2);
      assert Reconciles(Unify(ApplyHead, t1, t2).s, t1, t2);
    }
  }
}

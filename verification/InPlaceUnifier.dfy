/** The in-place unifier over a dense vector of bindings (rex-typesystem/src/unification.rs:11-186). */
module InPlaceUnifier {
  import opened Wrappers
  import opened Types
  import opened Substitution
  import opened Unification
  import opened Matching
  import opened Soundness
  import opened Loops
  import opened Agreement

  type Bindings = seq<Option<Type>>

  predicate IsBound(subs: Bindings, v: nat) {
    v < |subs| && subs[v].Some?
  }

  /** The binding graph is acyclic: along every edge between bound variables the rank goes down. */
  ghost predicate Ranked(subs: Bindings, rank: map<nat, nat>) {
    && (forall v: nat :: IsBound(subs, v) <==> v in rank)
    && (forall v, w :: v in rank && w in Ftv(subs[v].value) && w in rank ==> rank[w] < rank[v])
  }

  /** `sol` gives every bound variable its binding, resolved all the way down. */
  ghost predicate ResolvedBy(subs: Bindings, sol: Subst) {
    && (forall v: nat :: IsBound(subs, v) <==> v in sol)
    && Resolved(sol)
    && (forall v :: v in sol ==> sol[v] == Apply(subs[v].value, sol))
  }

  /** Acyclic bindings have one resolution only, so the ghost state below is determined by `subs`. */
  lemma {:induction false} ResolutionUnique(subs: Bindings, rank: map<nat, nat>, sol: Subst, sol': Subst)
    requires Ranked(subs, rank) && ResolvedBy(subs, sol) && ResolvedBy(subs, sol')
    ensures sol == sol'
  {
    forall v | v in sol ensures sol[v] == sol'[v] { SameResolution(subs, rank, sol, sol', v); }
  }

  lemma {:induction false} SameResolution(subs: Bindings, rank: map<nat, nat>, sol: Subst, sol': Subst, v: nat)
    requires Ranked(subs, rank) && ResolvedBy(subs, sol) && ResolvedBy(subs, sol') && v in sol
    ensures sol[v] == sol'[v]
    decreases rank[v]
  {
    forall w | w in Ftv(subs[v].value) ensures ApplyVar(w, sol) == ApplyVar(w, sol') {
      if w in sol { SameResolution(subs, rank, sol, sol', w); }
    }
    ApplyAgrees(subs[v].value, sol, sol');
  }

  lemma {:induction false} CompressionRanked(subs: Bindings, rank: map<nat, nat>, sol: Subst, v: nat)
    requires Ranked(subs, rank) && ResolvedBy(subs, sol) && v in sol
    ensures Ranked(subs[v := Some(sol[v])], rank)
  {
    var subs' := subs[v := Some(sol[v])];
    forall w | w in Ftv(sol[v]) ensures w !in rank { assert w in Range(sol); }
    assert forall w: nat :: w != v && w in rank ==> subs'[w] == subs[w];
    hide Resolved, Range, Ftv, Apply;
  }

  lemma {:induction false} CompressionResolved(subs: Bindings, sol: Subst, v: nat)
    requires ResolvedBy(subs, sol) && v in sol
    ensures ResolvedBy(subs[v := Some(sol[v])], sol)
  {
    ApplyDisjoint(sol[v], sol);
    hide Resolved, Range, Ftv, Apply;
  }

  /** Overwriting a binding by its resolution changes neither the resolution nor the ranking. */
  lemma {:induction false} Compression(subs: Bindings, rank: map<nat, nat>, sol: Subst, v: nat)
    requires Ranked(subs, rank) && ResolvedBy(subs, sol) && v in sol
    ensures Ranked(subs[v := Some(sol[v])], rank) && ResolvedBy(subs[v := Some(sol[v])], sol)
  {
    hide *;
    CompressionRanked(subs, rank, sol, v);
    CompressionResolved(subs, sol, v);
  }

  ghost predicate Extended(old_subs: Bindings, subs: Bindings, id: nat, ty: Type) {
    && |subs| == (if id < |old_subs| then |old_subs| else id + 1)
    && forall v: nat :: v < |subs| ==>
         subs[v] == if v == id then Some(ty) else if v < |old_subs| then old_subs[v] else None
  }

  /** Binding an unbound variable to a resolved type without it keeps the graph acyclic. */
  lemma {:induction false} Binding(subs: Bindings, subs': Bindings, rank: map<nat, nat>, sol: Subst, v: nat, t: Type)
    requires Ranked(subs, rank) && ResolvedBy(subs, sol) && Extended(subs, subs', v, t)
    requires v !in sol && v !in Ftv(t) && Ftv(t) !! sol.Keys
    ensures Ranked(subs', Raised(rank, v)) && ResolvedBy(subs', Compose(map[v := t], sol))
  {
    var s := map[v := t];
    var c := Compose(s, sol);
    ResolvedCompose(s, sol);
    forall w: nat ensures IsBound(subs', w) <==> w in c {}
    forall w | w in c ensures c[w] == Apply(subs'[w].value, c) {
      if w == v {
        ApplyDisjoint(t, c);
      } else {
        ComposeApply(subs[w].value, s, sol);
      }
    }
  }

  function Raised(rank: map<nat, nat>, v: nat): map<nat, nat> {
    (map w | w in rank :: rank[w] + 1)[v := 0]
  }

  /** The parts of a resolved type are resolved, and smaller. */
  lemma {:induction false} PartsResolved(t: Type, sol: Subst)
    requires Ftv(t) !! sol.Keys
    ensures forall i :: 0 <= i < |Parts(t)| ==> Apply(Parts(t)[i], sol) == Parts(t)[i] && Size(Parts(t)[i]) < Size(t)
  {
    forall i | 0 <= i < |Parts(t)|
      ensures Apply(Parts(t)[i], sol) == Parts(t)[i] && Size(Parts(t)[i]) < Size(t)
    {
      FtvOfPart(t, i);
      ApplyDisjoint(Parts(t)[i], sol);
      SizeOfPart(t, i);
    }
  }

  ghost predicate Two(id: nat, t: Type, x: Type, y: Type, sol: Subst) {
    && Apply(x, sol) == x && Size(x) < Size(t) && Apply(y, sol) == y && Size(y) < Size(t)
    && (id in Ftv(t) <==> id in Ftv(x) || id in Ftv(y))
  }

  ghost predicate Several(id: nat, t: Type, ts: seq<Type>, sol: Subst) {
    && (forall i :: 0 <= i < |ts| ==> Apply(ts[i], sol) == ts[i] && Size(ts[i]) < Size(t))
    && (id in Ftv(t) <==> exists i :: 0 <= i < |ts| && id in Ftv(ts[i]))
  }

  /** A resolved type, and a variable in it, part by part. */
  lemma {:induction false} PartsOnTheirOwn(id: nat, t: Type, sol: Subst)
    requires Ftv(t) !! sol.Keys
    ensures match t
            case Var(v) => id in Ftv(t) <==> v == id
            case Con(_) => id !in Ftv(t)
            case App(l, r) => Two(id, t, l, r, sol)
            case Fun(x, y) => Two(id, t, x, y, sol)
            case Tuple(ts) => Several(id, t, ts, sol)
            case Record(_) => Several(id, t, Parts(t), sol)
  {
    PartsResolved(t, sol);
    if !t.Var? { FtvOfParts(t, id); }
    match t
    case App(l, r) => assert Parts(t)[0] == l && Parts(t)[1] == r;
    case Fun(x, y) => assert Parts(t)[0] == x && Parts(t)[1] == y;
    case Tuple(ts) => assert Parts(t) == ts;
    case _ =>
  }

  lemma {:induction false} UnifyByPlan(t1: Type, t2: Type, eqs: seq<Eq>)
    requires PlanFor(t1, t2) == Solve(eqs)
    ensures Unify(ApplyHead, t1, t2) == SolveFrom(ApplyHead, eqs, map[])
  {
    hide Within, Grows, EqVars, EqSize, SolveFrom;
  }

  /** The equations of a call on resolved types, run against the solution they are resolved by. */
  lemma {:induction false} RunResolved(t1: Type, t2: Type, eqs: seq<Eq>, sol: Subst)
    requires PlanFor(t1, t2) == Solve(eqs) && Vars(t1, t2) !! sol.Keys
    ensures SolveFrom(ApplyHead, eqs, sol)
            == Outcome(Compose(Unify(ApplyHead, t1, t2).s, sol), Unify(ApplyHead, t1, t2).err)
  {
    PartsAvoid(t1, t2, eqs, sol.Keys);
    UnifyByPlan(t1, t2, eqs);
    hide *;
    CarryFromEmpty(eqs, sol);
  }

  lemma {:induction false} CarryFromEmpty(eqs: seq<Eq>, sol: Subst)
    requires Avoids(eqs, sol.Keys)
    ensures var o := SolveFrom(ApplyHead, eqs, map[]);
            SolveFrom(ApplyHead, eqs, sol) == Outcome(Compose(o.s, sol), o.err)
  {
    assert Range(map[]) == {};
    hide *;
    EmptyResolved();
    ComposeEmpty(sol);
    CarriesAlong(eqs, map[], sol);
  }

  lemma {:induction false} FitsResolved(t1: Type, t2: Type, eqs: seq<Eq>, sol: Subst)
    requires PlanFor(t1, t2) == Solve(eqs) && Vars(t1, t2) !! sol.Keys
    ensures Fits(eqs, 0, sol, |Vars(t1, t2)|, Size(t1) + Size(t2))
  {
    hide *;
    PartsAvoid(t1, t2, eqs, sol.Keys);
    EqsUnchanged(eqs, sol);
    SolveMeasure(t1, t2, eqs);
    FitsAtStart(eqs, sol, |Vars(t1, t2)|, Size(t1) + Size(t2));
  }

  lemma {:induction false} SolveMeasure(t1: Type, t2: Type, eqs: seq<Eq>)
    requires PlanFor(t1, t2) == Solve(eqs)
    ensures |EqVars(eqs, map[])| <= |Vars(t1, t2)| && EqSize(eqs, map[]) < Size(t1) + Size(t2)
  {
    hide *;
    SolveIsSmaller(t1, t2, eqs);
  }

  lemma {:induction false} PartsAvoid(t1: Type, t2: Type, eqs: seq<Eq>, vs: set<nat>)
    requires PlanFor(t1, t2) == Solve(eqs) && Vars(t1, t2) !! vs
    ensures Avoids(eqs, vs)
  {
    hide PlanFor;
    forall i | 0 <= i < |eqs| && eqs[i].Equal? ensures Vars(eqs[i].lhs, eqs[i].rhs) !! vs {
      EqIsSmaller(t1, t2, eqs, i);
    }
  }

  lemma {:induction false} EqsUnchanged(eqs: seq<Eq>, sol: Subst)
    requires Avoids(eqs, sol.Keys)
    ensures EqVars(eqs, sol) == EqVars(eqs, map[]) && EqSize(eqs, sol) == EqSize(eqs, map[])
    decreases |eqs|
  {
    if eqs != [] {
      assert Avoids(eqs[1..], sol.Keys);
      EqsUnchanged(eqs[1..], sol);
      if eqs[0].Equal? {
        assert Vars(eqs[0].lhs, eqs[0].rhs) !! sol.Keys;
        ApplyDisjoint(eqs[0].lhs, sol);
        ApplyDisjoint(eqs[0].rhs, sol);
        ApplyEmpty(eqs[0].lhs);
        ApplyEmpty(eqs[0].rhs);
      }
    }
  }

  /** What a loop over the equations of a call starts from. */
  lemma {:induction false} LoopStart(t1: Type, t2: Type, eqs: seq<Eq>, sol: Subst)
    requires PlanFor(t1, t2) == Solve(eqs) && Vars(t1, t2) !! sol.Keys
    ensures var o := Unify(ApplyHead, t1, t2);
            SolveFrom(ApplyHead, eqs[0..], sol) == Outcome(Compose(o.s, sol), o.err)
    ensures Fits(eqs, 0, sol, |Vars(t1, t2)|, Size(t1) + Size(t2))
  {
    hide *;
    RunResolved(t1, t2, eqs, sol);
    FitsResolved(t1, t2, eqs, sol);
    assert eqs[0..] == eqs;
  }

  /** The calls that end at once. */
  lemma {:induction false} LeafOutcome(t1: Type, t2: Type)
    ensures match PlanFor(t1, t2)
            case Fail(e) => Unify(ApplyHead, t1, t2) == Outcome(map[], Some(e))
            case Bind(v, t) =>
              Unify(ApplyHead, t1, t2)
              == if v in Ftv(t) then Outcome(map[], Some(Occurs(v, t))) else Outcome(map[v := t], None)
            case Solve(eqs) => eqs == [] ==> Unify(ApplyHead, t1, t2) == Outcome(map[], None)
            case Elems(head, fields, _) =>
              fields == [] ==> Unify(ApplyHead, t1, t2) == Outcome(HeadSubst(head), Some(EmptyRecord))
  {
    LoopEnd(ApplyHead, [], map[]);
    hide Within, Grows, EqVars, EqSize, Size, Ftv;
  }

  lemma {:induction false} ElemEqsAt(fields: seq<Field>, arg: Type)
    requires fields != []
    ensures var eqs := ElemEqs(fields) + [Equal(arg, fields[0].ty)];
            && |eqs| == |fields| && eqs[|fields| - 1] == Equal(arg, fields[0].ty)
            && forall i :: 0 < i < |fields| ==> eqs[i - 1] == Equal(fields[0].ty, fields[i].ty)
  {
  }

  lemma {:induction false} VarIsFree(v: nat, t1: Type, t2: Type, sol: Subst)
    requires t1 == Var(v) || t2 == Var(v)
    requires Vars(t1, t2) !! sol.Keys
    ensures v !in sol
  {
    assert Ftv(Var(v)) == {v};
  }

  /** Binding the head variable, as the in-place unifier does it first. */
  lemma {:induction false} HeadCall(v: nat, t1: Type, t2: Type, sol: Subst)
    requires PlanFor(t1, t2).Elems? && PlanFor(t1, t2).head == Some(v) && Vars(t1, t2) !! sol.Keys
    ensures Apply(Var(v), sol) == Var(v) && Apply(DICT, sol) == DICT
    ensures Unify(ApplyHead, Var(v), DICT) == Outcome(HeadSubst(Some(v)), None)
    ensures |Vars(Var(v), DICT)| <= |Vars(t1, t2)| && Size(Var(v)) + Size(DICT) < Size(t1) + Size(t2)
  {
    ElemsParts(t1, t2);
    assert Ftv(Var(v)) == {v} && v in HeadSubst(Some(v));
    FewerVars(Vars(Var(v), DICT), Vars(t1, t2));
  }

  /** What solving the fields and the argument starts from once the head is bound. */
  lemma {:induction false} ElemsStart(t1: Type, t2: Type, sol: Subst)
    requires PlanFor(t1, t2).Elems? && PlanFor(t1, t2).fields != [] && Vars(t1, t2) !! sol.Keys
    ensures var Elems(head, fields, arg) := PlanFor(t1, t2);
            var eqs, h := ElemEqs(fields) + [Equal(arg, fields[0].ty)], HeadSubst(head);
            var o := Unify(ApplyHead, t1, t2);
            && SolveFrom(ApplyHead, eqs[0..], Compose(h, sol)) == Outcome(Compose(o.s, sol), o.err)
            && Fits(eqs, 0, Compose(h, sol), |Vars(t1, t2)|, Size(t1) + Size(t2))
  {
    hide *;
    var Elems(head, fields, arg) := PlanFor(t1, t2);
    var eqs, h := ElemEqs(fields) + [Equal(arg, fields[0].ty)], HeadSubst(head);
    assert eqs[0..] == eqs;
    ElemsRun(t1, t2);
    ElemsIsSmaller(t1, t2);
    ElemsAvoid(t1, t2, sol.Keys);
    HeadResolved(head);
    CarriesAlong(eqs, h, sol);
    EqsCarried(eqs, h, sol);
    FitsAtStart(eqs, Compose(h, sol), |Vars(t1, t2)|, Size(t1) + Size(t2));
  }

  lemma {:induction false} ElemsAvoid(t1: Type, t2: Type, vs: set<nat>)
    requires PlanFor(t1, t2).Elems? && PlanFor(t1, t2).fields != [] && Vars(t1, t2) !! vs
    ensures var Elems(head, fields, arg) := PlanFor(t1, t2);
            && Avoids(ElemEqs(fields) + [Equal(arg, fields[0].ty)], vs)
            && HeadSubst(head).Keys !! vs && Range(HeadSubst(head)) !! vs
  {
    ElemsParts(t1, t2);
    FieldsAreSmaller(PlanFor(t1, t2).fields);
  }

  lemma {:induction false} EqsCarried(eqs: seq<Eq>, x: Subst, h: Subst)
    requires Avoids(eqs, h.Keys) && x.Keys !! h.Keys
    ensures EqVars(eqs, Compose(x, h)) == EqVars(eqs, x) && EqSize(eqs, Compose(x, h)) == EqSize(eqs, x)
    decreases |eqs|
  {
    if eqs != [] {
      assert Avoids(eqs[1..], h.Keys);
      EqsCarried(eqs[1..], x, h);
      if eqs[0].Equal? {
        assert Vars(eqs[0].lhs, eqs[0].rhs) !! h.Keys;
        AvoidingApply(eqs[0].lhs, x, h);
        AvoidingApply(eqs[0].rhs, x, h);
      }
    }
  }

  lemma {:induction false} FtvOfElem(ts: seq<Type>, i: nat)
    requires i < |ts|
    ensures Ftv(ts[i]) <= Ftv(Tuple(ts))
  {
  }

  lemma {:induction false} FtvOfField(fields: seq<Field>, i: nat)
    requires i < |fields|
    ensures Ftv(fields[i].ty) <= Ftv(Record(fields))
  {
  }

  lemma {:induction false} ApplyTuple(ts: seq<Type>, s: Subst, out: seq<Type>)
    requires |out| == |ts| && forall i :: 0 <= i < |ts| ==> out[i] == Apply(ts[i], s)
    ensures Apply(Tuple(ts), s) == Tuple(out)
  {
  }

  lemma {:induction false} ApplyRecord(fields: seq<Field>, s: Subst, out: seq<Field>)
    requires |out| == |fields|
    requires forall i :: 0 <= i < |fields| ==> out[i] == Field(fields[i].name, Apply(fields[i].ty, s))
    ensures Apply(Record(fields), s) == Record(out)
  {
  }

  lemma {:induction false} BothAvoid(t1: Type, t2: Type, sol: Subst)
    requires Vars(t1, t2) !! sol.Keys
    ensures Ftv(t1) !! sol.Keys && Ftv(t2) !! sol.Keys
  {
  }

  lemma {:induction false} BindingOutcome(t1: Type, t2: Type)
    ensures var o := Unify(ApplyHead, t1, t2);
            && (t1.Var? && t1 == t2 ==> o == Outcome(map[], None))
            && (t1.Var? && t1 != t2 ==> o == BindOutcome(t1.id, t2))
            && (t2.Var? && !t1.Var? ==> o == BindOutcome(t2.id, t1))
  {
    LeafOutcome(t1, t2);
    hide Unify, Ftv;
  }

  ghost function BindOutcome(v: nat, t: Type): Outcome {
    if v in Ftv(t) then Outcome(map[], Some(Occurs(v, t))) else Outcome(map[v := t], None)
  }

  lemma {:induction false} MismatchUnless(t1: Type, t2: Type)
    requires !t1.Var? && !t2.Var?
    ensures var o := Unify(ApplyHead, t1, t2);
            match (t1, t2)
            case (Con(c1), Con(c2)) => o == Outcome(map[], if c1 == c2 then None else Some(Mismatch(t1, t2)))
            case (App(l1, r1), App(l2, r2)) => PlanFor(t1, t2) == Solve([Equal(l1, l2), Equal(r1, r2)])
            case (Fun(a1, b1), Fun(a2, b2)) => PlanFor(t1, t2) == Solve([Equal(a1, a2), Equal(b1, b2)])
            case (Tuple(ts), Tuple(us)) => |ts| != |us| ==> o == Outcome(map[], Some(Mismatch(t1, t2)))
            case (Record(fs), Record(gs)) => |fs| != |gs| ==> o == Outcome(map[], Some(Mismatch(t1, t2)))
            case (Record(_), App(_, _)) => true
            case (App(_, _), Record(_)) => true
            case _ => o == Outcome(map[], Some(Mismatch(t1, t2)))
  {
    LeafOutcome(t1, t2);
    hide Unify, Zip, ZipFields, PlanRecordApp, Ftv;
  }

  class Unifier {
    var subs: Bindings
    ghost var sol: Subst
    ghost var rank: map<nat, nat>
    ghost var top: nat

    ghost predicate Valid()
      reads this
    {
      && Ranked(subs, rank)
      && ResolvedBy(subs, sol)
      && forall v :: v in rank ==> rank[v] < top
    }

    constructor ()
      ensures Valid() && sol == map[]
    {
      subs := [];
      sol, rank, top := map[], map[], 0;
    }

    method BindVar(id: nat, ty: Type)
      modifies `subs
      ensures Extended(old(subs), subs, id, ty)
    {
      if id >= |subs| {
        subs := subs + seq(id + 1 - |subs|, _ => None);
      }
      subs := subs[id := Some(ty)];
    }

    /** The resolved type; on the way every binding followed is replaced by its resolution. */
    method Prune(ty: Type, ghost depth: nat) returns (r: Type)
      requires Valid()
      requires forall v :: v in Ftv(ty) && v in rank ==> rank[v] < depth
      modifies `subs
      ensures Valid() && |subs| == old(|subs|)
      ensures r == Apply(ty, sol)
      decreases depth, ty, 1
    {
      match ty
      case Var(v) =>
        r := PruneVar(v, depth);
      case Con(_) =>
        r := ty;
      case App(l, a) =>
        var l' := Prune(l, depth);
        var a' := Prune(a, depth);
        r := App(l', a');
      case Fun(a, b) =>
        var a' := Prune(a, depth);
        var b' := Prune(b, depth);
        r := Fun(a', b');
      case Tuple(ts) =>
        var out := PruneAll(ts, ty, depth);
        r := Tuple(out);
      case Record(fields) =>
        var out := PruneFields(fields, ty, depth);
        r := Record(out);
    }

    method PruneVar(v: nat, ghost depth: nat) returns (r: Type)
      requires Valid()
      requires v in rank ==> rank[v] < depth
      modifies `subs
      ensures Valid() && |subs| == old(|subs|)
      ensures r == ApplyVar(v, sol)
      decreases depth, Var(v), 0
    {
      hide Apply, Ftv, Resolved;
      if v < |subs| && subs[v].Some? {
        var pruned := Prune(subs[v].value, rank[v]);
        Compression(subs, rank, sol, v);
        ghost var was := subs;
        BindVar(v, pruned);
        assert subs == was[v := Some(pruned)];
        r := pruned;
      } else {
        r := Var(v);
      }
    }

    method PruneAll(ts: seq<Type>, ghost ty: Type, ghost depth: nat) returns (out: seq<Type>)
      requires Valid() && ty == Tuple(ts)
      requires forall v :: v in Ftv(ty) && v in rank ==> rank[v] < depth
      modifies `subs
      ensures Valid() && |subs| == old(|subs|)
      ensures Apply(ty, sol) == Tuple(out)
      decreases depth, ty, 0
    {
      hide Valid, Ranked, ResolvedBy, Apply, Ftv;
      out := [];
      for i := 0 to |ts|
        invariant Valid() && |subs| == old(|subs|)
        invariant |out| == i && forall j :: 0 <= j < i ==> out[j] == Apply(ts[j], sol)
      {
        FtvOfElem(ts, i);
        var t := Prune(ts[i], depth);
        out := out + [t];
      }
      ApplyTuple(ts, sol, out);
    }

    method PruneFields(fields: seq<Field>, ghost ty: Type, ghost depth: nat) returns (out: seq<Field>)
      requires Valid() && ty == Record(fields)
      requires forall v :: v in Ftv(ty) && v in rank ==> rank[v] < depth
      modifies `subs
      ensures Valid() && |subs| == old(|subs|)
      ensures Apply(ty, sol) == Record(out)
      decreases depth, ty, 0
    {
      hide Valid, Ranked, ResolvedBy, Apply, Ftv;
      out := [];
      for i := 0 to |fields|
        invariant Valid() && |subs| == old(|subs|)
        invariant |out| == i && forall j :: 0 <= j < i ==> out[j] == Field(fields[j].name, Apply(fields[j].ty, sol))
      {
        FtvOfField(fields, i);
        var t := Prune(fields[i].ty, depth);
        out := out + [Field(fields[i].name, t)];
      }
      ApplyRecord(fields, sol, out);
    }

    method ApplyType(ty: Type) returns (r: Type)
      requires Valid()
      modifies `subs
      ensures Valid() && r == Apply(ty, sol)
    {
      r := Prune(ty, top);
    }

    /** Whether the variable occurs in the resolved type. */
    method Occurs(id: nat, ty: Type) returns (b: bool)
      requires Valid()
      modifies `subs
      ensures Valid() && (b <==> id in Ftv(Apply(ty, sol)))
      decreases Size(Apply(ty, sol)), 1
    {
      AlreadyResolved(ty);
      PartsOnTheirOwn(id, Apply(ty, sol), sol);
      TopBounds();
      hide Valid, Ranked, ResolvedBy, Apply, Size, Ftv, FtvAll, FtvFields, Compose, Parts;
      var pruned := Prune(ty, top);
      match pruned
      case Var(v) =>
        b := v == id;
      case Con(_) =>
        b := false;
      case App(l, r) =>
        b := Occurs(id, l);
        if !b { b := Occurs(id, r); }
      case Fun(x, y) =>
        b := Occurs(id, x);
        if !b { b := Occurs(id, y); }
      case Tuple(ts) =>
        b := OccursInAny(id, ts, Size(pruned));
      case Record(fields) =>
        b := OccursInAny(id, Parts(pruned), Size(pruned));
    }

    method OccursInAny(id: nat, ts: seq<Type>, ghost size: nat) returns (b: bool)
      requires Valid()
      requires forall i :: 0 <= i < |ts| ==> Apply(ts[i], sol) == ts[i] && Size(ts[i]) < size
      modifies `subs
      ensures Valid() && (b <==> exists i :: 0 <= i < |ts| && id in Ftv(ts[i]))
      decreases size, 0
    {
      hide Ranked, ResolvedBy, Apply, Size, Ftv;
      b := false;
      for i := 0 to |ts|
        invariant Valid() && !b
        invariant forall j :: 0 <= j < i ==> id !in Ftv(ts[j])
      {
        b := Occurs(id, ts[i]);
        if b { return; }
      }
    }

    lemma {:induction false} AlreadyResolved(ty: Type)
      requires Valid()
      ensures Ftv(Apply(ty, sol)) !! sol.Keys && Apply(Apply(ty, sol), sol) == Apply(ty, sol)
      ensures Compose(map[], sol) == sol
    {
      ResolvedClears(ty, sol);
      ComposeEmpty(sol);
    }

    /**
      Unifies the two types as resolved so far. On every exit, failures included, the solution is the
      old one with the specification's substitution composed onto it.
     */
    method Unify(ty1: Type, ty2: Type) returns (err: Option<TypeError>)
      requires Valid()
      modifies this
      ensures Valid()
      ensures var o := Unification.Unify(ApplyHead, Apply(ty1, old(sol)), Apply(ty2, old(sol)));
              err == o.err && sol == Compose(o.s, old(sol))
      decreases |Vars(Apply(ty1, sol), Apply(ty2, sol))|, Size(Apply(ty1, sol)) + Size(Apply(ty2, sol)), 3
    {
      BothResolved(ty1, ty2);
      hide *;
      TopBounds();
      var t1 := Prune(ty1, top);
      var t2 := Prune(ty2, top);
      err := UnifyPruned(t1, t2);
    }

    lemma {:induction false} BothResolved(ty1: Type, ty2: Type)
      requires Valid()
      ensures Vars(Apply(ty1, sol), Apply(ty2, sol)) !! sol.Keys
      ensures Apply(Apply(ty2, sol), sol) == Apply(ty2, sol)
    {
      AlreadyResolved(ty1);
      AlreadyResolved(ty2);
    }

    lemma {:induction false} TopBounds()
      requires Valid()
      ensures forall v :: v in rank ==> rank[v] < top
    {
    }

    /** The case analysis on two resolved types. */
    method UnifyPruned(t1: Type, t2: Type) returns (err: Option<TypeError>)
      requires Valid()
      requires Vars(t1, t2) !! sol.Keys
      modifies this
      ensures Valid()
      ensures var o := Unification.Unify(ApplyHead, t1, t2);
              err == o.err && sol == Compose(o.s, old(sol))
      decreases |Vars(t1, t2)|, Size(t1) + Size(t2), 2, 1
    {
      hide *;
      AlreadyResolved(t1);
      BindingOutcome(t1, t2);
      BothAvoid(t1, t2, sol);
      if t1.Var? && t1 == t2 {
        err := None;
      } else if t1.Var? {
        VarIsFree(t1.id, t1, t2, sol);
        err := CheckAndBind(t1.id, t2);
      } else if t2.Var? {
        VarIsFree(t2.id, t1, t2, sol);
        err := CheckAndBind(t2.id, t1);
      } else {
        err := UnifyShapes(t1, t2);
      }
    }

    /** The remaining cases, neither type a variable. */
    method UnifyShapes(t1: Type, t2: Type) returns (err: Option<TypeError>)
      requires Valid()
      requires Vars(t1, t2) !! sol.Keys && !t1.Var? && !t2.Var?
      modifies this
      ensures Valid()
      ensures var o := Unification.Unify(ApplyHead, t1, t2);
              err == o.err && sol == Compose(o.s, old(sol))
      decreases |Vars(t1, t2)|, Size(t1) + Size(t2), 2, 0
    {
      hide *;
      AlreadyResolved(t1);
      MismatchUnless(t1, t2);
      match (t1, t2)
      case (Con(c1), Con(c2)) =>
        err := if c1 == c2 then None else Some(Mismatch(t1, t2));
      case (App(l1, r1), App(l2, r2)) =>
        err := UnifyTwo(t1, t2, l1, l2, r1, r2);
      case (Fun(a1, b1), Fun(a2, b2)) =>
        err := UnifyTwo(t1, t2, a1, a2, b1, b2);
      case (Tuple(ts1), Tuple(ts2)) =>
        if |ts1| != |ts2| {
          return Some(Mismatch(t1, t2));
        }
        err := UnifyElems(t1, t2);
      case (Record(f1), Record(f2)) =>
        if |f1| != |f2| {
          return Some(Mismatch(t1, t2));
        }
        err := UnifyFields(t1, t2);
      case (Record(fields), App(head, arg)) =>
        err := UnifyRecordApp(t1, t2, fields, head, arg);
      case (App(head, arg), Record(fields)) =>
        err := UnifyRecordApp(t1, t2, fields, head, arg);
      case _ =>
        err := Some(Mismatch(t1, t2));
    }

    /** The variable case: the occurs check, then the binding. */
    method CheckAndBind(v: nat, other: Type) returns (err: Option<TypeError>)
      requires Valid()
      requires v !in sol && Ftv(other) !! sol.Keys
      modifies this
      ensures Valid()
      ensures err == BindOutcome(v, other).err && sol == Compose(BindOutcome(v, other).s, old(sol))
    {
      ApplyDisjoint(other, sol);
      ComposeEmpty(sol);
      hide Compose, Apply, Resolved, Ranked, ResolvedBy, Ftv, Raised;
      var b := Occurs(v, other);
      if b {
        err := Some(TypeError.Occurs(v, other));
      } else {
        BindFree(v, other);
        err := None;
      }
    }

    method BindFree(v: nat, t: Type)
      requires Valid()
      requires v !in sol && v !in Ftv(t) && Ftv(t) !! sol.Keys
      modifies this
      ensures Valid() && sol == Compose(map[v := t], old(sol))
    {
      hide Compose, Apply, Resolved, Ranked, ResolvedBy, Ftv;
      ghost var was := subs;
      BindVar(v, t);
      Binding(was, subs, rank, sol, v, t);
      sol, rank, top := Compose(map[v := t], sol), Raised(rank, v), top + 1;
    }

    /** Two component pairs in turn, the second under what the first has bound. */
    method UnifyTwo(ghost t1: Type, ghost t2: Type, a1: Type, a2: Type, b1: Type, b2: Type)
      returns (err: Option<TypeError>)
      requires Valid()
      requires PlanFor(t1, t2) == Solve([Equal(a1, a2), Equal(b1, b2)]) && Vars(t1, t2) !! sol.Keys
      modifies this
      ensures Valid()
      ensures var o := Unification.Unify(ApplyHead, t1, t2);
              err == o.err && sol == Compose(o.s, old(sol))
      decreases |Vars(t1, t2)|, Size(t1) + Size(t2), 1
    {
      hide *;
      ghost var eqs := [Equal(a1, a2), Equal(b1, b2)];
      ghost var vars, size := |Vars(t1, t2)|, Size(t1) + Size(t2);
      LoopStart(t1, t2, eqs, sol);
      LoopStep(ApplyHead, eqs, 0, sol, vars, size);
      err := Unify(a1, a2);
      if err.Some? { return; }
      LoopStep(ApplyHead, eqs, 1, sol, vars, size);
      err := Unify(b1, b2);
      LoopEnd(ApplyHead, eqs, sol);
    }

    /** The zip over two tuples of one length. */
    method UnifyElems(t1: Type, t2: Type) returns (err: Option<TypeError>)
      requires Valid()
      requires t1.Tuple? && t2.Tuple? && |t1.elems| == |t2.elems| && Vars(t1, t2) !! sol.Keys
      modifies this
      ensures Valid()
      ensures var o := Unification.Unify(ApplyHead, t1, t2);
              err == o.err && sol == Compose(o.s, old(sol))
      decreases |Vars(t1, t2)|, Size(t1) + Size(t2), 1
    {
      hide *;
      ghost var eqs := Zip(t1.elems, t2.elems);
      ghost var vars, size := |Vars(t1, t2)|, Size(t1) + Size(t2);
      TuplePlan(t1, t2);
      LoopStart(t1, t2, eqs, sol);
      ghost var goal := SolveFrom(ApplyHead, eqs[0..], sol);
      for i := 0 to |t1.elems|
        invariant Valid()
        invariant SolveFrom(ApplyHead, eqs[i..], sol) == goal
        invariant Fits(eqs, i, sol, vars, size)
      {
        ZipAt(t1.elems, t2.elems, i);
        LoopStep(ApplyHead, eqs, i, sol, vars, size);
        err := Unify(t1.elems[i], t2.elems[i]);
        if err.Some? { return; }
      }
      LoopEnd(ApplyHead, eqs, sol);
      err := None;
    }

    /** The zip over two records with as many fields, stopping at the first name that differs. */
    method UnifyFields(t1: Type, t2: Type) returns (err: Option<TypeError>)
      requires Valid()
      requires t1.Record? && t2.Record? && |t1.fields| == |t2.fields| && Vars(t1, t2) !! sol.Keys
      modifies this
      ensures Valid()
      ensures var o := Unification.Unify(ApplyHead, t1, t2);
              err == o.err && sol == Compose(o.s, old(sol))
      decreases |Vars(t1, t2)|, Size(t1) + Size(t2), 1
    {
      hide *;
      ghost var eqs := ZipFields(t1.fields, t2.fields);
      ghost var vars, size := |Vars(t1, t2)|, Size(t1) + Size(t2);
      RecordPlan(t1, t2);
      LoopStart(t1, t2, eqs, sol);
      ghost var goal := SolveFrom(ApplyHead, eqs[0..], sol);
      for i := 0 to |t1.fields|
        invariant Valid()
        invariant SolveFrom(ApplyHead, eqs[i..], sol) == goal
        invariant Fits(eqs, i, sol, vars, size)
      {
        ZipFieldsAt(t1.fields, t2.fields, i);
        LoopStep(ApplyHead, eqs, i, sol, vars, size);
        var (f1, f2) := (t1.fields[i], t2.fields[i]);
        if f1.name != f2.name {
          return Some(Mismatch(f1.ty, f2.ty));
        }
        err := Unify(f1.ty, f2.ty);
        if err.Some? { return; }
      }
      LoopEnd(ApplyHead, eqs, sol);
      err := None;
    }

    /** A record met by an application, in either order. */
    method UnifyRecordApp(t1: Type, t2: Type, fields: seq<Field>, head: Type, arg: Type)
      returns (err: Option<TypeError>)
      requires Valid()
      requires (t1 == Record(fields) && t2 == App(head, arg)) || (t1 == App(head, arg) && t2 == Record(fields))
      requires Vars(t1, t2) !! sol.Keys
      modifies this
      ensures Valid()
      ensures var o := Unification.Unify(ApplyHead, t1, t2);
              err == o.err && sol == Compose(o.s, old(sol))
      decreases |Vars(t1, t2)|, Size(t1) + Size(t2), 1
    {
      hide *;
      AlreadyResolved(t1);
      LeafOutcome(t1, t2);
      RecordAppPlan(t1, t2, fields, head, arg);
      ghost var vars, size := |Vars(t1, t2)|, Size(t1) + Size(t2);
      ghost var eqs := if fields == [] then [] else ElemEqs(fields) + [Equal(arg, fields[0].ty)];
      if fields != [] && PlanFor(t1, t2).Elems? { ElemsStart(t1, t2, sol); }
      match head
      case Con(Builtin(Dict)) =>
        err := UnifyElemType(fields, arg, eqs, vars, size);
      case Var(v) =>
        HeadCall(v, t1, t2, sol);
        err := Unify(Var(v), DICT);
        err := UnifyElemType(fields, arg, eqs, vars, size);
      case _ =>
        err := Some(Mismatch(t1, t2));
    }

    /** The element type of the fields, then the dictionary's argument against it. */
    method UnifyElemType(fields: seq<Field>, arg: Type, ghost eqs: seq<Eq>, ghost vars: nat, ghost size: nat)
      returns (err: Option<TypeError>)
      requires Valid()
      requires fields != [] ==> eqs == ElemEqs(fields) + [Equal(arg, fields[0].ty)] && Fits(eqs, 0, sol, vars, size)
      modifies this
      ensures Valid()
      ensures fields == [] ==> err == Some(EmptyRecord) && sol == old(sol)
      ensures fields != [] ==> SolveFrom(ApplyHead, eqs[0..], old(sol)) == Outcome(sol, err)
      decreases vars, size, 0, 1
    {
      hide *;
      if fields != [] { ElemEqsAt(fields, arg); }
      var elem := RecordElemType(fields, eqs, vars, size);
      if elem.Err? {
        return Some(elem.error);
      }
      LoopStep(ApplyHead, eqs, |fields| - 1, sol, vars, size);
      AlreadyResolved(fields[0].ty);
      err := Unify(arg, elem.value);
      LoopEnd(ApplyHead, eqs, sol);
    }

    /** Unifies every later field with the first; the result is what the first then resolves to. */
    method RecordElemType(fields: seq<Field>, ghost eqs: seq<Eq>, ghost vars: nat, ghost size: nat)
      returns (r: Result<Type, TypeError>)
      requires Valid()
      requires fields != [] ==>
                 |eqs| >= |fields| - 1 && (forall i :: 0 < i < |fields| ==> eqs[i - 1] == Equal(fields[0].ty, fields[i].ty))
                 && Fits(eqs, 0, sol, vars, size)
      modifies this
      ensures Valid()
      ensures fields == [] ==> r == Err(EmptyRecord) && sol == old(sol)
      ensures fields != [] ==>
                match r
                case Ok(elem) =>
                  && elem == Apply(fields[0].ty, sol)
                  && SolveFrom(ApplyHead, eqs[0..], old(sol)) == SolveFrom(ApplyHead, eqs[|fields| - 1..], sol)
                  && Fits(eqs, |fields| - 1, sol, vars, size)
                case Err(e) => SolveFrom(ApplyHead, eqs[0..], old(sol)) == Outcome(sol, Some(e))
      decreases vars, size, 0, 0
    {
      hide *;
      if fields == [] {
        return Err(EmptyRecord);
      }
      var first := fields[0].ty;
      ghost var goal := SolveFrom(ApplyHead, eqs[0..], sol);
      for i := 1 to |fields|
        invariant Valid()
        invariant SolveFrom(ApplyHead, eqs[i - 1..], sol) == goal
        invariant Fits(eqs, i - 1, sol, vars, size)
      {
        LoopStep(ApplyHead, eqs, i - 1, sol, vars, size);
        var err := Unify(first, fields[i].ty);
        if err.Some? {
          return Err(err.value);
        }
      }
      var elem := ApplyType(first);
      r := Ok(elem);
    }

    lemma {:induction false} BoundHere(id: nat)
      requires Valid() && id < |subs|
      ensures id in sol <==> subs[id].Some?
      ensures id in sol ==> Apply(subs[id].value, sol) == sol[id]
    {
    }

    lemma {:induction false} BoundBelow()
      requires Valid()
      ensures forall v :: v in sol ==> v < |subs|
    {
    }

    /** The explicit substitution: every bound variable with its resolved type. */
    method IntoSubst() returns (out: Subst)
      requires Valid()
      modifies `subs
      ensures Valid() && out == sol
    {
      hide *;
      out := map[];
      BoundBelow();
      for id := 0 to |subs|
        invariant Valid() && |subs| == old(|subs|)
        invariant forall v: nat :: v in out <==> v < id && v in sol
        invariant forall v :: v in out ==> out[v] == sol[v]
      {
        BoundHere(id);
        TopBounds();
        if subs[id].Some? {
          var pruned := Prune(subs[id].value, top);
          out := out[id := pruned];
        }
      }
    }
  }
}

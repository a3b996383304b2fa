/** Substitutions: application, composition, and the algebra both unifiers rest on. */
module Substitution {
  import opened Types

  type Subst = map<nat, Type>

  function ApplyVar(v: nat, s: Subst): Type {
    if v in s then s[v] else Var(v)
  }

  /** One parallel pass: the types substituted in are not visited again. */
  function Apply(t: Type, s: Subst): Type
    decreases t
  {
    match t
    case Var(v) => ApplyVar(v, s)
    case Con(_) => t
    case App(h, a) => App(Apply(h, s), Apply(a, s))
    case Fun(a, b) => Fun(Apply(a, s), Apply(b, s))
    case Tuple(ts) => Tuple(seq(|ts|, i requires 0 <= i < |ts| => Apply(ts[i], s)))
    case Record(fs) => Record(seq(|fs|, i requires 0 <= i < |fs| => Field(fs[i].name, Apply(fs[i].ty, s))))
  }

  /** The substitution that first does `b` and then `a`, with `a` winning where both bind. */
  function Compose(a: Subst, b: Subst): Subst {
    map v | v in b.Keys + a.Keys :: if v in a then a[v] else Apply(b[v], a)
  }

  /** Variables of the types substituted in. */
  function Range(s: Subst): (vs: set<nat>)
    ensures forall v :: v in vs <==> exists k :: k in s && v in Ftv(s[k])
  {
    set k, v | k in s && v in Ftv(s[k]) :: v
  }

  /** No bound variable is left in a type substituted in, so applying twice changes nothing. */
  ghost predicate Resolved(s: Subst) {
    s.Keys !! Range(s)
  }

  /** `theta` factors through `s`: doing `s` first makes no difference to it. */
  ghost predicate Absorbs(theta: Subst, s: Subst) {
    forall v :: v in s ==> Apply(s[v], theta) == ApplyVar(v, theta)
  }

  // ---- parts -------------------------------------------------------------------------------

  lemma {:induction false} ApplyParts(t: Type, s: Subst)
    requires !t.Var?
    ensures |Parts(Apply(t, s))| == |Parts(t)|
    ensures forall i :: 0 <= i < |Parts(t)| ==> Parts(Apply(t, s))[i] == Apply(Parts(t)[i], s)
  {
  }

  /** Same constructor, same labels: two types that can differ only in their parts. */
  ghost predicate SameShape(t: Type, u: Type) {
    match (t, u)
    case (Var(v), Var(w)) => v == w
    case (Con(c), Con(d)) => c == d
    case (App(_, _), App(_, _)) => true
    case (Fun(_, _), Fun(_, _)) => true
    case (Tuple(ts), Tuple(us)) => |ts| == |us|
    case (Record(fs), Record(gs)) =>
      |fs| == |gs| && forall i :: 0 <= i < |fs| ==> fs[i].name == gs[i].name
    case _ => false
  }

  lemma {:induction false} SameParts(t: Type, u: Type)
    requires SameShape(t, u)
    requires |Parts(t)| == |Parts(u)| && forall i :: 0 <= i < |Parts(t)| ==> Parts(t)[i] == Parts(u)[i]
    ensures t == u
  {
    match t
    case Var(_) =>
    case Con(_) =>
    case App(_, _) =>
      assert Parts(t)[0] == Parts(u)[0] && Parts(t)[1] == Parts(u)[1];
    case Fun(_, _) =>
      assert Parts(t)[0] == Parts(u)[0] && Parts(t)[1] == Parts(u)[1];
    case Tuple(_) =>
    case Record(fs) =>
      assert forall i :: 0 <= i < |fs| ==> fs[i].ty == Parts(t)[i] && u.fields[i].ty == Parts(u)[i];
      assert fs == u.fields;
  }

  // ---- application ---------------------------------------------------------------------------

  lemma {:induction false} ApplyAgrees(t: Type, s: Subst, r: Subst)
    requires forall v :: v in Ftv(t) ==> ApplyVar(v, s) == ApplyVar(v, r)
    ensures Apply(t, s) == Apply(t, r)
    decreases t
  {
    if !t.Var? {
      forall i | 0 <= i < |Parts(t)| ensures Apply(Parts(t)[i], s) == Apply(Parts(t)[i], r) {
        FtvOfPart(t, i);
        ApplyAgrees(Parts(t)[i], s, r);
      }
      ApplyParts(t, s);
      ApplyParts(t, r);
      SameParts(Apply(t, s), Apply(t, r));
    }
  }

  lemma {:induction false} ApplyEmpty(t: Type)
    ensures Apply(t, map[]) == t
    decreases t
  {
    if !t.Var? {
      forall i | 0 <= i < |Parts(t)| ensures Apply(Parts(t)[i], map[]) == Parts(t)[i] {
        ApplyEmpty(Parts(t)[i]);
      }
      ApplyParts(t, map[]);
      SameParts(Apply(t, map[]), t);
    }
  }

  lemma {:induction false} ApplyDisjoint(t: Type, s: Subst)
    requires Ftv(t) !! s.Keys
    ensures Apply(t, s) == t
  {
    ApplyAgrees(t, s, map[]);
    ApplyEmpty(t);
  }

  lemma {:induction false} FtvOfApply(t: Type, s: Subst, v: nat)
    ensures v in Ftv(Apply(t, s)) <==> exists k :: k in Ftv(t) && v in Ftv(ApplyVar(k, s))
    decreases t
  {
    if !t.Var? {
      ApplyParts(t, s);
      forall i | 0 <= i < |Parts(t)|
        ensures v in Ftv(Apply(Parts(t)[i], s)) <==> exists k :: k in Ftv(Parts(t)[i]) && v in Ftv(ApplyVar(k, s))
      {
        FtvOfApply(Parts(t)[i], s, v);
      }
      FtvOfParts(Apply(t, s), v);
      forall k ensures k in Ftv(t) <==> exists i :: 0 <= i < |Parts(t)| && k in Ftv(Parts(t)[i]) {
        FtvOfParts(t, k);
      }
    }
  }

  lemma {:induction false} FtvApplyBound(t: Type, s: Subst)
    ensures Ftv(Apply(t, s)) <= (Ftv(t) - s.Keys) + Range(s)
  {
    forall v | v in Ftv(Apply(t, s)) ensures v in (Ftv(t) - s.Keys) + Range(s) {
      FtvOfApply(t, s, v);
    }
  }

  lemma {:induction false} ResolvedClears(t: Type, s: Subst)
    requires Resolved(s)
    ensures Ftv(Apply(t, s)) !! s.Keys
    ensures Apply(Apply(t, s), s) == Apply(t, s)
  {
    FtvApplyBound(t, s);
    ApplyDisjoint(Apply(t, s), s);
  }

  // ---- composition -----------------------------------------------------------------------------

  lemma {:induction false} ApplyTwice(t: Type, b: Subst, a: Subst, c: Subst)
    requires forall v :: v in Ftv(t) ==> Apply(ApplyVar(v, b), a) == ApplyVar(v, c)
    ensures Apply(Apply(t, b), a) == Apply(t, c)
    decreases t
  {
    if !t.Var? {
      ApplyParts(t, b);
      ApplyParts(t, c);
      ApplyParts(Apply(t, b), a);
      forall i | 0 <= i < |Parts(t)| ensures Apply(Apply(Parts(t)[i], b), a) == Apply(Parts(t)[i], c) {
        FtvOfPart(t, i);
        ApplyTwice(Parts(t)[i], b, a, c);
      }
      SameParts(Apply(Apply(t, b), a), Apply(t, c));
    }
  }

  /** The two bindings of a doubly bound variable say the same. */
  ghost predicate OverlapAgrees(a: Subst, b: Subst) {
    forall v :: v in a && v in b ==> a[v] == Apply(b[v], a)
  }

  ghost predicate LawAt(t: Type, a: Subst, b: Subst) {
    Apply(t, Compose(a, b)) == Apply(Apply(t, b), a)
  }

  /** What `compose_subst` documents for every pair of substitutions holds of exactly these. */
  lemma {:induction false} ComposeLaw(a: Subst, b: Subst)
    ensures (forall t :: LawAt(t, a, b)) <==> OverlapAgrees(a, b)
  {
    if OverlapAgrees(a, b) {
      forall t ensures LawAt(t, a, b) {
        ApplyTwice(t, b, a, Compose(a, b));
      }
    } else {
      var v :| v in a && v in b && a[v] != Apply(b[v], a);
      assert !LawAt(Var(v), a, b);
    }
  }

  lemma {:induction false} ComposeApply(t: Type, a: Subst, b: Subst)
    requires a.Keys !! b.Keys
    ensures Apply(t, Compose(a, b)) == Apply(Apply(t, b), a)
  {
    ApplyTwice(t, b, a, Compose(a, b));
  }

  /** The documented law does fail: here `a` overrides what `b` says about variable 0. */
  lemma {:induction false} ComposeLawFails()
    ensures var a: Subst, b: Subst := map[0 := Tuple([])], map[0 := DICT];
            !LawAt(Var(0), a, b)
  {
  }

  lemma {:induction false} ComposeEmpty(s: Subst)
    ensures Compose(map[], s) == s && Compose(s, map[]) == s
  {
    forall v | v in s ensures Apply(s[v], map[]) == s[v] { ApplyEmpty(s[v]); }
  }

  lemma {:induction false} ComposeKeys(a: Subst, b: Subst)
    ensures Compose(a, b).Keys == a.Keys + b.Keys
    ensures Compose(a, b) == map[] ==> a == map[] && b == map[]
  {
    if Compose(a, b) == map[] {
      assert forall v :: v in a ==> v in Compose(a, b);
      assert forall v :: v in b ==> v in Compose(a, b);
    }
  }

  lemma {:induction false} ComposeAssoc(a: Subst, b: Subst, c: Subst)
    requires a.Keys !! b.Keys
    ensures Compose(a, Compose(b, c)) == Compose(Compose(a, b), c)
  {
    var l, r := Compose(a, Compose(b, c)), Compose(Compose(a, b), c);
    assert l.Keys == r.Keys;
    forall v | v in l ensures l[v] == r[v] {
      if v !in a && v !in b { ComposeApply(c[v], a, b); }
    }
  }

  lemma {:induction false} RangeOfCompose(a: Subst, b: Subst)
    ensures Range(Compose(a, b)) <= Range(a) + (Range(b) - a.Keys)
  {
    var c := Compose(a, b);
    forall k | k in c ensures Ftv(c[k]) <= Range(a) + (Range(b) - a.Keys) {
      if k !in a { FtvApplyBound(b[k], a); }
    }
  }

  lemma {:induction false} ResolvedCompose(a: Subst, b: Subst)
    requires Resolved(a) && Resolved(b)
    requires b.Keys !! Range(a)
    ensures Resolved(Compose(a, b))
  {
    RangeOfCompose(a, b);
  }

  // ---- absorption ------------------------------------------------------------------------------

  lemma {:induction false} AbsorbsApply(t: Type, theta: Subst, s: Subst)
    requires Absorbs(theta, s)
    ensures Apply(Apply(t, s), theta) == Apply(t, theta)
  {
    ApplyTwice(t, s, theta, theta);
  }

  lemma {:induction false} AbsorbsCompose(theta: Subst, a: Subst, b: Subst)
    requires Absorbs(theta, a) && Absorbs(theta, b)
    ensures Absorbs(theta, Compose(a, b))
  {
    forall v | v in Compose(a, b) ensures Apply(Compose(a, b)[v], theta) == ApplyVar(v, theta) {
      if v !in a { AbsorbsApply(b[v], theta, a); }
    }
  }

  /** A resolved composition absorbs what it was composed from. */
  lemma {:induction false} ComposeAbsorbs(a: Subst, b: Subst)
    requires Resolved(a) && a.Keys !! b.Keys
    ensures Resolved(b) ==> Absorbs(Compose(a, b), b)
    ensures b.Keys !! Range(a) ==> Absorbs(Compose(a, b), a)
  {
    var c := Compose(a, b);
    if Resolved(b) {
      forall v | v in b ensures Apply(b[v], c) == ApplyVar(v, c) {
        ComposeApply(b[v], a, b);
        ApplyDisjoint(b[v], b);
      }
    }
    if b.Keys !! Range(a) {
      forall v | v in a ensures Apply(a[v], c) == ApplyVar(v, c) {
        ComposeApply(a[v], a, b);
        ApplyDisjoint(a[v], b);
        ApplyDisjoint(a[v], a);
      }
    }
  }

  lemma {:induction false} ResolvedAbsorbsItself(s: Subst)
    requires Resolved(s)
    ensures Absorbs(s, s)
  {
    forall v | v in s ensures Apply(s[v], s) == ApplyVar(v, s) { ApplyDisjoint(s[v], s); }
  }

  // ---- occurs ----------------------------------------------------------------------------------

  /** A type strictly containing a variable can never be made equal to it. */
  lemma {:induction false} OccursIsFatal(v: nat, t: Type, theta: Subst)
    requires v in Ftv(t)
    ensures Size(ApplyVar(v, theta)) <= Size(Apply(t, theta))
    ensures t != Var(v) ==> Size(ApplyVar(v, theta)) < Size(Apply(t, theta))
    decreases t
  {
    if !t.Var? {
      FtvOfParts(t, v);
      var i :| 0 <= i < |Parts(t)| && v in Ftv(Parts(t)[i]);
      OccursIsFatal(v, Parts(t)[i], theta);
      ApplyParts(t, theta);
      SizeOfPart(Apply(t, theta), i);
    }
  }
}

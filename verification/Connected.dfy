/**
  Types connected by a chain of matches. Matching is not transitive, since one dictionary type matches
  records with different fields; connection is, and still comes apart along the constructors.
 */
module Connected {
  import opened Types
  import opened Substitution
  import opened Unification
  import opened Matching

  lemma {:induction false} MatchesSymmetric(a: Type, b: Type)
    requires Matches(a, b)
    ensures Matches(b, a)
    decreases Size(a) + Size(b)
  {
    match (a, b)
    case (App(h1, a1), App(h2, a2)) => MatchesSymmetric(h1, h2); MatchesSymmetric(a1, a2);
    case (Fun(a1, b1), Fun(a2, b2)) => MatchesSymmetric(a1, a2); MatchesSymmetric(b1, b2);
    case (Tuple(ts), Tuple(us)) =>
      forall i | 0 <= i < |ts| ensures Matches(us[i], ts[i]) {
        SizeOfElem(ts, i);
        SizeOfElem(us, i);
        MatchesSymmetric(ts[i], us[i]);
      }
    case (Record(fs), Record(gs)) =>
      forall i | 0 <= i < |fs| ensures Matches(gs[i].ty, fs[i].ty) {
        SizeOfField(fs, i);
        SizeOfField(gs, i);
        MatchesSymmetric(fs[i].ty, gs[i].ty);
      }
    case _ =>
  }

  // ---- chains ------------------------------------------------------------------------------------------------------

  ghost predicate Linked(a: Type, b: Type, n: nat)
    decreases n
  {
    if n == 0 then a == b else exists m :: Matches(a, m) && Linked(m, b, n - 1)
  }

  ghost predicate Connects(a: Type, b: Type) { exists n: nat :: Linked(a, b, n) }

  lemma {:induction false} LinkedThen(a: Type, b: Type, c: Type, n: nat, k: nat)
    requires Linked(a, b, n) && Linked(b, c, k)
    ensures Linked(a, c, n + k)
    decreases n
  {
    if n > 0 {
      var m :| Matches(a, m) && Linked(m, b, n - 1);
      LinkedThen(m, b, c, n - 1, k);
    }
  }

  lemma {:induction false} ConnectsThen(a: Type, b: Type, c: Type)
    requires Connects(a, b) && Connects(b, c)
    ensures Connects(a, c)
  {
    hide Linked;
    var n: nat :| Linked(a, b, n);
    var k: nat :| Linked(b, c, k);
    LinkedThen(a, b, c, n, k);
  }

  lemma {:induction false} ConnectsItself(a: Type)
    ensures Connects(a, a)
  {
    assert Linked(a, a, 0);
  }

  lemma {:induction false} MatchConnects(a: Type, b: Type)
    requires Matches(a, b)
    ensures Connects(a, b)
  {
    assert Linked(b, b, 0);
    assert Linked(a, b, 1);
  }

  lemma {:induction false} LinkedBack(a: Type, b: Type, n: nat)
    requires Linked(a, b, n)
    ensures Connects(b, a)
    decreases n
  {
    if n == 0 {
      ConnectsItself(a);
    } else {
      var m :| Matches(a, m) && Linked(m, b, n - 1);
      hide Matches, Linked, Connects;
      LinkedBack(m, b, n - 1);
      MatchesSymmetric(a, m);
      MatchConnects(m, a);
      ConnectsThen(b, m, a);
    }
  }

  lemma {:induction false} ConnectsBack(a: Type, b: Type)
    requires Connects(a, b)
    ensures Connects(b, a)
  {
    hide Linked;
    var n: nat :| Linked(a, b, n);
    LinkedBack(a, b, n);
  }

  // ---- chains come apart -------------------------------------------------------------------------------------------

  lemma {:induction false} AtomLinked(a: Type, b: Type, n: nat)
    requires Linked(a, b, n) && (a.Var? || a.Con?)
    ensures b == a
    decreases n
  {
    if n > 0 {
      var m :| Matches(a, m) && Linked(m, b, n - 1);
      AtomLinked(m, b, n - 1);
    }
  }

  lemma {:induction false} FunLinked(a: Type, b: Type, n: nat)
    requires Linked(a, b, n) && a.Fun?
    ensures b.Fun? && Connects(a.dom, b.dom) && Connects(a.cod, b.cod)
    decreases n
  {
    if n == 0 {
      ConnectsItself(a.dom);
      ConnectsItself(a.cod);
    } else {
      var m :| Matches(a, m) && Linked(m, b, n - 1);
      assert m.Fun? && Matches(a.dom, m.dom) && Matches(a.cod, m.cod);
      hide Matches, Linked, Connects;
      FunLinked(m, b, n - 1);
      MatchThen(a.dom, m.dom, b.dom);
      MatchThen(a.cod, m.cod, b.cod);
    }
  }

  lemma {:induction false} MatchThen(a: Type, b: Type, c: Type)
    requires Matches(a, b) && Connects(b, c)
    ensures Connects(a, c)
  {
    hide *;
    MatchConnects(a, b);
    ConnectsThen(a, b, c);
  }

  ghost predicate AllConnect(ts: seq<Type>, us: seq<Type>) {
    |ts| == |us| && forall i :: 0 <= i < |ts| ==> Connects(ts[i], us[i])
  }

  lemma {:induction false} TupleLinked(a: Type, b: Type, n: nat)
    requires Linked(a, b, n) && a.Tuple?
    ensures b.Tuple? && AllConnect(a.elems, b.elems)
    decreases n
  {
    if n == 0 {
      forall i | 0 <= i < |a.elems| ensures Connects(a.elems[i], a.elems[i]) { ConnectsItself(a.elems[i]); }
    } else {
      var m :| Matches(a, m) && Linked(m, b, n - 1);
      assert m.Tuple? && |m.elems| == |a.elems| && forall i :: 0 <= i < |a.elems| ==> Matches(a.elems[i], m.elems[i]);
      hide Matches, Linked, Connects;
      TupleLinked(m, b, n - 1);
      forall i | 0 <= i < |a.elems| ensures Connects(a.elems[i], b.elems[i]) { MatchThen(a.elems[i], m.elems[i], b.elems[i]); }
    }
  }

  /** A dictionary of `e`, or a record all of whose fields are connected to `e`. */
  ghost predicate Uniform(e: Type, t: Type) {
    match t
    case App(h, a) => h == DICT && Connects(e, a)
    case Record(fs) => fs != [] && forall i :: 0 <= i < |fs| ==> Connects(e, fs[i].ty)
    case _ => false
  }

  lemma {:induction false} Rebased(e: Type, e': Type, t: Type)
    requires Uniform(e, t) && Connects(e', e)
    ensures Uniform(e', t)
  {
    hide Connects;
    match t
    case App(_, a) => ConnectsThen(e', e, a);
    case Record(fs) => forall i | 0 <= i < |fs| ensures Connects(e', fs[i].ty) { ConnectsThen(e', e, fs[i].ty); }
  }

  /** What a match between an application and a record says. */
  lemma {:induction false} MatchIsUniform(h: Type, e: Type, fs: seq<Field>)
    requires Matches(App(h, e), Record(fs))
    ensures h == DICT && Uniform(e, Record(fs)) && Uniform(e, App(h, e))
  {
    assert fs != [] && Matches(e, fs[0].ty) && forall i :: 0 < i < |fs| ==> Matches(fs[0].ty, fs[i].ty);
    hide Matches, Connects;
    ConnectsItself(e);
    MatchConnects(e, fs[0].ty);
    forall i | 0 <= i < |fs| ensures Connects(e, fs[i].ty) {
      if i > 0 {
        MatchConnects(fs[0].ty, fs[i].ty);
        ConnectsThen(e, fs[0].ty, fs[i].ty);
      }
    }
  }

  lemma {:induction false} UniformStep(e: Type, a: Type, m: Type)
    requires Uniform(e, a) && Matches(a, m)
    ensures Uniform(e, m)
  {
    match (a, m)
    case (App(_, a1), App(_, a2)) =>
      MatchConnects(a1, a2);
      ConnectsThen(e, a1, a2);
    case (App(h, a1), Record(fs)) =>
      MatchIsUniform(h, a1, fs);
      Rebased(a1, e, m);
    case (Record(fs), App(h, a2)) =>
      MatchesSymmetric(a, m);
      MatchConnects(a2, fs[0].ty);
      ConnectsBack(a2, fs[0].ty);
      ConnectsThen(e, fs[0].ty, a2);
    case (Record(fs), Record(gs)) =>
      forall i | 0 <= i < |gs| ensures Connects(e, gs[i].ty) {
        MatchConnects(fs[i].ty, gs[i].ty);
        ConnectsThen(e, fs[i].ty, gs[i].ty);
      }
  }

  lemma {:induction false} UniformStays(e: Type, a: Type, b: Type, n: nat)
    requires Uniform(e, a) && Linked(a, b, n)
    ensures Uniform(e, b)
    decreases n
  {
    hide Matches, Connects, Uniform;
    if n > 0 {
      var m :| Matches(a, m) && Linked(m, b, n - 1);
      UniformStep(e, a, m);
      UniformStays(e, m, b, n - 1);
    }
  }

  lemma {:induction false} AppLinked(h: Type, e: Type, b: Type, n: nat)
    requires Linked(App(h, e), b, n)
    ensures (b.App? && Connects(h, b.head) && Connects(e, b.arg)) || (b.Record? && h == DICT && Uniform(e, b))
    decreases n
  {
    if n == 0 {
      ConnectsItself(h);
      ConnectsItself(e);
    } else {
      var m :| Matches(App(h, e), m) && Linked(m, b, n - 1);
      if m.App? {
        assert Matches(h, m.head) && Matches(e, m.arg);
        assert m.head == DICT ==> h == DICT;
        hide Matches, Linked, Connects, Uniform;
        AppLinked(m.head, m.arg, b, n - 1);
        MatchConnects(e, m.arg);
        if b.App? {
          MatchThen(h, m.head, b.head);
          ConnectsThen(e, m.arg, b.arg);
        } else {
          Rebased(m.arg, e, b);
        }
      } else {
        MatchIsUniform(h, e, m.fields);
        UniformStays(e, m, b, n - 1);
        ConnectsItself(DICT);
      }
    }
  }

  ghost predicate FieldsConnect(fs: seq<Field>, gs: seq<Field>) {
    |fs| == |gs| && forall i :: 0 <= i < |fs| ==> Connects(fs[i].ty, gs[i].ty)
  }

  /** Both uniform in the same element type. */
  ghost predicate BothUniform(a: Type, b: Type) {
    exists e :: Uniform(e, a) && Uniform(e, b)
  }

  lemma {:induction false} RecordLinked(fs: seq<Field>, b: Type, n: nat)
    requires Linked(Record(fs), b, n)
    ensures (b.Record? && FieldsConnect(fs, b.fields)) || BothUniform(Record(fs), b)
    decreases n
  {
    if n == 0 {
      forall i | 0 <= i < |fs| ensures Connects(fs[i].ty, fs[i].ty) { ConnectsItself(fs[i].ty); }
    } else {
      var m :| Matches(Record(fs), m) && Linked(m, b, n - 1);
      if m.App? {
        MatchesSymmetric(Record(fs), m);
        MatchIsUniform(m.head, m.arg, fs);
        UniformStays(m.arg, m, b, n - 1);
      } else {
        var gs := m.fields;
        assert |gs| == |fs| && forall i :: 0 <= i < |fs| ==> Matches(fs[i].ty, gs[i].ty);
        hide Matches, Linked, Connects;
        RecordLinked(gs, b, n - 1);
        if b.Record? && FieldsConnect(gs, b.fields) {
          forall i | 0 <= i < |fs| ensures Connects(fs[i].ty, b.fields[i].ty) { MatchThen(fs[i].ty, gs[i].ty, b.fields[i].ty); }
        } else {
          var e :| Uniform(e, m) && Uniform(e, b);
          forall i | 0 <= i < |fs| ensures Connects(e, fs[i].ty) {
            MatchConnects(fs[i].ty, gs[i].ty);
            ConnectsBack(fs[i].ty, gs[i].ty);
            ConnectsThen(e, gs[i].ty, fs[i].ty);
          }
          assert Uniform(e, Record(fs));
        }
      }
    }
  }

  lemma {:induction false} RecordsConnect(fs: seq<Field>, gs: seq<Field>)
    requires Connects(Record(fs), Record(gs)) && |fs| == |gs|
    ensures FieldsConnect(fs, gs)
  {
    hide Linked;
    var n: nat :| Linked(Record(fs), Record(gs), n);
    RecordLinked(fs, Record(gs), n);
    hide Connects;
    if !FieldsConnect(fs, gs) {
      var e :| Uniform(e, Record(fs)) && Uniform(e, Record(gs));
      forall i | 0 <= i < |fs| ensures Connects(fs[i].ty, gs[i].ty) {
        ConnectsBack(e, fs[i].ty);
        ConnectsThen(fs[i].ty, e, gs[i].ty);
      }
    }
  }

  /** A record connected to an application: the head is `Dict`, and argument and fields are all connected. */
  lemma {:induction false} RecordAppConnect(h: Type, e: Type, fs: seq<Field>)
    requires Connects(App(h, e), Record(fs))
    ensures h == DICT && Uniform(e, Record(fs))
  {
    hide Uniform;
    var n: nat :| Linked(App(h, e), Record(fs), n);
    AppLinked(h, e, Record(fs), n);
  }

  // ---- chains between parts give chains between wholes -----------------------------------------------------------

  lemma {:induction false} LinkedHeads(h: Type, h': Type, e: Type, n: nat)
    requires Linked(h, h', n)
    ensures Linked(App(h, e), App(h', e), n)
    decreases n
  {
    if n > 0 {
      var m :| Matches(h, m) && Linked(m, h', n - 1);
      LinkedHeads(m, h', e, n - 1);
      MatchesItself(e);
      assert Matches(App(h, e), App(m, e));
    }
  }

  lemma {:induction false} LinkedArgs(h: Type, e: Type, e': Type, n: nat)
    requires Linked(e, e', n)
    ensures Linked(App(h, e), App(h, e'), n)
    decreases n
  {
    if n > 0 {
      var m :| Matches(e, m) && Linked(m, e', n - 1);
      LinkedArgs(h, m, e', n - 1);
      MatchesItself(h);
      assert Matches(App(h, e), App(h, m));
    }
  }

  lemma {:induction false} LinkedDoms(a: Type, a': Type, b: Type, n: nat)
    requires Linked(a, a', n)
    ensures Linked(Fun(a, b), Fun(a', b), n)
    decreases n
  {
    if n > 0 {
      var m :| Matches(a, m) && Linked(m, a', n - 1);
      LinkedDoms(m, a', b, n - 1);
      MatchesItself(b);
      assert Matches(Fun(a, b), Fun(m, b));
    }
  }

  lemma {:induction false} LinkedCods(a: Type, b: Type, b': Type, n: nat)
    requires Linked(b, b', n)
    ensures Linked(Fun(a, b), Fun(a, b'), n)
    decreases n
  {
    if n > 0 {
      var m :| Matches(b, m) && Linked(m, b', n - 1);
      LinkedCods(a, m, b', n - 1);
      MatchesItself(a);
      assert Matches(Fun(a, b), Fun(a, m));
    }
  }

  lemma {:induction false} AppConnects(h: Type, h': Type, e: Type, e': Type)
    requires Connects(h, h') && Connects(e, e')
    ensures Connects(App(h, e), App(h', e'))
  {
    hide Linked;
    var n: nat :| Linked(h, h', n);
    var k: nat :| Linked(e, e', k);
    LinkedHeads(h, h', e, n);
    LinkedArgs(h', e, e', k);
    ConnectsThen(App(h, e), App(h', e), App(h', e'));
  }

  lemma {:induction false} FunConnects(a: Type, a': Type, b: Type, b': Type)
    requires Connects(a, a') && Connects(b, b')
    ensures Connects(Fun(a, b), Fun(a', b'))
  {
    hide Linked;
    var n: nat :| Linked(a, a', n);
    var k: nat :| Linked(b, b', k);
    LinkedDoms(a, a', b, n);
    LinkedCods(a', b, b', k);
    ConnectsThen(Fun(a, b), Fun(a', b), Fun(a', b'));
  }

  lemma {:induction false} LinkedElems(ts: seq<Type>, i: nat, u: Type, n: nat)
    requires i < |ts| && Linked(ts[i], u, n)
    ensures Linked(Tuple(ts), Tuple(ts[i := u]), n)
    decreases n
  {
    if n == 0 {
      assert ts[i := u] == ts;
    } else {
      var m :| Matches(ts[i], m) && Linked(m, u, n - 1);
      var us := ts[i := m];
      LinkedElems(us, i, u, n - 1);
      assert us[i := u] == ts[i := u];
      forall j | 0 <= j < |ts| ensures Matches(ts[j], us[j]) { if j != i { MatchesItself(ts[j]); } }
      assert Matches(Tuple(ts), Tuple(us));
    }
  }

  lemma {:induction false} TupleConnects(ts: seq<Type>, us: seq<Type>, k: nat)
    requires AllConnect(ts, us) && k <= |ts| && us[..k] == ts[..k]
    ensures Connects(Tuple(ts), Tuple(us))
    decreases |ts| - k
  {
    hide Linked;
    if k == |ts| {
      assert ts == us;
      ConnectsItself(Tuple(ts));
    } else {
      var n: nat :| Linked(ts[k], us[k], n);
      var vs := ts[k := us[k]];
      LinkedElems(ts, k, us[k], n);
      forall i | 0 <= i < |vs| ensures Connects(vs[i], us[i]) { if i == k { ConnectsItself(us[k]); } }
      assert us[..k + 1] == vs[..k + 1];
      TupleConnects(vs, us, k + 1);
      ConnectsThen(Tuple(ts), Tuple(vs), Tuple(us));
    }
  }

  lemma {:induction false} LinkedFields(fs: seq<Field>, i: nat, u: Type, n: nat)
    requires i < |fs| && Linked(fs[i].ty, u, n)
    ensures Linked(Record(fs), Record(fs[i := Field(fs[i].name, u)]), n)
    decreases n
  {
    if n == 0 {
      assert fs[i := Field(fs[i].name, u)] == fs;
    } else {
      var m :| Matches(fs[i].ty, m) && Linked(m, u, n - 1);
      var gs := fs[i := Field(fs[i].name, m)];
      LinkedFields(gs, i, u, n - 1);
      assert gs[i := Field(gs[i].name, u)] == fs[i := Field(fs[i].name, u)];
      forall j | 0 <= j < |fs| ensures fs[j].name == gs[j].name && Matches(fs[j].ty, gs[j].ty) { if j != i { MatchesItself(fs[j].ty); } }
      assert Matches(Record(fs), Record(gs));
    }
  }

  lemma {:induction false} RecordConnects(fs: seq<Field>, gs: seq<Field>, k: nat)
    requires FieldsConnect(fs, gs) && (forall i :: 0 <= i < |fs| ==> fs[i].name == gs[i].name) && k <= |fs| && gs[..k] == fs[..k]
    ensures Connects(Record(fs), Record(gs))
    decreases |fs| - k
  {
    hide Linked;
    if k == |fs| {
      assert fs == gs;
      ConnectsItself(Record(fs));
    } else {
      var n: nat :| Linked(fs[k].ty, gs[k].ty, n);
      var hs := fs[k := gs[k]];
      assert gs[k] == Field(fs[k].name, gs[k].ty);
      LinkedFields(fs, k, gs[k].ty, n);
      forall i | 0 <= i < |hs| ensures Connects(hs[i].ty, gs[i].ty) && hs[i].name == gs[i].name { if i == k { ConnectsItself(gs[k].ty); } }
      assert gs[..k + 1] == hs[..k + 1];
      RecordConnects(hs, gs, k + 1);
      ConnectsThen(Record(fs), Record(hs), Record(gs));
    }
  }
}

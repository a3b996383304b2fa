/** The type language the two unifiers work on (rex-typesystem/src/types.rs). */
module Types {

  datatype BuiltinTypeId =
    | U8 | U16 | U32 | U64 | I8 | I16 | I32 | I64 | F32 | F64
    | Bool | Char | String | Uuid | Hash | DateTime
    | List | Dict | Option | Promise | Result

  datatype TypeConst = Builtin(id: BuiltinTypeId) | User(name: string, arity: nat)

  datatype Field = Field(name: string, ty: Type)

  /** A variable is its id: the display name a `TypeVar` also carries plays no part in unification. */
  datatype Type =
    | Var(id: nat)
    | Con(con: TypeConst)
    | App(head: Type, arg: Type)
    | Fun(dom: Type, cod: Type)
    | Tuple(elems: seq<Type>)
    | Record(fields: seq<Field>)

  const DICT := Con(Builtin(BuiltinTypeId.Dict))

  /** The immediate components, left to right. */
  function Parts(t: Type): (parts: seq<Type>)
    ensures forall p | p in parts :: p < t
    ensures t.Record? ==> |parts| == |t.fields|
  {
    match t
    case Var(_) => []
    case Con(_) => []
    case App(h, a) => [h, a]
    case Fun(a, b) => [a, b]
    case Tuple(ts) => ts
    case Record(fs) => seq(|fs|, i requires 0 <= i < |fs| => fs[i].ty)
  }

  /** Free variables. */
  function Ftv(t: Type): set<nat>
    decreases t, 0
  {
    match t
    case Var(v) => {v}
    case Con(_) => {}
    case App(h, a) => Ftv(h) + Ftv(a)
    case Fun(a, b) => Ftv(a) + Ftv(b)
    case Tuple(ts) => FtvAll(ts)
    case Record(fs) => FtvFields(fs)
  }

  function FtvAll(ts: seq<Type>): (vs: set<nat>)
    ensures forall v :: v in vs <==> exists i :: 0 <= i < |ts| && v in Ftv(ts[i])
    decreases ts, 1
  {
    set i: nat, v: nat | i < |ts| && v in Ftv(ts[i]) :: v
  }

  function FtvFields(fs: seq<Field>): (vs: set<nat>)
    ensures forall v :: v in vs <==> exists i :: 0 <= i < |fs| && v in Ftv(fs[i].ty)
    decreases fs, 1
  {
    set i: nat, v: nat | i < |fs| && v in Ftv(fs[i].ty) :: v
  }

  /** Number of nodes. */
  ghost function Size(t: Type): (n: nat)
    ensures n >= 1
    decreases t, 0
  {
    match t
    case Var(_) => 1
    case Con(_) => 1
    case App(h, a) => 1 + Size(h) + Size(a)
    case Fun(a, b) => 1 + Size(a) + Size(b)
    case Tuple(ts) => 1 + SizeAll(ts)
    case Record(fs) => 1 + SizeFields(fs)
  }

  ghost function SizeAll(ts: seq<Type>): nat
    decreases ts, 1
  {
    if ts == [] then 0 else Size(ts[0]) + SizeAll(ts[1..])
  }

  ghost function SizeFields(fs: seq<Field>): nat
    decreases fs, 1
  {
    if fs == [] then 0 else Size(fs[0].ty) + SizeFields(fs[1..])
  }

  lemma {:induction false} FtvOfParts(t: Type, v: nat)
    requires !t.Var?
    ensures v in Ftv(t) <==> exists i :: 0 <= i < |Parts(t)| && v in Ftv(Parts(t)[i])
  {
    match t
    case Con(_) =>
    case App(h, a) =>
      assert Parts(t)[0] == h && Parts(t)[1] == a;
    case Fun(a, b) =>
      assert Parts(t)[0] == a && Parts(t)[1] == b;
    case Tuple(ts) =>
      assert Parts(t) == ts;
    case Record(fs) =>
      assert forall i :: 0 <= i < |fs| ==> Parts(t)[i] == fs[i].ty;
  }

  lemma {:induction false} FtvOfPart(t: Type, i: nat)
    requires i < |Parts(t)|
    ensures Ftv(Parts(t)[i]) <= Ftv(t)
  {
    forall v | v in Ftv(Parts(t)[i]) ensures v in Ftv(t) { FtvOfParts(t, v); }
  }

  lemma {:induction false} SizeOfElem(ts: seq<Type>, i: nat)
    requires i < |ts|
    ensures Size(ts[i]) <= SizeAll(ts)
  {
    if i > 0 { SizeOfElem(ts[1..], i - 1); }
  }

  lemma {:induction false} SizeOfField(fs: seq<Field>, i: nat)
    requires i < |fs|
    ensures Size(fs[i].ty) <= SizeFields(fs)
  {
    if i > 0 { SizeOfField(fs[1..], i - 1); }
  }

  lemma {:induction false} SizeOfPart(t: Type, i: nat)
    requires i < |Parts(t)|
    ensures Size(Parts(t)[i]) < Size(t)
  {
    match t
    case App(_, _) =>
    case Fun(_, _) =>
    case Tuple(ts) => SizeOfElem(ts, i);
    case Record(fs) => SizeOfField(fs, i);
  }
}

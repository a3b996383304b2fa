/**
  The symbol interner: a locked table of weak references to shared texts, among threads that intern,
  clone and drop symbols (rex-ast/src/symbol.rs:31-63, 126-151).
 */
module Interner {
  import opened Wrappers

  type Address = nat

  type Symbol = nat

  type Thread = nat

  /** Where the thread that holds the lock stands in `intern`. */
  datatype Stage = Lookup | Prune | LookAgain | Insert

  datatype Call = Call(thread: Thread, name: string, stage: Stage)

  /** `symbols` are the handles held anywhere; an allocation is alive while a handle to it is held. */
  datatype State = State(
    texts: map<Address, string>,
    symbols: map<Symbol, Address>,
    table: map<string, Address>,
    lock: Option<Call>)

  datatype Step =
    | Lock(thread: Thread, name: string)
    | Advance(symbol: Symbol, address: Address)
    | Clone(symbol: Symbol, copy: Symbol)
    | Drop(symbol: Symbol)

  const START := State(map[], map[], map[], None)

  const PRUNE_MIN_LEN: nat := 1024

  predicate Alive(s: State, address: Address) {
    address in s.symbols.Values
  }

  /** A weak reference yields its allocation only while that is alive. */
  function Upgrade(s: State, name: string): Option<Address> {
    if name in s.table && Alive(s, s.table[name]) then Some(s.table[name]) else None
  }

  predicate PowerOfTwo(n: nat) {
    n == 1 || (n > 1 && n % 2 == 0 && PowerOfTwo(n / 2))
  }

  function Pruned(s: State): map<string, Address> {
    if |s.table| >= PRUNE_MIN_LEN && PowerOfTwo(|s.table|)
    then map name | name in s.table && Alive(s, s.table[name]) :: s.table[name]
    else s.table
  }

  /** The allocator hands out an address only if neither a handle nor the table refers to it. */
  predicate Free(s: State, address: Address) {
    !Alive(s, address) && address !in s.table.Values
  }

  predicate Enabled(s: State, step: Step) {
    match step
    case Lock(_, _) => s.lock.None?
    case Advance(symbol, address) => s.lock.Some? && symbol !in s.symbols && Free(s, address)
    case Clone(symbol, copy) => symbol in s.symbols && copy !in s.symbols
    case Drop(symbol) => symbol in s.symbols
  }

  function Take(s: State, step: Step): State
    requires Enabled(s, step)
  {
    match step
    case Lock(thread, name) => s.(lock := Some(Call(thread, name, Lookup)))
    case Clone(symbol, copy) => s.(symbols := s.symbols[copy := s.symbols[symbol]])
    case Drop(symbol) => s.(symbols := s.symbols - {symbol})
    case Advance(symbol, address) =>
      var call := s.lock.value;
      match call.stage
      case Lookup => Found(s, symbol, Prune)
      case Prune => s.(table := Pruned(s), lock := Some(call.(stage := LookAgain)))
      case LookAgain => Found(s, symbol, Insert)
      case Insert =>
        s.(texts := s.texts[address := call.name], symbols := s.symbols[symbol := address],
           table := s.table[call.name := address], lock := None)
  }

  /** A hit hands out another handle and releases the lock; a miss goes on. */
  function Found(s: State, symbol: Symbol, next: Stage): State
    requires s.lock.Some?
  {
    var hit := Upgrade(s, s.lock.value.name);
    if hit.Some? then s.(symbols := s.symbols[symbol := hit.value], lock := None)
    else s.(lock := Some(s.lock.value.(stage := next)))
  }

  ghost predicate Runs(s: State, steps: seq<Step>, t: State)
    decreases |steps|
  {
    if steps == [] then s == t
    else Enabled(s, steps[0]) && Runs(Take(s, steps[0]), steps[1..], t)
  }

  // ---- what every step keeps ----------------------------------------------------------------------------------

  /** A held symbol is the one its text is entered under. */
  ghost predicate Entered(s: State, symbol: Symbol)
    requires symbol in s.symbols
  {
    var a := s.symbols[symbol];
    a in s.texts && s.texts[a] in s.table && s.table[s.texts[a]] == a
  }

  ghost predicate Sound(s: State) {
    && (forall symbol :: symbol in s.symbols ==> Entered(s, symbol))
    && (forall name :: name in s.table ==> s.table[name] in s.texts && s.texts[s.table[name]] == name)
    && (s.lock.Some? && !s.lock.value.stage.Lookup? ==> Upgrade(s, s.lock.value.name).None?)
  }

  lemma {:induction false} DropIsSound(s: State, symbol: Symbol)
    requires Sound(s) && symbol in s.symbols
    ensures Sound(s.(symbols := s.symbols - {symbol}))
  {
    var t := s.(symbols := s.symbols - {symbol});
    forall other | other in t.symbols ensures Entered(t, other) { assert Entered(s, other); }
    forall a | Alive(t, a) ensures Alive(s, a) {
      var other :| other in t.symbols && t.symbols[other] == a;
      assert s.symbols[other] == a;
    }
  }

  lemma {:induction false} CloneIsSound(s: State, symbol: Symbol, copy: Symbol)
    requires Sound(s) && symbol in s.symbols && copy !in s.symbols
    ensures Sound(s.(symbols := s.symbols[copy := s.symbols[symbol]]))
  {
    var t := s.(symbols := s.symbols[copy := s.symbols[symbol]]);
    assert Entered(s, symbol);
    forall other | other in t.symbols ensures Entered(t, other) { if other != copy { assert Entered(s, other); } }
    forall a | Alive(t, a) ensures Alive(s, a) {
      var other :| other in t.symbols && t.symbols[other] == a;
      assert s.symbols[if other == copy then symbol else other] == a;
    }
  }

  lemma {:induction false} PruneIsSound(s: State)
    requires Sound(s)
    ensures Sound(s.(table := Pruned(s)))
    ensures forall name :: Upgrade(s.(table := Pruned(s)), name) == Upgrade(s, name)
  {
    var t := s.(table := Pruned(s));
    forall symbol | symbol in t.symbols ensures Entered(t, symbol) {
      assert Entered(s, symbol);
      assert Alive(s, s.symbols[symbol]);
    }
  }

  lemma {:induction false} InsertIsSound(s: State, symbol: Symbol, address: Address)
    requires Sound(s) && s.lock.Some? && s.lock.value.stage.Insert? && symbol !in s.symbols && Free(s, address)
    ensures Sound(Take(s, Advance(symbol, address)))
  {
    var t, name := Take(s, Advance(symbol, address)), s.lock.value.name;
    forall other | other in t.symbols ensures Entered(t, other) {
      if other != symbol {
        assert Entered(s, other) && Alive(s, s.symbols[other]);
        assert s.symbols[other] != address;
        assert s.texts[s.symbols[other]] != name;
      }
    }
    forall key | key in t.table ensures t.table[key] in t.texts && t.texts[t.table[key]] == key {
      if key != name { assert s.table[key] in s.table.Values; }
    }
  }

  lemma {:induction false} StepIsSound(s: State, step: Step)
    requires Sound(s) && Enabled(s, step)
    ensures Sound(Take(s, step))
  {
    match step
    case Lock(_, _) =>
    case Clone(symbol, copy) => CloneIsSound(s, symbol, copy);
    case Drop(symbol) => DropIsSound(s, symbol);
    case Advance(symbol, address) =>
      var call := s.lock.value;
      if call.stage.Prune? { PruneIsSound(s); }
      else if call.stage.Insert? { InsertIsSound(s, symbol, address); }
      else if Upgrade(s, call.name).Some? {
        var holder :| holder in s.symbols && s.symbols[holder] == s.table[call.name];
        CloneIsSound(s, holder, symbol);
      }
  }

  lemma {:induction false} RunsAreSound(s: State, steps: seq<Step>, t: State)
    requires Sound(s) && Runs(s, steps, t)
    ensures Sound(t)
    decreases |steps|
  {
    if steps != [] {
      StepIsSound(s, steps[0]);
      RunsAreSound(Take(s, steps[0]), steps[1..], t);
    }
  }

  // ---- what symbols promise -----------------------------------------------------------------------------------

  /** The text a held symbol shows. */
  function Text(s: State, symbol: Symbol): Option<string> {
    if symbol in s.symbols && s.symbols[symbol] in s.texts then Some(s.texts[s.symbols[symbol]]) else None
  }

  /** At every moment of every run, two held symbols have equal text exactly when they share one allocation. */
  lemma {:induction false} EqualTextIsOneAllocation(steps: seq<Step>, s: State, a: Symbol, b: Symbol)
    requires Runs(START, steps, s) && a in s.symbols && b in s.symbols
    ensures Text(s, a).Some? && (Text(s, a) == Text(s, b) <==> s.symbols[a] == s.symbols[b])
  {
    RunsAreSound(START, steps, s);
    assert Entered(s, a) && Entered(s, b);
  }

  /** A symbol shows the same text for as long as it is held, whatever else is dropped, pruned or allocated. */
  lemma {:induction false} TextIsStable(s: State, step: Step, symbol: Symbol)
    requires Sound(s) && Enabled(s, step) && symbol in s.symbols && symbol in Take(s, step).symbols
    ensures Text(Take(s, step), symbol) == Text(s, symbol)
  {
    assert Entered(s, symbol) && Alive(s, s.symbols[symbol]);
  }

  /**
    A step that ends the call leaves one more handle, which shows the name asked for and is what the name
    is found under from now on; a step that does not leaves all handles alone and goes on for the same call.
   */
  lemma {:induction false} InternYieldsTheName(s: State, symbol: Symbol, address: Address)
    requires Sound(s) && Enabled(s, Advance(symbol, address))
    ensures var t, name := Take(s, Advance(symbol, address)), s.lock.value.name;
            if t.lock.None?
            then symbol in t.symbols && t.symbols == s.symbols[symbol := t.symbols[symbol]]
                 && Text(t, symbol) == Some(name) && Upgrade(t, name) == Some(t.symbols[symbol])
            else t.symbols == s.symbols && t.texts == s.texts
                 && t.lock.value.thread == s.lock.value.thread && t.lock.value.name == name
  {
    var t, name := Take(s, Advance(symbol, address)), s.lock.value.name;
    StepIsSound(s, Advance(symbol, address));
    if t.lock.None? { assert t.symbols[symbol] in t.symbols.Values; }
  }

  ghost predicate Interned(s: State, t: State, name: string, symbol: Symbol, address: Address) {
    && t.lock.None? && symbol in t.symbols && t.symbols == s.symbols[symbol := t.symbols[symbol]]
    && Text(t, symbol) == Some(name) && Upgrade(t, name) == Some(t.symbols[symbol])
    && t.symbols[symbol] == (match Upgrade(s, name) case Some(a) => a case None => address)
    && forall other :: other != name ==> Upgrade(t, other) == Upgrade(s, other)
  }

  lemma {:induction false} OneMore(s: State, symbol: Symbol, address: Address, steps: seq<Step>, t: State)
    requires Enabled(s, Advance(symbol, address)) && Runs(Take(s, Advance(symbol, address)), steps, t)
    ensures Runs(s, [Advance(symbol, address)] + steps, t)
  {
    assert ([Advance(symbol, address)] + steps)[1..] == steps;
  }

  lemma {:induction false} HitEnds(s: State, name: string, symbol: Symbol, address: Address)
    requires Sound(s) && s.lock.Some? && s.lock.value.stage.Lookup? && s.lock.value.name == name
    requires symbol !in s.symbols && Free(s, address) && Upgrade(s, name).Some?
    ensures var t := Take(s, Advance(symbol, address)); Interned(s, t, name, symbol, address)
  {
    var t, step := Take(s, Advance(symbol, address)), Advance(symbol, address);
    InternYieldsTheName(s, symbol, address);
    var holder :| holder in s.symbols && s.symbols[holder] == s.table[name];
    AddedHandle(s, t, symbol, holder);
  }

  /** A handle more to an allocation that is held anyway. */
  lemma {:induction false} AddedHandle(s: State, t: State, symbol: Symbol, holder: Symbol)
    requires holder in s.symbols && symbol !in s.symbols
    requires t.table == s.table && t.symbols == s.symbols[symbol := s.symbols[holder]]
    ensures forall name :: Upgrade(t, name) == Upgrade(s, name)
  {
    forall a ensures Alive(t, a) <==> Alive(s, a) {
      if Alive(s, a) {
        var other :| other in s.symbols && s.symbols[other] == a;
        assert t.symbols[other] == a;
      }
      if Alive(t, a) {
        var other :| other in t.symbols && t.symbols[other] == a;
        assert s.symbols[if other == symbol then holder else other] == a;
      }
    }
  }

  lemma {:induction false} InsertEnds(s: State, name: string, symbol: Symbol, address: Address)
    requires Sound(s) && s.lock.Some? && s.lock.value.stage.Insert? && s.lock.value.name == name
    requires symbol !in s.symbols && Free(s, address)
    ensures var t := Take(s, Advance(symbol, address)); Interned(s, t, name, symbol, address)
  {
    var t := Take(s, Advance(symbol, address));
    InternYieldsTheName(s, symbol, address);
    assert t.symbols[symbol] == address;
    forall other | other != name ensures Upgrade(t, other) == Upgrade(s, other) {
      if other in s.table {
        assert s.table[other] in s.table.Values && s.table[other] != address;
        if Alive(s, s.table[other]) {
          var holder :| holder in s.symbols && s.symbols[holder] == s.table[other];
          assert t.symbols[holder] == s.table[other];
        }
        if Alive(t, s.table[other]) {
          var holder :| holder in t.symbols && t.symbols[holder] == s.table[other];
          assert s.symbols[holder] == s.table[other];
        }
      }
    }
  }

  /**
    A call always ends: taken without interruption, with one step if the name is held and with four if not,
    in a handle to the allocation that was held, or to the fresh one; no other name is affected.
   */
  lemma {:induction false} InternEnds(s: State, thread: Thread, name: string, symbol: Symbol, address: Address)
    requires Sound(s) && s.lock.None? && symbol !in s.symbols && Free(s, address)
    ensures var step := Advance(symbol, address);
            var steps := if Upgrade(s, name).Some? then [step] else [step, step, step, step];
            exists t :: Runs(s, [Lock(thread, name)] + steps, t) && Interned(s, t, name, symbol, address)
  {
    var step, lock := Advance(symbol, address), Lock(thread, name);
    var s0 := Take(s, lock);
    StepIsSound(s, lock);
    assert Free(s0, address);
    if Upgrade(s, name).Some? {
      HitEnds(s0, name, symbol, address);
      var t := Take(s0, step);
      assert Upgrade(s0, name) == Upgrade(s, name);
      assert Runs(t, [], t);
      OneMore(s0, symbol, address, [], t);
      LockFirst(s, thread, name, [step] + [], t);
      assert [step] + [] == [step];
      assert Interned(s, t, name, symbol, address);
    } else {
      MissEnds(s0, name, symbol, address);
      var t :| Runs(s0, [step, step, step, step], t) && Interned(s0, t, name, symbol, address);
      LockFirst(s, thread, name, [step, step, step, step], t);
      assert Interned(s, t, name, symbol, address);
    }
  }

  lemma {:induction false} LockFirst(s: State, thread: Thread, name: string, steps: seq<Step>, t: State)
    requires s.lock.None? && Runs(Take(s, Lock(thread, name)), steps, t)
    ensures Runs(s, [Lock(thread, name)] + steps, t)
  {
    assert ([Lock(thread, name)] + steps)[1..] == steps;
  }

  lemma {:induction false} MissEnds(s: State, name: string, symbol: Symbol, address: Address)
    requires Sound(s) && s.lock.Some? && s.lock.value.stage.Lookup? && s.lock.value.name == name
    requires symbol !in s.symbols && Free(s, address) && Upgrade(s, name).None?
    ensures var step := Advance(symbol, address);
            exists t :: Runs(s, [step, step, step, step], t) && Interned(s, t, name, symbol, address)
  {
    var step := Advance(symbol, address);
    var s1 := Take(s, step);
    StepIsSound(s, step);
    PruneIsSound(s1);
    var s2 := Take(s1, step);
    StepIsSound(s1, step);
    var s3 := Take(s2, step);
    StepIsSound(s2, step);
    assert forall a :: a in s2.table.Values ==> a in s1.table.Values;
    assert Free(s1, address) && Free(s2, address) && Free(s3, address);
    assert forall other :: Upgrade(s3, other) == Upgrade(s, other);
    InsertEnds(s3, name, symbol, address);
    var t := Take(s3, step);
    assert Interned(s, t, name, symbol, address);
    hide *;
    assert Runs(t, [], t) by { NoSteps(t); }
    FourSteps(s, s1, s2, s3, t, symbol, address);
  }

  lemma {:induction false} NoSteps(s: State)
    ensures Runs(s, [], s)
  {
  }

  lemma {:induction false} FourSteps(s: State, s1: State, s2: State, s3: State, t: State, symbol: Symbol, address: Address)
    requires Enabled(s, Advance(symbol, address)) && s1 == Take(s, Advance(symbol, address))
    requires Enabled(s1, Advance(symbol, address)) && s2 == Take(s1, Advance(symbol, address))
    requires Enabled(s2, Advance(symbol, address)) && s3 == Take(s2, Advance(symbol, address))
    requires Enabled(s3, Advance(symbol, address)) && t == Take(s3, Advance(symbol, address))
    ensures var step := Advance(symbol, address); Runs(s, [step, step, step, step], t)
  {
    var step := Advance(symbol, address);
    hide *;
    NoSteps(t);
    OneMore(s3, symbol, address, [], t);
    OneMore(s2, symbol, address, [step] + [], t);
    OneMore(s1, symbol, address, [step] + ([step] + []), t);
    OneMore(s, symbol, address, [step] + ([step] + ([step] + [])), t);
    assert [step] + ([step] + ([step] + ([step] + []))) == [step, step, step, step];
  }

  /** A copy is one more handle to the same allocation, and nothing else changes. */
  lemma {:induction false} CloneShares(s: State, symbol: Symbol, copy: Symbol)
    requires Sound(s) && Enabled(s, Clone(symbol, copy))
    ensures var t := Take(s, Clone(symbol, copy));
            && t.symbols.Keys == s.symbols.Keys + {copy} && t.symbols[copy] == t.symbols[symbol] && Text(t, copy) == Text(s, symbol)
            && (forall other :: other in s.symbols ==> t.symbols[other] == s.symbols[other])
            && (forall name :: Upgrade(t, name) == Upgrade(s, name)) && t.lock == s.lock
  {
    AddedHandle(s, Take(s, Clone(symbol, copy)), copy, symbol);
  }

  /** A drop takes one handle away; its name is found as before unless it was the last handle, and then not at all. */
  lemma {:induction false} LastDropForgets(s: State, symbol: Symbol)
    requires Sound(s) && Enabled(s, Drop(symbol))
    ensures var t := Take(s, Drop(symbol));
            && t.symbols == s.symbols - {symbol} && t.lock == s.lock
            && forall name :: Upgrade(t, name) ==
                 if Text(s, symbol) == Some(name) && !exists other :: other in s.symbols && other != symbol && s.symbols[other] == s.symbols[symbol]
                 then None else Upgrade(s, name)
  {
    var t := Take(s, Drop(symbol));
    assert Entered(s, symbol);
    forall a ensures Alive(t, a) <==>
      Alive(s, a) && (a == s.symbols[symbol] ==> exists other :: other in s.symbols && other != symbol && s.symbols[other] == a)
    {
      if a != s.symbols[symbol] && Alive(s, a) {
        var other :| other in s.symbols && s.symbols[other] == a;
        assert t.symbols[other] == a;
      }
      if Alive(t, a) {
        var other :| other in t.symbols && t.symbols[other] == a;
        assert s.symbols[other] == a;
      }
      if other :| other in s.symbols && other != symbol && s.symbols[other] == a { assert t.symbols[other] == a; }
    }
  }

  /** If a symbol with the name is held when the lock is taken and still held at the lookup, its allocation is the one returned. */
  lemma {:induction false} InternShares(s: State, symbol: Symbol, address: Address, holder: Symbol)
    requires Sound(s) && Enabled(s, Advance(symbol, address)) && s.lock.value.stage.Lookup?
    requires holder in s.symbols && Text(s, holder) == Some(s.lock.value.name)
    ensures Take(s, Advance(symbol, address)).symbols == s.symbols[symbol := s.symbols[holder]]
  {
    assert Entered(s, holder) && Alive(s, s.symbols[holder]);
  }

  /** Under the lock a name that was missed stays missing: the second lookup never hits. */
  lemma {:induction false} SecondLookupMisses(steps: seq<Step>, s: State)
    requires Runs(START, steps, s) && s.lock.Some? && s.lock.value.stage.LookAgain?
    ensures Upgrade(s, s.lock.value.name).None?
  {
    RunsAreSound(START, steps, s);
  }

  function Power(k: nat): (n: nat)
    ensures n > 0
  {
    if k == 0 then 1 else 2 * Power(k - 1)
  }

  lemma {:induction false} OneOrEven(k: nat)
    ensures Power(k) == 1 || (Power(k) > 1 && Power(k) % 2 == 0)
  {
  }

  lemma {:induction false} PowersOfTwo(n: nat)
    ensures PowerOfTwo(n) <==> exists k: nat :: n == Power(k)
  {
    if n == 1 {
      assert Power(0) == 1;
    } else if n > 1 && n % 2 == 0 {
      PowersOfTwo(n / 2);
      if PowerOfTwo(n / 2) {
        var k: nat :| n / 2 == Power(k);
        assert n == Power(k + 1);
      }
      if k: nat :| n == Power(k) {
        assert k > 0 && n == 2 * Power(k - 1);
        assert n / 2 == Power(k - 1);
      }
    } else {
      forall k: nat ensures n != Power(k) { OneOrEven(k); }
    }
  }

  /** Pruning removes no entry that could still be found, and leaves none that could not. */
  lemma {:induction false} PruneKeepsTheLiving(steps: seq<Step>, s: State)
    requires Runs(START, steps, s)
    ensures forall name :: Upgrade(s.(table := Pruned(s)), name) == Upgrade(s, name)
    ensures |s.table| >= PRUNE_MIN_LEN && PowerOfTwo(|s.table|) ==>
              forall name :: name in Pruned(s) <==> exists symbol :: symbol in s.symbols && Text(s, symbol) == Some(name)
    ensures !(|s.table| >= PRUNE_MIN_LEN && PowerOfTwo(|s.table|)) ==> Pruned(s) == s.table
  {
    RunsAreSound(START, steps, s);
    PruneIsSound(s);
    if |s.table| >= PRUNE_MIN_LEN && PowerOfTwo(|s.table|) {
      forall name ensures name in Pruned(s) <==> exists symbol :: symbol in s.symbols && Text(s, symbol) == Some(name) {
        if name in Pruned(s) {
          var symbol :| symbol in s.symbols && s.symbols[symbol] == s.table[name];
          assert Text(s, symbol) == Some(name);
        }
        if symbol :| symbol in s.symbols && Text(s, symbol) == Some(name) {
          assert Entered(s, symbol) && Alive(s, s.symbols[symbol]);
        }
      }
    }
  }
}

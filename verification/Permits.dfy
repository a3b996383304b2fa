/**
  Native async permits: a counter raised by compare-and-exchange and lowered when a permit is dropped,
  by any number of pollers, one atomic step at a time (rex-engine/src/config.rs:30-185).
 */
module Permits {
  import opened Wrappers

  const USIZE_MAX: nat := 0xFFFF_FFFF_FFFF_FFFF

  /** Zero is normalised to one. */
  function Normalized(limit: nat): (bound: nat)
    ensures bound >= 1 && (limit >= 1 ==> bound == limit) && (limit == 0 ==> bound == 1)
  {
    if limit == 0 then 1 else limit
  }

  type Poller = nat

  type Permit = nat

  /** Where a poller stands in its retry loop, or a dropped permit in its release. */
  datatype Stage =
    | AtLoad
    | Loaded(active: nat)
    | AtWaker

  /** `waiting` is no field of the controller: the pollers turned away that have been neither woken nor polled since. */
  datatype State = State(
    bound: nat,
    active: nat,
    polling: map<Poller, Stage>,
    live: set<Permit>,
    releasing: set<Permit>,
    waker: Option<Poller>,
    waiting: set<Poller>)

  datatype Step =
    | Poll(poller: Poller)
    | Load(poller: Poller)
    | Exchange(poller: Poller, permit: Permit)
    | StoreWaker(poller: Poller)
    | Release(permit: Permit)
    | Wake(permit: Permit)

  function Start(limit: nat): State {
    State(Normalized(limit), 0, map[], {}, {}, None, {})
  }

  predicate Enabled(s: State, step: Step) {
    match step
    case Poll(poller) => poller !in s.polling
    case Load(poller) => poller in s.polling && s.polling[poller].AtLoad?
    case Exchange(poller, permit) => poller in s.polling && s.polling[poller].Loaded? && permit !in s.live && permit !in s.releasing
    case StoreWaker(poller) => poller in s.polling && s.polling[poller].AtWaker?
    case Release(permit) => permit in s.live
    case Wake(permit) => permit in s.releasing
  }

  /** One atomic step. Lowering the counter wraps around at zero. */
  function Take(s: State, step: Step): State
    requires Enabled(s, step)
  {
    match step
    case Poll(poller) => s.(polling := s.polling[poller := AtLoad], waiting := s.waiting - {poller})
    case Load(poller) => s.(polling := s.polling[poller := if s.active >= s.bound then AtWaker else Loaded(s.active)])
    case Exchange(poller, permit) =>
      if s.active == s.polling[poller].active
      then s.(active := s.active + 1, polling := s.polling - {poller}, live := s.live + {permit})
      else s.(polling := s.polling[poller := AtLoad])
    case StoreWaker(poller) => s.(polling := s.polling - {poller}, waker := Some(poller), waiting := s.waiting + {poller})
    case Release(permit) =>
      s.(active := if s.active == 0 then USIZE_MAX else s.active - 1, live := s.live - {permit}, releasing := s.releasing + {permit})
    case Wake(permit) =>
      s.(releasing := s.releasing - {permit}, waker := None,
         waiting := if s.waker.Some? then s.waiting - {s.waker.value} else s.waiting)
  }

  /** A run under some interleaving; steps that are not enabled are not in it. */
  ghost predicate Runs(s: State, steps: seq<Step>, t: State)
    decreases |steps|
  {
    if steps == [] then s == t
    else Enabled(s, steps[0]) && Runs(Take(s, steps[0]), steps[1..], t)
  }

  // ---- safety over every run ----------------------------------------------------------------------------------

  /** The counter counts the permits that are out, they never exceed the bound, and nobody waits while being polled. */
  ghost predicate Sound(s: State) {
    && s.active == |s.live| <= s.bound
    && s.live !! s.releasing
    && s.waiting !! s.polling.Keys
    && forall poller :: poller in s.polling && s.polling[poller].Loaded? ==> s.polling[poller].active < s.bound
  }

  lemma {:induction false} StepIsSound(s: State, step: Step)
    requires Sound(s) && Enabled(s, step)
    ensures Sound(Take(s, step)) && Take(s, step).bound == s.bound
  {
  }

  lemma {:induction false} RunsAreSound(s: State, steps: seq<Step>, t: State)
    requires Sound(s) && Runs(s, steps, t)
    ensures Sound(t) && t.bound == s.bound
    decreases |steps|
  {
    if steps != [] {
      StepIsSound(s, steps[0]);
      RunsAreSound(Take(s, steps[0]), steps[1..], t);
    }
  }

  /** At every moment of every run from a fresh controller, the active count is the number of live permits, within the bound. */
  lemma {:induction false} CountIsExact(limit: nat, steps: seq<Step>, t: State)
    requires Runs(Start(limit), steps, t)
    ensures t.active == |t.live| <= Normalized(limit)
  {
    RunsAreSound(Start(limit), steps, t);
  }

  /** Neither raising nor lowering the counter ever wraps around. */
  lemma {:induction false} NoWrapAround(limit: nat, steps: seq<Step>, t: State, step: Step)
    requires limit <= USIZE_MAX && Runs(Start(limit), steps, t) && Enabled(t, step)
    ensures Take(t, step).active <= USIZE_MAX
    ensures step.Release? ==> Take(t, step).active == t.active - 1
  {
    RunsAreSound(Start(limit), steps, t);
    StepIsSound(t, step);
  }

  // ---- the retry loop -------------------------------------------------------------------------------------------

  lemma {:induction false} CountFollows(s: State, step: Step)
    requires Enabled(s, step)
    ensures Take(s, step).active != s.active ==> Take(s, step).live != s.live
  {
    var t := Take(s, step);
    match step
    case Exchange(_, permit) => assert permit !in s.live && (t.active != s.active ==> permit in t.live);
    case Release(permit) => assert permit in s.live && permit !in t.live;
    case _ =>
  }

  /** The counter changes only at a step that hands out a permit or takes one back: a failed exchange means that somebody got on. */
  lemma {:induction false} ChangeMeansProgress(s: State, steps: seq<Step>, t: State)
    requires Runs(s, steps, t) && s.active != t.active
    ensures exists i, u :: 0 <= i < |steps| && Runs(s, steps[..i], u) && Enabled(u, steps[i]) && Take(u, steps[i]).live != u.live
    decreases |steps|
  {
    var next := Take(s, steps[0]);
    if next.live != s.live {
      RunsEnd(s);
      assert steps[..0] == [];
    } else {
      CountFollows(s, steps[0]);
      ChangeMeansProgress(next, steps[1..], t);
      var j, u :| 0 <= j < |steps[1..]| && Runs(next, steps[1..][..j], u) && Enabled(u, steps[1..][j])
                  && Take(u, steps[1..][j]).live != u.live;
      RunsStep(s, steps[0], steps[1..][..j], u);
      assert steps[..j + 1] == [steps[0]] + steps[1..][..j] && steps[j + 1] == steps[1..][j];
    }
  }

  /** A poller is turned away only at a moment when every permit is out. */
  lemma {:induction false} RefusedOnlyWhenFull(limit: nat, steps: seq<Step>, s: State, poller: Poller)
    requires Runs(Start(limit), steps, s) && Enabled(s, Load(poller))
    ensures Take(s, Load(poller)).polling[poller].AtWaker? <==> |s.live| == Normalized(limit)
  {
    RunsAreSound(Start(limit), steps, s);
  }

  /** Nothing else sends a poller to its waker: not a failed exchange, and no step of another poller. */
  lemma {:induction false} TurnedAwayOnlyWhenFull(s: State, step: Step, poller: Poller)
    requires Sound(s) && Enabled(s, step)
    requires poller in s.polling ==> !s.polling[poller].AtWaker?
    ensures var t := Take(s, step);
            poller in t.polling && t.polling[poller].AtWaker? <==> step == Load(poller) && |s.live| == s.bound
  {
  }

  /** Who a step is taken by. */
  function Taker(step: Step): Option<Poller> {
    match step
    case Poll(poller) => Some(poller)
    case Load(poller) => Some(poller)
    case Exchange(poller, _) => Some(poller)
    case StoreWaker(poller) => Some(poller)
    case Release(_) => None
    case Wake(_) => None
  }

  ghost predicate TakenBy(steps: seq<Step>, poller: Poller) {
    forall i :: 0 <= i < |steps| ==> Taker(steps[i]) == Some(poller)
  }

  /** Only its own steps move a poller, and at every moment it has exactly one kind of step to take. */
  lemma {:induction false} OwnStepsOnly(s: State, step: Step, poller: Poller)
    requires Enabled(s, step)
    ensures var t := Take(s, step);
            Taker(step) != Some(poller) ==>
              (poller in t.polling <==> poller in s.polling) && (poller in s.polling ==> t.polling[poller] == s.polling[poller])
    ensures Taker(step) == Some(poller) ==>
              if poller !in s.polling then step.Poll?
              else match s.polling[poller]
                   case AtLoad => step.Load?
                   case Loaded(_) => step.Exchange?
                   case AtWaker => step.StoreWaker?
  {
  }

  /** An exchange hands out the permit named, and that one only, if nothing was handed out or back since the load; otherwise the poller looks again. */
  lemma {:induction false} ExchangeIsExact(s: State, poller: Poller, permit: Permit)
    requires Sound(s) && Enabled(s, Exchange(poller, permit))
    ensures var t := Take(s, Exchange(poller, permit));
            if |s.live| == s.polling[poller].active
            then t.live == s.live + {permit} && poller !in t.polling && |t.live| == |s.live| + 1
            else t.live == s.live && t.polling == s.polling[poller := AtLoad]
    ensures var t := Take(s, Exchange(poller, permit));
            t.releasing == s.releasing && t.waker == s.waker && t.waiting == s.waiting
  {
    assert permit !in s.live;
  }

  /** Giving a permit back takes that one permit out and frees its place at once; the waker that is there is used up afterwards. */
  lemma {:induction false} GivingBackIsExact(s: State, permit: Permit)
    requires Sound(s)
    ensures Enabled(s, Release(permit)) ==>
              var t := Take(s, Release(permit));
              && t.live == s.live - {permit} && |t.live| == |s.live| - 1 && permit in t.releasing
              && t.polling == s.polling && t.waker == s.waker && t.waiting == s.waiting
    ensures Enabled(s, Wake(permit)) ==>
              var t := Take(s, Wake(permit));
              && t.live == s.live && t.releasing == s.releasing - {permit} && t.polling == s.polling && t.waker.None?
              && forall poller :: poller in t.waiting <==> poller in s.waiting && s.waker != Some(poller)
  {
  }

  /** By its own steps alone a poller that has not been turned away gets a permit, if there is one. */
  lemma {:induction false} AcquiresAlone(s: State, poller: Poller, permit: Permit) returns (steps: seq<Step>, t: State)
    requires Sound(s) && poller in s.polling && !s.polling[poller].AtWaker? && |s.live| < s.bound
    requires permit !in s.live && permit !in s.releasing
    ensures TakenBy(steps, poller) && Runs(s, steps, t) && t.live == s.live + {permit} && poller !in t.polling
    decreases if s.polling[poller].AtLoad? then 1 else if s.polling[poller].active == s.active then 0 else 2
  {
    var stage := s.polling[poller];
    var step := if stage.AtLoad? then Load(poller) else Exchange(poller, permit);
    var u := Take(s, step);
    StepIsSound(s, step);
    if stage.Loaded? && stage.active == s.active {
      steps, t := [step], u;
      RunsEnd(u);
      RunsStep(s, step, [], u);
      assert [step] + [] == steps;
    } else {
      var rest;
      rest, t := AcquiresAlone(u, poller, permit);
      steps := [step] + rest;
      RunsStep(s, step, rest, t);
      forall i | 0 <= i < |steps| ensures Taker(steps[i]) == Some(poller) { if i > 0 { assert steps[i] == rest[i - 1]; } }
    }
  }

  lemma {:induction false} NoneWhenFull(s: State, steps: seq<Step>, t: State, poller: Poller)
    requires Sound(s) && |s.live| == s.bound && TakenBy(steps, poller) && Runs(s, steps, t)
    ensures t.live == s.live
    decreases |steps|
  {
    if steps != [] {
      StepIsSound(s, steps[0]);
      assert Taker(steps[0]) == Some(poller) && Take(s, steps[0]).live == s.live;
      forall i | 0 <= i < |steps[1..]| ensures Taker(steps[1..][i]) == Some(poller) { assert steps[1..][i] == steps[i + 1]; }
      NoneWhenFull(Take(s, steps[0]), steps[1..], t, poller);
    }
  }

  /** After a look at the counter, a failed exchange included, a poller can get a permit by itself exactly if one is free. */
  lemma {:induction false} AcquiresIffFree(s: State, poller: Poller, permit: Permit)
    requires Sound(s) && poller in s.polling && !s.polling[poller].AtWaker? && permit !in s.live && permit !in s.releasing
    ensures (exists steps, t :: TakenBy(steps, poller) && Runs(s, steps, t) && t.live == s.live + {permit}) <==> |s.live| < s.bound
  {
    if |s.live| < s.bound {
      var steps, t := AcquiresAlone(s, poller, permit);
    } else if steps, t :| TakenBy(steps, poller) && Runs(s, steps, t) && t.live == s.live + {permit} {
      NoneWhenFull(s, steps, t, poller);
      assert false;
    }
  }

  // ---- waking up: what is not guaranteed ------------------------------------------------------------------------

  /** A poller waits, and its waker is not where a release will find it, or there is no permit left to release. */
  predicate Lost(s: State, poller: Poller) {
    poller in s.waiting && !(s.waker == Some(poller) && s.live + s.releasing != {})
  }

  /** A waker stored when the last release has already looked for one, or over that of another poller that waits. */
  predicate Losing(s: State, step: Step) {
    step.StoreWaker? && (s.live == {} == s.releasing || s.waiting - {step.poller} != {})
  }

  /** The two ways in which one poller comes to be lost. */
  lemma {:induction false} LostBy(s: State, step: Step, poller: Poller)
    requires Enabled(s, step) && !Lost(s, poller)
    ensures Lost(Take(s, step), poller) <==>
              || (step == StoreWaker(poller) && s.live == {} == s.releasing)
              || (step.StoreWaker? && step.poller != poller && poller in s.waiting)
  {
    var t := Take(s, step);
    match step
    case Exchange(_, permit) => assert s.live <= t.live;
    case Release(permit) => assert permit in t.releasing;
    case StoreWaker(_) => if s.live + s.releasing == {} { assert s.live == {} == s.releasing; }
    case _ =>
  }

  ghost predicate NobodyLost(s: State) { forall poller :: !Lost(s, poller) }

  /** At no moment of the run is anybody lost. */
  ghost predicate NeverLost(s: State, steps: seq<Step>)
    decreases |steps|
  {
    NobodyLost(s) && (steps != [] && Enabled(s, steps[0]) ==> NeverLost(Take(s, steps[0]), steps[1..]))
  }

  /** No step of the run is a losing one. */
  ghost predicate NeverLosing(s: State, steps: seq<Step>)
    decreases |steps|
  {
    steps != [] && Enabled(s, steps[0]) ==> !Losing(s, steps[0]) && NeverLosing(Take(s, steps[0]), steps[1..])
  }

  lemma {:induction false} LosingLoses(s: State, step: Step)
    requires Enabled(s, step) && NobodyLost(s)
    ensures NobodyLost(Take(s, step)) <==> !Losing(s, step)
  {
    hide Lost, Take, Enabled;
    forall p | Lost(Take(s, step), p) ensures Losing(s, step) {
      LostBy(s, step, p);
      if step != StoreWaker(p) { assert p in s.waiting - {step.poller}; }
    }
    if Losing(s, step) {
      if s.live == {} == s.releasing {
        LostBy(s, step, step.poller);
      } else {
        var p :| p in s.waiting - {step.poller};
        LostBy(s, step, p);
      }
    }
  }

  /** Somebody is lost at some moment of a run exactly if the run has a losing step. */
  lemma {:induction false} LostIff(s: State, steps: seq<Step>)
    requires NobodyLost(s)
    ensures NeverLost(s, steps) <==> NeverLosing(s, steps)
    decreases |steps|
  {
    hide NobodyLost, Losing, Take, Enabled;
    if steps != [] && Enabled(s, steps[0]) {
      LosingLoses(s, steps[0]);
      if NobodyLost(Take(s, steps[0])) { LostIff(Take(s, steps[0]), steps[1..]); }
    }
  }

  /** In a run from a fresh controller. */
  lemma {:induction false} WakeupsAreKept(limit: nat, steps: seq<Step>)
    ensures NeverLost(Start(limit), steps) <==> NeverLosing(Start(limit), steps)
  {
    LostIff(Start(limit), steps);
  }

  /** A run in which `poller` is not polled and no permit is handed out. */
  ghost predicate Unaided(s: State, steps: seq<Step>, poller: Poller)
    decreases |steps|
  {
    steps != [] && Enabled(s, steps[0]) ==>
      && steps[0] != Poll(poller)
      && Take(s, steps[0]).live <= s.live
      && Unaided(Take(s, steps[0]), steps[1..], poller)
  }

  lemma {:induction false} LostStays(s: State, step: Step, poller: Poller)
    requires Sound(s) && Enabled(s, step) && Lost(s, poller) && step != Poll(poller) && Take(s, step).live <= s.live
    ensures Lost(Take(s, step), poller)
  {
    var t := Take(s, step);
    assert t.live + t.releasing <= s.live + s.releasing by {
      match step
      case Exchange(_, permit) => assert permit !in s.live;
      case _ =>
    }
    assert step != StoreWaker(poller) by { assert poller !in s.polling; }
    if s.waker == Some(poller) { assert s.live == {} == s.releasing by { assert s.live + s.releasing == {}; } }
  }

  lemma {:induction false} LostWaits(s: State, steps: seq<Step>, t: State, poller: Poller)
    requires Sound(s) && Lost(s, poller) && Runs(s, steps, t) && Unaided(s, steps, poller)
    ensures poller in t.waiting
    decreases |steps|
  {
    if steps != [] {
      LostStays(s, steps[0], poller);
      StepIsSound(s, steps[0]);
      LostWaits(Take(s, steps[0]), steps[1..], t, poller);
    }
  }

  /** Once another waker stands in the slot, or none, only being polled ends the wait: new permits do not help. */
  lemma {:induction false} ForgottenForGood(s: State, steps: seq<Step>, t: State, poller: Poller)
    requires Sound(s) && poller in s.waiting && s.waker != Some(poller)
    requires Runs(s, steps, t) && Poll(poller) !in steps
    ensures poller in t.waiting && t.waker != Some(poller)
    decreases |steps|
  {
    if steps != [] {
      assert poller !in s.polling;
      StepIsSound(s, steps[0]);
      ForgottenForGood(Take(s, steps[0]), steps[1..], t, poller);
    }
  }

  /** Otherwise one release is enough. */
  lemma {:induction false} ReleaseWakes(s: State, poller: Poller)
    requires Sound(s) && poller in s.waiting && !Lost(s, poller)
    ensures exists steps, t :: Runs(s, steps, t) && Unaided(s, steps, poller) && poller !in t.waiting
  {
    var permit :| permit in s.live + s.releasing;
    if permit in s.releasing {
      WakeNow(s, permit, poller);
    } else {
      var u := Take(s, Release(permit));
      WakeNow(u, permit, poller);
      var t := Take(u, Wake(permit));
      RunsStep(s, Release(permit), [Wake(permit)], t);
      assert [Release(permit)] + [Wake(permit)] == [Release(permit), Wake(permit)];
      assert [Release(permit), Wake(permit)][1..] == [Wake(permit)];
      assert Unaided(s, [Release(permit), Wake(permit)], poller);
    }
  }

  lemma {:induction false} WakeNow(s: State, permit: Permit, poller: Poller)
    requires permit in s.releasing && s.waker == Some(poller)
    ensures var t := Take(s, Wake(permit));
            Runs(s, [Wake(permit)], t) && Unaided(s, [Wake(permit)], poller) && poller !in t.waiting
  {
    assert [Wake(permit)][1..] == [];
    RunsEnd(Take(s, Wake(permit)));
  }

  /** What being lost means: no run wakes the poller unless it is polled again or another poller gets a permit first. */
  lemma {:induction false} LostMeans(s: State, poller: Poller)
    requires Sound(s) && poller in s.waiting
    ensures Lost(s, poller) <==> forall steps, t :: Runs(s, steps, t) && Unaided(s, steps, poller) ==> poller in t.waiting
  {
    hide Lost, Runs, Unaided, Sound;
    if Lost(s, poller) {
      forall steps, t | Runs(s, steps, t) && Unaided(s, steps, poller) ensures poller in t.waiting { LostWaits(s, steps, t, poller); }
    } else {
      ReleaseWakes(s, poller);
    }
  }

  // ---- both ways happen ------------------------------------------------------------------------------------------

  /** The permit comes back between a refused poller's look at the counter and its waker. */
  lemma {:induction false} WakeupCanBeLost(steps: seq<Step>)
    requires steps == [Poll(1), Load(1), Exchange(1, 7), Poll(2), Load(2), Release(7), Wake(7), StoreWaker(2)]
    ensures exists t :: Runs(Start(1), steps, t) && Lost(t, 2) && t.active == 0 && t.polling == map[]
  {
    var s := State(1, 1, map[], {7}, {}, None, {});
    var t := State(1, 0, map[], {}, {}, Some(2), {2});
    assert Lost(t, 2);
    hide *;
    var rest := [Poll(2), Load(2), Release(7), Wake(7), StoreWaker(2)];
    RefusedTooLate(s, rest, t);
    OnePermitOut(s, rest, t);
    assert [Poll(1), Load(1), Exchange(1, 7)] + rest == steps;
  }

  /** Two pollers are turned away while the one permit is out; its release wakes the second, and the first waits on. */
  lemma {:induction false} WakerCanBeOverwritten(steps: seq<Step>)
    requires steps == [Poll(1), Load(1), Exchange(1, 7)]
                      + ([Poll(2), Load(2), StoreWaker(2)] + ([Poll(3), Load(3), StoreWaker(3)] + [Release(7), Wake(7)]))
    ensures exists t :: Runs(Start(1), steps, t) && Lost(t, 2) && t.waker.None? && t.active == 0 && t.polling == map[]
  {
    var s := State(1, 1, map[], {7}, {}, None, {});
    var s2 := State(1, 1, map[], {7}, {}, Some(2), {2});
    var s3 := State(1, 1, map[], {7}, {}, Some(3), {2, 3});
    var t := State(1, 0, map[], {}, {}, None, {2});
    assert Lost(t, 2);
    assert s2.waiting == s.waiting + {2} && s3.waiting == s2.waiting + {3};
    hide *;
    GivenBack(s3, t);
    TurnedAway(s2, 3, [Release(7), Wake(7)], t);
    TurnedAway(s, 2, [Poll(3), Load(3), StoreWaker(3)] + [Release(7), Wake(7)], t);
    OnePermitOut(s, [Poll(2), Load(2), StoreWaker(2)] + ([Poll(3), Load(3), StoreWaker(3)] + [Release(7), Wake(7)]), t);
  }

  lemma {:induction false} OnePermitOut(s: State, rest: seq<Step>, t: State)
    requires s == State(1, 1, map[], {7}, {}, None, {}) && Runs(s, rest, t)
    ensures Runs(Start(1), [Poll(1), Load(1), Exchange(1, 7)] + rest, t)
  {
    var s1 := State(1, 0, map[1 := AtLoad], {}, {}, None, {});
    var s2 := State(1, 0, map[1 := Loaded(0)], {}, {}, None, {});
    assert Enabled(Start(1), Poll(1)) && Take(Start(1), Poll(1)) == s1;
    assert Enabled(s1, Load(1)) && Take(s1, Load(1)) == s2;
    assert Enabled(s2, Exchange(1, 7)) && Take(s2, Exchange(1, 7)) == s;
    hide *;
    RunsStep(s2, Exchange(1, 7), rest, t);
    RunsStep(s1, Load(1), [Exchange(1, 7)] + rest, t);
    RunsStep(Start(1), Poll(1), [Load(1)] + ([Exchange(1, 7)] + rest), t);
    assert [Poll(1)] + ([Load(1)] + ([Exchange(1, 7)] + rest)) == [Poll(1), Load(1), Exchange(1, 7)] + rest;
  }

  /** A poller that looks, is turned away and leaves its waker. */
  lemma {:induction false} TurnedAway(s: State, poller: Poller, rest: seq<Step>, t: State)
    requires poller !in s.polling && poller !in s.waiting && s.active >= s.bound
    requires Runs(s.(waker := Some(poller), waiting := s.waiting + {poller}), rest, t)
    ensures Runs(s, [Poll(poller), Load(poller), StoreWaker(poller)] + rest, t)
  {
    var s1, s2 := s.(polling := s.polling[poller := AtLoad]), s.(polling := s.polling[poller := AtWaker]);
    var s3 := s.(waker := Some(poller), waiting := s.waiting + {poller});
    assert s.waiting - {poller} == s.waiting;
    assert Enabled(s, Poll(poller)) && Take(s, Poll(poller)) == s1;
    assert Enabled(s1, Load(poller)) && Take(s1, Load(poller)) == s2;
    assert Enabled(s2, StoreWaker(poller)) && Take(s2, StoreWaker(poller)) == s3;
    hide *;
    RunsStep(s2, StoreWaker(poller), rest, t);
    RunsStep(s1, Load(poller), [StoreWaker(poller)] + rest, t);
    RunsStep(s, Poll(poller), [Load(poller)] + ([StoreWaker(poller)] + rest), t);
    assert [Poll(poller)] + ([Load(poller)] + ([StoreWaker(poller)] + rest)) == [Poll(poller), Load(poller), StoreWaker(poller)] + rest;
  }

  lemma {:induction false} GivenBack(s: State, t: State)
    requires s == State(1, 1, map[], {7}, {}, Some(3), {2, 3}) && t == State(1, 0, map[], {}, {}, None, {2})
    ensures Runs(s, [Release(7), Wake(7)], t)
  {
    var u := State(1, 0, map[], {}, {7}, Some(3), {2, 3});
    assert Enabled(s, Release(7)) && Take(s, Release(7)) == u;
    assert Enabled(u, Wake(7)) && Take(u, Wake(7)) == t;
    hide *;
    RunsEnd(t);
    RunsStep(u, Wake(7), [], t);
    RunsStep(s, Release(7), [Wake(7)], t);
    assert [Release(7)] + ([Wake(7)] + []) == [Release(7), Wake(7)];
  }

  lemma {:induction false} RefusedTooLate(s: State, steps: seq<Step>, t: State)
    requires s == State(1, 1, map[], {7}, {}, None, {}) && t == State(1, 0, map[], {}, {}, Some(2), {2})
    requires steps == [Poll(2), Load(2), Release(7), Wake(7), StoreWaker(2)]
    ensures Runs(s, steps, t)
  {
    var s4 := State(1, 1, map[2 := AtLoad], {7}, {}, None, {});
    var s5 := State(1, 1, map[2 := AtWaker], {7}, {}, None, {});
    var s6 := State(1, 0, map[2 := AtWaker], {}, {7}, None, {});
    var s7 := State(1, 0, map[2 := AtWaker], {}, {}, None, {});
    assert Enabled(s, Poll(2)) && Take(s, Poll(2)) == s4;
    assert Enabled(s4, Load(2)) && Take(s4, Load(2)) == s5;
    assert Enabled(s5, Release(7)) && Take(s5, Release(7)) == s6;
    assert Enabled(s6, Wake(7)) && Take(s6, Wake(7)) == s7;
    assert Enabled(s7, StoreWaker(2)) && Take(s7, StoreWaker(2)) == t;
    hide *;
    RunsEnd(t);
    RunsStep(s7, StoreWaker(2), [], t);
    RunsStep(s6, Wake(7), [StoreWaker(2)], t);
    RunsStep(s5, Release(7), [Wake(7), StoreWaker(2)], t);
    RunsStep(s4, Load(2), [Release(7), Wake(7), StoreWaker(2)], t);
    RunsStep(s, Poll(2), [Load(2), Release(7), Wake(7), StoreWaker(2)], t);
  }

  lemma {:induction false} RunsEnd(s: State)
    ensures Runs(s, [], s)
  {
  }

  lemma {:induction false} RunsStep(s: State, step: Step, steps: seq<Step>, t: State)
    requires Enabled(s, step) && Runs(Take(s, step), steps, t)
    ensures Runs(s, [step] + steps, t)
  {
    assert ([step] + steps)[1..] == steps;
  }
}

/** The dining philosophers' monitor: one mutex, one condition variable per philosopher, any number
of at least two philosophers around the table.
*/
module Philosophers {
  import opened Arithmetic
  import opened Counting

  datatype Mood = Thinking | Hungry | Eating

  function LeftOf(i: nat, n: nat): nat
    requires i < n
  {
    (i + n - 1) % n
  }

  function RightOf(i: nat, n: nat): nat
    requires i < n
  {
    (i + 1) % n
  }

  /** Going left and going right are rotations that undo each other, and lead to somebody else. */
  lemma Neighbours(i: nat, n: nat)
    requires i < n && n >= 2
    ensures LeftOf(i, n) == (if i == 0 then n - 1 else i - 1)
    ensures RightOf(i, n) == (if i == n - 1 then 0 else i + 1)
    ensures LeftOf(i, n) < n && RightOf(i, n) < n
    ensures RightOf(LeftOf(i, n), n) == i == LeftOf(RightOf(i, n), n)
    ensures LeftOf(i, n) != i && RightOf(i, n) != i
  {
    WrapsOnce(i + n - 1, n);
    WrapsOnce(i + 1, n);
    WrapsOnce(LeftOf(i, n) + 1, n);
    WrapsOnce(RightOf(i, n) + n - 1, n);
  }

  // ---------------------------------------------------------------- what the sections compute

  predicate MayEat(mood: seq<Mood>, i: nat)
    requires i < |mood|
  {
    !mood[LeftOf(i, |mood|)].Eating? && !mood[RightOf(i, |mood|)].Eating? && mood[i].Hungry?
  }

  /** The moods after test(i); philosopher i is signalled exactly when it may eat. */
  function Tested(mood: seq<Mood>, i: nat): (r: seq<Mood>)
    requires i < |mood|
    ensures |r| == |mood|
  {
    if MayEat(mood, i) then mood[i := Eating] else mood
  }

  /** The moods after philosopher i has become hungry and has tried for its forks. */
  function Tried(mood: seq<Mood>, i: nat): (r: seq<Mood>)
    requires i < |mood|
    ensures |r| == |mood|
  {
    Tested(mood[i := Hungry], i)
  }

  /** The moods after philosopher i has put its forks back: its neighbours are tested, the left one
      first after an even number of meals. */
  function Returned(mood: seq<Mood>, i: nat, meals: nat): (r: seq<Mood>)
    requires 2 <= |mood| && i < |mood|
    ensures |r| == |mood|
  {
    var n := |mood|;
    var thinking := mood[i := Thinking];
    if meals % 2 == 0 then Tested(Tested(thinking, LeftOf(i, n)), RightOf(i, n))
    else Tested(Tested(thinking, RightOf(i, n)), LeftOf(i, n))
  }

  /** The monitor's array, updated in place by the sections that run under the mutex. */
  class Table {
    const state: array<Mood>

    constructor (n: nat)
      requires n >= 2
      ensures fresh(state) && state.Length == n
      ensures forall i :: 0 <= i < n ==> state[i] == Thinking
    {
      state := new Mood[n](_ => Thinking);
    }

    method Test(i: nat) returns (signalled: bool)
      requires i < state.Length
      modifies state
      ensures state[..] == Tested(old(state[..]), i)
      ensures signalled == MayEat(old(state[..]), i)
    {
      var n := state.Length;
      signalled := false;
      if state[LeftOf(i, n)] != Eating && state[RightOf(i, n)] != Eating && state[i] == Hungry {
        state[i] := Eating;
        signalled := true;
      }
    }

    /** pickup_forks up to the point where it waits or may eat. */
    method PickupForks(i: nat) returns (mayEat: bool)
      requires i < state.Length
      modifies state
      ensures state[..] == Tried(old(state[..]), i)
      ensures mayEat == (state[i] == Eating)
    {
      state[i] := Hungry;
      var signalled := Test(i);
      mayEat := state[i] == Eating;
    }

    method ReturnForks(i: nat, eatCount: nat) returns (leftSignalled: bool, rightSignalled: bool)
      requires 2 <= state.Length && i < state.Length
      modifies state
      ensures state[..] == Returned(old(state[..]), i, eatCount)
      ensures forall j :: 0 <= j < state.Length ==>
                ((state[j] == Eating && old(state[j]) != Eating) <==>
                 (leftSignalled && j == LeftOf(i, state.Length)) || (rightSignalled && j == RightOf(i, state.Length)))
    {
      var n := state.Length;
      Neighbours(i, n);
      state[i] := Thinking;
      if eatCount % 2 == 0 {
        leftSignalled := Test(LeftOf(i, n));
        rightSignalled := Test(RightOf(i, n));
      } else {
        rightSignalled := Test(RightOf(i, n));
        leftSignalled := Test(LeftOf(i, n));
      }
    }
  }

  // ---------------------------------------------------------------- the monitor as a whole

  datatype Pc =
    | AtRest       // thinking, about to call pickup_forks
    | Parked       // waiting on its condition variable
    | Woken        // about to test again whether it eats
    | Meal(k: nat) // eating; k of the four unprotected reads of its neighbours done

  datatype State = State(
    mood: seq<Mood>,
    pc: seq<Pc>,
    meals: seq<nat>,
    crashed: bool     // an assertion failed
  )

  datatype Move = Go(i: nat) | Wake(i: nat)

  function Init(n: nat): State
  {
    State(seq(n, _ => Thinking), seq(n, _ => AtRest), seq(n, _ => 0), false)
  }

  predicate Shaped(s: State)
  {
    |s.mood| == |s.pc| == |s.meals| >= 2
  }

  predicate Enabled(s: State, i: nat)
    requires i < |s.pc|
  {
    !s.pc[i].Parked?
  }

  /** pickup_forks returns to philosopher i, unless its assertion fails. */
  function Served(s: State, i: nat): State
    requires Shaped(s) && i < |s.pc|
  {
    var n := |s.mood|;
    if s.mood[LeftOf(i, n)].Eating? || s.mood[RightOf(i, n)].Eating? then s.(crashed := true)
    else s.(pc := s.pc[i := Meal(0)], meals := s.meals[i := s.meals[i] + 1])
  }

  /** Whoever began to eat between the two moods has been signalled. */
  function Signalled(pc: seq<Pc>, mood: seq<Mood>, mood': seq<Mood>): (r: seq<Pc>)
    requires |pc| == |mood| == |mood'|
    ensures |r| == |pc|
  {
    seq(|pc|, j requires 0 <= j < |pc| =>
      if pc[j].Parked? && !mood[j].Eating? && mood'[j].Eating? then Woken else pc[j])
  }

  function Step(s: State, i: nat): State
    requires Shaped(s) && i < |s.pc| && Enabled(s, i)
  {
    var n := |s.mood|;
    match s.pc[i]
    case AtRest =>
      var tried := s.(mood := Tried(s.mood, i));
      if tried.mood[i].Eating? then Served(tried, i) else tried.(pc := s.pc[i := Parked])
    case Woken => if s.mood[i].Eating? then Served(s, i) else s.(pc := s.pc[i := Parked])
    case Meal(k) =>
      if k < 4 then
        var neighbour := if k % 2 == 0 then LeftOf(i, n) else RightOf(i, n);
        if s.mood[neighbour].Eating? then s.(crashed := true) else s.(pc := s.pc[i := Meal(k + 1)])
      else if s.meals[i] == 0 then s.(crashed := true)
      else
        var mood := Returned(s.mood, i, s.meals[i]);
        s.(mood := mood, pc := Signalled(s.pc, s.mood, mood)[i := AtRest])
  }

  function Apply(s: State, m: Move): State
    requires Shaped(s)
  {
    if s.crashed || m.i >= |s.pc| then s
    else if m.Wake? then (if s.pc[m.i].Parked? then s.(pc := s.pc[m.i := Woken]) else s)
    else if Enabled(s, m.i) then Step(s, m.i)
    else s
  }

  function Run(s: State, moves: seq<Move>): (s': State)
    requires Shaped(s)
    ensures Shaped(s') && |s'.pc| == |s.pc|
  {
    if moves == [] then s else Apply(Run(s, moves[..|moves| - 1]), moves[|moves| - 1])
  }

  // ---------------------------------------------------------------- the invariant

  ghost predicate Fed(mood: seq<Mood>, i: nat)
    requires i < |mood|
  {
    mood[LeftOf(i, |mood|)].Eating? || mood[RightOf(i, |mood|)].Eating?
  }

  /** No two neighbours eat. */
  ghost predicate Peaceful(mood: seq<Mood>)
  {
    forall i :: 0 <= i < |mood| && mood[i].Eating? ==> !Fed(mood, i)
  }

  /** Whoever is hungry, apart from the philosophers in open, has a neighbour that eats. */
  ghost predicate Justified(mood: seq<Mood>, open: set<nat>)
  {
    forall i :: 0 <= i < |mood| && mood[i].Hungry? && i !in open ==> Fed(mood, i)
  }

  predicate PcRight(p: Pc, m: Mood, meals: nat)
  {
    match p
    case AtRest => m.Thinking?
    case Parked => m.Hungry?
    case Woken => !m.Thinking?
    case Meal(k) => m.Eating? && k <= 4 && meals > 0
  }

  ghost predicate Inv(s: State)
  {
    && Shaped(s) && !s.crashed
    && Peaceful(s.mood) && Justified(s.mood, {})
    && (forall i :: 0 <= i < |s.pc| ==> PcRight(s.pc[i], s.mood[i], s.meals[i]))
  }

  /** A test keeps the peace, and closes the case of the philosopher it tests. */
  lemma TestKeeps(mood: seq<Mood>, i: nat, open: set<nat>)
    requires 2 <= |mood| && i < |mood| && Peaceful(mood) && Justified(mood, open)
    ensures Peaceful(Tested(mood, i)) && Justified(Tested(mood, i), open - {i})
  {
    var n, mood' := |mood|, Tested(mood, i);
    forall j | 0 <= j < n
      ensures mood'[j].Eating? ==> !Fed(mood', j)
      ensures mood'[j].Hungry? && j !in open - {i} ==> Fed(mood', j)
    {
      Neighbours(i, n);
      Neighbours(j, n);
    }
  }

  lemma TryKeeps(mood: seq<Mood>, i: nat)
    requires 2 <= |mood| && i < |mood| && mood[i].Thinking? && Peaceful(mood) && Justified(mood, {})
    ensures Peaceful(Tried(mood, i)) && Justified(Tried(mood, i), {})
  {
    var hungry := mood[i := Hungry];
    forall j | 0 <= j < |mood|
      ensures Fed(hungry, j) == Fed(mood, j)
    {
      Neighbours(j, |mood|);
    }
    TestKeeps(hungry, i, {i});
    assert {i} - {i} == {};
  }

  lemma ReturnKeeps(mood: seq<Mood>, i: nat, meals: nat)
    requires 2 <= |mood| && i < |mood| && mood[i].Eating? && Peaceful(mood) && Justified(mood, {})
    ensures Peaceful(Returned(mood, i, meals)) && Justified(Returned(mood, i, meals), {})
  {
    var n := |mood|;
    var l, r := LeftOf(i, n), RightOf(i, n);
    var thinking := mood[i := Thinking];
    Neighbours(i, n);
    forall j | 0 <= j < n
      ensures thinking[j].Eating? ==> !Fed(thinking, j)
      ensures thinking[j].Hungry? && j !in {l, r} ==> Fed(thinking, j)
    {
      Neighbours(j, n);
    }
    if meals % 2 == 0 {
      TestKeeps(thinking, l, {l, r});
      TestKeeps(Tested(thinking, l), r, {l, r} - {l});
      assert {l, r} - {l} - {r} == {};
    } else {
      TestKeeps(thinking, r, {l, r});
      TestKeeps(Tested(thinking, r), l, {l, r} - {r});
      assert {l, r} - {r} - {l} == {};
    }
  }

  /** Returning forks makes their owner think, and at most lets hungry philosophers eat. */
  lemma ReturnMoods(mood: seq<Mood>, i: nat, meals: nat)
    requires 2 <= |mood| && i < |mood|
    ensures Returned(mood, i, meals)[i].Thinking?
    ensures forall j :: 0 <= j < |mood| && j != i ==>
              var m := Returned(mood, i, meals)[j];
              m == mood[j] || (mood[j].Hungry? && m.Eating?)
  {
    Neighbours(i, |mood|);
  }

  lemma PickupKeeps(s: State, i: nat)
    requires Inv(s) && i < |s.pc| && s.pc[i].AtRest?
    ensures Inv(Step(s, i))
  {
    assert PcRight(s.pc[i], s.mood[i], s.meals[i]);
    TryKeeps(s.mood, i);
    var mood := Tried(s.mood, i);
    assert forall j :: 0 <= j < |mood| && j != i ==> mood[j] == s.mood[j];
    assert mood[i].Eating? ==> !Fed(mood, i);
  }

  lemma RecheckKeeps(s: State, i: nat)
    requires Inv(s) && i < |s.pc| && s.pc[i].Woken?
    ensures Inv(Step(s, i))
  {
    assert PcRight(s.pc[i], s.mood[i], s.meals[i]);
    assert s.mood[i].Eating? ==> !Fed(s.mood, i);
  }

  lemma ReadKeeps(s: State, i: nat)
    requires Inv(s) && i < |s.pc| && s.pc[i].Meal? && s.pc[i].k < 4
    ensures Inv(Step(s, i))
  {
    assert PcRight(s.pc[i], s.mood[i], s.meals[i]);
    assert !Fed(s.mood, i);
  }

  lemma ReturnStepKeeps(s: State, i: nat)
    requires Inv(s) && i < |s.pc| && s.pc[i].Meal? && s.pc[i].k >= 4
    ensures Inv(Step(s, i))
  {
    assert PcRight(s.pc[i], s.mood[i], s.meals[i]);
    ReturnKeeps(s.mood, i, s.meals[i]);
    ReturnMoods(s.mood, i, s.meals[i]);
    var s' := Step(s, i);
    forall j | 0 <= j < |s.pc|
      ensures PcRight(s'.pc[j], s'.mood[j], s'.meals[j])
    {
      assert PcRight(s.pc[j], s.mood[j], s.meals[j]);
    }
  }

  lemma StepKeeps(s: State, i: nat)
    requires Inv(s) && i < |s.pc| && Enabled(s, i)
    ensures Inv(Step(s, i))
  {
    match s.pc[i]
    case AtRest => PickupKeeps(s, i);
    case Woken => RecheckKeeps(s, i);
    case Meal(k) =>
      if k < 4 {
        ReadKeeps(s, i);
      } else {
        ReturnStepKeeps(s, i);
      }
  }

  lemma {:induction false} RunKeeps(n: nat, moves: seq<Move>)
    requires n >= 2
    ensures Inv(Run(Init(n), moves))
  {
    if moves != [] {
      RunKeeps(n, moves[..|moves| - 1]);
      var s, m := Run(Init(n), moves[..|moves| - 1]), moves[|moves| - 1];
      if m.i < n && m.Go? && Enabled(s, m.i) {
        StepKeeps(s, m.i);
      }
    }
  }

  // ---------------------------------------------------------------- what the monitor guarantees

  /** Between sections, for every schedule: no two neighbours eat, every hungry philosopher has a
      neighbour that eats, and no assertion of the program has failed; in particular the reads of
      the neighbours made without the mutex all found them not eating. */
  lemma TableSafe(n: nat, moves: seq<Move>)
    requires n >= 2
    ensures var s := Run(Init(n), moves);
            && !s.crashed
            && (forall i :: 0 <= i < |s.mood| && s.mood[i].Eating? ==>
                  !s.mood[LeftOf(i, n)].Eating? && !s.mood[RightOf(i, n)].Eating?)
            && (forall i :: 0 <= i < |s.mood| && s.mood[i].Hungry? ==>
                  s.mood[LeftOf(i, n)].Eating? || s.mood[RightOf(i, n)].Eating?)
            && (forall i :: 0 <= i < |s.pc| && s.pc[i].Meal? ==>
                  !s.mood[LeftOf(i, n)].Eating? && !s.mood[RightOf(i, n)].Eating?)
  {
    var s := Run(Init(n), moves);
    RunKeeps(n, moves);
    forall i | 0 <= i < |s.mood|
      ensures s.mood[i].Eating? ==> !Fed(s.mood, i)
      ensures s.mood[i].Hungry? ==> Fed(s.mood, i)
      ensures s.pc[i].Meal? ==> s.mood[i].Eating?
    {
      assert PcRight(s.pc[i], s.mood[i], s.meals[i]);
    }
  }

  /** No wakeup is lost: whoever is parked has not been given its forks, and has a neighbour that
      eats and can take a step; so somebody at the table can always take a step. */
  lemma NoLostWakeup(n: nat, moves: seq<Move>)
    requires n >= 2
    ensures var s := Run(Init(n), moves);
            && (forall i :: 0 <= i < |s.pc| && s.pc[i].Parked? ==>
                  s.mood[i].Hungry? &&
                  exists j :: (j == LeftOf(i, n) || j == RightOf(i, n))
                              && 0 <= j < |s.pc| && s.mood[j].Eating? && Enabled(s, j))
            && (exists i :: 0 <= i < |s.pc| && Enabled(s, i))
  {
    var s := Run(Init(n), moves);
    RunKeeps(n, moves);
    forall i | 0 <= i < |s.pc| && s.pc[i].Parked?
      ensures s.mood[i].Hungry?
      ensures exists j :: (j == LeftOf(i, n) || j == RightOf(i, n))
                          && 0 <= j < |s.pc| && s.mood[j].Eating? && Enabled(s, j)
    {
      assert PcRight(s.pc[i], s.mood[i], s.meals[i]);
      var l, r := LeftOf(i, n), RightOf(i, n);
      Neighbours(i, n);
      assert Fed(s.mood, i);
      assert PcRight(s.pc[l], s.mood[l], s.meals[l]) && PcRight(s.pc[r], s.mood[r], s.meals[r]);
      assert Enabled(s, if s.mood[l].Eating? then l else r);
    }
    assert s.pc[0].Parked? || Enabled(s, 0);
  }

  // ---------------------------------------------------------------- bounded work

  /** Where a philosopher is, and its mood. */
  datatype Place = Place(pc: Pc, mood: Mood)

  function Places(s: State): (r: seq<Place>)
    requires Shaped(s)
    ensures |r| == |s.pc|
  {
    seq(|s.pc|, i requires 0 <= i < |s.pc| => Place(s.pc[i], s.mood[i]))
  }

  /** How many steps a philosopher is from its next meal, at most. */
  function Distance(p: Place): nat
  {
    match p.pc
    case Meal(k) => if k <= 4 then 8 - k else 0
    case AtRest => 3
    case Parked => 2
    case Woken => if p.mood.Eating? then 1 else 3
  }

  /** How many meals have begun. */
  ghost function Meals(s: State): nat { Total(s.meals, Itself) }

  ghost function Potential(s: State): nat
    requires Shaped(s)
  {
    Total(Places(s), Distance)
  }

  /** Only philosopher i gets further from its next meal, by at most d more than one step nearer. */
  ghost predicate Nearer(s: State, s': State, i: nat, d: nat)
  {
    && Shaped(s) && Shaped(s') && |s'.pc| == |s.pc| && i < |s.pc|
    && (forall j :: 0 <= j < |s.pc| && j != i ==> Distance(Places(s')[j]) <= Distance(Places(s)[j]))
    && Distance(Places(s')[i]) + 1 <= Distance(Places(s)[i]) + d
  }

  lemma NearerSpends(s: State, s': State, i: nat, d: nat)
    requires Nearer(s, s', i, d)
    ensures Potential(s') + 1 <= Potential(s) + d
  {
    var a, b := Places(s), Places(s');
    TotalUpdate(a, i, b[i], Distance);
    TotalSlack(b, a[i := b[i]], Distance, Distance, 0);
  }

  /** What a step costs: nothing but the nearness it gains, or a meal of eight steps. */
  ghost predicate Spends(s: State, s': State, i: nat)
  {
    if s'.meals == s.meals then Nearer(s, s', i, 0)
    else Nearer(s, s', i, 8) && i < |s.meals| && s'.meals == s.meals[i := s.meals[i] + 1]
  }

  lemma PickupSpends(s: State, i: nat)
    requires Inv(s) && i < |s.pc| && s.pc[i].AtRest?
    ensures Spends(s, Step(s, i), i)
  {
    PickupKeeps(s, i);
    var mood := Tried(s.mood, i);
    assert forall j :: 0 <= j < |mood| && j != i ==> mood[j] == s.mood[j];
  }

  lemma ReturnSpends(s: State, i: nat)
    requires Inv(s) && i < |s.pc| && s.pc[i].Meal? && s.pc[i].k >= 4
    ensures Spends(s, Step(s, i), i)
  {
    assert PcRight(s.pc[i], s.mood[i], s.meals[i]);
    ReturnMoods(s.mood, i, s.meals[i]);
  }

  lemma StepSpends(s: State, i: nat)
    requires Inv(s) && i < |s.pc| && Enabled(s, i)
    ensures Spends(s, Step(s, i), i)
  {
    assert PcRight(s.pc[i], s.mood[i], s.meals[i]);
    StepKeeps(s, i);
    if s.pc[i].AtRest? {
      PickupSpends(s, i);
    } else if s.pc[i].Meal? && s.pc[i].k >= 4 {
      ReturnSpends(s, i);
    }
  }

  /** How many steps of a schedule were taken by a philosopher that could take one. */
  ghost function Work(s: State, moves: seq<Move>): nat
    requires Shaped(s)
  {
    if moves == [] then 0
    else
      var before, m := moves[..|moves| - 1], moves[|moves| - 1];
      var now := Run(s, before);
      Work(s, before) + (if m.Go? && m.i < |now.pc| && Enabled(now, m.i) then 1 else 0)
  }

  /** How often a schedule woke a parked philosopher for no reason. */
  ghost function SpuriousWakeups(s: State, moves: seq<Move>): nat
    requires Shaped(s)
  {
    if moves == [] then 0
    else
      var before, m := moves[..|moves| - 1], moves[|moves| - 1];
      var now := Run(s, before);
      SpuriousWakeups(s, before) + (if m.Wake? && m.i < |now.pc| && now.pc[m.i].Parked? then 1 else 0)
  }

  lemma SpendsBudget(s: State, s': State, i: nat)
    requires Shaped(s) && Shaped(s') && Spends(s, s', i)
    ensures 1 + Potential(s') + 8 * Meals(s) <= Potential(s) + 8 * Meals(s')
  {
    if s'.meals == s.meals {
      NearerSpends(s, s', i, 0);
    } else {
      NearerSpends(s, s', i, 8);
      TotalIncrement(s.meals, i);
    }
  }

  lemma GoSpends(s: State, i: nat)
    requires Inv(s) && i < |s.pc| && Enabled(s, i)
    ensures Inv(Step(s, i))
    ensures 1 + Potential(Step(s, i)) + 8 * Meals(s) <= Potential(s) + 8 * Meals(Step(s, i))
  {
    StepKeeps(s, i);
    StepSpends(s, i);
    SpendsBudget(s, Step(s, i), i);
  }

  lemma WakeSpends(s: State, i: nat)
    requires Inv(s) && i < |s.pc| && s.pc[i].Parked?
    ensures var s' := Apply(s, Wake(i));
            Shaped(s') && Potential(s') <= Potential(s) + 1 && Meals(s') == Meals(s)
  {
    assert PcRight(s.pc[i], s.mood[i], s.meals[i]);
    NearerSpends(s, Apply(s, Wake(i)), i, 2);
  }

  lemma {:induction false} WorkSpends(n: nat, moves: seq<Move>)
    requires n >= 2
    ensures var s0 := Init(n);
            var s := Run(s0, moves);
            Work(s0, moves) + Potential(s) <= 3 * n + 8 * Meals(s) + SpuriousWakeups(s0, moves)
  {
    var s0 := Init(n);
    if moves == [] {
      TotalAtMost(Places(s0), Distance, 3);
    } else {
      var before, m := moves[..|moves| - 1], moves[|moves| - 1];
      var s := Run(s0, before);
      WorkSpends(n, before);
      RunKeeps(n, before);
      if m.i < |s.pc| {
        if m.Go? && Enabled(s, m.i) {
          GoSpends(s, m.i);
        } else if m.Wake? && s.pc[m.i].Parked? {
          WakeSpends(s, m.i);
        }
      }
    }
  }

  /** Meals keep coming without any fairness assumption: a schedule cannot take more than eight steps
      for each meal begun, three for each philosopher and one for each wakeup for no reason. */
  lemma MealsKeepComing(n: nat, moves: seq<Move>)
    requires n >= 2
    ensures var s0 := Init(n);
            Work(s0, moves) <= 3 * n + 8 * Meals(Run(s0, moves)) + SpuriousWakeups(s0, moves)
  {
    WorkSpends(n, moves);
  }
}

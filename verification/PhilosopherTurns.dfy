/** Whose turn it is at the table: every philosopher can always be fed by its neighbours, and the order in
which a philosopher tests its neighbours matters at a table of three only.
*/
module PhilosopherTurns {
  import opened Philosophers

  // ---------------------------------------------------------------- everybody can eat

  /** How many steps a neighbour is from being at rest, once it eats. */
  function Rest(p: Pc, m: Mood): nat
  {
    match p
    case AtRest => 0
    case Meal(k) => if k <= 4 then 5 - k else 0
    case Woken => if m.Eating? then 6 else 7
    case Parked => 7
  }

  lemma EaterSteps(s: State, j: nat)
    requires Inv(s) && j < |s.pc| && s.mood[j].Eating? && Enabled(s, j) && Inv(Step(s, j))
    ensures |Step(s, j).pc| == |s.pc|
    ensures Rest(Step(s, j).pc[j], Step(s, j).mood[j]) < Rest(s.pc[j], s.mood[j])
  {
    assert PcRight(s.pc[j], s.mood[j], s.meals[j]);
    if s.pc[j].Meal? && s.pc[j].k >= 4 {
      ReturnMoods(s.mood, j, s.meals[j]);
    }
  }

  lemma EaterSpares(s: State, j: nat, x: nat)
    requires Inv(s) && j < |s.pc| && x < |s.pc| && x != j && s.mood[j].Eating? && Enabled(s, j) && Inv(Step(s, j))
    ensures var s' := Step(s, j);
            && |s'.pc| == |s.pc|
            && Rest(s'.pc[x], s'.mood[x]) <= Rest(s.pc[x], s.mood[x])
            && (s.mood[x].Hungry? ==> !s'.mood[x].Thinking? && (s'.pc[x] == s.pc[x] || s'.pc[x].Woken?))
  {
    assert PcRight(s.pc[j], s.mood[j], s.meals[j]);
    assert PcRight(s.pc[x], s.mood[x], s.meals[x]);
    if s.pc[j].Meal? && s.pc[j].k >= 4 {
      ReturnMoods(s.mood, j, s.meals[j]);
    }
  }

  lemma {:induction false} RunFirst(s: State, m: Move, moves: seq<Move>)
    requires Shaped(s) && Shaped(Apply(s, m))
    ensures Run(s, [m] + moves) == Run(Apply(s, m), moves)
  {
    var all := [m] + moves;
    if moves == [] {
      assert all[..|all| - 1] == [];
    } else {
      assert all[..|all| - 1] == [m] + moves[..|moves| - 1];
      RunFirst(s, m, moves[..|moves| - 1]);
    }
  }

  /** Only philosopher i and its neighbours move in this schedule, and nobody is woken for no reason. */
  predicate Nearby(moves: seq<Move>, i: nat, n: nat)
    requires i < n
  {
    forall k :: 0 <= k < |moves| ==> moves[k].Go? && moves[k].i in {LeftOf(i, n), i, RightOf(i, n)}
  }

  lemma Joins(s: State, m: Move, rest: seq<Move>, i: nat) returns (moves: seq<Move>)
    requires Shaped(s) && Shaped(Apply(s, m)) && |Apply(s, m).pc| == |s.pc| && i < |s.pc|
    requires Nearby(rest, i, |s.pc|) && m.Go? && m.i in {LeftOf(i, |s.pc|), i, RightOf(i, |s.pc|)}
    ensures Nearby(moves, i, |s.pc|) && Run(s, moves) == Run(Apply(s, m), rest)
  {
    moves := [m] + rest;
    RunFirst(s, m, rest);
  }

  /** Whoever has been given its forks takes them. */
  lemma TakesForks(s: State, i: nat) returns (moves: seq<Move>)
    requires Inv(s) && i < |s.pc| && s.pc[i].Woken? && s.mood[i].Eating?
    ensures Nearby(moves, i, |s.pc|) && Run(s, moves).pc[i].Meal?
  {
    StepKeeps(s, i);
    assert Apply(s, Go(i)) == Step(s, i);
    moves := Joins(s, Go(i), [], i);
  }

  /** A hungry philosopher is fed by its neighbours alone. */
  lemma {:induction false} Feeds(s: State, i: nat) returns (moves: seq<Move>)
    requires Inv(s) && i < |s.pc| && s.mood[i].Hungry?
    ensures Nearby(moves, i, |s.pc|) && Run(s, moves).pc[i].Meal?
    decreases var n := |s.pc|;
              Rest(s.pc[LeftOf(i, n)], s.mood[LeftOf(i, n)]) + Rest(s.pc[RightOf(i, n)], s.mood[RightOf(i, n)])
  {
    var n := |s.pc|;
    var l, r := LeftOf(i, n), RightOf(i, n);
    Neighbours(i, n);
    assert Fed(s.mood, i);
    var j := if s.mood[l].Eating? then l else r;
    assert PcRight(s.pc[j], s.mood[j], s.meals[j]) && PcRight(s.pc[i], s.mood[i], s.meals[i]);
    var s' := Step(s, j);
    assert Apply(s, Go(j)) == s';
    StepKeeps(s, j);
    EaterSteps(s, j);
    EaterSpares(s, j, i);
    if l != j {
      EaterSpares(s, j, l);
    }
    if r != j {
      EaterSpares(s, j, r);
    }
    var rest;
    if s'.mood[i].Hungry? {
      rest := Feeds(s', i);
    } else {
      assert PcRight(s'.pc[i], s'.mood[i], s'.meals[i]);
      rest := TakesForks(s', i);
    }
    moves := Joins(s, Go(j), rest, i);
  }

  /** After every schedule, every philosopher can be brought to a meal by its own steps and those of its
      neighbours, who give their forks back. */
  lemma EverybodyCanEat(n: nat, moves: seq<Move>, i: nat)
    requires n >= 2 && i < n
    ensures exists more :: Nearby(more, i, n) && Run(Run(Init(n), moves), more).pc[i].Meal?
  {
    var s := Run(Init(n), moves);
    RunKeeps(n, moves);
    assert PcRight(s.pc[i], s.mood[i], s.meals[i]);
    var more := Served(s, i);
    assert Nearby(more, i, n);
  }

  lemma Served(s: State, i: nat) returns (moves: seq<Move>)
    requires Inv(s) && i < |s.pc|
    ensures Nearby(moves, i, |s.pc|) && Run(s, moves).pc[i].Meal?
  {
    assert PcRight(s.pc[i], s.mood[i], s.meals[i]);
    if s.pc[i].Meal? {
      moves := [];
    } else if s.mood[i].Hungry? {
      moves := Feeds(s, i);
    } else if s.pc[i].Woken? {
      moves := TakesForks(s, i);
    } else {
      var s' := Step(s, i);
      assert Apply(s, Go(i)) == s';
      StepKeeps(s, i);
      assert PcRight(s'.pc[i], s'.mood[i], s'.meals[i]);
      var rest := [];
      if !s'.pc[i].Meal? {
        rest := Feeds(s', i);
      }
      moves := Joins(s, Go(i), rest, i);
    }
  }

  // ---------------------------------------------------------------- the order of the tests

  /** The neighbour that is tested first, the left one after an even number of meals, gets its forks if it
      may eat once the philosopher thinks; and the other one gets them if it then still may. */
  lemma FirstTestedWins(mood: seq<Mood>, i: nat, meals: nat)
    requires 2 <= |mood| && i < |mood|
    ensures var n, thinking := |mood|, mood[i := Thinking];
            var first := if meals % 2 == 0 then LeftOf(i, n) else RightOf(i, n);
            var second := if meals % 2 == 0 then RightOf(i, n) else LeftOf(i, n);
            var after := Returned(mood, i, meals);
            && (MayEat(thinking, first) ==> after[first].Eating?)
            && (first != second ==> (after[first] != mood[first] <==> MayEat(thinking, first)))
            && (MayEat(thinking, second) && !after[second].Eating? ==>
                  first in {LeftOf(second, n), RightOf(second, n)} && MayEat(thinking, first))
  {
    Neighbours(i, |mood|);
    Neighbours(LeftOf(i, |mood|), |mood|);
    Neighbours(RightOf(i, |mood|), |mood|);
  }

  /** At a table of n, it makes no difference how many meals came before, and so in which order the two
      neighbours are tested. */
  ghost predicate OrderIndifferent(n: nat)
    requires n >= 2
  {
    forall mood: seq<Mood>, i: nat, k: nat, k': nat ::
      |mood| == n && i < n ==> Returned(mood, i, k) == Returned(mood, i, k')
  }

  /** Tests of two philosophers that are not neighbours commute. */
  lemma TestsCommute(mood: seq<Mood>, l: nat, r: nat)
    requires |mood| >= 2 && l < |mood| && r < |mood|
    requires l !in {LeftOf(r, |mood|), RightOf(r, |mood|)} && r !in {LeftOf(l, |mood|), RightOf(l, |mood|)}
    ensures Tested(Tested(mood, l), r) == Tested(Tested(mood, r), l)
  {
    Neighbours(l, |mood|);
    Neighbours(r, |mood|);
  }

  lemma Commute(mood: seq<Mood>, i: nat, k: nat, k': nat)
    requires |mood| >= 2 && |mood| != 3 && i < |mood|
    ensures Returned(mood, i, k) == Returned(mood, i, k')
  {
    var n := |mood|;
    var l, r := LeftOf(i, n), RightOf(i, n);
    Neighbours(i, n);
    Neighbours(l, n);
    Neighbours(r, n);
    TestsCommute(mood[i := Thinking], l, r);
  }

  /** Of two hungry neighbours that sit beside each other, only the one tested first gets to eat. */
  lemma HungryPair(mood: seq<Mood>, i: nat, l: nat, r: nat, k: nat)
    requires 2 <= |mood| && i < |mood| && l < |mood| && r < |mood| && l != i && r != i && l != r
    requires LeftOf(i, |mood|) == l && RightOf(i, |mood|) == r
    requires LeftOf(l, |mood|) == r && RightOf(l, |mood|) == i && LeftOf(r, |mood|) == i && RightOf(r, |mood|) == l
    requires mood[l].Hungry? && mood[r].Hungry?
    ensures Returned(mood, i, k)[l].Eating? <==> k % 2 == 0
  {
    var thinking := mood[i := Thinking];
    assert MayEat(thinking, l) && MayEat(thinking, r);
    assert !MayEat(thinking[l := Eating], r) && !MayEat(thinking[r := Eating], l);
  }

  /** At a table of three the neighbours of a philosopher sit beside each other. */
  lemma Triangle(n: nat)
    requires n == 3
    ensures LeftOf(0, n) == 2 && RightOf(0, n) == 1
    ensures LeftOf(2, n) == 1 && RightOf(2, n) == 0 && LeftOf(1, n) == 0 && RightOf(1, n) == 2
  {
  }

  lemma ThreeDiffer(n: nat, k: nat)
    requires n == 3
    ensures !OrderIndifferent(n)
  {
    var mood: seq<Mood> := seq(n, _ => Hungry);
    Triangle(n);
    HungryPair(mood, 0, 2, 1, k);
    HungryPair(mood, 0, 2, 1, k + 1);
    assert Returned(mood, 0, k) != Returned(mood, 0, k + 1);
  }

  /** Alternating the order of the tests makes a difference at a table of three and at no other. */
  lemma OrderMattersIff(n: nat)
    requires n >= 2
    ensures OrderIndifferent(n) <==> n != 3
  {
    if n == 3 {
      ThreeDiffer(n, 0);
    } else {
      forall mood: seq<Mood>, i: nat, k: nat, k': nat | |mood| == n && i < n
        ensures Returned(mood, i, k) == Returned(mood, i, k')
      {
        Commute(mood, i, k, k');
      }
    }
  }
}

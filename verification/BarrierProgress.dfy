/** Progress of the barrier: it is never stuck, and every round costs a bounded amount of work. */
module BarrierProgress {
  import opened Counting
  import opened Barrier

  /** No thread can take a step unless it is woken for no reason. */
  ghost predicate Stuck(s: State)
  {
    forall t :: 0 <= t < |s.pc| ==> !Enabled(s, t)
  }

  /** When the gate is shut, some thread inside it can take a step: no wakeup is lost, neither
      when the counter fills up without a broadcast nor when the last thread out leaves the
      others parked at the first wall. */
  lemma FullGateMoves(s: State)
    requires Inv(s) && s.gate == 0
    ensures exists t :: 0 <= t < |s.pc| && !s.pc[t].Outside? && Enabled(s, t)
  {
    if forall t :: 0 <= t < |s.pc| && !s.pc[t].Outside? ==> Parked(s.pc[t]) {
      TotalNone(s.pc, Leaves);
      if s.closed {
        TotalSame(s.pc, s.pc, Inside, Within);
        TotalNone(s.pc, Ready);
      } else {
        TotalSame(s.pc, s.pc, Inside, Before);
        TotalNone(s.pc, Within);
      }
      assert false;
    }
  }

  lemma NotStuck(s: State)
    requires Inv(s) && |s.pc| >= s.threshold
    ensures !Stuck(s)
  {
    if s.gate == 0 {
      FullGateMoves(s);
    } else if forall t :: 0 <= t < |s.pc| ==> !s.pc[t].Outside? {
      TotalAll(s.pc, Inside);
      assert false;
    } else {
      var t :| 0 <= t < |s.pc| && s.pc[t].Outside?;
      assert Enabled(s, t);
    }
  }

  // ---------------------------------------------------------------- too few threads

  /** The first k threads have counted in and are parked at the second wall. */
  function Waiting(threshold: nat, threads: nat, k: nat): State
    requires k <= threads && k <= threshold
  {
    State(threshold, threshold - k, k, true,
          seq(threads, i => if i < k then SecondParked else Outside),
          [], Round(seq(k, i => i), []), 0)
  }

  function Repeat(s: State, m: Move, times: nat): State
  {
    if times == 0 then s else Apply(Repeat(s, m, times - 1), m)
  }

  lemma OneMoreWaits(threshold: nat, threads: nat, k: nat)
    requires k < threads < threshold
    ensures Repeat(Waiting(threshold, threads, k), Go(k), 5) == Waiting(threshold, threads, k + 1)
  {
    var s0 := Waiting(threshold, threads, k);
    var s1 := s0.(gate := s0.gate - 1, pc := s0.pc[k := Entering]);
    var s2 := s0.(gate := s0.gate - 1, pc := s0.pc[k := FirstWall]);
    var s3 := s0.(gate := s0.gate - 1, pc := s0.pc[k := CountIn]);
    var s5 := Waiting(threshold, threads, k + 1);
    var s4 := s5.(pc := s5.pc[k := SecondWall]);
    assert Apply(s0, Go(k)) == s1;
    assert Apply(s1, Go(k)) == s2 by {
      if k == 0 {
        assert Broadcast(s1.pc)[k := FirstWall] == s2.pc;
      } else {
        assert s1.pc[k := FirstWall] == s2.pc;
      }
    }
    assert Apply(s2, Go(k)) == s3 by {
      assert s2.pc[k := CountIn] == s3.pc;
    }
    assert Apply(s3, Go(k)) == s4 by {
      assert s3.pc[k := SecondWall] == s4.pc;
      assert s4.current.arrived == s3.current.arrived + [k];
    }
    assert Apply(s4, Go(k)) == s5 by {
      assert s4.pc[k := SecondParked] == s5.pc;
    }
    assert Repeat(s0, Go(k), 0) == s0;
    assert Repeat(s0, Go(k), 1) == s1;
    assert Repeat(s0, Go(k), 2) == s2;
    assert Repeat(s0, Go(k), 3) == s3;
    assert Repeat(s0, Go(k), 4) == s4;
  }

  lemma {:induction false} AllWait(threshold: nat, threads: nat, k: nat) returns (moves: seq<Move>)
    requires k <= threads < threshold
    ensures Run(Init(threshold, threads), moves) == Waiting(threshold, threads, k)
  {
    if k == 0 {
      moves := [];
      assert Init(threshold, threads).pc == Waiting(threshold, threads, 0).pc;
    } else {
      moves := AllWait(threshold, threads, k - 1);
      OneMoreWaits(threshold, threads, k - 1);
      for i := 0 to 5
        invariant Run(Init(threshold, threads), moves) == Repeat(Waiting(threshold, threads, k - 1), Go(k - 1), i)
      {
        AllButLast(moves, Go(k - 1));
        moves := moves + [Go(k - 1)];
      }
    }
  }

  /** The barrier is free of deadlock exactly when there are threads enough to fill it, all of which
      call it for ever, as the client's threads do. */
  lemma DeadlockFreeIff(threshold: nat, threads: nat)
    requires threshold > 0
    ensures (forall moves :: !Stuck(Run(Init(threshold, threads), moves))) <==> threads >= threshold
  {
    if threads >= threshold {
      forall moves
        ensures !Stuck(Run(Init(threshold, threads), moves))
      {
        RunRight(threshold, threads, moves);
        NotStuck(Run(Init(threshold, threads), moves));
      }
    } else {
      var moves := AllWait(threshold, threads, threads);
      assert Stuck(Run(Init(threshold, threads), moves));
    }
  }

  // ---------------------------------------------------------------- bounded work

  /** How far a thread still is from the next opening of the second wall. A thread between the
      walls is near it while they fill and far from it once they have opened. */
  ghost function Distance(threads: nat, closed: bool): Pc -> nat
  {
    (p: Pc) =>
      match p
      case Outside => threads + 7
      case Entering => threads + 6
      case FirstWall => 5
      case FirstParked => 4
      case CountIn => 3
      case SecondWall => if closed then 2 else threads + 10
      case SecondParked => if closed then 0 else threads + 10
      case Leaving => if closed then 1 else threads + 9
      case Posting => threads + 8
  }

  ghost function Potential(s: State): nat
  {
    Total(s.pc, Distance(|s.pc|, s.closed))
  }

  ghost function PerRound(threads: nat): nat { (threads + 10) * threads + 1 }

  lemma PotentialBounded(s: State)
    ensures Potential(s) < PerRound(|s.pc|)
  {
    TotalAtMost(s.pc, Distance(|s.pc|, s.closed), |s.pc| + 10);
  }

  /** A step that neither closes the first wall nor opens the second brings its thread nearer. */
  lemma StepNearer(s: State, t: nat, k: Tally)
    requires t < |s.pc| && Enabled(s, t) && CountsRight(s, k) && Holds(k, s.pc[t])
    requires !(s.pc[t].Entering? && s.counter == 0) && !(s.pc[t].Leaving? && s.counter == s.threshold)
    ensures var s' := Step(s, t);
            var d := Distance(|s.pc|, s.closed);
            && s'.opens == s.opens && s'.closed == s.closed && s'.pc == s.pc[t := s'.pc[t]]
            && d(s'.pc[t]) < d(s.pc[t])
  {
  }

  /** A step either opens the second wall or brings some thread nearer to opening it. */
  lemma StepSpends(s: State, t: nat)
    requires Inv(s) && t < |s.pc| && Enabled(s, t)
    ensures var s' := Step(s, t);
            s'.opens == s.opens + 1 || (s'.opens == s.opens && Potential(s') < Potential(s))
  {
    if s.pc[t].Entering? && s.counter == 0 {
      ClosingSpends(s, t);
    } else if !(s.pc[t].Leaving? && s.counter == s.threshold) {
      TallyHolds(s.pc, t);
      StepNearer(s, t, TallyOf(s.pc));
      TotalUpdate(s.pc, t, Step(s, t).pc[t], Distance(|s.pc|, s.closed));
    }
  }

  lemma ClosingSpends(s: State, t: nat)
    requires Inv(s) && t < |s.pc| && Enabled(s, t)
    requires s.pc[t].Entering? && s.counter == 0
    ensures Potential(Step(s, t)) < Potential(s)
  {
    var n := |s.pc|;
    var moved := s.pc[t := FirstWall];
    var pc' := Broadcast(s.pc)[t := FirstWall];
    NobodyWithin(s.pc);
    TotalUpdate(s.pc, t, FirstWall, Distance(n, s.closed));
    forall i | 0 <= i < n
      ensures Distance(n, true)(pc'[i]) <= Distance(n, s.closed)(moved[i]) + 1
    {
      TotalAtLeast(s.pc, i, Leaves);
    }
    TotalSlack(pc', moved, Distance(n, true), Distance(n, s.closed), 1);
  }

  lemma WakeSpends(s: State, t: nat)
    requires t < |s.pc|
    ensures Potential(Apply(s, Wake(t))) <= Potential(s) + 2
    ensures !Parked(s.pc[t]) ==> Apply(s, Wake(t)) == s
  {
    TotalUpdate(s.pc, t, Woken(s.pc[t]), Distance(|s.pc|, s.closed));
  }

  /** How many steps of a schedule were taken by a thread that could take one. */
  ghost function Work(s: State, moves: seq<Move>): nat
  {
    if moves == [] then 0
    else
      var before := moves[..|moves| - 1];
      var m := moves[|moves| - 1];
      var now := Run(s, before);
      Work(s, before) + (if m.Go? && m.t < |now.pc| && Enabled(now, m.t) then 1 else 0)
  }

  /** How often a schedule woke a parked thread for no reason. */
  ghost function SpuriousWakeups(s: State, moves: seq<Move>): nat
  {
    if moves == [] then 0
    else
      var before := moves[..|moves| - 1];
      var m := moves[|moves| - 1];
      var now := Run(s, before);
      SpuriousWakeups(s, before) + (if m.Wake? && m.t < |now.pc| && Parked(now.pc[m.t]) then 1 else 0)
  }

  /** What a schedule may spend: enough for every opening made and for one more. */
  ghost function Budget(threads: nat, opens: nat, wakeups: nat): nat
  {
    PerRound(threads) * (opens + 1) + 2 * wakeups
  }

  lemma BudgetGrows(threads: nat, opens: nat, wakeups: nat)
    ensures Budget(threads, opens + 1, wakeups) == Budget(threads, opens, wakeups) + PerRound(threads)
  {
    assert PerRound(threads) * (opens + 2) == PerRound(threads) * (opens + 1) + PerRound(threads);
  }

  lemma ApplySpends(s: State, m: Move, work: nat, wakeups: nat)
    requires Inv(s)
    requires work + Potential(s) <= Budget(|s.pc|, s.opens, wakeups)
    ensures var s' := Apply(s, m);
            var work' := work + (if m.Go? && m.t < |s.pc| && Enabled(s, m.t) then 1 else 0);
            var wakeups' := wakeups + (if m.Wake? && m.t < |s.pc| && Parked(s.pc[m.t]) then 1 else 0);
            work' + Potential(s') <= Budget(|s.pc|, s'.opens, wakeups')
  {
    if m.t < |s.pc| {
      if m.Wake? {
        WakeSpends(s, m.t);
      } else if Enabled(s, m.t) {
        StepSpends(s, m.t);
        StepPlaces(s, m.t);
        PotentialBounded(Step(s, m.t));
        BudgetGrows(|s.pc|, s.opens, wakeups);
      }
    }
  }

  lemma {:induction false} WorkSpends(threshold: nat, threads: nat, moves: seq<Move>)
    requires threshold > 0
    ensures var s0 := Init(threshold, threads);
            var s := Run(s0, moves);
            Work(s0, moves) + Potential(s) <= Budget(threads, s.opens, SpuriousWakeups(s0, moves))
  {
    var s0 := Init(threshold, threads);
    if moves == [] {
      PotentialBounded(s0);
    } else {
      var before := moves[..|moves| - 1];
      WorkSpends(threshold, threads, before);
      RunRight(threshold, threads, before);
      ApplySpends(Run(s0, before), moves[|moves| - 1], Work(s0, before), SpuriousWakeups(s0, before));
    }
  }

  /** Progress without any fairness assumption: a schedule cannot do more than a fixed amount of
      work, plus two steps for each wakeup for no reason, without completing another round. Every
      opening of the second wall belongs to a round of its own. */
  lemma RoundsKeepComing(threshold: nat, threads: nat, moves: seq<Move>)
    requires threshold > 0
    ensures var s0 := Init(threshold, threads);
            var s := Run(s0, moves);
            && Work(s0, moves) <= PerRound(threads) * (s.opens + 1) + 2 * SpuriousWakeups(s0, moves)
            && |s.past| <= s.opens <= |s.past| + 1
  {
    WorkSpends(threshold, threads, moves);
    RunRight(threshold, threads, moves);
  }

  // ---------------------------------------------------------------- every call returns

  /** What a schedule does is what its first move and then the others do. */
  lemma {:induction false} RunFirst(s: State, m: Move, moves: seq<Move>)
    ensures Run(s, [m] + moves) == Run(Apply(s, m), moves)
  {
    var all := [m] + moves;
    if moves == [] {
      assert all[..|all| - 1] == [];
    } else {
      assert all[..|all| - 1] == [m] + moves[..|moves| - 1];
      RunFirst(s, m, moves[..|moves| - 1]);
    }
  }

  /** A step of thread u leaves every other thread where it is, or wakes it. */
  lemma StepOthers(s: State, u: nat, t: nat)
    requires u < |s.pc| && t < |s.pc| && u != t && Enabled(s, u)
    ensures |Step(s, u).pc| == |s.pc| && (Step(s, u).pc[t] == s.pc[t] || Step(s, u).pc[t] == Woken(s.pc[t]))
  {
  }

  /** A thread past the open second wall leaves on its own. */
  ghost predicate OnItsWay(s: State, t: nat)
    requires t < |s.pc|
  {
    (s.pc[t].SecondWall? && !s.closed) || s.pc[t].Leaving? || s.pc[t].Posting?
  }

  lemma {:induction false} GoesOut(s: State, t: nat, steps: nat) returns (moves: seq<Move>)
    requires t < |s.pc| && OnItsWay(s, t)
    requires steps == if s.pc[t].SecondWall? then 3 else if s.pc[t].Leaving? then 2 else 1
    ensures |Run(s, moves).pc| == |s.pc| && Run(s, moves).pc[t].Outside?
    decreases steps
  {
    var s' := Step(s, t);
    assert Apply(s, Go(t)) == s';
    if s.pc[t].Posting? {
      moves := [Go(t)] + [];
      RunFirst(s, Go(t), []);
    } else {
      var rest := GoesOut(s', t, steps - 1);
      RunFirst(s, Go(t), rest);
      moves := [Go(t)] + rest;
    }
  }

  /** The step that opens the second wall finds everybody inside between the walls or past them, and
      sets them on their way. */
  lemma OpeningFrees(s: State, u: nat, t: nat)
    requires Inv(s) && u < |s.pc| && t < |s.pc| && Enabled(s, u) && !s.pc[t].Outside?
    requires Step(s, u).opens == s.opens + 1
    ensures |Step(s, u).pc| == |s.pc| && OnItsWay(Step(s, u), t)
  {
    TotalAdd(s.pc, Within, Leaves, Through);
    AllThrough(s.pc, t);
  }

  function Through(p: Pc): nat { Within(p) + Leaves(p) }

  lemma AllThrough(pc: seq<Pc>, t: nat)
    requires t < |pc| && !pc[t].Outside? && Total(pc, Through) >= Total(pc, Inside)
    ensures Through(pc[t]) == 1
  {
    TotalUpdate(pc, t, Outside, Through);
    TotalUpdate(pc, t, Outside, Inside);
    TotalSlack(pc[t := Outside], pc[t := Outside], Through, Inside, 0);
  }

  /** With threads enough, whoever is inside can be brought out again. */
  lemma {:induction false} Returns(s: State, t: nat) returns (moves: seq<Move>)
    requires Inv(s) && |s.pc| >= s.threshold && t < |s.pc| && !s.pc[t].Outside?
    ensures |Run(s, moves).pc| == |s.pc| && Run(s, moves).pc[t].Outside?
    decreases Potential(s)
  {
    if OnItsWay(s, t) {
      moves := GoesOut(s, t, if s.pc[t].SecondWall? then 3 else if s.pc[t].Leaving? then 2 else 1);
    } else {
      NotStuck(s);
      var u :| 0 <= u < |s.pc| && Enabled(s, u);
      var s' := Step(s, u);
      assert Apply(s, Go(u)) == s';
      StepRight(s, u);
      StepPlaces(s, u);
      StepSpends(s, u);
      var rest;
      if s'.opens == s.opens + 1 {
        OpeningFrees(s, u, t);
        rest := GoesOut(s', t, if s'.pc[t].SecondWall? then 3 else if s'.pc[t].Leaving? then 2 else 1);
      } else {
        if u != t {
          StepOthers(s, u, t);
        }
        rest := Returns(s', t);
      }
      RunFirst(s, Go(u), rest);
      moves := [Go(u)] + rest;
    }
  }

  /** Whoever is outside can be brought in: if the gate is shut, somebody inside can be brought to
      post it. */
  lemma {:induction false} Enters(s: State, t: nat) returns (moves: seq<Move>)
    requires Inv(s) && t < |s.pc| && s.pc[t].Outside?
    ensures |Run(s, moves).pc| == |s.pc| && Run(s, moves).pc[t].Entering?
  {
    if s.gate > 0 {
      moves := [Go(t)];
      assert moves[..0] == [];
    } else {
      FullGateMoves(s);
      var u :| 0 <= u < |s.pc| && !s.pc[u].Outside? && Enabled(s, u);
      var before := Posts(s, u, t);
      var s' := Run(s, before);
      moves := before + [Go(t)];
      AllButLast(before, Go(t));
    }
  }

  /** A step of a thread inside the shut gate posts the gate, or brings the thread to where its next step
      does, or lowers the potential; thread t stays outside. */
  lemma InsideSteps(s: State, u: nat, t: nat)
    requires Inv(s) && s.gate == 0 && t < |s.pc| && s.pc[t].Outside?
    requires u < |s.pc| && !s.pc[u].Outside? && Enabled(s, u)
    ensures var s' := Step(s, u);
            && Inv(s') && |s'.pc| == |s.pc| && s'.pc[t].Outside?
            && (s.pc[u].Posting? ==> s'.gate > 0)
            && (!s.pc[u].Posting? ==>
                  && s'.gate == 0 && !s'.pc[u].Outside?
                  && (s'.pc[u].Posting? || Potential(s') < Potential(s)))
  {
    StepRight(s, u);
    StepPlaces(s, u);
    StepSpends(s, u);
    StepOthers(s, u, t);
  }

  /** Thread u, inside the shut gate, and the others inside can bring about that the gate is posted,
      while t stays outside. */
  lemma {:induction false} Posts(s: State, u: nat, t: nat) returns (moves: seq<Move>)
    requires Inv(s) && s.gate == 0 && t < |s.pc| && s.pc[t].Outside?
    requires u < |s.pc| && !s.pc[u].Outside? && Enabled(s, u)
    ensures var s' := Run(s, moves); |s'.pc| == |s.pc| && s'.gate > 0 && s'.pc[t].Outside?
    decreases Potential(s)
  {
    var s' := Step(s, u);
    assert Apply(s, Go(u)) == s';
    InsideSteps(s, u, t);
    var rest := [];
    if s'.pc[u].Posting? {
      rest := PostsNow(s', u, t);
    } else if !s.pc[u].Posting? {
      FullGateMoves(s');
      var v :| 0 <= v < |s'.pc| && !s'.pc[v].Outside? && Enabled(s', v);
      rest := Posts(s', v, t);
    }
    RunFirst(s, Go(u), rest);
    moves := [Go(u)] + rest;
  }

  lemma PostsNow(s: State, u: nat, t: nat) returns (moves: seq<Move>)
    requires t < |s.pc| && s.pc[t].Outside? && u < |s.pc| && s.pc[u].Posting?
    ensures var s' := Run(s, moves); |s'.pc| == |s.pc| && s'.gate > 0 && s'.pc[t].Outside?
  {
    assert Apply(s, Go(u)) == Step(s, u);
    RunFirst(s, Go(u), []);
    moves := [Go(u)] + [];
  }

  /** No thread is shut out or in for good, whatever the schedule has been: a thread outside can be
      brought to pass the gate, and, with threads enough, a thread inside can be brought out. */
  lemma EveryCallReturns(threshold: nat, threads: nat, moves: seq<Move>, t: nat)
    requires threshold > 0 && t < threads
    ensures var s := Run(Init(threshold, threads), moves);
            && |s.pc| == threads
            && (if s.pc[t].Outside? then exists more :: Reaches(s, more, t, Entering)
                else threads >= threshold ==> exists more :: Reaches(s, more, t, Outside))
  {
    var s := Run(Init(threshold, threads), moves);
    RunRight(threshold, threads, moves);
    if s.pc[t].Outside? {
      var more := Enters(s, t);
      assert Reaches(s, more, t, Entering);
    } else if threads >= threshold {
      var more := Returns(s, t);
      assert Reaches(s, more, t, Outside);
    }
  }

  ghost predicate Reaches(s: State, moves: seq<Move>, t: nat, p: Pc)
  {
    t < |Run(s, moves).pc| && Run(s, moves).pc[t] == p
  }
}

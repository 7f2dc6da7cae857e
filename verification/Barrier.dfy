/** The reusable two-wall barrier behind an entry gate.

Each section a thread runs under the barrier mutex is one step, cut at the two waits on
the condition variable. A schedule is any sequence of moves by any number of threads;
a move of a blocked thread changes nothing. A thread that has left the barrier comes back
to it: the client calls barrier_point for ever.
*/
module Barrier {
  import opened Counting

  /** Where a thread is in barrier_point. */
  datatype Pc =
    | Outside       // about to wait on the entry gate
    | Entering      // about to close the first wall if the barrier is empty
    | FirstWall     // about to test is_closed
    | FirstParked   // waiting on the condition variable at the first wall
    | CountIn       // about to add itself to the counter
    | SecondWall    // about to test the counter and is_closed
    | SecondParked  // waiting on the condition variable at the second wall
    | Leaving       // about to open the walls, if it is the first, and to count itself out
    | Posting       // about to post the entry gate

  /** A round as it was observed: who counted in, and who passed the second wall, in order. */
  datatype Round = Round(arrived: seq<nat>, passed: seq<nat>)

  datatype State = State(
    threshold: nat,
    gate: nat,
    counter: int,
    closed: bool,
    pc: seq<Pc>,
    past: seq<Round>,  // history: rounds before the current one
    current: Round,    // history: a round ends when a thread counts in after some thread has passed
    opens: nat         // history: how often the second wall was opened
  )

  /** A move lets thread t take its next step, or wakes it for no reason if it is parked. */
  datatype Move = Go(t: nat) | Wake(t: nat)

  function Init(threshold: nat, threads: nat): State
  {
    State(threshold, threshold, 0, true, seq(threads, _ => Outside), [], Round([], []), 0)
  }

  predicate Parked(p: Pc) { p.FirstParked? || p.SecondParked? }

  /** Whether thread t can take a step without being woken first. */
  predicate Enabled(s: State, t: nat)
    requires t < |s.pc|
  {
    !Parked(s.pc[t]) && (s.pc[t].Outside? ==> s.gate > 0)
  }

  function Woken(p: Pc): Pc
  {
    match p
    case FirstParked => FirstWall
    case SecondParked => SecondWall
    case _ => p
  }

  function Broadcast(pc: seq<Pc>): (r: seq<Pc>)
    ensures |r| == |pc|
  {
    seq(|pc|, i requires 0 <= i < |pc| => Woken(pc[i]))
  }

  function Arrive(s: State, t: nat): State
  {
    if s.current.passed == [] then
      s.(current := s.current.(arrived := s.current.arrived + [t]))
    else
      s.(past := s.past + [s.current], current := Round([t], []))
  }

  function Step(s: State, t: nat): (s': State)
    requires t < |s.pc| && Enabled(s, t)
  {
    match s.pc[t]
    case Outside => s.(gate := s.gate - 1, pc := s.pc[t := Entering])
    case Entering =>
      if s.counter == 0 then
        s.(closed := true, pc := Broadcast(s.pc)[t := FirstWall])
      else
        s.(pc := s.pc[t := FirstWall])
    case FirstWall => s.(pc := s.pc[t := if s.closed then CountIn else FirstParked])
    case CountIn => Arrive(s.(counter := s.counter + 1, pc := s.pc[t := SecondWall]), t)
    case SecondWall =>
      if s.counter < s.threshold && s.closed then
        s.(pc := s.pc[t := SecondParked])
      else
        s.(pc := s.pc[t := Leaving], current := s.current.(passed := s.current.passed + [t]))
    case Leaving =>
      var next :=
        if s.counter == s.threshold then
          s.(closed := false, pc := Broadcast(s.pc)[t := Posting], opens := s.opens + 1)
        else
          s.(pc := s.pc[t := Posting]);
      if !next.closed && next.counter > 0 then next.(counter := next.counter - 1) else next
    case Posting => s.(gate := s.gate + 1, pc := s.pc[t := Outside])
  }

  function Apply(s: State, m: Move): State
  {
    if m.t >= |s.pc| then s
    else if m.Wake? then s.(pc := s.pc[m.t := Woken(s.pc[m.t])])
    else if Enabled(s, m.t) then Step(s, m.t)
    else s
  }

  /** The state a schedule leads to. */
  function Run(s: State, moves: seq<Move>): State
  {
    if moves == [] then s else Apply(Run(s, moves[..|moves| - 1]), moves[|moves| - 1])
  }

  // ---------------------------------------------------------------- what threads are counted

  function Inside(p: Pc): nat { if p.Outside? then 0 else 1 }
  function Before(p: Pc): nat { if p.FirstWall? || p.FirstParked? then 1 else 0 }
  function Counts(p: Pc): nat { if p.CountIn? then 1 else 0 }
  function Within(p: Pc): nat { if p.SecondWall? || p.SecondParked? then 1 else 0 }
  function Leaves(p: Pc): nat { if p.Leaving? then 1 else 0 }
  function Ready(p: Pc): nat { if p.SecondWall? || p.Leaving? then 1 else 0 }

  /** How many threads stand where. */
  datatype Tally = Tally(inside: nat, before: nat, counts: nat, within: nat, leaves: nat, ready: nat)

  ghost function TallyOf(pc: seq<Pc>): Tally
  {
    Tally(Total(pc, Inside), Total(pc, Before), Total(pc, Counts), Total(pc, Within),
          Total(pc, Leaves), Total(pc, Ready))
  }

  /** What a tally k says when one of the threads it counts is at p. */
  ghost predicate Holds(k: Tally, p: Pc)
  {
    && Inside(p) <= k.inside && Before(p) <= k.before && Counts(p) <= k.counts
    && Within(p) <= k.within && Leaves(p) <= k.leaves && Ready(p) <= k.ready
    && k.before + k.counts + k.within + k.leaves <= k.inside
  }

  /** Tally k' follows k when a thread moves from p to q. */
  ghost predicate Follows(k: Tally, p: Pc, q: Pc, k': Tally)
  {
    && k'.inside + Inside(p) == k.inside + Inside(q)
    && k'.before + Before(p) == k.before + Before(q)
    && k'.counts + Counts(p) == k.counts + Counts(q)
    && k'.within + Within(p) == k.within + Within(q)
    && k'.leaves + Leaves(p) == k.leaves + Leaves(q)
  }

  lemma TallyMoved(pc: seq<Pc>, t: nat, q: Pc)
    requires t < |pc|
    ensures Follows(TallyOf(pc), pc[t], q, TallyOf(pc[t := q]))
    ensures TallyOf(pc[t := q]).ready + Ready(pc[t]) == TallyOf(pc).ready + Ready(q)
  {
    TotalUpdate(pc, t, q, Inside);
    TotalUpdate(pc, t, q, Before);
    TotalUpdate(pc, t, q, Counts);
    TotalUpdate(pc, t, q, Within);
    TotalUpdate(pc, t, q, Leaves);
    TotalUpdate(pc, t, q, Ready);
  }

  lemma TallyBroadcast(pc: seq<Pc>)
    ensures TallyOf(Broadcast(pc)) == TallyOf(pc).(ready := TallyOf(Broadcast(pc)).ready)
  {
    TotalSame(Broadcast(pc), pc, Inside, Inside);
    TotalSame(Broadcast(pc), pc, Before, Before);
    TotalSame(Broadcast(pc), pc, Counts, Counts);
    TotalSame(Broadcast(pc), pc, Within, Within);
    TotalSame(Broadcast(pc), pc, Leaves, Leaves);
  }

  function BeforeOrCounts(p: Pc): nat { Before(p) + Counts(p) }
  function Walls(p: Pc): nat { BeforeOrCounts(p) + Within(p) }
  function Places(p: Pc): nat { Walls(p) + Leaves(p) }

  lemma TallyHolds(pc: seq<Pc>, t: nat)
    requires t < |pc|
    ensures Holds(TallyOf(pc), pc[t])
  {
    TotalAtLeast(pc, t, Inside);
    TotalAtLeast(pc, t, Before);
    TotalAtLeast(pc, t, Counts);
    TotalAtLeast(pc, t, Within);
    TotalAtLeast(pc, t, Leaves);
    TotalAtLeast(pc, t, Ready);
    TotalAdd(pc, Before, Counts, BeforeOrCounts);
    TotalAdd(pc, BeforeOrCounts, Within, Walls);
    TotalAdd(pc, Walls, Leaves, Places);
    TotalSlack(pc, pc, Places, Inside, 0);
  }

  // ---------------------------------------------------------------- the invariant

  /** The gate admits threshold threads, and the counter counts those past the first wall. */
  ghost predicate CountsRight(s: State, k: Tally)
  {
    && s.threshold > 0
    && s.gate + k.inside == s.threshold
    && s.counter == k.within + k.leaves
    && (k.counts > 0 ==> s.closed)
    && (s.closed && k.leaves > 0 ==> s.counter == s.threshold)
    && (!s.closed ==> s.counter < s.threshold)
  }

  ghost predicate Distinct(ts: seq<nat>)
  {
    forall i, j :: 0 <= i < j < |ts| ==> ts[i] != ts[j]
  }

  /** A finished round: threshold different threads counted in, and exactly those passed. */
  ghost predicate Complete(r: Round, threshold: nat)
  {
    && |r.arrived| == |r.passed| == threshold
    && Distinct(r.arrived) && Distinct(r.passed)
    && (forall t :: t in r.arrived <==> t in r.passed)
  }

  /** A round in progress: nobody has passed before threshold different threads counted in,
      and those that passed are different threads that counted in. */
  ghost predicate Underway(r: Round, threshold: nat)
  {
    && |r.arrived| <= threshold
    && (r.passed != [] ==> |r.arrived| == threshold)
    && Distinct(r.arrived) && Distinct(r.passed)
    && (forall t :: t in r.passed ==> t in r.arrived)
  }

  /** The threads between the walls are those that counted in and have not passed. */
  ghost predicate RoundRight(s: State, k: Tally)
  {
    && Underway(s.current, s.threshold)
    && k.within == |s.current.arrived| - |s.current.passed|
    && (forall t :: 0 <= t < |s.pc| ==>
          (Within(s.pc[t]) == 1 <==> t in s.current.arrived && t !in s.current.passed))
    && (forall t :: t in s.current.arrived ==> t < |s.pc|)
    && (forall r :: r in s.past ==> Complete(r, s.threshold))
  }

  /** Where the current round stands: filling, full, draining or drained. */
  ghost predicate PhaseRight(s: State, k: Tally)
  {
    && (s.current.passed == [] ==> k.leaves == 0)
    && (!s.closed ==> s.current.passed != [])
    && (s.closed && s.current.passed != [] ==> s.counter == s.threshold || s.counter == 0)
    && s.opens == |s.past| + (if s.current.passed != [] && (!s.closed || s.counter == 0) then 1 else 0)
  }

  /** Nobody is parked at a wall that has opened, a full barrier has somebody to open it,
      and an emptied barrier has a place left for the thread that closes it again. */
  ghost predicate WakeupsRight(s: State, k: Tally)
  {
    && (forall t :: 0 <= t < |s.pc| && s.pc[t].FirstParked? ==> !s.closed)
    && (forall t :: 0 <= t < |s.pc| && s.pc[t].SecondParked? ==> s.closed)
    && (s.closed && s.counter == s.threshold ==> k.ready > 0)
    && (!s.closed && s.counter == 0 ==> k.before < s.threshold)
  }

  ghost predicate Right(s: State, k: Tally)
  {
    CountsRight(s, k) && RoundRight(s, k) && PhaseRight(s, k) && WakeupsRight(s, k)
  }

  ghost predicate Inv(s: State) { Right(s, TallyOf(s.pc)) }

  lemma InitRight(threshold: nat, threads: nat)
    requires threshold > 0
    ensures Inv(Init(threshold, threads))
  {
    var pc := Init(threshold, threads).pc;
    TotalNone(pc, Inside);
    TotalNone(pc, Before);
    TotalNone(pc, Counts);
    TotalNone(pc, Within);
    TotalNone(pc, Leaves);
  }

  /** What is known of the tallies around a step of thread t. */
  ghost predicate Around(s: State, k: Tally, t: nat, k': Tally)
    requires t < |s.pc| && Enabled(s, t)
  {
    var q := Step(s, t).pc[t];
    && Holds(k, s.pc[t]) && Holds(k', q)
    && Follows(k, s.pc[t], q, k')
    && k'.ready + Ready(s.pc[t]) >= k.ready + Ready(q)
  }

  lemma StepCounts(s: State, k: Tally, t: nat, k': Tally)
    requires t < |s.pc| && Enabled(s, t) && Around(s, k, t, k')
    requires CountsRight(s, k)
    ensures CountsRight(Step(s, t), k')
  {
  }

  lemma StepPhase(s: State, k: Tally, t: nat, k': Tally)
    requires t < |s.pc| && Enabled(s, t) && Around(s, k, t, k')
    requires CountsRight(s, k) && PhaseRight(s, k)
    requires Underway(s.current, s.threshold) && k.within == |s.current.arrived| - |s.current.passed|
    ensures PhaseRight(Step(s, t), k')
  {
  }

  lemma StepWakeups(s: State, k: Tally, t: nat, k': Tally)
    requires t < |s.pc| && Enabled(s, t) && Around(s, k, t, k')
    requires Right(s, k)
    ensures WakeupsRight(Step(s, t), k')
  {
  }

  lemma StepRoundArrive(s: State, k: Tally, t: nat, k': Tally)
    requires t < |s.pc| && Enabled(s, t) && Around(s, k, t, k')
    requires CountsRight(s, k) && RoundRight(s, k) && PhaseRight(s, k)
    requires k.within == 0 ==> forall u :: 0 <= u < |s.pc| ==> Within(s.pc[u]) == 0
    requires s.pc[t].CountIn?
    ensures RoundRight(Step(s, t), k')
  {
  }

  lemma StepRoundPass(s: State, k: Tally, t: nat, k': Tally)
    requires t < |s.pc| && Enabled(s, t) && Around(s, k, t, k')
    requires CountsRight(s, k) && RoundRight(s, k) && PhaseRight(s, k)
    requires s.pc[t].SecondWall?
    ensures RoundRight(Step(s, t), k')
  {
  }

  lemma StepRoundSame(s: State, k: Tally, t: nat, k': Tally)
    requires t < |s.pc| && Enabled(s, t) && Around(s, k, t, k')
    requires RoundRight(s, k)
    requires !s.pc[t].SecondWall? && !s.pc[t].CountIn?
    ensures RoundRight(Step(s, t), k')
  {
    var s' := Step(s, t);
    assert s'.current == s.current && s'.past == s.past;
    assert forall u :: 0 <= u < |s.pc| ==> Within(s'.pc[u]) == Within(s.pc[u]);
  }

  lemma StepRound(s: State, k: Tally, t: nat, k': Tally)
    requires t < |s.pc| && Enabled(s, t) && Around(s, k, t, k')
    requires CountsRight(s, k) && RoundRight(s, k) && PhaseRight(s, k)
    requires k.within == 0 ==> forall u :: 0 <= u < |s.pc| ==> Within(s.pc[u]) == 0
    ensures RoundRight(Step(s, t), k')
  {
    if s.pc[t].CountIn? {
      StepRoundArrive(s, k, t, k');
    } else if s.pc[t].SecondWall? {
      StepRoundPass(s, k, t, k');
    } else {
      StepRoundSame(s, k, t, k');
    }
  }

  lemma StepPlaces(s: State, t: nat)
    requires t < |s.pc| && Enabled(s, t)
    ensures var s' := Step(s, t); |s'.pc| == |s.pc| && s'.threshold == s.threshold
    ensures var s' := Step(s, t);
            s'.pc == s.pc[t := s'.pc[t]] || s'.pc == Broadcast(s.pc)[t := s'.pc[t]]
  {
  }

  lemma StepAround(s: State, t: nat)
    requires t < |s.pc| && Enabled(s, t)
    ensures Around(s, TallyOf(s.pc), t, TallyOf(Step(s, t).pc))
  {
    var pc, pc' := s.pc, Step(s, t).pc;
    StepPlaces(s, t);
    TallyHolds(pc, t);
    TallyHolds(pc', t);
    TallyChanged(pc, t, pc'[t]);
  }

  /** A move, with or without a broadcast, shifts the tally by the moving thread. */
  lemma TallyChanged(pc: seq<Pc>, t: nat, q: Pc)
    requires t < |pc|
    requires !Parked(pc[t])
    ensures Follows(TallyOf(pc), pc[t], q, TallyOf(pc[t := q]))
    ensures Follows(TallyOf(pc), pc[t], q, TallyOf(Broadcast(pc)[t := q]))
    ensures TallyOf(pc[t := q]).ready + Ready(pc[t]) == TallyOf(pc).ready + Ready(q)
    ensures TallyOf(Broadcast(pc)[t := q]).ready + Ready(pc[t]) >= TallyOf(pc).ready + Ready(q)
  {
    TallyMoved(pc, t, q);
    TallyBroadcast(pc);
    TallyMoved(Broadcast(pc), t, q);
    TotalSlack(pc, Broadcast(pc), Ready, Ready, 0);
  }

  lemma NobodyWithin(pc: seq<Pc>)
    requires TallyOf(pc).within == 0
    ensures forall u :: 0 <= u < |pc| ==> Within(pc[u]) == 0
  {
    forall u | 0 <= u < |pc|
      ensures Within(pc[u]) == 0
    {
      TotalAtLeast(pc, u, Within);
    }
  }

  lemma StepRight(s: State, t: nat)
    requires Inv(s) && t < |s.pc| && Enabled(s, t)
    ensures Inv(Step(s, t))
  {
    var k, k' := TallyOf(s.pc), TallyOf(Step(s, t).pc);
    StepAround(s, t);
    if k.within == 0 {
      NobodyWithin(s.pc);
    }
    StepCounts(s, k, t, k');
    StepPhase(s, k, t, k');
    StepRound(s, k, t, k');
    StepWakeups(s, k, t, k');
  }

  lemma WakeRight(s: State, t: nat)
    requires Inv(s) && t < |s.pc|
    ensures Inv(s.(pc := s.pc[t := Woken(s.pc[t])]))
  {
    TallyMoved(s.pc, t, Woken(s.pc[t]));
  }

  lemma ApplyRight(s: State, m: Move)
    requires Inv(s)
    ensures Inv(Apply(s, m))
    ensures |Apply(s, m).pc| == |s.pc| && Apply(s, m).threshold == s.threshold
  {
    if m.t < |s.pc| {
      if m.Wake? {
        WakeRight(s, m.t);
      } else if Enabled(s, m.t) {
        StepRight(s, m.t);
        StepPlaces(s, m.t);
      }
    }
  }

  /** The invariant holds after every schedule of every number of threads. */
  lemma {:induction false} RunRight(threshold: nat, threads: nat, moves: seq<Move>)
    requires threshold > 0
    ensures var s := Run(Init(threshold, threads), moves);
            Inv(s) && |s.pc| == threads && s.threshold == threshold
  {
    if moves == [] {
      InitRight(threshold, threads);
    } else {
      RunRight(threshold, threads, moves[..|moves| - 1]);
      ApplyRight(Run(Init(threshold, threads), moves[..|moves| - 1]), moves[|moves| - 1]);
    }
  }

  /** Round safety, for every schedule: every earlier round had threshold different threads
      count in and released exactly those; in the current round nobody has passed the second
      wall before threshold threads counted in; and whoever is about to count in either joins
      a round nobody has left yet or starts one after the previous round has emptied. */
  lemma RoundsSafe(threshold: nat, threads: nat, moves: seq<Move>)
    requires threshold > 0
    ensures var s := Run(Init(threshold, threads), moves);
            && (forall r :: r in s.past ==> Complete(r, threshold))
            && Underway(s.current, threshold)
            && (forall t :: 0 <= t < |s.pc| && s.pc[t].CountIn? ==>
                  && s.closed
                  && (if s.current.passed == [] then s.counter == |s.current.arrived| < threshold
                      else s.counter == 0 && Complete(s.current, threshold)))
  {
    var s := Run(Init(threshold, threads), moves);
    RunRight(threshold, threads, moves);
    forall t | 0 <= t < |s.pc| && s.pc[t].CountIn?
      ensures s.closed
      ensures if s.current.passed == [] then s.counter == |s.current.arrived| < threshold
              else s.counter == 0 && Complete(s.current, threshold)
    {
      TallyHolds(s.pc, t);
      EmptiedRound(s, TallyOf(s.pc));
    }
  }

  lemma EmptiedRound(s: State, k: Tally)
    requires Right(s, k) && k == TallyOf(s.pc)
    ensures s.counter == 0 && s.current.passed != [] ==> Complete(s.current, s.threshold)
  {
    if s.counter == 0 {
      NobodyWithin(s.pc);
    }
  }

  /** A thread that has passed the second wall always counts itself out, exactly once, and
      the wall opens exactly when it finds the barrier full. */
  lemma LeavingCountsOut(threshold: nat, threads: nat, moves: seq<Move>, t: nat)
    requires threshold > 0 && t < threads
    ensures var s := Run(Init(threshold, threads), moves);
            && |s.pc| == threads
            && (s.pc[t].Leaving? ==>
                  var s' := Step(s, t);
                  && s'.counter == s.counter - 1 >= 0
                  && !s'.closed
                  && (s'.opens == s.opens + 1 <==> s.closed))
  {
    RunRight(threshold, threads, moves);
    TallyHolds(Run(Init(threshold, threads), moves).pc, t);
  }
}

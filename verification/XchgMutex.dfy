/** The exchange-based mutex fast path.

Every atomic exchange is one step. A locker that fails is handed over to the slow path, which
is not modelled: it stays where it is, and its mark in the count stays too.
*/
module XchgMutex {
  import opened Counting

  datatype Pc =
    | Idle
    | LockAgain           // lock found no 1 and is about to exchange -1
    | TryAgain(prev: int) // trylock found prev < 0 and is about to put it back
    | Owner
    | Slow                // handed over to the slow path by lock

  datatype State = State(
    count: int,
    pc: seq<Pc>,
    result: seq<int>,   // what the last completed trylock or lock_retval of each thread returned
    waiting: set<nat>,  // history: lockers handed over since an unlock last reported contention
    reports: nat        // history: how many unlocks reported contention
  )

  /** A thread starts an operation, or goes on to the second exchange of the one it is in. */
  datatype Move = Lock(t: nat) | Trylock(t: nat) | Unlock(t: nat) | Again(t: nat)

  function Init(threads: nat): State
  {
    State(1, seq(threads, _ => Idle), seq(threads, _ => 0), {}, 0)
  }

  predicate Shaped(s: State) { |s.result| == |s.pc| }

  /** Thread t now owns the lock; r is what its operation returns. */
  function Own(s: State, t: nat, r: int): State
    requires Shaped(s) && t < |s.pc|
  {
    s.(pc := s.pc[t := Owner], result := s.result[t := r])
  }

  function Apply(s: State, m: Move): (s': State)
    requires Shaped(s)
    ensures Shaped(s') && |s'.pc| == |s.pc|
  {
    if m.t >= |s.pc| then s
    else
      var t := m.t;
      match (m, s.pc[t])
      case (Lock(_), Idle) =>
        var s' := s.(count := 0);
        if s.count == 1 then Own(s', t, 0) else s'.(pc := s.pc[t := LockAgain])
      case (Again(_), LockAgain) =>
        var s' := s.(count := -1);
        if s.count == 1 then Own(s', t, 0)
        else s'.(pc := s.pc[t := Slow], result := s.result[t := -1], waiting := s.waiting + {t})
      case (Trylock(_), Idle) =>
        var s' := s.(count := 0);
        if s.count < 0 then s'.(pc := s.pc[t := TryAgain(s.count)])
        else Return(s', t, s.count)
      case (Again(_), TryAgain(prev)) =>
        Return(s.(count := prev), t, if s.count < 0 then 0 else s.count)
      case (Unlock(_), Owner) =>
        var s' := s.(count := 1, pc := s.pc[t := Idle]);
        if s.count != 0 then s'.(waiting := {}, reports := s.reports + 1) else s'
      case _ => s
  }

  /** A trylock of thread t returns prev, which its caller takes as whether it got the lock. */
  function Return(s: State, t: nat, prev: int): (s': State)
    requires Shaped(s) && t < |s.pc|
    ensures Shaped(s') && |s'.pc| == |s.pc|
  {
    s.(pc := s.pc[t := if prev != 0 then Owner else Idle], result := s.result[t := prev])
  }

  function Run(s: State, moves: seq<Move>): (s': State)
    requires Shaped(s)
    ensures Shaped(s') && |s'.pc| == |s.pc|
  {
    if moves == [] then s else Apply(Run(s, moves[..|moves| - 1]), moves[|moves| - 1])
  }

  function Owns(p: Pc): nat { if p.Owner? then 1 else 0 }
  function InFlight(p: Pc): nat { if p.LockAgain? || p.TryAgain? then 1 else 0 }

  /** The lock is free or has one owner; an operation in flight will write -1; and a locker that
      waits unreported has its mark in the count or in an operation in flight. */
  ghost predicate Right(s: State, owners: nat, inFlight: nat)
  {
    && Shaped(s)
    && -1 <= s.count <= 1
    && owners + (if s.count == 1 then 1 else 0) == 1
    && (forall t :: 0 <= t < |s.pc| && s.pc[t].TryAgain? ==> s.pc[t].prev == -1)
    && (s.waiting != {} ==> s.count == -1 || inFlight > 0)
  }

  ghost predicate Inv(s: State) { Right(s, Total(s.pc, Owns), Total(s.pc, InFlight)) }

  lemma ApplyRight(s: State, m: Move, owners: nat, inFlight: nat)
    requires m.t < |s.pc| && Right(s, owners, inFlight)
    requires Owns(s.pc[m.t]) <= owners && InFlight(s.pc[m.t]) <= inFlight
    ensures var s' := Apply(s, m);
            var p, q := s.pc[m.t], s'.pc[m.t];
            && s'.pc == s.pc[m.t := q] && owners + Owns(q) - Owns(p) >= 0
            && Right(s', owners + Owns(q) - Owns(p), inFlight + InFlight(q) - InFlight(p))
  {
  }

  lemma ApplyKeeps(s: State, m: Move)
    requires Inv(s)
    ensures Inv(Apply(s, m))
  {
    if m.t < |s.pc| {
      var q := Apply(s, m).pc[m.t];
      TotalAtLeast(s.pc, m.t, Owns);
      TotalAtLeast(s.pc, m.t, InFlight);
      ApplyRight(s, m, Total(s.pc, Owns), Total(s.pc, InFlight));
      TotalUpdate(s.pc, m.t, q, Owns);
      TotalUpdate(s.pc, m.t, q, InFlight);
    }
  }

  lemma {:induction false} RunKeeps(threads: nat, moves: seq<Move>)
    ensures Inv(Run(Init(threads), moves))
  {
    if moves == [] {
      TotalNone(Init(threads).pc, Owns);
    } else {
      RunKeeps(threads, moves[..|moves| - 1]);
      ApplyKeeps(Run(Init(threads), moves[..|moves| - 1]), moves[|moves| - 1]);
    }
  }

  /** Mutual exclusion over every interleaving: exactly one of "the count is 1" and "a thread owns
      the lock" holds, and never do two threads own it. */
  lemma MutualExclusion(threads: nat, moves: seq<Move>)
    ensures var s := Run(Init(threads), moves);
            && (s.count == 1 <==> forall t :: 0 <= t < |s.pc| ==> !s.pc[t].Owner?)
            && (forall t, u :: 0 <= t < u < |s.pc| ==> !(s.pc[t].Owner? && s.pc[u].Owner?))
  {
    var s := Run(Init(threads), moves);
    RunKeeps(threads, moves);
    forall t | 0 <= t < |s.pc| && s.pc[t].Owner?
      ensures s.count != 1
    {
      TotalAtLeast(s.pc, t, Owns);
    }
    if s.count != 1 {
      var t := TotalWitness(s.pc, Owns);
    }
    forall t, u | 0 <= t < u < |s.pc|
      ensures !(s.pc[t].Owner? && s.pc[u].Owner?)
    {
      TotalTwo(s.pc, t, u, Owns);
    }
  }

  /** When a trylock returns, it returns 1 exactly if its thread took ownership then, and 0
      otherwise; its last write leaves the count below 1, and below 0 if it had found it so. */
  lemma TrylockTruthful(threads: nat, moves: seq<Move>, m: Move)
    requires m.t < threads && (m.Trylock? || m.Again?)
    ensures var s := Run(Init(threads), moves);
            var s' := Apply(s, m);
            && |s.pc| == |s'.pc| == |s'.result| == threads
            && ((m.Trylock? && s.pc[m.t].Idle?) || (m.Again? && s.pc[m.t].TryAgain?) ==>
                  && s'.count < 1
                  && (s.pc[m.t].TryAgain? ==> s'.count < 0)
                  && (!s'.pc[m.t].TryAgain? ==>
                        && (s'.result[m.t] == 1 || s'.result[m.t] == 0)
                        && (s'.result[m.t] == 1 <==> s'.pc[m.t].Owner?)
                        && (s'.pc[m.t].Owner? <==> s.count == 1)))
  {
    RunKeeps(threads, moves);
  }

  /** When a lock returns, from whatever state, it returns 0 exactly if its thread took ownership then,
      and -1 exactly if the thread was handed over; either way it leaves the count below 1. */
  lemma LockTruthful(s: State, m: Move)
    requires Shaped(s) && m.t < |s.pc|
    requires (m.Lock? && s.pc[m.t].Idle?) || (m.Again? && s.pc[m.t].LockAgain?)
    ensures var s' := Apply(s, m);
            && s'.count < 1
            && (s'.pc[m.t].Slow? ==> s'.count < 0)
            && (!s'.pc[m.t].LockAgain? ==>
                  && (s'.result[m.t] == 0 <==> s'.pc[m.t].Owner?)
                  && (s'.result[m.t] == -1 <==> s'.pc[m.t].Slow?)
                  && (s'.pc[m.t].Owner? <==> s.count == 1))
  {
  }

  /** No contention mark is dropped: while a locker has been handed over and no unlock has since
      reported contention, the count is -1 or an operation in flight is about to make it -1. */
  lemma MarkSurvives(threads: nat, moves: seq<Move>)
    ensures var s := Run(Init(threads), moves);
            s.waiting != {} ==>
              s.count == -1 || exists t :: 0 <= t < |s.pc| && InFlight(s.pc[t]) == 1
                                           && Apply(s, Again(t)).count == -1
  {
    var s := Run(Init(threads), moves);
    RunKeeps(threads, moves);
    if s.waiting != {} && s.count != -1 {
      var t := TotalWitness(s.pc, InFlight);
      assert InFlight(s.pc[t]) == 1 && Apply(s, Again(t)).count == -1;
    }
  }

  /** So a contended unlock is still to come: once nothing is in flight, a lock with waiting
      lockers has an owner, and that owner's unlock reports contention. A lock that is free with
      nothing in flight has reported every locker it handed over. */
  lemma ContendedUnlockToCome(threads: nat, moves: seq<Move>)
    requires forall t :: 0 <= t < |Run(Init(threads), moves).pc| ==>
               InFlight(Run(Init(threads), moves).pc[t]) == 0
    ensures var s := Run(Init(threads), moves);
            && (s.count == 1 ==> s.waiting == {})
            && (s.waiting != {} ==> exists t :: 0 <= t < |s.pc| && s.pc[t].Owner?)
            && (forall t :: 0 <= t < |s.pc| && s.pc[t].Owner? && s.waiting != {} ==>
                  s.count != 0 && Apply(s, Unlock(t)).waiting == {})
  {
    var s := Run(Init(threads), moves);
    RunKeeps(threads, moves);
    TotalNone(s.pc, InFlight);
    if s.waiting != {} {
      var t := TotalWitness(s.pc, Owns);
    }
  }

  // ---------------------------------------------------------------- no mark is invented

  /** Whether a second exchange was made since the last unlock, or since the start. */
  ghost predicate Marked(s: State, moves: seq<Move>)
    requires Shaped(s)
  {
    moves != [] &&
    var before, m := moves[..|moves| - 1], moves[|moves| - 1];
    var now := Run(s, before);
    if m.t >= |now.pc| then Marked(s, before)
    else if m.Unlock? && now.pc[m.t].Owner? then false
    else Marked(s, before) || (m.Again? && InFlight(now.pc[m.t]) == 1)
  }

  lemma StepMarks(s: State, m: Move)
    requires Inv(s) && m.t < |s.pc|
    ensures var s' := Apply(s, m);
            && (m.Unlock? && s.pc[m.t].Owner? ==> s'.count == 1)
            && (m.Again? && InFlight(s.pc[m.t]) == 1 ==> s'.count == -1)
            && (!(m.Again? && InFlight(s.pc[m.t]) == 1) && s'.count == -1 ==> s.count == -1)
            && (!(m.Unlock? && s.pc[m.t].Owner?) && (s.count == -1 || Total(s.pc, InFlight) > 0) ==>
                  s'.count == -1 || Total(s'.pc, InFlight) > 0)
  {
    var q := Apply(s, m).pc[m.t];
    TotalUpdate(s.pc, m.t, q, InFlight);
    TotalAtLeast(s.pc, m.t, InFlight);
    assert Apply(s, m).pc == s.pc[m.t := q];
  }

  /** The count shows contention only if a second exchange was made since the last unlock; and if one
      was, the count shows it, or an operation in flight is about to put it back. */
  lemma {:induction false} MarksAreEarned(threads: nat, moves: seq<Move>)
    ensures var s := Run(Init(threads), moves);
            && (s.count == -1 ==> Marked(Init(threads), moves))
            && (Marked(Init(threads), moves) ==> s.count == -1 || Total(s.pc, InFlight) > 0)
  {
    if moves != [] {
      var before, m := moves[..|moves| - 1], moves[|moves| - 1];
      MarksAreEarned(threads, before);
      RunKeeps(threads, before);
      if m.t < |Run(Init(threads), before).pc| {
        StepMarks(Run(Init(threads), before), m);
      }
    }
  }

  /** With nothing in flight, the owner's unlock reports contention exactly if a second exchange was
      made since the last unlock. */
  lemma UnlockReportsIff(threads: nat, moves: seq<Move>, t: nat)
    requires t < threads && Run(Init(threads), moves).pc[t].Owner?
    requires forall u :: 0 <= u < |Run(Init(threads), moves).pc| ==> InFlight(Run(Init(threads), moves).pc[u]) == 0
    ensures var s := Run(Init(threads), moves);
            Apply(s, Unlock(t)).reports == s.reports + (if Marked(Init(threads), moves) then 1 else 0)
  {
    var s := Run(Init(threads), moves);
    RunKeeps(threads, moves);
    MarksAreEarned(threads, moves);
    TotalNone(s.pc, InFlight);
    TotalAtLeast(s.pc, t, Owns);
  }

  /** So while nobody makes a second exchange, the count is 0 or 1 and no unlock takes the slow path. */
  lemma {:induction false} UncontendedIsSilent(threads: nat, moves: seq<Move>)
    requires forall k :: 0 <= k < |moves| ==> !moves[k].Again?
    ensures var s := Run(Init(threads), moves);
            (s.count == 0 || s.count == 1) && s.reports == 0 && !Marked(Init(threads), moves)
  {
    if moves != [] {
      var before, m := moves[..|moves| - 1], moves[|moves| - 1];
      UncontendedIsSilent(threads, before);
      RunKeeps(threads, before);
      if m.t < threads {
        TotalAtLeast(Run(Init(threads), before).pc, m.t, Owns);
      }
    }
    RunKeeps(threads, moves);
    MarksAreEarned(threads, moves);
  }

  /** Undisturbed, taking a free lock either way and giving it back leaves everything as it was, and a
      trylock that fails does so too, but for what they returned. */
  lemma RoundTrips(s: State, t: nat)
    requires Inv(s) && t < |s.pc| && s.pc[t].Idle?
    ensures s.count == 1 ==> Apply(Apply(s, Lock(t)), Unlock(t)) == s.(result := s.result[t := 0])
    ensures s.count == 1 ==> Apply(Apply(s, Trylock(t)), Unlock(t)) == s.(result := s.result[t := 1])
    ensures s.count != 1 ==> Apply(Apply(s, Trylock(t)), Again(t)) == s.(result := s.result[t := 0])
  {
  }
}

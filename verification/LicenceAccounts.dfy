/** What each licence user takes and gives back, and that every request comes to an end.

What a thread asked for, and what it took from the semaphore and from the counter, is read off the
schedule and the values of the shared variables alone.
*/
module LicenceAccounts {
  import opened Counting
  import opened Licences

  /** What thread t last asked for: one more than its roll leaves within the range. */
  ghost function Wanted(s: State, moves: seq<Move>, t: nat): nat
    requires s.range > 0
  {
    if moves == [] then 0
    else
      var before, m := moves[..|moves| - 1], moves[|moves| - 1];
      var now := Run(s, before);
      if m.t == t && t < |now.pc| && now.pc[t].Idle? then m.roll % s.range + 1 else Wanted(s, before, t)
  }

  /** How much the moves of thread t have taken from the semaphore, less what they gave back. */
  ghost function Drawn(s: State, moves: seq<Move>, t: nat): int
  {
    if moves == [] then 0
    else
      var before, m := moves[..|moves| - 1], moves[|moves| - 1];
      Drawn(s, before, t) + (if m.t == t then Run(s, before).tokens - Run(s, moves).tokens else 0)
  }

  /** How much the moves of thread t have taken from the counter, less what they gave back. */
  ghost function Lowered(s: State, moves: seq<Move>, t: nat): int
  {
    if moves == [] then 0
    else
      var before, m := moves[..|moves| - 1], moves[|moves| - 1];
      Lowered(s, before, t) + (if m.t == t then Run(s, before).available - Run(s, moves).available else 0)
  }

  /** Where thread t is fits what it wanted, drew and lowered. */
  ghost predicate Balances(p: Pc, wanted: nat, drawn: int, lowered: int)
  {
    && (!p.Idle? ==> p.count == wanted)
    && match p {
         case Idle => drawn == 0 && lowered == 0
         case Asking(_) => drawn == 0 && lowered == 0
         case Gathering(_, i) => drawn == i && i < wanted && lowered == 0
         case Deciding(_) => drawn == wanted && lowered == 0
         case Passing(_, _) => drawn == wanted && lowered == wanted
         case Using(_) => drawn == wanted && lowered == wanted
         case Returning(_, i) => drawn == wanted - i && i < wanted && lowered == 0
       }
  }

  lemma StepBalance(s: State, t: nat, roll: nat, wanted: nat, drawn: int, lowered: int)
    requires t < |s.pc| && Enabled(s, t) && s.range > 0 && PcRight(s.pc[t], s.range)
    requires s.available <= s.max && (s.pc[t].Deciding? ==> s.pc[t].count <= s.available)
    requires Balances(s.pc[t], wanted, drawn, lowered)
    ensures var s' := Step(s, t, roll);
            && |s'.pc| == |s.pc|
            && Balances(s'.pc[t], if s.pc[t].Idle? then roll % s.range + 1 else wanted,
                        drawn + s.tokens - s'.tokens, lowered + s.available - s'.available)
  {
  }

  lemma StepOthers(s: State, t: nat, roll: nat, u: nat)
    requires t < |s.pc| && u < |s.pc| && t != u && Enabled(s, t) && s.range > 0
    ensures |Step(s, t, roll).pc| == |s.pc| && Step(s, t, roll).pc[u] == s.pc[u]
  {
  }

  ghost predicate AccountRight(s: State, moves: seq<Move>, t: nat)
    requires s.range > 0
  {
    && t < |Run(s, moves).pc|
    && Balances(Run(s, moves).pc[t], Wanted(s, moves, t), Drawn(s, moves, t), Lowered(s, moves, t))
  }

  lemma AccountGrows(s: State, moves: seq<Move>, t: nat)
    requires moves != [] && s.range > 0 && AccountRight(s, moves[..|moves| - 1], t)
    requires Inv(Run(s, moves[..|moves| - 1])) && Run(s, moves[..|moves| - 1]).range == s.range
    ensures AccountRight(s, moves, t)
  {
    var before := moves[..|moves| - 1];
    ApplyBalance(Run(s, before), moves[|moves| - 1], t,
                 Wanted(s, before, t), Drawn(s, before, t), Lowered(s, before, t));
  }

  lemma {:induction false} AccountsRight(max: nat, range: nat, threads: nat, moves: seq<Move>, t: nat)
    requires range > 0 && t < threads
    ensures AccountRight(Init(max, range, threads), moves, t)
  {
    if moves != [] {
      AccountsRight(max, range, threads, moves[..|moves| - 1], t);
      Conservation(max, range, threads, moves[..|moves| - 1]);
      AccountGrows(Init(max, range, threads), moves, t);
    }
  }

  /** Over every schedule: a thread gathers exactly what it asked for, takes exactly that from the
      counter when it is granted, and has given all of it back to both when it is idle again. */
  lemma AccountsBalance(max: nat, range: nat, threads: nat, moves: seq<Move>, t: nat)
    requires range > 0 && t < threads
    ensures var s0 := Init(max, range, threads);
            var s := Run(s0, moves);
            && |s.pc| == threads
            && Balances(s.pc[t], Wanted(s0, moves, t), Drawn(s0, moves, t), Lowered(s0, moves, t))
            && (!s.pc[t].Idle? ==> 1 <= Wanted(s0, moves, t) <= range)
  {
    AccountsRight(max, range, threads, moves, t);
    Conservation(max, range, threads, moves);
    assert PcRight(Run(Init(max, range, threads), moves).pc[t], range);
  }

  lemma ApplyBalance(s: State, m: Move, t: nat, wanted: nat, drawn: int, lowered: int)
    requires Inv(s) && t < |s.pc| && Balances(s.pc[t], wanted, drawn, lowered)
    ensures var s' := Apply(s, m);
            && |s'.pc| == |s.pc|
            && (m.t != t ==> Balances(s'.pc[t], wanted, drawn, lowered))
            && (m.t == t ==>
                  Balances(s'.pc[t], if s.pc[t].Idle? then m.roll % s.range + 1 else wanted,
                           drawn + s.tokens - s'.tokens, lowered + s.available - s'.available))
  {
    if m.t < |s.pc| && Enabled(s, m.t) {
      if m.t == t {
        assert PcRight(s.pc[t], s.range);
        TotalAtLeast(s.pc, t, Gathered);
        StepBalance(s, t, m.roll, wanted, drawn, lowered);
      } else {
        StepOthers(s, m.t, m.roll, t);
      }
    }
  }

  // ---------------------------------------------------------------- every request comes to an end

  /** How many steps a thread is from being idle. */
  function Left(p: Pc): nat
  {
    match p
    case Idle => 0
    case Returning(count, i) => if i < count then count - i else 1
    case Using(count) => count + 1
    case Passing(count, _) => count + 2
    case Deciding(count) => count + 3
    case Gathering(count, i) => if i < count then 2 * count - i + 3 else 0
    case Asking(count) => 2 * count + 4
  }

  function Pending(p: Pc): nat { if p.Asking? || p.Gathering? || p.Deciding? then 1 else 0 }

  lemma StepLeft(s: State, t: nat, roll: nat)
    requires t < |s.pc| && Enabled(s, t) && s.range > 0 && PcRight(s.pc[t], s.range) && !s.pc[t].Idle?
    requires s.available <= s.max && (s.pc[t].Deciding? ==> s.pc[t].count <= s.available)
    ensures var s' := Step(s, t, roll);
            && s'.pc == s.pc[t := s'.pc[t]]
            && Left(s'.pc[t]) < Left(s.pc[t])
            && s'.grants + Pending(s'.pc[t]) == s.grants + Pending(s.pc[t])
  {
  }

  /** While some thread is not idle, one that is not idle can step. */
  lemma BusyMoves(s: State, t: nat) returns (u: nat)
    requires Inv(s) && s.range <= s.max && t < |s.pc| && !s.pc[t].Idle?
    ensures u < |s.pc| && !s.pc[u].Idle? && Enabled(s, u)
  {
    u := t;
    if s.pc[t].Asking? && s.gate == 0 {
      u := TotalWitness(s.pc, AtGate);
    }
    if s.pc[u].Gathering? && s.tokens == 0 {
      u := HolderCanReturn(s, u);
    }
  }

  /** Only threads that are not idle move in this schedule. */
  ghost predicate ByBusy(s: State, moves: seq<Move>)
    decreases |moves|
  {
    moves == [] ||
    (moves[0].t < |s.pc| && !s.pc[moves[0].t].Idle? && ByBusy(Apply(s, moves[0]), moves[1..]))
  }

  lemma {:induction false} RunFirst(s: State, m: Move, moves: seq<Move>)
    ensures Run(s, [m] + moves) == Run(Apply(s, m), moves)
  {
    var all := [m] + moves;
    if moves == [] {
      assert all[..|all| - 1] == [];
    } else {
      assert all[..|all| - 1] == [m] + moves[..|moves| - 1];
      RunFirst(s, m, moves[..|moves| - 1]);
    }
  }

  /** Everybody is idle, and everything is available. */
  ghost predicate Settled(s: State)
  {
    && (forall t :: 0 <= t < |s.pc| ==> s.pc[t].Idle?)
    && s.available == s.max && s.tokens == s.max && s.gate == 1 && !s.crashed
  }

  lemma IdleIsSettled(s: State)
    requires Inv(s) && forall t :: 0 <= t < |s.pc| ==> s.pc[t].Idle?
    ensures Settled(s) && Total(s.pc, Pending) == 0
  {
    TotalNone(s.pc, AtGate);
    TotalNone(s.pc, Gathered);
    TotalNone(s.pc, Unposted);
    TotalNone(s.pc, Granted);
    TotalNone(s.pc, Pending);
  }

  lemma BusyStep(s: State, u: nat)
    requires Inv(s) && u < |s.pc| && !s.pc[u].Idle? && Enabled(s, u)
    ensures var s' := Step(s, u, 0);
            && Inv(s') && s'.range == s.range && s'.max == s.max && |s'.pc| == |s.pc|
            && Total(s'.pc, Left) < Total(s.pc, Left)
            && s'.grants + Total(s'.pc, Pending) == s.grants + Total(s.pc, Pending)
  {
    var q := Step(s, u, 0).pc[u];
    assert PcRight(s.pc[u], s.range);
    TotalAtLeast(s.pc, u, Gathered);
    StepKeeps(s, u, 0);
    StepBalances(s, u, 0);
    StepLeft(s, u, 0);
    TotalUpdate(s.pc, u, q, Left);
    TotalUpdate(s.pc, u, q, Pending);
  }

  lemma {:induction false} Settles(s: State) returns (moves: seq<Move>)
    requires Inv(s) && s.range <= s.max
    ensures ByBusy(s, moves) && Settled(Run(s, moves))
    ensures Run(s, moves).grants == s.grants + Total(s.pc, Pending)
    decreases Total(s.pc, Left)
  {
    if t :| 0 <= t < |s.pc| && !s.pc[t].Idle? {
      var u := BusyMoves(s, t);
      BusyStep(s, u);
      assert Apply(s, Go(u, 0)) == Step(s, u, 0);
      var rest := Settles(Step(s, u, 0));
      RunFirst(s, Go(u, 0), rest);
      moves := [Go(u, 0)] + rest;
      assert moves[1..] == rest;
    } else {
      moves := [];
      IdleIsSettled(s);
    }
  }

  /** Every request comes to an end: if none may exceed what there is, then after every schedule the
      threads that are not idle can, without anybody else, get all to be idle and all licences back,
      having been granted exactly the requests that were pending. */
  lemma EveryRequestEnds(max: nat, range: nat, threads: nat, moves: seq<Move>)
    requires 0 < range <= max
    ensures var s := Run(Init(max, range, threads), moves);
            exists more :: && ByBusy(s, more) && Settled(Run(s, more))
                           && Run(s, more).grants == s.grants + Total(s.pc, Pending)
  {
    Conservation(max, range, threads, moves);
    var more := Settles(Run(Init(max, range, threads), moves));
  }
}

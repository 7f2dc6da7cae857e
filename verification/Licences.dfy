/** The licence counter: a plain counter under a mutex, a counting semaphore for the licences and a
gate that lets one thread gather licences at a time.

A section under the mutex is one step, and so is every semaphore operation. The request range is a
parameter: a thread asks for roll % range + 1 licences, where roll is what rand() returned. The
program uses the number of licences as its range.
*/
module Licences {
  import opened Arithmetic
  import opened Counting

  datatype Pc =
    | Idle                           // about to choose how many licences to ask for
    | Asking(count: nat)             // wait on user_req_pending_sem
    | Gathering(count: nat, i: nat)  // wait on available_resources_sem, i licences so far
    | Deciding(count: nat)           // the section that tests and lowers the counter
    | Passing(count: nat, ok: bool)  // post user_req_pending_sem
    | Using(count: nat)              // the section that raises the counter is next
    | Returning(count: nat, i: nat)  // post available_resources_sem, i licences so far

  datatype State = State(
    max: nat,         // MAX_RESOURCES
    range: nat,
    available: int,   // available_resources
    tokens: nat,      // available_resources_sem
    gate: nat,        // user_req_pending_sem
    pc: seq<Pc>,
    crashed: bool,    // an assertion failed
    grants: nat       // history: requests granted
  )

  datatype Move = Go(t: nat, roll: nat)

  function Init(max: nat, range: nat, threads: nat): State
  {
    State(max, range, max, max, 1, seq(threads, _ => Idle), false, 0)
  }

  predicate Enabled(s: State, t: nat)
    requires t < |s.pc|
  {
    match s.pc[t]
    case Asking(_) => s.gate > 0
    case Gathering(_, _) => s.tokens > 0
    case _ => true
  }

  function Gather(count: nat, i: nat): Pc
  {
    if i < count then Gathering(count, i) else Deciding(count)
  }

  function Return(count: nat, i: nat): Pc
  {
    if i < count then Returning(count, i) else Idle
  }

  function Step(s: State, t: nat, roll: nat): State
    requires t < |s.pc| && Enabled(s, t) && s.range > 0
  {
    match s.pc[t]
    case Idle => s.(pc := s.pc[t := Asking(roll % s.range + 1)])
    case Asking(count) => s.(gate := s.gate - 1, pc := s.pc[t := Gather(count, 0)])
    case Gathering(count, i) => s.(tokens := s.tokens - 1, pc := s.pc[t := Gather(count, i + 1)])
    case Deciding(count) =>
      if s.available > s.max then s.(crashed := true)
      else if s.available < count then s.(pc := s.pc[t := Passing(count, false)])
      else s.(available := s.available - count, pc := s.pc[t := Passing(count, true)], grants := s.grants + 1)
    case Passing(count, ok) =>
      s.(gate := s.gate + 1, pc := s.pc[t := if ok then Using(count) else Asking(count)])
    case Using(count) =>
      if s.available > s.max then s.(crashed := true)
      else s.(available := s.available + count, pc := s.pc[t := Return(count, 0)])
    case Returning(count, i) => s.(tokens := s.tokens + 1, pc := s.pc[t := Return(count, i + 1)])
  }

  function Apply(s: State, m: Move): State
  {
    if !s.crashed && s.range > 0 && m.t < |s.pc| && Enabled(s, m.t) then Step(s, m.t, m.roll) else s
  }

  function Run(s: State, moves: seq<Move>): State
  {
    if moves == [] then s else Apply(Run(s, moves[..|moves| - 1]), moves[|moves| - 1])
  }

  // ---------------------------------------------------------------- the invariant

  function AtGate(p: Pc): nat { if p.Gathering? || p.Deciding? || p.Passing? then 1 else 0 }

  /** Licences taken from the semaphore and not yet from the counter. */
  function Gathered(p: Pc): nat
  {
    match p
    case Gathering(_, i) => i
    case Deciding(count) => count
    case _ => 0
  }

  /** Licences given back to the counter and not yet to the semaphore. */
  function Unposted(p: Pc): nat
  {
    if p.Returning? && p.i <= p.count then p.count - p.i else 0
  }

  /** Licences granted and not yet given back to the counter. */
  function Granted(p: Pc): nat
  {
    match p
    case Passing(count, _) => count
    case Using(count) => count
    case _ => 0
  }

  /** The requests of a thread are in range, its loops within bounds, and none is refused. */
  predicate PcRight(p: Pc, range: nat)
  {
    && (!p.Idle? ==> 1 <= p.count <= range)
    && (p.Gathering? || p.Returning? ==> p.i < p.count)
    && (p.Passing? ==> p.ok)
  }

  ghost predicate Inv(s: State)
  {
    && !s.crashed && s.range > 0
    && s.gate + Total(s.pc, AtGate) == 1
    && s.available == s.tokens + Total(s.pc, Gathered) + Total(s.pc, Unposted)
    && s.available + Total(s.pc, Granted) == s.max
    && (forall t :: 0 <= t < |s.pc| ==> PcRight(s.pc[t], s.range))
  }

  lemma InitKeeps(max: nat, range: nat, threads: nat)
    requires range > 0
    ensures Inv(Init(max, range, threads))
  {
    var pc := Init(max, range, threads).pc;
    TotalNone(pc, AtGate);
    TotalNone(pc, Gathered);
    TotalNone(pc, Unposted);
    TotalNone(pc, Granted);
  }

  /** What a step takes from one place it puts in another. */
  lemma StepBalances(s: State, t: nat, roll: nat)
    requires t < |s.pc| && Enabled(s, t) && s.range > 0 && !s.crashed
    requires PcRight(s.pc[t], s.range)
    requires s.available <= s.max && (s.pc[t].Deciding? ==> s.pc[t].count <= s.available)
    ensures var s' := Step(s, t, roll);
            var p, q := s.pc[t], s'.pc[t];
            && s'.pc == s.pc[t := q] && PcRight(q, s.range) && !s'.crashed
            && s'.gate + AtGate(q) == s.gate + AtGate(p)
            && s'.available - s'.tokens - Gathered(q) - Unposted(q)
               == s.available - s.tokens - Gathered(p) - Unposted(p)
            && s'.available + Granted(q) == s.available + Granted(p)
            && s'.max == s.max && s'.range == s.range
  {
  }

  lemma StepKeeps(s: State, t: nat, roll: nat)
    requires Inv(s) && t < |s.pc| && Enabled(s, t)
    ensures Inv(Step(s, t, roll))
  {
    assert PcRight(s.pc[t], s.range);
    TotalAtLeast(s.pc, t, Gathered);
    StepBalances(s, t, roll);
    var q := Step(s, t, roll).pc[t];
    TotalUpdate(s.pc, t, q, AtGate);
    TotalUpdate(s.pc, t, q, Gathered);
    TotalUpdate(s.pc, t, q, Unposted);
    TotalUpdate(s.pc, t, q, Granted);
  }

  /** Conservation, for every schedule: what the counter shows is what the semaphore holds, plus
      what the thread at the gate has gathered, plus what has been returned and not yet posted; and
      with what is granted it makes up all licences. */
  lemma {:induction false} Conservation(max: nat, range: nat, threads: nat, moves: seq<Move>)
    requires range > 0
    ensures var s := Run(Init(max, range, threads), moves);
            && Inv(s) && s.max == max && s.range == range && |s.pc| == threads
            && s.available == s.tokens + Total(s.pc, Gathered) + Total(s.pc, Unposted)
            && s.available + Total(s.pc, Granted) == max
  {
    if moves == [] {
      InitKeeps(max, range, threads);
    } else {
      Conservation(max, range, threads, moves[..|moves| - 1]);
      var s, m := Run(Init(max, range, threads), moves[..|moves| - 1]), moves[|moves| - 1];
      if m.t < |s.pc| && Enabled(s, m.t) {
        StepKeeps(s, m.t, m.roll);
      }
    }
  }

  /** So no assertion of the program fails, the counter stays within bounds, and the thread that
      has gathered its licences is never told that they are insufficient. */
  lemma NeverInsufficient(max: nat, range: nat, threads: nat, moves: seq<Move>)
    requires range > 0
    ensures var s := Run(Init(max, range, threads), moves);
            && !s.crashed && 0 <= s.available <= max
            && (forall t :: 0 <= t < |s.pc| && s.pc[t].Deciding? ==> s.pc[t].count <= s.available)
            && (forall t :: 0 <= t < |s.pc| && s.pc[t].Passing? ==> s.pc[t].ok)
  {
    var s := Run(Init(max, range, threads), moves);
    Conservation(max, range, threads, moves);
    forall t | 0 <= t < |s.pc| && s.pc[t].Deciding?
      ensures s.pc[t].count <= s.available
    {
      TotalAtLeast(s.pc, t, Gathered);
    }
  }

  // ---------------------------------------------------------------- progress

  ghost predicate Stuck(s: State)
  {
    forall t :: 0 <= t < |s.pc| ==> !Enabled(s, t)
  }

  function Holds(p: Pc): nat { Unposted(p) + Granted(p) }

  /** If the thread at the gate waits for a licence and no request exceeds what there is, then some
      thread has licences to return, and it can do so without passing the gate. */
  lemma HolderCanReturn(s: State, g: nat) returns (t: nat)
    requires Inv(s) && s.range <= s.max && g < |s.pc| && s.pc[g].Gathering? && s.tokens == 0
    ensures t < |s.pc| && (s.pc[t].Passing? || s.pc[t].Using? || s.pc[t].Returning?) && Enabled(s, t)
  {
    assert PcRight(s.pc[g], s.range);
    OnlyOneGathers(s, g);
    TotalAdd(s.pc, Unposted, Granted, Holds);
    t := TotalWitness(s.pc, Holds);
  }

  /** Only the thread at the gate holds a partial set of licences. */
  lemma OnlyOneGathers(s: State, g: nat)
    requires Inv(s) && g < |s.pc| && AtGate(s.pc[g]) == 1
    ensures Total(s.pc, Gathered) == Gathered(s.pc[g])
  {
    forall u | 0 <= u < |s.pc| && u != g
      ensures Gathered(s.pc[u]) == 0
    {
      TotalTwo(s.pc, g, u, AtGate);
    }
    TotalUpdate(s.pc, g, Idle, Gathered);
    TotalNone(s.pc[g := Idle], Gathered);
  }

  lemma NotStuck(s: State)
    requires Inv(s) && s.range <= s.max && |s.pc| > 0
    ensures !Stuck(s)
  {
    if Stuck(s) {
      assert !Enabled(s, 0);
      var g := 0;
      if !s.pc[0].Gathering? {
        g := TotalWitness(s.pc, AtGate);
      }
      assert !Enabled(s, g);
      var t := HolderCanReturn(s, g);
      assert false;
    }
  }

  // ---------------------------------------------------------------- requests beyond what there is

  /** Thread 0 has gathered i licences of the max + 1 it asked for; the next k threads wait at the
      gate behind it. */
  function Jammed(max: nat, range: nat, threads: nat, i: nat, k: nat): State
    requires i <= max && threads > 0
  {
    State(max, range, max, max - i, 0,
          seq(threads, t => if t == 0 then Gathering(max + 1, i) else if t <= k then Asking(1) else Idle),
          false, 0)
  }

  lemma {:induction false} GatherAll(max: nat, range: nat, threads: nat, i: nat) returns (moves: seq<Move>)
    requires i <= max < range && threads > 0
    ensures Run(Init(max, range, threads), moves) == Jammed(max, range, threads, i, 0)
  {
    var s0 := Init(max, range, threads);
    if i == 0 {
      WrapsOnce(max, range);
      moves := [Go(0, max)] + [Go(0, 0)];
      AllButLast([Go(0, max)], Go(0, 0));
      assert Run(s0, [Go(0, max)]) == Apply(s0, Go(0, max));
      assert Run(s0, moves).pc == Jammed(max, range, threads, 0, 0).pc;
    } else {
      var before := GatherAll(max, range, threads, i - 1);
      AllButLast(before, Go(0, 0));
      moves := before + [Go(0, 0)];
      assert Run(s0, moves).pc == Jammed(max, range, threads, i, 0).pc;
    }
  }

  lemma {:induction false} AskAll(max: nat, range: nat, threads: nat, k: nat) returns (moves: seq<Move>)
    requires max < range && k < threads
    ensures Run(Init(max, range, threads), moves) == Jammed(max, range, threads, max, k)
  {
    if k == 0 {
      moves := GatherAll(max, range, threads, max);
    } else {
      var before := AskAll(max, range, threads, k - 1);
      AllButLast(before, Go(k, 0));
      moves := before + [Go(k, 0)];
      assert Run(Init(max, range, threads), moves).pc == Jammed(max, range, threads, max, k).pc;
    }
  }

  /** Freedom from deadlock holds exactly when no thread may ask for more licences than exist. */
  lemma DeadlockFreeIff(max: nat, range: nat, threads: nat)
    requires range > 0 && threads > 0
    ensures (forall moves :: !Stuck(Run(Init(max, range, threads), moves))) <==> range <= max
  {
    if range <= max {
      forall moves
        ensures !Stuck(Run(Init(max, range, threads), moves))
      {
        Conservation(max, range, threads, moves);
        NotStuck(Run(Init(max, range, threads), moves));
      }
    } else {
      var moves := AskAll(max, range, threads, threads - 1);
      assert Stuck(Run(Init(max, range, threads), moves));
    }
  }

  // ---------------------------------------------------------------- bounded work

  /** How many steps a thread is from being granted its next request, at most. */
  ghost function Distance(range: nat): Pc -> nat
  {
    (p: Pc) =>
      match p
      case Deciding(_) => 1
      case Gathering(count, i) => if i <= count then 1 + count - i else 0
      case Asking(_) => range + 2
      case Idle => range + 3
      case Returning(count, i) => if i <= count then range + 3 + count - i else 0
      case Using(count) => range + 4 + count
      case Passing(count, _) => range + 5 + count
  }

  ghost function Work(s: State, moves: seq<Move>): nat
  {
    if moves == [] then 0
    else
      var before, m := moves[..|moves| - 1], moves[|moves| - 1];
      var now := Run(s, before);
      Work(s, before) + (if m.t < |now.pc| && Enabled(now, m.t) then 1 else 0)
  }

  /** A step brings its thread nearer to its next grant, or is a grant. */
  lemma StepNearer(s: State, t: nat, roll: nat)
    requires t < |s.pc| && Enabled(s, t) && s.range > 0 && !s.crashed
    requires PcRight(s.pc[t], s.range)
    requires s.available <= s.max && (s.pc[t].Deciding? ==> s.pc[t].count <= s.available)
    ensures var s' := Step(s, t, roll);
            var d := Distance(s.range);
            if s.pc[t].Deciding? then s'.grants == s.grants + 1 && d(s'.pc[t]) <= 2 * s.range + 5
            else s'.grants == s.grants && d(s'.pc[t]) < d(s.pc[t])
  {
  }

  lemma StepSpends(s: State, t: nat, roll: nat)
    requires Inv(s) && t < |s.pc| && Enabled(s, t)
    ensures var s' := Step(s, t, roll);
            var d := Distance(s.range);
            || (s'.grants == s.grants && Total(s'.pc, d) < Total(s.pc, d))
            || (s'.grants == s.grants + 1 && Total(s'.pc, d) < Total(s.pc, d) + 2 * s.range + 5)
  {
    assert PcRight(s.pc[t], s.range);
    TotalAtLeast(s.pc, t, Gathered);
    StepBalances(s, t, roll);
    StepNearer(s, t, roll);
    TotalUpdate(s.pc, t, Step(s, t, roll).pc[t], Distance(s.range));
  }

  /** What a schedule may spend: enough for everybody's first grant, and for each grant made. */
  ghost function Budget(range: nat, threads: nat, grants: nat): nat
  {
    (range + 3) * threads + (2 * range + 5) * grants
  }

  lemma BudgetGrows(range: nat, threads: nat, grants: nat)
    ensures Budget(range, threads, grants + 1) == Budget(range, threads, grants) + 2 * range + 5
  {
    assert (2 * range + 5) * (grants + 1) == (2 * range + 5) * grants + (2 * range + 5);
  }

  lemma InitDistance(max: nat, range: nat, threads: nat)
    ensures Total(Init(max, range, threads).pc, Distance(range)) <= Budget(range, threads, 0)
  {
    TotalAtMost(Init(max, range, threads).pc, Distance(range), range + 3);
  }

  lemma ApplySpends(s: State, m: Move, threads: nat, work: nat)
    requires Inv(s) && |s.pc| == threads
    requires work + Total(s.pc, Distance(s.range)) <= Budget(s.range, threads, s.grants)
    ensures var s' := Apply(s, m);
            var work' := work + (if m.t < |s.pc| && Enabled(s, m.t) then 1 else 0);
            work' + Total(s'.pc, Distance(s.range)) <= Budget(s.range, threads, s'.grants)
  {
    if m.t < |s.pc| && Enabled(s, m.t) {
      StepSpends(s, m.t, m.roll);
      BudgetGrows(s.range, threads, s.grants);
    }
  }

  lemma {:induction false} WorkSpends(max: nat, range: nat, threads: nat, moves: seq<Move>)
    requires range > 0
    ensures var s0 := Init(max, range, threads);
            var s := Run(s0, moves);
            Work(s0, moves) + Total(s.pc, Distance(range)) <= Budget(range, threads, s.grants)
  {
    var s0 := Init(max, range, threads);
    if moves == [] {
      InitDistance(max, range, threads);
    } else {
      var before, m := moves[..|moves| - 1], moves[|moves| - 1];
      WorkSpends(max, range, threads, before);
      Conservation(max, range, threads, before);
      ApplySpends(Run(s0, before), m, threads, Work(s0, before));
    }
  }

  /** Progress without any fairness assumption: beyond a fixed start, a schedule cannot take more
      than a fixed number of steps for each request it grants. */
  lemma GrantsKeepComing(max: nat, range: nat, threads: nat, moves: seq<Move>)
    requires range > 0
    ensures var s0 := Init(max, range, threads);
            Work(s0, moves) <= Budget(range, threads, Run(s0, moves).grants)
  {
    WorkSpends(max, range, threads, moves);
  }
}

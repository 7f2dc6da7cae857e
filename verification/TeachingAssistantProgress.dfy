/** Progress of the teaching assistant's handshake: every step that is not spent on a student who finds
no chair brings help nearer.
*/
module TeachingAssistantProgress {
  import opened Counting
  import opened TeachingAssistant

  /** How many steps a student is from being helped next, while the assistant is at ta. */
  ghost function Distance(ta: TaPc): Pc -> nat
  {
    (p: Pc) =>
      match p
      case InOffice => if Attended(ta) then 16 else 0
      case ClearName => 15
      case GiveLock => 14
      case Release => 13
      case TurnedAway => 13
      case TryChair => 12
      case Request => 11
      case Announce => 10
      case SitDown => 9
      case MarkWaiting => 8
      case WaitOutside => 7
      case StandUp => 6
      case GiveChair => 5
      case Called => 4
      case TakeLock => 3
      case SetName => 2
      case TellNamed => 1
  }

  /** How many steps the assistant is from helping next. */
  function TaDistance(ta: TaPc): nat
  {
    match ta
    case Teach => 7
    case SendOut => 6
    case AwaitRelease => 5
    case Nap => 4
    case AwaitSeated => 3
    case CallIn => 2
    case AwaitNamed => 1
    case Greet => 0
  }

  ghost function Potential(s: State): nat
  {
    TaDistance(s.ta) + Total(s.pc, Distance(s.ta))
  }

  /** How often the assistant has helped. */
  ghost function Helps(s: State): nat { Total(s.helped, Itself) }

  predicate FindsNoChair(s: State, i: nat)
    requires i < |s.pc|
  {
    s.pc[i].TryChair? && s.chairs == 0
  }

  lemma ChairNearer(s: State, i: nat)
    requires Shaped(s) && i < |s.pc| && Enabled(s, i) && !Serving(s.pc[i]) && TestsRight(s, i) && s.free >= 0
    ensures var s' := ChairStep(s, i);
            && s'.pc == s.pc[i := s'.pc[i]] && s'.ta == s.ta && s'.helped == s.helped
            && var d := Distance(s.ta);
               d(s'.pc[i]) + 1 <= d(s.pc[i]) + (if FindsNoChair(s, i) then 2 else 0)
  {
  }

  lemma ServiceNearer(s: State, i: nat)
    requires Shaped(s) && i < |s.pc| && Enabled(s, i) && Serving(s.pc[i]) && TestsRight(s, i) && OfficeTimed(s, i)
    ensures var s' := ServiceStep(s, i);
            && s'.pc == s.pc[i := s'.pc[i]] && s'.ta == s.ta && s'.helped == s.helped
            && Distance(s.ta)(s'.pc[i]) + 1 <= Distance(s.ta)(s.pc[i])
  {
  }

  lemma StudentSpends(s: State, i: nat)
    requires Inv(s) && i < |s.pc| && Enabled(s, i)
    ensures var s' := Step(s, i);
            && 1 + Potential(s') <= Potential(s) + (if FindsNoChair(s, i) then 2 else 0)
            && s'.helped == s.helped
  {
    assert StudentRight(s, i);
    TallyHolds(s.pc, i);
    OfficeTiming(s, TallyOf(s.pc), i);
    if Serving(s.pc[i]) {
      ServiceNearer(s, i);
    } else {
      ChairNearer(s, i);
    }
    TotalUpdate(s.pc, i, Step(s, i).pc[i], Distance(s.ta));
  }

  /** The office chair's share in the distance of whoever has been attended to. */
  function Desk(p: Pc): nat { if p.InOffice? then 16 else 0 }

  lemma VisitorAttended(pc: seq<Pc>, i: nat)
    requires i < |pc| && pc[i].InOffice?
    requires forall j :: 0 <= j < |pc| && j != i ==> !Serving(pc[j])
    ensures Total(pc, Distance(Teach)) == Total(pc, Distance(Greet)) + 16
  {
    TotalUpdate(pc, i, TryChair, Desk);
    TotalNone(pc[i := TryChair], Desk);
    TotalAdd(pc, Distance(Greet), Desk, Distance(Teach));
  }

  lemma GreetHelps(s: State, i: nat)
    requires Shaped(s) && s.ta.Greet? && i < |s.pc| && s.pc[i].InOffice? && StudentRight(s, i)
    ensures var s' := TaStep(s);
            s'.ta.Teach? && s'.pc == s.pc && s'.helped == s.helped[i := s.helped[i] + 1]
  {
  }

  lemma GreetBudget(s: State, s': State, i: nat)
    requires Shaped(s) && i < |s.pc| && s.pc[i].InOffice?
    requires forall j :: 0 <= j < |s.pc| && j != i ==> !Serving(s.pc[j])
    requires s.ta.Greet? && s'.ta.Teach? && s'.pc == s.pc && s'.helped == s.helped[i := s.helped[i] + 1]
    ensures 1 + Potential(s') == Potential(s) + 24 && Helps(s') == Helps(s) + 1
  {
    VisitorAttended(s.pc, i);
    TotalIncrement(s.helped, i);
  }

  lemma GreetSpends(s: State)
    requires Inv(s) && s.ta.Greet?
    ensures 1 + Potential(TaStep(s)) == Potential(s) + 24 && Helps(TaStep(s)) == Helps(s) + 1
  {
    var i := TaVisitor(s);
    assert StudentRight(s, i);
    GreetHelps(s, i);
    GreetBudget(s, TaStep(s), i);
  }

  lemma TaNearer(s: State, k: Tally)
    requires Shaped(s) && TaEnabled(s) && !s.ta.Greet? && HandshakeRight(s, k) && !TaStep(s).crashed
    ensures var s' := TaStep(s);
            && TaDistance(s'.ta) + 1 == TaDistance(s.ta) && s'.pc == s.pc && s'.helped == s.helped
            && (Attended(s'.ta) == Attended(s.ta) || k.visiting == 0)
  {
  }

  lemma SameDistances(pc: seq<Pc>, ta: TaPc, ta': TaPc)
    requires Attended(ta) == Attended(ta') || Total(pc, Visiting) == 0
    ensures Total(pc, Distance(ta)) == Total(pc, Distance(ta'))
  {
    forall j | 0 <= j < |pc|
      ensures Distance(ta)(pc[j]) == Distance(ta')(pc[j])
    {
      TotalAtLeast(pc, j, Visiting);
    }
    TotalSame(pc, pc, Distance(ta), Distance(ta'));
  }

  /** Any other step of the assistant brings only itself nearer. */
  lemma TaSpends(s: State)
    requires Inv(s) && TaEnabled(s) && !s.ta.Greet?
    ensures 1 + Potential(TaStep(s)) == Potential(s) && Helps(TaStep(s)) == Helps(s)
  {
    TaStudents(s);
    TaNearer(s, TallyOf(s.pc));
    SameDistances(s.pc, s.ta, TaStep(s).ta);
  }

  /** Whether a move lets somebody take a step. */
  predicate Moves(s: State, m: Move)
  {
    if m.Assistant? then TaEnabled(s) else m.i < |s.pc| && Enabled(s, m.i)
  }

  /** How many moves of a schedule let somebody take a step. */
  ghost function Work(s: State, moves: seq<Move>): nat
    requires Shaped(s)
  {
    if moves == [] then 0
    else
      var before, m := moves[..|moves| - 1], moves[|moves| - 1];
      Work(s, before) + (if Moves(Run(s, before), m) then 1 else 0)
  }

  /** How often a schedule let a student find no chair. */
  ghost function Refusals(s: State, moves: seq<Move>): nat
    requires Shaped(s)
  {
    if moves == [] then 0
    else
      var before, m := moves[..|moves| - 1], moves[|moves| - 1];
      var now := Run(s, before);
      Refusals(s, before) + (if m.Student? && m.i < |now.pc| && FindsNoChair(now, m.i) then 1 else 0)
  }

  lemma ApplySpends(s: State, m: Move)
    requires Inv(s)
    ensures var s' := Apply(s, m);
            (if Moves(s, m) then 1 else 0) + Potential(s') + 24 * Helps(s)
            <= Potential(s) + 24 * Helps(s')
               + (if m.Student? && m.i < |s.pc| && FindsNoChair(s, m.i) then 2 else 0)
  {
    if Moves(s, m) {
      if m.Student? {
        StudentSpends(s, m.i);
      } else if s.ta.Greet? {
        GreetSpends(s);
      } else {
        TaSpends(s);
      }
    }
  }

  lemma {:induction false} WorkSpends(seats: nat, students: nat, moves: seq<Move>)
    ensures var s0 := Init(seats, students);
            var s := Run(s0, moves);
            Work(s0, moves) + Potential(s) <= 12 * students + 4 + 24 * Helps(s) + 2 * Refusals(s0, moves)
  {
    var s0 := Init(seats, students);
    if moves == [] {
      TotalAtMost(s0.pc, Distance(Nap), 12);
    } else {
      var before := moves[..|moves| - 1];
      WorkSpends(seats, students, before);
      RunRight(seats, students, before);
      ApplySpends(Run(s0, before), moves[|moves| - 1]);
    }
  }

  /** Help keeps coming without any fairness assumption: a schedule cannot take more than 24 steps for
      each help given, two for each time a student finds no chair, and a fixed start. */
  lemma HelpKeepsComing(seats: nat, students: nat, moves: seq<Move>)
    ensures var s0 := Init(seats, students);
            Work(s0, moves) <= 12 * students + 4 + 24 * Helps(Run(s0, moves)) + 2 * Refusals(s0, moves)
  {
    WorkSpends(seats, students, moves);
  }

  // ---------------------------------------------------------------- every request comes to an end

  /** How many steps of students and assistant a student still causes, until it is about to try for a
      chair again. */
  function Ahead(p: Pc): nat
  {
    match p
    case TurnedAway => 1
    case Request => 23
    case _ => Left(p)
  }

  /** How many steps the assistant is from its nap. */
  function ToNap(ta: TaPc): nat
  {
    match ta
    case Nap => 0
    case AwaitSeated => 7
    case CallIn => 6
    case AwaitNamed => 5
    case Greet => 4
    case Teach => 3
    case SendOut => 2
    case AwaitRelease => 1
  }

  ghost function Outstanding(s: State): nat
  {
    Total(s.pc, Ahead) + 8 * s.request + ToNap(s.ta)
  }

  lemma ChairAhead(s: State, i: nat)
    requires Shaped(s) && i < |s.pc| && Enabled(s, i) && !Serving(s.pc[i]) && TestsRight(s, i) && s.free >= 0
    requires !s.pc[i].TryChair?
    ensures var s' := ChairStep(s, i);
            && s'.pc == s.pc[i := s'.pc[i]] && s'.ta == s.ta
            && Ahead(s'.pc[i]) + 8 * s'.request < Ahead(s.pc[i]) + 8 * s.request
  {
  }

  lemma ServiceAhead(s: State, i: nat)
    requires Shaped(s) && i < |s.pc| && Enabled(s, i) && Serving(s.pc[i]) && TestsRight(s, i)
    ensures var s' := ServiceStep(s, i);
            && s'.pc == s.pc[i := s'.pc[i]] && s'.ta == s.ta && s'.request == s.request
            && Ahead(s'.pc[i]) < Ahead(s.pc[i])
  {
  }

  lemma StudentSettles(s: State, i: nat)
    requires Inv(s) && i < |s.pc| && Enabled(s, i) && !s.pc[i].TryChair?
    ensures Outstanding(Step(s, i)) < Outstanding(s)
  {
    assert StudentRight(s, i);
    TotalSlack(s.pc, s.pc, Lowered, Seated, 0);
    if Serving(s.pc[i]) {
      ServiceAhead(s, i);
    } else {
      ChairAhead(s, i);
    }
    TotalUpdate(s.pc, i, Step(s, i).pc[i], Ahead);
  }

  lemma TaSettles(s: State)
    requires Shaped(s) && TaEnabled(s) && !TaStep(s).crashed
    ensures Outstanding(TaStep(s)) < Outstanding(s)
  {
  }

  /** In this schedule the assistant moves, and students that are not about to try for a chair. */
  ghost predicate NoNewRequest(s: State, moves: seq<Move>)
    requires Shaped(s)
    decreases |moves|
  {
    moves == [] ||
    (&& (moves[0].Student? ==> moves[0].i < |s.pc| && !s.pc[moves[0].i].TryChair?)
     && NoNewRequest(Apply(s, moves[0]), moves[1..]))
  }

  /** Everything is as at the start, but for the record of requests and helps. */
  ghost predicate Settled(s: State, seats: nat, students: nat)
  {
    s == Init(seats, students).(asked := s.asked, helped := s.helped) && s.asked == s.helped
  }

  /** A move that can be made while the handshake is not over. */
  lemma Unfinished(s: State) returns (m: Move)
    requires Inv(s) && (!s.ta.Nap? || s.request > 0 || exists i :: 0 <= i < |s.pc| && !s.pc[i].TryChair?)
    ensures Moves(s, m) && (m.Student? ==> !s.pc[m.i].TryChair?)
  {
    if TaEnabled(s) {
      m := Assistant;
    } else if s.ta.Nap? {
      var i :| 0 <= i < |s.pc| && !s.pc[i].TryChair?;
      TotalAtLeast(s.pc, i, Asking);
      m := Student(i);
    } else {
      var i := HeldUp(s);
      m := Student(i);
    }
  }

  lemma MoveSettles(s: State, m: Move)
    requires Inv(s) && Moves(s, m) && (m.Student? ==> !s.pc[m.i].TryChair?)
    ensures Inv(Apply(s, m)) && Outstanding(Apply(s, m)) < Outstanding(s)
  {
    ApplyRight(s, m);
    if m.Student? {
      StudentSettles(s, m.i);
    } else {
      TaStudents(s);
      TaSettles(s);
    }
  }

  lemma AllNoughts(s: State)
    requires Inv(s) && forall i :: 0 <= i < |s.pc| ==> s.pc[i].TryChair?
    ensures TallyOf(s.pc) == Tally(0, 0, 0, 0, 0, 0, 0, 0)
  {
    TotalNone(s.pc, Seated);
    TotalNone(s.pc, Lowered);
    TotalNone(s.pc, Asking);
    TotalNone(s.pc, Waiting);
    TotalNone(s.pc, Arriving);
    TotalNone(s.pc, Locking);
    TotalNone(s.pc, Visiting);
    TotalNone(s.pc, Going);
  }

  /** The semaphores and the chair count are as at the start. */
  ghost predicate Reset(s: State)
  {
    && s.chairs == s.seats && s.lock == 1 && s.office == 0 && s.outside == 0
    && s.request == 0 && s.request1 == 0 && s.request2 == 0 && s.request3 == 0 && s.free == s.seats
  }

  lemma FinishedIsReset(s: State, k: Tally)
    requires SemaphoresRight(s, k) && HandshakeRight(s, k) && s.ta.Nap? && s.request == 0
    requires k == Tally(0, 0, 0, 0, 0, 0, 0, 0)
    ensures Reset(s)
  {
  }

  lemma ResetIsSettled(s: State)
    requires Shaped(s) && Reset(s) && !s.crashed && s.ta.Nap? && s.named == -1
    requires forall i :: 0 <= i < |s.pc| ==> s.pc[i].TryChair? && StudentRight(s, i)
    ensures Settled(s, s.seats, |s.pc|)
  {
    forall i | 0 <= i < |s.pc|
      ensures s.status[i] == Programming && s.asked[i] == s.helped[i]
    {
      assert StudentRight(s, i);
    }
    var s0 := Init(s.seats, |s.pc|);
    assert s.pc == s0.pc;
    assert s.status == s0.status;
    assert s.asked == s.helped;
  }

  lemma FinishedIsSettled(s: State)
    requires Inv(s) && s.ta.Nap? && s.request == 0 && forall i :: 0 <= i < |s.pc| ==> s.pc[i].TryChair?
    ensures Settled(s, s.seats, |s.pc|)
  {
    AllNoughts(s);
    FinishedIsReset(s, TallyOf(s.pc));
    NameRight(s);
    ResetIsSettled(s);
  }

  lemma {:induction false} Settles(s: State) returns (moves: seq<Move>)
    requires Inv(s)
    ensures NoNewRequest(s, moves) && Settled(Run(s, moves), s.seats, |s.pc|)
    decreases Outstanding(s)
  {
    if !s.ta.Nap? || s.request > 0 || exists i :: 0 <= i < |s.pc| && !s.pc[i].TryChair? {
      var m := Unfinished(s);
      MoveSettles(s, m);
      var rest := Settles(Apply(s, m));
      RunFirst(s, m, rest);
      moves := [m] + rest;
      assert moves[1..] == rest;
    } else {
      moves := [];
      FinishedIsSettled(s);
    }
  }

  ghost predicate SettlesBy(s: State, moves: seq<Move>, seats: nat, students: nat)
  {
    Shaped(s) && NoNewRequest(s, moves) && Settled(Run(s, moves), seats, students)
  }

  /** Every request comes to an end: after every schedule the assistant and the students that are not
      about to try for a chair can bring everything back to the start without a new request, every
      student having been helped as often as it asked. */
  lemma EveryRequestEnds(seats: nat, students: nat, moves: seq<Move>)
    ensures exists more :: SettlesBy(Run(Init(seats, students), moves), more, seats, students)
  {
    var s := Run(Init(seats, students), moves);
    RunRight(seats, students, moves);
    var more := Settles(s);
    assert |s.pc| == students && s.seats == seats;
    assert SettlesBy(s, more, seats, students);
  }
}

/** The sleeping teaching assistant: one assistant, any number of students and chairs, eight
semaphores.

Every semaphore operation and every write of a shared variable is one step. An assertion of
the program that fails would set crashed and stop everybody.
*/
module TeachingAssistant {
  import opened Counting

  datatype Status = Programming | WaitingForTA | WithTA

  /** What a student does next. */
  datatype Pc =
    | TryChair     // sem_trywait on the waiting chairs
    | TurnedAway   // no chair: test whether its status says it waits for the assistant
    | Request      // post TA_help_request_sem
    | Announce     // post TA_help_request_sem1
    | SitDown      // free_chairs_count--
    | MarkWaiting  // set its status to WAITING_FOR_TA
    | WaitOutside  // wait on Chair_outside_sem
    | StandUp      // free_chairs_count++
    | GiveChair    // post the waiting chairs
    | Called       // test whether its status says it waits for the assistant
    | TakeLock     // wait on TA_lock_sem
    | SetName      // student_with_TA = itself
    | TellNamed    // post TA_help_request_sem2
    | InOffice     // wait on TA_office_chair_sem
    | ClearName    // student_with_TA = -1
    | GiveLock     // post TA_lock_sem
    | Release      // post TA_help_request_sem3

  /** What the assistant does next. */
  datatype TaPc =
    | Nap          // wait on TA_help_request_sem
    | AwaitSeated  // wait on TA_help_request_sem1
    | CallIn       // post Chair_outside_sem
    | AwaitNamed   // wait on TA_help_request_sem2
    | Greet        // check and set the student's status to WITH_TA
    | Teach        // set the student's status to PROGRAMMING
    | SendOut      // post TA_office_chair_sem
    | AwaitRelease // wait on TA_help_request_sem3

  datatype State = State(
    seats: nat,                // NUM_TA_CHAIRS
    chairs: nat, lock: nat, office: nat, outside: nat,
    request: nat, request1: nat, request2: nat, request3: nat,
    free: int,
    named: int,                // student_with_TA
    status: seq<Status>,
    pc: seq<Pc>,
    ta: TaPc,
    crashed: bool,
    asked: seq<nat>,           // history: how often each student asked for help
    helped: seq<nat>           // history: how often each student was helped
  )

  datatype Move = Assistant | Student(i: nat)

  function Init(seats: nat, students: nat): State
  {
    State(seats, seats, 1, 0, 0, 0, 0, 0, 0, seats, -1,
          seq(students, _ => Programming), seq(students, _ => TryChair), Nap, false,
          seq(students, _ => 0), seq(students, _ => 0))
  }

  /** Whether the assistant, or student i, is not held up by a semaphore. */
  predicate TaEnabled(s: State)
  {
    match s.ta
    case Nap => s.request > 0
    case AwaitSeated => s.request1 > 0
    case AwaitNamed => s.request2 > 0
    case AwaitRelease => s.request3 > 0
    case _ => true
  }

  predicate Enabled(s: State, i: nat)
    requires i < |s.pc|
  {
    match s.pc[i]
    case WaitOutside => s.outside > 0
    case TakeLock => s.lock > 0
    case InOffice => s.office > 0
    case _ => true
  }

  predicate Shaped(s: State)
  {
    |s.status| == |s.pc| == |s.asked| == |s.helped|
  }

  function TaStep(s: State): State
    requires Shaped(s) && TaEnabled(s)
  {
    match s.ta
    case Nap => s.(request := s.request - 1, ta := AwaitSeated)
    case AwaitSeated => s.(request1 := s.request1 - 1, ta := CallIn)
    case CallIn => s.(outside := s.outside + 1, ta := AwaitNamed)
    case AwaitNamed => s.(request2 := s.request2 - 1, ta := Greet)
    case Greet =>
      if 0 <= s.named < |s.pc| && s.status[s.named] != WithTA then
        s.(status := s.status[s.named := WithTA], ta := Teach,
           helped := s.helped[s.named := s.helped[s.named] + 1])
      else
        s.(crashed := true)
    case Teach =>
      if 0 <= s.named < |s.pc| then
        s.(status := s.status[s.named := Programming], ta := SendOut)
      else
        s.(crashed := true)
    case SendOut => s.(office := s.office + 1, ta := AwaitRelease)
    case AwaitRelease => s.(request3 := s.request3 - 1, ta := Nap)
  }

  /** Whether a student is between leaving the chair outside and posting its release. */
  predicate Serving(p: Pc)
  {
    match p
    case TryChair | TurnedAway | Request | Announce | SitDown | MarkWaiting | WaitOutside => false
    case _ => true
  }

  /** The steps of acquire_chair, up to the wait outside the office. */
  function ChairStep(s: State, i: nat): State
    requires Shaped(s) && i < |s.pc| && Enabled(s, i) && !Serving(s.pc[i])
  {
    match s.pc[i]
    case TryChair =>
      if s.chairs > 0 then s.(chairs := s.chairs - 1, pc := s.pc[i := Request])
      else s.(pc := s.pc[i := TurnedAway])
    case TurnedAway => s.(pc := s.pc[i := if s.status[i] == WaitingForTA then TakeLock else TryChair])
    case Request =>
      if s.free >= 0 then
        s.(request := s.request + 1, pc := s.pc[i := Announce], asked := s.asked[i := s.asked[i] + 1])
      else
        s.(crashed := true)
    case Announce => s.(request1 := s.request1 + 1, pc := s.pc[i := SitDown])
    case SitDown => s.(free := s.free - 1, pc := s.pc[i := MarkWaiting])
    case MarkWaiting => s.(status := s.status[i := WaitingForTA], pc := s.pc[i := WaitOutside])
    case WaitOutside => s.(outside := s.outside - 1, pc := s.pc[i := StandUp])
  }

  /** The steps from leaving the chair outside to the end of acquire_TA. */
  function ServiceStep(s: State, i: nat): State
    requires Shaped(s) && i < |s.pc| && Enabled(s, i) && Serving(s.pc[i])
  {
    match s.pc[i]
    case StandUp => s.(free := s.free + 1, pc := s.pc[i := GiveChair])
    case GiveChair => s.(chairs := s.chairs + 1, pc := s.pc[i := Called])
    case Called => s.(pc := s.pc[i := if s.status[i] == WaitingForTA then TakeLock else TryChair])
    case TakeLock => s.(lock := s.lock - 1, pc := s.pc[i := SetName])
    case SetName => s.(named := i, pc := s.pc[i := TellNamed])
    case TellNamed => s.(request2 := s.request2 + 1, pc := s.pc[i := InOffice])
    case InOffice => s.(office := s.office - 1, pc := s.pc[i := ClearName])
    case ClearName => s.(named := -1, pc := s.pc[i := GiveLock])
    case GiveLock => s.(lock := s.lock + 1, pc := s.pc[i := Release])
    case Release => s.(request3 := s.request3 + 1, pc := s.pc[i := TryChair])
  }

  function Step(s: State, i: nat): State
    requires Shaped(s) && i < |s.pc| && Enabled(s, i)
  {
    if Serving(s.pc[i]) then ServiceStep(s, i) else ChairStep(s, i)
  }

  function Apply(s: State, m: Move): (s': State)
    requires Shaped(s)
    ensures Shaped(s') && |s'.pc| == |s.pc| && s'.seats == s.seats
  {
    if s.crashed then s
    else if m.Assistant? then (if TaEnabled(s) then TaStep(s) else s)
    else if m.i < |s.pc| && Enabled(s, m.i) then Step(s, m.i)
    else s
  }

  /** The state a schedule leads to. */
  function Run(s: State, moves: seq<Move>): (s': State)
    requires Shaped(s)
    ensures Shaped(s') && |s'.pc| == |s.pc| && s'.seats == s.seats
  {
    if moves == [] then s else Apply(Run(s, moves[..|moves| - 1]), moves[|moves| - 1])
  }

  // ---------------------------------------------------------------- counting students

  function Seated(p: Pc): nat
  {
    match p
    case Request | Announce | SitDown | MarkWaiting | WaitOutside | StandUp | GiveChair => 1
    case _ => 0
  }

  function Lowered(p: Pc): nat
  {
    match p
    case MarkWaiting | WaitOutside | StandUp => 1
    case _ => 0
  }

  function Asking(p: Pc): nat
  {
    match p
    case Announce | SitDown | MarkWaiting | WaitOutside | StandUp | GiveChair | Called | TakeLock => 1
    case SetName | TellNamed | InOffice | ClearName | GiveLock | Release => 1
    case _ => 0
  }

  function Waiting(p: Pc): nat
  {
    match p
    case SitDown | MarkWaiting | WaitOutside => 1
    case _ => 0
  }

  function Arriving(p: Pc): nat
  {
    match p
    case StandUp | GiveChair | Called | TakeLock | SetName | TellNamed => 1
    case _ => 0
  }

  function Locking(p: Pc): nat
  {
    match p
    case SetName | TellNamed | InOffice | ClearName | GiveLock => 1
    case _ => 0
  }

  function Visiting(p: Pc): nat
  {
    match p
    case InOffice => 1
    case _ => 0
  }

  function Going(p: Pc): nat
  {
    match p
    case ClearName | GiveLock | Release => 1
    case _ => 0
  }

  datatype Tally = Tally(seated: nat, lowered: nat, asking: nat, waiting: nat, arriving: nat,
                         locking: nat, visiting: nat, going: nat)

  ghost function TallyOf(pc: seq<Pc>): Tally
  {
    Tally(Total(pc, Seated), Total(pc, Lowered), Total(pc, Asking), Total(pc, Waiting),
          Total(pc, Arriving), Total(pc, Locking), Total(pc, Visiting), Total(pc, Going))
  }

  /** A student at p is counted, and the stretches lie within one another as their names say. */
  ghost predicate Holds(k: Tally, p: Pc)
  {
    && Seated(p) <= k.seated && Lowered(p) <= k.lowered && Asking(p) <= k.asking
    && Waiting(p) <= k.waiting && Arriving(p) <= k.arriving && Locking(p) <= k.locking
    && Visiting(p) <= k.visiting && Going(p) <= k.going
    && k.lowered <= k.seated
  }

  /** Tally k' follows k when a student moves from p to q: chairs and lock, requests, service. */
  ghost predicate SeatsFollow(k: Tally, p: Pc, q: Pc, k': Tally)
  {
    && k'.seated + Seated(p) == k.seated + Seated(q)
    && k'.lowered + Lowered(p) == k.lowered + Lowered(q)
    && k'.locking + Locking(p) == k.locking + Locking(q)
  }

  ghost predicate RequestsFollow(k: Tally, p: Pc, q: Pc, k': Tally)
  {
    && k'.asking + Asking(p) == k.asking + Asking(q)
    && k'.waiting + Waiting(p) == k.waiting + Waiting(q)
  }

  ghost predicate ServiceFollows(k: Tally, p: Pc, q: Pc, k': Tally)
  {
    && k'.arriving + Arriving(p) == k.arriving + Arriving(q)
    && k'.visiting + Visiting(p) == k.visiting + Visiting(q)
    && k'.going + Going(p) == k.going + Going(q)
  }

  lemma TallyMoved(pc: seq<Pc>, i: nat, q: Pc)
    requires i < |pc|
    ensures SeatsFollow(TallyOf(pc), pc[i], q, TallyOf(pc[i := q]))
    ensures RequestsFollow(TallyOf(pc), pc[i], q, TallyOf(pc[i := q]))
    ensures ServiceFollows(TallyOf(pc), pc[i], q, TallyOf(pc[i := q]))
  {
    TotalUpdate(pc, i, q, Seated);
    TotalUpdate(pc, i, q, Lowered);
    TotalUpdate(pc, i, q, Asking);
    TotalUpdate(pc, i, q, Waiting);
    TotalUpdate(pc, i, q, Arriving);
    TotalUpdate(pc, i, q, Locking);
    TotalUpdate(pc, i, q, Visiting);
    TotalUpdate(pc, i, q, Going);
  }

  lemma TallyHolds(pc: seq<Pc>, i: nat)
    requires i < |pc|
    ensures Holds(TallyOf(pc), pc[i])
  {
    TotalAtLeast(pc, i, Seated);
    TotalAtLeast(pc, i, Lowered);
    TotalAtLeast(pc, i, Asking);
    TotalAtLeast(pc, i, Waiting);
    TotalAtLeast(pc, i, Arriving);
    TotalAtLeast(pc, i, Locking);
    TotalAtLeast(pc, i, Visiting);
    TotalAtLeast(pc, i, Going);
    TotalSlack(pc, pc, Lowered, Seated, 0);
  }

  // ---------------------------------------------------------------- the invariant

  /** Chairs and the lock are with the students that do not have them free. */
  ghost predicate SeatsRight(s: State, k: Tally)
  {
    && s.chairs + k.seated == s.seats
    && s.free == s.seats - k.lowered
    && s.lock + k.locking == 1
  }

  /** Requests, calls and releases are with the students that made or still owe them. */
  ghost predicate RequestsRight(s: State, k: Tally)
  {
    && k.asking + s.request3 == s.request + (if s.ta.Nap? then 0 else 1)
    && k.waiting == s.request1 + s.outside + (if s.ta.CallIn? then 1 else 0)
  }

  ghost predicate SemaphoresRight(s: State, k: Tally)
  {
    SeatsRight(s, k) && RequestsRight(s, k)
  }

  /** At most one student is in service or called to it, and how far it is follows from the step
      the assistant is at. */
  ghost predicate HandshakeRight(s: State, k: Tally)
  {
    && k.arriving + k.visiting + k.going + s.outside + s.request3
       == (if s.ta.Nap? || s.ta.AwaitSeated? || s.ta.CallIn? then 0 else 1)
    && match s.ta {
         case AwaitNamed => s.office == 0 && s.request2 == k.visiting && k.going == 0 && s.request3 == 0
         case Greet => s.office == 0 && s.request2 == 0 && k.visiting == 1
         case Teach => s.office == 0 && s.request2 == 0 && k.visiting == 1
         case SendOut => s.office == 0 && s.request2 == 0 && k.visiting == 1
         case AwaitRelease => s.request2 == 0 && s.office == k.visiting && s.outside == 0 && k.arriving == 0
         case _ => s.office == 0 && s.request2 == 0
       }
  }

  /** The status a student has, given where it is and what the assistant is doing. */
  function Expected(p: Pc, ta: TaPc): Status
  {
    match p
    case WaitOutside | StandUp | GiveChair | Called | TakeLock | SetName | TellNamed => WaitingForTA
    case InOffice => if ta.Teach? then WithTA else if Attended(ta) then Programming else WaitingForTA
    case _ => Programming
  }

  /** Whether a student has asked and not been helped yet. */
  function Owed(p: Pc, ta: TaPc): nat
  {
    match p
    case Announce | SitDown | MarkWaiting | WaitOutside | StandUp => 1
    case GiveChair | Called | TakeLock | SetName | TellNamed => 1
    case InOffice => if Attended(ta) then 0 else 1
    case _ => 0
  }

  predicate Attended(ta: TaPc) { ta.Teach? || ta.SendOut? || ta.AwaitRelease? }

  ghost predicate StudentRight(s: State, i: nat)
    requires Shaped(s) && i < |s.pc|
  {
    && s.status[i] == Expected(s.pc[i], s.ta)
    && s.asked[i] == s.helped[i] + Owed(s.pc[i], s.ta)
    && (s.named == i <==> Named(s.pc[i]))
  }

  /** Whether a student is between setting student_with_TA and clearing it. */
  predicate Named(p: Pc) { p.TellNamed? || p.InOffice? || p.ClearName? }

  ghost predicate Right(s: State, k: Tally)
  {
    && Shaped(s) && !s.crashed
    && SemaphoresRight(s, k) && HandshakeRight(s, k)
    && -1 <= s.named < |s.pc|
    && (forall i :: 0 <= i < |s.pc| ==> StudentRight(s, i))
  }

  ghost predicate Inv(s: State) { Right(s, TallyOf(s.pc)) }

  lemma InitRight(seats: nat, students: nat)
    ensures Inv(Init(seats, students))
  {
    var pc := Init(seats, students).pc;
    TotalNone(pc, Seated);
    TotalNone(pc, Lowered);
    TotalNone(pc, Asking);
    TotalNone(pc, Waiting);
    TotalNone(pc, Arriving);
    TotalNone(pc, Locking);
    TotalNone(pc, Visiting);
    TotalNone(pc, Going);
  }

  /** The tests of a student's status come out as its position says. */
  ghost predicate TestsRight(s: State, i: nat)
    requires Shaped(s) && i < |s.pc|
  {
    (s.pc[i].TurnedAway? ==> s.status[i] == Programming) && (s.pc[i].Called? ==> s.status[i] == WaitingForTA)
  }

  lemma ChairSeats(s: State, k: Tally, i: nat, k': Tally)
    requires Shaped(s) && i < |s.pc| && Enabled(s, i) && !Serving(s.pc[i])
    requires SeatsFollow(k, s.pc[i], ChairStep(s, i).pc[i], k')
    requires SeatsRight(s, k)
    ensures SeatsRight(ChairStep(s, i), k')
  {
  }

  lemma ChairRequests(s: State, k: Tally, i: nat, k': Tally)
    requires Shaped(s) && i < |s.pc| && Enabled(s, i) && !Serving(s.pc[i])
    requires RequestsFollow(k, s.pc[i], ChairStep(s, i).pc[i], k')
    requires TestsRight(s, i) && RequestsRight(s, k)
    ensures RequestsRight(ChairStep(s, i), k')
  {
  }

  lemma ChairHandshake(s: State, k: Tally, i: nat, k': Tally)
    requires Shaped(s) && i < |s.pc| && Enabled(s, i) && !Serving(s.pc[i])
    requires ServiceFollows(k, s.pc[i], ChairStep(s, i).pc[i], k')
    requires TestsRight(s, i) && HandshakeRight(s, k)
    ensures HandshakeRight(ChairStep(s, i), k')
  {
    assert !s.pc[i].WaitOutside? ==> !Serving(ChairStep(s, i).pc[i]);
  }

  lemma ChairStudent(s: State, i: nat)
    requires Shaped(s) && i < |s.pc| && Enabled(s, i) && !Serving(s.pc[i])
    requires StudentRight(s, i) && s.free >= 0
    ensures Shaped(ChairStep(s, i)) && |ChairStep(s, i).pc| == |s.pc|
    ensures ChairStep(s, i).crashed == s.crashed && ChairStep(s, i).named == s.named
    ensures StudentRight(ChairStep(s, i), i)
  {
  }

  lemma ChairOther(s: State, i: nat, j: nat)
    requires Shaped(s) && i < |s.pc| && j < |s.pc| && Enabled(s, i) && !Serving(s.pc[i])
    requires StudentRight(s, j) && i != j
    ensures Shaped(ChairStep(s, i)) && |ChairStep(s, i).pc| == |s.pc|
    ensures StudentRight(ChairStep(s, i), j)
  {
  }

  lemma ServiceSeats(s: State, k: Tally, i: nat, k': Tally)
    requires Shaped(s) && i < |s.pc| && Enabled(s, i) && Serving(s.pc[i])
    requires SeatsFollow(k, s.pc[i], ServiceStep(s, i).pc[i], k')
    requires SeatsRight(s, k)
    ensures SeatsRight(ServiceStep(s, i), k')
  {
  }

  lemma ServiceRequests(s: State, k: Tally, i: nat, k': Tally)
    requires Shaped(s) && i < |s.pc| && Enabled(s, i) && Serving(s.pc[i])
    requires RequestsFollow(k, s.pc[i], ServiceStep(s, i).pc[i], k')
    requires TestsRight(s, i) && RequestsRight(s, k)
    ensures RequestsRight(ServiceStep(s, i), k')
  {
  }

  lemma ServiceHandshake(s: State, k: Tally, i: nat, k': Tally)
    requires Shaped(s) && i < |s.pc| && Enabled(s, i) && Serving(s.pc[i])
    requires ServiceFollows(k, s.pc[i], ServiceStep(s, i).pc[i], k')
    requires TestsRight(s, i) && HandshakeRight(s, k) && Holds(k, s.pc[i])
    ensures HandshakeRight(ServiceStep(s, i), k')
  {
  }

  /** A student sits down in the office while the assistant waits to be told, and gets up while
      the assistant waits to be released. */
  ghost predicate OfficeTimed(s: State, i: nat)
    requires i < |s.pc|
  {
    (s.pc[i].TellNamed? ==> s.ta.AwaitNamed?) && (s.pc[i].InOffice? && s.office > 0 ==> s.ta.AwaitRelease?)
  }

  lemma OfficeTiming(s: State, k: Tally, i: nat)
    requires i < |s.pc| && HandshakeRight(s, k) && Holds(k, s.pc[i])
    ensures OfficeTimed(s, i)
  {
  }

  lemma ServiceStudent(s: State, i: nat)
    requires Shaped(s) && i < |s.pc| && Enabled(s, i) && Serving(s.pc[i])
    requires StudentRight(s, i) && OfficeTimed(s, i)
    ensures Shaped(ServiceStep(s, i)) && |ServiceStep(s, i).pc| == |s.pc|
    ensures ServiceStep(s, i).crashed == s.crashed
    ensures -1 <= s.named < |s.pc| ==> -1 <= ServiceStep(s, i).named < |s.pc|
    ensures StudentRight(ServiceStep(s, i), i)
  {
  }

  lemma ServiceOther(s: State, i: nat, j: nat)
    requires Shaped(s) && i < |s.pc| && j < |s.pc| && Enabled(s, i) && Serving(s.pc[i])
    requires StudentRight(s, j) && i != j && !Serving(s.pc[j])
    ensures Shaped(ServiceStep(s, i)) && |ServiceStep(s, i).pc| == |s.pc|
    ensures StudentRight(ServiceStep(s, i), j)
  {
  }

  function InService(p: Pc): nat { if Serving(p) then 1 else 0 }
  function Inside(p: Pc): nat { Arriving(p) + Visiting(p) }

  lemma ServiceTotal(pc: seq<Pc>)
    ensures var k := TallyOf(pc); Total(pc, InService) == k.arriving + k.visiting + k.going
  {
    TotalAdd(pc, Arriving, Visiting, Inside);
    TotalAdd(pc, Inside, Going, InService);
  }

  /** Mutual exclusion: two students are never both between leaving the chairs outside and
      posting their release. */
  lemma OneInService(s: State, i: nat, j: nat)
    requires Inv(s) && i < |s.pc| && j < |s.pc| && i != j
    ensures !(Serving(s.pc[i]) && Serving(s.pc[j]))
  {
    ServiceTotal(s.pc);
    TotalTwo(s.pc, i, j, InService);
  }

  lemma StepSame(s: State, i: nat)
    requires Shaped(s) && i < |s.pc| && Enabled(s, i)
    ensures var s' := Step(s, i);
            Shaped(s') && |s'.pc| == |s.pc| && s'.pc == s.pc[i := s'.pc[i]]
  {
  }

  /** What the lemmas about one step need of the tallies around it. */
  ghost predicate Around(s: State, k: Tally, i: nat, q: Pc, k': Tally)
    requires Shaped(s) && i < |s.pc|
  {
    && TestsRight(s, i) && Holds(k, s.pc[i])
    && SeatsFollow(k, s.pc[i], q, k') && RequestsFollow(k, s.pc[i], q, k') && ServiceFollows(k, s.pc[i], q, k')
  }

  lemma StepTallies(s: State, k: Tally, i: nat, k': Tally)
    requires Shaped(s) && i < |s.pc| && Enabled(s, i)
    requires Around(s, k, i, Step(s, i).pc[i], k')
    requires SemaphoresRight(s, k) && HandshakeRight(s, k)
    ensures SemaphoresRight(Step(s, i), k') && HandshakeRight(Step(s, i), k')
  {
    if !Serving(s.pc[i]) {
      ChairSeats(s, k, i, k');
      ChairRequests(s, k, i, k');
      ChairHandshake(s, k, i, k');
    } else {
      ServiceSeats(s, k, i, k');
      ServiceRequests(s, k, i, k');
      ServiceHandshake(s, k, i, k');
    }
  }

  lemma StepCounts(s: State, i: nat)
    requires Inv(s) && i < |s.pc| && Enabled(s, i)
    ensures var s' := Step(s, i);
            var k' := TallyOf(s'.pc);
            SemaphoresRight(s', k') && HandshakeRight(s', k')
  {
    var k, q := TallyOf(s.pc), Step(s, i).pc[i];
    StepSame(s, i);
    TallyHolds(s.pc, i);
    TallyMoved(s.pc, i, q);
    assert StudentRight(s, i);
    StepTallies(s, k, i, TallyOf(s.pc[i := q]));
  }

  lemma StepRight(s: State, i: nat)
    requires Inv(s) && i < |s.pc| && Enabled(s, i)
    ensures Inv(Step(s, i))
  {
    StepSame(s, i);
    StepCounts(s, i);
    TallyHolds(s.pc, i);
    forall j | 0 <= j < |s.pc|
      ensures StudentRight(Step(s, i), j) && !Step(s, i).crashed && -1 <= Step(s, i).named < |s.pc|
    {
      assert StudentRight(s, i) && StudentRight(s, j);
      if i != j {
        OneInService(s, i, j);
      }
      if !Serving(s.pc[i]) {
        ChairStudent(s, i);
        if i != j {
          ChairOther(s, i, j);
        }
      } else {
        OfficeTiming(s, TallyOf(s.pc), i);
        ServiceStudent(s, i);
        if i != j {
          ServiceOther(s, i, j);
        }
      }
    }
  }

  /** The assistant's step changes the status of the student in the office only. */
  lemma TaStudent(s: State, i: nat, j: nat)
    requires Shaped(s) && TaEnabled(s) && i < |s.pc| && j < |s.pc|
    requires s.ta.AwaitNamed? || s.ta.Greet? || s.ta.Teach? || s.ta.SendOut?
    requires s.pc[i].InOffice? && (i != j ==> !Serving(s.pc[j]))
    requires StudentRight(s, i) && StudentRight(s, j)
    ensures Shaped(TaStep(s)) && TaStep(s).crashed == s.crashed && TaStep(s).pc == s.pc && TaStep(s).named == s.named
    ensures StudentRight(TaStep(s), j)
  {
  }

  lemma TaCounts(s: State, k: Tally)
    requires Shaped(s) && TaEnabled(s) && SemaphoresRight(s, k) && HandshakeRight(s, k)
    requires !TaStep(s).crashed
    ensures SemaphoresRight(TaStep(s), k) && HandshakeRight(TaStep(s), k)
  {
  }

  /** The student in the office while the assistant attends to it. */
  lemma TaVisitor(s: State) returns (i: nat)
    requires Inv(s) && TaEnabled(s) && (s.ta.AwaitNamed? || s.ta.Greet? || s.ta.Teach? || s.ta.SendOut?)
    ensures i < |s.pc| && s.pc[i].InOffice?
    ensures forall j :: 0 <= j < |s.pc| && j != i ==> !Serving(s.pc[j])
  {
    i := TotalWitness(s.pc, Visiting);
    forall j | 0 <= j < |s.pc| && j != i
      ensures !Serving(s.pc[j])
    {
      OneInService(s, i, j);
    }
  }

  lemma TaStepRight(s: State)
    requires Inv(s) && TaEnabled(s)
    ensures Inv(TaStep(s))
  {
    TaStudents(s);
    TaCounts(s, TallyOf(s.pc));
  }

  lemma TaStudents(s: State)
    requires Inv(s) && TaEnabled(s)
    ensures Shaped(TaStep(s)) && !TaStep(s).crashed && TaStep(s).pc == s.pc && TaStep(s).named == s.named
    ensures forall j :: 0 <= j < |s.pc| ==> StudentRight(TaStep(s), j)
  {
    if s.ta.AwaitNamed? || s.ta.Greet? || s.ta.Teach? || s.ta.SendOut? {
      var i := TaVisitor(s);
      assert StudentRight(s, i);
      forall j | 0 <= j < |s.pc|
        ensures StudentRight(TaStep(s), j)
      {
        assert StudentRight(s, j);
        TaStudent(s, i, j);
      }
    } else {
      forall j | 0 <= j < |s.pc|
        ensures StudentRight(TaStep(s), j)
      {
        assert StudentRight(s, j);
        TotalAtLeast(s.pc, j, Visiting);
      }
    }
  }

  /** The invariant holds after every schedule of any number of students and chairs. */
  lemma {:induction false} RunRight(seats: nat, students: nat, moves: seq<Move>)
    ensures Inv(Run(Init(seats, students), moves))
  {
    if moves == [] {
      InitRight(seats, students);
    } else {
      RunRight(seats, students, moves[..|moves| - 1]);
      var s := Run(Init(seats, students), moves[..|moves| - 1]);
      ApplyRight(s, moves[|moves| - 1]);
    }
  }

  lemma ApplyRight(s: State, m: Move)
    requires Inv(s)
    ensures Inv(Apply(s, m))
  {
    if m.Assistant? {
      if TaEnabled(s) {
        TaStepRight(s);
      }
    } else if m.i < |s.pc| && Enabled(s, m.i) {
      StepRight(s, m.i);
    }
  }

  // ---------------------------------------------------------------- what the handshake guarantees

  /** Exclusive service, for every schedule: no assertion of the program fails; at most as many
      students are seated as there are chairs, and free_chairs_count never goes below zero; at
      most one student is in service; and the wait on the assistant's lock never blocks. */
  lemma ServiceExclusive(seats: nat, students: nat, moves: seq<Move>)
    ensures var s := Run(Init(seats, students), moves);
            && !s.crashed
            && Total(s.pc, Seated) <= seats && 0 <= s.free <= seats
            && (forall i, j | 0 <= i < j < |s.pc| ::
                  !(Serving(s.pc[i]) && Serving(s.pc[j])))
            && (forall i :: 0 <= i < |s.pc| && s.pc[i].TakeLock? ==> s.lock == 1)
  {
    var s := Run(Init(seats, students), moves);
    RunRight(seats, students, moves);
    TotalSlack(s.pc, s.pc, Lowered, Seated, 0);
    forall i, j | 0 <= i < j < |s.pc|
      ensures !(Serving(s.pc[i]) && Serving(s.pc[j]))
    {
      OneInService(s, i, j);
    }
    forall i | 0 <= i < |s.pc| && s.pc[i].TakeLock?
      ensures s.lock == 1
    {
      LockIsFree(s, i);
    }
  }

  lemma LockIsFree(s: State, i: nat)
    requires Inv(s) && i < |s.pc| && s.pc[i].TakeLock?
    ensures s.lock == 1
  {
    if Total(s.pc, Locking) > 0 {
      var j := TotalWitness(s.pc, Locking);
      OneInService(s, i, j);
    }
  }

  /** While the assistant greets or teaches, student_with_TA names one particular student, who
      stays in the office chair, and whose status is the one the assistant expects. */
  lemma NameIsStable(seats: nat, students: nat, moves: seq<Move>)
    ensures var s := Run(Init(seats, students), moves);
            s.ta.Greet? || s.ta.Teach? || s.ta.SendOut? ==>
              && 0 <= s.named < |s.pc|
              && s.pc[s.named].InOffice?
              && s.status[s.named] == Expected(InOffice, s.ta)
              && (forall m: Move :: m.Student? ==> Apply(s, m).named == s.named)
  {
    var s := Run(Init(seats, students), moves);
    RunRight(seats, students, moves);
    if s.ta.Greet? || s.ta.Teach? || s.ta.SendOut? {
      var i := TaVisitor(s);
      assert StudentRight(s, i);
      forall m: Move | m.Student?
        ensures Apply(s, m).named == s.named
      {
        VisitorKeepsName(s, i, m);
      }
    }
  }

  /** Over every schedule student_with_TA names a student exactly while that student is between setting
      and clearing it, and is -1 exactly while no student is. */
  lemma NameIsCleared(seats: nat, students: nat, moves: seq<Move>)
    ensures var s := Run(Init(seats, students), moves);
            && (forall i :: 0 <= i < |s.pc| ==> (s.named == i <==> Named(s.pc[i])))
            && (s.named == -1 <==> forall i :: 0 <= i < |s.pc| ==> !Named(s.pc[i]))
  {
    RunRight(seats, students, moves);
    NameRight(Run(Init(seats, students), moves));
  }

  lemma NameRight(s: State)
    requires Inv(s)
    ensures forall i :: 0 <= i < |s.pc| ==> (s.named == i <==> Named(s.pc[i]))
    ensures s.named == -1 <==> forall i :: 0 <= i < |s.pc| ==> !Named(s.pc[i])
  {
    forall i | 0 <= i < |s.pc|
      ensures s.named == i <==> Named(s.pc[i])
    {
      assert StudentRight(s, i);
    }
    if s.named != -1 {
      assert Named(s.pc[s.named]);
    }
  }

  lemma VisitorKeepsName(s: State, i: nat, m: Move)
    requires Shaped(s) && i < |s.pc| && s.pc[i].InOffice? && s.office == 0 && m.Student?
    requires forall j :: 0 <= j < |s.pc| && j != i ==> !Serving(s.pc[j])
    ensures Apply(s, m).named == s.named
  {
  }

  /** Every student has been helped exactly as often as it asked, except for the one request
      it may still have pending; and a student without a request is simply programming. */
  lemma EveryRequestAnswered(seats: nat, students: nat, moves: seq<Move>, i: nat)
    requires i < students
    ensures var s := Run(Init(seats, students), moves);
            && |s.pc| == |s.asked| == |s.helped| == |s.status| == students
            && s.helped[i] <= s.asked[i] <= s.helped[i] + 1
            && (s.pc[i].TryChair? || s.pc[i].TurnedAway? || s.pc[i].Request? ==>
                  s.asked[i] == s.helped[i] && s.status[i] == Programming)
  {
    RunRight(seats, students, moves);
    Answered(Run(Init(seats, students), moves), i);
  }

  lemma Answered(s: State, i: nat)
    requires Inv(s) && i < |s.pc|
    ensures s.helped[i] <= s.asked[i] <= s.helped[i] + 1
    ensures s.pc[i].TryChair? || s.pc[i].TurnedAway? || s.pc[i].Request? ==>
              s.asked[i] == s.helped[i] && s.status[i] == Programming
  {
    assert StudentRight(s, i);
  }

  /** No request is lost: while the assistant is held up in its nap, no student has a request
      outstanding, seated or in service; and while it is held up anywhere later, some student of
      the handshake can take a step. */
  lemma NoRequestLost(seats: nat, students: nat, moves: seq<Move>)
    ensures var s := Run(Init(seats, students), moves);
            !TaEnabled(s) ==>
              if s.ta.Nap? then
                forall i :: 0 <= i < |s.pc| ==> Asking(s.pc[i]) == 0 && s.asked[i] == s.helped[i]
              else
                exists i :: 0 <= i < |s.pc| && Asking(s.pc[i]) == 1 && Enabled(s, i)
  {
    var s := Run(Init(seats, students), moves);
    RunRight(seats, students, moves);
    if !TaEnabled(s) {
      if s.ta.Nap? {
        forall i | 0 <= i < |s.pc|
          ensures Asking(s.pc[i]) == 0 && s.asked[i] == s.helped[i]
        {
          TotalAtLeast(s.pc, i, Asking);
          assert StudentRight(s, i);
        }
      } else {
        var i := HeldUp(s);
      }
    }
  }

  /** The student that can unblock the assistant. */
  lemma HeldUp(s: State) returns (i: nat)
    requires Inv(s) && !TaEnabled(s) && !s.ta.Nap?
    ensures i < |s.pc| && Asking(s.pc[i]) == 1 && Enabled(s, i)
  {
    ServiceTotal(s.pc);
    if s.ta.AwaitSeated? {
      i := TotalWitness(s.pc, Asking);
      TotalAtLeast(s.pc, i, Waiting);
      TotalAtLeast(s.pc, i, InService);
    } else if s.outside > 0 {
      i := TotalWitness(s.pc, Waiting);
    } else {
      i := TotalWitness(s.pc, InService);
      TotalAtLeast(s.pc, i, Visiting);
      if s.pc[i].TakeLock? {
        LockIsFree(s, i);
      }
    }
  }

  /** How many steps a student with a request is from the end of its visit. */
  function Left(p: Pc): nat
  {
    match p
    case Announce => 14
    case SitDown => 13
    case MarkWaiting => 12
    case WaitOutside => 11
    case StandUp => 10
    case GiveChair => 9
    case Called => 8
    case TakeLock => 7
    case SetName => 6
    case TellNamed => 5
    case InOffice => 4
    case ClearName => 3
    case GiveLock => 2
    case Release => 1
    case _ => 0
  }

  /** A student with a request that can step gets nearer to its end, and leaves the assistant where
      it is. */
  lemma StepNearer(s: State, i: nat)
    requires Shaped(s) && i < |s.pc| && Enabled(s, i) && TestsRight(s, i)
    requires Asking(s.pc[i]) == 1
    ensures Left(Step(s, i).pc[i]) < Left(s.pc[i]) && Step(s, i).ta == s.ta
  {
  }

  /** Only the students with a request move in this schedule. */
  ghost predicate ByAskers(s: State, moves: seq<Move>)
    requires Shaped(s)
    decreases |moves|
  {
    moves == [] ||
    (moves[0].Student? && moves[0].i < |s.pc| && Asking(s.pc[moves[0].i]) == 1
     && ByAskers(Apply(s, moves[0]), moves[1..]))
  }

  lemma {:induction false} RunFirst(s: State, m: Move, moves: seq<Move>)
    requires Shaped(s)
    ensures Run(s, [m] + moves) == Run(Apply(s, m), moves)
  {
    var all := [m] + moves;
    if moves == [] {
      assert all[..|all| - 1] == [];
    } else {
      assert all[..|all| - 1] == [m] + moves[..|moves| - 1];
      RunFirst(s, m, moves[..|moves| - 1]);
    }
  }

  /** From every state of the handshake the students with requests can, on their own, get the
      assistant past the semaphore that holds it up. */
  lemma {:induction false} Unblocked(s: State) returns (moves: seq<Move>)
    requires Inv(s) && !s.ta.Nap?
    ensures ByAskers(s, moves)
    ensures Run(s, moves).ta == s.ta && TaEnabled(Run(s, moves))
    decreases Total(s.pc, Left)
  {
    moves := [];
    if !TaEnabled(s) {
      var i := HeldUp(s);
      var s' := Step(s, i);
      assert StudentRight(s, i);
      StepNearer(s, i);
      StepSame(s, i);
      TotalUpdate(s.pc, i, s'.pc[i], Left);
      StepRight(s, i);
      var rest := Unblocked(s');
      RunFirst(s, Student(i), rest);
      moves := [Student(i)] + rest;
      assert moves[1..] == rest;
    }
  }

  /** No request gets stuck half-way: after every schedule the assistant can take its next step, or
      naps with no request outstanding, or the students with requests can bring it to where it can
      take that step, without anybody else moving. */
  lemma AssistantCanGoOn(seats: nat, students: nat, moves: seq<Move>)
    ensures var s := Run(Init(seats, students), moves);
            || TaEnabled(s)
            || (s.ta.Nap? && forall i :: 0 <= i < |s.pc| ==> Asking(s.pc[i]) == 0)
            || exists more :: ByAskers(s, more) && Run(s, more).ta == s.ta && TaEnabled(Run(s, more))
  {
    var s := Run(Init(seats, students), moves);
    RunRight(seats, students, moves);
    NoRequestLost(seats, students, moves);
    if !TaEnabled(s) && !s.ta.Nap? {
      var more := Unblocked(s);
    }
  }

  /** With at least one student somebody can always take a step. */
  lemma NeverDeadlocked(seats: nat, students: nat, moves: seq<Move>)
    requires students > 0
    ensures var s := Run(Init(seats, students), moves);
            TaEnabled(s) || exists i :: 0 <= i < |s.pc| && Enabled(s, i)
  {
    NoRequestLost(seats, students, moves);
    var s := Run(Init(seats, students), moves);
    if !TaEnabled(s) && s.ta.Nap? {
      assert Enabled(s, 0);
    }
  }
}

/** The reader/writer semaphore's fast paths over one signed count.

The lower half of the count holds the active attempts, the upper half minus the number of writers
among them. Every atomic operation is one step. A caller handed over to a slow path stays there,
with the bias its fast path left. Both widths of a long are covered.
*/
module RwSemaphore {
  import opened Arithmetic
  import opened Counting
  import opened Exclusion

  datatype Arch = Bits32 | Bits64

  /** RWSEM_ACTIVE_MASK + 1, the negated waiting bias. */
  function Base(a: Arch): int
  {
    match a
    case Bits32 => 0x1_0000
    case Bits64 => 0x1_0000_0000
  }

  /** The value a long keeps of x. */
  function Wrap(a: Arch, x: int): int
  {
    match a
    case Bits32 => (x + 0x8000_0000) % 0x1_0000_0000 - 0x8000_0000
    case Bits64 => (x + 0x8000_0000_0000_0000) % 0x1_0000_0000_0000_0000 - 0x8000_0000_0000_0000
  }

  function ReadBias(a: Arch): int { 1 }
  function WriteBias(a: Arch): int { 1 - Base(a) }

  datatype Pc =
    | Idle
    | ReadLoop           // read trylock is about to read the count
    | ReadTry(tmp: int)  // read trylock saw tmp >= 0 and is about to compare and exchange
    | Reading
    | ReadSlow           // down_read was handed over
    | Writing
    | WriteSlow          // down_write was handed over

  datatype State = State(arch: Arch, count: int, pc: seq<Pc>)

  datatype Move =
    | DownRead(t: nat) | ReadTrylock(t: nat) | UpRead(t: nat)
    | DownWrite(t: nat) | WriteTrylock(t: nat) | UpWrite(t: nat) | Downgrade(t: nat)
    | Again(t: nat)  // the next atomic operation of a read trylock under way

  function Init(a: Arch, threads: nat): State
  {
    State(a, 0, seq(threads, _ => Idle))
  }

  function Plus(s: State, delta: int): State
  {
    s.(count := Wrap(s.arch, s.count + delta))
  }

  function To(s: State, t: nat, p: Pc): State
    requires t < |s.pc|
  {
    s.(pc := s.pc[t := p])
  }

  function Apply(s: State, m: Move): (s': State)
    ensures |s'.pc| == |s.pc| && s'.arch == s.arch
  {
    if m.t >= |s.pc| then s
    else
      var t := m.t;
      match (m, s.pc[t])
      case (DownRead(_), Idle) =>
        var s' := Plus(s, ReadBias(s.arch));
        To(s', t, if s'.count <= 0 then ReadSlow else Reading)
      case (ReadTrylock(_), Idle) => To(s, t, ReadLoop)
      case (Again(_), ReadLoop) => To(s, t, if s.count >= 0 then ReadTry(s.count) else Idle)
      case (Again(_), ReadTry(tmp)) =>
        if s.count == tmp then To(Plus(s, ReadBias(s.arch)), t, Reading) else To(s, t, ReadLoop)
      case (UpRead(_), Reading) => To(Plus(s, -ReadBias(s.arch)), t, Idle)
      case (DownWrite(_), Idle) =>
        var s' := Plus(s, WriteBias(s.arch));
        To(s', t, if s'.count != WriteBias(s.arch) then WriteSlow else Writing)
      case (WriteTrylock(_), Idle) =>
        if s.count == 0 then To(s.(count := WriteBias(s.arch)), t, Writing) else s
      case (UpWrite(_), Writing) => To(Plus(s, -WriteBias(s.arch)), t, Idle)
      case (Downgrade(_), Writing) => To(Plus(s, Base(s.arch)), t, Reading)
      case _ => s
  }

  function Run(s: State, moves: seq<Move>): (s': State)
    ensures |s'.pc| == |s.pc| && s'.arch == s.arch
  {
    if moves == [] then s else Apply(Run(s, moves[..|moves| - 1]), moves[|moves| - 1])
  }

  // ---------------------------------------------------------------- what the count means

  function ReadAttempt(p: Pc): nat { if p.Reading? || p.ReadSlow? then 1 else 0 }
  function WriteAttempt(p: Pc): nat { if p.Writing? || p.WriteSlow? then 1 else 0 }

  /** The sum of the biases of r readers and w writers, before a long keeps it. */
  function Sum(a: Arch, r: nat, w: nat): int
  {
    match a
    case Bits32 => r + w - 0x1_0000 * w
    case Bits64 => r + w - 0x1_0000_0000 * w
  }

  ghost predicate CountRight(s: State, r: nat, w: nat) { s.count == Wrap(s.arch, Sum(s.arch, r, w)) }

  ghost predicate Inv(s: State)
  {
    && CountRight(s, Total(s.pc, ReadAttempt), Total(s.pc, WriteAttempt))
    && TriesRight(s)
  }

  /** A read trylock goes on to its exchange only with a count that was not negative. */
  ghost predicate TriesRight(s: State)
  {
    forall t :: 0 <= t < |s.pc| && s.pc[t].ReadTry? ==> s.pc[t].tmp >= 0
  }

  lemma Wraps(a: Arch, x: int, y: int)
    ensures Wrap(a, Wrap(a, x) + y) == Wrap(a, x + y)
  {
    match a
    case Bits32 => WrapsTwice(x + 0x8000_0000, y, 0x1_0000_0000);
    case Bits64 => WrapsTwice(x + 0x8000_0000_0000_0000, y, 0x1_0000_0000_0000_0000);
  }

  lemma WrapFixes(a: Arch, x: int)
    ensures Wrap(a, Wrap(a, x)) == Wrap(a, x)
    ensures Wrap(a, 0 + WriteBias(a)) == WriteBias(a)
  {
    Wraps(a, x, 0);
  }

  /** What a thread at p has in the count. */
  function Bias(a: Arch, p: Pc): int
  {
    match p
    case Reading | ReadSlow => ReadBias(a)
    case Writing | WriteSlow => WriteBias(a)
    case _ => 0
  }

  /** A step changes the count by what the moving thread's bias changes. */
  lemma StepDelta(s: State, m: Move)
    requires m.t < |s.pc| && s.count == Wrap(s.arch, s.count)
    ensures var s' := Apply(s, m);
            var p, q := s.pc[m.t], s'.pc[m.t];
            && s'.pc == s.pc[m.t := q]
            && (q.ReadTry? && q != p ==> q.tmp >= 0)
            && s'.count == Wrap(s.arch, s.count + (Bias(s.arch, q) - Bias(s.arch, p)))
  {
    WrapFixes(s.arch, s.count);
    assert WriteBias(s.arch) - ReadBias(s.arch) == -Base(s.arch);
  }

  /** How the sum of biases changes when a thread moves from p to q. */
  lemma SumMoves(a: Arch, r: nat, w: nat, p: Pc, q: Pc)
    requires ReadAttempt(p) <= r && WriteAttempt(p) <= w
    ensures Sum(a, r + ReadAttempt(q) - ReadAttempt(p), w + WriteAttempt(q) - WriteAttempt(p))
         == Sum(a, r, w) + (Bias(a, q) - Bias(a, p))
  {
  }

  lemma StepSums(s: State, m: Move, r: nat, w: nat)
    requires m.t < |s.pc| && CountRight(s, r, w)
    requires ReadAttempt(s.pc[m.t]) <= r && WriteAttempt(s.pc[m.t]) <= w
    ensures var s' := Apply(s, m);
            var p, q := s.pc[m.t], s'.pc[m.t];
            && s'.pc == s.pc[m.t := q]
            && (q.ReadTry? && q != p ==> q.tmp >= 0)
            && CountRight(s', r + ReadAttempt(q) - ReadAttempt(p), w + WriteAttempt(q) - WriteAttempt(p))
  {
    var p, q := s.pc[m.t], Apply(s, m).pc[m.t];
    WrapFixes(s.arch, Sum(s.arch, r, w));
    StepDelta(s, m);
    SumMoves(s.arch, r, w, p, q);
    Wraps(s.arch, Sum(s.arch, r, w), Bias(s.arch, q) - Bias(s.arch, p));
  }

  lemma ApplyKeeps(s: State, m: Move)
    requires Inv(s)
    ensures Inv(Apply(s, m))
  {
    if m.t < |s.pc| {
      var q := Apply(s, m).pc[m.t];
      TotalAtLeast(s.pc, m.t, ReadAttempt);
      TotalAtLeast(s.pc, m.t, WriteAttempt);
      StepSums(s, m, Total(s.pc, ReadAttempt), Total(s.pc, WriteAttempt));
      MovedRight(s, Apply(s, m), m.t, q);
    }
  }

  lemma MovedRight(s: State, s': State, t: nat, q: Pc)
    requires TriesRight(s) && t < |s.pc|
    requires s'.pc == s.pc[t := q] && (q.ReadTry? && q != s.pc[t] ==> q.tmp >= 0)
    requires ReadAttempt(s.pc[t]) <= Total(s.pc, ReadAttempt) && WriteAttempt(s.pc[t]) <= Total(s.pc, WriteAttempt)
    requires CountRight(s', Total(s.pc, ReadAttempt) + ReadAttempt(q) - ReadAttempt(s.pc[t]),
                        Total(s.pc, WriteAttempt) + WriteAttempt(q) - WriteAttempt(s.pc[t]))
    ensures Inv(s')
  {
    TotalUpdate(s.pc, t, q, ReadAttempt);
    TotalUpdate(s.pc, t, q, WriteAttempt);
  }

  lemma {:induction false} RunKeeps(a: Arch, threads: nat, moves: seq<Move>)
    ensures Inv(Run(Init(a, threads), moves))
  {
    if moves == [] {
      TotalNone(Init(a, threads).pc, ReadAttempt);
      TotalNone(Init(a, threads).pc, WriteAttempt);
    } else {
      RunKeeps(a, threads, moves[..|moves| - 1]);
      ApplyKeeps(Run(Init(a, threads), moves[..|moves| - 1]), moves[|moves| - 1]);
    }
  }

  function Attempts(p: Pc): nat { ReadAttempt(p) + WriteAttempt(p) }

  lemma AttemptsFit(pc: seq<Pc>)
    ensures Total(pc, ReadAttempt) + Total(pc, WriteAttempt) == Total(pc, Attempts) <= |pc|
  {
    TotalAdd(pc, ReadAttempt, WriteAttempt, Attempts);
    TotalBound(pc, Attempts);
  }

  lemma Fits32(active: nat, w: int)
    requires 0 <= w <= active <= 0x8000
    ensures Wrap(Bits32, active - 0x1_0000 * w) == active - 0x1_0000 * w
    ensures (active - 0x1_0000 * w) % 0x1_0000 == active && (active - 0x1_0000 * w) / 0x1_0000 == -w
  {
    WrapsOnce(active - 0x1_0000 * w + 0x8000_0000, 0x1_0000_0000);
    Quotient(0x1_0000, -w, active);
  }

  lemma Fits64(active: nat, w: int)
    requires 0 <= w <= active <= 0x8000_0000
    ensures Wrap(Bits64, active - 0x1_0000_0000 * w) == active - 0x1_0000_0000 * w
    ensures (active - 0x1_0000_0000 * w) % 0x1_0000_0000 == active
    ensures (active - 0x1_0000_0000 * w) / 0x1_0000_0000 == -w
  {
    WrapsOnce(active - 0x1_0000_0000 * w + 0x8000_0000_0000_0000, 0x1_0000_0000_0000_0000);
    Quotient(0x1_0000_0000, -w, active);
  }

  /** A count made by at most half the base of attempts reads exactly: its lower half gives all
      attempts and its upper half the writers among them. */
  lemma SumDecodes(a: Arch, r: nat, w: nat)
    requires r + w <= Base(a) / 2
    ensures var v := Wrap(a, Sum(a, r, w));
            && v == Sum(a, r, w)
            && v % Base(a) == r + w
            && -(v / Base(a)) == w
            && (v >= 0 <==> w == 0)
  {
    match a
    case Bits32 => Fits32(r + w, w);
    case Bits64 => Fits64(r + w, w);
  }

  /** With at most half the base of threads, the count of every reachable state decodes to its
      reader and writer attempts, whether they hold the semaphore or were handed over. */
  lemma CountDecodes(a: Arch, threads: nat, moves: seq<Move>)
    requires threads <= Base(a) / 2
    ensures var s := Run(Init(a, threads), moves);
            var active, writers := s.count % Base(a), -(s.count / Base(a));
            && writers == Total(s.pc, WriteAttempt)
            && active - writers == Total(s.pc, ReadAttempt)
  {
    var s := Run(Init(a, threads), moves);
    RunKeeps(a, threads, moves);
    AttemptsFit(s.pc);
    SumDecodes(a, Total(s.pc, ReadAttempt), Total(s.pc, WriteAttempt));
  }

  // ---------------------------------------------------------------- exclusion

  function Reads(p: Pc): nat { if p.Reading? then 1 else 0 }
  function Writes(p: Pc): nat { if p.Writing? then 1 else 0 }

  /** What a fast path finds when it succeeds for an idle thread: no writer for a reader, and
      nobody at all for a writer. */
  lemma StepFinds(s: State, m: Move, r: nat, w: nat)
    requires m.t < |s.pc| && CountRight(s, r, w)
    requires Attempts(s.pc[m.t]) == 0 ==> r + w <= Base(s.arch) / 2
    requires s.pc[m.t].ReadTry? ==> s.pc[m.t].tmp >= 0
    ensures var s' := Apply(s, m);
            var p, q := s.pc[m.t], s'.pc[m.t];
            && s'.pc == s.pc[m.t := q]
            && (q.Reading? && !p.Reading? ==> p.Writing? || w == 0)
            && (q.Writing? && !p.Writing? ==> r == 0 && w == 0)
  {
    if Attempts(s.pc[m.t]) == 0 {
      FreeWhen(s.arch, r, w);
    }
  }

  lemma FreeWhen(a: Arch, r: nat, w: nat)
    requires r + w <= Base(a) / 2
    ensures var v := Wrap(a, Sum(a, r, w));
            && (Wrap(a, v + ReadBias(a)) > 0 ==> w == 0)
            && (v >= 0 ==> w == 0)
            && (v == 0 ==> r == 0 && w == 0)
            && (Wrap(a, v + WriteBias(a)) == WriteBias(a) ==> r == 0 && w == 0)
  {
    SumDecodes(a, r, w);
  }

  /** A thread that has no attempt in the count leaves room for one, and whoever has the semaphore
      is among the attempts. */
  lemma AttemptsLeave(pc: seq<Pc>, t: nat)
    requires t < |pc|
    ensures Attempts(pc[t]) == 0 ==> Total(pc, ReadAttempt) + Total(pc, WriteAttempt) < |pc|
    ensures Total(pc, Reads) <= Total(pc, ReadAttempt) && Total(pc, Writes) <= Total(pc, WriteAttempt)
  {
    TotalUpdate(pc, t, Reading, ReadAttempt);
    TotalUpdate(pc, t, Reading, WriteAttempt);
    AttemptsFit(pc[t := Reading]);
    TotalSlack(pc, pc, Reads, ReadAttempt, 0);
    TotalSlack(pc, pc, Writes, WriteAttempt, 0);
  }

  lemma StepGrants(s: State, m: Move)
    requires Inv(s) && m.t < |s.pc| && |s.pc| <= Base(s.arch) / 2 + 1
    ensures var s' := Apply(s, m);
            var p, q := s.pc[m.t], s'.pc[m.t];
            && s'.pc == s.pc[m.t := q]
            && (q.Reading? && !p.Reading? ==> p.Writing? || Total(s.pc, Writes) == 0)
            && (q.Writing? && !p.Writing? ==> Total(s.pc, Reads) == 0 && Total(s.pc, Writes) == 0)
  {
    AttemptsLeave(s.pc, m.t);
    StepFinds(s, m, Total(s.pc, ReadAttempt), Total(s.pc, WriteAttempt));
  }

  lemma {:induction false} RunExcludes(a: Arch, threads: nat, moves: seq<Move>)
    requires threads <= Base(a) / 2 + 1
    ensures Apart(Run(Init(a, threads), moves).pc, Writes, Reads)
  {
    if moves == [] {
      TotalNone(Init(a, threads).pc, Reads);
      TotalNone(Init(a, threads).pc, Writes);
    } else {
      var s, m := Run(Init(a, threads), moves[..|moves| - 1]), moves[|moves| - 1];
      RunExcludes(a, threads, moves[..|moves| - 1]);
      RunKeeps(a, threads, moves[..|moves| - 1]);
      if m.t < |s.pc| {
        StepGrants(s, m);
        MoveApart(s.pc, m.t, Apply(s, m).pc[m.t], Writes, Reads);
      }
    }
  }

  // ---------------------------------------------------------------- downgrading

  /** A long keeps the lower half of x, since the base divides the number of its values. */
  lemma WrapKeepsActive(a: Arch, x: int)
    ensures Wrap(a, x) % Base(a) == x % Base(a)
  {
    match a
    case Bits32 =>
      var q, h := (x + 0x8000_0000) / 0x1_0000_0000, x / 0x1_0000;
      assert Wrap(a, x) == 0x1_0000 * (h - 0x1_0000 * q) + x % 0x1_0000;
      Quotient(0x1_0000, h - 0x1_0000 * q, x % 0x1_0000);
    case Bits64 =>
      var q, h := (x + 0x8000_0000_0000_0000) / 0x1_0000_0000_0000_0000, x / 0x1_0000_0000;
      assert Wrap(a, x) == 0x1_0000_0000 * (h - 0x1_0000_0000 * q) + x % 0x1_0000_0000;
      Quotient(0x1_0000_0000, h - 0x1_0000_0000 * q, x % 0x1_0000_0000);
  }

  /** So the lower half counts all attempts, however many there are, as far as it goes. */
  lemma ActivePart(a: Arch, r: nat, w: nat)
    ensures Wrap(a, Sum(a, r, w)) % Base(a) == (r + w) % Base(a)
  {
    var q, b := (r + w) / Base(a), Base(a);
    WrapKeepsActive(a, Sum(a, r, w));
    assert r + w == b * q + (r + w) % b;
    assert Sum(a, r, w) == r + w - b * w == b * (q - w) + (r + w) % b;
    Quotient(b, q - w, (r + w) % b);
  }

  /** Downgrading turns the writer into one reader with no unlocked moment. For any number of threads
      the active part of the count stays what it was, the number of attempts as far as it goes, which
      is not 0 while there are fewer threads than the base. Within the bound for exclusion no other
      thread has the semaphore, before or after; and within the bound for decoding the count shows
      one writer less. */
  lemma DowngradeKeepsLock(a: Arch, threads: nat, moves: seq<Move>, t: nat)
    requires t < threads
    ensures var s := Run(Init(a, threads), moves);
            && |s.pc| == threads
            && (s.pc[t].Writing? ==>
                  var s' := Apply(s, Downgrade(t));
                  && s'.pc == s.pc[t := Reading]
                  && s'.count % Base(a) == s.count % Base(a) == Total(s.pc, Attempts) % Base(a)
                  && (threads < Base(a) ==> s.count % Base(a) > 0)
                  && (threads <= Base(a) / 2 + 1 ==>
                        forall u :: 0 <= u < |s.pc| && u != t ==> !s.pc[u].Writing? && !s.pc[u].Reading?)
                  && (threads <= Base(a) / 2 ==> -(s'.count / Base(a)) == -(s.count / Base(a)) - 1))
  {
    var s := Run(Init(a, threads), moves);
    RunKeeps(a, threads, moves);
    if s.pc[t].Writing? {
      DowngradeFrom(s, t);
      if threads <= Base(a) / 2 + 1 {
        RunExcludes(a, threads, moves);
        Alone(s, t);
      }
    }
  }

  lemma DowngradeFrom(s: State, t: nat)
    requires Inv(s) && t < |s.pc| && s.pc[t].Writing?
    ensures var s' := Apply(s, Downgrade(t));
            && s'.pc == s.pc[t := Reading]
            && s'.count % Base(s.arch) == s.count % Base(s.arch) == Total(s.pc, Attempts) % Base(s.arch)
            && (|s.pc| < Base(s.arch) ==> s.count % Base(s.arch) > 0)
            && (|s.pc| <= Base(s.arch) / 2 ==> -(s'.count / Base(s.arch)) == -(s.count / Base(s.arch)) - 1)
  {
    var r, w := Total(s.pc, ReadAttempt), Total(s.pc, WriteAttempt);
    TotalAtLeast(s.pc, t, WriteAttempt);
    AttemptsFit(s.pc);
    DowngradeActive(s, t, r, w);
    if |s.pc| <= Base(s.arch) / 2 {
      DowngradeCounts(s, t, r, w);
    }
  }

  lemma Alone(s: State, t: nat)
    requires t < |s.pc| && s.pc[t].Writing? && Apart(s.pc, Writes, Reads)
    ensures forall u :: 0 <= u < |s.pc| && u != t ==> !s.pc[u].Writing? && !s.pc[u].Reading?
  {
    NoClash(s.pc, Writes, Reads);
    assert Writes(s.pc[t]) > 0;
    forall u | 0 <= u < |s.pc| && u != t
      ensures !s.pc[u].Writing? && !s.pc[u].Reading?
    {
      assert Writes(s.pc[u]) == 0 && Reads(s.pc[u]) == 0;
    }
  }

  lemma DowngradeActive(s: State, t: nat, r: nat, w: nat)
    requires t < |s.pc| && s.pc[t].Writing? && 1 <= w && CountRight(s, r, w)
    ensures var s' := Apply(s, Downgrade(t));
            && s'.pc == s.pc[t := Reading]
            && s'.count % Base(s.arch) == s.count % Base(s.arch) == (r + w) % Base(s.arch)
            && (r + w < Base(s.arch) ==> s.count % Base(s.arch) == r + w)
  {
    StepSums(s, Downgrade(t), r, w);
    ActivePart(s.arch, r, w);
    ActivePart(s.arch, r + 1, w - 1);
    if r + w < Base(s.arch) {
      WrapsOnce(r + w, Base(s.arch));
    }
  }

  lemma DowngradeCounts(s: State, t: nat, r: nat, w: nat)
    requires t < |s.pc| && s.pc[t].Writing? && 1 <= w && r + w <= Base(s.arch) / 2
    requires CountRight(s, r, w)
    ensures var s' := Apply(s, Downgrade(t));
            -(s'.count / Base(s.arch)) == -(s.count / Base(s.arch)) - 1
  {
    StepSums(s, Downgrade(t), r, w);
    SumDecodes(s.arch, r, w);
    SumDecodes(s.arch, r + 1, w - 1);
  }

  // ---------------------------------------------------------------- too many threads

  /** Thread 0 writes and the next k threads were handed over wanting to write. */
  function Queue(a: Arch, threads: nat, k: nat): State
    requires k < threads
  {
    State(a, Wrap(a, Sum(a, 0, k + 1)),
          seq(threads, t => if t == 0 then Writing else if t <= k then WriteSlow else Idle))
  }

  lemma QueueStep(a: Arch, threads: nat, k: nat)
    requires 0 < k < threads && k <= Base(a) / 2
    ensures Apply(Queue(a, threads, k - 1), DownWrite(k)) == Queue(a, threads, k)
  {
    Wraps(a, Sum(a, 0, k), WriteBias(a));
    SumMoves(a, 0, k, Idle, Writing);
    QueueGrows(a, k);
    assert Apply(Queue(a, threads, k - 1), DownWrite(k)).pc == Queue(a, threads, k).pc;
  }

  lemma {:induction false} AllQueue(a: Arch, threads: nat, k: nat) returns (moves: seq<Move>)
    requires k < threads && k <= Base(a) / 2
    ensures Run(Init(a, threads), moves) == Queue(a, threads, k)
  {
    var s0 := Init(a, threads);
    if k == 0 {
      moves := [DownWrite(0)];
      assert moves[..0] == [];
      WrapFixes(a, 0);
      assert Run(s0, moves).pc == Queue(a, threads, 0).pc;
    } else {
      var before := AllQueue(a, threads, k - 1);
      moves := before + [DownWrite(k)];
      AllButLast(before, DownWrite(k));
      QueueStep(a, threads, k);
    }
  }

  lemma QueueGrows(a: Arch, k: nat)
    requires 0 < k <= Base(a) / 2
    ensures Wrap(a, Sum(a, 0, k + 1)) != WriteBias(a)
  {
  }

  ghost predicate Decodes(s: State)
  {
    var active, writers := s.count % Base(s.arch), -(s.count / Base(s.arch));
    writers == Total(s.pc, WriteAttempt) && active - writers == Total(s.pc, ReadAttempt)
  }

  lemma Misread(a: Arch)
    ensures -(Wrap(a, Sum(a, 0, Base(a) / 2 + 1)) / Base(a)) <= 0
  {
  }

  /** Half the base of threads is exactly what the count has room for. */
  lemma CountDecodesIff(a: Arch, threads: nat)
    ensures (forall moves :: Decodes(Run(Init(a, threads), moves))) <==> threads <= Base(a) / 2
  {
    if threads <= Base(a) / 2 {
      forall moves
        ensures Decodes(Run(Init(a, threads), moves))
      {
        CountDecodes(a, threads, moves);
      }
    } else {
      var moves := AllQueue(a, threads, Base(a) / 2);
      var s := Run(Init(a, threads), moves);
      Misread(a);
      assert s.pc[0].Writing?;
      TotalAtLeast(s.pc, 0, WriteAttempt);
      assert exists moves :: !Decodes(Run(Init(a, threads), moves));
    }
  }

  lemma SignFlips(a: Arch)
    ensures Wrap(a, Wrap(a, Sum(a, 0, Base(a) / 2 + 1)) + ReadBias(a)) > 0
  {
  }

  lemma Overflowed(a: Arch, threads: nat) returns (moves: seq<Move>)
    requires threads >= Base(a) / 2 + 2
    ensures Clash(Run(Init(a, threads), moves).pc, Writes, Reads)
  {
    var k := Base(a) / 2;
    var before := AllQueue(a, threads, k);
    moves := before + [DownRead(k + 1)];
    AllButLast(before, DownRead(k + 1));
    SignFlips(a);
    var s := Run(Init(a, threads), moves);
    assert Writes(s.pc[0]) == 1 && Reads(s.pc[k + 1]) == 1;
  }

  /** The semaphore excludes under every schedule exactly when there are at most half the base of
      threads and one. With one more, the waiting biases overflow the sign and a reader gets in
      beside the writer. */
  lemma ExcludesIff(a: Arch, threads: nat)
    ensures (forall moves :: !Clash(Run(Init(a, threads), moves).pc, Writes, Reads)) <==> threads <= Base(a) / 2 + 1
  {
    if threads <= Base(a) / 2 + 1 {
      forall moves
        ensures !Clash(Run(Init(a, threads), moves).pc, Writes, Reads)
      {
        RunExcludes(a, threads, moves);
        NoClash(Run(Init(a, threads), moves).pc, Writes, Reads);
      }
    } else {
      var moves := Overflowed(a, threads);
      assert exists moves :: Clash(Run(Init(a, threads), moves).pc, Writes, Reads);
    }
  }
}

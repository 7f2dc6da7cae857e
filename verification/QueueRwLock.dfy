/** The queue read/write lock's fast paths over the packed 32-bit word.

The low byte of the word holds the writer, the upper 24 bits count readers. Every atomic operation
is one step. A caller handed over to a slow path stays there, with the bias its fast path left.
*/
module QueueRwLock {
  import opened Arithmetic
  import opened Counting
  import opened Exclusion

  const WORD: nat := 0x1_0000_0000
  const QW_LOCKED: nat := 0xff
  const QR_BIAS: nat := 0x100
  const READERS: nat := 0x100_0000  // how many reader biases wrap the word

  datatype Pc =
    | Idle
    | ReadTry   // read trylock saw no writer and is about to add its bias
    | ReadUndo  // read trylock added its bias, saw a writer, and is about to take the bias back
    | Reading
    | ReadSlow  // read lock added its bias, saw a writer, and was handed over
    | WriteTry  // write trylock saw 0 and is about to compare and exchange
    | Writing
    | WriteSlow // write lock was handed over

  datatype State = State(cnts: nat, pc: seq<Pc>)

  datatype Move =
    | ReadTrylock(t: nat) | ReadLock(t: nat) | ReadUnlock(t: nat)
    | WriteTrylock(t: nat) | WriteLock(t: nat) | WriteUnlock(t: nat)
    | Again(t: nat)  // the next atomic operation of a trylock under way

  function Init(threads: nat): State
  {
    State(0, seq(threads, _ => Idle))
  }

  function Add(word: nat, n: nat): nat { (word + n) % WORD }
  function Sub(word: nat, n: nat): nat { (word - n) % WORD }
  function WriterByte(word: nat): nat { word % 0x100 }
  function ReaderField(word: nat): nat { word / 0x100 }

  predicate ReadCanLock(s: State) { WriterByte(s.cnts) == 0 }
  predicate WriteCanLock(s: State) { s.cnts == 0 }

  function To(s: State, t: nat, p: Pc): State
    requires t < |s.pc|
  {
    s.(pc := s.pc[t := p])
  }

  function Apply(s: State, m: Move): (s': State)
    ensures |s'.pc| == |s.pc|
  {
    if m.t >= |s.pc| then s
    else
      var t := m.t;
      match (m, s.pc[t])
      case (ReadTrylock(_), Idle) => if ReadCanLock(s) then To(s, t, ReadTry) else s
      case (Again(_), ReadTry) =>
        var s' := s.(cnts := Add(s.cnts, QR_BIAS));
        To(s', t, if WriterByte(s'.cnts) == 0 then Reading else ReadUndo)
      case (Again(_), ReadUndo) => To(s.(cnts := Sub(s.cnts, QR_BIAS)), t, Idle)
      case (ReadLock(_), Idle) =>
        var s' := s.(cnts := Add(s.cnts, QR_BIAS));
        To(s', t, if WriterByte(s'.cnts) == 0 then Reading else ReadSlow)
      case (ReadUnlock(_), Reading) => To(s.(cnts := Sub(s.cnts, QR_BIAS)), t, Idle)
      case (WriteTrylock(_), Idle) => if s.cnts != 0 then s else To(s, t, WriteTry)
      case (Again(_), WriteTry) =>
        if s.cnts == 0 then To(s.(cnts := QW_LOCKED), t, Writing) else To(s, t, Idle)
      case (WriteLock(_), Idle) =>
        if s.cnts == 0 then To(s.(cnts := QW_LOCKED), t, Writing) else To(s, t, WriteSlow)
      case (WriteUnlock(_), Writing) => To(s.(cnts := Sub(s.cnts, QW_LOCKED)), t, Idle)
      case _ => s
  }

  function Run(s: State, moves: seq<Move>): (s': State)
    ensures |s'.pc| == |s.pc|
  {
    if moves == [] then s else Apply(Run(s, moves[..|moves| - 1]), moves[|moves| - 1])
  }

  // ---------------------------------------------------------------- what the word means

  function Biased(p: Pc): nat { if p.ReadUndo? || p.Reading? || p.ReadSlow? then 1 else 0 }
  function Writes(p: Pc): nat { if p.Writing? then 1 else 0 }

  /** The word that readers reader biases and writers writers make. */
  function Packed(readers: nat, writers: nat): nat
  {
    (QR_BIAS * readers + QW_LOCKED * writers) % WORD
  }

  ghost predicate Inv(s: State)
  {
    && s.cnts == Packed(Total(s.pc, Biased), Total(s.pc, Writes))
    && Total(s.pc, Writes) <= 1
  }

  /** The word's arithmetic follows the biases, even when it wraps. */
  lemma PackedArithmetic(r: nat, w: nat)
    requires w <= 1
    ensures Add(Packed(r, w), QR_BIAS) == Packed(r + 1, w)
    ensures r > 0 ==> Sub(Packed(r, w), QR_BIAS) == Packed(r - 1, w)
    ensures w == 1 ==> Sub(Packed(r, w), QW_LOCKED) == Packed(r, 0)
    ensures Packed(r, w) == 0 ==> w == 0 && Packed(r, 1) == QW_LOCKED
  {
    var x := QR_BIAS * r + QW_LOCKED * w;
    WrapsTwice(x, QR_BIAS, WORD);
    WrapsTwice(x, 0 - QR_BIAS, WORD);
    WrapsTwice(x, 0 - QW_LOCKED, WORD);
    if Packed(r, w) == 0 {
      FieldsOf(r, w);
      WrapsTwice(x, QW_LOCKED, WORD);
    }
  }

  /** How a step changes the word, given what biases the moving thread had and has. */
  lemma StepPacked(s: State, m: Move, r: nat, w: nat)
    requires m.t < |s.pc| && s.cnts == Packed(r, w) && w <= 1
    requires Biased(s.pc[m.t]) <= r && Writes(s.pc[m.t]) <= w
    ensures var s' := Apply(s, m);
            var p, q := s.pc[m.t], s'.pc[m.t];
            && s'.pc == s.pc[m.t := q]
            && w + Writes(q) - Writes(p) <= 1
            && s'.cnts == Packed(r + Biased(q) - Biased(p), w + Writes(q) - Writes(p))
  {
    PackedArithmetic(r, w);
  }

  lemma MovedRight(s: State, s': State, t: nat, q: Pc, r: nat, w: nat)
    requires t < |s.pc| && s'.pc == s.pc[t := q] && s'.cnts == Packed(r, w) && w <= 1
    requires r == Total(s.pc, Biased) + Biased(q) - Biased(s.pc[t])
    requires w == Total(s.pc, Writes) + Writes(q) - Writes(s.pc[t])
    ensures Inv(s')
  {
    TotalUpdate(s.pc, t, q, Biased);
    TotalUpdate(s.pc, t, q, Writes);
  }

  lemma ApplyKeeps(s: State, m: Move)
    requires Inv(s)
    ensures Inv(Apply(s, m))
  {
    if m.t < |s.pc| {
      var r, w := Total(s.pc, Biased), Total(s.pc, Writes);
      var p, q := s.pc[m.t], Apply(s, m).pc[m.t];
      TotalAtLeast(s.pc, m.t, Biased);
      TotalAtLeast(s.pc, m.t, Writes);
      StepPacked(s, m, r, w);
      MovedRight(s, Apply(s, m), m.t, q, r + Biased(q) - Biased(p), w + Writes(q) - Writes(p));
    }
  }

  lemma {:induction false} RunKeeps(threads: nat, moves: seq<Move>)
    ensures Inv(Run(Init(threads), moves))
  {
    if moves == [] {
      TotalNone(Init(threads).pc, Biased);
      TotalNone(Init(threads).pc, Writes);
    } else {
      RunKeeps(threads, moves[..|moves| - 1]);
      ApplyKeeps(Run(Init(threads), moves[..|moves| - 1]), moves[|moves| - 1]);
    }
  }

  /** While fewer than READERS readers have their bias in the word, whether held, in flight or
      handed over, its fields read exactly: that many readers, and 0xff if there is a writer. */
  lemma WordDecodes(threads: nat, moves: seq<Move>)
    ensures var s := Run(Init(threads), moves);
            var readers, writers := Total(s.pc, Biased), Total(s.pc, Writes);
            && writers <= 1
            && (readers < READERS ==>
                  && s.cnts == QR_BIAS * readers + (if writers == 1 then QW_LOCKED else 0)
                  && ReaderField(s.cnts) == readers
                  && WriterByte(s.cnts) == if writers == 1 then QW_LOCKED else 0)
  {
    var s := Run(Init(threads), moves);
    RunKeeps(threads, moves);
    if Total(s.pc, Biased) < READERS {
      Unwrapped(Total(s.pc, Biased), Total(s.pc, Writes));
    }
  }

  lemma Unwrapped(readers: nat, writers: nat)
    requires writers <= 1 && readers < READERS
    ensures Packed(readers, writers) == QR_BIAS * readers + QW_LOCKED * writers
    ensures WriterByte(Packed(readers, writers)) == QW_LOCKED * writers
    ensures ReaderField(Packed(readers, writers)) == readers
  {
    WrapsOnce(QR_BIAS * readers + QW_LOCKED * writers, WORD);
    WrapsOnce(readers, READERS);
    FieldsOf(readers, writers);
  }

  /** Nothing that is over leaves a trace in the word: it depends on nothing but the biases present,
      whatever the two schedules were. */
  lemma NoTrace(threads: nat, moves: seq<Move>, moves': seq<Move>)
    requires Total(Run(Init(threads), moves).pc, Biased) == Total(Run(Init(threads), moves').pc, Biased)
    requires Total(Run(Init(threads), moves).pc, Writes) == Total(Run(Init(threads), moves').pc, Writes)
    ensures Run(Init(threads), moves).cnts == Run(Init(threads), moves').cnts
  {
    RunKeeps(threads, moves);
    RunKeeps(threads, moves');
  }

  lemma FieldsOf(readers: nat, writers: nat)
    requires writers <= 1
    ensures WriterByte(Packed(readers, writers)) == QW_LOCKED * writers
    ensures ReaderField(Packed(readers, writers)) == readers % READERS
  {
    var q, r := readers / READERS, readers % READERS;
    assert QR_BIAS * readers == WORD * q + QR_BIAS * r;
    Quotient(WORD, q, QR_BIAS * r + QW_LOCKED * writers);
    Quotient(QR_BIAS, r, QW_LOCKED * writers);
  }

  /** Taking a bias back, by an unlock or by a read trylock that failed, leaves its thread idle, takes
      the bias from its own field and never borrows from the other. */
  lemma UnlockStaysInField(threads: nat, moves: seq<Move>, t: nat)
    requires t < threads
    ensures var s := Run(Init(threads), moves);
            && |s.pc| == threads
            && (s.pc[t].Reading? || s.pc[t].ReadUndo? ==>
                  var s' := Apply(s, if s.pc[t].Reading? then ReadUnlock(t) else Again(t));
                  && s'.pc == s.pc[t := Idle]
                  && WriterByte(s'.cnts) == WriterByte(s.cnts)
                  && (Total(s.pc, Biased) < READERS ==> ReaderField(s'.cnts) == ReaderField(s.cnts) - 1))
            && (s.pc[t].Writing? ==>
                  var s' := Apply(s, WriteUnlock(t));
                  && s'.pc == s.pc[t := Idle]
                  && WriterByte(s.cnts) == QW_LOCKED && WriterByte(s'.cnts) == 0
                  && ReaderField(s'.cnts) == ReaderField(s.cnts))
  {
    RunKeeps(threads, moves);
    UnlockFrom(Run(Init(threads), moves), t);
  }

  lemma UnlockFrom(s: State, t: nat)
    requires Inv(s) && t < |s.pc|
    ensures s.pc[t].Reading? || s.pc[t].ReadUndo? ==>
              var s' := Apply(s, if s.pc[t].Reading? then ReadUnlock(t) else Again(t));
              && s'.pc == s.pc[t := Idle]
              && WriterByte(s'.cnts) == WriterByte(s.cnts)
              && (Total(s.pc, Biased) < READERS ==> ReaderField(s'.cnts) == ReaderField(s.cnts) - 1)
    ensures s.pc[t].Writing? ==>
              var s' := Apply(s, WriteUnlock(t));
              && s'.pc == s.pc[t := Idle]
              && WriterByte(s.cnts) == QW_LOCKED && WriterByte(s'.cnts) == 0
              && ReaderField(s'.cnts) == ReaderField(s.cnts)
  {
    TotalAtLeast(s.pc, t, Biased);
    TotalAtLeast(s.pc, t, Writes);
    if s.pc[t].Reading? || s.pc[t].ReadUndo? {
      UnbiasFields(s, t, Total(s.pc, Biased), Total(s.pc, Writes));
    } else if s.pc[t].Writing? {
      WriteUnlockFields(s, t, Total(s.pc, Biased));
    }
  }

  lemma UnbiasFields(s: State, t: nat, r: nat, w: nat)
    requires t < |s.pc| && (s.pc[t].Reading? || s.pc[t].ReadUndo?)
    requires s.cnts == Packed(r, w) && w <= 1 && 0 < r
    ensures var s' := Apply(s, if s.pc[t].Reading? then ReadUnlock(t) else Again(t));
            && s'.pc == s.pc[t := Idle]
            && WriterByte(s'.cnts) == WriterByte(s.cnts)
            && (r < READERS ==> ReaderField(s'.cnts) == ReaderField(s.cnts) - 1)
  {
    PackedArithmetic(r, w);
    FieldsOf(r, w);
    FieldsOf(r - 1, w);
    if r < READERS {
      WrapsOnce(r, READERS);
      WrapsOnce(r - 1, READERS);
    }
  }

  lemma WriteUnlockFields(s: State, t: nat, r: nat)
    requires t < |s.pc| && s.pc[t].Writing? && s.cnts == Packed(r, 1)
    ensures var s' := Apply(s, WriteUnlock(t));
            && s'.pc == s.pc[t := Idle]
            && WriterByte(s.cnts) == QW_LOCKED && WriterByte(s'.cnts) == 0
            && ReaderField(s'.cnts) == ReaderField(s.cnts)
  {
    PackedArithmetic(r, 1);
    FieldsOf(r, 1);
    FieldsOf(r, 0);
  }

  /** The can-lock predicates say what the trylocks would do if nobody interfered. */
  lemma CanLockPredicts(s: State, t: nat)
    requires Inv(s) && t < |s.pc| && s.pc[t].Idle?
    ensures ReadCanLock(s) <==> Apply(Apply(s, ReadTrylock(t)), Again(t)).pc[t].Reading?
    ensures WriteCanLock(s) <==> Apply(Apply(s, WriteTrylock(t)), Again(t)).pc[t].Writing?
  {
    BiasKeepsWriter(Total(s.pc, Biased), Total(s.pc, Writes));
    ReadPredicts(s, t);
  }

  lemma BiasKeepsWriter(r: nat, w: nat)
    requires w <= 1
    ensures WriterByte(Add(Packed(r, w), QR_BIAS)) == WriterByte(Packed(r, w))
  {
    PackedArithmetic(r, w);
    FieldsOf(r, w);
    FieldsOf(r + 1, w);
  }

  lemma ReadPredicts(s: State, t: nat)
    requires t < |s.pc| && s.pc[t].Idle?
    requires WriterByte(Add(s.cnts, QR_BIAS)) == WriterByte(s.cnts)
    ensures ReadCanLock(s) <==> Apply(Apply(s, ReadTrylock(t)), Again(t)).pc[t].Reading?
  {
  }

  // ---------------------------------------------------------------- exclusion

  function Reads(p: Pc): nat { if p.Reading? then 1 else 0 }

  /** A reader gets the lock only from no writer, and a writer only from nobody. */
  lemma StepGrants(s: State, m: Move)
    requires Inv(s) && |s.pc| <= READERS && m.t < |s.pc|
    ensures var s' := Apply(s, m);
            var p, q := s.pc[m.t], s'.pc[m.t];
            && s'.pc == s.pc[m.t := q]
            && (q.Reading? && !p.Reading? ==> Total(s.pc, Writes) == 0)
            && (q.Writing? && !p.Writing? ==> Total(s.pc, Reads) == 0 && Total(s.pc, Writes) == 0)
  {
    TotalUpdate(s.pc, m.t, Reading, Biased);
    TotalBound(s.pc[m.t := Reading], Biased);
    TotalSlack(s.pc, s.pc, Reads, Biased, 0);
    StepFinds(s, m, Total(s.pc, Biased), Total(s.pc, Writes));
  }

  lemma StepFinds(s: State, m: Move, r: nat, w: nat)
    requires m.t < |s.pc| && s.cnts == Packed(r, w) && w <= 1
    requires Biased(s.pc[m.t]) == 0 ==> r < READERS
    ensures var s' := Apply(s, m);
            var p, q := s.pc[m.t], s'.pc[m.t];
            && s'.pc == s.pc[m.t := q]
            && (q.Reading? && !p.Reading? ==> w == 0)
            && (q.Writing? && !p.Writing? ==> r == 0 && w == 0)
  {
  }

  lemma {:induction false} RunExcludes(threads: nat, moves: seq<Move>)
    requires threads <= READERS
    ensures Apart(Run(Init(threads), moves).pc, Writes, Reads)
  {
    if moves == [] {
      TotalNone(Init(threads).pc, Writes);
      TotalNone(Init(threads).pc, Reads);
    } else {
      var s, m := Run(Init(threads), moves[..|moves| - 1]), moves[|moves| - 1];
      RunExcludes(threads, moves[..|moves| - 1]);
      RunKeeps(threads, moves[..|moves| - 1]);
      if m.t < |s.pc| {
        StepGrants(s, m);
        MoveApart(s.pc, m.t, Apply(s, m).pc[m.t], Writes, Reads);
      }
    }
  }

  /** The state in which the first k threads hold the lock for reading. */
  function Crowd(threads: nat, k: nat): State
    requires k <= threads
  {
    State(Packed(k, 0), seq(threads, t => if t < k then Reading else Idle))
  }

  lemma ReadLockGrants(s: State, t: nat, cnts: nat)
    requires t < |s.pc| && s.pc[t].Idle?
    requires cnts == Add(s.cnts, QR_BIAS) && WriterByte(cnts) == 0
    ensures Apply(s, ReadLock(t)) == State(cnts, s.pc[t := Reading])
  {
  }

  lemma CrowdGrows(threads: nat, k: nat)
    requires k < threads
    ensures Apply(Crowd(threads, k), ReadLock(k)) == Crowd(threads, k + 1)
  {
    PackedArithmetic(k, 0);
    FieldsOf(k + 1, 0);
    ReadLockGrants(Crowd(threads, k), k, Packed(k + 1, 0));
    assert Crowd(threads, k).pc[k := Reading] == Crowd(threads, k + 1).pc;
  }

  lemma {:induction false} AllRead(threads: nat, k: nat) returns (moves: seq<Move>)
    requires k <= threads
    ensures Run(Init(threads), moves) == Crowd(threads, k)
  {
    if k == 0 {
      moves := [];
      assert Init(threads).pc == Crowd(threads, 0).pc;
    } else {
      var before := AllRead(threads, k - 1);
      moves := before + [ReadLock(k - 1)];
      AllButLast(before, ReadLock(k - 1));
      CrowdGrows(threads, k - 1);
    }
  }

  lemma Crowded(threads: nat) returns (moves: seq<Move>)
    requires threads > READERS
    ensures Clash(Run(Init(threads), moves).pc, Writes, Reads)
  {
    var before := AllRead(threads, READERS);
    moves := before + [WriteLock(READERS)];
    AllButLast(before, WriteLock(READERS));
    var s := Run(Init(threads), moves);
    assert Writes(s.pc[READERS]) == 1 && Reads(s.pc[0]) == 1;
  }

  /** The lock excludes under every schedule exactly when there are at most READERS threads. With
      one more, READERS readers wrap the count to zero and a writer gets in. */
  lemma ExcludesIff(threads: nat)
    ensures (forall moves :: !Clash(Run(Init(threads), moves).pc, Writes, Reads)) <==> threads <= READERS
  {
    if threads <= READERS {
      forall moves
        ensures !Clash(Run(Init(threads), moves).pc, Writes, Reads)
      {
        RunExcludes(threads, moves);
        NoClash(Run(Init(threads), moves).pc, Writes, Reads);
      }
    } else {
      var moves := Crowded(threads);
      assert exists moves :: Clash(Run(Init(threads), moves).pc, Writes, Reads);
    }
  }
}

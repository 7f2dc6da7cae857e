/** What the operations of the queue read/write lock leave behind: a lock that was given back and a
trylock that failed leave everything as it would be without them.
*/
module QueueRwLockTraces {
  import opened Arithmetic
  import opened Counting
  import opened QueueRwLock

  lemma AddSub(word: nat, x: int, y: int)
    requires word < WORD
    ensures ((word + x) % WORD + y) % WORD == (word + x + y) % WORD
    ensures x + y == 0 ==> ((word + x) % WORD + y) % WORD == word
  {
    WrapsTwice(word + x, y, WORD);
    WrapsOnce(word, WORD);
  }

  lemma InWord(s: State)
    requires Inv(s)
    ensures s.cnts < WORD
  {
  }

  // ---------------------------------------------------------------- grants and releases

  /** Over every schedule: a read lock is granted exactly when there is no writer, and a write lock
      exactly when there is no writer and the reader field is 0; otherwise they are handed over. */
  lemma GrantsIff(threads: nat, moves: seq<Move>, t: nat)
    requires t < threads && Run(Init(threads), moves).pc[t].Idle?
    ensures var s := Run(Init(threads), moves);
            var readers, writers := Total(s.pc, Biased), Total(s.pc, Writes);
            && Apply(s, ReadLock(t)).pc == s.pc[t := if writers == 0 then Reading else ReadSlow]
            && Apply(s, WriteLock(t)).pc
               == s.pc[t := if writers == 0 && readers % READERS == 0 then Writing else WriteSlow]
  {
    var s := Run(Init(threads), moves);
    RunKeeps(threads, moves);
    BiasKeepsWriter(Total(s.pc, Biased), Total(s.pc, Writes));
    FieldsOf(Total(s.pc, Biased), Total(s.pc, Writes));
    FromFields(s.cnts);
  }

  lemma FromFields(word: nat)
    ensures word == 0 <==> WriterByte(word) == 0 && ReaderField(word) == 0
  {
  }

  /** Undisturbed, a lock that was granted, by either operation, and given back leaves everything as it
      was; so does a trylock that fails. */
  lemma RoundTrips(threads: nat, moves: seq<Move>, t: nat)
    requires t < threads && Run(Init(threads), moves).pc[t].Idle?
    ensures var s := Run(Init(threads), moves);
            var read, write := Apply(s, ReadLock(t)), Apply(s, WriteLock(t));
            var tryRead := Apply(Apply(s, ReadTrylock(t)), Again(t));
            var tryWrite := Apply(Apply(s, WriteTrylock(t)), Again(t));
            && (read.pc[t].Reading? ==> Apply(read, ReadUnlock(t)) == s)
            && (write.pc[t].Writing? ==> Apply(write, WriteUnlock(t)) == s)
            && (if ReadCanLock(s) then tryRead == read && tryRead.pc[t].Reading? else tryRead == s)
            && (if WriteCanLock(s) then tryWrite == write && tryWrite.pc[t].Writing? else tryWrite == s)
  {
    var s := Run(Init(threads), moves);
    RunKeeps(threads, moves);
    InWord(s);
    AddSub(s.cnts, QR_BIAS, 0 - QR_BIAS);
    AddSub(s.cnts, QW_LOCKED, 0 - QW_LOCKED);
    BiasKeepsWriter(Total(s.pc, Biased), Total(s.pc, Writes));
  }

  // ---------------------------------------------------------------- failed trylocks among others

  /** The state s with idle thread t at p instead; a read trylock about to undo has its bias in the word. */
  function Beside(s: State, t: nat, p: Pc): State
    requires t < |s.pc|
  {
    State(if p.ReadUndo? then Add(s.cnts, QR_BIAS) else s.cnts, s.pc[t := p])
  }

  predicate UnderWay(p: Pc) { p.ReadTry? || p.WriteTry? || p.ReadUndo? }

  /** A move that compares the whole word with 0. */
  predicate Looks(s: State, m: Move)
  {
    m.t < |s.pc| && ((s.pc[m.t].Idle? && (m.WriteTrylock? || m.WriteLock?)) || (s.pc[m.t].WriteTry? && m.Again?))
  }

  /** Thread t does not move, and whoever compares the word with 0 finds that it is not, with or
      without the bias of t. */
  ghost predicate Unnoticed(s: State, t: nat, p: Pc, moves: seq<Move>)
  {
    moves == [] ||
    var before, m := moves[..|moves| - 1], moves[|moves| - 1];
    var now := Run(s, before);
    && Unnoticed(s, t, p, before) && m.t != t
    && (p.ReadUndo? && Looks(now, m) ==> now.cnts != 0 && Add(now.cnts, QR_BIAS) != 0)
  }

  /** The writer byte does not see a bias, even when the word wraps. */
  lemma BiasKeepsByte(word: nat)
    requires word < WORD
    ensures WriterByte(Add(word, QR_BIAS)) == WriterByte(word)
  {
    WrapsOnce(word + QR_BIAS, WORD);
    var q, r := word / 0x100, word % 0x100;
    assert word == 0x100 * q + r;
    Quotient(0x100, q + 1, r);
    Quotient(0x100, q + 1 - 0x100_0000, r);
  }

  /** A bias more does not change what others do to the rest of the word. */
  lemma BiasCommutes(word: nat)
    requires word < WORD
    ensures Sub(Add(word, QR_BIAS), QR_BIAS) == Add(Sub(word, QR_BIAS), QR_BIAS) == word
    ensures Sub(Add(word, QR_BIAS), QW_LOCKED) == Add(Sub(word, QW_LOCKED), QR_BIAS)
  {
    AddSub(word, QR_BIAS, 0 - QR_BIAS);
    AddSub(word, 0 - QR_BIAS, QR_BIAS);
    AddSub(word, QR_BIAS, 0 - QW_LOCKED);
    AddSub(word, 0 - QW_LOCKED, QR_BIAS);
  }

  lemma MoveBeside(s: State, t: nat, p: Pc, m: Move)
    requires t < |s.pc| && s.pc[t].Idle? && UnderWay(p) && m.t != t && s.cnts < WORD
    requires p.ReadUndo? && Looks(s, m) ==> s.cnts != 0 && Add(s.cnts, QR_BIAS) != 0
    ensures Apply(s, m).pc[t].Idle?
    ensures Apply(Beside(s, t, p), m) == Beside(Apply(s, m), t, p)
  {
    if m.t < |s.pc| {
      SetBoth(s.pc, t, p, m.t, Apply(s, m).pc[m.t]);
      if p.ReadUndo? {
        BiasKeepsByte(s.cnts);
        BiasKeepsByte(Add(s.cnts, QR_BIAS));
        BiasCommutes(s.cnts);
        MoveBesideBias(s, Add(s.cnts, QR_BIAS), t, m);
      } else {
        MoveBesideLook(s, t, p, m);
      }
    }
  }

  lemma SetBoth(pc: seq<Pc>, t: nat, p: Pc, u: nat, q: Pc)
    requires t < |pc| && u < |pc| && t != u
    ensures pc[t := p][u := q] == pc[u := q][t := p]
  {
  }

  /** What a move makes of the word and of the position of its thread. */
  function Effect(word: nat, m: Move, p: Pc): (nat, Pc)
  {
    var s' := Apply(State(word, seq(m.t + 1, _ => p)), m);
    (s'.cnts, s'.pc[m.t])
  }

  /** A move depends on the word and on its own thread only. */
  lemma Local(s: State, m: Move)
    requires m.t < |s.pc|
    ensures Apply(s, m) == State(Effect(s.cnts, m, s.pc[m.t]).0, s.pc[m.t := Effect(s.cnts, m, s.pc[m.t]).1])
  {
  }

  lemma MoveBesideLook(s: State, t: nat, p: Pc, m: Move)
    requires t < |s.pc| && m.t < |s.pc| && m.t != t && !p.ReadUndo?
    requires var q := Apply(s, m).pc[m.t]; s.pc[t := p][m.t := q] == s.pc[m.t := q][t := p]
    ensures Apply(Beside(s, t, p), m) == Beside(Apply(s, m), t, p) && Apply(s, m).pc[t] == s.pc[t]
  {
    Local(s, m);
    Local(Beside(s, t, p), m);
  }

  /** A bias more in the word changes neither where a move leads nor what it does to the word. */
  lemma EffectBiased(word: nat, m: Move, p: Pc)
    requires word < WORD && WriterByte(Add(word, QR_BIAS)) == WriterByte(word)
    requires WriterByte(Add(Add(word, QR_BIAS), QR_BIAS)) == WriterByte(Add(word, QR_BIAS))
    requires Sub(Add(word, QR_BIAS), QR_BIAS) == Add(Sub(word, QR_BIAS), QR_BIAS)
    requires Sub(Add(word, QR_BIAS), QW_LOCKED) == Add(Sub(word, QW_LOCKED), QR_BIAS)
    requires (p.Idle? && (m.WriteTrylock? || m.WriteLock?)) || (p.WriteTry? && m.Again?) ==>
               word != 0 && Add(word, QR_BIAS) != 0
    ensures Effect(Add(word, QR_BIAS), m, p) == (Add(Effect(word, m, p).0, QR_BIAS), Effect(word, m, p).1)
  {
  }

  lemma MoveBesideBias(s: State, biased: nat, t: nat, m: Move)
    requires t < |s.pc| && m.t < |s.pc| && m.t != t && s.cnts < WORD && biased == Add(s.cnts, QR_BIAS)
    requires var q := Apply(s, m).pc[m.t]; s.pc[t := ReadUndo][m.t := q] == s.pc[m.t := q][t := ReadUndo]
    requires WriterByte(biased) == WriterByte(s.cnts) && WriterByte(Add(biased, QR_BIAS)) == WriterByte(biased)
    requires Sub(biased, QR_BIAS) == Add(Sub(s.cnts, QR_BIAS), QR_BIAS)
    requires Sub(biased, QW_LOCKED) == Add(Sub(s.cnts, QW_LOCKED), QR_BIAS)
    requires Looks(s, m) ==> s.cnts != 0 && biased != 0
    ensures Apply(Beside(s, t, ReadUndo), m) == Beside(Apply(s, m), t, ReadUndo) && Apply(s, m).pc[t] == s.pc[t]
  {
    Local(s, m);
    Local(Beside(s, t, ReadUndo), m);
    EffectBiased(s.cnts, m, s.pc[m.t]);
  }

  lemma {:induction false} RunBeside(s: State, t: nat, p: Pc, moves: seq<Move>)
    requires Inv(s) && t < |s.pc| && s.pc[t].Idle? && UnderWay(p) && Unnoticed(s, t, p, moves)
    ensures Inv(Run(s, moves)) && Run(s, moves).pc[t].Idle?
    ensures Run(Beside(s, t, p), moves) == Beside(Run(s, moves), t, p)
  {
    if moves != [] {
      var before, m := moves[..|moves| - 1], moves[|moves| - 1];
      RunBeside(s, t, p, before);
      InWord(Run(s, before));
      MoveBeside(Run(s, before), t, p, m);
      ApplyKeeps(Run(s, before), m);
    }
  }

  lemma {:induction false} RunConcat(s: State, a: seq<Move>, b: seq<Move>)
    ensures Run(s, a + b) == Run(Run(s, a), b)
  {
    if b == [] {
      assert a + b == a;
    } else {
      assert (a + b)[..|a + b| - 1] == a + b[..|b| - 1];
      RunConcat(s, a, b[..|b| - 1]);
    }
  }

  lemma RunOne(s: State, m: Move)
    ensures Run(s, [m]) == Apply(s, m)
  {
    assert [m][..0] == [];
  }

  /** A read trylock that fails leaves no trace among the moves of others: it sees no writer, others
      move as in b until one writes, it adds its bias, others move as in c, and it takes the bias
      back. Unless somebody in c compares the word with 0 and only the bias makes it differ, the lock
      and all threads end as they would had t done nothing. */
  lemma FailedReadTrylock(threads: nat, a: seq<Move>, t: nat, b: seq<Move>, c: seq<Move>)
    requires t < threads && Run(Init(threads), a).pc[t].Idle? && ReadCanLock(Run(Init(threads), a))
    requires Unnoticed(Run(Init(threads), a), t, ReadTry, b)
    requires WriterByte(Run(Run(Init(threads), a), b).cnts) != 0
    requires Unnoticed(Run(Run(Init(threads), a), b), t, ReadUndo, c)
    ensures var s := Run(Init(threads), a);
            Run(Run(Run(s, [ReadTrylock(t)] + b), [Again(t)] + c), [Again(t)]) == Run(Run(s, b), c)
  {
    var s := Run(Init(threads), a);
    var u := Run(s, b);
    var v := Run(u, c);
    RunKeeps(threads, a);
    RunConcat(s, [ReadTrylock(t)], b);
    RunOne(s, ReadTrylock(t));
    RunBeside(s, t, ReadTry, b);
    InWord(u);
    BiasKeepsByte(u.cnts);
    RunOne(Beside(u, t, ReadTry), Again(t));
    assert Apply(Beside(u, t, ReadTry), Again(t)) == Beside(u, t, ReadUndo) by {
      assert u.pc[t := ReadTry][t := ReadUndo] == u.pc[t := ReadUndo];
    }
    RunConcat(Beside(u, t, ReadTry), [Again(t)], c);
    RunBeside(u, t, ReadUndo, c);
    InWord(v);
    BiasCommutes(v.cnts);
    RunOne(Beside(v, t, ReadUndo), Again(t));
    assert v.pc[t := ReadUndo][t := Idle] == v.pc;
  }

  /** Nor does a write trylock that saw 0 and then finds something else. */
  lemma FailedWriteTrylock(threads: nat, a: seq<Move>, t: nat, b: seq<Move>)
    requires t < threads && Run(Init(threads), a).pc[t].Idle? && WriteCanLock(Run(Init(threads), a))
    requires Unnoticed(Run(Init(threads), a), t, WriteTry, b)
    requires Run(Run(Init(threads), a), b).cnts != 0
    ensures var s := Run(Init(threads), a);
            Run(Run(s, [WriteTrylock(t)] + b), [Again(t)]) == Run(s, b)
  {
    var s := Run(Init(threads), a);
    var u := Run(s, b);
    RunKeeps(threads, a);
    RunConcat(s, [WriteTrylock(t)], b);
    RunOne(s, WriteTrylock(t));
    RunBeside(s, t, WriteTry, b);
    RunOne(Beside(u, t, WriteTry), Again(t));
    assert u.pc[t := WriteTry][t := Idle] == u.pc;
  }
}

/** What the operations of the reader/writer semaphore leave behind: a grant that was given back and a
read trylock that failed leave everything as it would be without them.
*/
module RwSemaphoreTraces {
  import opened Counting
  import opened RwSemaphore

  // ---------------------------------------------------------------- grants and releases

  /** With threads for which it excludes, the semaphore is granted for reading exactly when there is no
      attempt to write, and for writing exactly when there is no attempt at all; otherwise the caller
      is handed over. */
  lemma GrantsIff(a: Arch, threads: nat, moves: seq<Move>, t: nat)
    requires t < threads <= Base(a) / 2 + 1 && Run(Init(a, threads), moves).pc[t].Idle?
    ensures var s := Run(Init(a, threads), moves);
            var readers, writers := Total(s.pc, ReadAttempt), Total(s.pc, WriteAttempt);
            && Apply(s, DownRead(t)).pc == s.pc[t := if writers == 0 then Reading else ReadSlow]
            && Apply(s, DownWrite(t)).pc == s.pc[t := if readers == 0 && writers == 0 then Writing else WriteSlow]
  {
    var s := Run(Init(a, threads), moves);
    RunKeeps(a, threads, moves);
    AttemptsLeave(s.pc, t);
    GrantedWhen(a, Total(s.pc, ReadAttempt), Total(s.pc, WriteAttempt));
    DownShows(s, t, Wrap(a, s.count + ReadBias(a)), Wrap(a, s.count + WriteBias(a)));
  }

  /** An idle thread t is granted the semaphore exactly if what a long makes of r readers and w writers,
      t included, is more than 0, for reading, or exactly one write bias, for writing. */
  ghost predicate GrantsMatch(s: State, t: nat, r: nat, w: nat)
    requires t < |s.pc|
  {
    && Apply(s, DownRead(t)).pc
       == s.pc[t := if Wrap(s.arch, Sum(s.arch, r + 1, w)) > 0 then Reading else ReadSlow]
    && Apply(s, DownWrite(t)).pc
       == s.pc[t := if Wrap(s.arch, Sum(s.arch, r, w + 1)) == WriteBias(s.arch) then Writing else WriteSlow]
  }

  /** For any number of threads, grants go by the attempts there are. */
  lemma GrantsShow(a: Arch, threads: nat, moves: seq<Move>, t: nat)
    requires t < threads && Run(Init(a, threads), moves).pc[t].Idle?
    ensures var s := Run(Init(a, threads), moves);
            GrantsMatch(s, t, Total(s.pc, ReadAttempt), Total(s.pc, WriteAttempt))
  {
    var s := Run(Init(a, threads), moves);
    RunKeeps(a, threads, moves);
    ShowFrom(s, t, Total(s.pc, ReadAttempt), Total(s.pc, WriteAttempt));
  }

  lemma ShowFrom(s: State, t: nat, r: nat, w: nat)
    requires t < |s.pc| && s.pc[t].Idle? && CountRight(s, r, w)
    ensures GrantsMatch(s, t, r, w)
  {
    NextCounts(s, r, w);
    DownShows(s, t, Plus(s, ReadBias(s.arch)).count, Plus(s, WriteBias(s.arch)).count);
  }

  /** The step itself, with the counts it makes as plain numbers. */
  lemma DownShows(s: State, t: nat, read: int, write: int)
    requires t < |s.pc| && s.pc[t].Idle?
    requires read == Plus(s, ReadBias(s.arch)).count && write == Plus(s, WriteBias(s.arch)).count
    ensures Apply(s, DownRead(t)).pc == s.pc[t := if read > 0 then Reading else ReadSlow]
    ensures Apply(s, DownWrite(t)).pc == s.pc[t := if write == WriteBias(s.arch) then Writing else WriteSlow]
  {
  }

  lemma NextCounts(s: State, r: nat, w: nat)
    requires CountRight(s, r, w)
    ensures Wrap(s.arch, s.count + ReadBias(s.arch)) == Wrap(s.arch, Sum(s.arch, r + 1, w))
    ensures Wrap(s.arch, s.count + WriteBias(s.arch)) == Wrap(s.arch, Sum(s.arch, r, w + 1))
  {
    SumMoves(s.arch, r, w, Idle, Reading);
    SumMoves(s.arch, r, w, Idle, Writing);
    Wraps(s.arch, Sum(s.arch, r, w), ReadBias(s.arch));
    Wraps(s.arch, Sum(s.arch, r, w), WriteBias(s.arch));
  }

  lemma GrantedWhen(a: Arch, r: nat, w: nat)
    requires r + w <= Base(a) / 2
    ensures var v := Wrap(a, Sum(a, r, w));
            && (Wrap(a, v + ReadBias(a)) > 0 <==> w == 0)
            && (Wrap(a, v + WriteBias(a)) == WriteBias(a) <==> r == 0 && w == 0)
  {
    FreeWhen(a, r, w);
    SumDecodes(a, r, w);
    WrapFixes(a, 0);
    if w == 0 {
      SmallFits(a, r + 1);
    }
  }

  lemma SmallFits(a: Arch, x: nat)
    requires x <= Base(a) / 2 + 1
    ensures Wrap(a, x) == x
  {
  }

  /** The count after a bias was added and taken away again. */
  lemma ThereAndBack(s: State, r: nat, w: nat, bias: int)
    requires CountRight(s, r, w)
    ensures Wrap(s.arch, Wrap(s.arch, s.count + bias) - bias) == s.count
  {
    Wraps(s.arch, s.count + bias, -bias);
    WrapFixes(s.arch, Sum(s.arch, r, w));
  }

  lemma SetTwice(pc: seq<Pc>, t: nat, p: Pc, q: Pc)
    requires t < |pc|
    ensures pc[t := p][t := q] == pc[t := q]
    ensures pc[t] == q ==> pc[t := p][t := q] == pc
  {
  }

  lemma ReadTrip(s: State, t: nat)
    requires t < |s.pc| && s.pc[t].Idle? && Plus(Plus(s, ReadBias(s.arch)), -ReadBias(s.arch)) == s
    ensures Apply(s, DownRead(t)).pc[t].Reading? ==> Apply(Apply(s, DownRead(t)), UpRead(t)) == s
  {
    SetTwice(s.pc, t, Reading, Idle);
  }

  lemma WriteTrip(s: State, t: nat)
    requires t < |s.pc| && s.pc[t].Idle? && Plus(Plus(s, WriteBias(s.arch)), -WriteBias(s.arch)) == s
    ensures Apply(s, DownWrite(t)).pc[t].Writing? ==> Apply(Apply(s, DownWrite(t)), UpWrite(t)) == s
  {
    SetTwice(s.pc, t, Writing, Idle);
  }

  lemma DowngradeTrip(s: State, t: nat)
    requires t < |s.pc| && s.pc[t].Idle?
    requires Plus(Plus(Plus(s, WriteBias(s.arch)), Base(s.arch)), -ReadBias(s.arch)) == s
    ensures Apply(s, DownWrite(t)).pc[t].Writing? ==>
              Apply(Apply(Apply(s, DownWrite(t)), Downgrade(t)), UpRead(t)) == s
  {
    SetTwice(s.pc, t, Writing, Reading);
    SetTwice(s.pc, t, Reading, Idle);
  }

  /** Undisturbed, and for any number of threads: a grant that is given back leaves everything as it
      was, and so does a writer that downgrades and then leaves as a reader. */
  lemma RoundTrips(a: Arch, threads: nat, moves: seq<Move>, t: nat)
    requires t < threads && Run(Init(a, threads), moves).pc[t].Idle?
    ensures var s := Run(Init(a, threads), moves);
            var read, write := Apply(s, DownRead(t)), Apply(s, DownWrite(t));
            && (read.pc[t].Reading? ==> Apply(read, UpRead(t)) == s)
            && (write.pc[t].Writing? ==> Apply(write, UpWrite(t)) == s
                                         && Apply(Apply(write, Downgrade(t)), UpRead(t)) == s)
  {
    var s := Run(Init(a, threads), moves);
    RunKeeps(a, threads, moves);
    BiasesReturn(s, Total(s.pc, ReadAttempt), Total(s.pc, WriteAttempt));
    ReadTrip(s, t);
    WriteTrip(s, t);
    DowngradeTrip(s, t);
  }

  lemma BiasesReturn(s: State, r: nat, w: nat)
    requires CountRight(s, r, w)
    ensures Plus(Plus(s, ReadBias(s.arch)), -ReadBias(s.arch)) == s
    ensures Plus(Plus(s, WriteBias(s.arch)), -WriteBias(s.arch)) == s
    ensures Plus(Plus(Plus(s, WriteBias(s.arch)), Base(s.arch)), -ReadBias(s.arch)) == s
  {
    BiasReturns(s, r, w, ReadBias(s.arch));
    BiasReturns(s, r, w, WriteBias(s.arch));
    DownTwice(s, r, w);
  }

  lemma BiasReturns(s: State, r: nat, w: nat, bias: int)
    requires CountRight(s, r, w)
    ensures Plus(Plus(s, bias), -bias) == s
  {
    ThereAndBack(s, r, w, bias);
  }

  lemma DownTwice(s: State, r: nat, w: nat)
    requires CountRight(s, r, w)
    ensures Plus(Plus(Plus(s, WriteBias(s.arch)), Base(s.arch)), -ReadBias(s.arch)) == s
  {
    var a := s.arch;
    Wraps(a, s.count + WriteBias(a), Base(a));
    assert s.count + WriteBias(a) + Base(a) == s.count + ReadBias(a);
    ThereAndBack(s, r, w, ReadBias(a));
  }

  lemma TryRead(s: State, t: nat)
    requires t < |s.pc| && s.pc[t].Idle?
    ensures var looked := Apply(Apply(s, ReadTrylock(t)), Again(t));
            var tried := Apply(looked, Again(t));
            if s.count >= 0 then tried == To(Plus(s, ReadBias(s.arch)), t, Reading) else looked == tried == s
  {
    SetTwice(s.pc, t, ReadLoop, Idle);
    SetTwice(s.pc, t, ReadLoop, ReadTry(s.count));
    SetTwice(s.pc, t, ReadTry(s.count), Reading);
  }

  lemma ReadGivenBack(s: State, t: nat)
    requires t < |s.pc| && s.pc[t].Idle? && Plus(Plus(s, ReadBias(s.arch)), -ReadBias(s.arch)) == s
    ensures Apply(To(Plus(s, ReadBias(s.arch)), t, Reading), UpRead(t)) == s
  {
    SetTwice(s.pc, t, Reading, Idle);
  }

  lemma TryWrite(s: State, t: nat)
    requires t < |s.pc| && s.pc[t].Idle?
    ensures var written := Apply(s, WriteTrylock(t));
            if s.count == 0 then written.pc == s.pc[t := Writing] && Apply(written, UpWrite(t)) == s
            else written == s
  {
    SetTwice(s.pc, t, Writing, Idle);
    Wraps(s.arch, 0, 0);
  }

  /** Undisturbed, the read trylock succeeds exactly when the count is not negative, and the write
      trylock exactly when it is 0; a trylock that fails leaves everything as it was, and one that
      succeeds is undone by the release. */
  lemma TrylocksPredicted(a: Arch, threads: nat, moves: seq<Move>, t: nat)
    requires t < threads && Run(Init(a, threads), moves).pc[t].Idle?
    ensures var s := Run(Init(a, threads), moves);
            var looked := Apply(Apply(s, ReadTrylock(t)), Again(t));
            var tried, written := Apply(looked, Again(t)), Apply(s, WriteTrylock(t));
            && (if s.count >= 0 then tried.pc == s.pc[t := Reading] && Apply(tried, UpRead(t)) == s
                else looked == tried == s)
            && (if s.count == 0 then written.pc == s.pc[t := Writing] && Apply(written, UpWrite(t)) == s
                else written == s)
  {
    var s := Run(Init(a, threads), moves);
    RunKeeps(a, threads, moves);
    BiasesReturn(s, Total(s.pc, ReadAttempt), Total(s.pc, WriteAttempt));
    TryRead(s, t);
    ReadGivenBack(s, t);
    TryWrite(s, t);
  }

  // ---------------------------------------------------------------- failed trylocks among others

  /** The moves of the others. */
  function Others(moves: seq<Move>, t: nat): seq<Move>
  {
    if moves == [] then []
    else
      var before, m := Others(moves[..|moves| - 1], t), moves[|moves| - 1];
      if m.t == t then before else before + [m]
  }

  /** Thread t does nothing but go on with its read trylock. */
  predicate Trying(moves: seq<Move>, t: nat)
  {
    forall k :: 0 <= k < |moves| && moves[k].t == t ==> moves[k].Again?
  }

  ghost predicate UnderWay(p: Pc) { p.ReadLoop? || p.ReadTry? }

  lemma MoveBeside(s: State, t: nat, p: Pc, m: Move)
    requires t < |s.pc| && m.t != t
    ensures Apply(s, m).pc[t] == s.pc[t]
    ensures Apply(s.(pc := s.pc[t := p]), m) == Apply(s, m).(pc := Apply(s, m).pc[t := p])
  {
    if m.t < |s.pc| {
      var q := Apply(s, m).pc[m.t];
      assert s.pc[t := p][m.t := q] == s.pc[m.t := q][t := p];
    }
  }

  /** Where the trylock of t stands among the moves of all, and what the others have made of the
      semaphore without it: nothing of it shows before it succeeds, and if it has failed, the count was
      negative at some point. */
  ghost predicate Traceless(s: State, t: nat, moves: seq<Move>, now: State)
  {
    var others := Run(s, Others(moves, t));
    && t < |now.pc| && |now.pc| == |s.pc|
    && (now.pc[t].Reading? || UnderWay(now.pc[t]) || now.pc[t].Idle?)
    && (!now.pc[t].Reading? ==> now == others.(pc := others.pc[t := now.pc[t]]) && others.pc[t].Idle?)
    && (now.pc[t].Idle? ==> WasNegative(s, t, moves))
  }

  ghost predicate WasNegative(s: State, t: nat, moves: seq<Move>)
  {
    exists k :: 0 <= k <= |moves| && Run(s, Others(moves[..k], t)).count < 0
  }

  lemma StillNegative(s: State, t: nat, moves: seq<Move>)
    requires moves != [] && WasNegative(s, t, moves[..|moves| - 1])
    ensures WasNegative(s, t, moves)
  {
    var before := moves[..|moves| - 1];
    var k :| 0 <= k <= |before| && Run(s, Others(before[..k], t)).count < 0;
    assert moves[..k] == before[..k];
  }

  lemma TryStep(s: State, t: nat, moves: seq<Move>, now: State)
    requires moves != [] && Traceless(s, t, moves[..|moves| - 1], now)
    requires moves[|moves| - 1] == Again(t)
    ensures Traceless(s, t, moves, Apply(now, Again(t)))
  {
    var before := moves[..|moves| - 1];
    var others, now' := Run(s, Others(before, t)), Apply(now, Again(t));
    assert Others(moves, t) == Others(before, t);
    assert others.pc[t := now.pc[t]][t := now'.pc[t]] == others.pc[t := now'.pc[t]];
    if now.pc[t].Idle? {
      StillNegative(s, t, moves);
    } else if now'.pc[t].Idle? {
      assert others.count < 0;
      assert moves[..|moves| - 1] == before;
    }
  }

  lemma OtherStep(s: State, t: nat, moves: seq<Move>, now: State)
    requires moves != [] && Traceless(s, t, moves[..|moves| - 1], now) && moves[|moves| - 1].t != t
    ensures Traceless(s, t, moves, Apply(now, moves[|moves| - 1]))
  {
    var before, m := moves[..|moves| - 1], moves[|moves| - 1];
    var others := Run(s, Others(before, t));
    AllButLast(Others(before, t), m);
    assert Run(s, Others(moves, t)) == Apply(others, m);
    MoveBeside(now, t, now.pc[t], m);
    if !now.pc[t].Reading? {
      MoveBeside(others, t, now.pc[t], m);
    }
    if now.pc[t].Idle? {
      StillNegative(s, t, moves);
    }
  }

  lemma {:induction false} TryAmongOthers(s: State, t: nat, moves: seq<Move>)
    requires t < |s.pc| && s.pc[t].Idle? && Trying(moves, t)
    ensures Traceless(s, t, moves, Run(Apply(s, ReadTrylock(t)), moves))
  {
    if moves != [] {
      var before, m := moves[..|moves| - 1], moves[|moves| - 1];
      TryAmongOthers(s, t, before);
      var now := Run(Apply(s, ReadTrylock(t)), before);
      if m.t == t {
        TryStep(s, t, moves, now);
      } else {
        OtherStep(s, t, moves, now);
      }
    }
  }

  /** A read trylock that fails leaves no trace among any moves of others, and fails only if the count
      was negative meanwhile; one still under way has left none so far. */
  lemma FailedReadTrylock(a: Arch, threads: nat, before: seq<Move>, t: nat, moves: seq<Move>)
    requires t < threads && Run(Init(a, threads), before).pc[t].Idle? && Trying(moves, t)
    ensures var s := Run(Init(a, threads), before);
            var now, others := Run(Apply(s, ReadTrylock(t)), moves), Run(s, Others(moves, t));
            && (now.pc[t].Idle? ==> now == others && WasNegative(s, t, moves))
            && (!now.pc[t].Idle? && !now.pc[t].Reading? ==> now == others.(pc := others.pc[t := now.pc[t]]))
  {
    var s := Run(Init(a, threads), before);
    TryAmongOthers(s, t, moves);
    var others := Run(s, Others(moves, t));
    assert others.pc[t].Idle? ==> others.pc[t := Idle] == others.pc;
  }
}

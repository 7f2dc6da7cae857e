/** The process identifier manager: a table of marks, a scan position that wraps around and a count
of identifiers in use.
*/
module PidManager {
  import opened Arithmetic
  import opened Counting

  /** The table and the scan position; slot i stands for identifier first + i. */
  datatype Pids = Pids(first: nat, used: seq<bool>, next: nat)

  ghost predicate WellFormed(p: Pids)
  {
    p.next < |p.used|
  }

  function Bit(b: bool): nat { if b then 1 else 0 }

  ghost function InUse(used: seq<bool>): nat { Total(used, Bit) }

  function After(i: nat, n: nat): nat
    requires i < n
  {
    (i + 1) % n
  }

  /** How far j is from i, going up and around a table of n slots. */
  function Ahead(i: nat, j: nat, n: nat): (d: nat)
    requires i < n && j < n
    ensures d < n
  {
    if i <= j then j - i else j + n - i
  }

  lemma AfterIs(i: nat, n: nat)
    requires i < n
    ensures After(i, n) == if i + 1 == n then 0 else i + 1
  {
    WrapsOnce(i + 1, n);
  }

  lemma AfterNearer(i: nat, n: nat)
    requires i < n
    ensures After(i, n) < n
    ensures forall j :: 0 <= j < n && j != i ==> Ahead(After(i, n), j, n) == Ahead(i, j, n) - 1
  {
    AfterIs(i, n);
  }

  /** Slot r is the first free slot at or after position i. */
  ghost predicate NextFit(used: seq<bool>, i: nat, r: nat)
    requires i < |used|
  {
    && r < |used| && !used[r]
    && (forall j :: 0 <= j < |used| && Ahead(i, j, |used|) < Ahead(i, r, |used|) ==> used[j])
  }

  /** Where a scan from i stops that goes on for at most left slots. */
  function Scan(used: seq<bool>, i: nat, left: nat): (r: nat)
    requires i < |used|
    ensures r < |used|
    decreases left
  {
    if used[i] && left > 0 then AfterIs(i, |used|); Scan(used, After(i, |used|), left - 1) else i
  }

  lemma {:induction false} ScanFits(used: seq<bool>, i: nat, left: nat, f: nat)
    requires i < |used| && f < |used| && !used[f] && Ahead(i, f, |used|) <= left
    ensures NextFit(used, i, Scan(used, i, left))
    decreases left
  {
    var n := |used|;
    if used[i] {
      AfterNearer(i, n);
      ScanFits(used, After(i, n), left - 1, f);
    }
  }

  /** Some slot is free exactly when the count is below the table size. */
  lemma FreeIff(used: seq<bool>)
    ensures InUse(used) <= |used|
    ensures InUse(used) < |used| <==> exists f :: 0 <= f < |used| && !used[f]
  {
    TotalBound(used, Bit);
    if forall f :: 0 <= f < |used| ==> used[f] {
      TotalAll(used, Bit);
    } else {
      var f :| 0 <= f < |used| && !used[f];
      TotalUpdate(used, f, true, Bit);
      TotalBound(used[f := true], Bit);
    }
  }

  /** The table after an allocation, and the identifier it returns, or -1. */
  ghost function Allocated(p: Pids): (r: (Pids, int))
    requires WellFormed(p)
    ensures WellFormed(r.0) && |r.0.used| == |p.used| && r.0.first == p.first
  {
    var n := |p.used|;
    if InUse(p.used) >= n then (p, -1)
    else
      var slot := Scan(p.used, p.next, n);
      AfterIs(slot, n);
      (Pids(p.first, p.used[slot := true], After(slot, n)), p.first + slot)
  }

  ghost predicate IsLive(p: Pids, pid: int)
  {
    p.first <= pid < p.first + |p.used| && p.used[pid - p.first]
  }

  ghost function Released(p: Pids, pid: int): (p': Pids)
    requires WellFormed(p) && IsLive(p, pid)
    ensures WellFormed(p') && |p'.used| == |p.used| && p'.first == p.first
  {
    p.(used := p.used[pid - p.first := false])
  }

  /** An allocation returns the first free identifier at or after the scan position, and -1 exactly
      when none is free. */
  lemma AllocatedFits(p: Pids)
    requires WellFormed(p)
    ensures var pid := Allocated(p).1;
            && (pid != -1 ==> p.first <= pid < p.first + |p.used| && NextFit(p.used, p.next, pid - p.first))
            && (pid == -1 <==> forall f :: 0 <= f < |p.used| ==> p.used[f])
  {
    FreeIff(p.used);
    if InUse(p.used) < |p.used| {
      var f :| 0 <= f < |p.used| && !p.used[f];
      ScanFits(p.used, p.next, |p.used|, f);
    }
  }

  /** What a successful allocation marks, and what that does to the count. */
  lemma AllocatedMarks(p: Pids)
    requires WellFormed(p) && InUse(p.used) < |p.used|
    ensures var slot := Scan(p.used, p.next, |p.used|);
            && !p.used[slot] && After(slot, |p.used|) < |p.used|
            && InUse(p.used[slot := true]) == InUse(p.used) + 1
            && Allocated(p) == (Pids(p.first, p.used[slot := true], After(slot, |p.used|)), p.first + slot)
  {
    var slot := Scan(p.used, p.next, |p.used|);
    AllocatedFits(p);
    TotalUpdate(p.used, slot, true, Bit);
    AfterIs(slot, |p.used|);
  }

  /** The allocator as the program keeps it, updated in place. */
  class Manager {
    const first: nat          // MIN_PID
    const state: array<bool>  // pid_alloc_state
    var next: nat             // next_free_pid_index
    var inUse: nat            // pid_in_use_count

    ghost function Value(): Pids
      reads this, state
    {
      Pids(first, state[..], next)
    }

    ghost predicate Valid()
      reads this, state
    {
      WellFormed(Value()) && inUse == InUse(state[..])
    }

    constructor (minPid: nat, maxPid: nat)
      requires minPid <= maxPid
      ensures Valid() && fresh(state) && first == minPid && state.Length == maxPid - minPid + 1
      ensures Value() == Initial(minPid, maxPid)
    {
      first := minPid;
      state := new bool[maxPid - minPid + 1](_ => false);
      next := 0;
      inUse := 0;
      new;
      assert state[..] == Initial(minPid, maxPid).used;
      TotalNone(state[..], Bit);
    }

    /** The scan of allocate_pid: wraps around the table, and never takes more steps than it has slots. */
    method FindFree()
      requires WellFormed(Value())
      modifies this`next
      ensures WellFormed(Value())
      ensures next == Scan(state[..], old(next), state.Length)
    {
      ghost var used := state[..];
      var size := state.Length;
      var iterations := 0;
      while state[next] && iterations < size
        invariant next < size && iterations <= size
        invariant Scan(used, next, size - iterations) == Scan(used, old(next), size)
        decreases size - iterations
      {
        AfterIs(next, size);
        iterations := iterations + 1;
        next := After(next, size);
      }
    }

    method AllocatePid() returns (pid: int)
      requires Valid()
      modifies this, state
      ensures Valid()
      ensures (Value(), pid) == Allocated(old(Value()))
    {
      ghost var before := Value();
      FreeIff(before.used);
      if inUse >= state.Length {
        return -1;
      }
      AllocatedMarks(before);
      FindFree();
      assert !state[next];  // the program's own check that the scan found a free slot
      ghost var slot := next;
      state[next] := true;
      inUse := inUse + 1;
      pid := next + first;
      next := After(next, state.Length);
      assert state[..] == before.used[slot := true];
    }

    method ReleasePid(pid: int)
      requires Valid() && IsLive(Value(), pid)
      modifies this, state
      ensures Valid()
      ensures Value() == Released(old(Value()), pid)
    {
      ghost var used := state[..];
      TotalUpdate(used, pid - first, false, Bit);
      TotalAtLeast(used, pid - first, Bit);
      TotalBound(used, Bit);
      assert 0 < inUse <= state.Length;  // the program's own checks of the count
      state[pid - first] := false;
      inUse := inUse - 1;
      assert state[..] == used[pid - first := false];
    }
  }

  // ---------------------------------------------------------------- histories

  function Initial(minPid: nat, maxPid: nat): (p: Pids)
    requires minPid <= maxPid
  {
    Pids(minPid, seq(maxPid - minPid + 1, _ => false), 0)
  }

  /** A call of the manager; a release of an identifier that is not live would abort the program
      and is left out of the history. */
  datatype Call = Allocate | Release(pid: int)

  ghost function Apply(p: Pids, c: Call): (p': Pids)
    requires WellFormed(p)
    ensures WellFormed(p') && |p'.used| == |p.used| && p'.first == p.first
  {
    match c
    case Allocate => Allocated(p).0
    case Release(pid) => if IsLive(p, pid) then Released(p, pid) else p
  }

  ghost function Run(p: Pids, calls: seq<Call>): (p': Pids)
    requires WellFormed(p)
    ensures WellFormed(p') && |p'.used| == |p.used| && p'.first == p.first
  {
    if calls == [] then p else Apply(Run(p, calls[..|calls| - 1]), calls[|calls| - 1])
  }

  /** What clients hold: identifiers returned to them and not released since. */
  ghost function Held(p: Pids, calls: seq<Call>): set<int>
    requires WellFormed(p)
  {
    if calls == [] then {}
    else
      var before, c := calls[..|calls| - 1], calls[|calls| - 1];
      match c
      case Allocate =>
        var pid := Allocated(Run(p, before)).1;
        if pid == -1 then Held(p, before) else Held(p, before) + {pid}
      case Release(pid) => Held(p, before) - {pid}
  }

  lemma {:induction false} HeldIsLive(minPid: nat, maxPid: nat, calls: seq<Call>)
    requires minPid <= maxPid
    ensures var p := Initial(minPid, maxPid);
            forall pid :: pid in Held(p, calls) <==> IsLive(Run(p, calls), pid)
  {
    if calls != [] {
      HeldIsLive(minPid, maxPid, calls[..|calls| - 1]);
    }
  }

  lemma AllLive(p: Pids)
    ensures (forall f :: 0 <= f < |p.used| ==> p.used[f])
       <==> forall q :: p.first <= q < p.first + |p.used| ==> IsLive(p, q)
  {
    if forall q :: p.first <= q < p.first + |p.used| ==> IsLive(p, q) {
      forall f | 0 <= f < |p.used|
        ensures p.used[f]
      {
        assert IsLive(p, p.first + f);
      }
    }
  }

  lemma FreshAmong(p: Pids, pid: int, held: set<int>)
    requires WellFormed(p) && forall q :: q in held <==> IsLive(p, q)
    requires pid != -1 ==> p.first <= pid < p.first + |p.used| && !p.used[pid - p.first]
    requires pid == -1 <==> forall f :: 0 <= f < |p.used| ==> p.used[f]
    ensures pid != -1 ==> pid !in held
    ensures pid == -1 <==> forall q :: p.first <= q < p.first + |p.used| ==> q in held
  {
    AllLive(p);
  }

  /** Over every history of calls: an allocation returns an identifier in range that nobody holds,
      or -1; and -1 exactly when every identifier is held. */
  lemma AllocationsAreFresh(minPid: nat, maxPid: nat, calls: seq<Call>)
    requires minPid <= maxPid
    ensures var p := Initial(minPid, maxPid);
            var pid := Allocated(Run(p, calls)).1;
            && (pid != -1 ==> minPid <= pid <= maxPid && pid !in Held(p, calls))
            && (pid == -1 <==> forall q :: minPid <= q <= maxPid ==> q in Held(p, calls))
  {
    var now := Run(Initial(minPid, maxPid), calls);
    HeldIsLive(minPid, maxPid, calls);
    AllocatedFits(now);
    FreshAmong(now, Allocated(now).1, Held(Initial(minPid, maxPid), calls));
  }

  /** Where the next search starts, going by what the history's allocations returned: at the slot after
      the last identifier that was given out, and at the first slot if none was. */
  ghost function Start(p: Pids, calls: seq<Call>): int
    requires WellFormed(p)
  {
    if calls == [] then 0
    else
      var before := calls[..|calls| - 1];
      var pid := Allocated(Run(p, before)).1;
      if !calls[|calls| - 1].Allocate? || pid == -1 then Start(p, before)
      else if pid - p.first + 1 == |p.used| then 0
      else pid - p.first + 1
  }

  lemma {:induction false} ScanStarts(minPid: nat, maxPid: nat, calls: seq<Call>)
    requires minPid <= maxPid
    ensures var p := Initial(minPid, maxPid);
            Run(p, calls).next == Start(p, calls)
  {
    if calls != [] {
      var now := Run(Initial(minPid, maxPid), calls[..|calls| - 1]);
      ScanStarts(minPid, maxPid, calls[..|calls| - 1]);
      if InUse(now.used) < |now.used| {
        AllocatedMarks(now);
        AfterIs(Scan(now.used, now.next, |now.used|), |now.used|);
      }
    }
  }

  /** Of the n identifiers from first on, pid is the first that is not held, going up and around from
      slot start. */
  ghost predicate FirstUnheld(first: nat, n: nat, start: int, pid: int, held: set<int>)
  {
    && 0 <= start < n && first <= pid < first + n && pid !in held
    && (forall j :: 0 <= j < n && Ahead(start, j, n) < Ahead(start, pid - first, n) ==> first + j in held)
  }

  lemma FitsUnheld(p: Pids, pid: int, held: set<int>)
    requires WellFormed(p) && forall q :: q in held <==> IsLive(p, q)
    requires p.first <= pid < p.first + |p.used| && NextFit(p.used, p.next, pid - p.first)
    ensures FirstUnheld(p.first, |p.used|, p.next, pid, held)
  {
    forall j | 0 <= j < |p.used| && Ahead(p.next, j, |p.used|) < Ahead(p.next, pid - p.first, |p.used|)
      ensures p.first + j in held
    {
      assert p.used[j];
      assert IsLive(p, p.first + j);
    }
  }

  /** Next-fit over every history: an allocation that succeeds returns the first identifier nobody holds,
      going up and around from the last one given out, or from the lowest if none was given out yet. */
  lemma AllocationsGoAround(minPid: nat, maxPid: nat, calls: seq<Call>)
    requires minPid <= maxPid
    ensures var p := Initial(minPid, maxPid);
            var pid := Allocated(Run(p, calls)).1;
            pid != -1 ==> FirstUnheld(minPid, maxPid - minPid + 1, Start(p, calls), pid, Held(p, calls))
  {
    var p := Initial(minPid, maxPid);
    var now := Run(p, calls);
    ScanStarts(minPid, maxPid, calls);
    HeldIsLive(minPid, maxPid, calls);
    AllocatedFits(now);
    if Allocated(now).1 != -1 {
      FitsUnheld(now, Allocated(now).1, Held(p, calls));
    }
  }

  /** So the first allocation of all returns the lowest identifier. */
  lemma LowestFirst(minPid: nat, maxPid: nat)
    requires minPid <= maxPid
    ensures Allocated(Initial(minPid, maxPid)).1 == minPid
  {
    var p := Initial(minPid, maxPid);
    AllocatedFits(p);
    assert !p.used[0];
    AllocationsGoAround(minPid, maxPid, []);
  }

  /** How many allocations of a history returned an identifier. */
  ghost function Successes(p: Pids, calls: seq<Call>): nat
    requires WellFormed(p)
  {
    if calls == [] then 0
    else
      var before := calls[..|calls| - 1];
      Successes(p, before)
      + (if calls[|calls| - 1].Allocate? && Allocated(Run(p, before)).1 != -1 then 1 else 0)
  }

  /** Slot i is free now and after every call of the history. */
  ghost predicate StaysFree(p: Pids, calls: seq<Call>, i: nat)
    requires WellFormed(p) && i < |p.used|
  {
    !Run(p, calls).used[i] && (calls != [] ==> StaysFree(p, calls[..|calls| - 1], i))
  }

  /** A successful allocation that passes over a free slot brings the scan nearer to it. */
  lemma AllocationApproaches(p: Pids, i: nat)
    requires WellFormed(p) && i < |p.used| && !p.used[i]
    ensures var (p', pid) := Allocated(p);
            pid != -1 && (p'.used[i] || Ahead(p'.next, i, |p.used|) < Ahead(p.next, i, |p.used|))
  {
    var n := |p.used|;
    FreeIff(p.used);
    ScanFits(p.used, p.next, n, i);
    var slot := Scan(p.used, p.next, n);
    AfterNearer(slot, n);
  }

  /** Next-fit is fair: a slot that is free and is not handed out sees fewer than table-size
      successful allocations; in fact no more than the scan is behind it. */
  lemma {:induction false} FreeSlotComesUp(p: Pids, calls: seq<Call>, i: nat)
    requires WellFormed(p) && i < |p.used| && StaysFree(p, calls, i)
    ensures Successes(p, calls) + Ahead(Run(p, calls).next, i, |p.used|) <= Ahead(p.next, i, |p.used|)
    ensures Successes(p, calls) < |p.used|
  {
    if calls != [] {
      var before := calls[..|calls| - 1];
      FreeSlotComesUp(p, before, i);
      AllocationApproaches(Run(p, before), i);
    }
  }
}

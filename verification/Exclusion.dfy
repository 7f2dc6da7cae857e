/** What it means for a reader/writer lock to exclude. */
module Exclusion {
  import opened Counting

  /** Two threads have the lock at once, at least one of them for writing; the weights say who has it how. */
  ghost predicate Clash<P>(pc: seq<P>, writer: P -> nat, reader: P -> nat)
  {
    exists t, u :: 0 <= t < |pc| && 0 <= u < |pc| && t != u
                   && writer(pc[t]) > 0 && (writer(pc[u]) > 0 || reader(pc[u]) > 0)
  }

  /** One writer and no readers, or readers only. */
  ghost predicate Apart<P>(pc: seq<P>, writer: P -> nat, reader: P -> nat)
  {
    Total(pc, writer) <= 1 && (Total(pc, writer) == 1 ==> Total(pc, reader) == 0)
  }

  lemma NoClash<P>(pc: seq<P>, writer: P -> nat, reader: P -> nat)
    requires Apart(pc, writer, reader)
    ensures !Clash(pc, writer, reader)
  {
    forall t, u | 0 <= t < |pc| && 0 <= u < |pc| && t != u && writer(pc[t]) > 0
      ensures writer(pc[u]) == 0 && reader(pc[u]) == 0
    {
      TotalTwo(pc, t, u, writer);
      TotalAtLeast(pc, u, reader);
    }
  }

  /** A step that gives the lock for reading only when nobody writer, and for writing only when
      nobody has it, keeps them apart; a writer may also become a reader. */
  lemma MoveApart<P>(pc: seq<P>, t: nat, q: P, writer: P -> nat, reader: P -> nat)
    requires t < |pc| && Apart(pc, writer, reader)
    requires writer(q) <= 1 && reader(q) <= 1 && (writer(q) == 1 ==> reader(q) == 0)
    requires reader(q) > reader(pc[t]) ==> writer(pc[t]) > 0 || Total(pc, writer) == 0
    requires writer(q) > writer(pc[t]) ==> Total(pc, reader) == 0 && Total(pc, writer) == 0
    ensures Apart(pc[t := q], writer, reader)
  {
    TotalUpdate(pc, t, q, reader);
    TotalUpdate(pc, t, q, writer);
    TotalAtLeast(pc, t, writer);
  }
}

/** The producer/consumer buffer: a ring of fixed size with two counting semaphores, all used while
holding one mutex, and producers that retry an item until it is accepted.
*/
module BoundedBuffer {
  import opened Arithmetic

  /** The n items of a ring from position head on, in the order in which they leave it. */
  function Window(slots: seq<int>, head: nat, n: nat): (items: seq<int>)
    requires head < |slots| && n <= |slots|
  {
    (slots + slots)[head..head + n]
  }

  /** The position k slots after head. */
  function Around(head: nat, k: nat, size: nat): nat
    requires head < size && k <= size
  {
    if head + k < size then head + k else head + k - size
  }

  lemma WindowGrows(slots: seq<int>, head: nat, n: nat, item: int)
    requires head < |slots| && n < |slots|
    ensures Window(slots[Around(head, n, |slots|) := item], head, n + 1) == Window(slots, head, n) + [item]
  {
  }

  lemma WindowShrinks(slots: seq<int>, head: nat, n: nat)
    requires head < |slots| && 0 < n <= |slots|
    ensures var head' := Around(head, 1, |slots|);
            && [slots[head]] + Window(slots[head := -1], head', n - 1) == Window(slots, head, n)
  {
  }

  lemma Wraps(i: nat, size: nat)
    requires i < size
    ensures (i + 1) % size == Around(i, 1, size)
  {
    WrapsOnce(i + 1, size);
  }

  // ---------------------------------------------------------------- the two sections

  /** Everything the two sections share. */
  datatype Ring = Ring(slots: seq<int>, head: nat, tail: nat, n: nat, full: nat, empty: nat)

  /** How a section ends. Waiting for a semaphore that is zero blocks for ever, since the post that
      would end the wait needs the mutex that the waiter holds. */
  datatype Outcome = Returns(ring: Ring, result: int, item: int) | Blocks

  ghost predicate InBounds(r: Ring) { r.head < |r.slots| && r.tail < |r.slots| }

  function Fresh(size: nat): Ring
  {
    Ring(seq(size, _ => 0), 0, 0, 0, 0, size)
  }

  function Insert(r: Ring, item: int): (o: Outcome)
    requires InBounds(r)
    ensures o.Returns? ==> InBounds(o.ring)
  {
    if r.n >= |r.slots| then Returns(r, -1, item)
    else if r.empty == 0 then Blocks
    else
      Returns(r.(slots := r.slots[r.tail := item], tail := (r.tail + 1) % |r.slots|, n := r.n + 1,
                 full := r.full + 1, empty := r.empty - 1), 0, item)
  }

  function Remove(r: Ring): (o: Outcome)
    requires InBounds(r)
    ensures o.Returns? ==> InBounds(o.ring)
  {
    if r.n == 0 then Returns(r, -1, 0)
    else if r.full == 0 then Blocks
    else
      Returns(r.(slots := r.slots[r.head := -1], head := (r.head + 1) % |r.slots|, n := r.n - 1,
                 full := r.full - 1, empty := r.empty + 1), 0, r.slots[r.head])
  }

  /** While the mutex is free the tail is n slots after the head and the semaphores say how many
      slots are taken and free. */
  ghost predicate Balanced(r: Ring)
  {
    && r.head < |r.slots| && r.n <= |r.slots|
    && r.tail == Around(r.head, r.n, |r.slots|)
    && r.full == r.n && r.empty == |r.slots| - r.n
  }

  function Contents(r: Ring): seq<int>
    requires r.head < |r.slots| && r.n <= |r.slots|
  {
    Window(r.slots, r.head, r.n)
  }

  /** An insertion never blocks; it appends to the contents, or fails exactly when they fill the ring. */
  lemma InsertAppends(r: Ring, item: int)
    requires Balanced(r)
    ensures var o := Insert(r, item);
            && o.Returns? && Balanced(o.ring) && |o.ring.slots| == |r.slots|
            && o.result == (if |Contents(r)| < |r.slots| then 0 else -1)
            && Contents(o.ring) == if o.result == 0 then Contents(r) + [item] else Contents(r)
  {
    if r.n < |r.slots| {
      WindowGrows(r.slots, r.head, r.n, item);
      Wraps(r.tail, |r.slots|);
    }
  }

  /** A removal never blocks; it takes the first of the contents, or fails exactly when there is none. */
  lemma RemoveTakesFirst(r: Ring)
    requires Balanced(r)
    ensures var o := Remove(r);
            && o.Returns? && Balanced(o.ring) && |o.ring.slots| == |r.slots|
            && o.result == (if Contents(r) != [] then 0 else -1)
            && if o.result == 0 then Contents(r) == [o.item] + Contents(o.ring) else o.ring == r
  {
    if r.n > 0 {
      WindowShrinks(r.slots, r.head, r.n);
      Wraps(r.head, |r.slots|);
    }
  }

  /** The shared buffer, updated in place under the mutex. */
  class Buffer {
    const slots: array<int>
    var head: nat   // head_index
    var tail: nat   // tail_index
    var n: nat
    var full: nat   // full_sem
    var empty: nat  // empty_sem

    ghost function Value(): Ring
      reads this, slots
    {
      Ring(slots[..], head, tail, n, full, empty)
    }

    constructor (size: nat)
      requires size > 0
      ensures fresh(slots) && Value() == Fresh(size) && Balanced(Value())
    {
      slots := new int[size](_ => 0);
      head, tail, n := 0, 0, 0;
      full, empty := 0, size;
      new;
      assert slots[..] == Fresh(size).slots;
    }

    method InsertItem(item: int) returns (result: int)
      requires Balanced(Value())
      modifies this, slots
      ensures Insert(old(Value()), item) == Returns(Value(), result, item)
      ensures Balanced(Value())
    {
      InsertAppends(Value(), item);
      result := 0;
      if n < slots.Length {
        empty := empty - 1;
        slots[tail] := item;
        tail := (tail + 1) % slots.Length;
        n := n + 1;
        full := full + 1;
      } else {
        result := -1;
      }
    }

    method RemoveItem() returns (result: int, item: int)
      requires Balanced(Value())
      modifies this, slots
      ensures Remove(old(Value())) == Returns(Value(), result, item)
      ensures Balanced(Value())
    {
      RemoveTakesFirst(Value());
      result, item := 0, 0;
      if n > 0 {
        full := full - 1;
        item := slots[head];
        slots[head] := -1;
        head := (head + 1) % slots.Length;
        n := n - 1;
        empty := empty + 1;
      } else {
        result := -1;
      }
    }
  }

  // ---------------------------------------------------------------- producers and consumers

  /** A producer: the items it has made, the last of which it still has to get accepted if its last
      insertion failed. */
  datatype Producer = Producer(made: seq<int>, failed: bool)

  datatype State = State(
    ring: Ring,
    blocked: bool,                 // a thread waits for a semaphore while holding the mutex
    producers: seq<Producer>,
    accepted: seq<(nat, int)>,     // history: accepted items and who made them
    consumed: seq<int>             // history: what consumers took
  )

  datatype Move = Produce(p: nat, roll: int) | Consume

  function Init(size: nat, producers: nat): State
  {
    State(Fresh(size), false, seq(producers, _ => Producer([], false)), [], [])
  }

  /** A producer takes up the item it failed with, or makes a new one. */
  function Made(p: Producer, roll: int): (made: seq<int>)
    ensures made != []
  {
    if p.failed && p.made != [] then p.made else p.made + [roll]
  }

  function Apply(s: State, m: Move): (s': State)
    requires InBounds(s.ring)
    ensures InBounds(s'.ring)
  {
    if s.blocked then s
    else
      match m
      case Produce(p, roll) =>
        if p >= |s.producers| then s
        else
          var made := Made(s.producers[p], roll);
          var item := made[|made| - 1];
          (match Insert(s.ring, item)
           case Blocks => s.(blocked := true)
           case Returns(ring, result, _) =>
             s.(ring := ring, producers := s.producers[p := Producer(made, result != 0)],
                accepted := if result == 0 then s.accepted + [(p, item)] else s.accepted))
      case Consume =>
        match Remove(s.ring)
        case Blocks => s.(blocked := true)
        case Returns(ring, result, item) =>
          s.(ring := ring, consumed := if result == 0 then s.consumed + [item] else s.consumed)
  }

  function Run(s: State, moves: seq<Move>): (s': State)
    requires InBounds(s.ring)
    ensures InBounds(s'.ring)
  {
    if moves == [] then s else Apply(Run(s, moves[..|moves| - 1]), moves[|moves| - 1])
  }

  function Items(log: seq<(nat, int)>): (items: seq<int>)
    ensures |items| == |log|
    ensures forall k :: 0 <= k < |log| ==> items[k] == log[k].1
  {
    if log == [] then [] else Items(log[..|log| - 1]) + [log[|log| - 1].1]
  }

  /** The accepted items that producer p made, in the order of acceptance. */
  function ItemsOf(log: seq<(nat, int)>, p: nat): seq<int>
  {
    if log == [] then []
    else
      var rest, last := ItemsOf(log[..|log| - 1], p), log[|log| - 1];
      if last.0 == p then rest + [last.1] else rest
  }

  /** What of a producer's items should have been accepted. */
  function Due(p: Producer): seq<int>
  {
    if p.failed && p.made != [] then p.made[..|p.made| - 1] else p.made
  }

  /** The buffer refines a queue: consumed and contents make up what was accepted. */
  ghost predicate Ordered(s: State)
    requires Balanced(s.ring)
  {
    && s.consumed + Contents(s.ring) == Items(s.accepted)
    && (forall p :: 0 <= p < |s.producers| ==> ItemsOf(s.accepted, p) == Due(s.producers[p]))
  }

  ghost predicate Inv(s: State)
  {
    !s.blocked && Balanced(s.ring) && Ordered(s)
  }

  lemma LogGrows(log: seq<(nat, int)>, p: nat, item: int)
    ensures Items(log + [(p, item)]) == Items(log) + [item]
    ensures forall q :: ItemsOf(log + [(p, item)], q) == ItemsOf(log, q) + (if q == p then [item] else [])
  {
    assert (log + [(p, item)])[..|log + [(p, item)]| - 1] == log;
  }

  /** Whatever a producer takes up, all it made before is due. */
  lemma NextItem(was: Producer, roll: int)
    ensures var made := Made(was, roll);
            && Due(was) + [made[|made| - 1]] == made
            && Due(Producer(made, true)) == Due(was) && Due(Producer(made, false)) == made
  {
  }

  lemma Accepts(consumed: seq<int>, contents: seq<int>, log: seq<(nat, int)>, p: nat, item: int)
    requires consumed + contents == Items(log)
    ensures consumed + (contents + [item]) == Items(log + [(p, item)])
  {
    LogGrows(log, p, item);
    assert consumed + (contents + [item]) == consumed + contents + [item];
  }

  lemma AcceptedFrom(log: seq<(nat, int)>, producers: seq<Producer>, p: nat, roll: int)
    requires p < |producers|
    requires forall q :: 0 <= q < |producers| ==> ItemsOf(log, q) == Due(producers[q])
    ensures var made := Made(producers[p], roll);
            var log' := log + [(p, made[|made| - 1])];
            forall q :: 0 <= q < |producers| ==>
              ItemsOf(log', q) == Due(producers[p := Producer(made, false)][q])
  {
    var made := Made(producers[p], roll);
    NextItem(producers[p], roll);
    LogGrows(log, p, made[|made| - 1]);
  }

  lemma AcceptKeeps(s: State, p: nat, roll: int, ring: Ring)
    requires Inv(s) && p < |s.producers| && Balanced(ring)
    requires var made := Made(s.producers[p], roll);
             Contents(ring) == Contents(s.ring) + [made[|made| - 1]]
    ensures var made := Made(s.producers[p], roll);
            Inv(s.(ring := ring, producers := s.producers[p := Producer(made, false)],
                   accepted := s.accepted + [(p, made[|made| - 1])]))
  {
    var made := Made(s.producers[p], roll);
    Accepts(s.consumed, Contents(s.ring), s.accepted, p, made[|made| - 1]);
    AcceptedFrom(s.accepted, s.producers, p, roll);
  }

  lemma RefuseKeeps(s: State, p: nat, roll: int)
    requires Inv(s) && p < |s.producers|
    ensures Inv(s.(producers := s.producers[p := Producer(Made(s.producers[p], roll), true)]))
  {
    NextItem(s.producers[p], roll);
  }

  lemma ProduceKeeps(s: State, p: nat, roll: int)
    requires Inv(s) && p < |s.producers|
    ensures Inv(Apply(s, Produce(p, roll)))
  {
    var made := Made(s.producers[p], roll);
    var item := made[|made| - 1];
    InsertAppends(s.ring, item);
    var o := Insert(s.ring, item);
    if o.result == 0 {
      AcceptKeeps(s, p, roll, o.ring);
    } else {
      RefuseKeeps(s, p, roll);
    }
  }

  lemma ConsumeKeeps(s: State)
    requires Inv(s)
    ensures Inv(Apply(s, Consume))
  {
    RemoveTakesFirst(s.ring);
    var o := Remove(s.ring);
    if o.result == 0 {
      assert s.consumed + ([o.item] + Contents(o.ring)) == s.consumed + [o.item] + Contents(o.ring);
    }
  }

  lemma {:induction false} RunKeeps(size: nat, producers: nat, moves: seq<Move>)
    requires size > 0
    ensures var s := Run(Init(size, producers), moves);
            Inv(s) && |s.producers| == producers && |s.ring.slots| == size
  {
    if moves != [] {
      RunKeeps(size, producers, moves[..|moves| - 1]);
      var s := Run(Init(size, producers), moves[..|moves| - 1]);
      match moves[|moves| - 1]
      case Consume =>
        RemoveTakesFirst(s.ring);
        ConsumeKeeps(s);
      case Produce(p, roll) =>
        if p < producers {
          var made := Made(s.producers[p], roll);
          InsertAppends(s.ring, made[|made| - 1]);
          ProduceKeeps(s, p, roll);
        }
    }
  }

  /** Nothing is lost, duplicated or overtaken, in any run of any number of producers and consumers:
      what has been consumed, followed by the n slots from the head on, is what was accepted, in
      order; what was accepted from each producer is what it made, in order, but for an item it is
      still retrying; and nobody ever waits for a semaphore while holding the mutex. */
  lemma FirstInFirstOut(size: nat, producers: nat, moves: seq<Move>)
    requires size > 0
    ensures var s := Run(Init(size, producers), moves);
            && !s.blocked
            && |s.ring.slots| == size && |s.producers| == producers
            && s.ring.n <= size && s.ring.full == s.ring.n && s.ring.empty == size - s.ring.n
            && s.consumed + Window(s.ring.slots, s.ring.head, s.ring.n) == Items(s.accepted)
            && (forall p :: 0 <= p < producers ==> ItemsOf(s.accepted, p) == Due(s.producers[p]))
  {
    RunKeeps(size, producers, moves);
  }
}

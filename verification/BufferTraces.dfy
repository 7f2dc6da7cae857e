/** What a run of producers and consumers leaves in the buffer, told from the schedule: which rolls were
accepted, and what every slot of the ring holds.
*/
module BufferTraces {
  import opened Arithmetic
  import opened BoundedBuffer

  // ---------------------------------------------------------------- what producers produce

  /** The rolls that producer p made items of: those of its turns at which everything it had made before
      had been accepted. */
  ghost function Rolls(s: State, moves: seq<Move>, p: nat): seq<int>
    requires InBounds(s.ring)
  {
    if moves == [] then []
    else
      var before, m := moves[..|moves| - 1], moves[|moves| - 1];
      var rolls := Rolls(s, before, p);
      if m.Produce? && m.p == p && |ItemsOf(Run(s, before).accepted, p)| == |rolls| then rolls + [m.roll] else rolls
  }

  ghost predicate RollsMade(s: State, p: nat, rolls: seq<int>)
  {
    p < |s.producers| && s.producers[p].made == rolls && (s.producers[p].failed ==> rolls != [])
  }

  lemma MoveRolls(s: State, m: Move, p: nat, rolls: seq<int>)
    requires Inv(s) && RollsMade(s, p, rolls)
    ensures RollsMade(Apply(s, m), p,
                      if m.Produce? && m.p == p && |ItemsOf(s.accepted, p)| == |rolls| then rolls + [m.roll] else rolls)
  {
    assert ItemsOf(s.accepted, p) == Due(s.producers[p]);
    if m.Consume? {
      RemoveTakesFirst(s.ring);
    } else if m.p < |s.producers| {
      var made := Made(s.producers[m.p], m.roll);
      InsertAppends(s.ring, made[|made| - 1]);
    }
  }

  lemma {:induction false} RollsAreMade(size: nat, producers: nat, moves: seq<Move>, p: nat)
    requires size > 0 && p < producers
    ensures RollsMade(Run(Init(size, producers), moves), p, Rolls(Init(size, producers), moves, p))
  {
    if moves != [] {
      var s0, before := Init(size, producers), moves[..|moves| - 1];
      RollsAreMade(size, producers, before, p);
      RunKeeps(size, producers, before);
      MoveRolls(Run(s0, before), moves[|moves| - 1], p, Rolls(s0, before, p));
    }
  }

  /** What was accepted from a producer is what it rolled, in order and without a gap, but for the last
      roll while that is still to be accepted. */
  lemma AcceptedAreRolls(size: nat, producers: nat, moves: seq<Move>, p: nat)
    requires size > 0 && p < producers
    ensures var s0 := Init(size, producers);
            var accepted, rolls := ItemsOf(Run(s0, moves).accepted, p), Rolls(s0, moves, p);
            accepted <= rolls && |rolls| <= |accepted| + 1
  {
    RollsAreMade(size, producers, moves, p);
    RunKeeps(size, producers, moves);
  }

  // ---------------------------------------------------------------- what the slots hold

  /** After consumed removals and accepted insertions: the head has moved with the removals, and a slot
      that is not taken is marked if it has ever been taken, and untouched otherwise. */
  ghost predicate Placed(r: Ring, consumed: nat, accepted: nat)
    requires Balanced(r)
  {
    && accepted == consumed + r.n
    && r.head == consumed % |r.slots|
    && (forall k :: r.n <= k < |r.slots| ==>
          var j := Around(r.head, k, |r.slots|);
          r.slots[j] == if j < accepted then -1 else 0)
  }

  lemma EarlyHead(r: Ring, consumed: nat, accepted: nat)
    requires Balanced(r) && Placed(r, consumed, accepted) && consumed < |r.slots|
    ensures r.head == consumed
  {
    WrapsOnce(consumed, |r.slots|);
  }

  lemma InsertPlaces(r: Ring, item: int, consumed: nat, accepted: nat)
    requires Balanced(r) && Placed(r, consumed, accepted) && r.n < |r.slots|
    requires Insert(r, item).Returns? && Balanced(Insert(r, item).ring)
    ensures Placed(Insert(r, item).ring, consumed, accepted + 1)
  {
    var r', size := Insert(r, item).ring, |r.slots|;
    if accepted < size {
      EarlyHead(r, consumed, accepted);
    }
    forall k | r'.n <= k < size
      ensures var j := Around(r'.head, k, size);
              r'.slots[j] == if j < accepted + 1 then -1 else 0
    {
      var j := Around(r.head, k, size);
      assert r'.slots[j] == r.slots[j];
      assert r.slots[j] == if j < accepted then -1 else 0;
    }
  }

  lemma RemovePlaces(r: Ring, consumed: nat, accepted: nat)
    requires Balanced(r) && Placed(r, consumed, accepted) && r.n > 0
    requires Remove(r).Returns? && Balanced(Remove(r).ring)
    ensures Placed(Remove(r).ring, consumed + 1, accepted)
  {
    var r', size := Remove(r).ring, |r.slots|;
    WrapsTwice(consumed, 1, size);
    Wraps(r.head, size);
    if accepted < size {
      EarlyHead(r, consumed, accepted);
    }
    forall k | r'.n <= k < size
      ensures var j := Around(r'.head, k, size);
              r'.slots[j] == if j < accepted then -1 else 0
    {
      var j := Around(r'.head, k, size);
      if k == size - 1 {
        assert j == r.head;
      } else {
        assert j == Around(r.head, k + 1, size) && j != r.head;
      }
    }
  }

  lemma ConsumePlaces(s: State)
    requires Inv(s) && Placed(s.ring, |s.consumed|, |s.accepted|)
    ensures var s' := Apply(s, Consume); Balanced(s'.ring) && Placed(s'.ring, |s'.consumed|, |s'.accepted|)
  {
    RemoveTakesFirst(s.ring);
    if s.ring.n > 0 {
      RemovePlaces(s.ring, |s.consumed|, |s.accepted|);
    }
  }

  lemma ProducePlaces(s: State, p: nat, roll: int)
    requires Inv(s) && Placed(s.ring, |s.consumed|, |s.accepted|) && p < |s.producers|
    ensures var s' := Apply(s, Produce(p, roll)); Balanced(s'.ring) && Placed(s'.ring, |s'.consumed|, |s'.accepted|)
  {
    var made := Made(s.producers[p], roll);
    InsertAppends(s.ring, made[|made| - 1]);
    if s.ring.n < |s.ring.slots| {
      InsertPlaces(s.ring, made[|made| - 1], |s.consumed|, |s.accepted|);
    }
  }

  lemma InitPlaced(size: nat)
    requires size > 0
    ensures Balanced(Fresh(size)) && Placed(Fresh(size), 0, 0)
  {
    WrapsOnce(0, size);
  }

  lemma {:induction false} RunPlaces(size: nat, producers: nat, moves: seq<Move>)
    requires size > 0
    ensures var s := Run(Init(size, producers), moves);
            Balanced(s.ring) && Placed(s.ring, |s.consumed|, |s.accepted|)
  {
    if moves == [] {
      InitPlaced(size);
    } else {
      var before, m := moves[..|moves| - 1], moves[|moves| - 1];
      RunPlaces(size, producers, before);
      RunKeeps(size, producers, before);
      if m.Consume? {
        ConsumePlaces(Run(Init(size, producers), before));
      } else if m.p < producers {
        ProducePlaces(Run(Init(size, producers), before), m.p, m.roll);
      }
    }
  }

  lemma TailPlaced(r: Ring, consumed: nat, accepted: nat)
    requires Balanced(r) && Placed(r, consumed, accepted)
    ensures r.tail == accepted % |r.slots|
  {
    WrapsTwice(consumed, r.n, |r.slots|);
    WrapsOnce(r.head + r.n, |r.slots|);
  }

  /** After every run the head is where the removals have brought it, the tail where the insertions have,
      and every slot that is not taken holds the mark of a removed item, or 0 if no item was ever put
      there. */
  lemma SlotsMarked(size: nat, producers: nat, moves: seq<Move>)
    requires size > 0
    ensures var s := Run(Init(size, producers), moves);
            && Balanced(s.ring) && |s.ring.slots| == size && Placed(s.ring, |s.consumed|, |s.accepted|)
            && s.ring.tail == |s.accepted| % size
  {
    var s := Run(Init(size, producers), moves);
    RunKeeps(size, producers, moves);
    RunPlaces(size, producers, moves);
    TailPlaced(s.ring, |s.consumed|, |s.accepted|);
  }
}

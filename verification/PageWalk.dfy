/** The page-table range macros over unsigned longs that wrap.

An unsigned long is a number below word, the number of values it has. Masking with the complement of
size - 1, for a size that is a power of two, rounds down to a multiple of size; the walks are about any
size that divides word. A range is given by its first address and the address after its last one; that
end is 0 for a range that goes up to the top of the address space, where the macro still has to work.
*/
module PageWalk {
  import opened Arithmetic

  ghost predicate Divides(size: nat, n: nat)
  {
    size > 0 && n % size == 0
  }

  /** The value an unsigned long keeps of x. */
  function Wrap(word: nat, x: int): nat
    requires word > 0
  {
    x % word
  }

  function RoundDown(x: nat, size: nat): nat
    requires size > 0
  {
    x - x % size
  }

  /** The macro's comparison, which takes 0 for the top of the address space. */
  function Earlier(word: nat, boundary: nat, end: nat): nat
    requires word > 0
  {
    if Wrap(word, boundary - 1) < Wrap(word, end - 1) then boundary else end
  }

  /** What pgd_addr_end, pud_addr_end and pmd_addr_end compute; they differ in the size only. */
  function AddrEnd(word: nat, size: nat, addr: nat, end: nat): nat
    requires word > 0 && size > 0
  {
    Earlier(word, RoundDown(Wrap(word, addr + size), size), end)
  }

  // ---------------------------------------------------------------- the next boundary

  /** The first multiple of size above addr, as a number that does not wrap. */
  function Above(addr: nat, size: nat): nat
    requires size > 0
  {
    RoundDown(addr, size) + size
  }

  /** Where a range ends, as a number that does not wrap. */
  function TrueEnd(word: nat, end: nat): nat { if end == 0 then word else end }

  function Min(a: nat, b: nat): nat { if a < b then a else b }

  lemma MultiplesApart(a: nat, b: nat, size: nat)
    requires Divides(size, a) && Divides(size, b) && a < b
    ensures a + size <= b
  {
    var p, q := a / size, b / size;
    assert a == size * p && b == size * q;
    if p < q {
      ProductsGrow(size, p, q);
    } else if q < p {
      ProductsGrow(size, q, p);
    }
  }

  lemma MultiplesOfMultiples(small: nat, big: nat, x: nat)
    requires Divides(small, big) && Divides(big, x)
    ensures Divides(small, x)
  {
    var p, q := big / small, x / big;
    assert x == (small * p) * q == small * (p * q) + 0;
    Quotient(small, p * q, 0);
  }

  lemma AboveIsNext(addr: nat, size: nat)
    requires size > 0
    ensures addr < Above(addr, size) <= addr + size
    ensures Divides(size, Above(addr, size)) && Divides(size, RoundDown(addr, size))
    ensures forall m :: m > addr && Divides(size, m) ==> Above(addr, size) <= m
  {
    var q := addr / size;
    assert RoundDown(addr, size) == size * q + 0;
    assert Above(addr, size) == size * (q + 1) + 0;
    Quotient(size, q, 0);
    Quotient(size, q + 1, 0);
    forall m | m > addr && Divides(size, m)
      ensures Above(addr, size) <= m
    {
      MultiplesApart(RoundDown(addr, size), m, size);
    }
  }

  lemma RoundsBack(up: nat, r: nat, size: nat)
    requires Divides(size, up) && r < size
    ensures RoundDown(up + r, size) == up
  {
    assert up == size * (up / size);
    Quotient(size, up / size, r);
  }

  /** The boundary the macro computes is the next one, wrapped: 0 at the top of the address space. */
  lemma BoundaryWraps(word: nat, size: nat, addr: nat)
    requires Divides(size, word) && addr < word
    ensures Above(addr, size) <= word
    ensures RoundDown(Wrap(word, addr + size), size) == if Above(addr, size) == word then 0 else Above(addr, size)
  {
    var up, r := Above(addr, size), addr % size;
    AboveIsNext(addr, size);
    assert addr + size == up + r;
    WordHasRoom(word, size);
    WrapsOnce(up + r, word);
    if up < word {
      MultiplesApart(up, word, size);
      RoundsBack(up, r, size);
    } else {
      RoundsBack(0, r, size);
    }
  }

  lemma WordHasRoom(word: nat, size: nat)
    requires Divides(size, word) && word > 0
    ensures size <= word
  {
    assert 0 % size == 0;
    MultiplesApart(0, word, size);
  }

  lemma BeforeWraps(word: nat, x: nat)
    requires x < word
    ensures Wrap(word, x - 1) == TrueEnd(word, x) - 1
  {
    if x == 0 {
      assert (-1) % word == word - 1;
    } else {
      WrapsOnce(x - 1, word);
    }
  }

  lemma EarlierIsMin(word: nat, boundary: nat, end: nat)
    requires boundary < word && end < word
    ensures Earlier(word, boundary, end) < word
    ensures TrueEnd(word, Earlier(word, boundary, end)) == Min(TrueEnd(word, boundary), TrueEnd(word, end))
  {
    BeforeWraps(word, boundary);
    BeforeWraps(word, end);
  }

  /** The macro returns the next boundary above addr or the end of the range, whichever comes first,
      even when either of them wraps to 0. */
  lemma AddrEndIsNext(word: nat, size: nat, addr: nat, end: nat)
    requires Divides(size, word) && end < word && addr < TrueEnd(word, end)
    ensures AddrEnd(word, size, addr, end) < word
    ensures TrueEnd(word, AddrEnd(word, size, addr, end)) == Min(Above(addr, size), TrueEnd(word, end))
  {
    BoundaryWraps(word, size, addr);
    AboveIsNext(addr, size);
    EarlierIsMin(word, RoundDown(Wrap(word, addr + size), size), end);
  }

  // ---------------------------------------------------------------- the macro's bits

  function Pow2(k: nat): (p: nat)
    ensures p > 0
  {
    if k == 0 then 1 else 2 * Pow2(k - 1)
  }

  /** The bitwise and of two numbers. */
  function And(x: nat, y: nat): nat
  {
    if x == 0 || y == 0 then 0 else 2 * And(x / 2, y / 2) + (x % 2) * (y % 2)
  }

  /** The macro as it is written, for unsigned longs of bits bits and a size of 1UL << shift: the mask
      is the complement of size - 1. */
  function AddrEndMacro(bits: nat, shift: nat, addr: nat, end: nat): nat
    requires shift <= bits
  {
    var word, size := Pow2(bits), Pow2(shift);
    Pow2Divides(shift, bits);
    var mask := word - 1 - (size - 1);
    Earlier(word, And(Wrap(word, addr + size), mask), end)
  }

  lemma {:induction false} Pow2Divides(shift: nat, bits: nat)
    requires shift <= bits
    ensures Divides(Pow2(shift), Pow2(bits)) && Pow2(shift) <= Pow2(bits)
  {
    if shift < bits {
      Pow2Divides(shift, bits - 1);
      var q := Pow2(bits - 1) / Pow2(shift);
      assert Pow2(bits) == Pow2(shift) * (2 * q) + 0;
      Quotient(Pow2(shift), 2 * q, 0);
    } else {
      Quotient(Pow2(shift), 1, 0);
    }
  }

  lemma {:induction false} AndOnes(x: nat, bits: nat)
    requires x < Pow2(bits)
    ensures And(x, Pow2(bits) - 1) == x
  {
    if x > 0 {
      AndOnes(x / 2, bits - 1);
      assert (Pow2(bits) - 1) / 2 == Pow2(bits - 1) - 1 && (Pow2(bits) - 1) % 2 == 1;
    }
  }

  lemma HalveRemainder(x: nat, size: nat)
    requires size > 0
    ensures x % (2 * size) == 2 * (x / 2 % size) + x % 2
  {
    var q, r := x / 2 / size, x / 2 % size;
    assert x / 2 == size * q + r;
    assert x == (2 * size) * q + (2 * r + x % 2);
    Quotient(2 * size, q, 2 * r + x % 2);
  }

  lemma AndEven(x: nat, half: nat)
    ensures And(x, 2 * half) == 2 * And(x / 2, half)
  {
    if x > 0 && half > 0 {
      assert 2 * half / 2 == half && 2 * half % 2 == 0;
    }
  }

  lemma RoundDownHalves(x: nat, size: nat)
    requires size > 0
    ensures RoundDown(x, 2 * size) == 2 * RoundDown(x / 2, size)
  {
    HalveRemainder(x, size);
  }

  /** Masking rounds down. */
  lemma {:induction false} MaskRoundsDown(x: nat, bits: nat, shift: nat)
    requires shift <= bits && x < Pow2(bits) && Pow2(shift) <= Pow2(bits)
    ensures And(x, Pow2(bits) - Pow2(shift)) == RoundDown(x, Pow2(shift))
  {
    if shift == 0 {
      AndOnes(x, bits);
      WrapsOnce(0, 1);
    } else {
      var half := Pow2(bits - 1) - Pow2(shift - 1);
      MaskRoundsDown(x / 2, bits - 1, shift - 1);
      RoundDownHalves(x, Pow2(shift - 1));
      AndEven(x, half);
    }
  }

  /** For every width and every power of two as the size, the macro computes what the walks below use. */
  lemma MacroRounds(bits: nat, shift: nat, addr: nat, end: nat)
    requires shift <= bits
    ensures Divides(Pow2(shift), Pow2(bits))
    ensures AddrEndMacro(bits, shift, addr, end) == AddrEnd(Pow2(bits), Pow2(shift), addr, end)
  {
    Pow2Divides(shift, bits);
    MaskRoundsDown(Wrap(Pow2(bits), addr + Pow2(shift)), bits, shift);
  }

  // ---------------------------------------------------------------- walks

  /** The ends of the chunks that a loop over the macro cuts a range into. */
  function Walk(word: nat, size: nat, addr: nat, end: nat): (ends: seq<nat>)
    requires Divides(size, word) && end < word && addr < TrueEnd(word, end)
    decreases TrueEnd(word, end) - addr
  {
    AddrEndIsNext(word, size, addr, end);
    AboveIsNext(addr, size);
    var next := AddrEnd(word, size, addr, end);
    [next] + if next == end then [] else Walk(word, size, next, end)
  }

  /** Walking in big chunks, and through each of them in small ones. */
  function Nested(word: nat, big: nat, small: nat, addr: nat, end: nat): (ends: seq<nat>)
    requires Divides(big, word) && Divides(small, word) && end < word && addr < TrueEnd(word, end)
    decreases TrueEnd(word, end) - addr
  {
    AddrEndIsNext(word, big, addr, end);
    AboveIsNext(addr, big);
    var next := AddrEnd(word, big, addr, end);
    Walk(word, small, addr, next) + if next == end then [] else Nested(word, big, small, next, end)
  }

  /** The three levels of a page-table walk: pgd, pud and pmd. */
  function Levels(word: nat, pgd: nat, pud: nat, pmd: nat, addr: nat, end: nat): (ends: seq<nat>)
    requires Divides(pgd, word) && Divides(pud, word) && Divides(pmd, word)
    requires end < word && addr < TrueEnd(word, end)
    decreases TrueEnd(word, end) - addr
  {
    AddrEndIsNext(word, pgd, addr, end);
    AboveIsNext(addr, pgd);
    var next := AddrEnd(word, pgd, addr, end);
    Nested(word, pud, pmd, addr, next) + if next == end then [] else Levels(word, pgd, pud, pmd, next, end)
  }

  lemma SameNext(word: nat, size: nat, addr: nat, mid: nat, end: nat)
    requires Divides(size, word) && Divides(size, mid) && end < word
    requires addr < mid < TrueEnd(word, end)
    ensures AddrEnd(word, size, addr, end) == AddrEnd(word, size, addr, mid)
    ensures addr < AddrEnd(word, size, addr, mid) <= mid
  {
    AddrEndIsNext(word, size, addr, end);
    AddrEndIsNext(word, size, addr, mid);
    AboveIsNext(addr, size);
  }

  /** A walk splits at every boundary inside its range. */
  lemma {:induction false} WalkSplits(word: nat, size: nat, addr: nat, mid: nat, end: nat)
    requires Divides(size, word) && Divides(size, mid) && end < word
    requires addr < mid < TrueEnd(word, end)
    ensures Walk(word, size, addr, end) == Walk(word, size, addr, mid) + Walk(word, size, mid, end)
    decreases mid - addr
  {
    SameNext(word, size, addr, mid, end);
    var next := AddrEnd(word, size, addr, mid);
    if next < mid {
      WalkSplits(word, size, next, mid, end);
      Reassociate([next], Walk(word, size, next, mid), Walk(word, size, mid, end));
    }
  }

  lemma Reassociate(a: seq<nat>, b: seq<nat>, c: seq<nat>)
    ensures a + (b + c) == a + b + c
  {
  }

  /** No boundary lies strictly between lo and hi. */
  ghost predicate Chunk(word: nat, size: nat, lo: nat, hi: nat)
  {
    lo < TrueEnd(word, hi) && forall x :: lo < x < TrueEnd(word, hi) ==> !Divides(size, x)
  }

  ghost predicate Boundary(size: nat, x: nat) { x != 0 && Divides(size, x) }

  /** The ends cut what lies above addr into chunks at boundaries. */
  ghost predicate Chunks(word: nat, size: nat, addr: nat, ends: seq<nat>)
  {
    && (forall i :: 0 <= i < |ends| ==> Chunk(word, size, (if i == 0 then addr else ends[i - 1]), ends[i]))
    && (forall i :: 0 <= i < |ends| - 1 ==> Boundary(size, ends[i]))
  }

  lemma ChunksGrow(word: nat, size: nat, addr: nat, next: nat, rest: seq<nat>)
    requires Chunk(word, size, addr, next) && Boundary(size, next) && Chunks(word, size, next, rest)
    ensures Chunks(word, size, addr, [next] + rest)
  {
    var ends := [next] + rest;
    forall i | 0 <= i < |ends|
      ensures Chunk(word, size, (if i == 0 then addr else ends[i - 1]), ends[i])
      ensures i < |ends| - 1 ==> Boundary(size, ends[i])
    {
      if i > 0 {
        assert ends[i] == rest[i - 1];
        assert ends[i - 1] == if i == 1 then next else rest[i - 2];
        assert Chunk(word, size, (if i - 1 == 0 then next else rest[i - 2]), rest[i - 1]);
        assert i < |ends| - 1 ==> Boundary(size, rest[i - 1]);
      }
    }
  }

  lemma FirstChunk(word: nat, size: nat, addr: nat, end: nat)
    requires Divides(size, word) && end < word && addr < TrueEnd(word, end)
    ensures var next := AddrEnd(word, size, addr, end);
            Chunk(word, size, addr, next) && (next != end ==> Boundary(size, next))
  {
    AddrEndIsNext(word, size, addr, end);
    AboveIsNext(addr, size);
  }

  /** A walk ends exactly at the end of its range, and cuts it at every boundary and nowhere else. */
  lemma {:induction false} WalkReachesEnd(word: nat, size: nat, addr: nat, end: nat)
    requires Divides(size, word) && end < word && addr < TrueEnd(word, end)
    ensures var ends := Walk(word, size, addr, end);
            ends != [] && ends[|ends| - 1] == end && Chunks(word, size, addr, ends)
    decreases TrueEnd(word, end) - addr
  {
    AddrEndIsNext(word, size, addr, end);
    AboveIsNext(addr, size);
    FirstChunk(word, size, addr, end);
    var next := AddrEnd(word, size, addr, end);
    if next != end {
      WalkReachesEnd(word, size, next, end);
      ChunksGrow(word, size, addr, next, Walk(word, size, next, end));
    }
  }

  lemma {:induction false} NestedIsFlat(word: nat, big: nat, small: nat, addr: nat, end: nat)
    requires Divides(big, word) && Divides(small, big) && Divides(small, word)
    requires end < word && addr < TrueEnd(word, end)
    ensures Nested(word, big, small, addr, end) == Walk(word, small, addr, end)
    decreases TrueEnd(word, end) - addr
  {
    AddrEndIsNext(word, big, addr, end);
    AboveIsNext(addr, big);
    var next := AddrEnd(word, big, addr, end);
    if next != end {
      MultiplesOfMultiples(small, big, next);
      NestedIsFlat(word, big, small, next, end);
      WalkSplits(word, small, addr, next, end);
    }
  }

  /** The nested walk over pgd, pud and pmd cuts a range into the same chunks as a flat walk in
      steps of the pmd size. */
  lemma {:induction false} LevelsAreFlat(word: nat, pgd: nat, pud: nat, pmd: nat, addr: nat, end: nat)
    requires Divides(pgd, word) && Divides(pud, pgd) && Divides(pmd, pud)
    requires Divides(pud, word) && Divides(pmd, word)
    requires end < word && addr < TrueEnd(word, end)
    ensures Levels(word, pgd, pud, pmd, addr, end) == Walk(word, pmd, addr, end)
    decreases TrueEnd(word, end) - addr
  {
    AddrEndIsNext(word, pgd, addr, end);
    AboveIsNext(addr, pgd);
    var next := AddrEnd(word, pgd, addr, end);
    NestedIsFlat(word, pud, pmd, addr, next);
    if next != end {
      MultiplesOfMultiples(pmd, pud, pgd);
      MultiplesOfMultiples(pmd, pgd, next);
      LevelsAreFlat(word, pgd, pud, pmd, next, end);
      WalkSplits(word, pmd, addr, next, end);
    }
  }
}

/** The checksum kernels: XOR of several source blocks into a destination block, in lines of eight
longs.

The source has each kernel for one to four sources; here a kernel takes any number of them. The eight
statements of a line are a loop over its lanes. A long may be 32 or 64 bits wide.
*/
module XorKernels {
  import opened Arithmetic

  /** What the kernels use of a machine: the XOR of two longs, the long without bits, and the size of
      a long in bytes. */
  datatype Machine<!W> = Machine(xor: (W, W) -> W, zero: W, longBytes: nat)

  ghost predicate Associative<W(!new)>(f: (W, W) -> W) { forall x, y, z :: f(f(x, y), z) == f(x, f(y, z)) }
  ghost predicate Commutative<W(!new)>(f: (W, W) -> W) { forall x, y :: f(x, y) == f(y, x) }
  ghost predicate SelfInverse<W(!new)>(f: (W, W) -> W, zero: W) { forall x :: f(x, zero) == x && f(x, x) == zero }

  /** The laws of XOR. */
  ghost predicate Lawful<W(!new)>(c: Machine<W>)
  {
    Associative(c.xor) && Commutative(c.xor) && SelfInverse(c.xor, c.zero) && c.longBytes > 0
  }

  function Xor32(x: bv32, y: bv32): bv32 { x ^ y }
  function Xor64(x: bv64, y: bv64): bv64 { x ^ y }

  lemma FromLeft32(x: bv32, y: bv32, z: bv32)
    ensures Xor32(Xor32(x, y), z) == (x ^ y) ^ z
  {
    assert Xor32(x, y) == x ^ y;
  }

  lemma FromRight32(x: bv32, y: bv32, z: bv32)
    ensures Xor32(x, Xor32(y, z)) == (x ^ y) ^ z
  {
    assert Xor32(y, z) == y ^ z;
  }

  lemma Associative32()
    ensures Associative(Xor32)
  {
    forall x: bv32, y: bv32, z: bv32
      ensures Xor32(Xor32(x, y), z) == Xor32(x, Xor32(y, z))
    {
      FromLeft32(x, y, z);
      FromRight32(x, y, z);
    }
  }

  lemma FromLeft64(x: bv64, y: bv64, z: bv64)
    ensures Xor64(Xor64(x, y), z) == (x ^ y) ^ z
  {
    assert Xor64(x, y) == x ^ y;
  }

  lemma FromRight64(x: bv64, y: bv64, z: bv64)
    ensures Xor64(x, Xor64(y, z)) == (x ^ y) ^ z
  {
    assert Xor64(y, z) == y ^ z;
  }

  lemma Associative64()
    ensures Associative(Xor64)
  {
    forall x: bv64, y: bv64, z: bv64
      ensures Xor64(Xor64(x, y), z) == Xor64(x, Xor64(y, z))
    {
      FromLeft64(x, y, z);
      FromRight64(x, y, z);
    }
  }

  /** Longs of either width obey them. */
  lemma LongsLawful()
    ensures Lawful(Machine(Xor32, 0, 4)) && Lawful(Machine(Xor64, 0, 8))
  {
    Associative32();
    Associative64();
  }

  // ---------------------------------------------------------------- what the kernels compute

  /** All blocks have at least n words. */
  ghost predicate Long<W>(blocks: seq<seq<W>>, n: nat)
  {
    forall j :: 0 <= j < |blocks| ==> n <= |blocks[j]|
  }

  /** The XOR of what the blocks have at position i, from left to right. */
  ghost function Sum<W>(c: Machine<W>, blocks: seq<seq<W>>, i: nat): W
    requires Long(blocks, i + 1)
  {
    if blocks == [] then c.zero else c.xor(Sum(c, blocks[..|blocks| - 1], i), blocks[|blocks| - 1][i])
  }

  /** The destination after positions lo to hi have been XORed with the blocks. */
  ghost function Mixed<W>(c: Machine<W>, dest: seq<W>, blocks: seq<seq<W>>, lo: nat, hi: nat): (r: seq<W>)
    requires hi <= |dest| && Long(blocks, hi)
    ensures |r| == |dest|
    ensures forall i :: 0 <= i < |dest| ==>
              r[i] == if lo <= i < hi then c.xor(dest[i], Sum(c, blocks, i)) else dest[i]
  {
    seq(|dest|, i requires 0 <= i < |dest| => if lo <= i < hi then c.xor(dest[i], Sum(c, blocks, i)) else dest[i])
  }

  /** The number of words that bytes bytes make a kernel work on: those of all whole lines of eight
      longs within them, and one line if there is no whole one. */
  ghost predicate Span(longBytes: nat, bytes: nat, words: nat)
  {
    && words > 0 && words % 8 == 0
    && (words == 8 || longBytes * words <= bytes)
    && bytes < longBytes * (words + 8)
  }

  lemma SpanIsUnique(longBytes: nat, bytes: nat, n: nat, m: nat)
    requires Span(longBytes, bytes, n) && Span(longBytes, bytes, m)
    ensures n == m
  {
    if n < m {
      assert n + 8 <= m;
      Monotone(longBytes, n + 8, m);
    } else if m < n {
      assert m + 8 <= n;
      Monotone(longBytes, m + 8, n);
    }
  }

  lemma Monotone(size: nat, p: nat, q: nat)
    requires p <= q
    ensures size * p <= size * q
  {
    if p < q {
      ProductsGrow(size, p, q);
    }
  }

  /** A length that is made of whole lines spans all its longs and no more. */
  lemma WholeLines(longBytes: nat, lines: nat, words: nat)
    requires longBytes > 0 && lines > 0
    ensures Span(longBytes, longBytes * 8 * lines, words) <==> words == 8 * lines
    ensures longBytes * 8 * lines / longBytes == 8 * lines
  {
    var n, bytes := 8 * lines, longBytes * 8 * lines;
    assert bytes == longBytes * n + 0;
    Quotient(longBytes, n, 0);
    Monotone(longBytes, n, n + 8);
    assert longBytes * (n + 8) == bytes + longBytes * 8;
    assert Span(longBytes, bytes, n);
    if Span(longBytes, bytes, words) {
      SpanIsUnique(longBytes, bytes, n, words);
    }
  }

  lemma SpanOf(longBytes: nat, bytes: nat, longs: nat, rest: nat, lines: nat, n: nat)
    requires bytes == longBytes * longs + rest && rest < longBytes
    requires 8 * lines <= longs < 8 * lines + 8
    requires n == 8 * (if lines == 0 then 1 else lines)
    ensures Span(longBytes, bytes, n)
  {
    Quotient(8, if lines == 0 then 1 else lines, 0);
    assert longBytes * (longs + 1) == longBytes * longs + longBytes;
    Monotone(longBytes, longs + 1, n + 8);
    if lines > 0 {
      Monotone(longBytes, n, longs);
    }
  }

  /** How many lines the kernels count, their loops doing one at least. */
  function Lines(longBytes: nat, bytes: nat): nat
    requires longBytes > 0
  {
    var lines := bytes / longBytes / 8;
    if lines == 0 then 1 else lines
  }

  lemma LinesFit(longBytes: nat, bytes: nat)
    requires longBytes > 0
    ensures Span(longBytes, bytes, 8 * Lines(longBytes, bytes))
  {
    var longs := bytes / longBytes;
    Divided(bytes, longBytes);
    SpanOf(longBytes, bytes, longs, bytes % longBytes, longs / 8, 8 * Lines(longBytes, bytes));
  }

  lemma LinesSpan(longBytes: nat, bytes: nat, words: nat)
    requires longBytes > 0 && Span(longBytes, bytes, words)
    ensures words == 8 * Lines(longBytes, bytes)
  {
    LinesFit(longBytes, bytes);
    SpanIsUnique(longBytes, bytes, 8 * Lines(longBytes, bytes), words);
  }

  /** The sources hold the blocks, all blocks have the words, and the destination is no source. */
  ghost predicate Fit<W>(words: nat, dest: array<W>, sources: seq<array<W>>, blocks: seq<seq<W>>)
    reads sources
  {
    && words <= dest.Length && dest !in sources
    && |blocks| == |sources| && Long(blocks, words)
    && (forall j :: 0 <= j < |sources| ==> sources[j][..] == blocks[j])
  }

  lemma OneMoreBlock<W>(c: Machine<W>, blocks: seq<seq<W>>, j: nat, i: nat)
    requires j < |blocks| && Long(blocks, i + 1)
    ensures Sum(c, blocks[..j + 1], i) == c.xor(Sum(c, blocks[..j], i), blocks[j][i])
  {
    assert blocks[..j + 1][..j] == blocks[..j];
  }

  lemma OneMoreLine<W>(c: Machine<W>, dest: seq<W>, blocks: seq<seq<W>>, mid: nat, hi: nat)
    requires mid <= hi <= |dest| && Long(blocks, hi)
    ensures Mixed(c, Mixed(c, dest, blocks, 0, mid), blocks, mid, hi) == Mixed(c, dest, blocks, 0, hi)
  {
  }

  // ---------------------------------------------------------------- one line

  /** The XOR of the sources at position i. */
  method XorAt<W>(c: Machine<W>, sources: seq<array<W>>, i: nat, ghost blocks: seq<seq<W>>) returns (x: W)
    requires |blocks| == |sources| && Long(blocks, i + 1)
    requires forall j :: 0 <= j < |sources| ==> sources[j][..] == blocks[j]
    ensures x == Sum(c, blocks, i)
  {
    x := c.zero;
    for j := 0 to |sources|
      invariant x == Sum(c, blocks[..j], i)
    {
      OneMoreBlock(c, blocks, j, i);
      assert sources[j][i] == sources[j][..][i];
      x := c.xor(x, sources[j][i]);
    }
    assert blocks[..|sources|] == blocks;
  }

  /** A line of the 8regs kernels: each word is updated in memory. */
  method LineInMemory<W>(c: Machine<W>, dest: array<W>, sources: seq<array<W>>, base: nat,
                         ghost blocks: seq<seq<W>>)
    requires Fit(base + 8, dest, sources, blocks)
    modifies dest
    ensures dest[..] == Mixed(c, old(dest[..]), blocks, base, base + 8)
  {
    ghost var was := dest[..];
    for k := 0 to 8
      invariant dest[..] == Mixed(c, was, blocks, base, base + k)
    {
      var x := XorAt(c, sources, base + k, blocks);
      assert dest[base + k] == dest[..][base + k];
      dest[base + k] := c.xor(dest[base + k], x);
    }
  }

  /** What becomes of a word w at position i when the blocks are XORed into it one after another. */
  ghost function Fold<W>(c: Machine<W>, w: W, blocks: seq<seq<W>>, i: nat): W
    requires Long(blocks, i + 1)
  {
    if blocks == [] then w else c.xor(Fold(c, w, blocks[..|blocks| - 1], i), blocks[|blocks| - 1][i])
  }

  ghost function Folded<W>(c: Machine<W>, dest: seq<W>, blocks: seq<seq<W>>, lo: nat, hi: nat): (r: seq<W>)
    requires hi <= |dest| && Long(blocks, hi)
    ensures |r| == |dest|
    ensures forall i :: 0 <= i < |dest| ==> r[i] == if lo <= i < hi then Fold(c, dest[i], blocks, i) else dest[i]
  {
    seq(|dest|, i requires 0 <= i < |dest| => if lo <= i < hi then Fold(c, dest[i], blocks, i) else dest[i])
  }

  /** Staging computes the same as XORing with the sum of the blocks: XOR is associative. */
  lemma {:induction false} FoldIsSum<W(!new)>(c: Machine<W>, w: W, blocks: seq<seq<W>>, i: nat)
    requires Long(blocks, i + 1) && Lawful(c)
    ensures Fold(c, w, blocks, i) == c.xor(w, Sum(c, blocks, i))
  {
    if blocks != [] {
      FoldIsSum(c, w, blocks[..|blocks| - 1], i);
    }
  }

  lemma FoldedIsMixed<W(!new)>(c: Machine<W>, dest: seq<W>, blocks: seq<seq<W>>, lo: nat, hi: nat)
    requires hi <= |dest| && Long(blocks, hi) && Lawful(c)
    ensures Folded(c, dest, blocks, lo, hi) == Mixed(c, dest, blocks, lo, hi)
  {
    forall i | lo <= i < hi
      ensures Fold(c, dest[i], blocks, i) == c.xor(dest[i], Sum(c, blocks, i))
    {
      FoldIsSum(c, dest[i], blocks, i);
    }
  }

  lemma OneMoreFold<W>(c: Machine<W>, w: W, blocks: seq<seq<W>>, j: nat, i: nat)
    requires j < |blocks| && Long(blocks, i + 1)
    ensures Fold(c, w, blocks[..j + 1], i) == c.xor(Fold(c, w, blocks[..j], i), blocks[j][i])
  {
    assert blocks[..j + 1][..j] == blocks[..j];
  }

  /** Register k is the word at base + k after the first j blocks. */
  ghost predicate Staged<W>(c: Machine<W>, d: seq<W>, dest: seq<W>, blocks: seq<seq<W>>, base: nat, j: nat)
    requires base + 8 <= |dest| && Long(blocks, base + 8) && j <= |blocks|
  {
    |d| == 8 && forall k :: 0 <= k < 8 ==> d[k] == Fold(c, dest[base + k], blocks[..j], base + k)
  }

  method AddSource<W>(c: Machine<W>, d: seq<W>, source: array<W>, base: nat, ghost block: seq<W>) returns (r: seq<W>)
    requires |d| == 8 && base + 8 <= |block| && source[..] == block
    ensures |r| == 8 && forall k :: 0 <= k < 8 ==> r[k] == c.xor(d[k], block[base + k])
  {
    r := d;
    for k := 0 to 8
      invariant |r| == 8
      invariant forall i :: 0 <= i < 8 ==> r[i] == if i < k then c.xor(d[i], block[base + i]) else d[i]
    {
      assert source[base + k] == source[..][base + k];
      r := r[k := c.xor(r[k], source[base + k])];
    }
  }

  lemma OneMoreStage<W>(c: Machine<W>, d: seq<W>, r: seq<W>, dest: seq<W>, blocks: seq<seq<W>>, base: nat, j: nat)
    requires base + 8 <= |dest| && Long(blocks, base + 8) && j < |blocks|
    requires Staged(c, d, dest, blocks, base, j)
    requires |r| == 8 && forall k :: 0 <= k < 8 ==> r[k] == c.xor(d[k], blocks[j][base + k])
    ensures Staged(c, r, dest, blocks, base, j + 1)
  {
    forall k | 0 <= k < 8
      ensures r[k] == Fold(c, dest[base + k], blocks[..j + 1], base + k)
    {
      OneMoreFold(c, dest[base + k], blocks, j, base + k);
    }
  }

  /** A line of the 32regs kernels: the words are pulled into registers, every source is XORed into
      the registers in turn, and the registers are stored. */
  method LineInRegisters<W>(c: Machine<W>, dest: array<W>, sources: seq<array<W>>, base: nat,
                            ghost blocks: seq<seq<W>>)
    requires Fit(base + 8, dest, sources, blocks)
    modifies dest
    ensures dest[..] == Folded(c, old(dest[..]), blocks, base, base + 8)
  {
    ghost var was := dest[..];
    var d := dest[base..base + 8];
    for j := 0 to |sources|
      invariant dest[..] == was && Staged(c, d, was, blocks, base, j)
    {
      var r := AddSource(c, d, sources[j], base, blocks[j]);
      OneMoreStage(c, d, r, was, blocks, base, j);
      d := r;
    }
    assert blocks[..|sources|] == blocks;
    for k := 0 to 8
      invariant dest[..] == Folded(c, was, blocks, base, base + k)
    {
      dest[base + k] := d[k];
    }
  }

  // ---------------------------------------------------------------- the kernels

  /** The body of either loop: a line, the pointers moved on, and one line less to do. */
  method Line<W(!new)>(c: Machine<W>, dest: array<W>, sources: seq<array<W>>, base: nat, lines: int,
                       inRegisters: bool, ghost blocks: seq<seq<W>>, ghost was: seq<W>)
    returns (base': nat, lines': int)
    requires Fit(base + 8, dest, sources, blocks) && Lawful(c)
    requires |was| == dest.Length && dest[..] == Mixed(c, was, blocks, 0, base)
    modifies dest
    ensures base' == base + 8 && lines' == lines - 1
    ensures dest[..] == Mixed(c, was, blocks, 0, base')
  {
    if inRegisters {
      FoldedIsMixed(c, dest[..], blocks, base, base + 8);
      LineInRegisters(c, dest, sources, base, blocks);
    } else {
      LineInMemory(c, dest, sources, base, blocks);
    }
    OneMoreLine(c, was, blocks, base, base + 8);
    base', lines' := base + 8, lines - 1;
  }

  /** xor_8regs and xor_32regs: a loop that tests after its body. */
  method Xor<W(!new)>(c: Machine<W>, bytes: nat, dest: array<W>, sources: seq<array<W>>, inRegisters: bool,
                      ghost blocks: seq<seq<W>>, ghost words: nat)
    requires Lawful(c) && Span(c.longBytes, bytes, words) && Fit(words, dest, sources, blocks)
    modifies dest
    ensures dest[..] == Mixed(c, old(dest[..]), blocks, 0, words)
  {
    ghost var was := dest[..];
    LinesSpan(c.longBytes, bytes, words);
    var all := bytes / c.longBytes / 8;
    var lines := all;
    var base := 0;
    base, lines := Line(c, dest, sources, base, lines, inRegisters, blocks, was);
    while lines > 0
      invariant base == 8 * (all - lines) && base <= words
      invariant lines <= 0 ==> base == words
      invariant dest[..] == Mixed(c, was, blocks, 0, base)
    {
      base, lines := Line(c, dest, sources, base, lines, inRegisters, blocks, was);
    }
  }

  /** xor_8regs_p and xor_32regs_p: the loop prefetches the next line and so stops one line short;
      a jump back into its body does the last one. */
  method XorPrefetching<W(!new)>(c: Machine<W>, bytes: nat, dest: array<W>, sources: seq<array<W>>, inRegisters: bool,
                                 ghost blocks: seq<seq<W>>, ghost words: nat)
    requires Lawful(c) && Span(c.longBytes, bytes, words) && Fit(words, dest, sources, blocks)
    modifies dest
    ensures dest[..] == Mixed(c, old(dest[..]), blocks, 0, words)
  {
    ghost var was := dest[..];
    LinesSpan(c.longBytes, bytes, words);
    var all := bytes / c.longBytes / 8;
    var lines := all - 1;
    var base := 0;
    base, lines := Line(c, dest, sources, base, lines, inRegisters, blocks, was);
    while lines > 0
      invariant base == 8 * (all - 1 - lines) && base <= words
      invariant lines < 0 ==> base == words
      invariant dest[..] == Mixed(c, was, blocks, 0, base)
    {
      base, lines := Line(c, dest, sources, base, lines, inRegisters, blocks, was);
    }
    if lines == 0 {
      // goto once_more: the body once again, after which the count is negative and the loop ends
      base, lines := Line(c, dest, sources, base, lines, inRegisters, blocks, was);
    }
  }

  // ---------------------------------------------------------------- recovery

  ghost function Without<W>(data: seq<seq<W>>, m: nat): seq<seq<W>>
    requires m < |data|
  {
    data[..m] + data[m + 1..]
  }

  /** With a block before the last left out, the sum still ends in the last block. */
  lemma SumsEnd<W>(c: Machine<W>, data: seq<seq<W>>, m: nat, i: nat)
    requires m < |data| - 1 && Long(data, i + 1)
    ensures var k := |data| - 1;
            && Long(Without(data, m), i + 1) && Long(Without(data[..k], m), i + 1)
            && Sum(c, data, i) == c.xor(Sum(c, data[..k], i), data[k][i])
            && Sum(c, Without(data, m), i) == c.xor(Sum(c, Without(data[..k], m), i), data[k][i])
  {
    var k := |data| - 1;
    assert Without(data, m)[..k - 1] == Without(data[..k], m);
  }

  lemma WithoutLast<W>(data: seq<seq<W>>)
    requires data != []
    ensures Without(data, |data| - 1) == data[..|data| - 1]
  {
  }

  /** Leaving one block out of the XOR is XORing with it again. */
  lemma {:induction false} SumWithout<W(!new)>(c: Machine<W>, data: seq<seq<W>>, m: nat, i: nat)
    requires m < |data| && Long(data, i + 1) && Lawful(c)
    ensures Long(Without(data, m), i + 1)
    ensures Sum(c, data, i) == c.xor(Sum(c, Without(data, m), i), data[m][i])
  {
    var k := |data| - 1;
    if m < k {
      SumWithout(c, data[..k], m, i);
      SumsEnd(c, data, m, i);
      SwapLast(c, Sum(c, Without(data[..k], m), i), data[m][i], data[k][i]);
    } else {
      WithoutLast(data);
    }
  }

  lemma SwapLast<W(!new)>(c: Machine<W>, x: W, a: W, b: W)
    requires Lawful(c)
    ensures c.xor(c.xor(x, a), b) == c.xor(c.xor(x, b), a)
  {
    assert c.xor(a, b) == c.xor(b, a);
  }

  lemma Cancel<W(!new)>(c: Machine<W>, x: W, a: W)
    requires Lawful(c)
    ensures c.xor(c.xor(c.zero, c.xor(x, a)), x) == a
  {
    SwapLast(c, c.zero, c.xor(x, a), x);
    assert c.xor(c.xor(x, x), a) == c.xor(x, c.xor(x, a));
    assert c.xor(c.zero, a) == c.xor(a, c.zero);
    assert c.xor(c.zero, x) == c.xor(x, c.zero);
  }

  /** Parity recovers any one missing block: zeros XORed with all blocks, and the result with the
      surviving blocks, make the missing block. */
  lemma MissingBlockRecovered<W(!new)>(c: Machine<W>, data: seq<seq<W>>, m: nat, n: nat)
    requires m < |data| && Lawful(c) && forall j :: 0 <= j < |data| ==> |data[j]| == n
    ensures Long(Without(data, m), n)
    ensures var parity := Mixed(c, seq(n, _ => c.zero), data, 0, n);
            Mixed(c, parity, Without(data, m), 0, n) == data[m]
  {
    var parity := Mixed(c, seq(n, _ => c.zero), data, 0, n);
    forall i | 0 <= i < n
      ensures Mixed(c, parity, Without(data, m), 0, n)[i] == data[m][i]
    {
      SumWithout(c, data, m, i);
      Cancel(c, Sum(c, Without(data, m), i), data[m][i]);
    }
  }

  /** The sources' contents. */
  ghost function Blocks<W>(sources: seq<array<W>>): (blocks: seq<seq<W>>)
    reads sources
    ensures |blocks| == |sources|
    ensures forall j :: 0 <= j < |sources| ==> blocks[j] == sources[j][..]
  {
    seq(|sources|, j requires 0 <= j < |sources| reads sources => sources[j][..])
  }

  /** A plain kernel makes the parity of all blocks, from zeros, and a prefetching kernel recovers
      block m from it and the blocks that are left. */
  method Recover<W(!new)>(c: Machine<W>, bytes: nat, data: seq<array<W>>, m: nat,
                          parityInRegisters: bool, recoveryInRegisters: bool)
    returns (block: array<W>)
    requires Lawful(c) && m < |data| && Span(c.longBytes, bytes, data[m].Length)
    requires forall j :: 0 <= j < |data| ==> data[j].Length == data[m].Length
    ensures fresh(block) && block[..] == data[m][..]
  {
    var n := data[m].Length;
    ghost var blocks := Blocks(data);
    var zero := c.zero;
    block := new W[n](_ => zero);
    assert block[..] == seq(n, _ => c.zero);
    Xor(c, bytes, block, data, parityInRegisters, blocks, n);
    MissingBlockRecovered(c, blocks, m, n);
    XorPrefetching(c, bytes, block, data[..m] + data[m + 1..], recoveryInRegisters, Without(blocks, m), n);
  }
}

/**
 * gp_memcpy_align: a word copy unrolled into load/store-multiple blocks, whose head takes the word count
 * modulo 16 and whose loop copies 16 words at a time until the destination reaches its end.
 */
module MemcpyAlign {
  import opened Basics

  /** `k` words moved by one load-multiple and one store-multiple: all are read before any is written. */
  function Block(mem: seq<int>, dst: nat, src: nat, k: nat): (m: seq<int>)
    requires dst + k <= |mem| && src + k <= |mem|
    ensures |m| == |mem|
  {
    seq(|mem|, i requires 0 <= i < |mem| => if dst <= i < dst + k then mem[src + i - dst] else mem[i])
  }

  function CopyBlocks(mem: seq<int>, dst: nat, src: nat, blocks: seq<nat>): (m: seq<int>)
    requires dst + Sum(blocks) <= |mem| && src + Sum(blocks) <= |mem|
    ensures |m| == |mem|
    decreases |blocks|
  {
    if blocks == [] then mem
    else CopyBlocks(Block(mem, dst, src, blocks[0]), dst + blocks[0], src + blocks[0], blocks[1..])
  }

  /** The switch on len / 4 modulo 16: one block up to nine words, two above, a plain store for one word. */
  function HeadBlocks(h: nat): seq<nat>
    requires h < 16
  {
    if h == 0 then [] else if h < 10 then [h] else [h - 8, 8]
  }

  /** The loop, with `rem` bytes between the destination and its end. */
  function LoopBlocks(rem: int): seq<nat>
    decreases rem
  {
    if rem <= 0 then [] else [8, 8] + LoopBlocks(rem - 64)
  }

  /** len >> 2 is an arithmetic shift, and & 15 is modulo 16, for negative lengths too. */
  function Head(len: int): (h: nat)
    ensures h < 16
  {
    len / 4 % 16
  }

  function Blocks(len: int): seq<nat> {
    HeadBlocks(Head(len)) + LoopBlocks(len - 4 * Head(len))
  }

  // ----- how much is copied -----

  lemma HeadSum(h: nat)
    requires h < 16
    ensures Sum(HeadBlocks(h)) == h
  {
    if h >= 10 {
      assert [h - 8, 8][1..] == [8] && [8][1..] == [];
    }
  }

  lemma {:induction false} LoopSum(rem: int)
    ensures Sum(LoopBlocks(rem)) == if rem <= 0 then 0 else (rem + 63) / 64 * 16
    decreases rem
  {
    if rem > 0 {
      LoopSum(rem - 64);
      SumAppend([8, 8], LoopBlocks(rem - 64));
      assert [8, 8][1..] == [8] && [8][1..] == [];
      assert (rem + 63) / 64 == (rem - 64 + 63) / 64 + 1;
    }
  }

  lemma TotalWords(len: int)
    ensures Sum(Blocks(len))
         == Head(len) + (if len - 4 * Head(len) <= 0 then 0 else (len - 4 * Head(len) + 63) / 64 * 16)
  {
    SumAppend(HeadBlocks(Head(len)), LoopBlocks(len - 4 * Head(len)));
    HeadSum(Head(len));
    LoopSum(len - 4 * Head(len));
  }

  /**
   * Exactly len bytes are copied if and only if len is a multiple of 4 and not negative.  Otherwise a
   * length of 4n + r bytes costs a whole extra turn of 16 words, and a negative one still copies a head.
   */
  lemma CopiesExactly(len: int)
    ensures 4 * Sum(Blocks(len)) == len <==> len >= 0 && len % 4 == 0
    ensures len >= 0 && len % 4 != 0 ==> Sum(Blocks(len)) == len / 4 + 16
    ensures len < 0 ==> Sum(Blocks(len)) == Head(len)
  {
    TotalWords(len);
    var n, h := len / 4, Head(len);
    assert n == n / 16 * 16 + h && len == 4 * n + len % 4;
    if len >= 0 {
      assert len - 4 * h == 64 * (n / 16) + len % 4;
    }
  }

  // ----- what is copied -----

  /** The source is not overwritten before it is read, or everything moves in one block. */
  predicate Safe(dst: nat, src: nat, blocks: seq<nat>) {
    dst <= src || dst >= src + Sum(blocks) || |blocks| <= 1
  }

  lemma TwoBlocks(mem: seq<int>, dst: nat, src: nat, k: nat, n: nat)
    requires k <= n && dst + n <= |mem| && src + n <= |mem| && (dst <= src || dst >= src + n)
    ensures Block(Block(mem, dst, src, k), dst + k, src + k, n - k) == Block(mem, dst, src, n)
  {
    var m, r := Block(mem, dst, src, k), Block(mem, dst, src, n);
    var t := Block(m, dst + k, src + k, n - k);
    forall i | 0 <= i < |mem| ensures t[i] == r[i] {
      if dst + k <= i < dst + n {
        assert t[i] == m[src + i - dst] == mem[src + i - dst];
      }
    }
  }

  /** A block copy then equals a simple copy, and nothing else changes. */
  lemma {:induction false} BlocksAreOneCopy(mem: seq<int>, dst: nat, src: nat, blocks: seq<nat>)
    requires dst + Sum(blocks) <= |mem| && src + Sum(blocks) <= |mem| && Safe(dst, src, blocks)
    ensures CopyBlocks(mem, dst, src, blocks) == Block(mem, dst, src, Sum(blocks))
    decreases |blocks|
  {
    if blocks == [] {
      assert Block(mem, dst, src, 0) == mem;
    } else if |blocks| == 1 {
      assert blocks == [blocks[0]];
      Single(mem, dst, src, blocks[0]);
    } else {
      var k, n := blocks[0], Sum(blocks);
      assert n == k + Sum(blocks[1..]);
      BlocksAreOneCopy(Block(mem, dst, src, k), dst + k, src + k, blocks[1..]);
      TwoBlocks(mem, dst, src, k, n);
    }
  }

  lemma Single(mem: seq<int>, dst: nat, src: nat, a: nat)
    requires dst + a <= |mem| && src + a <= |mem|
    ensures Sum([a]) == a && CopyBlocks(mem, dst, src, [a]) == Block(mem, dst, src, a)
  {
    assert [a][1..] == [] && Sum([]) == 0;
  }

  /** For every valid length and any placement without a forward overlap: len bytes, unchanged, and no more. */
  lemma MemcpyIsCopy(mem: seq<int>, dst: nat, src: nat, len: int)
    requires len >= 0 && len % 4 == 0 && dst + len / 4 <= |mem| && src + len / 4 <= |mem|
    requires dst <= src || dst >= src + len / 4
    ensures Sum(Blocks(len)) == len / 4
    ensures var r := CopyBlocks(mem, dst, src, Blocks(len));
      forall i :: 0 <= i < |mem| ==> r[i] == if dst <= i < dst + len / 4 then mem[src + i - dst] else mem[i]
  {
    CopiesExactly(len);
    BlocksAreOneCopy(mem, dst, src, Blocks(len));
  }

  // ----- in place -----

  method LdmStm(mem: array<int>, dst: nat, src: nat, k: nat)
    requires dst + k <= mem.Length && src + k <= mem.Length
    modifies mem
    ensures mem[..] == Block(old(mem[..]), dst, src, k)
  {
    var regs := mem[src..src + k];
    forall i | 0 <= i < k {
      mem[dst + i] := regs[i];
    }
  }

  lemma {:induction false} CopyAppend(mem: seq<int>, dst: nat, src: nat, a: seq<nat>, b: seq<nat>)
    requires dst + Sum(a) + Sum(b) <= |mem| && src + Sum(a) + Sum(b) <= |mem|
    ensures Sum(a + b) == Sum(a) + Sum(b)
    ensures CopyBlocks(mem, dst, src, a + b) == CopyBlocks(CopyBlocks(mem, dst, src, a), dst + Sum(a), src + Sum(a), b)
    decreases |a|
  {
    SumAppend(a, b);
    if a == [] {
      assert a + b == b;
    } else {
      var k, rest := a[0], a[1..];
      SumAppend(rest, b);
      CopyAppend(Block(mem, dst, src, k), dst + k, src + k, rest, b);
      CopyCons(mem, dst, src, k, rest);
      CopyCons(mem, dst, src, k, rest + b);
      assert a == [k] + rest && a + b == [k] + (rest + b);
    }
  }

  lemma CopyCons(mem: seq<int>, dst: nat, src: nat, k: nat, rest: seq<nat>)
    requires dst + k + Sum(rest) <= |mem| && src + k + Sum(rest) <= |mem|
    ensures Sum([k] + rest) == k + Sum(rest)
    ensures CopyBlocks(mem, dst, src, [k] + rest) == CopyBlocks(Block(mem, dst, src, k), dst + k, src + k, rest)
  {
    assert ([k] + rest)[1..] == rest;
  }

  lemma Pair(mem: seq<int>, dst: nat, src: nat, a: nat, b: nat, rest: seq<nat>)
    requires dst + a + b + Sum(rest) <= |mem| && src + a + b + Sum(rest) <= |mem|
    ensures Sum([a, b] + rest) == a + b + Sum(rest)
    ensures CopyBlocks(mem, dst, src, [a, b] + rest)
         == CopyBlocks(Block(Block(mem, dst, src, a), dst + a, src + a, b), dst + a + b, src + a + b, rest)
  {
    assert ([a, b] + rest)[1..] == [b] + rest && ([b] + rest)[1..] == rest;
    assert Sum([b] + rest) == b + Sum(rest);
  }

  /** What the switch does to memory. */
  function HeadImage(mem: seq<int>, dst: nat, src: nat, h: nat): seq<int>
    requires h < 16 && dst + h <= |mem| && src + h <= |mem|
    ensures |HeadImage(mem, dst, src, h)| == |mem|
  {
    if h == 0 then mem
    else if h < 10 then Block(mem, dst, src, h)
    else Block(Block(mem, dst, src, h - 8), dst + (h - 8), src + (h - 8), 8)
  }

  lemma HeadCopy(mem: seq<int>, dst: nat, src: nat, h: nat)
    requires h < 16 && dst + h <= |mem| && src + h <= |mem|
    ensures Sum(HeadBlocks(h)) == h
    ensures CopyBlocks(mem, dst, src, HeadBlocks(h)) == HeadImage(mem, dst, src, h)
  {
    HeadSum(h);
    if h >= 10 {
      Pair(mem, dst, src, h - 8, 8, []);
      assert HeadBlocks(h) == [h - 8, 8] + [];
    } else if h > 0 {
      Single(mem, dst, src, h);
    }
  }

  /** The switch. */
  method CopyHead(mem: array<int>, dst: nat, src: nat, h: nat)
    requires h < 16 && dst + h <= mem.Length && src + h <= mem.Length
    modifies mem
    ensures mem[..] == HeadImage(old(mem[..]), dst, src, h)
  {
    if h >= 10 {
      LdmStm(mem, dst, src, h - 8);
      LdmStm(mem, dst + (h - 8), src + (h - 8), 8);
    } else if h > 0 {
      LdmStm(mem, dst, src, h);
    }
  }

  /** Once the first blocks, n words in all, have turned memory into `image`, the others are left. */
  lemma AfterBlocks(mem: seq<int>, dst: nat, src: nat, a: seq<nat>, b: seq<nat>, n: nat, image: seq<int>)
    requires Ready(|mem|, dst, src, a + b) && Sum(a) == n && dst + n <= |mem| && src + n <= |mem|
    requires CopyBlocks(mem, dst, src, a) == image
    ensures Ready(|image|, dst + n, src + n, b)
    ensures CopyBlocks(image, dst + n, src + n, b) == CopyBlocks(mem, dst, src, a + b)
  {
    SumAppend(a, b);
    CopyAppend(mem, dst, src, a, b);
  }

  /** `dst` and `src` are word indices; the memory is as large as what the copy touches. */
  method Memcpy(mem: array<int>, dst: nat, src: nat, len: int)
    requires Ready(mem.Length, dst, src, Blocks(len))
    modifies mem
    ensures mem[..] == CopyBlocks(old(mem[..]), dst, src, Blocks(len))
  {
    var h := Head(len);
    HeadSum(h);
    SumAppend(HeadBlocks(h), LoopBlocks(len - 4 * h));
    HeadCopy(mem[..], dst, src, h);
    AfterBlocks(mem[..], dst, src, HeadBlocks(h), LoopBlocks(len - 4 * h), h, HeadImage(mem[..], dst, src, h));
    CopyHead(mem, dst, src, h);
    var d, s := dst + h, src + h;
    while 4 * (d - dst) < len
      invariant d - dst == s - src && d >= dst
      invariant Ready(mem.Length, d, s, LoopBlocks(len - 4 * (d - dst)))
      invariant CopyBlocks(mem[..], d, s, LoopBlocks(len - 4 * (d - dst)))
             == CopyBlocks(old(mem[..]), dst, src, Blocks(len))
      decreases len - 4 * (d - dst)
    {
      ghost var rest := LoopBlocks(len - 4 * (d - dst) - 64);
      Turn(mem, d, s, rest);
      d, s := d + 16, s + 16;
    }
  }

  /** The memory reaches as far as the copy. */
  predicate Ready(length: nat, dst: nat, src: nat, blocks: seq<nat>) {
    dst + Sum(blocks) <= length && src + Sum(blocks) <= length
  }

  /** One turn of the loop. */
  method Turn(mem: array<int>, d: nat, s: nat, ghost rest: seq<nat>)
    requires Ready(mem.Length, d, s, [8, 8] + rest)
    modifies mem
    ensures Ready(mem.Length, d + 16, s + 16, rest)
    ensures CopyBlocks(mem[..], d + 16, s + 16, rest) == CopyBlocks(old(mem[..]), d, s, [8, 8] + rest)
  {
    SumAppend([8, 8], rest);
    assert Sum([8, 8]) == 16 by { assert [8, 8][1..] == [8] && [8][1..] == []; }
    Pair(mem[..], d, s, 8, 8, rest);
    LdmStm(mem, d, s, 8);
    LdmStm(mem, d + 8, s + 8, 8);
  }
}

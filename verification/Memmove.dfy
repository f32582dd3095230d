/** Block copies on one memory (common/libc/string/memcpy.c and memmove.c), by words where everything is aligned. */
module Memmove {

  type Byte = x: int | 0 <= x < 256

  const WORD_SIZE := 4

  /** len bytes at src in `was` are now at dst, and nothing else has changed. */
  ghost predicate Copied(was: seq<Byte>, now: seq<Byte>, dst: nat, src: nat, len: nat) {
    && dst + len <= |was| && src + len <= |was| && |now| == |was|
    && (forall i :: dst <= i < dst + len ==> now[i] == was[i - dst + src])
    && (forall i :: 0 <= i < |was| && !(dst <= i < dst + len) ==> now[i] == was[i])
  }

  predicate Aligned(dst: nat, src: nat, len: nat) {
    dst % WORD_SIZE == 0 && src % WORD_SIZE == 0 && len % WORD_SIZE == 0
  }

  /** One word, read whole before it is written; the processor wants word addresses to be aligned. */
  method CopyWord(mem: array<Byte>, dst: nat, src: nat)
    requires dst % WORD_SIZE == 0 && src % WORD_SIZE == 0
    requires dst + WORD_SIZE <= mem.Length && src + WORD_SIZE <= mem.Length
    modifies mem
    ensures Copied(old(mem[..]), mem[..], dst, src, WORD_SIZE)
  {
    var b0, b1, b2, b3 := mem[src], mem[src + 1], mem[src + 2], mem[src + 3];
    mem[dst], mem[dst + 1], mem[dst + 2], mem[dst + 3] := b0, b1, b2, b3;
  }

  lemma CopiedByte(was: seq<Byte>, dst: nat, src: nat)
    requires dst < |was| && src < |was|
    ensures Copied(was, was[dst := was[src]], dst, src, 1)
  {
  }

  /** In terms of the two blocks: the destination holds what the source held. */
  lemma CopiedBlock(was: seq<Byte>, now: seq<Byte>, dst: nat, src: nat, len: nat)
    requires Copied(was, now, dst, src, len)
    ensures now == was[..dst] + was[src..src + len] + was[dst + len..]
  {
  }

  /** Forwards: the next piece read has not been written, because the source is not below the destination. */
  lemma Extend(was: seq<Byte>, mid: seq<Byte>, now: seq<Byte>, dst: nat, src: nat, done: nat, k: nat)
    requires Copied(was, mid, dst, src, done) && Copied(mid, now, dst + done, src + done, k)
    requires dst <= src || src + done + k <= dst
    ensures Copied(was, now, dst, src, done + k)
  {
  }

  /** Backwards: the next piece read lies below everything written, because the source is not above the destination. */
  lemma ExtendBack(was: seq<Byte>, mid: seq<Byte>, now: seq<Byte>, dst: nat, src: nat, done: nat, k: nat)
    requires src <= dst && Copied(was, mid, dst + k, src + k, done) && Copied(mid, now, dst, src, k)
    ensures Copied(was, now, dst, src, k + done)
  {
  }

  lemma CopiedNothing(was: seq<Byte>, dst: nat, src: nat)
    requires dst <= |was| && src <= |was|
    ensures Copied(was, was, dst, src, 0)
  {
  }

  /** Copies forwards; what is not yet copied is never overwritten when dst is not above src. */
  method Memcpy(mem: array<Byte>, dst: nat, src: nat, len: nat) returns (r: nat)
    requires dst + len <= mem.Length && src + len <= mem.Length
    requires dst <= src || src + len <= dst
    modifies mem
    ensures r == dst && Copied(old(mem[..]), mem[..], dst, src, len)
    ensures mem[..] == old(mem[..dst] + mem[src..src + len] + mem[dst + len..])
  {
    hide Copied;
    ghost var was := mem[..];
    CopiedNothing(was, dst, src);
    if Aligned(dst, src, len) {
      var i := 0;
      while i < len / WORD_SIZE
        invariant i <= len / WORD_SIZE && Copied(was, mem[..], dst, src, i * WORD_SIZE)
      {
        ghost var mid := mem[..];
        CopyWord(mem, dst + i * WORD_SIZE, src + i * WORD_SIZE);
        Extend(was, mid, mem[..], dst, src, i * WORD_SIZE, WORD_SIZE);
        i := i + 1;
      }
    } else {
      var i := 0;
      while i < len
        invariant i <= len && Copied(was, mem[..], dst, src, i)
      {
        ghost var mid := mem[..];
        mem[dst + i] := mem[src + i];
        assert mem[..] == mid[dst + i := mid[src + i]];
        CopiedByte(mid, dst + i, src + i);
        Extend(was, mid, mem[..], dst, src, i, 1);
        i := i + 1;
      }
    }
    CopiedBlock(was, mem[..], dst, src, len);
    r := dst;
  }

  /** For every overlap of the two blocks, the destination receives the bytes the source had. */
  method Move(mem: array<Byte>, dst: nat, src: nat, len: nat) returns (r: nat)
    requires dst + len <= mem.Length && src + len <= mem.Length
    modifies mem
    ensures r == dst && Copied(old(mem[..]), mem[..], dst, src, len)
    ensures mem[..] == old(mem[..dst] + mem[src..src + len] + mem[dst + len..])
  {
    hide Copied;
    ghost var was := mem[..];
    CopiedNothing(was, dst + len, src + len);
    if dst < src {
      r := Memcpy(mem, dst, src, len);
      return;
    }
    if Aligned(dst, src, len) {
      var i := len / WORD_SIZE;
      while i > 0
        invariant 0 <= i <= len / WORD_SIZE
        invariant Copied(was, mem[..], dst + i * WORD_SIZE, src + i * WORD_SIZE, len - i * WORD_SIZE)
      {
        ghost var mid := mem[..];
        i := i - 1;
        CopyWord(mem, dst + i * WORD_SIZE, src + i * WORD_SIZE);
        ExtendBack(was, mid, mem[..], dst + i * WORD_SIZE, src + i * WORD_SIZE, len - (i + 1) * WORD_SIZE, WORD_SIZE);
      }
    } else {
      var i := len;
      while i > 0
        invariant 0 <= i <= len && Copied(was, mem[..], dst + i, src + i, len - i)
      {
        ghost var mid := mem[..];
        i := i - 1;
        mem[dst + i] := mem[src + i];
        assert mem[..] == mid[dst + i := mid[src + i]];
        CopiedByte(mid, dst + i, src + i);
        ExtendBack(was, mid, mem[..], dst + i, src + i, len - (i + 1), 1);
      }
    }
    CopiedBlock(was, mem[..], dst, src, len);
    r := dst;
  }
}

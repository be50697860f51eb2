/** Byte-addressed reads and writes over a block device, os-l3/kernel/src/dev/dev_sd.c. */
module SdDisk {
  import opened Bits
  import opened Tiling

  const WORD32: nat := 0x1_0000_0000

  /** `ROUNDDOWN(a, sz)`: `a & ~(sz - 1)` on 32-bit words. */
  function RoundDown(a: nat, sz: nat): nat
    requires 0 < sz <= WORD32
  {
    And(a, WORD32 - 1 - (sz - 1))
  }

  lemma Power32()
    ensures Pow2(32) == WORD32
  {
    DoublePower(8, 256);
    DoublePower(16, 0x1_0000);
  }

  /** For a power of two, rounding down gives the largest multiple not above. */
  lemma RoundDownValue(a: nat, k: nat)
    requires a < WORD32 && k <= 32
    ensures Pow2(k) <= WORD32 && RoundDown(a, Pow2(k)) == a / Pow2(k) * Pow2(k)
  {
    hide Pow2, And, Ones, Shl;
    Power32();
    var w := 32 - k;
    Pow2Add(w, k);
    Pow2Mono(k, 32);
    OnesValue(w);
    ShlIsProduct(Ones(w), k);
    SumOfFactors(Pow2(w) - 1, 1, Pow2(k));
    Pow2Add(k, w);
    QuotientBelow(a, Pow2(k), Pow2(w));
    AndHighMask(a, w, k);
  }

  /** The disk with some bytes replaced. */
  function Spliced(disk: seq<int>, offset: nat, data: seq<int>): seq<int>
    requires offset + |data| <= |disk|
  {
    disk[..offset] + data + disk[offset + |data|..]
  }

  /** A read of any range after a write: the written bytes where the ranges meet, the old ones elsewhere.
      In particular a read of the written range gives the data back. */
  lemma ReadAfterWrite(disk: seq<int>, offset: nat, data: seq<int>, at: nat, count: nat)
    requires offset + |data| <= |disk| && at + count <= |disk|
    ensures |Spliced(disk, offset, data)| == |disk|
    ensures Spliced(disk, offset, data)[offset..offset + |data|] == data
    ensures forall i | at <= i < at + count ::
              Spliced(disk, offset, data)[i] == if offset <= i < offset + |data| then data[i - offset] else disk[i]
    ensures at + count <= offset || offset + |data| <= at ==>
              Spliced(disk, offset, data)[at..at + count] == disk[at..at + count]
  {}

  /** Two writes one after the other are one. */
  lemma SplicedTwice(disk: seq<int>, offset: nat, data: seq<int>, more: seq<int>)
    requires offset + |data| + |more| <= |disk|
    ensures |Spliced(disk, offset, data)| == |disk|
    ensures Spliced(Spliced(disk, offset, data), offset + |data|, more) == Spliced(disk, offset, data + more)
  {}

  lemma SplicedNone(disk: seq<int>, offset: nat)
    requires offset <= |disk|
    ensures Spliced(disk, offset, []) == disk
  {}

  lemma SplicedNext(disk: seq<int>, offset: nat, data: seq<int>, i: nat)
    requires offset + |data| <= |disk| && i < |data|
    ensures |Spliced(disk, offset, data[..i])| == |disk|
    ensures Spliced(disk, offset, data[..i])[offset + i := data[i]] == Spliced(disk, offset, data[..i + 1])
  {
    assert data[..i + 1] == data[..i] + [data[i]];
  }

  lemma BlockBounds(offset: nat, length: nat, m: nat)
    requires m > 0 && length % m == 0 && offset < length
    ensures var st := offset / m * m;
            st % m == 0 && st / m * m == st && st <= offset < st + m && st + m <= length
  {
    var q := offset / m;
    assert offset == q * m + offset % m;
    DivUnique(q * m, m, q, 0);
    AlignedGap(q * m, length, m);
  }

  class Sd {
    const blksz: nat
    ghost const shift: nat
    /** The disk's bytes. */
    const disk: array<int>
    /** The buffer for one block. */
    const buf: array<int>

    predicate WholeBlocks()
      requires blksz > 0
    {
      disk.Length % blksz == 0
    }

    predicate Valid() {
      && disk != buf && buf.Length == blksz > 0 && WholeBlocks() && disk.Length < WORD32 && blksz <= WORD32
    }

    ghost predicate PowerOfTwo() {
      blksz == Pow2(shift) && shift <= 32
    }

    /** `sd_init`, on a disk of whole blocks whose size is a power of two. */
    constructor (shift: nat, content: seq<int>)
      requires shift <= 32 && |content| < WORD32 && |content| % Pow2(shift) == 0
      ensures Valid() && PowerOfTwo() && disk[..] == content && blksz == Pow2(shift)
    {
      this.shift, blksz := shift, Pow2(shift);
      disk := new int[|content|](i requires 0 <= i < |content| => content[i]);
      buf := new int[Pow2(shift)](i => 0);
      new;
      Power32();
      Pow2Mono(shift, 32);
    }

    /** A block of the disk begins at the given byte. */
    predicate IsBlock(st: nat)
      requires blksz > 0
    {
      st % blksz == 0 && st / blksz * blksz == st && st + blksz <= disk.Length
    }

    /** The start of the block of a byte. */
    lemma BlockOf(offset: nat)
      requires Valid() && PowerOfTwo() && offset < disk.Length
      ensures var st := RoundDown(offset, blksz); IsBlock(st) && st <= offset < st + blksz
    {
      hide RoundDown;
      RoundDownValue(offset, shift);
      BlockBounds(offset, disk.Length, blksz);
    }

    /** The block after another one. */
    lemma BlockAfter(st: nat)
      requires Valid() && IsBlock(st) && st + blksz < disk.Length
      ensures IsBlock(st + blksz)
    {
      DivUnique(blksz, blksz, 1, 0);
      AlignedSum(st, blksz, blksz);
      MultipleOf(st + blksz, blksz);
      AlignedGap(st + blksz, disk.Length, blksz);
    }

    /** `blk_read` of one block. */
    method BlkRead(blkno: nat)
      requires Valid() && blkno * blksz + blksz <= disk.Length
      modifies buf
      ensures buf[..] == disk[blkno * blksz..blkno * blksz + blksz]
    {
      var start := blkno * blksz;
      for i := 0 to blksz
        invariant forall j | 0 <= j < i :: buf[j] == disk[start + j]
      {
        buf[i] := disk[start + i];
      }
    }

    /** `blk_write` of one block. */
    method BlkWrite(blkno: nat)
      requires Valid() && blkno * blksz + blksz <= disk.Length
      modifies disk
      ensures disk[..] == Spliced(old(disk[..]), blkno * blksz, buf[..])
    {
      var start := blkno * blksz;
      for i := 0 to blksz
        invariant disk[..] == Spliced(old(disk[..]), start, buf[..i])
      {
        assert buf[..i + 1] == buf[..i] + [buf[i]];
        disk[start + i] := buf[i];
      }
      assert buf[..blksz] == buf[..];
    }

    /** `memcpy` into the block buffer. */
    method CopyIn(at: nat, data: seq<int>)
      requires Valid() && at + |data| <= blksz
      modifies buf
      ensures buf[..] == Spliced(old(buf[..]), at, data)
    {
      hide Spliced;
      SplicedNone(buf[..], at);
      for i := 0 to |data|
        invariant buf[..] == Spliced(old(buf[..]), at, data[..i])
      {
        SplicedNext(old(buf[..]), at, data, i);
        buf[at + i] := data[i];
      }
      assert data[..|data|] == data;
    }

    /** `blk_read(sd->buf, st / sd->blksz, 1)`. */
    method Load(st: nat)
      requires Valid() && IsBlock(st)
      modifies buf
      ensures buf[..] == disk[st..st + blksz] && disk[..] == old(disk[..])
    {
      BlkRead(st / blksz);
    }

    /** `blk_write(sd->buf, st / sd->blksz, 1)`. */
    method Store(st: nat)
      requires Valid() && IsBlock(st)
      modifies disk
      ensures disk[..] == Spliced(old(disk[..]), st, buf[..]) && buf[..] == old(buf[..])
    {
      BlkWrite(st / blksz);
    }

    /** `sd_read`: exactly the bytes asked for. */
    method Read(start: nat, count: nat) returns (data: seq<int>)
      requires Valid() && PowerOfTwo() && start + count <= disk.Length
      modifies buf
      ensures disk[..] == old(disk[..]) && data == disk[start..start + count]
    {
      hide IsBlock, RoundDown, PowerOfTwo, WholeBlocks;
      var offset: nat, pos: nat, st: nat := start, 0, RoundDown(start, blksz);
      data := [];
      if count > 0 {
        BlockOf(start);
      }
      while pos < count
        invariant pos <= count && disk[..] == old(disk[..]) && data == disk[start..start + pos]
        invariant pos < count ==> offset == start + pos && IsBlock(st) && st <= offset < st + blksz
      {
        var n := blksz - (offset - st);
        if n > count - pos {
          n := count - pos;
        }
        BlockInDisk(st);
        Load(st);
        ReadPart(disk[..], st, blksz, buf[..], start, pos, n, offset);
        data := data + buf[offset - st..offset - st + n];
        pos := pos + n;
        offset := st + blksz;
        if pos < count {
          BlockAfter(st);
        }
        st := offset;
      }
    }

    lemma BlockInDisk(st: nat)
      requires Valid() && IsBlock(st)
      ensures st + blksz <= disk.Length
    {}

    /** One round of `sd_write`: part of a block. */
    method WritePart(st: nat, offset: nat, part: seq<int>)
      requires Valid() && IsBlock(st) && st <= offset && offset - st + |part| <= blksz
      modifies disk, buf
      ensures offset + |part| <= disk.Length && disk[..] == Spliced(old(disk[..]), offset, part)
    {
      hide Spliced;
      if |part| < blksz {
        Load(st);
      }
      BlockSpliced(disk[..], st, blksz, buf[..], offset, part);
      CopyIn(offset - st, part);
      Store(st);
    }

    /** `sd_write`: exactly the bytes of the range change, to the data. */
    method Write(start: nat, data: seq<int>)
      requires Valid() && PowerOfTwo() && start + |data| <= disk.Length
      modifies disk, buf
      ensures disk[..] == Spliced(old(disk[..]), start, data)
      ensures forall i: nat | i < disk.Length ::
                disk[i] == if start <= i < start + |data| then data[i - start] else old(disk[i])
    {
      hide IsBlock, RoundDown, PowerOfTwo, Spliced, WholeBlocks;
      var offset: nat, pos: nat, st: nat := start, 0, RoundDown(start, blksz);
      if data != [] {
        BlockOf(start);
      }
      SplicedNone(disk[..], start);
      assert data[..0] == [];
      while pos < |data|
        invariant pos <= |data| && disk[..] == Spliced(old(disk[..]), start, data[..pos])
        invariant pos < |data| ==> offset == start + pos && IsBlock(st) && st <= offset < st + blksz
      {
        var n := blksz - (offset - st);
        if n > |data| - pos {
          n := |data| - pos;
        }
        BlockInDisk(st);
        SplicedTwice(old(disk[..]), start, data[..pos], data[pos..pos + n]);
        assert data[..pos] + data[pos..pos + n] == data[..pos + n];
        WritePart(st, offset, data[pos..pos + n]);
        pos := pos + n;
        offset := st + blksz;
        if pos < |data| {
          BlockAfter(st);
        }
        st := offset;
      }
      assert data[..|data|] == data;
      ReadAfterWrite(old(disk[..]), start, data, 0, disk.Length);
      assert forall i: nat | i < disk.Length :: disk[i] == disk[..][i] && old(disk[i]) == old(disk[..])[i];
    }
  }

  /** The part of a block that continues a read. */
  lemma ReadPart(disk: seq<int>, st: nat, blksz: nat, block: seq<int>, start: nat, pos: nat, n: nat, offset: nat)
    requires st + blksz <= |disk| && block == disk[st..st + blksz] && st <= offset && offset == start + pos
    requires offset - st + n <= blksz
    ensures disk[start..start + pos] + block[offset - st..offset - st + n] == disk[start..start + (pos + n)]
  {
    var at := offset - st;
    var part, wanted := block[at..at + n], disk[offset..offset + n];
    forall i | 0 <= i < n
      ensures part[i] == wanted[i]
    {
      assert block[at + i] == disk[st + (at + i)];
    }
    assert part == wanted;
    assert disk[start..start + (pos + n)] == disk[start..offset] + disk[offset..offset + n];
  }

  /** Reading a block, changing a part of it and writing it back changes that part of the disk; a part
      that is the whole block needs no read. */
  lemma BlockSpliced(disk: seq<int>, st: nat, blksz: nat, block: seq<int>, offset: nat, part: seq<int>)
    requires st + blksz <= |disk| && |block| == blksz && st <= offset && offset - st + |part| <= blksz
    requires block == disk[st..st + blksz] || |part| == blksz
    ensures |Spliced(block, offset - st, part)| == blksz
    ensures Spliced(disk, st, Spliced(block, offset - st, part)) == Spliced(disk, offset, part)
  {}
}

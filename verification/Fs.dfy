/** class `Fs` of tools/mkfs.py: one byte array, a bump allocator and an inode table, updated in place. */
module Fs {
  import opened Bytes
  import opened S5Reader
  import opened FileStore
  import opened FsModel
  import opened RunProgress
  import opened OnDisk
  import opened FreeList
  import opened Image

  class Fs {
    const nblocks: nat
    const iblocks: nat
    const firstData: nat
    const ninodes: nat
    const now: nat
    const data: array<byte>
    var nextBlock: nat
    var nextIno: nat
    var inodes: map<nat, Inode>
    var nfree: nat
    var free: seq<nat>
    var tfree: nat
    ghost var stored: seq<Stored>

    constructor (nblocks: nat, ninodes: nat, now: nat)
      requires nblocks <= 0xffff_ffff && now <= 0xffff_ffff
      ensures Valid() && fresh(data) && Model() == Init(nblocks, ninodes) && this.now == now
    {
      this.nblocks := nblocks;
      this.iblocks := (ninodes + 15) / 16;
      this.firstData := 2 + (ninodes + 15) / 16;
      this.ninodes := (ninodes + 15) / 16 * 16;
      this.now := now;
      this.data := new byte[nblocks * 1024](_ => 0);
      this.nextBlock := 2 + (ninodes + 15) / 16;
      this.nextIno := 2;
      this.inodes := map[];
      this.nfree, this.free, this.tfree := 0, [], 0;
      this.stored := [];
    }

    ghost function Model(): State
      reads this
    {
      State(nblocks, ninodes, nextBlock, nextIno, inodes, stored)
    }

    ghost predicate Shape()
      reads this
    {
      && ninodes == 16 * iblocks
      && firstData == 2 + iblocks
      && firstData <= nextBlock
      && data.Length == nblocks * 1024
      && nblocks <= 0xffff_ffff && now <= 0xffff_ffff
    }

    /** While the tree is being built: every stored file is held in its run, and no byte outside the runs is set. */
    ghost predicate Valid()
      reads this, data
    {
      && Shape()
      && Coupled(data[..], firstData, nextBlock, stored)
    }

    /** `self.data[off:off + len(buf)] = buf` */
    method Assign(off: nat, buf: seq<byte>)
      requires off + |buf| <= data.Length
      modifies data
      ensures data[..] == Splice(old(data[..]), off, buf)
    {
      forall k | 0 <= k < |buf| {
        data[off + k] := buf[k];
      }
    }

    method Put(blk: nat, buf: seq<byte>)
      requires |buf| <= 1024
      requires Shape() && blk < nblocks
      modifies data
      ensures data[..] == Splice(old(data[..]), blk * 1024, buf)
    {
      Assign(blk * 1024, buf);
    }

    method AllocBlock() returns (r: Checked<nat>)
      requires Shape()
      modifies this`nextBlock
      ensures Shape()
      ensures old(nextBlock) >= nblocks ==> r == Failure(ImageFull) && nextBlock == old(nextBlock)
      ensures old(nextBlock) < nblocks ==> r == Success(old(nextBlock)) && nextBlock == old(nextBlock) + 1
    {
      if nextBlock >= nblocks {
        return Failure(ImageFull);
      }
      r := Success(nextBlock);
      nextBlock := nextBlock + 1;
    }

    /** Allocate the next block of a run and put its content there. */
    method PutNext(buf: seq<byte>, ghost d0: seq<byte>, ghost lo: nat, ghost c: seq<byte>, ghost i: nat)
      returns (r: Checked<nat>)
      requires Shape() && nextBlock == lo + i && |buf| <= 1024
      requires Progress(d0, data[..], lo, c, i)
      requires Pad(buf, 1024) == BlockContent(lo, c, i)
      modifies this`nextBlock, data
      ensures Shape()
      ensures lo + i >= nblocks ==> r == Failure(ImageFull)
      ensures lo + i < nblocks ==>
        r == Success(lo + i) && nextBlock == lo + i + 1 && Progress(d0, data[..], lo, c, i + 1)
    {
      hide Progress, Pad, BlockContent;
      var b :- AllocBlock();
      ghost var d := data[..];
      Put(b, buf);
      ProgressStep(d0, d, lo, c, i, buf);
      return Success(b);
    }

    /** The data blocks of `content`, in order. */
    method StoreBlocks(content: seq<byte>, ghost d0: seq<byte>) returns (r: Checked<seq<nat>>)
      requires Shape() && Progress(d0, data[..], nextBlock, content, 0)
      modifies this`nextBlock, data
      ensures Shape()
      ensures content != [] && old(nextBlock) + NBlocks(content) > nblocks ==> r == Failure(ImageFull)
      ensures content == [] || old(nextBlock) + NBlocks(content) <= nblocks ==>
        && nextBlock == old(nextBlock) + NBlocks(content)
        && r == Success(Range(old(nextBlock), nextBlock))
        && Progress(d0, data[..], old(nextBlock), content, NBlocks(content))
    {
      hide Progress, Slice, Pad, Blk;
      ghost var lo := nextBlock;
      var blocks: seq<nat> := [];
      for i := 0 to NBlocks(content)
        invariant Shape() && nextBlock == lo + i && (i > 0 ==> nextBlock <= nblocks)
        invariant blocks == Range(lo, lo + i)
        invariant Progress(d0, data[..], lo, content, i)
      {
        var buf := Slice(content, i * 1024, (i + 1) * 1024);
        assert Pad(buf, 1024) == BlockContent(lo, content, i);
        var b :- PutNext(buf, d0, lo, content, i);
        RangeSnoc(lo, lo + i);
        blocks := blocks + [b];
      }
      return Success(blocks);
    }

    /** One indirect block of the run. */
    method StorePointers(xs: seq<nat>, ghost d0: seq<byte>, ghost lo: nat, ghost c: seq<byte>, ghost i: nat)
      returns (r: Checked<nat>)
      requires Shape() && nextBlock == lo + i && |xs| <= 256
      requires i >= NBlocks(c) && xs == RunPtrs(lo, NBlocks(c), i)
      requires Progress(d0, data[..], lo, c, i)
      modifies this`nextBlock, data
      ensures Shape()
      ensures lo + i >= nblocks ==> r == Failure(ImageFull)
      ensures lo + i < nblocks ==>
        r == Success(lo + i) && nextBlock == lo + i + 1 && Progress(d0, data[..], lo, c, i + 1)
    {
      PointerBlock(lo, c, i);
      r := PutNext(Words(xs), d0, lo, c, i);
    }

    /** The inner blocks of the double-indirect tree over the blocks past the first 266. */
    method StoreInner(deep: seq<nat>, ghost d0: seq<byte>, ghost lo: nat, ghost c: seq<byte>)
      returns (r: Checked<seq<nat>>)
      requires Shape() && NBlocks(c) > 266 && nextBlock == lo + NBlocks(c) + 1
      requires deep == Range(lo + 266, lo + NBlocks(c))
      requires Progress(d0, data[..], lo, c, NBlocks(c) + 1)
      modifies this`nextBlock, data
      ensures Shape()
      ensures var k := Min(Inners(NBlocks(c)), 257);
        if lo + NBlocks(c) + 1 + k > nblocks then r == Failure(ImageFull)
        else if k == 257 then r == Failure(TripleIndirect)
        else (
          && r == Success(OuterPtrs(lo, NBlocks(c)))
          && nextBlock == lo + NBlocks(c) + 1 + k
          && Progress(d0, data[..], lo, c, NBlocks(c) + 1 + k))
    {
      hide Progress, BlockContent, Blk, Words, Pad, Range, Slice, InnerPtrs;
      ghost var n := NBlocks(c);
      var rest, outer := deep, [];
      ghost var j := 0;
      while rest != []
        invariant Shape() && nextBlock == lo + n + 1 + j && |outer| == j <= Min(Inners(n), 256)
        invariant j > 0 ==> nextBlock <= nblocks
        invariant outer == Range(lo + n + 1, lo + n + 1 + j)
        invariant rest == Range(lo + 266 + 256 * j, lo + n)
        invariant Progress(d0, data[..], lo, c, n + 1 + j)
        decreases |rest|
      {
        InnerChunk(lo, n, j);
        var chunk := Slice(rest, 0, 256);
        rest := Slice(rest, 256, |rest|);
        var b :- StorePointers(chunk, d0, lo, c, n + 1 + j);
        RangeSnoc(lo + n + 1, lo + n + 1 + j);
        outer := outer + [b];
        j := j + 1;
        if |outer| > 256 {
          return Failure(TripleIndirect);
        }
      }
      return Success(outer);
    }

    /** The double-indirect tree. */
    method StoreDouble(deep: seq<nat>, ghost d0: seq<byte>, ghost lo: nat, ghost c: seq<byte>)
      returns (r: Checked<nat>)
      requires Shape() && NBlocks(c) > 266 && nextBlock == lo + NBlocks(c) + 1
      requires deep == Range(lo + 266, lo + NBlocks(c))
      requires Progress(d0, data[..], lo, c, NBlocks(c) + 1)
      modifies this`nextBlock, data
      ensures Shape()
      ensures var n := NBlocks(c);
        if n > MAX_BLOCKS then
          r == Failure(if lo + n + 258 > nblocks then ImageFull else TripleIndirect)
        else if lo + Total(n) > nblocks then r == Failure(ImageFull)
        else r == Success(lo + Total(n) - 1) && nextBlock == lo + Total(n) && Progress(d0, data[..], lo, c, Total(n))
    {
      hide Progress, BlockContent, Blk, Words, Pad;
      var outer :- StoreInner(deep, d0, lo, c);
      r := StorePointers(outer, d0, lo, c, NBlocks(c) + 1 + Inners(NBlocks(c)));
    }

    /** All blocks of `content`: data, then pointers. Returns the addresses the inode is to carry. */
    method StoreRun(content: seq<byte>, prev: seq<nat>, ghost d0: seq<byte>) returns (r: Checked<seq<nat>>)
      requires Shape() && Progress(d0, data[..], nextBlock, content, 0) && |prev| == 13
      modifies this`nextBlock, data
      ensures Shape()
      ensures match StoreError(old(Model()), NBlocks(content))
        case Some(e) => r == Failure(e)
        case None =>
          && r == Success(NewAddrs(prev, old(nextBlock), NBlocks(content)))
          && nextBlock == old(nextBlock) + Total(NBlocks(content))
          && Progress(d0, data[..], old(nextBlock), content, Total(NBlocks(content)))
    {
      hide Progress, BlockContent, Blk, Words, Pad, Range, Slice, Direct, NewAddrs, Inners;
      ghost var lo, n := nextBlock, NBlocks(content);
      var blocks :- StoreBlocks(content, d0);
      // ten direct
      var addr := AssignDirect(blocks, prev);
      RunParts(lo, n);
      var rest := Slice(blocks, 10, |blocks|);
      if rest == [] {
        AddrsShort(prev, lo, n);
        return Success(addr);
      }
      // single indirect
      var first := Slice(rest, 0, 256);
      rest := Slice(rest, 256, |rest|);
      var ib :- StorePointers(first, d0, lo, content, n);
      addr := addr[10 := ib];
      if rest == [] {
        AddrsMiddle(prev, lo, n);
        return Success(addr);
      }
      // double indirect
      var db :- StoreDouble(rest, d0, lo, content);
      addr := addr[11 := db];
      AddrsLong(prev, lo, n);
      return Success(addr);
    }

    method AssignDirect(blocks: seq<nat>, prev: seq<nat>) returns (addr: seq<nat>)
      requires |prev| == 13
      ensures addr == Direct(prev, blocks)
    {
      addr := prev;
      for i := 0 to Min(10, |blocks|)
        invariant |addr| == 13
        invariant forall k :: 0 <= k < 13 ==> addr[k] == if k < i then blocks[k] else prev[k]
      {
        addr := addr[i := blocks[i]];
      }
    }

    method StoreData(ino: nat, content: seq<byte>) returns (r: Checked<()>)
      requires Valid() && ino in inodes && |inodes[ino].addr| == 13
      modifies this`nextBlock, this`inodes, this`stored, data
      ensures match FsModel.StoreData(old(Model()), ino, content)
        case Failure(e) => r == Failure(e)
        case Success(s) => r.Success? && Valid() && Model() == s
    {
      ghost var d0, lo := data[..], nextBlock;
      inodes := inodes[ino := inodes[ino].(size := |content|)];
      ProgressStart(d0, firstData, stored, lo, content);
      hide Progress, Coupled;
      var addr :- StoreRun(content, inodes[ino].addr, d0);
      inodes := inodes[ino := inodes[ino].(addr := addr)];
      stored := stored + [Stored(ino, lo, content)];
      RunCoupled(d0, data[..], firstData, old(stored), Stored(ino, lo, content));
      return Success(());
    }

    // --- inodes ---------------------------------------------------------------------

    method AllocInode(mode: nat) returns (r: Checked<nat>)
      requires Valid()
      modifies this`nextIno, this`inodes
      ensures match FsModel.AllocInode(old(Model()), mode)
        case Failure(e) => r == Failure(e)
        case Success(s) => r == Success(old(nextIno)) && Valid() && Model() == s
    {
      hide Coupled;
      var n := nextIno;
      nextIno := nextIno + 1;
      if n >= ninodes {
        return Failure(OutOfInodes);
      }
      inodes := inodes[n := Inode(mode, 1, 0, 0, 0, NoAddrs())];
      return Success(n);
    }

    method PackInode(ino: Inode) returns (r: Checked<seq<byte>>)
      requires |ino.addr| == 13 && now <= 0xffff_ffff
      ensures r == if Packable(ino) then Success(PackedInode(ino, now)) else Failure(Unencodable)
    {
      var addr := new byte[40](_ => 0);
      for i := 0 to 13
        invariant forall k :: 0 <= k < 3 * i ==> addr[k] == AddrByte(ino.addr, k)
        invariant addr[39] == 0
      {
        var a := ino.addr[i];
        addr[i * 3] := a % 256;
        addr[i * 3 + 1] := a / 256 % 256;
        addr[i * 3 + 2] := a / 65536 % 256;
        ThreeBytes(ino.addr, i);
      }
      hide AddrByte, InodeHead;
      if ino.mode >= 0x1_0000 || ino.nlink >= 0x8000 || ino.uid >= 0x1_0000 || ino.gid >= 0x1_0000
        || ino.size >= 0x1_0000_0000 {
        return Failure(Unencodable);
      }
      assert addr[39] == AddrByte(ino.addr, 39) by {
        LastByte(ino.addr);
      }
      assert addr[..] == AddrField(ino.addr);
      return Success(InodeHead(ino) + addr[..] + (LE32(now) + LE32(now) + LE32(now)));
    }

    /** Fill the i-list, or stop at an inode some field of which does not fit. */
    method WriteInodes() returns (r: Checked<()>)
      requires Shape() && firstData <= nblocks
      requires forall n :: n in inodes ==> |inodes[n].addr| == 13
      modifies data
      ensures r.Success? <==> forall n :: n in inodes && 1 <= n <= ninodes ==> Packable(inodes[n])
      ensures r.Failure? ==> r == Failure(Unencodable)
      ensures r.Success? ==> IList(data[..], inodes, ninodes, now)
      ensures forall k :: 0 <= k < data.Length && !(2048 <= k < firstData * 1024) ==> data[k] == old(data[k])
    {
      hide PackedInode, Packable, SlotsTo, Splice;
      ghost var d0 := data[..];
      SlotsNone(d0, inodes, now);
      for n := 1 to ninodes + 1
        invariant forall m :: m in inodes && 1 <= m < n ==> Packable(inodes[m])
        invariant SlotsTo(data[..], inodes, n, now)
        invariant forall k :: 0 <= k < data.Length && !(2048 <= k < firstData * 1024) ==> data[..][k] == d0[k]
      {
        var blob := Zeros(64);
        if n in inodes {
          blob :- PackInode(inodes[n]);
        }
        var off := 2048 + (n - 1) * 64;
        NextSlot(data[..], inodes, n, now);
        Assign(off, blob);
      }
      SlotsDone(data[..], inodes, ninodes, now);
      return Success(());
    }

    // --- free list --------------------------------------------------------------------

    method BFree(bno: nat)
      requires Shape() && nfree <= 50 == |free| && (nfree == 50 ==> bno < nblocks)
      modifies this`nfree, this`free, data
      ensures (data[..], Cache(nfree, free)) == Free(old(data[..]), old(Cache(nfree, free)), bno)
    {
      if nfree == 50 {
        Put(bno, SaveBlock(Cache(nfree, free)));
        nfree := 0;
      }
      free := free[nfree := bno];
      nfree := nfree + 1;
    }

    /** Chain the blocks from `nextBlock` up, the last one first, below a terminating 0. */
    method BuildFreeList()
      requires Shape() && nextBlock <= nblocks
      modifies this`nfree, this`free, this`tfree, data
      ensures CacheFits(Cache(nfree, free))
      ensures Represents(data[..], Cache(nfree, free), FreeStack(nextBlock, nblocks))
      ensures tfree == nblocks - nextBlock
      ensures SameBelow(old(data[..]), data[..], nextBlock * 1024)
    {
      hide Represents, SaveBlock, Free, FreeStack, CacheFits, SameBelow;
      nfree, free, tfree := 0, NoBlocks(), 0;
      ghost var d0 := data[..];
      BFree(0);
      FreeStart(d0, nblocks, nextBlock * 1024);
      for b := nblocks downto nextBlock
        invariant Shape() && tfree == nblocks - b && nfree <= 50 == |free|
        invariant CacheFits(Cache(nfree, free)) && SameBelow(d0, data[..], nextBlock * 1024)
        invariant Represents(data[..], Cache(nfree, free), FreeStack(b, nblocks))
      {
        ghost var d, fl := data[..], Cache(nfree, free);
        FreeNext(d0, d, fl, b, nextBlock, nblocks);
        BFree(b);
        CacheSize(Cache(nfree, free));
        tfree := tfree + 1;
      }
    }

    // --- superblock ---------------------------------------------------------------------

    /** `struct.pack_into` at `off`. */
    static method PackInto(sb: array<byte>, off: nat, buf: seq<byte>)
      requires off + |buf| <= sb.Length
      modifies sb
      ensures sb[..] == Splice(old(sb[..]), off, buf)
    {
      forall k | 0 <= k < |buf| {
        sb[off + k] := buf[k];
      }
    }

    ghost function SuperNow(): Super
      reads this
    {
      SuperOf(Model(), Cache(nfree, free), now)
    }

    /** The sizes and the two lists; an inode number of more than 16 bits does not fit. */
    method PackLists(sb: array<byte>, freeIno: seq<nat>, ghost s: Super) returns (ok: bool)
      requires |free| == 50 && |freeIno| <= 100 && sb[..] == Zeros(512)
      requires s.isize == iblocks + 2 && s.fsize == nblocks && s.nfree == nfree && s.free == free && s.inos == freeIno
      modifies sb
      ensures ok <==> forall i :: 0 <= i < |freeIno| ==> freeIno[i] < 0x1_0000
      ensures ok ==> sb[..] == SuperLists(s)
    {
      hide LE16, LE32, Words, Words16, Splice;
      PackInto(sb, 0, LE16(iblocks + 2));
      PackInto(sb, 4, LE32(nblocks));
      PackInto(sb, 8, LE16(nfree));
      ghost var base := sb[..];
      SpliceNothing(base, 12);
      for i := 0 to 50
        invariant sb[..] == Splice(base, 12, Words(free[..i]))
      {
        PackInto(sb, 12 + i * 4, LE32(free[i]));
        NextWord(base, 12, free, i);
      }
      assert free[..50] == free;
      PackInto(sb, 212, LE16(|freeIno|));
      base := sb[..];
      SpliceNothing(base, 214);
      for i := 0 to |freeIno|
        invariant forall j :: 0 <= j < i ==> freeIno[j] < 0x1_0000
        invariant sb[..] == Splice(base, 214, Words16(freeIno[..i]))
      {
        if freeIno[i] >= 0x1_0000 {
          return false;
        }
        PackInto(sb, 214 + i * 2, LE16(freeIno[i]));
        NextWord16(base, 214, freeIno, i);
      }
      assert freeIno[..|freeIno|] == freeIno;
      return true;
    }

    method WriteSuperblock() returns (r: Checked<()>)
      requires Shape() && nextBlock <= nblocks && nextIno <= ninodes + 1
      requires CacheFits(Cache(nfree, free))
      requires tfree == nblocks - nextBlock && 1024 <= data.Length
      modifies data
      ensures r.Success? <==> SuperFits(SuperNow())
      ensures r.Failure? ==> r == Failure(Unencodable)
      ensures r.Success? ==> data[..] == Splice(old(data[..]), 512, SuperBytes(SuperNow()))
    {
      hide LE16, LE32, SuperLists, Splice, Slice, Range;
      var freeIno := Slice(Range(nextIno, ninodes + 1), 0, 100);
      var sb := new byte[512](_ => 0);
      assert sb[..] == Zeros(512);
      ghost var s := SuperNow();
      assert s.inos == freeIno;
      if iblocks + 2 >= 0x1_0000 {
        return Failure(Unencodable);
      }
      var ok := PackLists(sb, freeIno, s);
      if !ok {
        return Failure(Unencodable);
      }
      if ninodes - nextIno + 1 >= 0x1_0000 {
        return Failure(Unencodable);
      }
      PackInto(sb, 420, LE32(now));
      PackInto(sb, 432, LE32(tfree));
      PackInto(sb, 436, LE16(ninodes - nextIno + 1));
      PackInto(sb, 438, ROOT_NAME);
      PackInto(sb, 444, PACK_NAME);
      PackInto(sb, 504, LE32(FS_MAGIC));
      PackInto(sb, 508, LE32(FS_2B));
      assert sb[..] == SuperSplices(s);
      SplicesAre(s);
      Assign(512, sb[..]);
      return Success(());
    }
  }
}

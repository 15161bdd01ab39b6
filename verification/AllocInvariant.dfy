/** What every step of `build` keeps of the allocation of inodes and blocks. */
module AllocInvariant {
  import opened Bytes
  import opened FileStore
  import opened FsModel

  // --- allocation -----------------------------------------------------------

  ghost predicate IsStored(s: State, n: nat) {
    exists k :: 0 <= k < |s.stored| && s.stored[k].ino == n
  }

  ghost predicate FileOk(s: State, f: Stored) {
    && f.ino in s.inodes
    && NBlocks(f.content) <= MAX_BLOCKS
    && s.inodes[f.ino].addr == Addrs(f.lo, NBlocks(f.content))
    && s.inodes[f.ino].size == |f.content|
  }

  /** Where the run of file `k` starts, or where the next one would. */
  function RunStart(s: State, k: nat): nat
    requires k <= |s.stored|
  {
    if k == 0 then s.FirstData() else s.stored[k - 1].End()
  }

  /** The runs of the stored files tile `[FirstData, nextBlock)` in order. */
  ghost predicate RunsTile(s: State) {
    && (forall k {:trigger RunStart(s, k)} :: 0 <= k < |s.stored| ==> s.stored[k].lo == RunStart(s, k))
    && s.nextBlock == RunStart(s, |s.stored|)
    && (s.nextBlock <= s.nblocks || s.nextBlock == s.FirstData())
  }

  ghost predicate FilesOk(s: State) {
    && (forall k {:trigger FileOk(s, s.stored[k])} :: 0 <= k < |s.stored| ==> FileOk(s, s.stored[k]))
    && (forall j, k :: 0 <= j < k < |s.stored| ==> s.stored[j].ino != s.stored[k].ino)
  }

  /** Inode numbers are handed out from 2 up; an inode belongs to user and group 0; one with no content has no block
      address past `addr[0]`. */
  ghost predicate InodesOk(s: State) {
    && 2 <= s.nextIno
    && (forall n :: n in s.inodes <==> 2 <= n < s.nextIno)
    && (forall n :: n in s.inodes ==> |s.inodes[n].addr| == 13 && s.inodes[n].uid == 0 && s.inodes[n].gid == 0)
    && (forall n {:trigger IsStored(s, n)} :: n in s.inodes && !IsStored(s, n) ==>
          s.inodes[n].size == 0 && s.inodes[n].addr == NoAddrs()[0 := s.inodes[n].addr[0]])
  }

  ghost predicate AllocOk(s: State) {
    RunsTile(s) && FilesOk(s) && InodesOk(s)
  }

  lemma InitOk(nblocks: nat, ninodes: nat)
    ensures AllocOk(Init(nblocks, ninodes))
  {
  }

  /** Whether `n` has content depends only on the log. */
  lemma SameLog(s: State, s': State)
    requires s'.stored == s.stored
    ensures forall n :: IsStored(s', n) <==> IsStored(s, n)
  {
    forall n
      ensures IsStored(s', n) <==> IsStored(s, n)
    {
      if IsStored(s, n) {
        var k :| 0 <= k < |s.stored| && s.stored[k].ino == n;
        assert s'.stored[k].ino == n;
      }
    }
  }

  lemma LogAvoids(s: State, n: nat)
    requires !IsStored(s, n)
    ensures forall k :: 0 <= k < |s.stored| ==> s.stored[k].ino != n
  {
  }

  lemma FreshNotStored(s: State)
    requires AllocOk(s)
    ensures !IsStored(s, s.nextIno) && s.nextIno !in s.inodes
  {
    hide Addrs, NBlocks, NoAddrs, RunsTile;
    assert s.nextIno !in s.inodes;
    forall k | 0 <= k < |s.stored|
      ensures s.stored[k].ino in s.inodes
    {
      assert FileOk(s, s.stored[k]);
    }
  }

  lemma RunsTileSame(s: State, s': State)
    requires RunsTile(s) && s'.stored == s.stored && s'.nextBlock == s.nextBlock
    requires s'.nblocks == s.nblocks && s'.ninodes == s.ninodes
    ensures RunsTile(s')
  {
    hide NBlocks, Total;
    assert forall k :: 0 <= k <= |s.stored| ==> RunStart(s', k) == RunStart(s, k);
  }

  /** The inodes of stored files keep their addresses and sizes; others may come and go. */
  ghost predicate KeepsFiles(s: State, inodes: map<nat, Inode>) {
    forall k :: 0 <= k < |s.stored| ==>
      var n := s.stored[k].ino;
      n in s.inodes ==> n in inodes && inodes[n].addr == s.inodes[n].addr && inodes[n].size == s.inodes[n].size
  }

  lemma FilesKept(s: State, s': State)
    requires FilesOk(s) && s'.stored == s.stored && KeepsFiles(s, s'.inodes)
    ensures FilesOk(s')
  {
    hide Addrs, NBlocks;
    assert forall k :: 0 <= k < |s.stored| ==> FileOk(s, s.stored[k]);
  }

  lemma InodeAdded(s: State, s': State, i: Inode)
    requires InodesOk(s) && s'.stored == s.stored
    requires s'.nextIno == s.nextIno + 1 && s'.inodes == s.inodes[s.nextIno := i]
    requires i.size == 0 && i.addr == NoAddrs() && i.uid == 0 && i.gid == 0
    ensures InodesOk(s')
  {
    SameLog(s, s');
    hide IsStored;
  }

  lemma AllocInodeOk(s: State, mode: nat)
    requires AllocOk(s) && AllocInode(s, mode).Success?
    ensures AllocOk(AllocInode(s, mode).value)
    ensures !IsStored(AllocInode(s, mode).value, s.nextIno)
  {
    var s' := AllocInode(s, mode).value;
    hide RunsTile, FilesOk, InodesOk, NoAddrs, IsStored;
    FreshNotStored(s);
    SameLog(s, s');
    RunsTileSame(s, s');
    FilesKept(s, s');
    InodeAdded(s, s', Inode(mode, 1, 0, 0, 0, NoAddrs()));
  }

  /** Only `mode` and `nlink` may change. */
  ghost predicate SameFiles(a: map<nat, Inode>, b: map<nat, Inode>) {
    && (forall n :: n in a <==> n in b)
    && (forall n :: n in a ==> b[n] == a[n].(mode := b[n].mode, nlink := b[n].nlink))
  }

  lemma InodesRetouched(s: State, s': State)
    requires InodesOk(s) && s'.stored == s.stored && s'.nextIno == s.nextIno
    requires SameFiles(s.inodes, s'.inodes)
    ensures InodesOk(s')
  {
    SameLog(s, s');
    hide IsStored;
  }

  lemma RetouchOk(s: State, inodes: map<nat, Inode>)
    requires AllocOk(s) && SameFiles(s.inodes, inodes)
    ensures AllocOk(s.(inodes := inodes))
  {
    var s' := s.(inodes := inodes);
    hide RunsTile, FilesOk, InodesOk;
    RunsTileSame(s, s');
    FilesKept(s, s');
    InodesRetouched(s, s');
  }

  lemma InodeGivenDevice(s: State, s': State, n: nat, dev: nat)
    requires InodesOk(s) && s'.stored == s.stored && s'.nextIno == s.nextIno
    requires n in s.inodes && !IsStored(s, n)
    requires s'.inodes == s.inodes[n := s.inodes[n].(addr := s.inodes[n].addr[0 := dev])]
    ensures InodesOk(s')
  {
    SameLog(s, s');
    hide IsStored;
    var a := s.inodes[n].addr;
    assert a[0 := dev] == NoAddrs()[0 := dev];
  }

  /** A device number in the `addr[0]` of a file that has no content. */
  lemma DeviceOk(s: State, n: nat, dev: nat)
    requires AllocOk(s) && n in s.inodes && !IsStored(s, n) && |s.inodes[n].addr| == 13
    ensures AllocOk(s.(inodes := s.inodes[n := s.inodes[n].(addr := s.inodes[n].addr[0 := dev])]))
  {
    var s' := s.(inodes := s.inodes[n := s.inodes[n].(addr := s.inodes[n].addr[0 := dev])]);
    LogAvoids(s, n);
    hide RunsTile, FilesOk, InodesOk, IsStored;
    RunsTileSame(s, s');
    FilesKept(s, s');
    InodeGivenDevice(s, s', n, dev);
  }

  lemma StoreRunsTile(s: State, s': State, f: Stored)
    requires RunsTile(s) && s'.stored == s.stored + [f] && f.lo == s.nextBlock && s'.nextBlock == f.End()
    requires s'.nblocks == s.nblocks && s'.ninodes == s.ninodes
    requires s'.nextBlock <= s.nblocks || s'.nextBlock == s.nextBlock
    ensures RunsTile(s')
  {
    hide NBlocks, Total;
    forall k | 0 <= k < |s'.stored|
      ensures s'.stored[k].lo == RunStart(s', k)
    {
      assert k > 0 ==> s'.stored[k - 1] == s.stored[k - 1];
      if k < |s.stored| {
        assert s.stored[k].lo == RunStart(s, k);
        assert s'.stored[k] == s.stored[k];
      }
    }
  }

  /** What `store_data` does to a file that had no content. */
  lemma StoreDataEffect(s: State, n: nat, content: seq<byte>)
    requires n in s.inodes && s.inodes[n].addr == NoAddrs()
    requires FsModel.StoreData(s, n, content).Success?
    ensures NBlocks(content) <= MAX_BLOCKS
    ensures var f := Stored(n, s.nextBlock, content);
      FsModel.StoreData(s, n, content).value == s.(
        nextBlock := f.End(),
        inodes := s.inodes[n := s.inodes[n].(size := |content|, addr := Addrs(f.lo, NBlocks(content)))],
        stored := s.stored + [f])
    ensures var s' := FsModel.StoreData(s, n, content).value;
      s'.nextBlock <= s'.nblocks || s'.nextBlock == s.nextBlock
  {
    assert NewAddrs(NoAddrs(), s.nextBlock, NBlocks(content)) == Addrs(s.nextBlock, NBlocks(content));
  }

  /** `store_data` succeeds exactly on contents of at most (10 + 256 + 65536) * 1024 bytes that still fit the image. */
  lemma StoreSucceedsWhen(s: State, n: nat, content: seq<byte>)
    requires n in s.inodes && |s.inodes[n].addr| == 13
    ensures FsModel.StoreData(s, n, content).Success? <==>
      && |content| <= (10 + 256 + 65536) * 1024
      && (content == [] || s.nextBlock + Total(NBlocks(content)) <= s.nblocks)
  {
    hide Total;
  }

  lemma FileAdded(s: State, s': State, f: Stored)
    requires FilesOk(s) && !IsStored(s, f.ino) && s'.stored == s.stored + [f]
    requires forall n :: n in s.inodes && n != f.ino ==> n in s'.inodes && s'.inodes[n] == s.inodes[n]
    requires FileOk(s', f)
    ensures FilesOk(s')
  {
    LogAvoids(s, f.ino);
    hide Addrs, NBlocks, IsStored;
    forall k | 0 <= k < |s'.stored|
      ensures FileOk(s', s'.stored[k])
    {
      if k < |s.stored| {
        assert FileOk(s, s.stored[k]) && s'.stored[k] == s.stored[k];
      }
    }
  }

  lemma LogGrew(s: State, s': State, f: Stored)
    requires s'.stored == s.stored + [f]
    ensures IsStored(s', f.ino)
    ensures forall n :: IsStored(s, n) ==> IsStored(s', n)
    ensures forall n :: IsStored(s', n) ==> IsStored(s, n) || n == f.ino
  {
    assert s'.stored[|s.stored|] == f;
    forall n | IsStored(s, n)
      ensures IsStored(s', n)
    {
      var k :| 0 <= k < |s.stored| && s.stored[k].ino == n;
      assert s'.stored[k].ino == n;
    }
  }

  lemma InodeFilled(s: State, s': State, f: Stored)
    requires InodesOk(s) && f.ino in s.inodes && s'.stored == s.stored + [f] && s'.nextIno == s.nextIno
    requires f.ino in s'.inodes && |s'.inodes[f.ino].addr| == 13
    requires s'.inodes[f.ino].uid == s.inodes[f.ino].uid && s'.inodes[f.ino].gid == s.inodes[f.ino].gid
    requires s'.inodes == s.inodes[f.ino := s'.inodes[f.ino]]
    ensures InodesOk(s')
  {
    LogGrew(s, s', f);
    hide IsStored;
  }

  lemma StoreDataOk(s: State, n: nat, content: seq<byte>)
    requires AllocOk(s) && n in s.inodes && !IsStored(s, n) && s.inodes[n].addr == NoAddrs()
    requires FsModel.StoreData(s, n, content).Success?
    ensures AllocOk(FsModel.StoreData(s, n, content).value)
  {
    var s' := FsModel.StoreData(s, n, content).value;
    var f := Stored(n, s.nextBlock, content);
    StoreDataEffect(s, n, content);
    hide RunsTile, FilesOk, InodesOk, IsStored, FsModel.StoreData, NBlocks, Total, NoAddrs;
    StoreRunsTile(s, s', f);
    FileAdded(s, s', f);
    InodeFilled(s, s', f);
  }
}

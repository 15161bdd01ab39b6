/** An input that takes `build` past block 2^24, given an `Fs` with 512 inodes: 254 files of the largest size, all
    zeros. The tree builds and every number fits its field, but the root directory comes to lie past the limit, and
    the reader finds an empty filesystem. */
module WideImage {
  import opened Bytes
  import opened S5Reader
  import opened FileStore
  import opened FsModel
  import opened TreeModel
  import opened AllocInvariant
  import opened TreeInvariant
  import opened TreeRuns
  import opened TreeFinish
  import opened OnDisk
  import opened FreeList
  import opened Image
  import opened RoundTrip
  import BuildOutcome
  import WalkComplete

  const COPIES: nat := 254
  const NBLOCKS: nat := 16779278
  const BIG: nat := 67381248
  const BIG_RUN: nat := 66060
  const ROOT_AT: nat := 16779274

  function BigFile(): HostFile {
    HostFile("f", false, Zeros(BIG))
  }

  function Copies(k: nat): (r: seq<HostFile>)
    ensures |r| == k && forall i :: 0 <= i < k ==> r[i] == BigFile()
  {
    seq(k, _ => BigFile())
  }

  function Host(): seq<Visit> {
    [Visit("/", Copies(COPIES))]
  }

  function Start(): State {
    Init(NBLOCKS, 512)
  }

  // --- the build -----------------------------------------------------------------------------

  /** Entries that can all be packed, the third of them the first file's. */
  ghost predicate EntriesFit(ents: seq<Entry>, k: nat) {
    && |ents| == 2 + k
    && (forall i :: 0 <= i < |ents| ==> Dirent(ents[i]).Success?)
    && (k > 0 ==> ents[2] == Entry(3, "f"))
  }

  ghost predicate FsAfter(s: State, k: nat) {
    && s.nextIno == 3 + k && s.ninodes == 512 && s.nblocks == NBLOCKS && s.nextBlock == 34 + BIG_RUN * k
    && (forall n :: n in s.inodes ==> Packable(s.inodes[n]))
    && 2 in s.inodes && s.inodes[2].addr == NoAddrs()
    && |s.stored| == k && (k > 0 ==> s.stored[0] == Stored(3, 34, Zeros(BIG)))
  }

  /** The tree after `k` files. */
  ghost predicate After(t: Tree, k: nat) {
    && t.dirs == map["/" := 2] && t.order == ["/"] && t.entries.Keys == {"/"}
    && EntriesFit(t.entries["/"], k)
    && FsAfter(t.fs, k)
  }

  lemma BigRun()
    ensures NBlocks(Zeros(BIG)) == 65802 && Total(65802) == BIG_RUN
  {
  }

  lemma FileDirent(n: nat)
    requires n < 0x1_0000
    ensures Dirent(Entry(n, "f")).Success?
  {
  }

  lemma FsStep(s: State, k: nat)
    requires FsAfter(s, k) && k < COPIES
    ensures AllocInode(s, FileMode(BigFile())).Success?
    ensures var s1 := AllocInode(s, FileMode(BigFile())).value;
      && s.nextIno in s1.inodes && |s1.inodes[s.nextIno].addr| == 13
      && FsModel.StoreData(s1, s.nextIno, Zeros(BIG)).Success?
      && FsAfter(FsModel.StoreData(s1, s.nextIno, Zeros(BIG)).value, k + 1)
  {
    BigRun();
    hide NBlocks, Total, Zeros;
  }

  lemma EntriesStep(ents: seq<Entry>, k: nat)
    requires EntriesFit(ents, k) && k < COPIES
    ensures EntriesFit(ents + [Entry(3 + k, "f")], k + 1)
  {
    FileDirent(3 + k);
    hide Dirent;
  }

  lemma Step(t: Tree, k: nat)
    requires After(t, k) && k < COPIES
    ensures Keyed(t) && AddFile(t, "/", BigFile()).Success? && After(AddFile(t, "/", BigFile()).value, k + 1)
  {
    FsStep(t.fs, k);
    EntriesStep(t.entries["/"], k);
    hide FsAfter, EntriesFit, AllocInode, FsModel.StoreData;
    assert t.fs.nextIno == 3 + k by {
      NextInode(t.fs, k);
    }
  }

  lemma NextInode(s: State, k: nat)
    requires FsAfter(s, k)
    ensures s.nextIno == 3 + k
  {
  }

  lemma {:induction false} Grown(t: Tree, k: nat)
    requires After(t, 0) && k <= COPIES
    ensures Keyed(t) && AddFiles(t, "/", Copies(k)).Success? && After(AddFiles(t, "/", Copies(k)).value, k)
  {
    hide After, AddFile, BigFile;
    AfterKeyed(t);
    if k > 0 {
      Grown(t, k - 1);
      assert Copies(k)[..k - 1] == Copies(k - 1);
      Step(AddFiles(t, "/", Copies(k - 1)).value, k - 1);
    }
  }

  lemma AfterKeyed(t: Tree)
    requires After(t, 0)
    ensures Keyed(t) && "/" in t.entries
  {
  }

  lemma RootAfter()
    ensures Root(Start()).Success? && After(Root(Start()).value, 0)
  {
    RootValue(NBLOCKS, 512);
    var ents := [Entry(2, "."), Entry(2, "..")];
    assert Dirent(ents[0]).Success? && Dirent(ents[1]).Success?;
  }

  /** What the build leaves, as far as it matters here. */
  ghost predicate Wide(t: Tree) {
    && t.dirs == map["/" := 2] && "/" in t.entries && |t.entries["/"]| == 256 && t.entries["/"][2] == Entry(3, "f")
    && |t.fs.stored| > 0 && t.fs.stored[0] == Stored(3, 34, Zeros(BIG))
    && 2 in t.fs.inodes && t.fs.inodes[2].addr == Addrs(ROOT_AT, 4) && t.fs.inodes[2].size == 4096
  }

  lemma RootStored(t: Tree)
    requires After(t, COPIES)
    ensures Keyed(t) && StoreDir(t, "/").Success?
    ensures Wide(StoreDir(t, "/").value) && Writable(StoreDir(t, "/").value.fs)
  {
    BuildOutcome.BlobSucceeds(t.entries["/"]);
    hide Blob, Dirent, Zeros, Addrs;
    StoreDataEffect(t.fs, 2, Blob(t.entries["/"]).value);
  }

  lemma WideBuilt()
    ensures Build(Start(), Host(), []).Success?
    ensures Wide(Build(Start(), Host(), []).value) && Writable(Build(Start(), Host(), []).value.fs)
  {
    RootAfter();
    var t0 := Root(Start()).value;
    Grown(t0, COPIES);
    AfterDirs(t0);
    hide Root, Start, After, Copies, Wide, Writable, StoreDir;
    var v := Host()[0];
    var t := AddFiles(t0, "/", Copies(COPIES)).value;
    assert Host()[..0] == [];
    assert AddVisits(t0, []) == Success(t0);
    assert AddVisit(t0, v) == Success(t);
    assert AddVisits(t0, Host()) == Success(t);
    assert Grow(Start(), Host(), []) == Success(t);
    AfterOrder(t);
    RootStored(t);
    assert ["/"][..0] == [];
    assert StoreDirs(t, []) == Success(t);
  }

  lemma AfterDirs(t: Tree)
    requires After(t, 0)
    ensures "/" in t.dirs
  {
  }

  lemma AfterOrder(t: Tree)
    requires After(t, COPIES)
    ensures t.order == ["/"] && Keyed(t)
  {
  }

  // --- reading it back -----------------------------------------------------------------------

  lemma ZeroBlock(d: seq<byte>, i: nat)
    requires Holds(d, 34, Zeros(BIG)) && i < 65802
    ensures Blk(d, 34 + i) == Zeros(1024)
  {
    BigRun();
    hide Blk, Holds;
    HeldData(d, 34, Zeros(BIG), i);
    assert DataBlock(Zeros(BIG), i) == Zeros(1024);
  }

  lemma RootAddr(i: Inode, k: nat)
    requires i.addr == Addrs(ROOT_AT, 4) && k < 13
    ensures |i.addr| == 13 && AsRead(i).blk[k] == if k < 4 then 2058 + k else 0
  {
  }

  lemma {:induction false} ZerosGathered(d: seq<byte>, ptrs: seq<nat>)
    requires forall j :: 0 <= j < |ptrs| ==> Blk(d, ptrs[j]) == Zeros(1024)
    ensures Gather(d, ptrs) == Zeros(1024 * |ptrs|)
  {
    hide Blk;
    if ptrs != [] {
      ZerosGathered(d, ptrs[..|ptrs| - 1]);
    }
  }

  lemma {:induction false} NoEntries(n: nat, o: nat)
    requires n % 16 == 0 && o % 16 == 0 && o <= n
    ensures DirEntries(Zeros(n), o) == Some([])
    decreases n - o
  {
    if o < n {
      NoEntries(n, o + 16);
      assert U16(Zeros(n), o) == 0;
    }
  }

  lemma RootReadsZeros(d: seq<byte>, i: Inode)
    requires Holds(d, 34, Zeros(BIG)) && i.addr == Addrs(ROOT_AT, 4) && i.size == 4096
    ensures Data(d, AsRead(i)) == Some(Zeros(4096))
  {
    var r := AsRead(i);
    forall k | 0 <= k < 13
      ensures r.blk[k] == if k < 4 then 2058 + k else 0
    {
      RootAddr(i, k);
    }
    var ptrs := r.blk[..10];
    assert DataPointers(d, r.blk) == Some(ptrs) by {
      assert ptrs + [] + [] == ptrs;
    }
    forall j | 0 <= j < 10
      ensures Blk(d, ptrs[j]) == Zeros(1024)
    {
      if j < 4 {
        ZeroBlock(d, 2024 + j);
      }
    }
    hide Holds, Blk, DataPointers, Gather;
    ZerosGathered(d, ptrs);
    assert Slice(Zeros(10240), 0, 4096) == Zeros(4096);
  }

  lemma FirstHeld(d: seq<byte>, s: State, now: nat, fl: Cache)
    requires ImageOf(d, s, now, fl) && |s.stored| > 0
    ensures Holds(d, s.stored[0].lo, s.stored[0].content)
  {
    hide Holds, IList, SuperFits, SuperBytes, Represents, Packable;
  }

  lemma WideParts(t: Tree)
    requires Wide(t)
    ensures |t.fs.stored| > 0 && t.fs.stored[0] == Stored(3, 34, Zeros(BIG)) && 2 in t.fs.inodes
    ensures t.fs.inodes[2].addr == Addrs(ROOT_AT, 4) && t.fs.inodes[2].size == 4096
    ensures "/" in t.entries && |t.entries["/"]| == 256 && t.entries["/"][2] == Entry(3, "f")
  {
  }

  /** On any image of that tree the walk finds nothing, though the tree lists its files. */
  lemma WideImageReadsEmpty(d: seq<byte>, now: nat, fl: Cache)
    requires Build(Start(), Host(), []).Success? && ImageOf(d, Build(Start(), Host(), []).value.fs, now, fl)
    ensures WalkAll(d) == Some([])
    ensures WholeListing(Build(Start(), Host(), []).value) != []
  {
    hide Build, ImageOf, Wide, Writable, Host, Finished, HasVisits, LinesDone, WholeListing, Data, DirEntries,
      ReadInode, AsRead, Zeros, Holds, Addrs, RunsTile, FilesOk, InodesOk, NumsOk, ModesOk, KeysOk;
    WideBuilt();
    var t := Build(Start(), Host(), []).value;
    BuildOk(NBLOCKS, 512, Host(), []);
    FinishedParts(t);
    WideParts(t);
    NumbersInTable(t, 2);
    FirstHeld(d, t.fs, now, fl);
    RootReadsZeros(d, t.fs.inodes[2]);
    InodeReads(d, t.fs, now, fl, 2);
    NoEntries(4096, 0);
    assert ReadDir(d, 2) == Some([]);
    FirstListed(t);
  }

  lemma FirstListed(t: Tree)
    requires Finished(t) && "/" in t.entries && |t.entries["/"]| == 256 && t.entries["/"][2] == Entry(3, "f")
    ensures WholeListing(t) != []
  {
    hide Finished, Listing, ListEntries, AsNamed, RecordOf, WholeListing;
    RootIsDir(t);
    WalkComplete.RootListing(t);
    WalkComplete.ListingIs(t, "/", WalkComplete.WalkPath("/"), RoundTrip.PathDepth("/"));
    var named := AsNamed(t.entries["/"]);
    assert named[2] == Entry(3, UpToNul("f"));
    assert UpToNul("f") == "f" by {
      assert UpToNul("f") == ['f'] + UpToNul("");
    }
    WalkComplete.ListedAt(t, named, WalkComplete.WalkPath("/"), RoundTrip.PathDepth("/"), 2);
  }
}

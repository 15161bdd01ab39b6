/** The last loop of `build`: directories become files. What a finished tree looks like. */
module TreeFinish {
  import opened Bytes
  import opened FileStore
  import opened FsModel
  import opened S5Reader
  import opened TreeModel
  import opened AllocInvariant
  import opened Links
  import opened TreeInvariant
  import opened TreeRuns

  /** Directory `p` is stored as the records of its entries. */
  ghost predicate DirStored(t: Tree, p: string) {
    && p in t.dirs && p in t.entries
    && Blob(t.entries[p]).Success?
    && exists lo :: Stored(t.dirs[p], lo, Blob(t.entries[p]).value) in t.fs.stored
  }

  /** Modes and link counts do not change, and inodes that are no directory do not change at all. */
  ghost predicate MetaKept(t: Tree, t': Tree) {
    && (forall n :: n in t.fs.inodes <==> n in t'.fs.inodes)
    && (forall n :: n in t.fs.inodes ==> t'.fs.inodes[n].mode == t.fs.inodes[n].mode)
    && (forall n :: n in t.fs.inodes ==> t'.fs.inodes[n].nlink == t.fs.inodes[n].nlink)
    && (forall n :: n in t.fs.inodes && !IsDirNum(t.dirs, n) ==> t'.fs.inodes[n] == t.fs.inodes[n])
  }

  ghost predicate OthersEmpty(t: Tree, done: seq<string>) {
    forall p :: p in t.dirs && p !in done ==>
      && t.dirs[p] in t.fs.inodes
      && !IsStored(t.fs, t.dirs[p])
      && t.fs.inodes[t.dirs[p]].addr == NoAddrs()
  }

  /** The first directories, those of `done`, have been stored. */
  ghost predicate Storing(t: Tree, t': Tree, done: seq<string>) {
    && t' == t.(fs := t'.fs)
    && AllocOk(t'.fs)
    && t'.fs.nextIno == t.fs.nextIno && t'.fs.ninodes == t.fs.ninodes && t'.fs.nblocks == t.fs.nblocks
    && t.fs.stored <= t'.fs.stored
    && MetaKept(t, t')
    && OthersEmpty(t', done)
    && forall i :: 0 <= i < |done| ==> DirStored(t', done[i])
  }

  lemma StoreDirParts(t: Tree, path: string)
    requires Keyed(t) && StoreDir(t, path).Success?
    ensures path in t.dirs && t.dirs[path] in t.fs.inodes && |t.fs.inodes[t.dirs[path]].addr| == 13
    ensures Blob(t.entries[path]).Success?
    ensures FsModel.StoreData(t.fs, t.dirs[path], Blob(t.entries[path]).value) == Success(StoreDir(t, path).value.fs)
    ensures StoreDir(t, path).value == t.(fs := StoreDir(t, path).value.fs)
  {
    hide FsModel.StoreData, Blob;
  }

  lemma MetaStep(t: Tree, a: Tree, b: Tree, path: string, size: nat, addr: seq<nat>)
    requires MetaKept(t, a) && path in t.dirs && t.dirs[path] in a.fs.inodes
    requires b.fs.inodes == a.fs.inodes[t.dirs[path] := a.fs.inodes[t.dirs[path]].(size := size, addr := addr)]
    ensures MetaKept(t, b)
  {
    assert IsDirNum(t.dirs, t.dirs[path]);
    hide IsDirNum;
  }

  lemma OthersStep(a: Tree, b: Tree, done: seq<string>, path: string, f: Stored)
    requires OthersEmpty(a, done) && path in a.dirs && b.dirs == a.dirs && f.ino == a.dirs[path]
    requires forall p, q :: p in a.dirs && q in a.dirs && p != q ==> a.dirs[p] != a.dirs[q]
    requires b.fs.stored == a.fs.stored + [f]
    requires forall n :: n in a.fs.inodes && n != f.ino ==> n in b.fs.inodes && b.fs.inodes[n] == a.fs.inodes[n]
    ensures OthersEmpty(b, done + [path])
  {
    LogGrew(a.fs, b.fs, f);
    hide IsStored;
    forall p | p in b.dirs && p !in done + [path]
      ensures b.dirs[p] in b.fs.inodes && !IsStored(b.fs, b.dirs[p]) && b.fs.inodes[b.dirs[p]].addr == NoAddrs()
    {
      assert p != path by {
        assert (done + [path])[|done|] == path;
      }
      assert forall i :: 0 <= i < |done| ==> (done + [path])[i] == done[i];
    }
  }

  lemma DirStoredKept(a: Tree, b: Tree, p: string)
    requires DirStored(a, p) && b == a.(fs := b.fs) && a.fs.stored <= b.fs.stored
    ensures DirStored(b, p)
  {
    hide Blob;
    var lo :| Stored(a.dirs[p], lo, Blob(a.entries[p]).value) in a.fs.stored;
    assert Stored(b.dirs[p], lo, Blob(b.entries[p]).value) in b.fs.stored;
  }

  lemma DirStoredNew(a: Tree, b: Tree, path: string, lo: nat)
    requires path in a.dirs && path in a.entries && Blob(a.entries[path]).Success? && b == a.(fs := b.fs)
    requires b.fs.stored == a.fs.stored + [Stored(a.dirs[path], lo, Blob(a.entries[path]).value)]
    ensures DirStored(b, path)
  {
    hide Blob;
    assert b.fs.stored[|a.fs.stored|] == Stored(a.dirs[path], lo, Blob(a.entries[path]).value);
  }

  lemma StoreDirOk(t: Tree, a: Tree, done: seq<string>, path: string)
    requires KeysOk(t) && Storing(t, a, done) && path in t.dirs && path !in done && Keyed(a)
    requires StoreDir(a, path).Success?
    ensures Storing(t, StoreDir(a, path).value, done + [path])
  {
    hide AllocOk, MetaKept, OthersEmpty, DirStored, StoreDir, Blob, FsModel.StoreData, IsStored, Addrs, NBlocks,
      NoAddrs, Total, Distinct;
    var b := StoreDir(a, path).value;
    StoreDirParts(a, path);
    var n, blob := a.dirs[path], Blob(a.entries[path]).value;
    OthersHas(a, done, path);
    StoreDataEffect(a.fs, n, blob);
    StoreDataOk(a.fs, n, blob);
    MetaStep(t, a, b, path, |blob|, Addrs(a.fs.nextBlock, NBlocks(blob)));
    OthersStep(a, b, done, path, Stored(n, a.fs.nextBlock, blob));
    DirStoredNew(a, b, path, a.fs.nextBlock);
    forall i | 0 <= i < |done + [path]|
      ensures DirStored(b, (done + [path])[i])
    {
      if i < |done| {
        DirStoredKept(a, b, done[i]);
      }
    }
  }

  lemma OthersHas(a: Tree, done: seq<string>, path: string)
    requires OthersEmpty(a, done) && path in a.dirs && path !in done
    ensures a.dirs[path] in a.fs.inodes && !IsStored(a.fs, a.dirs[path]) && a.fs.inodes[a.dirs[path]].addr == NoAddrs()
  {
  }

  lemma StoringStart(t: Tree)
    requires TreeOk(t)
    ensures Storing(t, t, [])
  {
    hide AllocOk, NumsOk, LinksOk, ShapeOk, ModesOk, IsStored, IsDirNum;
  }

  lemma {:induction false} StoreDirsOk(t: Tree, k: nat)
    requires TreeOk(t) && k <= |t.order| && StoreDirs(t, t.order[..k]).Success?
    ensures Storing(t, StoreDirs(t, t.order[..k]).value, t.order[..k])
  {
    hide AllocOk, NumsOk, LinksOk, ShapeOk, ModesOk, DirsEmpty, Storing, StoreDir;
    if k == 0 {
      StoringStart(t);
      assert t.order[..0] == [];
    } else {
      assert t.order[..k][..k - 1] == t.order[..k - 1];
      StoreDirsOk(t, k - 1);
      assert t.order[k - 1] !in t.order[..k - 1];
      StoreDirOk(t, StoreDirs(t, t.order[..k - 1]).value, t.order[..k - 1], t.order[k - 1]);
      assert t.order[..k - 1] + [t.order[k - 1]] == t.order[..k];
    }
  }

  // --- the finished tree ------------------------------------------------------------------

  ghost predicate AllDirsStored(t: Tree) {
    forall p {:trigger DirStored(t, p)} :: p in t.dirs ==> DirStored(t, p)
  }

  /** What holds when `build` goes on to write the image. */
  ghost predicate Finished(t: Tree) {
    && AllocOk(t.fs)
    && KeysOk(t)
    && NumsOk(t.dirs, t.entries, t.fs.inodes)
    && LinksOk(t)
    && ShapeOk(t.dirs, t.entries)
    && ModesOk(t.dirs, t.fs.inodes)
    && AllDirsStored(t)
  }

  lemma StoringKeeps(t: Tree, t': Tree)
    requires TreeOk(t) && Storing(t, t', t.order)
    ensures NumsOk(t'.dirs, t'.entries, t'.fs.inodes)
    ensures forall n: nat :: LinkCount(t'.fs.inodes, n) == LinkCount(t.fs.inodes, n)
    ensures ModesOk(t'.dirs, t'.fs.inodes)
    ensures AllDirsStored(t')
  {
    hide AllocOk, LinksOk, ShapeOk, DirsEmpty, IsStored, IsDirNum, IsDir, DirStored, OthersEmpty;
    forall p | p in t'.dirs
      ensures DirStored(t', p)
    {
      var i :| 0 <= i < |t.order| && t.order[i] == p;
    }
  }

  lemma StoringGrew(t: Tree, t': Tree)
    requires Storing(t, t', t.order)
    ensures TreeGrew(t, t')
  {
    hide AllocOk, IsDirNum, DirStored, OthersEmpty;
  }

  /** For every host walk and spec that `build` accepts: the invariant holds to the end, every directory is
      stored as its own entries, and every host file and device is in the tree. */
  lemma BuildOk(nblocks: nat, ninodes: nat, host: seq<Visit>, spec: seq<SpecLine>)
    requires Build(Init(nblocks, ninodes), host, spec).Success?
    ensures var t := Build(Init(nblocks, ninodes), host, spec).value;
      Finished(t) && HasVisits(t, host) && LinesDone(t, spec)
  {
    hide AllocOk, NumsOk, LinksOk, ShapeOk, ModesOk, DirsEmpty, TreeGrew, HasVisits, LinesDone, Init, Grow,
      Storing, StoreDirs, LinkCount, AllDirsStored;
    var t := Grow(Init(nblocks, ninodes), host, spec).value;
    var t' := Build(Init(nblocks, ninodes), host, spec).value;
    GrowOk(nblocks, ninodes, host, spec);
    assert t.order[..|t.order|] == t.order;
    StoreDirsOk(t, |t.order|);
    StoringFrame(t, t');
    StoringKeeps(t, t');
    StoringGrew(t, t');
    LinksSame(t, t');
    HasVisitsKept(t, t', host);
    LinesDoneKept(t, t', spec);
  }

  lemma StoringFrame(t: Tree, t': Tree)
    requires Storing(t, t', t.order)
    ensures t' == t.(fs := t'.fs) && AllocOk(t'.fs)
    ensures t'.fs.nextIno == t.fs.nextIno && t'.fs.ninodes == t.fs.ninodes
  {
    hide AllocOk, MetaKept, OthersEmpty, DirStored;
  }
}

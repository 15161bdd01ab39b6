/** The invariant of `build`, kept by every step. */
module TreeInvariant {
  import opened Bytes
  import opened FsModel
  import opened S5Reader
  import opened TreeModel
  import opened AllocInvariant
  import opened Links

  // --- the invariant --------------------------------------------------------

  /** Directory paths are listed once, in creation order; each has an inode number of its own; the root's is 2. */
  ghost predicate KeysOk(t: Tree) {
    && Keyed(t)
    && Distinct(t.order)
    && (forall p :: p in t.order <==> p in t.dirs)
    && t.dirs["/"] == 2
    && (forall p, q :: p in t.dirs && q in t.dirs && p != q ==> t.dirs[p] != t.dirs[q])
    && t.fs.nextIno <= t.fs.ninodes
  }

  /** Directories and entries name only inodes that exist. */
  ghost predicate NumsOk(dirs: map<string, nat>, entries: map<string, seq<Entry>>, inodes: map<nat, Inode>) {
    && (forall p :: p in dirs ==> dirs[p] in inodes)
    && (forall p, i :: p in entries && 0 <= i < |entries[p]| ==> entries[p][i].num in inodes)
  }

  predicate IsRoot(p: string) {
    p == "/"
  }

  /** A directory starts with itself and its parent, and its parent has an entry for it. */
  ghost predicate DirShape(dirs: map<string, nat>, entries: map<string, seq<Entry>>, p: string)
    requires p in dirs && p in entries
  {
    && |entries[p]| >= 2
    && entries[p][0] == Entry(dirs[p], ".")
    && HasSlash(p)
    && ParentPath(p) in dirs && ParentPath(p) in entries
    && entries[p][1] == Entry(dirs[ParentPath(p)], "..")
    && (IsRoot(p) || Entry(dirs[p], BaseName(p)) in entries[ParentPath(p)])
  }

  ghost predicate ShapeOk(dirs: map<string, nat>, entries: map<string, seq<Entry>>) {
    && dirs.Keys == entries.Keys
    && forall p {:trigger DirShape(dirs, entries, p)} :: p in dirs ==> DirShape(dirs, entries, p)
  }

  ghost predicate IsDirNum(dirs: map<string, nat>, n: nat) {
    exists p :: p in dirs && dirs[p] == n
  }

  /** Only directories have a directory's mode. */
  ghost predicate ModesOk(dirs: map<string, nat>, inodes: map<nat, Inode>) {
    forall n {:trigger IsDirNum(dirs, n)} :: n in inodes && IsDir(inodes[n].mode) ==> IsDirNum(dirs, n)
  }

  /** Directories have no content yet. */
  ghost predicate DirsEmpty(dirs: map<string, nat>, fs: State) {
    forall p :: p in dirs ==>
      && dirs[p] in fs.inodes
      && !IsStored(fs, dirs[p])
      && fs.inodes[dirs[p]].addr == NoAddrs()
  }

  ghost predicate TreeOk(t: Tree) {
    && AllocOk(t.fs)
    && KeysOk(t)
    && NumsOk(t.dirs, t.entries, t.fs.inodes)
    && LinksOk(t)
    && ShapeOk(t.dirs, t.entries)
    && ModesOk(t.dirs, t.fs.inodes)
    && DirsEmpty(t.dirs, t.fs)
  }

  // --- bit-or and modes -------------------------------------------------------

  lemma BitOrHalf(a: nat, b: nat)
    ensures BitOr(a, b) / 2 == BitOr(a / 2, b / 2)
    ensures BitOr(a, b) % 2 == 1 <==> a % 2 == 1 || b % 2 == 1
  {
    if a == 0 || b == 0 {
    }
  }

  function Shift(a: nat, k: nat): nat {
    if k == 0 then a else Shift(a / 2, k - 1)
  }

  lemma {:induction false} BitOrShift(a: nat, b: nat, k: nat)
    ensures Shift(BitOr(a, b), k) == BitOr(Shift(a, k), Shift(b, k))
    decreases k
  {
    if k > 0 {
      BitOrHalf(a, b);
      BitOrShift(a / 2, b / 2, k - 1);
    }
  }

  lemma Shift4(a: nat)
    ensures Shift(a, 4) == a / 16
  {
    assert Shift(a, 4) == Shift(a / 2, 3) == Shift(a / 4, 2) == Shift(a / 8, 1) == Shift(a / 16, 0);
  }

  lemma Shift13(a: nat)
    ensures Shift(a, 13) == a / 8192
  {
    hide Shift;
    ShiftAdd(a, 4, 9);
    Shift4(a);
    ShiftAdd(a / 16, 4, 5);
    Shift4(a / 16);
    ShiftAdd(a / 256, 4, 1);
    Shift4(a / 256);
    ShiftOnce(a / 4096);
  }

  lemma ShiftOnce(a: nat)
    ensures Shift(a, 1) == a / 2
  {
    assert Shift(a, 1) == Shift(a / 2, 0);
  }

  lemma {:induction false} ShiftAdd(a: nat, j: nat, k: nat)
    ensures Shift(a, j + k) == Shift(Shift(a, j), k)
    decreases j
  {
    if j > 0 {
      ShiftAdd(a / 2, j - 1, k);
    }
  }

  /** A special file never passes for a directory, whatever its permission bits. */
  lemma DeviceNotDir(mode: nat, block: bool)
    ensures !IsDir(DeviceMode(mode, block))
  {
    var kind := if block then S_IFBLK else S_IFCHR;
    var m := BitOr(mode, kind);
    BitOrShift(mode, kind, 13);
    Shift13(m);
    Shift13(mode);
    Shift13(kind);
    BitOrHalf(mode / 8192, kind / 8192);
    assert kind / 8192 % 2 == 1;
    assert m / 8192 % 2 == 1;
    assert m / 4096 / 2 == m / 8192;
  }

  // --- steps that append one entry ------------------------------------------------

  ghost predicate Extends(a: map<nat, Inode>, b: map<nat, Inode>) {
    forall n :: n in a ==> n in b
  }

  lemma NumsAppend(dirs: map<string, nat>, entries: map<string, seq<Entry>>, p: string, e: Entry,
                   a: map<nat, Inode>, b: map<nat, Inode>)
    requires NumsOk(dirs, entries, a) && Extends(a, b) && p in entries && e.num in b
    ensures NumsOk(dirs, Append(entries, p, e), b)
  {
  }

  /** Entries are only ever added, at the end. */
  ghost predicate Grew(a: map<string, seq<Entry>>, b: map<string, seq<Entry>>) {
    forall p :: p in a ==> p in b && a[p] <= b[p]
  }

  lemma DirShapeGrew(dirs: map<string, nat>, a: map<string, seq<Entry>>, dirs': map<string, nat>,
                     b: map<string, seq<Entry>>, q: string)
    requires q in dirs && q in a && DirShape(dirs, a, q) && Grew(a, b)
    requires forall p :: p in dirs ==> p in dirs' && dirs'[p] == dirs[p]
    ensures q in dirs' && q in b && DirShape(dirs', b, q)
  {
    hide ParentPath, BaseName, LastSlash, HasSlash, IsRoot;
    assert a[q] <= b[q];
    var pp := ParentPath(q);
    assert a[pp] <= b[pp];
  }

  lemma AppendGrew(entries: map<string, seq<Entry>>, p: string, e: Entry)
    requires p in entries
    ensures Grew(entries, Append(entries, p, e)) && Append(entries, p, e).Keys == entries.Keys
  {
    assert entries[p] <= entries[p] + [e];
  }

  lemma ShapeAppend(dirs: map<string, nat>, entries: map<string, seq<Entry>>, p: string, e: Entry)
    requires ShapeOk(dirs, entries) && p in entries
    ensures ShapeOk(dirs, Append(entries, p, e))
  {
    AppendGrew(entries, p, e);
    hide DirShape, Append, Grew;
    forall q | q in dirs
      ensures DirShape(dirs, Append(entries, p, e), q)
    {
      DirShapeGrew(dirs, entries, dirs, Append(entries, p, e), q);
    }
  }

  /** What a step that appends entry `e` to directory `p` must do to keep the invariant. */
  lemma AppendOk(t: Tree, t': Tree, p: string, e: Entry)
    requires TreeOk(t) && p in t.entries
    requires t' == Tree(t'.fs, t.dirs, t.order, Append(t.entries, p, e))
    requires AllocOk(t'.fs) && t'.fs.nextIno <= t'.fs.ninodes
    requires Extends(t.fs.inodes, t'.fs.inodes) && e.num in t'.fs.inodes
    requires forall n: nat :: LinkCount(t'.fs.inodes, n) == LinkCount(t.fs.inodes, n) + One(n == e.num)
    requires ModesOk(t.dirs, t'.fs.inodes) && DirsEmpty(t.dirs, t'.fs)
    ensures TreeOk(t')
  {
    hide AllocOk, NumsOk, LinksOk, ShapeOk, ModesOk, DirsEmpty, LinkCount, Refs;
    NumsAppend(t.dirs, t.entries, p, e, t.fs.inodes, t'.fs.inodes);
    ShapeAppend(t.dirs, t.entries, p, e);
    LinksAppend(t, t', p, e);
  }
}

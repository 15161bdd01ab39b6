/** The records `mkfs.py` packs besides file blocks: inodes, directory records and the superblock. */
module OnDisk {
  import opened Bytes
  import opened FsModel
  import opened S5Reader
  import opened TreeModel

  // --- inodes ---------------------------------------------------------------------

  /** Byte `i` of the 40-byte address field: 13 addresses of three bytes, then a zero. */
  function AddrByte(addr: seq<nat>, i: nat): byte
    requires |addr| == 13 && i < 40
  {
    if i >= 39 then 0
    else if i % 3 == 0 then addr[i / 3] % 256
    else if i % 3 == 1 then addr[i / 3] / 256 % 256
    else addr[i / 3] / 65536 % 256
  }

  function AddrField(addr: seq<nat>): (b: seq<byte>)
    requires |addr| == 13
    ensures |b| == 40
  {
    seq(40, i requires 0 <= i < 40 => AddrByte(addr, i))
  }

  /** `struct.pack` refuses a mode, link count or size that does not fit its field. */
  predicate Packable(i: Inode) {
    && |i.addr| == 13
    && i.mode < 0x1_0000 && i.nlink < 0x8000 && i.uid < 0x1_0000 && i.gid < 0x1_0000 && i.size < 0x1_0000_0000
  }

  function InodeHead(i: Inode): (b: seq<byte>)
    ensures |b| == 12
  {
    LE16(i.mode) + LE16(i.nlink) + LE16(i.uid) + LE16(i.gid) + LE32(i.size)
  }

  function PackedInode(i: Inode, now: nat): (b: seq<byte>)
    requires |i.addr| == 13
    ensures |b| == 64
  {
    InodeHead(i) + AddrField(i.addr) + (LE32(now) + LE32(now) + LE32(now))
  }

  /** What the reader makes of it: an address keeps its low 24 bits. */
  function AsRead(i: Inode): InodeRec
    requires |i.addr| == 13
  {
    InodeRec(i.mode, i.nlink, i.uid, i.gid, i.size,
             seq(13, k requires 0 <= k < 13 => i.addr[k] % 0x100_0000))
  }

  lemma HeadFields(i: Inode, e: seq<byte>)
    requires Packable(i) && |e| >= 12 && e[..12] == InodeHead(i)
    ensures U16(e, 0) == i.mode && I16(e, 2) == i.nlink && U16(e, 4) == i.uid && U16(e, 6) == i.gid
    ensures U32(e, 8) == i.size
  {
    var h := InodeHead(i);
    FieldsRoundTrip(i.mode);
    FieldsRoundTrip(i.nlink);
    FieldsRoundTrip(i.uid);
    FieldsRoundTrip(i.gid);
    FieldsRoundTrip(i.size);
    assert forall k :: 0 <= k < 12 ==> e[k] == h[k];
  }

  lemma AddrFields(addr: seq<nat>, e: seq<byte>, k: nat)
    requires |addr| == 13 && |e| >= 51 && k < 13
    requires forall j :: 0 <= j < 39 ==> e[12 + j] == AddrByte(addr, j)
    ensures U24(e, 12 + 3 * k) == addr[k] % 0x100_0000
  {
    FieldsRoundTrip(addr[k]);
    assert e[12 + 3 * k] == AddrByte(addr, 3 * k);
    assert e[12 + 3 * k + 1] == AddrByte(addr, 3 * k + 1);
    assert e[12 + 3 * k + 2] == AddrByte(addr, 3 * k + 2);
  }

  /** `S5.inode` inverts `pack_inode`, field for field, up to the width of an address. */
  lemma InodeRoundTrip(d: seq<byte>, n: nat, i: Inode, now: nat)
    requires n > 0 && Packable(i) && InodeOffset(n) + 64 <= |d|
    requires d[InodeOffset(n)..InodeOffset(n) + 64] == PackedInode(i, now)
    ensures ReadInode(d, n) == Some(AsRead(i))
  {
    var e := Slice(d, InodeOffset(n), InodeOffset(n) + 64);
    var p := PackedInode(i, now);
    assert e == p;
    PackedParts(i, now);
    hide PackedInode, InodeHead, AddrByte, U16, I16, U24, U32;
    HeadFields(i, e);
    forall k | 0 <= k < 13
      ensures U24(e, 12 + 3 * k) == i.addr[k] % 0x100_0000
    {
      AddrFields(i.addr, e, k);
    }
    var blk := seq(13, k requires 0 <= k < 13 => U24(e, 12 + 3 * k));
    assert blk == AsRead(i).blk;
  }

  lemma PackedParts(i: Inode, now: nat)
    requires |i.addr| == 13
    ensures PackedInode(i, now)[..12] == InodeHead(i)
    ensures forall j :: 0 <= j < 40 ==> PackedInode(i, now)[12 + j] == AddrByte(i.addr, j)
  {
    hide InodeHead, AddrByte;
    var tail := LE32(now) + LE32(now) + LE32(now);
    assert PackedInode(i, now) == InodeHead(i) + AddrField(i.addr) + tail;
    forall j | 0 <= j < 40
      ensures PackedInode(i, now)[12 + j] == AddrByte(i.addr, j)
    {
      assert PackedInode(i, now)[12 + j] == AddrField(i.addr)[j];
    }
  }

  /** The address survives exactly when it fits in 24 bits. */
  lemma AddressWidth(i: Inode, k: nat)
    requires |i.addr| == 13 && k < 13
    ensures AsRead(i).blk[k] == i.addr[k] <==> i.addr[k] < 0x100_0000
  {
  }

  // --- directory records -------------------------------------------------------------

  /** A name up to its first NUL, which is all a reader sees. */
  function UpToNul(name: string): string {
    if name == "" || name[0] == '\0' then "" else [name[0]] + UpToNul(name[1..])
  }

  lemma {:induction false} NameReads(name: string, n: nat)
    requires Latin1(name)
    ensures CString(Encode(name) + Zeros(n)) == UpToNul(name)
  {
    var b := Encode(name) + Zeros(n);
    if name == "" {
      assert n > 0 ==> b[0] == 0;
    } else {
      assert b[0] == ByteOf(name[0]) && b[0] as char == name[0];
      assert b[1..] == Encode(name[1..]) + Zeros(n);
      NameReads(name[1..], n);
    }
  }

  lemma PaddedNameReads(name: string)
    requires Latin1(name) && |name| <= 14
    ensures CString(Pad(Encode(name), 14)) == UpToNul(name)
  {
    hide CString, UpToNul, Encode, ByteOf;
    NameReads(name, 14 - |name|);
    if |name| == 14 {
      assert Encode(name) + Zeros(0) == Encode(name);
    }
  }

  /** What the reader makes of the entries of a directory. */
  function AsNamed(ents: seq<Entry>): (r: seq<Entry>)
    ensures |r| == |ents|
    ensures forall i :: 0 <= i < |ents| ==> r[i] == Entry(ents[i].num, UpToNul(ents[i].name))
  {
    seq(|ents|, i requires 0 <= i < |ents| => Entry(ents[i].num, UpToNul(ents[i].name)))
  }

  lemma DirentReads(e: Entry, b: seq<byte>, o: nat)
    requires Dirent(e).Success? && o + 16 <= |b| && b[o..o + 16] == Dirent(e).value
    ensures U16(b, o) == e.num && CString(b[o + 2..o + 16]) == UpToNul(e.name)
  {
    FieldsRoundTrip(e.num);
    PaddedNameReads(e.name);
    assert b[o] == b[o..o + 16][0] && b[o + 1] == b[o..o + 16][1];
    assert b[o + 2..o + 16] == b[o..o + 16][2..] == Pad(Encode(e.name), 14);
  }

  lemma {:induction false} BlobAt(ents: seq<Entry>, i: nat)
    requires Blob(ents).Success? && i < |ents|
    ensures Dirent(ents[i]).Success?
    ensures Blob(ents).value[16 * i..16 * i + 16] == Dirent(ents[i]).value
  {
    hide Dirent;
    var init := ents[..|ents| - 1];
    if i < |ents| - 1 {
      BlobAt(init, i);
      assert Blob(ents).value[16 * i..16 * i + 16] == Blob(init).value[16 * i..16 * i + 16];
    }
  }

  /** Reading a directory's content from record `i` on gives its entries from `i` on. */
  lemma {:induction false} BlobReads(ents: seq<Entry>, i: nat)
    requires Blob(ents).Success? && i <= |ents|
    requires forall k :: 0 <= k < |ents| ==> ents[k].num != 0
    ensures DirEntries(Blob(ents).value, 16 * i) == Some(AsNamed(ents)[i..])
    decreases |ents| - i
  {
    hide Blob, Dirent, CString, UpToNul, U16;
    if i < |ents| {
      BlobAt(ents, i);
      DirentReads(ents[i], Blob(ents).value, 16 * i);
      BlobReads(ents, i + 1);
      assert AsNamed(ents)[i..] == [AsNamed(ents)[i]] + AsNamed(ents)[i + 1..];
    }
  }

  // --- the superblock ------------------------------------------------------------------

  const FS_MAGIC: nat := 0xfd187e20
  const FS_2B: nat := 2

  function Words16(xs: seq<nat>): (s: seq<byte>)
    ensures |s| == 2 * |xs|
  {
    if xs == [] then [] else Words16(xs[..|xs| - 1]) + LE16(xs[|xs| - 1])
  }

  lemma {:induction false} Word16At(xs: seq<nat>, i: nat)
    requires i < |xs|
    ensures Words16(xs)[2 * i..2 * i + 2] == LE16(xs[i])
  {
    var init := xs[..|xs| - 1];
    if i < |xs| - 1 {
      Word16At(init, i);
      assert Words16(xs)[2 * i..2 * i + 2] == Words16(init)[2 * i..2 * i + 2];
    }
  }

  const ROOT_NAME: seq<byte> := [114, 111, 111, 116, 0, 0]
  const PACK_NAME: seq<byte> := [103, 101, 110, 105, 120, 0]

  datatype Super = Super(
    isize: nat, fsize: nat, nfree: nat, free: seq<nat>, inos: seq<nat>, time: nat, tfree: nat, tinode: nat)

  /** Every value fits the field it is packed in. */
  predicate SuperFits(s: Super) {
    && s.isize < 0x1_0000 && s.fsize < 0x1_0000_0000 && s.nfree <= 50 == |s.free| && |s.inos| <= 100
    && (forall i :: 0 <= i < |s.free| ==> s.free[i] < 0x1_0000_0000)
    && (forall i :: 0 <= i < |s.inos| ==> s.inos[i] < 0x1_0000)
    && s.time < 0x1_0000_0000 && s.tfree < 0x1_0000_0000 && s.tinode < 0x1_0000
  }

  /** The first half: sizes, free blocks and free inodes. */
  function SuperLists(s: Super): (b: seq<byte>)
    requires |s.free| == 50 && |s.inos| <= 100
    ensures |b| == 512
  {
    var sizes := Splice(Splice(Splice(Zeros(512), 0, LE16(s.isize)), 4, LE32(s.fsize)), 8, LE16(s.nfree));
    var blocks := Splice(sizes, 12, Words(s.free));
    Splice(Splice(blocks, 212, LE16(|s.inos|)), 214, Words16(s.inos))
  }

  /** The rest on top of it, in the order it is packed. */
  function SuperSplices(s: Super): (b: seq<byte>)
    requires |s.free| == 50 && |s.inos| <= 100
    ensures |b| == 512
  {
    var counts := Splice(Splice(Splice(SuperLists(s), 420, LE32(s.time)), 432, LE32(s.tfree)), 436, LE16(s.tinode));
    var names := Splice(Splice(counts, 438, ROOT_NAME), 444, PACK_NAME);
    Splice(Splice(names, 504, LE32(FS_MAGIC)), 508, LE32(FS_2B))
  }

  function ListByte(s: Super, i: nat): byte
    requires |s.free| == 50 && |s.inos| <= 100
  {
    if i < 2 then LE16(s.isize)[i]
    else if 4 <= i < 8 then LE32(s.fsize)[i - 4]
    else if 8 <= i < 10 then LE16(s.nfree)[i - 8]
    else if 12 <= i < 212 then Words(s.free)[i - 12]
    else if 212 <= i < 214 then LE16(|s.inos|)[i - 212]
    else if 214 <= i < 214 + 2 * |s.inos| then Words16(s.inos)[i - 214]
    else 0
  }

  /** Byte `i` of the superblock. */
  function SuperByte(s: Super, i: nat): byte
    requires |s.free| == 50 && |s.inos| <= 100
  {
    if i < 420 then ListByte(s, i)
    else if i < 424 then LE32(s.time)[i - 420]
    else if 432 <= i < 436 then LE32(s.tfree)[i - 432]
    else if 436 <= i < 438 then LE16(s.tinode)[i - 436]
    else if 438 <= i < 444 then ROOT_NAME[i - 438]
    else if 444 <= i < 450 then PACK_NAME[i - 444]
    else if 504 <= i < 508 then LE32(FS_MAGIC)[i - 504]
    else if 508 <= i < 512 then LE32(FS_2B)[i - 508]
    else 0
  }

  /** The 512 bytes of the superblock. */
  function SuperBytes(s: Super): (b: seq<byte>)
    requires |s.free| == 50 && |s.inos| <= 100
    ensures |b| == 512
  {
    seq(512, i requires 0 <= i < 512 => SuperByte(s, i))
  }

  lemma ListsAre(s: Super, i: nat)
    requires |s.free| == 50 && |s.inos| <= 100 && i < 512
    ensures SuperLists(s)[i] == ListByte(s, i)
  {
    hide LE16, LE32, Words, Words16;
  }

  lemma SplicesAre(s: Super)
    requires |s.free| == 50 && |s.inos| <= 100
    ensures SuperSplices(s) == SuperBytes(s)
  {
    hide LE16, LE32, SuperLists, ListByte;
    forall i | 0 <= i < 512
      ensures SuperSplices(s)[i] == SuperByte(s, i)
    {
      ListsAre(s, i);
      if i >= 420 {
        ListTail(s, i);
      }
    }
  }

  lemma ListTail(s: Super, i: nat)
    requires |s.free| == 50 && |s.inos| <= 100 && i >= 420
    ensures ListByte(s, i) == 0
  {
  }

  function SubWord(b: seq<byte>, off: nat, n: nat): seq<byte>
    requires off + n <= |b|
  {
    b[off..off + n]
  }

  lemma SuperListsHolds(s: Super)
    requires |s.free| == 50 && |s.inos| <= 100
    ensures var b := SuperLists(s);
      && SubWord(b, 0, 2) == LE16(s.isize) && SubWord(b, 4, 4) == LE32(s.fsize) && SubWord(b, 8, 2) == LE16(s.nfree)
      && SubWord(b, 12, 200) == Words(s.free) && SubWord(b, 212, 2) == LE16(|s.inos|)
      && SubWord(b, 214, 2 * |s.inos|) == Words16(s.inos)
  {
    hide LE16, LE32, Words, Words16;
  }

  lemma SuperSplicesHold(s: Super)
    requires |s.free| == 50 && |s.inos| <= 100
    ensures var b := SuperSplices(s);
      && b[..414] == SuperLists(s)[..414]
      && SubWord(b, 420, 4) == LE32(s.time)
      && SubWord(b, 432, 4) == LE32(s.tfree) && SubWord(b, 436, 2) == LE16(s.tinode)
      && SubWord(b, 438, 6) == ROOT_NAME && SubWord(b, 444, 6) == PACK_NAME
      && SubWord(b, 504, 4) == LE32(FS_MAGIC) && SubWord(b, 508, 4) == LE32(FS_2B)
  {
    hide LE16, LE32, SuperLists;
  }

  /** Every field reads back; `d` is an image with superblock `s` at byte 512. */
  lemma SuperReads(d: seq<byte>, s: Super)
    requires SuperFits(s) && |d| >= 1024 && d[512..1024] == SuperBytes(s)
    ensures U16(d, 512) == s.isize && U32(d, 516) == s.fsize && U16(d, 520) == s.nfree
    ensures forall i :: 0 <= i < 50 ==> U32(d, 524 + 4 * i) == s.free[i]
    ensures U16(d, 724) == |s.inos|
    ensures forall i :: 0 <= i < |s.inos| ==> U16(d, 726 + 2 * i) == s.inos[i]
    ensures U32(d, 932) == s.time && U32(d, 944) == s.tfree && U16(d, 948) == s.tinode
    ensures U32(d, 1016) == FS_MAGIC && U32(d, 1020) == FS_2B
  {
    hide SuperBytes, SuperSplices, SuperLists, U16, U32, LE16, LE32, Words, Words16;
    SuperListsHolds(s);
    SplicesAre(s);
    SuperSplicesHold(s);
    var b, lists := SuperSplices(s), SuperLists(s);
    SubSlice(b, 0, 414, 12, 200);
    SubSlice(lists, 0, 414, 12, 200);
    SubSlice(b, 0, 414, 214, 2 * |s.inos|);
    SubSlice(lists, 0, 414, 214, 2 * |s.inos|);
    assert b[0..414] == lists[0..414];
    assert SubWord(b, 12, 200) == Words(s.free) && SubWord(b, 214, 2 * |s.inos|) == Words16(s.inos);
    Field16(d, b, 0, s.isize);
    Field32(d, b, 4, s.fsize);
    Field16(d, b, 8, s.nfree);
    Field16(d, b, 212, |s.inos|);
    Field32(d, b, 420, s.time);
    Field32(d, b, 432, s.tfree);
    Field16(d, b, 436, s.tinode);
    Field32(d, b, 504, FS_MAGIC);
    Field32(d, b, 508, FS_2B);
    forall i | 0 <= i < 50
      ensures U32(d, 524 + 4 * i) == s.free[i]
    {
      WordAt(s.free, i);
      SubSlice(b, 12, 200, 4 * i, 4);
      Field32(d, b, 12 + 4 * i, s.free[i]);
    }
    forall i | 0 <= i < |s.inos|
      ensures U16(d, 726 + 2 * i) == s.inos[i]
    {
      Word16At(s.inos, i);
      SubSlice(b, 214, 2 * |s.inos|, 2 * i, 2);
      Field16(d, b, 214 + 2 * i, s.inos[i]);
    }
  }

  lemma Field16(d: seq<byte>, b: seq<byte>, off: nat, x: nat)
    requires |d| >= 1024 && |b| == 512 && d[512..1024] == b && off + 2 <= 512
    requires SubWord(b, off, 2) == LE16(x) && x < 0x1_0000
    ensures U16(d, 512 + off) == x
  {
    FieldsRoundTrip(x);
    hide LE16, U16;
    SubSlice(d, 512, 512, off, 2);
    FieldInSlice(d, 512 + off, LE16(x));
  }

  lemma Field32(d: seq<byte>, b: seq<byte>, off: nat, x: nat)
    requires |d| >= 1024 && |b| == 512 && d[512..1024] == b && off + 4 <= 512
    requires SubWord(b, off, 4) == LE32(x) && x < 0x1_0000_0000
    ensures U32(d, 512 + off) == x
  {
    FieldsRoundTrip(x);
    hide LE32, U32;
    SubSlice(d, 512, 512, off, 4);
    FieldInSlice(d, 512 + off, LE32(x));
  }
}

/** The allocator of tools/mkfs.py as values: which inodes and blocks are taken, and which file went where.
    The bytes are tied to this by `Fs.Fs.Valid`. */
module FsModel {
  import opened Bytes
  import opened FileStore

  datatype Error =
    | ImageFull          // sys.exit in alloc_block
    | OutOfInodes        // sys.exit in alloc_inode
    | TripleIndirect     // sys.exit in store_data
    | NameTooLong        // sys.exit in dirent
    | LinkNotFound       // sys.exit in build
    | Unencodable        // struct.error or UnicodeEncodeError
    | BadPath            // IndexError, KeyError or RecursionError on a malformed path

  type Checked<+T> = Result<T, Error>

  datatype Inode = Inode(mode: nat, nlink: nat, uid: nat, gid: nat, size: nat, addr: seq<nat>)

  /** File `content` of inode `ino` was laid down from block `lo` on. */
  datatype Stored = Stored(ino: nat, lo: nat, content: seq<byte>) {
    function End(): nat { lo + Total(NBlocks(content)) }
  }

  datatype State = State(
    nblocks: nat,
    ninodes: nat,
    nextBlock: nat,
    nextIno: nat,
    inodes: map<nat, Inode>,
    stored: seq<Stored>)
  {
    function FirstData(): nat { 2 + ninodes / 16 }
  }

  function RoundUp16(n: nat): nat {
    (n + 15) / 16 * 16
  }

  /** `Fs.__init__` */
  function Init(nblocks: nat, ninodes: nat): State {
    State(nblocks, RoundUp16(ninodes), 2 + RoundUp16(ninodes) / 16, 2, map[], [])
  }

  function NoAddrs(): (a: seq<nat>)
    ensures |a| == 13 && forall i :: 0 <= i < 13 ==> a[i] == 0
  {
    seq(13, _ => 0)
  }

  /** The test is `>=`: the last inode number is never handed out. */
  function AllocInode(s: State, mode: nat): Checked<State> {
    if s.nextIno >= s.ninodes then Failure(OutOfInodes)
    else Success(s.(nextIno := s.nextIno + 1, inodes := s.inodes[s.nextIno := Inode(mode, 1, 0, 0, 0, NoAddrs())]))
  }

  /** Why `store_data` gives up on `n` blocks: room is checked block by block, depth after the 257th inner block. */
  function StoreError(s: State, n: nat): Option<Error> {
    if n <= MAX_BLOCKS then
      if s.nextBlock + Total(n) > s.nblocks && n > 0 then Some(ImageFull) else None
    else if s.nextBlock + n + 258 > s.nblocks then Some(ImageFull)
    else Some(TripleIndirect)
  }

  /** Addresses assigned by `store_data`; the others keep their old value. */
  function NewAddrs(prev: seq<nat>, lo: nat, n: nat): (a: seq<nat>)
    requires |prev| == 13
    ensures |a| == 13
  {
    seq(13, i requires 0 <= i < 13 => if AddrAt(lo, n, i) != 0 then AddrAt(lo, n, i) else prev[i])
  }

  function StoreData(s: State, ino: nat, content: seq<byte>): Checked<State>
    requires ino in s.inodes && |s.inodes[ino].addr| == 13
  {
    var n, i := NBlocks(content), s.inodes[ino];
    match StoreError(s, n)
    case Some(e) => Failure(e)
    case None =>
      Success(s.(
        nextBlock := s.nextBlock + Total(n),
        inodes := s.inodes[ino := i.(size := |content|, addr := NewAddrs(i.addr, s.nextBlock, n))],
        stored := s.stored + [Stored(ino, s.nextBlock, content)]))
  }
}

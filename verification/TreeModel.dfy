/** `build` of tools/mkfs.py as steps on a value: the directory tree grown from the host walk and the spec lines.
    Paths are strings, cut as `rsplit('/', 1)` cuts them. */
module TreeModel {
  import opened Bytes
  import opened FsModel
  import opened S5Reader

  const S_IFDIR: nat := 16384
  const S_IFCHR: nat := 8192
  const S_IFBLK: nat := 24576
  const S_IFREG: nat := 32768

  // --- the input ----------------------------------------------------------

  datatype HostFile = HostFile(name: string, executable: bool, content: seq<byte>)

  /** One directory visited by `os.walk`, as an image path, with its plain files in the order they are stored. */
  datatype Visit = Visit(here: string, files: seq<HostFile>)

  datatype SpecLine =
    | DirLine(path: string, mode: nat)
    | DevLine(path: string, mode: nat, block: bool, major: nat, minor: nat)
    | LinkLine(path: string, target: string)

  // --- the tree so far ----------------------------------------------------

  /** `dirs` and `entries` of `build`; `order` is the insertion order of their common keys. */
  datatype Tree = Tree(fs: State, dirs: map<string, nat>, order: seq<string>, entries: map<string, seq<Entry>>)

  // --- paths --------------------------------------------------------------

  function LastSlash(p: string): (i: int)
    ensures -1 <= i < |p|
    ensures i >= 0 ==> p[i] == '/'
    ensures forall j :: i < j < |p| ==> p[j] != '/'
  {
    if p == "" then -1
    else if p[|p| - 1] == '/' then |p| - 1
    else LastSlash(p[..|p| - 1])
  }

  predicate HasSlash(p: string) {
    LastSlash(p) >= 0
  }

  /** `p.rsplit('/', 1)[0] or '/'` */
  function ParentPath(p: string): string
    requires HasSlash(p)
  {
    if LastSlash(p) == 0 then "/" else p[..LastSlash(p)]
  }

  /** `p.rsplit('/', 1)[1]` */
  function BaseName(p: string): string
    requires HasSlash(p)
  {
    p[LastSlash(p) + 1..]
  }

  lemma ParentShorter(p: string)
    requires HasSlash(p)
    ensures p == "/" || |ParentPath(p)| < |p|
  {
    assert |p| == 1 ==> p == "/";
  }

  // --- bit-or -------------------------------------------------------------

  function BitOr(a: nat, b: nat): nat {
    if a == 0 then b
    else if b == 0 then a
    else 2 * BitOr(a / 2, b / 2) + (if a % 2 == 1 || b % 2 == 1 then 1 else 0)
  }

  // --- directories --------------------------------------------------------

  function Append(entries: map<string, seq<Entry>>, path: string, e: Entry): map<string, seq<Entry>>
    requires path in entries
  {
    entries[path := entries[path] + [e]]
  }

  function AddLink(inodes: map<nat, Inode>, n: nat): map<nat, Inode>
    requires n in inodes
  {
    inodes[n := inodes[n].(nlink := inodes[n].nlink + 1)]
  }

  /** The body of `getdir` for a path that is new and a parent that exists. */
  function NewDir(t: Tree, path: string): Checked<Tree>
    requires HasSlash(path) && path !in t.dirs
    requires ParentPath(path) in t.dirs && ParentPath(path) in t.entries
  {
    var parentPath := ParentPath(path);
    var d, parent := t.fs.nextIno, t.dirs[parentPath];
    var fs :- AllocInode(t.fs, S_IFDIR + 493);
    if parent !in fs.inodes then Failure(BadPath) else
      var withDir := fs.inodes[d := fs.inodes[d].(nlink := 2)];
      Success(Tree(
        fs.(inodes := AddLink(withDir, parent)),
        t.dirs[path := d],
        t.order + [path],
        Append(t.entries[path := [Entry(d, "."), Entry(parent, "..")]], parentPath, Entry(d, BaseName(path)))))
  }

  ghost predicate Keyed(t: Tree) {
    "/" in t.dirs && t.dirs.Keys == t.entries.Keys
  }

  /** `getdir`: it recurses on the parent path, which is shorter. */
  function GetDir(t: Tree, path: string): (r: Checked<Tree>)
    requires Keyed(t)
    ensures r.Success? ==> Keyed(r.value) && path in r.value.dirs
    ensures r.Success? ==> forall p :: p in t.dirs ==> p in r.value.dirs && r.value.dirs[p] == t.dirs[p]
    ensures r.Success? ==> forall p :: p in r.value.dirs ==> p in t.dirs || |p| <= |path|
    decreases |path|
  {
    if path in t.dirs then Success(t)
    else if !HasSlash(path) then Failure(BadPath)
    else
      ParentShorter(path);
      var t1 :- GetDir(t, ParentPath(path));
      NewDir(t1, path)
  }

  // --- host files ---------------------------------------------------------

  function FileMode(f: HostFile): nat {
    S_IFREG + (if f.executable then 493 else 420)
  }

  function AddFile(t: Tree, here: string, f: HostFile): (r: Checked<Tree>)
    requires Keyed(t) && here in t.entries
    ensures r.Success? ==> Keyed(r.value) && r.value.dirs == t.dirs
  {
    var n := t.fs.nextIno;
    var fs1 :- AllocInode(t.fs, FileMode(f));
    var fs2 :- StoreData(fs1, n, f.content);
    Success(t.(fs := fs2, entries := Append(t.entries, here, Entry(n, f.name))))
  }

  function AddFiles(t: Tree, here: string, files: seq<HostFile>): (r: Checked<Tree>)
    requires Keyed(t) && here in t.entries
    ensures r.Success? ==> Keyed(r.value) && r.value.dirs == t.dirs
  {
    if files == [] then Success(t) else
      var t1 :- AddFiles(t, here, files[..|files| - 1]);
      AddFile(t1, here, files[|files| - 1])
  }

  function AddVisit(t: Tree, v: Visit): (r: Checked<Tree>)
    requires Keyed(t)
    ensures r.Success? ==> Keyed(r.value)
  {
    var t1 :- GetDir(t, v.here);
    AddFiles(t1, v.here, v.files)
  }

  function AddVisits(t: Tree, host: seq<Visit>): (r: Checked<Tree>)
    requires Keyed(t)
    ensures r.Success? ==> Keyed(r.value)
  {
    if host == [] then Success(t) else
      var t1 :- AddVisits(t, host[..|host| - 1]);
      AddVisit(t1, host[|host| - 1])
  }

  // --- spec lines ---------------------------------------------------------

  /** The inode number of the last entry called `name`. */
  function LastMatch(ents: seq<Entry>, name: string): Option<nat> {
    if ents == [] then None
    else if ents[|ents| - 1].name == name then Some(ents[|ents| - 1].num)
    else LastMatch(ents[..|ents| - 1], name)
  }

  function SetMode(t: Tree, n: nat, mode: nat): Checked<Tree> {
    if n !in t.fs.inodes then Failure(BadPath)
    else Success(t.(fs := t.fs.(inodes := t.fs.inodes[n := t.fs.inodes[n].(mode := mode)])))
  }

  function LinkEntry(t: Tree, parentPath: string, name: string, target: string): (r: Checked<Tree>)
    requires Keyed(t) && parentPath in t.entries
    ensures r.Success? ==> Keyed(r.value) && r.value.dirs == t.dirs
  {
    if !HasSlash(target) || ParentPath(target) !in t.entries then Failure(BadPath)
    else match LastMatch(t.entries[ParentPath(target)], BaseName(target))
      case None => Failure(LinkNotFound)
      case Some(n) =>
        if n !in t.fs.inodes then Failure(BadPath)
        else Success(t.(
          fs := t.fs.(inodes := AddLink(t.fs.inodes, n)),
          entries := Append(t.entries, parentPath, Entry(n, name))))
  }

  function DeviceMode(mode: nat, block: bool): nat {
    BitOr(mode, if block then S_IFBLK else S_IFCHR)
  }

  function DeviceNumber(major: nat, minor: nat): nat {
    BitOr(major * 256, minor)
  }

  /** A special file keeps its device number in `addr[0]`; it owns no block. */
  function AddDevice(t: Tree, parentPath: string, name: string, mode: nat, dev: nat): (r: Checked<Tree>)
    requires Keyed(t) && parentPath in t.entries
    ensures r.Success? ==> Keyed(r.value) && r.value.dirs == t.dirs
  {
    var n := t.fs.nextIno;
    var fs :- AllocInode(t.fs, mode);
    Success(t.(
      fs := fs.(inodes := fs.inodes[n := fs.inodes[n].(addr := fs.inodes[n].addr[0 := dev])]),
      entries := Append(t.entries, parentPath, Entry(n, name))))
  }

  function AddLine(t: Tree, line: SpecLine): (r: Checked<Tree>)
    requires Keyed(t)
    ensures r.Success? ==> Keyed(r.value)
  {
    if !HasSlash(line.path) then Failure(BadPath) else
    match line
    case DirLine(path, mode) =>
      var t1 :- GetDir(t, path);
      SetMode(t1, t1.dirs[path], BitOr(S_IFDIR, mode))
    case LinkLine(path, target) =>
      var t1 :- GetDir(t, ParentPath(path));
      LinkEntry(t1, ParentPath(path), BaseName(path), target)
    case DevLine(path, mode, block, major, minor) =>
      var t1 :- GetDir(t, ParentPath(path));
      AddDevice(t1, ParentPath(path), BaseName(path), DeviceMode(mode, block), DeviceNumber(major, minor))
  }

  function AddLines(t: Tree, spec: seq<SpecLine>): (r: Checked<Tree>)
    requires Keyed(t)
    ensures r.Success? ==> Keyed(r.value)
  {
    if spec == [] then Success(t) else
      var t1 :- AddLines(t, spec[..|spec| - 1]);
      AddLine(t1, spec[|spec| - 1])
  }

  // --- directories become files -------------------------------------------

  predicate Latin1(name: string) {
    forall i :: 0 <= i < |name| ==> name[i] as int < 256
  }

  function ByteOf(c: char): byte {
    c as int % 256
  }

  function Encode(name: string): (b: seq<byte>)
    ensures |b| == |name|
  {
    seq(|name|, i requires 0 <= i < |name| => ByteOf(name[i]))
  }

  /** A 16-byte directory record. */
  function Dirent(e: Entry): (r: Checked<seq<byte>>)
    ensures r.Success? ==> |r.value| == 16
  {
    if !Latin1(e.name) then Failure(Unencodable)
    else if |e.name| > 14 then Failure(NameTooLong)
    else if e.num >= 0x1_0000 then Failure(Unencodable)
    else Success(LE16(e.num) + Pad(Encode(e.name), 14))
  }

  function Blob(ents: seq<Entry>): (r: Checked<seq<byte>>)
    ensures r.Success? ==> |r.value| == 16 * |ents|
  {
    if ents == [] then Success([]) else
      var front :- Blob(ents[..|ents| - 1]);
      var last :- Dirent(ents[|ents| - 1]);
      Success(front + last)
  }

  /** The loop that stores each directory, for the paths of `order`. */
  function StoreDirs(t: Tree, order: seq<string>): (r: Checked<Tree>)
    requires Keyed(t)
    ensures r.Success? ==> Keyed(r.value) && r.value.(fs := t.fs) == t
  {
    if order == [] then Success(t) else
      var t1 :- StoreDirs(t, order[..|order| - 1]);
      StoreDir(t1, order[|order| - 1])
  }

  function StoreDir(t: Tree, path: string): (r: Checked<Tree>)
    requires Keyed(t)
    ensures r.Success? ==> Keyed(r.value) && r.value.(fs := t.fs) == t
  {
    if path !in t.dirs || t.dirs[path] !in t.fs.inodes || |t.fs.inodes[t.dirs[path]].addr| != 13
    then Failure(BadPath) else
      var blob :- Blob(t.entries[path]);
      var fs :- StoreData(t.fs, t.dirs[path], blob);
      Success(t.(fs := fs))
  }

  // --- the whole of `build` up to the point where it writes the i-list ---------

  function Root(s: State): Checked<Tree> {
    var fs :- AllocInode(s, S_IFDIR + 493);
    var n := s.nextIno;
    Success(Tree(
      fs.(inodes := fs.inodes[n := fs.inodes[n].(nlink := 2)]),
      map["/" := n],
      ["/"],
      map["/" := [Entry(n, "."), Entry(n, "..")]]))
  }

  function Grow(s: State, host: seq<Visit>, spec: seq<SpecLine>): (r: Checked<Tree>)
    ensures r.Success? ==> Keyed(r.value)
  {
    var t0 :- Root(s);
    var t1 :- AddVisits(t0, host);
    AddLines(t1, spec)
  }

  function Build(s: State, host: seq<Visit>, spec: seq<SpecLine>): Checked<Tree> {
    var t :- Grow(s, host, spec);
    StoreDirs(t, t.order)
  }
}

/** When `main` writes an image, exactly, and from its input alone. Beside a feasible input, every field has to be wide
    enough: modes, link counts and the superblock's counts. Link counts come from a plan of the build that knows names
    and inode numbers, and neither inodes nor blocks. */
module WriteOutcome {
  import opened Bytes
  import opened S5Reader
  import opened FileStore
  import opened FsModel
  import opened TreeModel
  import opened AllocInvariant
  import opened Links
  import opened TreeInvariant
  import opened TreeRuns
  import opened TreeFinish
  import opened TreeInput
  import opened OnDisk
  import opened Image
  import opened Ownership
  import opened InputAccounts
  import opened BuildOutcome
  import opened InodeKinds

  // --- the plan -----------------------------------------------------------------------------------

  datatype Plan = Plan(dirs: map<string, nat>, order: seq<string>, entries: map<string, seq<Entry>>, next: nat)

  /** One more entry in directory `p`; `made` inodes with it. */
  function PlanEntry(k: Plan, p: string, e: Entry, made: nat): Plan {
    if p in k.entries then k.(entries := Append(k.entries, p, e), next := k.next + made) else k
  }

  function PlanDir(k: Plan, path: string): Plan
    decreases |path|
  {
    if path in k.dirs || !HasSlash(path) then k else
      ParentShorter(path);
      if path == "/" then k else
        PlanNewDir(PlanDir(k, ParentPath(path)), path)
  }

  function PlanNewDir(k: Plan, path: string): Plan
    requires HasSlash(path)
  {
    var d, pp := k.next, ParentPath(path);
    if pp !in k.dirs then k else
      PlanEntry(Plan(k.dirs[path := d], k.order + [path],
                     k.entries[path := [Entry(d, "."), Entry(k.dirs[pp], "..")]], d),
                pp, Entry(d, BaseName(path)), 1)
  }

  function PlanFiles(k: Plan, here: string, files: seq<HostFile>): Plan {
    if files == [] then k else
      var k1 := PlanFiles(k, here, files[..|files| - 1]);
      PlanEntry(k1, here, Entry(k1.next, files[|files| - 1].name), 1)
  }

  function PlanVisits(k: Plan, host: seq<Visit>): Plan {
    if host == [] then k else
      var v := host[|host| - 1];
      PlanFiles(PlanDir(PlanVisits(k, host[..|host| - 1]), v.here), v.here, v.files)
  }

  /** The inode a link to `target` takes. */
  function PlanTarget(k: Plan, target: string): nat {
    if HasSlash(target) && ParentPath(target) in k.entries then
      match LastMatch(k.entries[ParentPath(target)], BaseName(target))
      case None => 0
      case Some(n) => n
    else 0
  }

  function PlanLine(k: Plan, line: SpecLine): Plan {
    var k1 := PlanDir(k, LineDir(line));
    if !HasSlash(line.path) then k
    else match line
      case DirLine(_, _) => k1
      case LinkLine(path, target) => PlanEntry(k1, ParentPath(path), Entry(PlanTarget(k1, target), BaseName(path)), 0)
      case DevLine(path, _, _, _, _) => PlanEntry(k1, ParentPath(path), Entry(k1.next, BaseName(path)), 1)
  }

  function PlanLines(k: Plan, spec: seq<SpecLine>): Plan {
    if spec == [] then k else PlanLine(PlanLines(k, spec[..|spec| - 1]), spec[|spec| - 1])
  }

  function RootPlan(): Plan {
    Plan(map["/" := 2], ["/"], map["/" := [Entry(2, "."), Entry(2, "..")]], 3)
  }

  function PlanOf(host: seq<Visit>, spec: seq<SpecLine>): Plan {
    PlanLines(PlanVisits(RootPlan(), host), spec)
  }

  /** How many entries name inode `n`, over the directories of `order`. */
  function TimesNamed(order: seq<string>, entries: map<string, seq<Entry>>, n: nat): nat {
    if order == [] then 0 else
      var p := order[|order| - 1];
      TimesNamed(order[..|order| - 1], entries, n) + (if p in entries then Links.Names(entries[p], n) else 0)
  }

  // --- a build goes as planned ----------------------------------------------------------------------

  function Bare(t: Tree): Plan {
    Plan(t.dirs, t.order, t.entries, t.fs.nextIno)
  }

  lemma NewDirPlan(t: Tree, path: string)
    requires Keyed(t) && HasSlash(path) && path !in t.dirs && ParentPath(path) in t.dirs
    requires NewDir(t, path).Success?
    ensures Bare(NewDir(t, path).value) == PlanNewDir(Bare(t), path)
  {
    hide HasSlash, ParentPath, BaseName, AddLink;
    assert ParentPath(path) in t.entries.Keys;
  }

  lemma {:induction false} GetDirPlan(t: Tree, path: string)
    requires Keyed(t) && GetDir(t, path).Success?
    ensures Bare(GetDir(t, path).value) == PlanDir(Bare(t), path)
    decreases |path|
  {
    hide HasSlash, LastSlash, ParentPath, BaseName, NewDir, PlanNewDir;
    if path !in t.dirs {
      ParentShorter(path);
      GetDirPlan(t, ParentPath(path));
      GetDirNot(t, path);
      NewDirPlan(GetDir(t, ParentPath(path)).value, path);
    }
  }

  lemma AddFilePlan(t: Tree, here: string, f: HostFile)
    requires Keyed(t) && here in t.entries && AddFile(t, here, f).Success?
    ensures Bare(AddFile(t, here, f).value) == PlanEntry(Bare(t), here, Entry(t.fs.nextIno, f.name), 1)
  {
    hide Append, NBlocks, Total;
  }

  lemma {:induction false} AddFilesPlan(t: Tree, here: string, files: seq<HostFile>)
    requires Keyed(t) && here in t.entries && AddFiles(t, here, files).Success?
    ensures Bare(AddFiles(t, here, files).value) == PlanFiles(Bare(t), here, files)
  {
    hide AddFile, PlanEntry;
    if files != [] {
      AddFilesPlan(t, here, files[..|files| - 1]);
      AddFilePlan(AddFiles(t, here, files[..|files| - 1]).value, here, files[|files| - 1]);
    }
  }

  lemma {:induction false} AddVisitsPlan(t: Tree, host: seq<Visit>)
    requires Keyed(t) && AddVisits(t, host).Success?
    ensures Bare(AddVisits(t, host).value) == PlanVisits(Bare(t), host)
  {
    hide GetDir, AddFiles, PlanDir, PlanFiles, Bare;
    if host != [] {
      var v := host[|host| - 1];
      AddVisitsPlan(t, host[..|host| - 1]);
      var t1 := AddVisits(t, host[..|host| - 1]).value;
      GetDirPlan(t1, v.here);
      AddFilesPlan(GetDir(t1, v.here).value, v.here, v.files);
    }
  }

  lemma AddLinePlan(t: Tree, line: SpecLine)
    requires Keyed(t) && AddLine(t, line).Success?
    ensures Bare(AddLine(t, line).value) == PlanLine(Bare(t), line)
  {
    hide GetDir, PlanDir, HasSlash, LastSlash, ParentPath, BaseName, LastMatch, BitOr, DeviceMode, DeviceNumber, Append,
      AddLink;
    GetDirPlan(t, LineDir(line));
  }

  lemma {:induction false} AddLinesPlan(t: Tree, spec: seq<SpecLine>)
    requires Keyed(t) && AddLines(t, spec).Success?
    ensures Bare(AddLines(t, spec).value) == PlanLines(Bare(t), spec)
  {
    hide AddLine, PlanLine, Bare;
    if spec != [] {
      AddLinesPlan(t, spec[..|spec| - 1]);
      AddLinePlan(AddLines(t, spec[..|spec| - 1]).value, spec[|spec| - 1]);
    }
  }

  lemma RootPlanned(nblocks: nat, ninodes: nat)
    requires Root(Init(nblocks, ninodes)).Success?
    ensures Keyed(Root(Init(nblocks, ninodes)).value) && Bare(Root(Init(nblocks, ninodes)).value) == RootPlan()
  {
    RootValue(nblocks, ninodes);
  }

  /** The directories, entries and numbers of a finished build are those of the plan. */
  lemma BuildAsPlanned(nblocks: nat, ninodes: nat, host: seq<Visit>, spec: seq<SpecLine>)
    requires Build(Init(nblocks, ninodes), host, spec).Success?
    ensures Bare(Build(Init(nblocks, ninodes), host, spec).value) == PlanOf(host, spec)
  {
    hide TreeOk, Init, Root, AddVisits, AddLines, PlanVisits, PlanLines, StoreDirs, Storing, HasVisits, LinesDone;
    var t0 := Root(Init(nblocks, ninodes)).value;
    RootPlanned(nblocks, ninodes);
    var t1 := AddVisits(t0, host).value;
    AddVisitsPlan(t0, host);
    var t := AddLines(t1, spec).value;
    AddLinesPlan(t1, spec);
    GrowOk(nblocks, ninodes, host, spec);
    assert t.order[..|t.order|] == t.order;
    StoreDirsOk(t, |t.order|);
    StoringModes(t, StoreDirs(t, t.order).value);
  }

  // --- modes ------------------------------------------------------------------------------------------

  lemma {:induction false} BitOrWithin(a: nat, b: nat, k: nat)
    requires a < RoundTrip.Pow2(k) && b < RoundTrip.Pow2(k)
    ensures BitOr(a, b) < RoundTrip.Pow2(k)
    decreases k
  {
    if k > 0 && a != 0 && b != 0 {
      BitOrWithin(a / 2, b / 2, k - 1);
    }
  }

  lemma {:induction false} BitOrAtLeast(a: nat, b: nat)
    ensures BitOr(a, b) >= a
  {
    if a != 0 && b != 0 {
      BitOrAtLeast(a / 2, b / 2);
    }
  }

  lemma SixteenBits()
    ensures RoundTrip.Pow2(16) == 0x1_0000
  {
    RoundTrip.TwelveBits(0);
    assert RoundTrip.Pow2(16) == 2 * RoundTrip.Pow2(15) == 4 * RoundTrip.Pow2(14) == 8 * RoundTrip.Pow2(13)
      == 16 * RoundTrip.Pow2(12);
  }

  lemma DeviceModeFits(mode: nat, block: bool)
    ensures DeviceMode(mode, block) < 0x1_0000 <==> mode < 0x1_0000
  {
    var kind := if block then S_IFBLK else S_IFCHR;
    SixteenBits();
    BitOrAtLeast(mode, kind);
    if mode < 0x1_0000 {
      BitOrWithin(mode, kind, 16);
    }
  }

  /** The last mode given to each directory, and the mode of each special file. */
  ghost predicate ModesFit(host: seq<Visit>, spec: seq<SpecLine>) {
    && (forall p :: Asked(host, spec, p) ==> SpecMode(spec, p) < 0x1_0000)
    && (forall i :: 0 <= i < |spec| && spec[i].DevLine? ==> spec[i].mode < 0x1_0000)
  }

  ghost predicate ModesNarrow(inodes: map<nat, Inode>) {
    forall n :: n in inodes ==> inodes[n].mode < 0x1_0000
  }

  lemma DirMode(t: Tree, host: seq<Visit>, spec: seq<SpecLine>, p: string)
    requires Finished(t) && Accounts(t, host, spec) && p in t.dirs
    ensures t.dirs[p] in t.fs.inodes && t.fs.inodes[t.dirs[p]].mode == SpecMode(spec, p) && Asked(host, spec, p)
  {
    hide Finished, EntryTotal, SpecMode, FileCount, DeviceLines, LinkLines, LinksMade, Asked;
    DirNumExists(t, p);
    assert ModeOf(t, p) == SpecMode(spec, p);
  }

  lemma AskedIsDir(t: Tree, host: seq<Visit>, spec: seq<SpecLine>, p: string)
    requires Accounts(t, host, spec) && Asked(host, spec, p)
    ensures p in t.dirs
  {
    hide EntryTotal, SpecMode, FileCount, DeviceLines, LinkLines, LinksMade, Asked, ModeOf;
  }

  lemma ModeNarrow(t: Tree, host: seq<Visit>, spec: seq<SpecLine>, n: nat)
    requires Finished(t) && Accounts(t, host, spec) && KindsOk(t, spec) && ModesFit(host, spec) && n in t.fs.inodes
    ensures t.fs.inodes[n].mode < 0x1_0000
  {
    hide Finished, Accounts, IsStored, SpecMode, Asked, NoAddrs, DeviceMode, DeviceNumber;
    assert KindOk(t, spec, n);
    if IsDirNum(t.dirs, n) {
      var p :| p in t.dirs && t.dirs[p] == n;
      DirMode(t, host, spec, p);
    } else if IsDevice(spec, t.fs.inodes[n]) {
      var j :| 0 <= j < |spec| && DeviceOf(spec[j], t.fs.inodes[n]);
      DeviceModeFits(spec[j].mode, spec[j].block);
    }
  }

  lemma ModesFitWhen(t: Tree, host: seq<Visit>, spec: seq<SpecLine>)
    requires Finished(t) && Accounts(t, host, spec) && KindsOk(t, spec) && LinesDone(t, spec)
    ensures ModesNarrow(t.fs.inodes) <==> ModesFit(host, spec)
  {
    hide Finished, Accounts, KindsOk, LinesDone, SpecMode, Asked, DeviceMode;
    if ModesFit(host, spec) {
      forall n | n in t.fs.inodes
        ensures t.fs.inodes[n].mode < 0x1_0000
      {
        ModeNarrow(t, host, spec, n);
      }
    }
    if ModesNarrow(t.fs.inodes) {
      forall p | Asked(host, spec, p)
        ensures SpecMode(spec, p) < 0x1_0000
      {
        AskedIsDir(t, host, spec, p);
        DirMode(t, host, spec, p);
      }
      forall i | 0 <= i < |spec| && spec[i].DevLine?
        ensures spec[i].mode < 0x1_0000
      {
        var n := DeviceInode(t, spec, i);
        DeviceModeFits(spec[i].mode, spec[i].block);
      }
    }
  }

  lemma DeviceInode(t: Tree, spec: seq<SpecLine>, i: nat) returns (n: nat)
    requires LinesDone(t, spec) && i < |spec| && spec[i].DevLine?
    ensures n in t.fs.inodes && t.fs.inodes[n].mode == DeviceMode(spec[i].mode, spec[i].block)
  {
    hide HasSlash, ParentPath, BaseName, DeviceMode, DeviceNumber, NoAddrs, IsDirNum;
    assert LineDone(t, spec[i]);
    var line := spec[i];
    n :|
      && ParentPath(line.path) in t.entries && Entry(n, BaseName(line.path)) in t.entries[ParentPath(line.path)]
      && n in t.fs.inodes && t.fs.inodes[n].mode == DeviceMode(line.mode, line.block)
      && t.fs.inodes[n].addr == NoAddrs()[0 := DeviceNumber(line.major, line.minor)]
      && t.fs.inodes[n].size == 0 && !IsDirNum(t.dirs, n);
  }

  // --- link counts --------------------------------------------------------------------------------------

  lemma {:induction false} TimesAreRefs(order: seq<string>, entries: map<string, seq<Entry>>, n: nat)
    requires forall p :: p in order ==> p in entries
    ensures TimesNamed(order, entries, n) == Refs(order, entries, n)
  {
    if order != [] {
      TimesAreRefs(order[..|order| - 1], entries, n);
    }
  }

  /** No inode is named 2^15 times or more. */
  ghost predicate LinksFit(order: seq<string>, entries: map<string, seq<Entry>>) {
    forall n: nat :: TimesNamed(order, entries, n) < 0x8000
  }

  ghost predicate LinksNarrow(inodes: map<nat, Inode>) {
    forall n :: n in inodes ==> inodes[n].nlink < 0x8000
  }

  lemma LinksFitWhen(t: Tree)
    requires LinksOk(t)
    ensures LinksNarrow(t.fs.inodes) <==> LinksFit(t.order, t.entries)
  {
    hide LinksOk;
    forall n: nat
      ensures TimesNamed(t.order, t.entries, n) == LinkCount(t.fs.inodes, n)
    {
      TimesAreLinks(t, n);
    }
    hide TimesNamed;
    if LinksFit(t.order, t.entries) {
      forall n | n in t.fs.inodes
        ensures t.fs.inodes[n].nlink < 0x8000
      {
        assert TimesNamed(t.order, t.entries, n) < 0x8000;
      }
    }
  }

  lemma TimesAreLinks(t: Tree, n: nat)
    requires LinksOk(t)
    ensures TimesNamed(t.order, t.entries, n) == LinkCount(t.fs.inodes, n)
  {
    hide TimesNamed, Refs, Distinct;
    TimesAreRefs(t.order, t.entries, n);
    assert Refs(t.order, t.entries, n) == LinkCount(t.fs.inodes, n);
  }

  // --- inodes and superblock ------------------------------------------------------------------------------

  lemma SizeFits(s: State, n: nat)
    requires FilesOk(s) && InodesOk(s) && n in s.inodes
    ensures s.inodes[n].size < 0x1_0000_0000
  {
    hide Addrs;
    if IsStored(s, n) {
      var k :| 0 <= k < |s.stored| && s.stored[k].ino == n;
      assert FileOk(s, s.stored[k]);
    }
  }

  lemma PackableWhen(s: State, n: nat)
    requires FilesOk(s) && InodesOk(s) && n in s.inodes
    ensures Packable(s.inodes[n]) <==> s.inodes[n].mode < 0x1_0000 && s.inodes[n].nlink < 0x8000
  {
    SizeFits(s, n);
    hide FilesOk, IsStored;
  }

  lemma AllPackable(s: State)
    requires FilesOk(s) && InodesOk(s)
    ensures (forall n :: n in s.inodes ==> Packable(s.inodes[n])) <==> ModesNarrow(s.inodes) && LinksNarrow(s.inodes)
  {
    hide FilesOk, InodesOk, Packable;
    forall n | n in s.inodes
      ensures Packable(s.inodes[n]) <==> s.inodes[n].mode < 0x1_0000 && s.inodes[n].nlink < 0x8000
    {
      PackableWhen(s, n);
    }
  }

  /** The superblock's counts, `next` being the first inode number that is not handed out. */
  predicate CountsFit(ninodes: nat, next: nat) {
    && ninodes / 16 + 2 < 0x1_0000
    && ninodes + 1 - next < 0x1_0000
    && Min(next + 99, ninodes) < 0x1_0000
  }

  lemma CountsFitWhen(s: State)
    requires s.nextIno <= s.ninodes
    ensures CountsFit(s.ninodes, s.nextIno) <==>
      && s.ninodes / 16 + 2 < 0x1_0000
      && (forall i :: 0 <= i < |FreeInos(s)| ==> FreeInos(s)[i] < 0x1_0000)
      && Spare(s.nextIno, s.ninodes + 1) < 0x1_0000
  {
    FreeInosAre(s);
    hide FreeInos;
    assert FreeInos(s)[|FreeInos(s)| - 1] == Min(s.nextIno + 99, s.ninodes);
  }

  /** Every field of the image is wide enough. */
  ghost predicate FieldsFit(ninodes: nat, host: seq<Visit>, spec: seq<SpecLine>) {
    var k := PlanOf(host, spec);
    ModesFit(host, spec) && LinksFit(k.order, k.entries) && CountsFit(ninodes, k.next)
  }

  lemma FinishedLinks(t: Tree)
    requires Finished(t)
    ensures LinksOk(t) && t.fs.nextIno <= t.fs.ninodes && FilesOk(t.fs) && InodesOk(t.fs)
  {
    hide RunsTile, FilesOk, InodesOk, NumsOk, LinksOk, ShapeOk, ModesOk, AllDirsStored;
  }

  /** A finished tree can be written exactly when its input's fields fit. */
  lemma WritableWhen(nblocks: nat, ninodes: nat, host: seq<Visit>, spec: seq<SpecLine>)
    requires Build(Init(nblocks, ninodes), host, spec).Success?
    ensures Writable(Build(Init(nblocks, ninodes), host, spec).value.fs) <==>
      FieldsFit(Init(nblocks, ninodes).ninodes, host, spec)
  {
    hide Build, Init, Finished, HasVisits, LinesDone, Accounts, KindsOk, ModesFit, LinksFit, CountsFit, PlanOf,
      ModesNarrow, LinksNarrow, FilesOk, InodesOk, LinksOk, Packable, FreeInos;
    var t := Build(Init(nblocks, ninodes), host, spec).value;
    BuildOk(nblocks, ninodes, host, spec);
    BuildAccounts(nblocks, ninodes, host, spec);
    BuildKinds(nblocks, ninodes, host, spec);
    BuildAsPlanned(nblocks, ninodes, host, spec);
    BuildSize(nblocks, ninodes, host, spec);
    FinishedLinks(t);
    AllPackable(t.fs);
    ModesFitWhen(t, host, spec);
    LinksFitWhen(t);
    CountsFitWhen(t.fs);
  }

  /** For every input and size: there is a tree to write, and it can be written, exactly when the input is feasible
      and its fields fit. */
  lemma WritesWhen(nblocks: nat, ninodes: nat, host: seq<Visit>, spec: seq<SpecLine>)
    ensures var s := Init(nblocks, ninodes);
      var r := Build(s, host, spec);
      r.Success? && Writable(r.value.fs) <==> Feasible(s, host, spec) && FieldsFit(s.ninodes, host, spec)
  {
    hide Build, Init, Feasible, FieldsFit, Writable;
    BuildSucceedsWhen(nblocks, ninodes, host, spec);
    if Build(Init(nblocks, ninodes), host, spec).Success? {
      WritableWhen(nblocks, ninodes, host, spec);
    }
  }
}

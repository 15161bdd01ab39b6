/** What is stored, in which order, and how many blocks it takes: the host's files as they are visited, and then every
    directory in the order it was made. */
module BlockUse {
  import opened Bytes
  import opened S5Reader
  import opened FileStore
  import opened FsModel
  import opened TreeModel
  import opened AllocInvariant
  import opened TreeInvariant
  import TreeRuns
  import opened TreeFinish
  import opened FreeList
  import opened Image
  import opened Ownership

  function FileContents(files: seq<HostFile>): seq<seq<byte>> {
    if files == [] then [] else FileContents(files[..|files| - 1]) + [files[|files| - 1].content]
  }

  function HostContents(host: seq<Visit>): seq<seq<byte>> {
    if host == [] then [] else HostContents(host[..|host| - 1]) + FileContents(host[|host| - 1].files)
  }

  function DirContents(entries: map<string, seq<Entry>>, order: seq<string>): seq<seq<byte>> {
    if order == [] then [] else
      var p := order[|order| - 1];
      DirContents(entries, order[..|order| - 1])
      + [if p in entries && Blob(entries[p]).Success? then Blob(entries[p]).value else []]
  }

  /** The contents stored so far. */
  function Log(stored: seq<Stored>): seq<seq<byte>> {
    if stored == [] then [] else Log(stored[..|stored| - 1]) + [stored[|stored| - 1].content]
  }

  /** Blocks that contents take, pointer blocks included. */
  function RunTotal(cs: seq<seq<byte>>): nat {
    if cs == [] then 0 else RunTotal(cs[..|cs| - 1]) + Total(NBlocks(cs[|cs| - 1]))
  }

  lemma LogSnoc(stored: seq<Stored>, f: Stored)
    ensures Log(stored + [f]) == Log(stored) + [f.content]
  {
    assert (stored + [f])[..|stored|] == stored;
  }

  // --- what each step stores ----------------------------------------------------------------

  lemma {:induction false} GetDirLog(t: Tree, path: string)
    requires Keyed(t) && GetDir(t, path).Success?
    ensures GetDir(t, path).value.fs.stored == t.fs.stored
    decreases |path|
  {
    hide LastSlash, HasSlash, ParentPath, BaseName;
    if path !in t.dirs {
      ParentShorter(path);
      GetDirLog(t, ParentPath(path));
    }
  }

  lemma AddFileLog(t: Tree, here: string, f: HostFile)
    requires Keyed(t) && here in t.entries && AddFile(t, here, f).Success?
    ensures Log(AddFile(t, here, f).value.fs.stored) == Log(t.fs.stored) + [f.content]
  {
    LogSnoc(t.fs.stored, Stored(t.fs.nextIno, t.fs.nextBlock, f.content));
  }

  lemma {:induction false} AddFilesLog(t: Tree, here: string, files: seq<HostFile>)
    requires Keyed(t) && here in t.entries && AddFiles(t, here, files).Success?
    ensures Log(AddFiles(t, here, files).value.fs.stored) == Log(t.fs.stored) + FileContents(files)
  {
    hide AddFile;
    if files != [] {
      var init, f := files[..|files| - 1], files[|files| - 1];
      AddFilesLog(t, here, init);
      AddFileLog(AddFiles(t, here, init).value, here, f);
      Assoc(Log(t.fs.stored), FileContents(init), [f.content]);
    }
  }

  lemma {:induction false} AddVisitsLog(t: Tree, host: seq<Visit>)
    requires Keyed(t) && AddVisits(t, host).Success?
    ensures Log(AddVisits(t, host).value.fs.stored) == Log(t.fs.stored) + HostContents(host)
  {
    hide GetDir, AddFiles;
    if host != [] {
      var init, v := host[..|host| - 1], host[|host| - 1];
      AddVisitsLog(t, init);
      var t1 := AddVisits(t, init).value;
      GetDirLog(t1, v.here);
      AddFilesLog(GetDir(t1, v.here).value, v.here, v.files);
      Assoc(Log(t.fs.stored), HostContents(init), FileContents(v.files));
    }
  }

  lemma AddLineLog(t: Tree, line: SpecLine)
    requires Keyed(t) && AddLine(t, line).Success?
    ensures AddLine(t, line).value.fs.stored == t.fs.stored
  {
    hide GetDir, HasSlash, ParentPath, BaseName, LastMatch, BitOr, DeviceMode, DeviceNumber;
    GetDirLog(t, if line.DirLine? then line.path else ParentPath(line.path));
  }

  lemma {:induction false} AddLinesLog(t: Tree, spec: seq<SpecLine>)
    requires Keyed(t) && AddLines(t, spec).Success?
    ensures AddLines(t, spec).value.fs.stored == t.fs.stored
  {
    hide AddLine;
    if spec != [] {
      AddLinesLog(t, spec[..|spec| - 1]);
      AddLineLog(AddLines(t, spec[..|spec| - 1]).value, spec[|spec| - 1]);
    }
  }

  lemma StoreDirLog(t: Tree, path: string)
    requires Keyed(t) && StoreDir(t, path).Success?
    ensures path in t.entries && Blob(t.entries[path]).Success?
    ensures Log(StoreDir(t, path).value.fs.stored) == Log(t.fs.stored) + [Blob(t.entries[path]).value]
    ensures StoreDir(t, path).value.entries == t.entries
  {
    hide Blob;
    LogSnoc(t.fs.stored, Stored(t.dirs[path], t.fs.nextBlock, Blob(t.entries[path]).value));
  }

  lemma {:induction false} StoreDirsLog(t: Tree, order: seq<string>)
    requires Keyed(t) && StoreDirs(t, order).Success?
    ensures Log(StoreDirs(t, order).value.fs.stored) == Log(t.fs.stored) + DirContents(t.entries, order)
    ensures StoreDirs(t, order).value.entries == t.entries
  {
    hide StoreDir, Blob;
    if order != [] {
      var init, p := order[..|order| - 1], order[|order| - 1];
      StoreDirsLog(t, init);
      StoreDirLog(StoreDirs(t, init).value, p);
      Assoc(Log(t.fs.stored), DirContents(t.entries, init), [Blob(t.entries[p]).value]);
    }
  }

  // --- the whole ------------------------------------------------------------------------------

  /** A finished build has stored the host's files as visited, then the directories as made, and nothing else. */
  lemma BuildLog(nblocks: nat, ninodes: nat, host: seq<Visit>, spec: seq<SpecLine>)
    requires Build(Init(nblocks, ninodes), host, spec).Success?
    ensures var t := Build(Init(nblocks, ninodes), host, spec).value;
      Log(t.fs.stored) == HostContents(host) + DirContents(t.entries, t.order)
  {
    hide AddVisits, AddLines, StoreDirs, DirContents, HostContents;
    var t0 := Root(Init(nblocks, ninodes)).value;
    var t1 := AddVisits(t0, host).value;
    var t2 := AddLines(t1, spec).value;
    AddVisitsLog(t0, host);
    AddLinesLog(t1, spec);
    StoreDirsLog(t2, t2.order);
    assert t0.fs.stored == [] && Log([]) == [];
    assert [] + HostContents(host) == HostContents(host);
  }

  lemma TotalSnoc(cs: seq<seq<byte>>, c: seq<byte>)
    ensures RunTotal(cs + [c]) == RunTotal(cs) + Total(NBlocks(c))
  {
    hide NBlocks, Total;
    assert (cs + [c])[..|cs|] == cs;
  }

  lemma OneMoreRun(s: State, k: nat)
    requires 0 < k <= |s.stored|
    ensures RunTotal(Log(s.stored[..k])) == RunTotal(Log(s.stored[..k - 1])) + Total(NBlocks(s.stored[k - 1].content))
  {
    hide NBlocks, Total, RunTotal, Log;
    assert s.stored[..k] == s.stored[..k - 1] + [s.stored[k - 1]];
    LogSnoc(s.stored[..k - 1], s.stored[k - 1]);
    TotalSnoc(Log(s.stored[..k - 1]), s.stored[k - 1].content);
  }

  lemma {:induction false} RunsAdd(s: State, k: nat)
    requires RunsTile(s) && k <= |s.stored|
    ensures RunStart(s, k) == s.FirstData() + RunTotal(Log(s.stored[..k]))
    decreases k
  {
    hide NBlocks, Total, RunsTile, RunTotal, Log, RunStart;
    if k == 0 {
      NoRuns(s);
    } else {
      RunsAdd(s, k - 1);
      RunStep(s, k - 1);
      OneMoreRun(s, k);
    }
  }

  lemma NoRuns(s: State)
    ensures RunStart(s, 0) == s.FirstData() + RunTotal(Log(s.stored[..0]))
  {
    hide NBlocks, Total;
  }

  /** The blocks a build takes, in closed form; what is left is what the superblock counts as free. */
  lemma BlocksOfInput(nblocks: nat, ninodes: nat, host: seq<Visit>, spec: seq<SpecLine>,
                      d: seq<byte>, now: nat, fl: Cache)
    requires Build(Init(nblocks, ninodes), host, spec).Success?
    requires ImageOf(d, Build(Init(nblocks, ninodes), host, spec).value.fs, now, fl)
    ensures |d| >= 1024
    ensures var t := Build(Init(nblocks, ninodes), host, spec).value;
      U32(d, 516) == U16(d, 512) + RunTotal(HostContents(host) + DirContents(t.entries, t.order)) + U32(d, 944)
  {
    hide Build, Init, ImageOf, Finished, TreeRuns.HasVisits, TreeRuns.LinesDone, RunsTile, FilesOk, InodesOk,
      KeysOk, NumsOk, ModesOk, U16, U32, RunTotal, Log, HostContents, DirContents, RunStart;
    var t := Build(Init(nblocks, ninodes), host, spec).value;
    BuildOk(nblocks, ninodes, host, spec);
    FinishedParts(t);
    BuildLog(nblocks, ninodes, host, spec);
    RunsAdd(t.fs, |t.fs.stored|);
    RunEnds(t.fs);
    assert t.fs.stored[..|t.fs.stored|] == t.fs.stored;
    ImageSizes(d, t.fs, now, fl);
  }
}

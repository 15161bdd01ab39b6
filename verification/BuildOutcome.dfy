/** When `build` succeeds, exactly. A sketch of the build that knows names only, no inodes and no blocks, goes
    through or does not; beside it, success is a matter of four totals: inodes, blocks, the size of a file and the
    length of a name. */
module BuildOutcome {
  import opened Bytes
  import opened FileStore
  import opened FsModel
  import opened S5Reader
  import opened TreeModel
  import opened AllocInvariant
  import opened Links
  import opened TreeInvariant
  import opened TreeSteps
  import opened TreeRuns
  import opened TreeFinish
  import opened TreeInput
  import opened BlockUse

  // --- the sketch -----------------------------------------------------------------------------

  /** Directories in the order they are made, and the names in each. */
  datatype Names = Names(order: seq<string>, names: map<string, seq<string>>)

  ghost predicate Rooted(k: Names) {
    "/" in k.names
  }

  function AddName(k: Names, p: string, name: string): Names
    requires p in k.names
  {
    k.(names := k.names[p := k.names[p] + [name]])
  }

  function NameNewDir(k: Names, path: string): Names
    requires HasSlash(path) && ParentPath(path) in k.names
  {
    AddName(Names(k.order + [path], k.names[path := [".", ".."]]), ParentPath(path), BaseName(path))
  }

  function NameDir(k: Names, path: string): (r: Option<Names>)
    requires Rooted(k)
    ensures r.Some? ==> Rooted(r.value) && path in r.value.names && |r.value.order| >= |k.order|
    decreases |path|
  {
    if path in k.names then Some(k)
    else if !HasSlash(path) then None
    else
      ParentShorter(path);
      var k1 :- NameDir(k, ParentPath(path));
      Some(NameNewDir(k1, path))
  }

  function NameFiles(k: Names, here: string, files: seq<HostFile>): (r: Names)
    requires here in k.names
    ensures r.order == k.order && r.names.Keys == k.names.Keys
  {
    if files == [] then k
    else AddName(NameFiles(k, here, files[..|files| - 1]), here, files[|files| - 1].name)
  }

  function NameVisit(k: Names, v: Visit): (r: Option<Names>)
    requires Rooted(k)
    ensures r.Some? ==> Rooted(r.value) && |r.value.order| >= |k.order|
  {
    var k1 :- NameDir(k, v.here);
    Some(NameFiles(k1, v.here, v.files))
  }

  function NameVisits(k: Names, host: seq<Visit>): (r: Option<Names>)
    requires Rooted(k)
    ensures r.Some? ==> Rooted(r.value) && |r.value.order| >= |k.order|
  {
    if host == [] then Some(k) else
      var k1 :- NameVisits(k, host[..|host| - 1]);
      NameVisit(k1, host[|host| - 1])
  }

  /** A link needs its target's name in its target's directory. */
  function NameLine(k: Names, line: SpecLine): (r: Option<Names>)
    requires Rooted(k)
    ensures r.Some? ==> Rooted(r.value) && |r.value.order| >= |k.order|
  {
    if !HasSlash(line.path) then None else
      var k1 :- NameDir(k, LineDir(line));
      if line.DirLine? then Some(k1)
      else if line.LinkLine? && !NameThere(k1, line.target) then None
      else Some(AddName(k1, ParentPath(line.path), BaseName(line.path)))
  }

  predicate NameThere(k: Names, target: string) {
    && HasSlash(target) && ParentPath(target) in k.names
    && BaseName(target) in k.names[ParentPath(target)]
  }

  function NameLines(k: Names, spec: seq<SpecLine>): (r: Option<Names>)
    requires Rooted(k)
    ensures r.Some? ==> Rooted(r.value) && |r.value.order| >= |k.order|
  {
    if spec == [] then Some(k) else
      var k1 :- NameLines(k, spec[..|spec| - 1]);
      NameLine(k1, spec[|spec| - 1])
  }

  function RootNames(): Names {
    Names(["/"], map["/" := [".", ".."]])
  }

  function Sketch(host: seq<Visit>, spec: seq<SpecLine>): Option<Names> {
    var k :- NameVisits(RootNames(), host);
    NameLines(k, spec)
  }

  // --- when the sketch goes through ---------------------------------------------------------------

  predicate Absolute(p: string) {
    p != "" && p[0] == '/'
  }

  ghost predicate AllAbsolute(k: Names) {
    forall p :: p in k.names ==> Absolute(p)
  }

  lemma ParentAbsolute(p: string)
    ensures Absolute(p) ==> HasSlash(p)
    ensures HasSlash(p) ==> (Absolute(p) <==> Absolute(ParentPath(p)))
  {
  }

  lemma AddNameAbsolute(k: Names, p: string, name: string)
    requires AllAbsolute(k) && p in k.names
    ensures AllAbsolute(AddName(k, p, name))
  {
  }

  /** `getdir` goes through for exactly the paths that start with a slash. */
  lemma {:induction false} NameDirWhen(k: Names, path: string)
    requires Rooted(k) && AllAbsolute(k)
    ensures NameDir(k, path).Some? <==> Absolute(path)
    ensures NameDir(k, path).Some? ==> AllAbsolute(NameDir(k, path).value)
    decreases |path|
  {
    ParentAbsolute(path);
    hide HasSlash, LastSlash, ParentPath, BaseName, Absolute;
    if path !in k.names && HasSlash(path) {
      ParentShorter(path);
      NameDirWhen(k, ParentPath(path));
    }
  }

  lemma {:induction false} NameFilesAbsolute(k: Names, here: string, files: seq<HostFile>)
    requires AllAbsolute(k) && here in k.names
    ensures AllAbsolute(NameFiles(k, here, files))
  {
    hide Absolute;
    if files != [] {
      NameFilesAbsolute(k, here, files[..|files| - 1]);
    }
  }

  ghost predicate VisitsAbsolute(host: seq<Visit>) {
    forall i :: 0 <= i < |host| ==> Absolute(host[i].here)
  }

  lemma {:induction false} NameVisitsWhen(k: Names, host: seq<Visit>)
    requires Rooted(k) && AllAbsolute(k)
    ensures NameVisits(k, host).Some? <==> VisitsAbsolute(host)
    ensures NameVisits(k, host).Some? ==> AllAbsolute(NameVisits(k, host).value)
  {
    hide Absolute, NameDir, NameFiles, AllAbsolute, Rooted;
    if host != [] {
      var init, v := host[..|host| - 1], host[|host| - 1];
      assert forall i :: 0 <= i < |init| ==> init[i] == host[i];
      NameVisitsWhen(k, init);
      if NameVisits(k, init).Some? {
        var k1 := NameVisits(k, init).value;
        NameDirWhen(k1, v.here);
        if NameDir(k1, v.here).Some? {
          NameFilesAbsolute(NameDir(k1, v.here).value, v.here, v.files);
        }
      }
    }
  }

  /** When link line `i` is reached and the directory of its path made, its target has a name. */
  predicate Resolves(k: Names, spec: seq<SpecLine>, i: nat)
    requires Rooted(k) && i < |spec|
  {
    && HasSlash(spec[i].path) && spec[i].LinkLine? && NameLines(k, spec[..i]).Some?
    && var k1 := NameDir(NameLines(k, spec[..i]).value, ParentPath(spec[i].path));
    && k1.Some? && NameThere(k1.value, spec[i].target)
  }

  ghost predicate LinesGo(k: Names, spec: seq<SpecLine>)
    requires Rooted(k)
  {
    forall i :: 0 <= i < |spec| ==> Absolute(spec[i].path) && (spec[i].LinkLine? ==> Resolves(k, spec, i))
  }

  lemma LineAbsolute(line: SpecLine)
    ensures Absolute(line.path) <==> HasSlash(line.path) && Absolute(LineDir(line))
  {
    ParentAbsolute(line.path);
  }

  lemma LinesGoSnoc(k: Names, spec: seq<SpecLine>)
    requires Rooted(k) && spec != []
    ensures var line := spec[|spec| - 1];
      LinesGo(k, spec) <==>
        LinesGo(k, spec[..|spec| - 1]) && Absolute(line.path) && (line.LinkLine? ==> Resolves(k, spec, |spec| - 1))
  {
    hide Absolute, NameThere, NameDir, HasSlash, ParentPath;
    var init := spec[..|spec| - 1];
    forall i | 0 <= i < |init|
      ensures init[i] == spec[i] && (Resolves(k, init, i) <==> Resolves(k, spec, i))
    {
      assert init[..i] == spec[..i];
    }
  }

  lemma {:induction false} NameLinesWhen(k: Names, spec: seq<SpecLine>)
    requires Rooted(k) && AllAbsolute(k)
    ensures NameLines(k, spec).Some? <==> LinesGo(k, spec)
    ensures NameLines(k, spec).Some? ==> AllAbsolute(NameLines(k, spec).value)
  {
    hide Absolute, NameDir, NameThere, HasSlash, LastSlash, ParentPath, BaseName, AllAbsolute, Rooted, LinesGo, AddName;
    if spec == [] {
      NoLinesGo(k);
    } else {
      var n, line := |spec| - 1, spec[|spec| - 1];
      NameLinesWhen(k, spec[..n]);
      LinesGoSnoc(k, spec);
      LineAbsolute(line);
      if NameLines(k, spec[..n]).Some? {
        var k1 := NameLines(k, spec[..n]).value;
        NameDirWhen(k1, LineDir(line));
        if NameDir(k1, LineDir(line)).Some? && !line.DirLine? && HasSlash(line.path) {
          AddNameAbsolute(NameDir(k1, LineDir(line)).value, ParentPath(line.path), BaseName(line.path));
        }
      }
    }
  }

  lemma NoLinesGo(k: Names)
    requires Rooted(k)
    ensures LinesGo(k, [])
  {
  }

  /** The sketch goes through exactly when every path starts with a slash and every link's target has a name by the time
      the link is made. */
  lemma SketchWhen(host: seq<Visit>, spec: seq<SpecLine>)
    ensures Sketch(host, spec).Some? <==>
      && VisitsAbsolute(host)
      && NameVisits(RootNames(), host).Some? && LinesGo(NameVisits(RootNames(), host).value, spec)
  {
    hide Absolute, NameVisits, NameLines, VisitsAbsolute, LinesGo;
    assert Absolute("/") by {
      RootAbsolute();
    }
    NameVisitsWhen(RootNames(), host);
    if NameVisits(RootNames(), host).Some? {
      NameLinesWhen(NameVisits(RootNames(), host).value, spec);
    }
  }

  lemma RootAbsolute()
    ensures Absolute("/")
  {
  }

  /** Every directory of a tree has an absolute path. */
  lemma {:induction false} DirsAbsolute(t: Tree, p: string)
    requires TreeOk(t) && p in t.dirs
    ensures Absolute(p)
    decreases |p|
  {
    hide TreeOk, HasSlash, LastSlash, ParentPath, Absolute;
    if p == "/" {
      RootAbsolute();
    } else {
      ParentIn(t, p);
      ParentShorter(p);
      ParentAbsolute(p);
      DirsAbsolute(t, ParentPath(p));
    }
  }

  lemma AbsAbsolute(t: Tree)
    requires TreeOk(t)
    ensures AllAbsolute(Abs(t))
  {
    KeysParts(t);
    hide TreeOk, Absolute, Distinct, NamesIn;
    forall p | p in Abs(t).names
      ensures Absolute(p)
    {
      assert p in Abs(t).names.Keys && p in t.dirs.Keys;
      DirsAbsolute(t, p);
    }
  }

  // --- a tree as its sketch -------------------------------------------------------------------

  function NamesIn(ents: seq<Entry>): (r: seq<string>)
    ensures |r| == |ents| && forall i :: 0 <= i < |ents| ==> r[i] == ents[i].name
  {
    seq(|ents|, i requires 0 <= i < |ents| => ents[i].name)
  }

  function Abs(t: Tree): (k: Names)
    ensures k.names.Keys == t.entries.Keys
  {
    Names(t.order, map p | p in t.entries :: NamesIn(t.entries[p]))
  }

  lemma AbsAppend(t: Tree, t': Tree, p: string, e: Entry)
    requires p in t.entries && t'.order == t.order && t'.entries == Append(t.entries, p, e)
    ensures Abs(t') == AddName(Abs(t), p, e.name)
  {
    assert NamesIn(t.entries[p] + [e]) == NamesIn(t.entries[p]) + [e.name];
    assert Abs(t').names == AddName(Abs(t), p, e.name).names;
  }

  lemma AbsNewDir(t: Tree, t': Tree, path: string, d: nat, parent: nat)
    requires HasSlash(path) && path !in t.entries && ParentPath(path) in t.entries
    requires t'.order == t.order + [path] && t'.entries == WithDirEntries(t.entries, path, d, parent)
    ensures Abs(t') == NameNewDir(Abs(t), path)
  {
    hide HasSlash, ParentPath, BaseName;
    var ents := [Entry(d, "."), Entry(parent, "..")];
    var mid := t.(order := t'.order, entries := t.entries[path := ents]);
    assert NamesIn(ents) == [".", ".."];
    assert Abs(mid).names == Abs(t).names[path := [".", ".."]];
    AbsAppend(mid, t', ParentPath(path), Entry(d, BaseName(path)));
  }

  // --- what a step uses, and that every inode has a name ----------------------------------------

  /** Same limits; so many inodes and blocks more. */
  ghost predicate Uses(t: Tree, t': Tree, inodes: int, blocks: int) {
    && t'.fs.ninodes == t.fs.ninodes && t'.fs.nblocks == t.fs.nblocks
    && t'.fs.nextIno == t.fs.nextIno + inodes && t'.fs.nextBlock == t.fs.nextBlock + blocks
  }

  ghost predicate Mentions(ents: seq<Entry>, n: nat) {
    exists i :: 0 <= i < |ents| && ents[i].num == n
  }

  ghost predicate Mentioned(entries: map<string, seq<Entry>>, n: nat) {
    exists p :: p in entries && Mentions(entries[p], n)
  }

  ghost predicate AllMentioned(t: Tree) {
    forall n: nat :: 2 <= n < t.fs.nextIno ==> Mentioned(t.entries, n)
  }

  lemma MentionedGrew(a: map<string, seq<Entry>>, b: map<string, seq<Entry>>, n: nat)
    requires Mentioned(a, n) && Grew(a, b)
    ensures Mentioned(b, n)
  {
    var p :| p in a && Mentions(a[p], n);
    var i :| 0 <= i < |a[p]| && a[p][i].num == n;
    assert a[p] <= b[p];
    assert b[p][i].num == n;
    assert Mentions(b[p], n);
  }

  lemma AllMentionedGrew(t: Tree, t': Tree)
    requires AllMentioned(t) && Grew(t.entries, t'.entries)
    requires forall n: nat :: t.fs.nextIno <= n < t'.fs.nextIno ==> Mentioned(t'.entries, n)
    ensures AllMentioned(t')
  {
    hide Mentioned, Grew;
    forall n: nat | 2 <= n < t'.fs.nextIno
      ensures Mentioned(t'.entries, n)
    {
      if n < t.fs.nextIno {
        MentionedGrew(t.entries, t'.entries, n);
      }
    }
  }

  lemma AppendMentions(entries: map<string, seq<Entry>>, p: string, e: Entry)
    requires p in entries
    ensures Mentioned(Append(entries, p, e), e.num)
  {
    var b: map<string, seq<Entry>> := Append(entries, p, e);
    assert b[p][|entries[p]|].num == e.num;
    assert Mentions(b[p], e.num);
  }

  /** An inode made together with an entry for it. */
  lemma EntryMentions(t: Tree, t': Tree, p: string, e: Entry)
    requires p in t.entries && t'.entries == Append(t.entries, p, e)
    requires t'.fs.nextIno <= t.fs.nextIno + 1 && (t'.fs.nextIno == t.fs.nextIno + 1 ==> e.num == t.fs.nextIno)
    requires AllMentioned(t)
    ensures AllMentioned(t')
  {
    hide Mentioned, Append, Grew;
    AppendGrew(t.entries, p, e);
    AppendMentions(t.entries, p, e);
    AllMentionedGrew(t, t');
  }

  /** So many blocks from `next` on do not pass the end; none always fit. */
  predicate Room(next: int, blocks: int, end: int) {
    blocks == 0 || next + blocks <= end
  }

  /** Outcome of a step or a run of steps from `t`: it succeeds exactly when its sketch goes through, `ok` holds, the
      table has room for its new directories and `inodes` more, and the image has room for `blocks`; and then it does
      what the sketch says and uses just that. */
  ghost predicate Outcome(t: Tree, r: Checked<Tree>, k: Option<Names>, inodes: int, blocks: int, ok: bool) {
    && (r.Success? <==>
          && k.Some? && ok
          && t.fs.nextIno + |k.value.order| - |t.order| + inodes <= t.fs.ninodes
          && Room(t.fs.nextBlock, blocks, t.fs.nblocks))
    && (r.Success? ==>
          && k == Some(Abs(r.value))
          && Uses(t, r.value, |r.value.order| - |t.order| + inodes, blocks)
          && (AllMentioned(t) ==> AllMentioned(r.value)))
  }

  /** One run after another. */
  lemma Compose(t: Tree, r1: Checked<Tree>, k1: Option<Names>, i1: int, b1: int, ok1: bool,
                r2: Checked<Tree>, k2: Option<Names>, i2: int, b2: int, ok2: bool)
    requires Outcome(t, r1, k1, i1, b1, ok1)
    requires r1.Success? ==> Outcome(r1.value, r2, k2, i2, b2, ok2)
    requires r1.Failure? ==> r2.Failure?
    requires k2.Some? ==> k1.Some? && |k2.value.order| >= |k1.value.order|
    requires i2 >= 0 && b1 >= 0 && b2 >= 0
    ensures Outcome(t, r2, k2, i1 + i2, b1 + b2, ok1 && ok2)
  {
    hide Abs, AllMentioned;
    if r1.Success? {
      assert |r1.value.order| == |k1.value.order| by {
        AbsOrder(r1.value);
      }
    }
  }

  lemma AbsOrder(t: Tree)
    ensures Abs(t).order == t.order
  {
  }

  lemma Nothing(t: Tree)
    requires t.fs.nextIno <= t.fs.ninodes
    ensures Outcome(t, Success(t), Some(Abs(t)), 0, 0, true)
  {
    hide Abs, AllMentioned;
    AbsOrder(t);
  }

  // --- directories ------------------------------------------------------------------------------

  lemma NewDirMentions(t: Tree, t': Tree, path: string, d: nat, parent: nat)
    requires HasSlash(path) && path !in t.entries && ParentPath(path) in t.entries
    requires t'.entries == WithDirEntries(t.entries, path, d, parent)
    requires d == t.fs.nextIno && t'.fs.nextIno == d + 1 && AllMentioned(t)
    ensures AllMentioned(t')
  {
    hide HasSlash, ParentPath, BaseName, Mentioned, Grew;
    NewDirEntries(t.entries, path, d, parent);
    AppendMentions(t.entries[path := [Entry(d, "."), Entry(parent, "..")]], ParentPath(path), Entry(d, BaseName(path)));
    AllMentionedGrew(t, t');
  }

  lemma WithDirSucceeds(s: State, parent: nat)
    requires parent in s.inodes
    ensures WithDir(s, parent).Success? <==> s.nextIno < s.ninodes
    ensures WithDir(s, parent).Success? ==>
      var s' := WithDir(s, parent).value;
      && s'.ninodes == s.ninodes && s'.nblocks == s.nblocks
      && s'.nextIno == s.nextIno + 1 && s'.nextBlock == s.nextBlock
  {
  }

  lemma NewDirIs(t: Tree, path: string)
    requires Keyed(t) && HasSlash(path) && path !in t.dirs && ParentPath(path) in t.dirs
    ensures NewDir(t, path).Success? <==> WithDir(t.fs, t.dirs[ParentPath(path)]).Success?
  {
    hide HasSlash, ParentPath, BaseName, Append, AddLink;
  }

  lemma NewDirOutcome(t: Tree, path: string)
    requires Keyed(t) && HasSlash(path) && path !in t.dirs && ParentPath(path) in t.dirs
    requires TreeOk(t)
    ensures Outcome(t, NewDir(t, path), Some(NameNewDir(Abs(t), path)), 0, 0, true)
  {
    KeysParts(t);
    hide TreeOk, HasSlash, ParentPath, BaseName, Abs, NameNewDir, AllMentioned, WithDirEntries, Distinct, NewDir,
      WithDir;
    var d, parent := t.fs.nextIno, t.dirs[ParentPath(path)];
    WithDirSucceeds(t.fs, parent);
    NewDirIs(t, path);
    NameNewDirOrder(Abs(t), path);
    AbsOrder(t);
    if NewDir(t, path).Success? {
      var t' := NewDir(t, path).value;
      NewDirParts(t, path);
      AbsNewDir(t, t', path, d, parent);
      if AllMentioned(t) {
        NewDirMentions(t, t', path, d, parent);
      }
    }
  }

  lemma NameNewDirOrder(k: Names, path: string)
    requires HasSlash(path) && ParentPath(path) in k.names
    ensures NameNewDir(k, path).order == k.order + [path]
  {
  }

  lemma InTable(t: Tree)
    requires TreeOk(t)
    ensures t.fs.nextIno <= t.fs.ninodes
  {
    hide AllocOk, NumsOk, LinksOk, ShapeOk, ModesOk, DirsEmpty, Distinct;
  }

  /** Making the parent does not make the path itself. */
  lemma GetDirNot(t: Tree, path: string)
    requires Keyed(t) && HasSlash(path) && path !in t.dirs && GetDir(t, ParentPath(path)).Success?
    ensures path !in GetDir(t, ParentPath(path)).value.dirs
  {
    ParentShorter(path);
    hide HasSlash, ParentPath, GetDir;
  }

  /** `getdir` succeeds exactly on absolute paths, given room in the table for the directories it has to make. */
  lemma {:induction false} GetDirOutcome(t: Tree, path: string)
    requires Keyed(t) && Rooted(Abs(t))
    requires TreeOk(t)
    ensures Outcome(t, GetDir(t, path), NameDir(Abs(t), path), 0, 0, true)
    ensures NameDir(Abs(t), path).Some? <==> Absolute(path)
    decreases |path|
  {
    hide TreeOk, HasSlash, LastSlash, ParentPath, BaseName, NewDir, Outcome, Abs, NameNewDir, Rooted, Absolute,
      AllAbsolute;
    AbsKey(t, path);
    AbsAbsolute(t);
    NameDirWhen(Abs(t), path);
    if path in t.dirs {
      InTable(t);
      Nothing(t);
    } else if !HasSlash(path) {
      NoOutcome(t, BadPath, 0);
    } else {
      ParentShorter(path);
      GetDirOutcome(t, ParentPath(path));
      DirStepOutcome(t, path);
    }
  }

  lemma DirStepOutcome(t: Tree, path: string)
    requires Keyed(t) && Rooted(Abs(t)) && path !in t.dirs && HasSlash(path)
    requires Outcome(t, GetDir(t, ParentPath(path)), NameDir(Abs(t), ParentPath(path)), 0, 0, true)
    requires TreeOk(t)
    ensures Outcome(t, GetDir(t, path), NameDir(Abs(t), path), 0, 0, true)
  {
    hide TreeOk, HasSlash, LastSlash, ParentPath, BaseName, NewDir, Outcome, Abs, NameNewDir, Rooted;
    AbsKey(t, path);
    ParentShorter(path);
    var pp := ParentPath(path);
    var r1, k1 := GetDir(t, pp), NameDir(Abs(t), pp);
    if r1.Success? {
      GetDirOk(t, pp);
      GetDirNot(t, path);
      OutcomeNames(t, r1.value, k1, 0, 0, true);
      NewDirOutcome(r1.value, path);
    }
    if k1.Some? {
      NameNewDirOrder(k1.value, path);
    }
    Compose(t, r1, k1, 0, 0, true, GetDir(t, path), NameDir(Abs(t), path), 0, 0, true);
  }

  lemma AbsKey(t: Tree, p: string)
    requires Keyed(t)
    ensures p in t.dirs <==> p in Abs(t).names
    ensures p in t.dirs <==> p in t.entries
  {
    assert p in Abs(t).names <==> p in Abs(t).names.Keys;
    assert p in t.entries <==> p in t.entries.Keys;
    assert p in t.dirs <==> p in t.dirs.Keys;
  }

  lemma NoOutcome(t: Tree, e: Error, inodes: int)
    ensures Outcome(t, Failure(e), None, inodes, 0, true)
  {
  }

  lemma OutcomeNames(t: Tree, t': Tree, k: Option<Names>, inodes: int, blocks: int, ok: bool)
    requires Outcome(t, Success(t'), k, inodes, blocks, ok)
    ensures k == Some(Abs(t'))
  {
    hide Abs, AllMentioned;
  }

  // --- host files -------------------------------------------------------------------------------

  predicate SizeOk(c: seq<byte>) {
    NBlocks(c) <= MAX_BLOCKS
  }

  predicate SizesOk(cs: seq<seq<byte>>) {
    forall i :: 0 <= i < |cs| ==> SizeOk(cs[i])
  }

  lemma WithFileSucceeds(s: State, mode: nat, content: seq<byte>)
    ensures WithFile(s, mode, content).Success? <==>
      s.nextIno < s.ninodes && SizeOk(content) && Room(s.nextBlock, Total(NBlocks(content)), s.nblocks)
    ensures WithFile(s, mode, content).Success? ==>
      var s' := WithFile(s, mode, content).value;
      && s'.ninodes == s.ninodes && s'.nblocks == s.nblocks
      && s'.nextIno == s.nextIno + 1 && s'.nextBlock == s.nextBlock + Total(NBlocks(content))
  {
    if s.nextIno < s.ninodes {
      var s1 := AllocInode(s, mode).value;
      StoreSucceedsWhen(s1, s.nextIno, content);
      SomeBlocks(content);
    }
  }

  lemma SomeBlocks(c: seq<byte>)
    ensures Total(NBlocks(c)) == 0 <==> c == []
  {
  }

  lemma AddFileIs(t: Tree, here: string, f: HostFile)
    requires Keyed(t) && here in t.entries
    ensures AddFile(t, here, f).Success? <==> WithFile(t.fs, FileMode(f), f.content).Success?
  {
    hide FsModel.StoreData, Append;
  }

  lemma AddFileOutcome(t: Tree, here: string, f: HostFile)
    requires Keyed(t) && here in t.entries
    ensures Outcome(t, AddFile(t, here, f), Some(AddName(Abs(t), here, f.name)), 1, Total(NBlocks(f.content)),
                    SizeOk(f.content))
  {
    hide Abs, AllMentioned, AddFile, WithFile, Append, NBlocks, Total, SizeOk, Room, FileMode;
    AddFileIs(t, here, f);
    WithFileSucceeds(t.fs, FileMode(f), f.content);
    AbsOrder(t);
    if AddFile(t, here, f).Success? {
      AddFileEffect(t, here, f);
      var e := Entry(t.fs.nextIno, f.name);
      AbsAppend(t, AddFile(t, here, f).value, here, e);
      if AllMentioned(t) {
        EntryMentions(t, AddFile(t, here, f).value, here, e);
      }
    }
  }

  lemma {:induction false} AddFilesOutcome(t: Tree, here: string, files: seq<HostFile>)
    requires Keyed(t) && here in t.entries && t.fs.nextIno <= t.fs.ninodes
    ensures Outcome(t, AddFiles(t, here, files), Some(NameFiles(Abs(t), here, files)), |files|,
                    RunTotal(FileContents(files)), SizesOk(FileContents(files)))
  {
    hide Abs, AddFile, Outcome, NBlocks, Total, SizeOk, AddName;
    if files == [] {
      Nothing(t);
    } else {
      var init, f := files[..|files| - 1], files[|files| - 1];
      AddFilesOutcome(t, here, init);
      var r1, k1 := AddFiles(t, here, init), NameFiles(Abs(t), here, init);
      TotalSnoc(FileContents(init), f.content);
      if r1.Success? {
        OutcomeNames(t, r1.value, Some(k1), |init|, RunTotal(FileContents(init)), SizesOk(FileContents(init)));
        AddFileOutcome(r1.value, here, f);
      }
      AddNameOrder(k1, here, f.name);
      Compose(t, r1, Some(k1), |init|, RunTotal(FileContents(init)), SizesOk(FileContents(init)),
              AddFiles(t, here, files), Some(NameFiles(Abs(t), here, files)), 1, Total(NBlocks(f.content)),
              SizeOk(f.content));
    }
  }

  lemma AddNameOrder(k: Names, p: string, name: string)
    requires p in k.names
    ensures AddName(k, p, name).order == k.order
  {
  }

  lemma TotalSnoc(cs: seq<seq<byte>>, c: seq<byte>)
    ensures RunTotal(cs + [c]) == RunTotal(cs) + Total(NBlocks(c))
    ensures SizesOk(cs + [c]) <==> SizesOk(cs) && SizeOk(c)
  {
    hide NBlocks, Total, SizeOk;
    assert (cs + [c])[..|cs|] == cs;
    assert forall i :: 0 <= i < |cs| ==> (cs + [c])[i] == cs[i];
    assert (cs + [c])[|cs|] == c;
  }

  lemma {:induction false} TotalAppend(cs: seq<seq<byte>>, ds: seq<seq<byte>>)
    ensures RunTotal(cs + ds) == RunTotal(cs) + RunTotal(ds)
    ensures SizesOk(cs + ds) <==> SizesOk(cs) && SizesOk(ds)
  {
    hide NBlocks, Total, SizeOk, SizesOk;
    if ds == [] {
      assert cs + ds == cs;
      NoSizes();
    } else {
      var init, c := ds[..|ds| - 1], ds[|ds| - 1];
      TotalAppend(cs, init);
      TotalSnoc(cs + init, c);
      TotalSnoc(init, c);
      assert ds == init + [c];
      Assoc(cs, init, [c]);
    }
  }

  lemma NoSizes()
    ensures SizesOk([])
  {
  }

  // --- visits -------------------------------------------------------------------------------------

  lemma AddVisitOutcome(t: Tree, v: Visit)
    requires Keyed(t) && Rooted(Abs(t))
    requires TreeOk(t)
    ensures Outcome(t, AddVisit(t, v), NameVisit(Abs(t), v), |v.files|, RunTotal(FileContents(v.files)),
                    SizesOk(FileContents(v.files)))
  {
    hide TreeOk, GetDir, NameDir, AddFiles, NameFiles, Abs, Outcome, RunTotal, SizesOk, FileContents;
    GetDirOutcome(t, v.here);
    var r1, k1 := GetDir(t, v.here), NameDir(Abs(t), v.here);
    if r1.Success? {
      GetDirOk(t, v.here);
      InTable(r1.value);
      AbsKey(r1.value, v.here);
      OutcomeNames(t, r1.value, k1, 0, 0, true);
      AddFilesOutcome(r1.value, v.here, v.files);
    }
    Compose(t, r1, k1, 0, 0, true, AddVisit(t, v), NameVisit(Abs(t), v), |v.files|, RunTotal(FileContents(v.files)),
            SizesOk(FileContents(v.files)));
  }

  lemma {:induction false} AddVisitsOutcome(t: Tree, host: seq<Visit>)
    requires Keyed(t) && Rooted(Abs(t))
    requires TreeOk(t)
    ensures Outcome(t, AddVisits(t, host), NameVisits(Abs(t), host), FileCount(host), RunTotal(HostContents(host)),
                    SizesOk(HostContents(host)))
  {
    hide TreeOk, AddVisit, NameVisit, Abs, Outcome, RunTotal, SizesOk, FileContents, TreeGrew, HasVisits, Rooted;
    if host == [] {
      InTable(t);
      NoSizes();
      NoTotal();
      Nothing(t);
    } else {
      var init, v := host[..|host| - 1], host[|host| - 1];
      AddVisitsOutcome(t, init);
      var r1, k1 := AddVisits(t, init), NameVisits(Abs(t), init);
      TotalAppend(HostContents(init), FileContents(v.files));
      if r1.Success? {
        AddVisitsOk(t, init);
        OutcomeNames(t, r1.value, k1, FileCount(init), RunTotal(HostContents(init)), SizesOk(HostContents(init)));
        AddVisitOutcome(r1.value, v);
      }
      Compose(t, r1, k1, FileCount(init), RunTotal(HostContents(init)), SizesOk(HostContents(init)),
              AddVisits(t, host), NameVisits(Abs(t), host), |v.files|, RunTotal(FileContents(v.files)),
              SizesOk(FileContents(v.files)));
    }
  }

  lemma NoTotal()
    ensures RunTotal([]) == 0
  {
  }

  // --- spec lines -----------------------------------------------------------------------------------

  lemma SetModeOutcome(t: Tree, n: nat, mode: nat)
    requires n in t.fs.inodes && t.fs.nextIno <= t.fs.ninodes
    ensures Outcome(t, SetMode(t, n, mode), Some(Abs(t)), 0, 0, true)
  {
    hide Mentioned;
    assert Abs(SetMode(t, n, mode).value) == Abs(t);
    hide Abs;
    AbsOrder(t);
  }

  lemma NameMatches(ents: seq<Entry>, name: string)
    ensures LastMatch(ents, name).Some? <==> name in NamesIn(ents)
  {
    LastMatchIs(ents, name);
    hide LastMatch, IsLast;
    if name in NamesIn(ents) {
      var i :| 0 <= i < |NamesIn(ents)| && NamesIn(ents)[i] == name;
      assert ents[i].name == name;
    }
    if i :| 0 <= i < |ents| && ents[i].name == name {
      assert NamesIn(ents)[i] == name;
    }
  }

  lemma LinkEntrySucceeds(t: Tree, parentPath: string, name: string, target: string)
    requires Keyed(t) && parentPath in t.entries
    requires TreeOk(t)
    ensures LinkEntry(t, parentPath, name, target).Success? <==> NameThere(Abs(t), target)
  {
    hide TreeOk, LastMatch, HasSlash, ParentPath, BaseName, NamesIn, Append, AddLink;
    if HasSlash(target) && ParentPath(target) in t.entries {
      var ents := t.entries[ParentPath(target)];
      NameMatches(ents, BaseName(target));
      if LastMatch(ents, BaseName(target)).Some? {
        LastMatchIs(ents, BaseName(target));
        LastIsThere(ents, BaseName(target), LastMatch(ents, BaseName(target)).value);
        EntryExists(t, ParentPath(target), Entry(LastMatch(ents, BaseName(target)).value, BaseName(target)));
      }
    }
  }

  lemma EntryExists(t: Tree, p: string, e: Entry)
    requires TreeOk(t) && p in t.entries && e in t.entries[p]
    ensures e.num in t.fs.inodes
  {
    hide AllocOk, KeysOk, LinksOk, ShapeOk, ModesOk, DirsEmpty;
  }

  lemma LinkEntryOutcome(t: Tree, parentPath: string, name: string, target: string)
    requires Keyed(t) && parentPath in t.entries
    requires TreeOk(t)
    ensures Outcome(t, LinkEntry(t, parentPath, name, target),
                    if NameThere(Abs(t), target) then Some(AddName(Abs(t), parentPath, name)) else None, 0, 0, true)
  {
    hide TreeOk, Abs, AddName, AllMentioned, LastMatch, HasSlash, ParentPath, BaseName, NameThere, Append;
    LinkEntrySucceeds(t, parentPath, name, target);
    InTable(t);
    AbsOrder(t);
    if NameThere(Abs(t), target) {
      var t' := LinkEntry(t, parentPath, name, target).value;
      var n := LastMatch(t.entries[ParentPath(target)], BaseName(target)).value;
      AddNameOrder(Abs(t), parentPath, name);
      AbsAppend(t, t', parentPath, Entry(n, name));
      if AllMentioned(t) {
        EntryMentions(t, t', parentPath, Entry(n, name));
      }
    }
  }

  lemma AddDeviceOutcome(t: Tree, parentPath: string, name: string, mode: nat, dev: nat)
    requires Keyed(t) && parentPath in t.entries
    ensures Outcome(t, AddDevice(t, parentPath, name, mode, dev), Some(AddName(Abs(t), parentPath, name)), 1, 0, true)
  {
    hide Abs, AddName, AllMentioned, Append;
    AbsOrder(t);
    AddNameOrder(Abs(t), parentPath, name);
    if AddDevice(t, parentPath, name, mode, dev).Success? {
      var t', e := AddDevice(t, parentPath, name, mode, dev).value, Entry(t.fs.nextIno, name);
      AbsAppend(t, t', parentPath, e);
      if AllMentioned(t) {
        EntryMentions(t, t', parentPath, e);
      }
    }
  }

  /** What a line does once its directory is there. */
  function RestOfLine(t: Tree, line: SpecLine): Checked<Tree>
    requires Keyed(t) && HasSlash(line.path) && LineDir(line) in t.dirs
  {
    match line
    case DirLine(path, mode) => SetMode(t, t.dirs[path], BitOr(S_IFDIR, mode))
    case LinkLine(path, target) => LinkEntry(t, ParentPath(path), BaseName(path), target)
    case DevLine(path, mode, block, major, minor) =>
      AddDevice(t, ParentPath(path), BaseName(path), DeviceMode(mode, block), DeviceNumber(major, minor))
  }

  function RestOfName(k: Names, line: SpecLine): Option<Names>
    requires HasSlash(line.path) && LineDir(line) in k.names
  {
    if line.DirLine? then Some(k)
    else if line.LinkLine? && !NameThere(k, line.target) then None
    else Some(AddName(k, ParentPath(line.path), BaseName(line.path)))
  }

  lemma RestOutcome(t: Tree, line: SpecLine)
    requires Keyed(t) && HasSlash(line.path) && LineDir(line) in t.dirs && LineDir(line) in Abs(t).names
    requires TreeOk(t)
    ensures Outcome(t, RestOfLine(t, line), RestOfName(Abs(t), line), One(line.DevLine?), 0, true)
  {
    hide TreeOk, Abs, SetMode, LinkEntry, AddDevice, HasSlash, ParentPath, BaseName, NameThere, AddName, Outcome, BitOr,
      DeviceMode, DeviceNumber;
    AbsKey(t, LineDir(line));
    match line
    case DirLine(path, mode) =>
      InTable(t);
      KeysParts(t);
      SetModeOutcome(t, t.dirs[path], BitOr(S_IFDIR, mode));
    case LinkLine(path, target) =>
      LinkEntryOutcome(t, ParentPath(path), BaseName(path), target);
    case DevLine(path, mode, block, major, minor) =>
      AddDeviceOutcome(t, ParentPath(path), BaseName(path), DeviceMode(mode, block), DeviceNumber(major, minor));
  }

  lemma RestOfNameOrder(k: Names, line: SpecLine)
    requires HasSlash(line.path) && LineDir(line) in k.names && RestOfName(k, line).Some?
    ensures RestOfName(k, line).value.order == k.order
  {
  }

  lemma AddLineOutcome(t: Tree, line: SpecLine)
    requires Keyed(t) && Rooted(Abs(t))
    requires TreeOk(t)
    ensures Outcome(t, AddLine(t, line), NameLine(Abs(t), line), One(line.DevLine?), 0, true)
  {
    hide TreeOk, Abs, GetDir, NameDir, HasSlash, ParentPath, BaseName, Outcome, SetMode, LinkEntry, AddDevice,
      NameThere, AddName, BitOr, DeviceMode, DeviceNumber, Rooted;
    if !HasSlash(line.path) {
      NoOutcome(t, BadPath, One(line.DevLine?));
    } else {
      var dir := LineDir(line);
      GetDirOutcome(t, dir);
      var r1, k1 := GetDir(t, dir), NameDir(Abs(t), dir);
      if k1.Some? {
        assert NameLine(Abs(t), line) == RestOfName(k1.value, line);
        if RestOfName(k1.value, line).Some? {
          RestOfNameOrder(k1.value, line);
        }
      }
      if r1.Success? {
        OutcomeNames(t, r1.value, k1, 0, 0, true);
        GetDirOk(t, dir);
        assert AddLine(t, line) == RestOfLine(r1.value, line);
        RestOutcome(r1.value, line);
      }
      Compose(t, r1, k1, 0, 0, true, AddLine(t, line), NameLine(Abs(t), line), One(line.DevLine?), 0, true);
    }
  }

  lemma {:induction false} AddLinesOutcome(t: Tree, spec: seq<SpecLine>)
    requires Keyed(t) && Rooted(Abs(t))
    requires TreeOk(t)
    ensures Outcome(t, AddLines(t, spec), NameLines(Abs(t), spec), DeviceLines(spec), 0, true)
  {
    hide TreeOk, AddLine, NameLine, Abs, Outcome, TreeGrew, LinesDone, Rooted;
    if spec == [] {
      InTable(t);
      Nothing(t);
    } else {
      var init, line := spec[..|spec| - 1], spec[|spec| - 1];
      AddLinesOutcome(t, init);
      var r1, k1 := AddLines(t, init), NameLines(Abs(t), init);
      if r1.Success? {
        AddLinesOk(t, init);
        OutcomeNames(t, r1.value, k1, DeviceLines(init), 0, true);
        AddLineOutcome(r1.value, line);
      }
      Compose(t, r1, k1, DeviceLines(init), 0, true,
              AddLines(t, spec), NameLines(Abs(t), spec), One(line.DevLine?), 0, true);
    }
  }

  // --- the grown tree ---------------------------------------------------------------------------------

  lemma RootOutcome(nblocks: nat, ninodes: nat)
    ensures var s := Init(nblocks, ninodes);
      && (Root(s).Success? <==> 3 <= s.ninodes)
      && (Root(s).Success? ==>
            var t := Root(s).value;
            && Keyed(t) && Rooted(Abs(t)) && Abs(t) == RootNames() && AllMentioned(t)
            && t.fs.nextIno == 3 && t.fs.nextBlock == s.FirstData() && t.fs.ninodes == s.ninodes
            && t.fs.nblocks == s.nblocks && |t.order| == 1)
  {
    var s := Init(nblocks, ninodes);
    if Root(s).Success? {
      RootValue(nblocks, ninodes);
      var t := Root(s).value;
      assert NamesIn(t.entries["/"]) == [".", ".."];
      assert Abs(t).names == RootNames().names;
      assert t.entries["/"][0].num == 2;
      assert Mentions(t.entries["/"], 2);
    }
  }

  /** The four conditions on the input that do not concern directory records, and what follows from them. */
  ghost predicate Growable(s: State, host: seq<Visit>, spec: seq<SpecLine>) {
    var k := Sketch(host, spec);
    && k.Some?
    && 2 + |k.value.order| + FileCount(host) + DeviceLines(spec) <= s.ninodes
    && SizesOk(HostContents(host))
    && Room(s.FirstData(), RunTotal(HostContents(host)), s.nblocks)
  }

  ghost predicate GrownAs(s: State, t: Tree, host: seq<Visit>, spec: seq<SpecLine>) {
    && Sketch(host, spec) == Some(Abs(t)) && AllMentioned(t)
    && t.fs.nextIno == 2 + |t.order| + FileCount(host) + DeviceLines(spec)
    && t.fs.nextBlock == s.FirstData() + RunTotal(HostContents(host))
    && t.fs.nblocks == s.nblocks && t.fs.ninodes == s.ninodes
  }

  lemma OutcomeParts(t: Tree, r: Checked<Tree>, k: Option<Names>, inodes: int, blocks: int, ok: bool)
    requires Outcome(t, r, k, inodes, blocks, ok)
    ensures r.Success? <==> (
      && k.Some? && ok
      && t.fs.nextIno + |k.value.order| - |t.order| + inodes <= t.fs.ninodes
      && Room(t.fs.nextBlock, blocks, t.fs.nblocks))
    ensures r.Success? ==> k == Some(Abs(r.value)) && Uses(t, r.value, |r.value.order| - |t.order| + inodes, blocks)
    ensures r.Success? && AllMentioned(t) ==> AllMentioned(r.value)
  {
    hide Abs, AllMentioned;
  }

  lemma {:induction false} SketchMakes(host: seq<Visit>, spec: seq<SpecLine>)
    requires Sketch(host, spec).Some?
    ensures |Sketch(host, spec).value.order| >= 1
  {
  }

  lemma GrowOutcome(nblocks: nat, ninodes: nat, host: seq<Visit>, spec: seq<SpecLine>)
    ensures var s := Init(nblocks, ninodes);
      && (Grow(s, host, spec).Success? <==> Growable(s, host, spec))
      && (Grow(s, host, spec).Success? ==> GrownAs(s, Grow(s, host, spec).value, host, spec))
  {
    hide TreeOk, Init, Root, AddVisits, AddLines, NameVisits, NameLines, Abs, AllMentioned, RunTotal, SizesOk,
      FileCount, DeviceLines, HostContents, RootNames, Outcome, Rooted, TreeGrew, HasVisits, LinesDone;
    var s := Init(nblocks, ninodes);
    RootOutcome(nblocks, ninodes);
    if Sketch(host, spec).Some? {
      SketchMakes(host, spec);
    }
    if Root(s).Success? {
      var t0 := Root(s).value;
      RootOk(nblocks, ninodes);
      AddVisitsOutcome(t0, host);
      var r1, k1 := AddVisits(t0, host), NameVisits(Abs(t0), host);
      if r1.Success? {
        AddVisitsOk(t0, host);
        OutcomeNames(t0, r1.value, k1, FileCount(host), RunTotal(HostContents(host)), SizesOk(HostContents(host)));
        TreeAlloc(r1.value);
        AddLinesOutcome(r1.value, spec);
      }
      Compose(t0, r1, k1, FileCount(host), RunTotal(HostContents(host)), SizesOk(HostContents(host)),
              Grow(s, host, spec), Sketch(host, spec), DeviceLines(spec), 0, true);
      OutcomeParts(t0, Grow(s, host, spec), Sketch(host, spec), FileCount(host) + DeviceLines(spec),
                   RunTotal(HostContents(host)), SizesOk(HostContents(host)));
    }
  }

  // --- directory records --------------------------------------------------------------------------------

  predicate NameFits(name: string) {
    Latin1(name) && |name| <= 14
  }

  /** Blocks of content of a directory of `m` entries. */
  function DirSize(m: nat): nat {
    (16 * m + 1023) / 1024
  }

  predicate NumsFit(ents: seq<Entry>) {
    forall i :: 0 <= i < |ents| ==> ents[i].num < 0x1_0000
  }

  predicate DirFits(names: seq<string>) {
    DirSize(|names|) <= MAX_BLOCKS && forall i :: 0 <= i < |names| ==> NameFits(names[i])
  }

  lemma {:induction false} BlobSucceeds(ents: seq<Entry>)
    ensures Blob(ents).Success? <==> forall i :: 0 <= i < |ents| ==> Dirent(ents[i]).Success?
  {
    hide Dirent;
    if ents != [] {
      BlobSucceeds(ents[..|ents| - 1]);
    }
  }

  lemma BlobFits(ents: seq<Entry>)
    ensures Blob(ents).Success? && DirSize(|ents|) <= MAX_BLOCKS <==> DirFits(NamesIn(ents)) && NumsFit(ents)
  {
    BlobSucceeds(ents);
    hide Blob, NamesIn;
    assert forall i :: 0 <= i < |ents| ==> NamesIn(ents)[i] == ents[i].name;
  }

  /** Directories whose contents can be stored: in the table, with their 13 addresses. */
  ghost predicate Storable(t: Tree, order: seq<string>) {
    && Keyed(t)
    && forall i :: 0 <= i < |order| ==>
         && order[i] in t.dirs && t.dirs[order[i]] in t.fs.inodes && |t.fs.inodes[t.dirs[order[i]]].addr| == 13
  }

  lemma StoreDirSucceeds(t: Tree, p: string)
    requires Storable(t, [p])
    ensures p in t.entries
    ensures StoreDir(t, p).Success? <==>
      (&& DirFits(NamesIn(t.entries[p])) && NumsFit(t.entries[p])
       && Room(t.fs.nextBlock, Total(DirSize(|t.entries[p]|)), t.fs.nblocks))
    ensures StoreDir(t, p).Success? ==>
      var t' := StoreDir(t, p).value;
      && t'.fs.nextBlock == t.fs.nextBlock + Total(DirSize(|t.entries[p]|)) && t'.fs.nblocks == t.fs.nblocks
      && t'.dirs == t.dirs && t'.entries == t.entries
      && (forall n :: n in t.fs.inodes ==> n in t'.fs.inodes)
      && (forall n :: n in t.fs.inodes && |t.fs.inodes[n].addr| == 13 ==> |t'.fs.inodes[n].addr| == 13)
  {
    assert [p][0] == p;
    var ents := t.entries[p];
    BlobFits(ents);
    hide Blob, DirFits, NumsFit, Total, NamesIn;
    if Blob(ents).Success? {
      var blob := Blob(ents).value;
      StoreSucceedsWhen(t.fs, t.dirs[p], blob);
      SomeBlocks(blob);
      assert NBlocks(blob) == DirSize(|ents|);
    }
  }

  function DirsTotal(entries: map<string, seq<Entry>>, order: seq<string>): nat {
    if order == [] then 0 else
      var p := order[|order| - 1];
      DirsTotal(entries, order[..|order| - 1]) + (if p in entries then Total(DirSize(|entries[p]|)) else 0)
  }

  ghost predicate DirsFit(entries: map<string, seq<Entry>>, order: seq<string>) {
    forall i :: 0 <= i < |order| && order[i] in entries ==>
      DirFits(NamesIn(entries[order[i]])) && NumsFit(entries[order[i]])
  }

  lemma DirsFitSnoc(entries: map<string, seq<Entry>>, order: seq<string>)
    requires order != []
    ensures var p := order[|order| - 1];
      DirsFit(entries, order) <==>
        DirsFit(entries, order[..|order| - 1]) && (p in entries ==> DirFits(NamesIn(entries[p])) && NumsFit(entries[p]))
  {
    hide DirFits, NumsFit, NamesIn;
    var init := order[..|order| - 1];
    assert forall i :: 0 <= i < |init| ==> init[i] == order[i];
  }

  lemma {:induction false} StoreDirsSucceeds(t: Tree, order: seq<string>)
    requires Storable(t, order)
    ensures StoreDirs(t, order).Success? <==>
      DirsFit(t.entries, order) && Room(t.fs.nextBlock, DirsTotal(t.entries, order), t.fs.nblocks)
    ensures StoreDirs(t, order).Success? ==>
      var t' := StoreDirs(t, order).value;
      && t'.fs.nextBlock == t.fs.nextBlock + DirsTotal(t.entries, order) && t'.fs.nblocks == t.fs.nblocks
      && t'.dirs == t.dirs && t'.entries == t.entries
      && (forall n :: n in t.fs.inodes ==> n in t'.fs.inodes)
      && (forall n :: n in t.fs.inodes && |t.fs.inodes[n].addr| == 13 ==> |t'.fs.inodes[n].addr| == 13)
  {
    hide StoreDir, DirsFit, Total, DirFits, NumsFit, NamesIn;
    if order == [] {
      NoDirs(t.entries);
    } else {
      var init, p := order[..|order| - 1], order[|order| - 1];
      assert forall i :: 0 <= i < |init| ==> init[i] == order[i];
      StoreDirsSucceeds(t, init);
      DirsFitSnoc(t.entries, order);
      assert p in t.dirs.Keys;
      if StoreDirs(t, init).Success? {
        StoreDirSucceeds(StoreDirs(t, init).value, p);
      }
    }
  }

  lemma NoDirs(entries: map<string, seq<Entry>>)
    ensures DirsFit(entries, [])
  {
  }

  // --- inode numbers in directory records -----------------------------------------------------------------

  /** Every record's number fits exactly when every inode's does: each inode has a record. */
  lemma NumsFitWhen(t: Tree)
    requires TreeOk(t) && AllMentioned(t)
    ensures (forall p :: p in t.entries ==> NumsFit(t.entries[p])) <==> t.fs.nextIno <= 0x1_0000
  {
    hide TreeOk, AllMentioned;
    if t.fs.nextIno <= 0x1_0000 {
      forall p | p in t.entries
        ensures NumsFit(t.entries[p])
      {
        forall i | 0 <= i < |t.entries[p]|
          ensures t.entries[p][i].num < 0x1_0000
        {
          NumBelow(t, p, i);
        }
      }
    } else {
      LastMentioned(t, t.fs.nextIno - 1);
      var p :| p in t.entries && Mentions(t.entries[p], t.fs.nextIno - 1);
      var i :| 0 <= i < |t.entries[p]| && t.entries[p][i].num == t.fs.nextIno - 1;
      assert !NumsFit(t.entries[p]);
    }
  }

  lemma NumBelow(t: Tree, p: string, i: nat)
    requires TreeOk(t) && p in t.entries && i < |t.entries[p]|
    ensures t.entries[p][i].num < t.fs.nextIno
  {
    EntryExists(t, p, t.entries[p][i]);
    hide KeysOk, NumsOk, LinksOk, ShapeOk, ModesOk, DirsEmpty, RunsTile, FilesOk, IsStored;
  }

  lemma LastMentioned(t: Tree, n: nat)
    requires AllMentioned(t) && 2 <= n < t.fs.nextIno
    ensures Mentioned(t.entries, n)
  {
    hide Mentioned;
  }

  // --- the theorem ------------------------------------------------------------------------------------------

  /** Blocks of the directories of a sketch. */
  function NamesTotal(names: map<string, seq<string>>, order: seq<string>): nat {
    if order == [] then 0 else
      var p := order[|order| - 1];
      NamesTotal(names, order[..|order| - 1]) + (if p in names then Total(DirSize(|names[p]|)) else 0)
  }

  lemma {:induction false} TotalsAgree(t: Tree, order: seq<string>)
    ensures NamesTotal(Abs(t).names, order) == DirsTotal(t.entries, order)
  {
    hide NamesIn, Total;
    if order != [] {
      TotalsAgree(t, order[..|order| - 1]);
    }
  }

  /** Everything `build` needs of its input: its paths and link targets make sense, in order; there are inodes enough,
      and not too many for a directory record; no file is too large and no directory; every name can be written; and
      files and directories together leave room. */
  ghost predicate Feasible(s: State, host: seq<Visit>, spec: seq<SpecLine>) {
    var k := Sketch(host, spec);
    && k.Some?
    && 2 + |k.value.order| + FileCount(host) + DeviceLines(spec) <= s.ninodes
    && 2 + |k.value.order| + FileCount(host) + DeviceLines(spec) <= 0x1_0000
    && SizesOk(HostContents(host))
    && (forall p :: p in k.value.names ==> DirFits(k.value.names[p]))
    && s.FirstData() + RunTotal(HostContents(host)) + NamesTotal(k.value.names, k.value.order) <= s.nblocks
  }

  lemma {:induction false} RootTakesBlocks(entries: map<string, seq<Entry>>, order: seq<string>)
    requires "/" in order && "/" in entries && entries["/"] != []
    ensures DirsTotal(entries, order) > 0
  {
    hide Total;
    var init, p := order[..|order| - 1], order[|order| - 1];
    if p == "/" {
      DirTakesBlocks(|entries[p]|);
    } else {
      assert "/" in init;
      RootTakesBlocks(entries, init);
    }
  }

  lemma DirTakesBlocks(m: nat)
    requires m > 0
    ensures Total(DirSize(m)) > 0
  {
  }

  lemma TreeStorable(t: Tree)
    requires TreeOk(t)
    ensures Storable(t, t.order)
    ensures forall p :: p in t.order <==> p in t.entries
    ensures "/" in t.order && t.entries["/"] != []
  {
    KeysParts(t);
    TreeAlloc(t);
    RootEntries(t);
    hide TreeOk, Distinct;
    forall i | 0 <= i < |t.order|
      ensures t.order[i] in t.dirs && t.dirs[t.order[i]] in t.fs.inodes && |t.fs.inodes[t.dirs[t.order[i]]].addr| == 13
    {
      assert t.order[i] in t.order;
      AddrsThere(t, t.dirs[t.order[i]]);
    }
    assert forall p :: p in t.entries <==> p in t.entries.Keys;
    assert forall p :: p in t.dirs <==> p in t.dirs.Keys;
  }

  lemma AddrsThere(t: Tree, n: nat)
    requires TreeOk(t) && n in t.fs.inodes
    ensures |t.fs.inodes[n].addr| == 13
  {
    hide KeysOk, NumsOk, LinksOk, ShapeOk, ModesOk, DirsEmpty, RunsTile, FilesOk, IsStored;
  }

  lemma RootEntries(t: Tree)
    requires TreeOk(t)
    ensures "/" in t.dirs && "/" in t.entries && t.entries["/"] != []
  {
    hide AllocOk, NumsOk, LinksOk, ModesOk, DirsEmpty, Distinct, HasSlash, ParentPath, BaseName;
    assert DirShape(t.dirs, t.entries, "/");
  }

  lemma FitsAgree(t: Tree)
    requires TreeOk(t) && AllMentioned(t)
    ensures DirsFit(t.entries, t.order) <==>
      (forall p :: p in Abs(t).names ==> DirFits(Abs(t).names[p])) && t.fs.nextIno <= 0x1_0000
  {
    TreeStorable(t);
    NumsFitWhen(t);
    hide TreeOk, AllMentioned, DirFits, NumsFit, NamesIn, Storable;
    assert forall p :: p in Abs(t).names <==> p in t.entries by {
      assert forall p :: p in Abs(t).names <==> p in Abs(t).names.Keys;
      assert forall p :: p in t.entries <==> p in t.entries.Keys;
    }
    if DirsFit(t.entries, t.order) {
      forall p | p in t.entries
        ensures DirFits(Abs(t).names[p]) && NumsFit(t.entries[p])
      {
        var i :| 0 <= i < |t.order| && t.order[i] == p;
      }
    }
    if (forall p :: p in Abs(t).names ==> DirFits(Abs(t).names[p])) && t.fs.nextIno <= 0x1_0000 {
      forall i | 0 <= i < |t.order| && t.order[i] in t.entries
        ensures DirFits(NamesIn(t.entries[t.order[i]])) && NumsFit(t.entries[t.order[i]])
      {
        assert t.order[i] in Abs(t).names;
      }
    }
  }

  /** For every input and every size of filesystem, `build` gets to the point where it writes the i-list if and only if
      the input is feasible. */
  lemma BuildSucceedsWhen(nblocks: nat, ninodes: nat, host: seq<Visit>, spec: seq<SpecLine>)
    ensures Build(Init(nblocks, ninodes), host, spec).Success? <==> Feasible(Init(nblocks, ninodes), host, spec)
  {
    hide TreeOk, Init, Grow, StoreDirs, Sketch, Abs, AllMentioned, DirFits, DirsFit, RunTotal, SizesOk, HostContents,
      FileCount, DeviceLines, HasVisits, LinesDone, Storable, NamesTotal, DirsTotal;
    var s := Init(nblocks, ninodes);
    GrowOutcome(nblocks, ninodes, host, spec);
    if Grow(s, host, spec).Success? {
      var t := Grow(s, host, spec).value;
      GrowOk(nblocks, ninodes, host, spec);
      TreeStorable(t);
      StoreDirsSucceeds(t, t.order);
      FitsAgree(t);
      AbsOrder(t);
      TotalsAgree(t, t.order);
      RootTakesBlocks(t.entries, t.order);
    }
  }

  /** A build does not change the size of anything. */
  lemma BuildSize(nblocks: nat, ninodes: nat, host: seq<Visit>, spec: seq<SpecLine>)
    requires Build(Init(nblocks, ninodes), host, spec).Success?
    ensures var t := Build(Init(nblocks, ninodes), host, spec).value;
      t.fs.nblocks == nblocks && t.fs.ninodes == Init(nblocks, ninodes).ninodes
  {
    hide Init, Grow, StoreDirs, Storing, HasVisits, LinesDone, TreeOk, Abs, AllMentioned;
    var t := Grow(Init(nblocks, ninodes), host, spec).value;
    GrowOutcome(nblocks, ninodes, host, spec);
    GrowOk(nblocks, ninodes, host, spec);
    assert t.order[..|t.order|] == t.order;
    StoreDirsOk(t, |t.order|);
    StoringSize(t, StoreDirs(t, t.order).value);
    assert Init(nblocks, ninodes).nblocks == nblocks by {
      InitSize(nblocks, ninodes);
    }
  }

  lemma InitSize(nblocks: nat, ninodes: nat)
    ensures Init(nblocks, ninodes).nblocks == nblocks
  {
  }

  lemma StoringSize(t: Tree, t': Tree)
    requires Storing(t, t', t.order)
    ensures t'.fs.nblocks == t.fs.nblocks && t'.fs.ninodes == t.fs.ninodes
  {
    hide AllocOk, MetaKept, OthersEmpty, DirStored;
  }
}

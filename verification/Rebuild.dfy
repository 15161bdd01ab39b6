/** tools/rebuild-disk.sh: build the filesystem for a drive, lay it over a blank pack. The disk that results is at once
    a filesystem to its reader and a drive to the controller. */
module Rebuild {
  import opened Bytes
  import opened S5Reader
  import opened FsModel
  import opened TreeModel
  import opened AllocInvariant
  import opened TreeInvariant
  import opened TreeFinish
  import opened FreeList
  import opened Image
  import opened RoundTrip
  import opened InputAccounts
  import opened FreeBytes
  import opened Stamps
  import opened MkDisk
  import opened EndToEnd
  import BuildOutcome
  import Mkfs
  import WriteOutcome

  /** The whole disk still begins with the filesystem image. */
  lemma DiskIsImage(s: Shape, name: seq<byte>, fs: seq<byte>, t: Tree, now: nat, fl: Cache)
    requires MadeFor(s, name, fs) && Finished(t) && ImageOf(fs, t.fs, now, fl)
    ensures ImageOf(Disk(s, name, fs), t.fs, now, fl)
  {
    hide MadeFor, Disk, Finished, ImageOf, InodesOk, RunsTile, FilesOk, KeysOk, NumsOk, ModesOk, Layout, Spunit;
    OverlayKeepsSwap(s, name, fs);
    FinishedParts(t);
    var d := Disk(s, name, fs);
    MadeLength(s, name, fs);
    assert d == d[..|fs|] + d[|fs|..];
    ImageExtends(fs, d[|fs|..], t.fs, now, fl);
  }

  lemma MadeLength(s: Shape, name: seq<byte>, fs: seq<byte>)
    requires MadeFor(s, name, fs)
    ensures |fs| <= |Disk(s, name, fs)|
  {
    hide Header, RootBlocks, Roomy;
    MadeParts(s, name, fs);
  }

  /** Walking the whole disk returns the tree, as walking the filesystem image does. */
  lemma DiskWalks(s: Shape, name: seq<byte>, fs: seq<byte>, t: Tree, now: nat, fl: Cache)
    requires MadeFor(s, name, fs) && Written(fs, t, now, fl)
    ensures WalkAll(Disk(s, name, fs)) == WalkAll(fs) == Some(WholeListing(t))
  {
    hide MadeFor, Disk, Finished, ImageOf, WalkAll, WholeListing;
    DiskIsImage(s, name, fs, t, now, fl);
    WalkReturnsTree(fs, t, now, fl);
    WalkReturnsTree(Disk(s, name, fs), t, now, fl);
  }

  /** What the script leaves in `disk/dc1.master.img`. */
  ghost predicate Rebuilt(disk: seq<byte>, s: Shape, t: Tree, now: nat) {
    && |disk| == 512 * Spunit(s)
    && Mkfs.Imaged(disk, t.fs, now)
    && GeometrySeen(disk, s)
  }

  /** A drive that holds the disk shows the controller its shape. */
  ghost predicate GeometrySeen(disk: seq<byte>, s: Shape) {
    forall d: DcuModel.Drive ::
      d.sectors == SectorsOf(disk) && d.Ok(0) ==> DcuModel.FreshGeometry(d) == (s.nsec, s.ntr)
  }

  lemma MakesFor(s: Shape, name: seq<byte>, fs: seq<byte>, t: Tree, now: nat, fl: Cache)
    requires Usable(s) && Header(s, name).Some? && ImageOf(fs, t.fs, now, fl)
    requires |fs| == 1024 * RootBlocks(s) && |fs| >= 92 && fs[..92] == Header(s, name).value
    ensures MadeFor(s, name, fs)
  {
    hide ImageOf, Header, HeadFits, PartFits, RootBlocks;
    Mkfs.ImageLength(fs, t.fs, now, fl);
  }

  lemma DiskSeen(s: Shape, name: seq<byte>, fs: seq<byte>)
    requires MadeFor(s, name, fs)
    ensures GeometrySeen(Disk(s, name, fs), s)
  {
    hide MadeFor, Disk, DcuModel.FreshGeometry, SectorsOf;
    forall d: DcuModel.Drive | d.sectors == SectorsOf(Disk(s, name, fs)) && d.Ok(0)
      ensures DcuModel.FreshGeometry(d) == (s.nsec, s.ntr)
    {
      DiskGeometry(s, name, fs, d);
    }
  }

  lemma DiskRebuilt(s: Shape, name: seq<byte>, fs: seq<byte>, t: Tree, now: nat, fl: Cache)
    requires MadeFor(s, name, fs) && Finished(t) && ImageOf(fs, t.fs, now, fl)
    ensures Rebuilt(Disk(s, name, fs), s, t, now)
  {
    MadeParts(s, name, fs);
    hide MadeFor, Disk, Finished, ImageOf, GeometrySeen, Layout, Spunit, RootBlocks, Header;
    DiskIsImage(s, name, fs, t, now, fl);
    OverlayKeepsSwap(s, name, fs);
    DiskSeen(s, name, fs);
  }

  /** There is a disk exactly when the tree builds and its numbers fit their fields. The controller takes its shape from
      it, and the reader finds the whole input on it. */
  method RebuildDisk(s: Shape, name: seq<byte>, host: seq<Visit>, spec: seq<SpecLine>, now: nat)
    returns (r: Option<seq<byte>>)
    requires Usable(s) && now <= 0xffff_ffff
    ensures var fs := Init(RootBlocks(s), Mkfs.TableSize(RootBlocks(s)));
      r.Some? <==> BuildOutcome.Feasible(fs, host, spec) && WriteOutcome.FieldsFit(fs.ninodes, host, spec)
    ensures var t := TreeModel.Build(Init(RootBlocks(s), Mkfs.TableSize(RootBlocks(s))), host, spec);
      && (r.Some? <==> t.Success? && Writable(t.value.fs))
      && (r.Some? ==>
            && Rebuilt(r.value, s, t.value, now) && Stamped(r.value, t.value.fs, now)
            && FreeListLies(r.value, RootBlocks(s), RootBlocks(s) - t.value.fs.nextBlock)
            && ReadsBack(r.value, t.value, Init(RootBlocks(s), Mkfs.TableSize(RootBlocks(s))), host, spec))
  {
    hide TreeModel.Build, Init, Rebuilt, Writable, ImageOf, Finished, Head, PartBytes, ReadsBack, Stamped, FreeListLies,
      BuildOutcome.Feasible, WriteOutcome.FieldsFit;
    var header := Disktab(s, name);
    RootBlocksFit(s);
    assert |header.value| == 92 && RootBlocks(s) <= 0xffff_ffff;
    hide Header, HeadFits, PartFits, Layout, Spunit, RootBlocks, Usable;
    var nblocks: nat := RootBlocks(s);
    var fs := Mkfs.Make(nblocks, host, spec, now, header.value);
    if fs.Failure? {
      return None;
    }
    ghost var t := TreeModel.Build(Init(nblocks, Mkfs.TableSize(nblocks)), host, spec).value;
    BuildOk(nblocks, Mkfs.TableSize(nblocks), host, spec);
    ghost var fl :| ImageOf(fs.value, t.fs, now, fl);
    MakesFor(s, name, fs.value, t, now, fl);
    MadeParts(s, name, fs.value);
    DiskRebuilt(s, name, fs.value, t, now, fl);
    DiskIsImage(s, name, fs.value, t, now, fl);
    ImageIsStamped(Disk(s, name, fs.value), t.fs, now, fl);
    BuildOutcome.BuildSize(nblocks, Mkfs.TableSize(nblocks), host, spec);
    FreeListIs(Disk(s, name, fs.value), t.fs, now, fl);
    NextWithin(fs.value, t.fs, now, fl);
    ImageReadsBack(nblocks, Mkfs.TableSize(nblocks), host, spec, Disk(s, name, fs.value), now, fl);
    return Some(Overlay(Pack(s, header.value), fs.value));
  }
}

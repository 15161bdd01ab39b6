/** With which of its own messages a program stops, and when: the conditions are those of the tests in the order the
    source makes them, in numbers. */
module Failures {
  import opened Bytes
  import opened FileStore
  import opened FsModel
  import opened S5Reader
  import opened TreeModel
  import Coff

  /** "out of inodes": the last number of the table is kept back. */
  lemma OutOfInodesWhen(s: State, mode: nat)
    ensures AllocInode(s, mode).Failure? <==> s.nextIno + 1 > s.ninodes
    ensures AllocInode(s, mode).Failure? ==> AllocInode(s, mode) == Failure(OutOfInodes)
  {
    assert AllocInode(s, mode).Success? ==> s.nextIno < s.ninodes;
  }

  /** "file needs triple indirection": content past 65802 blocks, and the image had room for all of its data blocks, for
      the two indirect blocks and for the 256 second-level ones. "image full": any other failure. */
  lemma StoreStops(s: State, ino: nat, content: seq<byte>)
    requires ino in s.inodes && |s.inodes[ino].addr| == 13
    ensures StoreData(s, ino, content) == Failure(TripleIndirect) <==>
      |content| > 67_381_248 && 1024 * (s.nextBlock + 258) + |content| <= 1024 * s.nblocks
    ensures StoreData(s, ino, content).Failure? && StoreData(s, ino, content) != Failure(TripleIndirect) ==>
      StoreData(s, ino, content) == Failure(ImageFull)
  {
    hide Total;
  }

  /** "name too long" comes after the encoding of the name and before the number is packed. */
  lemma DirentStops(e: Entry)
    ensures Dirent(e).Success? <==> e.num < 65536 && |e.name| <= 14 && forall c :: c in e.name ==> c as int < 256
    ensures Dirent(e) == Failure(NameTooLong) <==> |e.name| > 14 && forall c :: c in e.name ==> c as int < 256
  {
    if Latin1(e.name) {
      forall c | c in e.name
        ensures c as int < 256
      {
        var i :| 0 <= i < |e.name| && e.name[i] == c;
      }
    }
    if forall c :: c in e.name ==> c as int < 256 {
      assert forall i :: 0 <= i < |e.name| ==> e.name[i] in e.name;
    }
  }

  /** "link target not found": the directory of the target is there and no entry of it has the name. */
  lemma LinkStops(t: Tree, p: string, name: string, target: string)
    requires Keyed(t) && p in t.entries
    ensures LinkEntry(t, p, name, target) == Failure(LinkNotFound) <==>
      && HasSlash(target) && ParentPath(target) in t.entries
      && forall e :: e in t.entries[ParentPath(target)] ==> e.name != BaseName(target)
  {
    hide HasSlash, ParentPath, BaseName;
    if HasSlash(target) && ParentPath(target) in t.entries {
      NoMatchWhen(t.entries[ParentPath(target)], BaseName(target));
    }
  }

  lemma {:induction false} NoMatchWhen(ents: seq<Entry>, name: string)
    ensures LastMatch(ents, name).None? <==> forall e :: e in ents ==> e.name != name
  {
    if ents != [] {
      var n := |ents| - 1;
      NoMatchWhen(ents[..n], name);
      assert ents == ents[..n] + [ents[n]];
    }
  }

  lemma {:induction false} TableStops(d: seq<byte>, n: nat)
    ensures Coff.Table(d, n).Failure? ==> Coff.Table(d, n).error in {Coff.Truncated, Coff.Undecodable}
  {
    hide Coff.Strip, Coff.Utf8;
    if n > 0 {
      TableStops(d, n - 1);
    }
  }

  /** The exits of the conversion, in order; each leaves the later ones unasked. */
  lemma ConvertStops(d: seq<byte>)
    ensures Coff.Convert(d) == Failure(Coff.NotCoff) <==> |d| >= 20 && !(d[0] == 0x54 && d[1] == 0x01)
    ensures Coff.Convert(d) == Failure(Coff.OptionalHeader) <==>
      |d| >= 20 && d[0] == 0x54 && d[1] == 0x01 && !(d[16] == 40 && d[17] == 0)
    ensures Coff.Convert(d) == Failure(Coff.BadMagic) <==>
      && |d| >= 60 && d[0] == 0x54 && d[1] == 0x01 && d[16] == 40 && d[17] == 0
      && !(d[20] == 0x0b && d[21] == 0x01)
    ensures Coff.Convert(d) == Failure(Coff.Overlap) <==>
      Coff.Parse(d).Success? && var k := Coff.Parse(d).value; k.text.paddr + k.text.size > k.data.paddr
  {
    hide Coff.Table, Coff.Output, Coff.HeaderFits;
    if |d| >= 4 {
      TableStops(d, U16(d, 2));
    }
  }
}

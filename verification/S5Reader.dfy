/** The filesystem reader of tools/s5fs.py: it knows nothing of how an image was written.
    A read that Python would abort with an exception (a slice too short to unpack) is `None`. */
module S5Reader {
  import opened Bytes

  datatype InodeRec = InodeRec(mode: nat, nlink: int, uid: nat, gid: nat, size: nat, blk: seq<nat>)

  datatype Entry = Entry(num: nat, name: string)

  datatype Item = Item(path: string, ino: nat, inode: InodeRec)

  /** `stat.S_ISDIR` */
  predicate IsDir(mode: nat) {
    mode / 4096 % 16 == 4
  }

  // --- specification ------------------------------------------------------

  function InodeOffset(ino: nat): nat {
    if ino == 0 then 1984 else 2048 + (ino - 1) * 64
  }

  function ReadInode(d: seq<byte>, ino: nat): Option<InodeRec> {
    var e := Slice(d, InodeOffset(ino), InodeOffset(ino) + 64);
    if |e| < 51 then None else
      Some(InodeRec(U16(e, 0), I16(e, 2), U16(e, 4), U16(e, 6), U32(e, 8),
                    seq(13, i requires 0 <= i < 13 => U24(e, 12 + 3 * i))))
  }

  function Blk(d: seq<byte>, n: nat): seq<byte> {
    if n == 0 then Zeros(1024) else Slice(d, n * 1024, (n + 1) * 1024)
  }

  function Ind(d: seq<byte>, n: nat): Option<seq<nat>> {
    var b := Blk(d, n);
    if |b| < 1024 then None else Some(seq(256, i requires 0 <= i < 256 => U32(b, 4 * i)))
  }

  /** The words of a block, none for a null pointer. */
  function IndOrNone(d: seq<byte>, n: nat): Option<seq<nat>> {
    if n == 0 then Some([]) else Ind(d, n)
  }

  /** The data pointers below a list of second-level blocks, which a null pointer ends. */
  function Inner(d: seq<byte>, ms: seq<nat>): Option<seq<nat>> {
    if ms == [] || ms[0] == 0 then Some([]) else
      var first :- Ind(d, ms[0]);
      var rest :- Inner(d, ms[1..]);
      Some(first + rest)
  }

  /** Every pointer whose block `data` appends, in order. */
  function DataPointers(d: seq<byte>, blk: seq<nat>): Option<seq<nat>>
    requires |blk| == 13
  {
    var single :- IndOrNone(d, blk[10]);
    var outer :- IndOrNone(d, blk[11]);
    var double :- Inner(d, outer);
    Some(blk[..10] + single + double)
  }

  function Gather(d: seq<byte>, ptrs: seq<nat>): seq<byte> {
    if ptrs == [] then [] else Gather(d, ptrs[..|ptrs| - 1]) + Blk(d, ptrs[|ptrs| - 1])
  }

  function Data(d: seq<byte>, i: InodeRec): Option<seq<byte>>
    requires |i.blk| == 13
  {
    var ptrs :- DataPointers(d, i.blk);
    Some(Slice(Gather(d, ptrs), 0, i.size))
  }

  /** `name.split(b'\0')[0].decode('latin1')` */
  function CString(s: seq<byte>): string {
    if s == [] || s[0] == 0 then "" else [s[0] as char] + CString(s[1..])
  }

  function DirEntries(b: seq<byte>, o: nat): Option<seq<Entry>>
    decreases |b| - o
  {
    if o >= |b| then Some([]) else
    if o + 16 > |b| then None else
      var rest :- DirEntries(b, o + 16);
      var n := U16(b, o);
      Some(if n != 0 then [Entry(n, CString(b[o + 2..o + 16]))] + rest else rest)
  }

  function ReadDir(d: seq<byte>, ino: nat): Option<seq<Entry>> {
    var i :- ReadInode(d, ino);
    var b :- Data(d, i);
    DirEntries(b, 0)
  }

  function DepthLeft(depth: nat): nat {
    if depth < 12 then 12 - depth else 0
  }

  function Walk(d: seq<byte>, ino: nat, path: string, depth: nat): Option<seq<Item>>
    decreases DepthLeft(depth), 1, 0
  {
    var ents :- ReadDir(d, ino);
    WalkEntries(d, ents, path, depth)
  }

  /** `walk()` with its default arguments. */
  function WalkAll(d: seq<byte>): Option<seq<Item>> {
    Walk(d, 2, "", 0)
  }

  function WalkEntries(d: seq<byte>, ents: seq<Entry>, path: string, depth: nat): Option<seq<Item>>
    decreases DepthLeft(depth), 0, |ents|
  {
    if ents == [] then Some([]) else
    if ents[0].name == "." || ents[0].name == ".." then WalkEntries(d, ents[1..], path, depth) else
      var i :- ReadInode(d, ents[0].num);
      var p := path + "/" + ents[0].name;
      var below :- if IsDir(i.mode) && depth < 12 then Walk(d, ents[0].num, p, depth + 1) else Some([]);
      var rest :- WalkEntries(d, ents[1..], path, depth);
      Some([Item(p, ents[0].num, i)] + below + rest)
  }

  lemma GatherSnoc(d: seq<byte>, p: seq<nat>, x: nat)
    ensures Gather(d, p + [x]) == Gather(d, p) + Blk(d, x)
  {
    assert (p + [x])[..|p|] == p;
  }

  lemma {:induction false} GatherAppend(d: seq<byte>, p: seq<nat>, q: seq<nat>)
    ensures Gather(d, p + q) == Gather(d, p) + Gather(d, q)
  {
    hide Blk;
    if q == [] {
      assert p + q == p;
      assert Gather(d, p) + Gather(d, q) == Gather(d, p);
    } else {
      var q', x := q[..|q| - 1], q[|q| - 1];
      GatherAppend(d, p, q');
      assert q == q' + [x];
      Assoc(p, q', [x]);
      GatherSnoc(d, p + q', x);
      GatherSnoc(d, q', x);
      Assoc(Gather(d, p), Gather(d, q'), Blk(d, x));
    }
  }

  // --- the reader's own loops ---------------------------------------------

  class S5 {
    const d: seq<byte>

    constructor (image: seq<byte>)
      ensures d == image
    {
      d := image;
    }

    /** Append the block of every pointer in `ptrs` to `out`. */
    method AppendBlocks(ptrs: seq<nat>, out: seq<byte>) returns (r: seq<byte>)
      ensures r == out + Gather(d, ptrs)
    {
      hide Blk;
      r := out;
      for k := 0 to |ptrs|
        invariant r == out + Gather(d, ptrs[..k])
      {
        r := r + Blk(d, ptrs[k]);
        assert ptrs[..k + 1] == ptrs[..k] + [ptrs[k]];
        GatherSnoc(d, ptrs[..k], ptrs[k]);
        Assoc(out, Gather(d, ptrs[..k]), Blk(d, ptrs[k]));
      }
      assert ptrs[..|ptrs|] == ptrs;
    }

    method ReadData(i: InodeRec) returns (r: Option<seq<byte>>)
      requires |i.blk| == 13
      ensures r == Data(d, i)
    {
      var out := AppendBlocks(i.blk[..10], []);
      assert out == Gather(d, i.blk[..10]);
      var single := IndOrNone(d, i.blk[10]);
      if single == None {
        return None;
      }
      out := AppendBlocks(single.value, out);
      ghost var head := i.blk[..10] + single.value;
      GatherAppend(d, i.blk[..10], single.value);
      var outer := IndOrNone(d, i.blk[11]);
      if outer == None {
        return None;
      }
      var rest := AppendInner(outer.value, out);
      if rest == None {
        return None;
      }
      GatherAppend(d, head, Inner(d, outer.value).value);
      return Some(Slice(rest.value, 0, i.size));
    }

    /** The double-indirect loop of `data`. */
    method AppendInner(ms: seq<nat>, out: seq<byte>) returns (r: Option<seq<byte>>)
      ensures match Inner(d, ms)
        case None => r == None
        case Some(ptrs) => r == Some(out + Gather(d, ptrs))
    {
      var acc := out;
      ghost var sofar: seq<nat> := [];
      OwesAll(Inner(d, ms));
      assert ms[0..] == ms;
      assert out + [] == out;
      var k := 0;
      while k < |ms| && ms[k] != 0
        invariant 0 <= k <= |ms|
        invariant acc == out + Gather(d, sofar)
        invariant Owes(sofar, Inner(d, ms[k..]), Inner(d, ms))
        decreases |ms| - k
      {
        var words := Ind(d, ms[k]);
        assert ms[k..][1..] == ms[k + 1..];
        if words == None {
          return None;
        }
        assert Inner(d, ms[k..]) == Prepend(words.value, Inner(d, ms[k + 1..]));
        OwesLess(sofar, words.value, Inner(d, ms[k + 1..]), Inner(d, ms));
        acc := AppendBlocks(words.value, acc);
        GatherAppend(d, sofar, words.value);
        Assoc(out, Gather(d, sofar), Gather(d, words.value));
        sofar := sofar + words.value;
        k := k + 1;
      }
      OwesNothing(sofar, Inner(d, ms));
      return Some(acc);
    }

    method ReadEntries(ino: nat) returns (r: Option<seq<Entry>>)
      ensures r == ReadDir(d, ino)
    {
      var i := ReadInode(d, ino);
      if i == None {
        return None;
      }
      var b := ReadData(i.value);
      if b == None {
        return None;
      }
      r := Unpack(b.value);
    }

    /** The loop of `readdir` over 16-byte records. */
    method Unpack(b: seq<byte>) returns (r: Option<seq<Entry>>)
      ensures r == DirEntries(b, 0)
    {
      var ents: seq<Entry> := [];
      var o := 0;
      OwesAll(DirEntries(b, 0));
      while o < |b|
        invariant 0 <= o
        invariant Owes(ents, DirEntries(b, o), DirEntries(b, 0))
      {
        if o + 16 > |b| {
          return None;
        }
        var n := U16(b, o);
        if n != 0 {
          var e := Entry(n, CString(b[o + 2..o + 16]));
          assert DirEntries(b, o) == Prepend([e], DirEntries(b, o + 16));
          OwesLess(ents, [e], DirEntries(b, o + 16), DirEntries(b, 0));
          ents := ents + [e];
        }
        o := o + 16;
      }
      OwesNothing(ents, DirEntries(b, 0));
      return Some(ents);
    }

    /** `walk` with its shared accumulator `out`. */
    method WalkFrom(ino: nat, path: string, depth: nat, out: seq<Item>) returns (r: Option<seq<Item>>)
      ensures r == Prepend(out, Walk(d, ino, path, depth))
      decreases DepthLeft(depth)
    {
      var read := ReadEntries(ino);
      if read == None {
        return None;
      }
      var ents := read.value;
      ghost var total := Walk(d, ino, path, depth);
      ghost var emitted: seq<Item> := [];
      var acc := out;
      OwesAll(total);
      assert ents[0..] == ents;
      assert out + [] == out;
      var k := 0;
      while k < |ents|
        invariant 0 <= k <= |ents|
        invariant acc == out + emitted
        invariant Owes(emitted, WalkEntries(d, ents[k..], path, depth), total)
      {
        assert ents[k..][1..] == ents[k + 1..];
        var e := ents[k];
        ghost var rest := WalkEntries(d, ents[k + 1..], path, depth);
        k := k + 1;
        if e.name == "." || e.name == ".." {
          continue;
        }
        var i := ReadInode(d, e.num);
        if i == None {
          return None;
        }
        var item := Item(path + "/" + e.name, e.num, i.value);
        acc := acc + [item];
        ghost var piece := [item];
        if IsDir(i.value.mode) && depth < 12 {
          var more := WalkFrom(e.num, item.path, depth + 1, acc);
          if more == None {
            return None;
          }
          acc := more.value;
          ghost var below := Walk(d, e.num, item.path, depth + 1).value;
          Assoc(out + emitted, [item], below);
          piece := [item] + below;
        } else {
          assert [item] + [] == [item];
        }
        assert WalkEntries(d, ents[k - 1..], path, depth) == Prepend(piece, rest);
        OwesLess(emitted, piece, rest, total);
        Assoc(out, emitted, piece);
        emitted := emitted + piece;
      }
      OwesNothing(emitted, total);
      return Some(acc);
    }
  }
}

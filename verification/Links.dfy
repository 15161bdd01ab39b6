/** Link counts: how often each inode is named across all directory entries. */
module Links {
  import opened Bytes
  import opened FsModel
  import opened S5Reader
  import opened TreeModel

  /** How many of the entries name inode `n`. */
  function Names(ents: seq<Entry>, n: nat): nat {
    if ents == [] then 0 else Names(ents[..|ents| - 1], n) + One(ents[|ents| - 1].num == n)
  }

  /** How many entries name inode `n`, over the directories of `order`. */
  function Refs(order: seq<string>, entries: map<string, seq<Entry>>, n: nat): nat
    requires forall p :: p in order ==> p in entries
  {
    if order == [] then 0 else
      Refs(order[..|order| - 1], entries, n) + Names(entries[order[|order| - 1]], n)
  }

  ghost predicate Distinct(order: seq<string>) {
    forall i, j :: 0 <= i < j < |order| ==> order[i] != order[j]
  }

  lemma NamesSnoc(ents: seq<Entry>, e: Entry, n: nat)
    ensures Names(ents + [e], n) == Names(ents, n) + One(e.num == n)
  {
    assert (ents + [e])[..|ents|] == ents;
  }

  lemma {:induction false} RefsFrame(order: seq<string>, a: map<string, seq<Entry>>, b: map<string, seq<Entry>>, n: nat)
    requires forall p :: p in order ==> p in a && p in b && a[p] == b[p]
    ensures Refs(order, a, n) == Refs(order, b, n)
  {
    if order != [] {
      RefsFrame(order[..|order| - 1], a, b, n);
    }
  }

  /** Appending an entry adds one reference. */
  lemma {:induction false} RefsAppend(order: seq<string>, entries: map<string, seq<Entry>>, p: string, e: Entry, n: nat)
    requires Distinct(order) && p in order
    requires forall q :: q in order ==> q in entries
    ensures Refs(order, Append(entries, p, e), n) == Refs(order, entries, n) + One(e.num == n)
  {
    var init, last := order[..|order| - 1], order[|order| - 1];
    if p == last {
      RefsFrame(init, entries, Append(entries, p, e), n);
      NamesSnoc(entries[p], e, n);
    } else {
      assert p in init;
      RefsAppend(init, entries, p, e, n);
    }
  }

  lemma RefsSnoc(order: seq<string>, entries: map<string, seq<Entry>>, p: string, ents: seq<Entry>, n: nat)
    requires p !in order
    requires forall q :: q in order ==> q in entries
    ensures Refs(order + [p], entries[p := ents], n) == Refs(order, entries, n) + Names(ents, n)
  {
    assert (order + [p])[..|order|] == order;
    RefsFrame(order, entries, entries[p := ents], n);
  }

  lemma TwoNames(a: Entry, b: Entry, n: nat)
    ensures Names([a, b], n) == One(a.num == n) + One(b.num == n)
  {
    NamesSnoc([], a, n);
    NamesSnoc([a], b, n);
    assert [] + [a] == [a] && [a] + [b] == [a, b];
  }

  /** A new directory adds `.` and its name for itself, and `..` for its parent. */
  lemma RefsNewDir(order: seq<string>, entries: map<string, seq<Entry>>, path: string, parentPath: string,
                   name: string, d: nat, parent: nat, n: nat)
    requires Distinct(order) && forall p :: p in order ==> p in entries
    requires path !in order && parentPath in order
    ensures var mid := entries[path := [Entry(d, "."), Entry(parent, "..")]];
      Refs(order + [path], Append(mid, parentPath, Entry(d, name)), n)
      == Refs(order, entries, n) + 2 * One(d == n) + One(parent == n)
  {
    var ents := [Entry(d, "."), Entry(parent, "..")];
    TwoNames(ents[0], ents[1], n);
    RefsSnoc(order, entries, path, ents, n);
    RefsAppend(order + [path], entries[path := ents], parentPath, Entry(d, name), n);
  }

  function LinkCount(inodes: map<nat, Inode>, n: nat): nat {
    if n in inodes then inodes[n].nlink else 0
  }

  ghost predicate Listed(t: Tree) {
    && Distinct(t.order)
    && forall p :: p in t.order ==> p in t.entries
  }

  /** Each inode's `nlink` is the number of entries naming it, and no entry names a number not handed out. */
  ghost predicate LinksOk(t: Tree) {
    && Listed(t)
    && forall n: nat :: Refs(t.order, t.entries, n) == LinkCount(t.fs.inodes, n)
  }

  lemma LinksAppend(t: Tree, t': Tree, p: string, e: Entry)
    requires LinksOk(t) && p in t.order && p in t.entries
    requires t'.order == t.order && t'.entries == Append(t.entries, p, e)
    requires forall n: nat :: LinkCount(t'.fs.inodes, n) == LinkCount(t.fs.inodes, n) + One(n == e.num)
    ensures LinksOk(t')
  {
    hide LinkCount;
    forall n: nat
      ensures Refs(t'.order, t'.entries, n) == LinkCount(t'.fs.inodes, n)
    {
      RefsAppend(t.order, t.entries, p, e, n);
      assert Refs(t.order, t.entries, n) == LinkCount(t.fs.inodes, n);
    }
  }

  lemma LinksSame(t: Tree, t': Tree)
    requires LinksOk(t) && t'.order == t.order && t'.entries == t.entries
    requires forall n: nat :: LinkCount(t'.fs.inodes, n) == LinkCount(t.fs.inodes, n)
    ensures LinksOk(t')
  {
    hide Refs, LinkCount;
    forall n: nat
      ensures Refs(t'.order, t'.entries, n) == LinkCount(t'.fs.inodes, n)
    {
      assert Refs(t.order, t.entries, n) == LinkCount(t.fs.inodes, n);
    }
  }

  lemma LinksNewDir(t: Tree, t': Tree, path: string, parentPath: string, name: string, d: nat, parent: nat)
    requires LinksOk(t) && path !in t.order && parentPath in t.order && parentPath in t.entries
    requires t'.order == t.order + [path]
    requires t'.entries == Append(t.entries[path := [Entry(d, "."), Entry(parent, "..")]], parentPath, Entry(d, name))
    requires forall n: nat ::
      LinkCount(t'.fs.inodes, n) == LinkCount(t.fs.inodes, n) + 2 * One(d == n) + One(parent == n)
    ensures LinksOk(t')
  {
    hide Refs, LinkCount;
    assert Distinct(t'.order);
    forall n: nat
      ensures Refs(t'.order, t'.entries, n) == LinkCount(t'.fs.inodes, n)
    {
      RefsNewDir(t.order, t.entries, path, parentPath, name, d, parent, n);
      assert Refs(t.order, t.entries, n) == LinkCount(t.fs.inodes, n);
    }
  }
}
